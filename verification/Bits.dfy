/** The bit operations of the emitted UTF-8 helpers, reduced to arithmetic. */
module Bits {
  import opened Wasm

  function BitOr(a: nat, b: nat): (r: nat) {
    if a == 0 then b
    else if b == 0 then a
    else (if a % 2 == 1 || b % 2 == 1 then 1 else 0) + 2 * BitOr(a / 2, b / 2)
  }

  lemma AndEven(a: nat, c: nat)
    ensures BitAnd(a, 2 * c) == 2 * BitAnd(a / 2, c)
  {
    if a != 0 && c != 0 {
      assert (2 * c) % 2 == 0 && (2 * c) / 2 == c;
    }
  }

  lemma AndOdd(a: nat, c: nat)
    ensures BitAnd(a, 2 * c + 1) == a % 2 + 2 * BitAnd(a / 2, c)
  {
    if a != 0 {
      assert (2 * c + 1) % 2 == 1 && (2 * c + 1) / 2 == c;
    }
  }

  lemma OrEven(a: nat, c: nat)
    ensures BitOr(a, 2 * c) == a % 2 + 2 * BitOr(a / 2, c)
  {
    if a != 0 && c != 0 {
      assert (2 * c) % 2 == 0 && (2 * c) / 2 == c;
    }
  }

  // Splitting off the lowest bit of a remainder.

  lemma Mod4(a: nat)
    ensures a % 4 == a % 2 + 2 * ((a / 2) % 2)
  {
  }

  lemma Mod8(a: nat)
    ensures a % 8 == a % 2 + 2 * ((a / 2) % 4)
  {
  }

  lemma Mod16(a: nat)
    ensures a % 16 == a % 2 + 2 * ((a / 2) % 8)
  {
  }

  lemma Mod32(a: nat)
    ensures a % 32 == a % 2 + 2 * ((a / 2) % 16)
  {
  }

  lemma Mod64(a: nat)
    ensures a % 64 == a % 2 + 2 * ((a / 2) % 32)
  {
  }

  /** Masks of low bits; six of them are the payload of a continuation byte. */
  lemma And1(a: nat)
    ensures BitAnd(a, 1) == a % 2
  {
    AndOdd(a, 0);
  }

  lemma And3(a: nat)
    ensures BitAnd(a, 3) == a % 4
  {
    AndOdd(a, 1);
    And1(a / 2);
    Mod4(a);
  }

  lemma And7(a: nat)
    ensures BitAnd(a, 7) == a % 8
  {
    AndOdd(a, 3);
    And3(a / 2);
    Mod8(a);
  }

  lemma And15(a: nat)
    ensures BitAnd(a, 15) == a % 16
  {
    AndOdd(a, 7);
    And7(a / 2);
    Mod16(a);
  }

  lemma And31(a: nat)
    ensures BitAnd(a, 31) == a % 32
  {
    AndOdd(a, 15);
    And15(a / 2);
    Mod32(a);
  }

  lemma And63(a: nat)
    ensures BitAnd(a, 63) == a % 64
  {
    AndOdd(a, 31);
    And31(a / 2);
    Mod64(a);
  }

  /** The top two bits of a byte. */
  lemma AndC0(a: nat)
    ensures BitAnd(a, 0xC0) == 64 * ((a / 64) % 4)
  {
    AndEven(a, 0x60);
    AndEven(a / 2, 0x30);
    AndEven(a / 4, 0x18);
    AndEven(a / 8, 0xC);
    AndEven(a / 16, 6);
    AndEven(a / 32, 3);
    And3(a / 64);
    assert (a / 2) / 2 == a / 4 && (a / 4) / 2 == a / 8 && (a / 8) / 2 == a / 16;
    assert (a / 16) / 2 == a / 32 && (a / 32) / 2 == a / 64;
  }

  /** Setting bits above the low ones adds them. */
  lemma Or2(x: nat, k: nat)
    requires x < 2
    ensures BitOr(x, 2 * k) == x + 2 * k
  {
    OrEven(x, k);
  }

  lemma Or4(x: nat, k: nat)
    requires x < 4
    ensures BitOr(x, 4 * k) == x + 4 * k
  {
    OrEven(x, 2 * k);
    Or2(x / 2, k);
  }

  lemma Or8(x: nat, k: nat)
    requires x < 8
    ensures BitOr(x, 8 * k) == x + 8 * k
  {
    OrEven(x, 4 * k);
    Or4(x / 2, k);
  }

  lemma Or16(x: nat, k: nat)
    requires x < 16
    ensures BitOr(x, 16 * k) == x + 16 * k
  {
    OrEven(x, 8 * k);
    Or8(x / 2, k);
  }

  lemma Or32(x: nat, k: nat)
    requires x < 32
    ensures BitOr(x, 32 * k) == x + 32 * k
  {
    OrEven(x, 16 * k);
    Or16(x / 2, k);
  }

  lemma Or64(x: nat, k: nat)
    requires x < 64
    ensures BitOr(x, 64 * k) == x + 64 * k
  {
    OrEven(x, 32 * k);
    Or32(x / 2, k);
  }
}
