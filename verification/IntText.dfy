/** Decimal text of 64-bit integers: the emitted parser and the runtime's formatter. */
module IntText {
  import opened Base
  import opened Utf8
  import opened Slices

  const TWO63 := 0x8000_0000_0000_0000
  const TWO64 := 0x1_0000_0000_0000_0000

  /** 64-bit wrap-around. */
  function Wrap64(n: int): (r: i64)
    ensures -TWO63 <= n < TWO63 ==> r == n
  {
    (n + TWO63) % TWO64 - TWO63
  }

  /** Wrapping is congruence modulo 2^64. */
  lemma WrapShift(a: int, k: int)
    ensures Wrap64(a + k * TWO64) == Wrap64(a)
  {
    var q := (a + TWO63) / TWO64;
    var m := (a + TWO63) % TWO64;
    assert a + k * TWO64 + TWO63 == (q + k) * TWO64 + m;
  }

  function Wraps(n: int): (k: int)
    ensures n == Wrap64(n) + k * TWO64
  {
    (n + TWO63) / TWO64
  }

  /** One step of the accumulator: multiply, wrap, add, wrap. */
  lemma WrapDigit(a: int, d: int)
    ensures Wrap64(Wrap64(Wrap64(a) * 10) + d) == Wrap64(a * 10 + d)
  {
    var w := Wrap64(a) * 10;
    WrapShift(Wrap64(w) + d, Wraps(w));
    assert Wrap64(w) + d + Wraps(w) * TWO64 == w + d;
    WrapShift(w + d, 10 * Wraps(a));
    assert w + d + 10 * Wraps(a) * TWO64 == a * 10 + d;
  }

  lemma WrapNegate(a: int)
    ensures Wrap64(Wrap64(a) * -1) == Wrap64(-a)
  {
    WrapShift(Wrap64(a) * -1, -Wraps(a));
    assert Wrap64(a) * -1 + -Wraps(a) * TWO64 == -a;
  }

  // ----- Numerals -----

  predicate IsDigit(b: byte) { 48 <= b <= 57 }

  predicate AllDigits(s: seq<byte>) { forall i | 0 <= i < |s| :: IsDigit(s[i]) }

  function DigitsValue(s: seq<byte>): (n: int) {
    if s == [] then 0 else DigitsValue(s[..|s| - 1]) * 10 + (s[|s| - 1] as int - 48)
  }

  predicate HasSign(s: seq<byte>) { s != [] && (s[0] == 45 || s[0] == 43) }

  function Magnitude(s: seq<byte>): (digits: seq<byte>) { if HasSign(s) then s[1..] else s }

  /** An optional sign and one or more digits. */
  predicate IsIntText(s: seq<byte>) { Magnitude(s) != [] && AllDigits(Magnitude(s)) }

  /** The integer that the text denotes, however large. */
  function IntValue(s: seq<byte>): (n: int) {
    if s != [] && s[0] == 45 then -DigitsValue(Magnitude(s)) else DigitsValue(Magnitude(s))
  }

  // ----- The parser -----

  /** `$int_from_string_helper`: lengths and indices are compared as signed words. */
  method ParseInt(s: seq<byte>) returns (r: Option<i64>)
    requires |s| < 0x8000_0000
    ensures r.Some? <==> IsIntText(s)
    ensures r.Some? ==> r.value == Wrap64(IntValue(s))
  {
    var acc: i64, i, sign: i64, ok := 0, 0, 1, true;
    var len := |s|;
    if len == 0 {
      ok := false;
    } else {
      if s[0] == 45 {
        sign := -1;
        i := 1;
        if len == 1 { ok := false; }
      } else if s[0] == 43 {
        i := 1;
        if len == 1 { ok := false; }
      } else {
        i := 0;
      }
      if ok {
        var digits := Magnitude(s);
        ghost var from := i;
        assert digits[..0] == [];
        while i < len
          invariant from <= i <= len && ok
          invariant Read(digits, i - from, acc)
        {
          assert digits[i - from] == s[i];
          if s[i] < 48 || s[i] > 57 {
            ok := false;
            break;
          }
          NextDigit(digits, i - from, acc);
          acc := Wrap64(Wrap64(acc * 10) + (s[i] as int - 48));
          i := i + 1;
        }
        assert ok ==> digits[..i - from] == digits;
      }
    }
    if ok {
      WrapNegate(DigitsValue(Magnitude(s)));
      return Some(Wrap64(acc * sign));
    } else {
      return None;
    }
  }

  /** State of the digit loop: the first `k` bytes are digits and `acc` is their value, wrapped. */
  predicate Read(digits: seq<byte>, k: nat, acc: i64) {
    k <= |digits| && AllDigits(digits[..k]) && acc == Wrap64(DigitsValue(digits[..k]))
  }

  lemma {:induction false} NextDigit(digits: seq<byte>, k: nat, acc: i64)
    requires k < |digits| && IsDigit(digits[k]) && Read(digits, k, acc)
    ensures Read(digits, k + 1, Wrap64(Wrap64(acc * 10) + (digits[k] as int - 48)))
  {
    var before, after := digits[..k], digits[..k + 1];
    assert after[..k] == before;
    assert forall i | 0 <= i < k :: after[i] == before[i];
    WrapDigit(DigitsValue(before), digits[k] as int - 48);
  }

  // ----- The formatter -----

  function DigitByte(d: nat): (b: byte)
    requires d < 10
  {
    48 + d
  }

  /** Decimal digits without leading zeros. */
  function Digits(n: nat): (s: seq<byte>) {
    if n < 10 then [DigitByte(n)] else Digits(n / 10) + [DigitByte(n % 10)]
  }

  /** The decimal text of an integer. */
  function Decimal(n: int): (s: seq<byte>) {
    if n < 0 then [45] + Digits(-n) else Digits(n)
  }

  function Pow10(k: nat): (n: nat)
    ensures n > 0
  {
    if k == 0 then 1 else 10 * Pow10(k - 1)
  }

  lemma Pow10Of19()
    ensures Pow10(19) == 10_000_000_000_000_000_000
  {
    Pow10Thousand(0);
    Pow10Thousand(3);
    Pow10Thousand(6);
    Pow10Thousand(9);
    Pow10Thousand(12);
    Pow10Thousand(15);
    assert Pow10(19) == 10 * Pow10(18);
  }

  lemma Pow10Thousand(k: nat)
    ensures Pow10(k + 3) == 1000 * Pow10(k)
  {
    assert Pow10(k + 3) == 10 * Pow10(k + 2) && Pow10(k + 2) == 10 * Pow10(k + 1);
  }

  lemma {:induction false} DigitsShort(n: nat, k: nat)
    requires n < Pow10(k) && k > 0
    ensures |Digits(n)| <= k
  {
    if n >= 10 {
      DigitsShort(n / 10, k - 1);
    }
  }

  /** No 64-bit integer has more than 19 digits. */
  lemma ShortText(n: i64)
    ensures |Digits(if n < 0 then 0 - n else n)| <= 19
  {
    Pow10Of19();
    var m: nat := if n < 0 then 0 - n else n;
    DigitsShort(m, 19);
  }

  /** A numeral without a leading zero is what its value is written as. */
  lemma {:induction false} NumeralIsDigits(s: seq<byte>)
    requires s != [] && AllDigits(s) && s[0] != 48
    ensures DigitsValue(s) > 0 && Digits(DigitsValue(s)) == s
  {
    var front := s[..|s| - 1];
    if front != [] {
      NumeralIsDigits(front);
      assert s == front + [s[|s| - 1]];
    }
  }

  predicate Numeral(s: seq<byte>, v: int) { s != [] && AllDigits(s) && s[0] != 48 && DigitsValue(s) == v }

  lemma NumeralMore(s: seq<byte>, v: int, d: byte)
    requires Numeral(s, v) && IsDigit(d)
    ensures Numeral(s + [d], 10 * v + (d as int - 48))
  {
    assert (s + [d])[..|s|] == s;
  }

  lemma NumeralThreeMore(s: seq<byte>, v: int, a: byte, b: byte, c: byte)
    requires Numeral(s, v) && IsDigit(a) && IsDigit(b) && IsDigit(c)
    ensures Numeral(s + [a, b, c], 1000 * v + 100 * (a as int - 48) + 10 * (b as int - 48) + (c as int - 48))
  {
    NumeralMore(s, v, a);
    NumeralMore(s + [a], 10 * v + (a as int - 48), b);
    NumeralMore(s + [a] + [b], 100 * v + 10 * (a as int - 48) + (b as int - 48), c);
    assert s + [a] + [b] + [c] == s + [a, b, c];
  }

  /** The literal that stands for the least integer, whose negation does not fit. */
  const MINIMUM_TEXT: seq<byte> := [45, 57, 50, 50, 51, 51, 55, 50, 48, 51, 54, 56, 53, 52, 55, 55, 53, 56, 48, 56]

  lemma MinimumUpperHalf()
    ensures Numeral([57, 50, 50, 51, 51, 55, 50, 48, 51, 54], 9_223_372_036)
  {
    var s: seq<byte> := [57];
    assert s[..0] == [] && Numeral(s, 9);
    NumeralThreeMore(s, 9, 50, 50, 51);
    NumeralThreeMore(s + [50, 50, 51], 9_223, 51, 55, 50);
    NumeralThreeMore(s + [50, 50, 51] + [51, 55, 50], 9_223_372, 48, 51, 54);
    assert s + [50, 50, 51] + [51, 55, 50] + [48, 51, 54] == [57, 50, 50, 51, 51, 55, 50, 48, 51, 54];
  }

  lemma MinimumLowerHalf(s: seq<byte>)
    requires Numeral(s, 9_223_372_036)
    ensures Numeral(s + [56, 53, 52] + [55, 55, 53] + [56, 48, 56], TWO63)
  {
    NumeralThreeMore(s, 9_223_372_036, 56, 53, 52);
    NumeralThreeMore(s + [56, 53, 52], 9_223_372_036_854, 55, 55, 53);
    NumeralThreeMore(s + [56, 53, 52] + [55, 55, 53], 9_223_372_036_854_775, 56, 48, 56);
  }

  lemma {:induction false} MinimumText(n: int)
    requires n == -TWO63
    ensures Decimal(n) == MINIMUM_TEXT
  {
    MinimumUpperHalf();
    var upper: seq<byte> := [57, 50, 50, 51, 51, 55, 50, 48, 51, 54];
    MinimumLowerHalf(upper);
    var all := upper + [56, 53, 52] + [55, 55, 53] + [56, 48, 56];
    assert MINIMUM_TEXT == [45] + all;
    NumeralIsDigits(all);
  }

  /** State of the digit loop: the digits still in `work`, then the ones written. */
  predicate Filled(n: nat, work: nat, written: seq<byte>) {
    Digits(n) == (if work == 0 then [] else Digits(work)) + written
  }

  /** One turn of the digit loop moves the last digit from `work` to the buffer. */
  lemma DigitMoves(n: nat, work: nat, written: seq<byte>)
    requires work > 0 && Filled(n, work, written)
    ensures Filled(n, work / 10, [DigitByte(work % 10)] + written)
    ensures |written| < |Digits(n)|
  {
  }

  /** The digit loop of `rt_str__from_i64`: fill the buffer from the right. */
  method FillDigits(buf: array<byte>, n: nat) returns (pos: int)
    requires buf.Length == 20 && n > 0 && |Digits(n)| <= 19
    modifies buf
    ensures 0 <= pos <= 19
    ensures buf[pos + 1..] == Digits(n)
  {
    var work := n;
    pos := 19;
    var more := true;
    while more
      invariant 0 <= pos <= 19
      invariant more <==> work != 0
      invariant Filled(n, work, buf[pos + 1..])
      decreases work
    {
      ghost var written := buf[pos + 1..];
      DigitMoves(n, work, written);
      buf[pos] := DigitByte(work % 10);
      assert buf[pos + 1..] == written;
      assert buf[pos..] == [buf[pos]] + written;
      work := work / 10;
      pos := pos - 1;
      more := work != 0;
    }
  }

  /** `rt_str__from_i64`: fill a buffer of 20 bytes from the right, then copy out the part in use. */
  method FromI64(n: i64) returns (result: array<byte>)
    ensures fresh(result)
    ensures result[..] == Decimal(n)
  {
    if n == 0 {
      result := new byte[1](_ => 48);
      return;
    }
    if n == -TWO63 {
      MinimumText(n);
      result := new byte[20](i requires 0 <= i < 20 => MINIMUM_TEXT[i]);
      assert result[..] == MINIMUM_TEXT;
      return;
    }
    var neg := n < 0;
    var work: nat := if neg then 0 - n else n;
    var buf := new byte[20](_ => 0);
    ShortText(n);
    var pos := FillDigits(buf, work);
    if neg {
      ghost var digits := buf[pos + 1..];
      buf[pos] := 45;
      assert buf[pos + 1..] == digits;
      assert buf[pos..] == [45] + digits;
      pos := pos - 1;
    }
    var len := 19 - pos;
    result := CopyPart(buf, pos + 1, len);
  }

  /** `array.copy` of `len` bytes of the buffer into a fresh string. */
  method CopyPart(buf: array<byte>, start: nat, len: nat) returns (result: array<byte>)
    requires start + len <= buf.Length
    ensures fresh(result) && result[..] == buf[start..start + len]
  {
    result := new byte[len](_ => 0);
    forall i | 0 <= i < len {
      result[i] := buf[start + i];
    }
  }

  // ----- Round trip -----

  lemma {:induction false} DigitsDenote(n: nat)
    ensures Digits(n) != [] && AllDigits(Digits(n)) && DigitsValue(Digits(n)) == n
  {
    if n < 10 {
      assert Digits(n)[..0] == [];
    } else {
      DigitsDenote(n / 10);
      assert Digits(n)[..|Digits(n)| - 1] == Digits(n / 10);
    }
  }

  /** The text of an integer is a numeral for it. */
  lemma DecimalDenotes(n: int)
    ensures IsIntText(Decimal(n)) && IntValue(Decimal(n)) == n
  {
    var m: nat := if n < 0 then -n else n;
    DigitsDenote(m);
    assert Magnitude(Decimal(n)) == Digits(m);
  }

  /** Every 64-bit integer, the least one included, survives formatting and parsing. */
  method FormatThenParse(n: i64) returns (r: Option<i64>)
    ensures r == Some(n)
  {
    DecimalDenotes(n);
    ShortText(n);
    var text := FromI64(n);
    r := ParseInt(text[..]);
  }
}
