/**
  The UTF-8 helper functions that the backend emits as loops over Wasm locals. Every local of the emitted function is a
  variable here, and every `If` a branch.
*/
module Utf8Helpers {
  import opened Base
  import opened Wasm
  import opened Bits
  import opened Utf8

  /** The emitted test `(b & 0xC0) == 0x80`. */
  function MaskedIsTail(b: byte): (r: bool) { BitAnd(b, 0xC0) == 0x80 }

  lemma MaskIsTail(b: byte)
    ensures MaskedIsTail(b) <==> Tail(b)
  {
    AndC0(b);
    TopBits(b);
  }

  lemma TopBits(b: byte)
    ensures (b / 64) % 4 == 2 <==> Tail(b)
  {
    var q, r := b / 64, b % 64;
    assert b == 64 * q + r && 0 <= r < 64 && q < 4;
  }

  // ----- Validation -----

  /** What a lead byte at `idx` demands of the bytes behind it, in terms of positions in the whole array. */
  lemma StartsAt2(bytes: seq<byte>, idx: nat)
    requires idx < |bytes| && 0xC2 <= bytes[idx] <= 0xDF
    ensures StartsWithChar(bytes[idx..]) <==> idx + 1 < |bytes| && Tail(bytes[idx + 1])
  {
    var s := bytes[idx..];
    if |s| >= 2 {
      assert s[..2] == [bytes[idx], bytes[idx + 1]];
    }
  }

  lemma StartsAt3(bytes: seq<byte>, idx: nat)
    requires idx < |bytes| && 0xE0 <= bytes[idx] <= 0xEF
    ensures (StartsWithChar(bytes[idx..])
             <==> idx + 2 < |bytes| && IsChar3([bytes[idx], bytes[idx + 1], bytes[idx + 2]]))
  {
    var s := bytes[idx..];
    if |s| >= 3 {
      assert s[..3] == [bytes[idx], bytes[idx + 1], bytes[idx + 2]];
    }
  }

  lemma StartsAt4(bytes: seq<byte>, idx: nat)
    requires idx < |bytes| && 0xF0 <= bytes[idx] <= 0xF4
    ensures (StartsWithChar(bytes[idx..])
             <==> idx + 3 < |bytes| && IsChar4([bytes[idx], bytes[idx + 1], bytes[idx + 2], bytes[idx + 3]]))
  {
    var s := bytes[idx..];
    if |s| >= 4 {
      assert s[..4] == [bytes[idx], bytes[idx + 1], bytes[idx + 2], bytes[idx + 3]];
    }
  }

  /** The code shared by three- and four-byte leads; false stands for the branch to `$vbreak`. */
  method ValidateMultibyte(bytes: seq<byte>, len: nat, idx: nat, lead: byte, n: nat) returns (ok: bool)
    requires len == |bytes| && idx < len && lead == bytes[idx]
    requires (n == 3 && 0xE0 <= lead <= 0xEF) || (n == 4 && 0xF0 <= lead <= 0xF4)
    ensures ok <==> StartsWithChar(bytes[idx..])
  {
    if n == 3 {
      StartsAt3(bytes, idx);
    } else {
      StartsAt4(bytes, idx);
    }
    if idx + (n - 1) >= len {
      return false;
    }
    var offset := 1;
    while offset < n
      invariant 1 <= offset <= n
      invariant forall p | idx + 1 <= p < idx + offset :: Tail(bytes[p])
    {
      MaskIsTail(bytes[idx + offset]);
      if BitAnd(bytes[idx + offset], 0xC0) != 0x80 {
        return false;
      }
      offset := offset + 1;
    }
    assert Tail(bytes[idx + 1]) && Tail(bytes[idx + 2]) && (n == 4 ==> Tail(bytes[idx + 3]));
    if n == 3 {
      if lead == 0xE0 {
        if bytes[idx + 1] < 0xA0 { return false; }
      }
      if lead == 0xED {
        if bytes[idx + 1] >= 0xA0 { return false; }
      }
    }
    if n == 4 {
      if lead == 0xF0 {
        if bytes[idx + 1] < 0x90 { return false; }
      }
      if lead == 0xF4 {
        if bytes[idx + 1] >= 0x90 { return false; }
      }
    }
    return true;
  }

  lemma SplitsStep(bytes: seq<byte>, idx: nat)
    requires idx < |bytes|
    ensures (Splits(bytes[idx..])
             <==> StartsWithChar(bytes[idx..]) && Splits(bytes[idx + LeadLength(bytes[idx])..]))
  {
    var s := bytes[idx..];
    if StartsWithChar(s) {
      assert s[LeadLength(s[0])..] == bytes[idx + LeadLength(bytes[idx])..];
    }
  }

  /** The validation loop of `$string_from_utf8_helper`. */
  method ValidateUtf8(bytes: seq<byte>) returns (valid: bool)
    ensures valid <==> WellFormed(bytes)
  {
    WellFormedIffSplits(bytes);
    var len := |bytes|;
    valid := true;
    var idx := 0;
    assert bytes[0..] == bytes;
    while true
      invariant 0 <= idx <= len
      invariant valid
      invariant Splits(bytes) <==> Splits(bytes[idx..])
      decreases len - idx
    {
      if idx >= len { break; }
      var lead := bytes[idx];
      SplitsStep(bytes, idx);
      if lead < 0x80 {
        assert bytes[idx..][..1] == [lead];
        idx := idx + 1;
      } else if lead >= 0xC0 && lead <= 0xDF {
        if lead < 0xC2 { valid := false; break; }
        StartsAt2(bytes, idx);
        if idx + 1 >= len { valid := false; break; }
        MaskIsTail(bytes[idx + 1]);
        if BitAnd(bytes[idx + 1], 0xC0) != 0x80 { valid := false; break; }
        idx := idx + 2;
      } else if lead >= 0xE0 && lead <= 0xEF {
        var ok := ValidateMultibyte(bytes, len, idx, lead, 3);
        if !ok { valid := false; break; }
        idx := idx + 3;
      } else if lead >= 0xF0 && lead <= 0xF4 {
        var ok := ValidateMultibyte(bytes, len, idx, lead, 4);
        if !ok { valid := false; break; }
        idx := idx + 4;
      } else {
        valid := false;
        break;
      }
    }
  }

  // ----- Bytes of a string and back -----

  /** `$string_utf8_bytes_helper`: a new array with every byte of the string. */
  method Utf8Bytes(text: array<byte>) returns (result: array<byte>)
    ensures fresh(result)
    ensures result[..] == text[..]
  {
    var len := text.Length;
    result := new byte[len](_ => 0);
    var idx := 0;
    while idx < len
      invariant 0 <= idx <= len
      invariant result[..idx] == text[..idx]
    {
      result[idx] := text[idx];
      idx := idx + 1;
    }
  }

  /** `$string_from_utf8_helper`: validate, then copy. */
  method FromUtf8(bytes: array<byte>) returns (r: Option<array<byte>>)
    ensures r.Some? <==> WellFormed(bytes[..])
    ensures r.Some? ==> fresh(r.value) && r.value[..] == bytes[..]
  {
    var len := bytes.Length;
    var valid := ValidateUtf8(bytes[..]);
    if !valid { return None; }
    var text := new byte[len](_ => 0);
    var idx := 0;
    while idx < len
      invariant 0 <= idx <= len
      invariant text[..idx] == bytes[..idx]
    {
      text[idx] := bytes[idx];
      idx := idx + 1;
    }
    return Some(text);
  }

  /** `String.from_utf8(String.utf8_bytes(s))` gives `s` back when it is text, and nothing otherwise. */
  method FromUtf8OfBytes(text: array<byte>) returns (r: Option<array<byte>>)
    ensures r.Some? <==> WellFormed(text[..])
    ensures r.Some? ==> r.value[..] == text[..]
  {
    var bytes := Utf8Bytes(text);
    r := FromUtf8(bytes);
  }

  // ----- Code points -----

  /** `x >> 6`, `x >> 12` and `x >> 18` of an unsigned word. */
  function ShrU(x: nat, k: nat): (r: nat)
    requires k == 6 || k == 12 || k == 18
  {
    if k == 6 then x / 64 else if k == 12 then x / 4096 else x / 262144
  }

  /** A continuation byte from six bits: `(x & 0x3F) | 0x80`. */
  function TailByte(x: nat): (b: nat) { BitOr(BitAnd(x, 0x3F), 0x80) }

  lemma TailByteValue(x: nat)
    ensures TailByte(x) == 0x80 + x % 64
  {
    And63(x);
    Or64(x % 64, 2);
  }

  /** Lead bytes: the marker bits lie above the payload. */
  lemma LeadByteValues(x: nat)
    ensures x < 32 ==> BitOr(x, 0xC0) == 0xC0 + x
    ensures x < 16 ==> BitOr(x, 0xE0) == 0xE0 + x
    ensures x < 8 ==> BitOr(x, 0xF0) == 0xF0 + x
  {
    if x < 32 { Or32(x, 6); }
    if x < 16 { Or16(x, 14); }
    if x < 8 { Or8(x, 30); }
  }

  /** `$from_code_point_helper`. */
  function FromCodePointHelper(cp: int): (r: Option<seq<nat>>) {
    if cp < 0 then None
    else if cp < 0x80 then Some([cp])
    else if cp < 0x800 then Some([BitOr(ShrU(cp, 6), 0xC0), TailByte(cp)])
    else if cp >= 0xD800 && cp <= 0xDFFF then None
    else if cp <= 0xFFFF then Some([BitOr(ShrU(cp, 12), 0xE0), TailByte(ShrU(cp, 6)), TailByte(cp)])
    else if cp <= 0x10FFFF then
      Some([BitOr(ShrU(cp, 18), 0xF0), TailByte(ShrU(cp, 12)), TailByte(ShrU(cp, 6)), TailByte(cp)])
    else None
  }

  /** `String.from_code_point`: the range of the 64-bit argument is checked before it is narrowed. */
  function FromCodePoint(n: int): (r: Option<seq<nat>>) {
    if n >= 0 && n <= 0x10FFFF then FromCodePointHelper(Wrap32(n)) else None
  }

  lemma HelperEncodes(cp: int)
    requires IsScalar(cp)
    ensures FromCodePointHelper(cp) == Some(Encode(cp))
  {
    TailByteValue(cp);
    TailByteValue(cp / 64);
    TailByteValue(cp / 4096);
    LeadByteValues(cp / 64);
    LeadByteValues(cp / 4096);
    LeadByteValues(cp / 262144);
  }

  /** A string for exactly the scalar values, and it is the text that encodes the value. */
  lemma FromCodePointEncodes(n: int)
    ensures FromCodePoint(n).Some? <==> IsScalar(n)
    ensures IsScalar(n) ==> FromCodePoint(n) == Some(Encode(n)) && IsChar(Encode(n)) && Decode(Encode(n)) == n
    ensures IsScalar(n) ==> WellFormed(Encode(n)) && EncodeAll([n]) == Encode(n)
  {
    if IsScalar(n) {
      HelperEncodes(n);
      EncodeRoundTrip(n);
      var c := Encode(n);
      assert Concat([c]) == c && AllChars([c]);
      assert [n][1..] == [];
    }
  }
}
