/** UTF-8 as sections 3 and 4 of RFC 3629 define it. */
module Utf8 {
  type byte = b: int | 0 <= b < 256

  // ----- Grammar -----

  predicate Tail(b: byte) { 0x80 <= b <= 0xBF }

  predicate IsChar1(s: seq<byte>) { |s| == 1 && s[0] <= 0x7F }

  predicate IsChar2(s: seq<byte>) { |s| == 2 && 0xC2 <= s[0] <= 0xDF && Tail(s[1]) }

  predicate IsChar3(s: seq<byte>) {
    |s| == 3 && Tail(s[2])
    && ((s[0] == 0xE0 && 0xA0 <= s[1] <= 0xBF)
        || (0xE1 <= s[0] <= 0xEC && Tail(s[1]))
        || (s[0] == 0xED && 0x80 <= s[1] <= 0x9F)
        || (0xEE <= s[0] <= 0xEF && Tail(s[1])))
  }

  predicate IsChar4(s: seq<byte>) {
    |s| == 4 && Tail(s[2]) && Tail(s[3])
    && ((s[0] == 0xF0 && 0x90 <= s[1] <= 0xBF)
        || (0xF1 <= s[0] <= 0xF3 && Tail(s[1]))
        || (s[0] == 0xF4 && 0x80 <= s[1] <= 0x8F))
  }

  /** `UTF8-char` of the ABNF. */
  predicate IsChar(s: seq<byte>) { IsChar1(s) || IsChar2(s) || IsChar3(s) || IsChar4(s) }

  function Concat(parts: seq<seq<byte>>): (s: seq<byte>) {
    if parts == [] then [] else parts[0] + Concat(parts[1..])
  }

  predicate AllChars(parts: seq<seq<byte>>) { forall i | 0 <= i < |parts| :: IsChar(parts[i]) }

  /** `UTF8-octets`: any number of characters, one after the other. */
  ghost predicate WellFormed(s: seq<byte>) { exists parts: seq<seq<byte>> :: AllChars(parts) && Concat(parts) == s }

  // ----- Reading from the front -----

  /** How long a character is by its first byte; 0 when no character starts with it. */
  function LeadLength(b: byte): (n: nat)
    ensures n <= 4
  {
    if b <= 0x7F then 1
    else if 0xC2 <= b <= 0xDF then 2
    else if 0xE0 <= b <= 0xEF then 3
    else if 0xF0 <= b <= 0xF4 then 4
    else 0
  }

  /** A character starts the string. */
  predicate StartsWithChar(s: seq<byte>) {
    s != [] && LeadLength(s[0]) > 0 && LeadLength(s[0]) <= |s| && IsChar(s[..LeadLength(s[0])])
  }

  /** Split off one character after the other until the end. */
  predicate Splits(s: seq<byte>) { s == [] || (StartsWithChar(s) && Splits(s[LeadLength(s[0])..])) }

  lemma CharLength(c: seq<byte>)
    requires IsChar(c)
    ensures c != [] && |c| == LeadLength(c[0])
    ensures forall i | 1 <= i < |c| :: Tail(c[i])
    ensures !Tail(c[0])
  {
  }

  lemma CharStarts(c: seq<byte>, rest: seq<byte>)
    requires IsChar(c)
    ensures StartsWithChar(c + rest) && LeadLength((c + rest)[0]) == |c|
    ensures (c + rest)[|c|..] == rest && (c + rest)[..|c|] == c
  {
    CharLength(c);
    assert (c + rest)[..|c|] == c;
  }

  lemma {:induction false} PartsSplit(parts: seq<seq<byte>>)
    requires AllChars(parts)
    ensures Splits(Concat(parts))
  {
    if parts != [] {
      PartsSplit(parts[1..]);
      CharStarts(parts[0], Concat(parts[1..]));
    }
  }

  /** The characters of a string that splits. */
  function Chars(s: seq<byte>): (parts: seq<seq<byte>>)
    requires Splits(s)
    ensures AllChars(parts) && Concat(parts) == s
  {
    if s == [] then []
    else
      var n := LeadLength(s[0]);
      var rest := Chars(s[n..]);
      var parts := [s[..n]] + rest;
      assert parts[1..] == rest;
      assert s == s[..n] + s[n..];
      parts
  }

  lemma WellFormedIffSplits(s: seq<byte>)
    ensures WellFormed(s) <==> Splits(s)
  {
    if WellFormed(s) {
      var parts: seq<seq<byte>> :| AllChars(parts) && Concat(parts) == s;
      PartsSplit(parts);
    }
    if Splits(s) {
      assert AllChars(Chars(s)) && Concat(Chars(s)) == s;
    }
  }

  /** A string can be divided into characters in one way only. */
  lemma {:induction false} UniqueSplit(a: seq<seq<byte>>, b: seq<seq<byte>>)
    requires AllChars(a) && AllChars(b) && Concat(a) == Concat(b)
    ensures a == b
  {
    if a != [] && b != [] {
      CharStarts(a[0], Concat(a[1..]));
      CharStarts(b[0], Concat(b[1..]));
      UniqueSplit(a[1..], b[1..]);
      assert a == [a[0]] + a[1..] && b == [b[0]] + b[1..];
    } else if a != [] {
      CharLength(a[0]);
    } else if b != [] {
      CharLength(b[0]);
    }
  }

  // ----- Boundaries -----

  /** An offset that does not fall inside a character: the end, or a byte that is not a continuation. */
  predicate Boundary(s: seq<byte>, i: nat)
    requires i <= |s|
  {
    i == |s| || !Tail(s[i])
  }

  lemma NoBoundaryInside(s: seq<byte>)
    requires StartsWithChar(s)
    ensures forall i | 1 <= i < LeadLength(s[0]) :: !Boundary(s, i)
  {
    var c := s[..LeadLength(s[0])];
    CharLength(c);
    assert forall i | 1 <= i < |c| :: s[i] == c[i];
  }

  lemma {:induction false} SuffixSplits(s: seq<byte>, i: nat)
    requires Splits(s) && i <= |s| && Boundary(s, i)
    ensures Splits(s[i..])
  {
    if i == 0 {
      assert s[0..] == s;
    } else {
      var n := LeadLength(s[0]);
      NoBoundaryInside(s);
      SuffixSplits(s[n..], i - n);
      assert s[n..][i - n..] == s[i..];
    }
  }

  lemma {:induction false} PrefixSplits(s: seq<byte>, j: nat)
    requires Splits(s) && j <= |s| && Boundary(s, j)
    ensures Splits(s[..j])
  {
    if j > 0 {
      var n := LeadLength(s[0]);
      NoBoundaryInside(s);
      PrefixSplits(s[n..], j - n);
      var rest, tail := s[..j][n..], s[n..][..j - n];
      assert |rest| == |tail| && forall k | 0 <= k < |rest| :: rest[k] == s[n + k] && tail[k] == s[n + k];
      assert rest == tail;
      assert s[..j][..n] == s[..n];
    }
  }

  /** Between two boundaries lies a well-formed string. */
  lemma SliceWellFormed(s: seq<byte>, i: nat, j: nat)
    requires WellFormed(s) && i <= j <= |s| && Boundary(s, i) && Boundary(s, j)
    ensures WellFormed(s[i..j])
  {
    WellFormedIffSplits(s);
    SuffixSplits(s, i);
    BoundaryShifts(s, i, j);
    PrefixSplits(s[i..], j - i);
    WellFormedIffSplits(s[i..j]);
  }

  lemma BoundaryShifts(s: seq<byte>, i: nat, j: nat)
    requires i <= j <= |s| && Boundary(s, j)
    ensures Boundary(s[i..], j - i) && s[i..][..j - i] == s[i..j]
  {
    assert j < |s| ==> s[i..][j - i] == s[j];
  }

  /** A cut inside a character leaves ill-formed text on its right. */
  lemma CutInsideIllFormed(s: seq<byte>, i: nat)
    requires i < |s| && Tail(s[i])
    ensures !WellFormed(s[i..])
  {
    WellFormedIffSplits(s[i..]);
    assert s[i..][0] == s[i];
  }

  // ----- Scalar values -----

  /** Unicode scalar values: code points without the surrogates. */
  predicate IsScalar(n: int) { 0 <= n <= 0x10FFFF && !(0xD800 <= n <= 0xDFFF) }

  /** Payload bits of a lead byte followed by one, two or three continuation bytes. */
  function Payload2(a: int, b: int): (n: int) { (a - 0xC0) * 64 + (b - 0x80) }

  function Payload3(a: int, b: int, c: int): (n: int) { (a - 0xE0) * 4096 + (b - 0x80) * 64 + (c - 0x80) }

  function Payload4(a: int, b: int, c: int, d: int): (n: int) {
    (a - 0xF0) * 262144 + (b - 0x80) * 4096 + (c - 0x80) * 64 + (d - 0x80)
  }

  /** The number a character encodes. */
  function Decode(c: seq<byte>): (n: int)
    requires IsChar(c)
    ensures IsScalar(n)
  {
    if |c| == 1 then c[0]
    else if |c| == 2 then Payload2(c[0], c[1])
    else if |c| == 3 then Payload3(c[0], c[1], c[2])
    else Payload4(c[0], c[1], c[2], c[3])
  }

  /** The encoding of a scalar value: section 3 of RFC 3629 by division instead of bits. */
  function Encode(n: int): (c: seq<byte>)
    requires IsScalar(n)
  {
    if n <= 0x7F then [n]
    else if n <= 0x7FF then [0xC0 + n / 64, 0x80 + n % 64]
    else if n <= 0xFFFF then [0xE0 + n / 4096, 0x80 + (n / 64) % 64, 0x80 + n % 64]
    else [0xF0 + n / 262144, 0x80 + (n / 4096) % 64, 0x80 + (n / 64) % 64, 0x80 + n % 64]
  }

  lemma EncodeShort(n: int)
    requires 0 <= n <= 0x7FF
    ensures IsChar(Encode(n)) && Decode(Encode(n)) == n
  {
  }

  lemma EncodeThree(n: int)
    requires IsScalar(n) && 0x7FF < n <= 0xFFFF
    ensures IsChar3(Encode(n)) && Decode(Encode(n)) == n
  {
    var a, b, c := n / 4096, (n / 64) % 64, n % 64;
    assert n == a * 4096 + b * 64 + c;
    assert Encode(n) == [0xE0 + a, 0x80 + b, 0x80 + c];
  }

  lemma FourDigits(n: int)
    requires 0xFFFF < n <= 0x10FFFF
    ensures n == (n / 262144) * 262144 + (n / 4096) % 64 * 4096 + (n / 64) % 64 * 64 + n % 64
    ensures n / 262144 <= 4
  {
    var m, k := n / 64, n / 4096;
    assert n == m * 64 + n % 64;
    assert m == k * 64 + m % 64;
    assert k == (n / 262144) * 64 + k % 64;
  }

  lemma EncodeFour(n: int)
    requires 0xFFFF < n <= 0x10FFFF
    ensures IsChar4(Encode(n)) && Decode(Encode(n)) == n
  {
    FourDigits(n);
    assert Encode(n) == [0xF0 + n / 262144, 0x80 + (n / 4096) % 64, 0x80 + (n / 64) % 64, 0x80 + n % 64];
  }

  /** Every scalar value has an encoding, and it is read back. */
  lemma {:induction false} EncodeRoundTrip(n: int)
    requires IsScalar(n)
    ensures IsChar(Encode(n)) && Decode(Encode(n)) == n
  {
    if n <= 0x7FF {
      EncodeShort(n);
    } else if n <= 0xFFFF {
      EncodeThree(n);
    } else {
      EncodeFour(n);
    }
  }

  /** The length of a character shows in the number, so no two lengths share one. */
  lemma DecodeRange(c: seq<byte>)
    requires IsChar(c)
    ensures |c| == 1 ==> Decode(c) <= 0x7F
    ensures |c| == 2 ==> 0x7F < Decode(c) <= 0x7FF
    ensures |c| == 3 ==> 0x7FF < Decode(c) <= 0xFFFF
    ensures |c| == 4 ==> 0xFFFF < Decode(c)
  {
  }

  lemma Quotient64(q: int, r: int)
    requires 0 <= r < 64
    ensures (q * 64 + r) / 64 == q && (q * 64 + r) % 64 == r
  {
  }

  lemma Quotient4096(q: int, r: int)
    requires 0 <= r < 4096
    ensures (q * 4096 + r) / 4096 == q
  {
  }

  lemma Quotient262144(q: int, r: int)
    requires 0 <= r < 262144
    ensures (q * 262144 + r) / 262144 == q
  {
  }

  lemma Digits64(a: int, b: int, c: int, d: int)
    requires 0 <= b < 64 && 0 <= c < 64 && 0 <= d < 64
    ensures var n := a * 262144 + b * 4096 + c * 64 + d;
            n / 262144 == a && (n / 4096) % 64 == b && (n / 64) % 64 == c && n % 64 == d && n / 4096 == a * 64 + b
  {
    Quotient64(a * 4096 + b * 64 + c, d);
    Quotient4096(a * 64 + b, c * 64 + d);
    Quotient262144(a, b * 4096 + c * 64 + d);
    Quotient64(a * 64 + b, c);
    Quotient64(a, b);
  }

  lemma {:induction false} DecodeFour(c: seq<byte>)
    requires IsChar4(c)
    ensures Encode(Decode(c)) == c
  {
    DecodeRange(c);
    Digits64(c[0] - 0xF0, c[1] - 0x80, c[2] - 0x80, c[3] - 0x80);
  }

  /** Every character is the encoding of the number it is read as. */
  lemma {:induction false} DecodeRoundTrip(c: seq<byte>)
    requires IsChar(c)
    ensures Encode(Decode(c)) == c
  {
    DecodeRange(c);
    if |c| == 3 {
      Digits64(0, c[0] - 0xE0, c[1] - 0x80, c[2] - 0x80);
    } else if |c| == 4 {
      DecodeFour(c);
    }
  }

  predicate AllScalars(ns: seq<int>) { forall i | 0 <= i < |ns| :: IsScalar(ns[i]) }

  /** The text of a sequence of scalar values. */
  function EncodeAll(ns: seq<int>): (s: seq<byte>)
    requires AllScalars(ns)
  {
    if ns == [] then [] else Encode(ns[0]) + EncodeAll(ns[1..])
  }

  /** The scalar values of a text. */
  function DecodeAll(s: seq<byte>): (ns: seq<int>)
    requires Splits(s)
    ensures AllScalars(ns)
  {
    if s == [] then [] else var n := LeadLength(s[0]); [Decode(s[..n])] + DecodeAll(s[n..])
  }

  lemma {:induction false} EncodeAllRoundTrip(ns: seq<int>)
    requires AllScalars(ns)
    ensures Splits(EncodeAll(ns)) && DecodeAll(EncodeAll(ns)) == ns
  {
    if ns != [] {
      EncodeRoundTrip(ns[0]);
      EncodeAllRoundTrip(ns[1..]);
      CharStarts(Encode(ns[0]), EncodeAll(ns[1..]));
      assert ns == [ns[0]] + ns[1..];
    }
  }

  lemma EncodeAllCons(n: int, ns: seq<int>)
    requires IsScalar(n) && AllScalars(ns)
    ensures AllScalars([n] + ns) && EncodeAll([n] + ns) == Encode(n) + EncodeAll(ns)
  {
    assert ([n] + ns)[1..] == ns;
  }

  lemma {:induction false} CharThenText(c: seq<byte>, s: seq<byte>)
    requires IsChar(c) && Splits(s) && EncodeAll(DecodeAll(s)) == s
    ensures AllScalars([Decode(c)] + DecodeAll(s)) && EncodeAll([Decode(c)] + DecodeAll(s)) == c + s
  {
    DecodeRoundTrip(c);
    EncodeAllCons(Decode(c), DecodeAll(s));
  }

  lemma {:induction false} FrontIsChar(s: seq<byte>)
    requires s != [] && Splits(s)
    ensures var n := LeadLength(s[0]); 0 < n <= |s| && IsChar(s[..n]) && Splits(s[n..])
    ensures var n := LeadLength(s[0]); DecodeAll(s) == [Decode(s[..n])] + DecodeAll(s[n..])
  {
  }

  lemma Rejoin(s: seq<byte>, n: nat)
    requires n <= |s|
    ensures s == s[..n] + s[n..]
  {
  }

  lemma {:induction false} TextStep(s: seq<byte>, c: seq<byte>, rest: seq<byte>)
    requires s == c + rest && IsChar(c) && Splits(rest) && Splits(s)
    requires DecodeAll(s) == [Decode(c)] + DecodeAll(rest) && EncodeAll(DecodeAll(rest)) == rest
    ensures EncodeAll(DecodeAll(s)) == s
  {
    CharThenText(c, rest);
  }

  lemma {:induction false} DecodeAllRoundTrip(s: seq<byte>)
    requires Splits(s)
    ensures EncodeAll(DecodeAll(s)) == s
  {
    if s != [] {
      var n := LeadLength(s[0]);
      FrontIsChar(s);
      DecodeAllRoundTrip(s[n..]);
      Rejoin(s, n);
      TextStep(s, s[..n], s[n..]);
    }
  }

  /** Well-formed text is the encoding of exactly one sequence of scalar values. */
  lemma WellFormedIffScalars(s: seq<byte>)
    ensures WellFormed(s) <==> exists ns: seq<int> :: AllScalars(ns) && EncodeAll(ns) == s
    ensures forall ns: seq<int>, ms: seq<int> | AllScalars(ns) && EncodeAll(ns) == s && AllScalars(ms)
            && EncodeAll(ms) == s ::
              ns == ms
  {
    WellFormedIffSplits(s);
    if Splits(s) {
      DecodeAllRoundTrip(s);
      assert AllScalars(DecodeAll(s)) && EncodeAll(DecodeAll(s)) == s;
    }
    forall ns: seq<int> | AllScalars(ns) && EncodeAll(ns) == s
      ensures Splits(s) && DecodeAll(s) == ns
    {
      EncodeAllRoundTrip(ns);
    }
  }
}
