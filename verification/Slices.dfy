/** `String.slice` with its boundary checks, and the runtime functions on strings that emitted code calls. */
module Slices {
  import opened Base
  import opened Wasm
  import opened Utf8
  import opened Utf8Helpers

  type i32 = n: int | -0x8000_0000 <= n < 0x8000_0000
  type i64 = n: int | -0x8000_0000_0000_0000 <= n < 0x8000_0000_0000_0000

  /** The runtime's clamping of one offset: negative ones go to the end, like those past it. */
  function RuntimeClamp(v: int, len: nat): (r: nat)
    ensures r <= len
  {
    if v < 0 || v > len then len else v
  }

  function Later(a: nat, b: nat): (r: nat) { if b < a then a else b }

  /** `rt_str__substring`. Lengths are read as signed words. */
  method Substring(s: array<byte>, start: i32, end: i32) returns (result: array<byte>)
    requires s.Length < 0x8000_0000
    ensures fresh(result)
    ensures var a := RuntimeClamp(start, s.Length);
            result[..] == s[a..Later(a, RuntimeClamp(end, s.Length))]
  {
    var p1, p2, p3 := start, end, s.Length;
    if p1 < 0 { p1 := p3; }
    if p1 > p3 { p1 := p3; }
    if p2 < 0 { p2 := p3; }
    if p2 > p3 { p2 := p3; }
    if p2 < p1 { p2 := p1; }
    p3 := p2 - p1;
    result := new byte[p3](_ => 0);
    forall i | 0 <= i < p3 {
      result[i] := s[p1 + i];
    }
    forall i | 0 <= i < p3
      ensures result[..][i] == s[p1..p2][i]
    {
      assert result[i] == s[p1 + i];
    }
  }

  /** `rt_str__eq`: the loop that string patterns rely on. */
  method StringEq(a: array<byte>, b: array<byte>) returns (r: bool)
    ensures r <==> a[..] == b[..]
  {
    var len := a.Length;
    if len != b.Length { return false; }
    var i := 0;
    while i < len
      invariant 0 <= i <= len
      invariant a[..i] == b[..i]
    {
      if a[i] != b[i] {
        assert a[..][i] != b[..][i];
        return false;
      }
      i := i + 1;
    }
    return true;
  }

  // ----- Offsets -----

  /** The low 32 bits, read without a sign. */
  function Unsigned32(v: int): (r: nat) { v % 0x1_0000_0000 }

  /** `max(v, 0)` narrowed to a word, as the emitted code computes it. */
  function NarrowedOffset(v: i64): (r: i32) { Wrap32(if v >= 0 then v else 0) }

  /** The offset that a slice really uses. */
  function UsedOffset(v: int, len: nat): (r: nat)
    ensures r <= len
  {
    var w := Unsigned32(if v >= 0 then v else 0);
    if w < len then w else len
  }

  /** The offset that the comment on `String.slice` promises. */
  function ClampedOffset(v: int, len: nat): (r: nat)
    ensures r <= len
  {
    if v < 0 then 0 else if v > len then len else v
  }

  lemma NarrowedIsUsed(v: i64, len: nat)
    requires len < 0x8000_0000
    ensures RuntimeClamp(NarrowedOffset(v), len) == UsedOffset(v, len)
    ensures Unsigned32(NarrowedOffset(v)) < len ==>
              NarrowedOffset(v) == Unsigned32(NarrowedOffset(v)) == UsedOffset(v, len)
    ensures Unsigned32(NarrowedOffset(v)) >= len ==> UsedOffset(v, len) == len
  {
  }

  /** The promise is kept for an offset unless it is 2^32 or more and its low 32 bits fall inside the string. */
  lemma UsedIsClampedIff(v: i64, len: nat)
    ensures UsedOffset(v, len) == ClampedOffset(v, len) <==> v < 0x1_0000_0000 || v % 0x1_0000_0000 >= len
  {
  }

  /** What a slice of `s` yields when its two offsets resolve to `a` and `b`. */
  function SliceAt(s: seq<byte>, a: nat, b: nat): (r: Checked<seq<byte>>)
    requires a <= |s| && b <= |s|
  {
    if (a > 0 && !Boundary(s, a)) || !Boundary(s, b) then Aborted else Ok(s[a..Later(a, b)])
  }

  /** Of text, a slice is text; it is refused exactly when one of the offsets splits a character. */
  lemma SliceOfText(s: seq<byte>, a: nat, b: nat)
    requires WellFormed(s) && a <= |s| && b <= |s|
    ensures SliceAt(s, a, b).Aborted? <==> !Boundary(s, a) || !Boundary(s, b)
    ensures SliceAt(s, a, b).Ok? ==> WellFormed(SliceAt(s, a, b).value)
    ensures SliceAt(s, a, b).Ok? <==> WellFormed(s[a..]) && WellFormed(s[b..])
  {
    WellFormedIffSplits(s);
    if s != [] {
      CharLength(s[..LeadLength(s[0])]);
    }
    if Boundary(s, a) && Boundary(s, b) {
      SliceWellFormed(s, a, Later(a, b));
    }
    BoundaryIffSuffix(s, a);
    BoundaryIffSuffix(s, b);
  }

  lemma BoundaryIffSuffix(s: seq<byte>, i: nat)
    requires WellFormed(s) && i <= |s|
    ensures Boundary(s, i) <==> WellFormed(s[i..])
  {
    if Boundary(s, i) {
      SliceWellFormed(s, i, |s|);
      assert s[i..|s|] == s[i..];
    } else {
      CutInsideIllFormed(s, i);
    }
  }

  /** `String.slice`: `Aborted` is the `unreachable` trap. */
  method Slice(s: array<byte>, start: i64, end: i64) returns (r: Checked<array<byte>>)
    requires s.Length < 0x8000_0000
    ensures var spec := SliceAt(s[..], UsedOffset(start, s.Length), UsedOffset(end, s.Length));
            (r.Aborted? <==> spec.Aborted?) && (r.Ok? ==> fresh(r.value) && Ok(r.value[..]) == spec)
    ensures WellFormed(s[..]) && r.Ok? ==> WellFormed(r.value[..])
  {
    NarrowedIsUsed(start, s.Length);
    NarrowedIsUsed(end, s.Length);
    var first := NarrowedOffset(start);
    var last := NarrowedOffset(end);
    if Unsigned32(first) > 0 && Unsigned32(first) < s.Length {
      MaskIsTail(s[first]);
      if MaskedIsTail(s[first]) { return Aborted; }
    }
    if Unsigned32(last) < s.Length {
      MaskIsTail(s[last]);
      if MaskedIsTail(s[last]) { return Aborted; }
    }
    var text := Substring(s, first, last);
    r := Ok(text);
    if WellFormed(s[..]) {
      SliceOfText(s[..], UsedOffset(start, s.Length), UsedOffset(end, s.Length));
    }
  }

  /** Offset `i` does not stop a slice that starts there. */
  predicate StartOk(s: seq<byte>, i: nat)
    requires i <= |s|
  {
    i == 0 || Boundary(s, i)
  }

  /** The offset is 2^32 or more and wraps to a place inside the string. */
  predicate Wraps(v: i64, len: nat) { v >= 0x1_0000_0000 && v % 0x1_0000_0000 < len }

  /**
    When the slice is the promised one although offsets wrap. A wrapped end only shortens the result, which goes
    unnoticed if the start stops the slice anyway or is at the end itself. A wrapped start should give the empty
    string, or stop at a bad end, and still does if the end does not come after the place it wraps to.
  */
  predicate KeepsPromise(s: seq<byte>, start: i64, end: i64) {
    var a, b := UsedOffset(start, |s|), UsedOffset(end, |s|);
    if Wraps(start, |s|) && Wraps(end, |s|) then StartOk(s, a) && Boundary(s, b) && b <= a
    else if Wraps(start, |s|) then !Boundary(s, b) || (StartOk(s, a) && b <= a)
    else if Wraps(end, |s|) then !StartOk(s, a) || (a == |s| && Boundary(s, b))
    else true
  }

  lemma UnwrappedIsClamped(v: i64, len: nat)
    requires len < 0x8000_0000
    ensures !Wraps(v, len) <==> UsedOffset(v, len) == ClampedOffset(v, len)
    ensures Wraps(v, len) ==> UsedOffset(v, len) < len && ClampedOffset(v, len) == len
  {
    UsedIsClampedIff(v, len);
  }

  /** The slice is the promised one exactly when no offset wraps, or none of the wrapping shows. */
  lemma SliceKeepsPromiseIff(s: seq<byte>, start: i64, end: i64)
    requires |s| < 0x8000_0000
    ensures (SliceAt(s, UsedOffset(start, |s|), UsedOffset(end, |s|))
             == SliceAt(s, ClampedOffset(start, |s|), ClampedOffset(end, |s|)))
       <==> KeepsPromise(s, start, end)
  {
    UnwrappedIsClamped(start, |s|);
    UnwrappedIsClamped(end, |s|);
    var a, b, a', b' := UsedOffset(start, |s|), UsedOffset(end, |s|), ClampedOffset(start, |s|), ClampedOffset(end,
        |s|);
    assert |s[a..Later(a, b)]| == Later(a, b) - a && |s[a'..Later(a', b')]| == Later(a', b') - a';
  }

  /** For offsets below 2^32 the promise is kept. */
  lemma NarrowSliceKeepsPromise(s: seq<byte>, start: i64, end: i64)
    requires |s| < 0x8000_0000 && start < 0x1_0000_0000 && end < 0x1_0000_0000
    ensures SliceAt(s, UsedOffset(start, |s|), UsedOffset(end, |s|))
            == SliceAt(s, ClampedOffset(start, |s|), ClampedOffset(end, |s|))
  {
    assert !Wraps(start, |s|) && !Wraps(end, |s|);
    UnwrappedIsClamped(start, |s|);
    UnwrappedIsClamped(end, |s|);
  }

  /** A string of one byte, sliced from 0 to 2^32: the promise is the string, the code gives the empty one. */
  lemma WideOffsetWraps()
    ensures var s: seq<byte> := [0x61];
            SliceAt(s, ClampedOffset(0, 1), ClampedOffset(0x1_0000_0000, 1)) == Ok(s)
            && SliceAt(s, UsedOffset(0, 1), UsedOffset(0x1_0000_0000, 1)) == Ok([])
  {
    var s: seq<byte> := [0x61];
    assert s[0..1] == s;
  }
}
