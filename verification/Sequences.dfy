/** Sequences seen as sets of elements. */
module Sequences {
  function Elems<T(==)>(s: seq<T>): (r: set<T>) { set x | x in s }

  predicate NoDup<T(==)>(s: seq<T>) { forall i, j | 0 <= i < j < |s| :: s[i] != s[j] }

  lemma ElemsAppend<T>(s: seq<T>, t: seq<T>)
    ensures Elems(s + t) == Elems(s) + Elems(t)
  {
  }

  lemma ElemsSnoc<T>(s: seq<T>, n: nat)
    requires n < |s|
    ensures Elems(s[..n + 1]) == Elems(s[..n]) + {s[n]}
  {
    assert s[..n + 1] == s[..n] + [s[n]];
  }

  lemma NoDupAppend<T>(s: seq<T>, x: T)
    requires NoDup(s) && x !in s
    ensures NoDup(s + [x])
  {
  }

  lemma {:induction false} NoDupCard<T>(s: seq<T>)
    requires NoDup(s)
    ensures |Elems(s)| == |s|
  {
    if s != [] {
      NoDupCard(s[1..]);
      assert s == [s[0]] + s[1..];
      ElemsAppend([s[0]], s[1..]);
      assert Elems([s[0]]) == {s[0]};
      assert s[0] !in s[1..];
    }
  }

  /** The first `n` natural numbers. */
  function Below(n: nat): (r: set<nat>)
    ensures |r| == n
    ensures forall i: nat :: i in r <==> i < n
  {
    if n == 0 then {} else Below(n - 1) + {n - 1}
  }

  lemma {:induction false} SubsetCard<T>(a: set<T>, b: set<T>)
    requires a <= b
    ensures |a| <= |b| && (|a| == |b| ==> a == b)
  {
    if a != {} {
      var x :| x in a;
      SubsetCard(a - {x}, b - {x});
    }
  }

  predicate AllBelow(s: seq<nat>, n: nat) { forall i | 0 <= i < |s| :: s[i] < n }

  /** Distinct indices below `n`: at most `n` of them, and all of them when there are `n`. */
  lemma DistinctBelow(s: seq<nat>, n: nat)
    requires NoDup(s) && AllBelow(s, n)
    ensures |s| <= n
    ensures |s| == n <==> Elems(s) == Below(n)
  {
    NoDupCard(s);
    SubsetCard(Elems(s), Below(n));
  }
}
