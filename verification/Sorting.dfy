/** Ascending lists of locals without duplicates. */
module Sorting {
  import opened Sequences

  predicate Ascending(s: seq<nat>) { |s| < 2 || (s[0] < s[1] && Ascending(s[1..])) }

  lemma ElemsCons(x: nat, s: seq<nat>)
    ensures Elems([x] + s) == {x} + Elems(s)
  {
  }

  /** One step of sort-and-dedup. */
  function Insert(x: nat, s: seq<nat>): (r: seq<nat>)
    requires Ascending(s)
    ensures Ascending(r) && Elems(r) == Elems(s) + {x}
    ensures r != [] && r[0] == if s == [] || x < s[0] then x else s[0]
  {
    if s == [] then [x]
    else if x < s[0] then
      ElemsCons(x, s);
      assert ([x] + s)[1..] == s;
      [x] + s
    else if x == s[0] then s
    else
      var rest := Insert(x, s[1..]);
      ElemsCons(s[0], rest);
      ElemsCons(s[0], s[1..]);
      assert s == [s[0]] + s[1..];
      assert ([s[0]] + rest)[1..] == rest;
      [s[0]] + rest
  }

  /** `sort_by_key` followed by `dedup_by_key` on a list of free variables. */
  function SortDedup(vars: seq<nat>): (r: seq<nat>)
    ensures Ascending(r) && Elems(r) == Elems(vars)
  {
    if vars == [] then []
    else
      assert vars == [vars[0]] + vars[1..];
      Insert(vars[0], SortDedup(vars[1..]))
  }

  lemma {:induction false} HeadLeast(s: seq<nat>, y: nat)
    requires Ascending(s) && y in s
    ensures s[0] <= y && (y in s[1..] ==> s[0] < y)
  {
    if |s| > 1 && y in s[1..] {
      HeadLeast(s[1..], y);
    }
  }

  lemma ElemsTail(s: seq<nat>)
    requires Ascending(s) && s != []
    ensures Elems(s[1..]) == Elems(s) - {s[0]}
  {
    assert s == [s[0]] + s[1..];
    ElemsCons(s[0], s[1..]);
    if s[0] in s[1..] {
      HeadLeast(s, s[0]);
    }
  }

  /** There is only one ascending list of a set. */
  lemma {:induction false} AscendingUnique(a: seq<nat>, b: seq<nat>)
    requires Ascending(a) && Ascending(b) && Elems(a) == Elems(b)
    ensures a == b
  {
    assert a != [] ==> a[0] in Elems(b);
    assert b != [] ==> b[0] in Elems(a);
    if a != [] && b != [] {
      HeadLeast(a, b[0]);
      HeadLeast(b, a[0]);
      ElemsTail(a);
      ElemsTail(b);
      AscendingUnique(a[1..], b[1..]);
      assert a == [a[0]] + a[1..] && b == [b[0]] + b[1..];
    }
  }
}
