/** Finite graphs given by a set of dependencies for every node. */
module Graphs {
  import opened Sequences

  predicate IsGraph(deps: seq<set<nat>>) { forall i | 0 <= i < |deps| :: deps[i] <= Below(|deps|) }

  /** Each node of the path depends on the next. */
  predicate IsPath(deps: seq<set<nat>>, p: seq<nat>) {
    p != [] && AllBelow(p, |deps|) && forall k | 0 <= k < |p| - 1 :: p[k + 1] in deps[p[k]]
  }

  ghost predicate Cyclic(deps: seq<set<nat>>) {
    exists p: seq<nat> :: |p| >= 2 && IsPath(deps, p) && p[0] == p[|p| - 1]
  }

  /** If every node of a non-empty set depends on a node of the set, walking along finds a cycle. */
  lemma StuckIsCyclic(deps: seq<set<nat>>, stuck: set<nat>)
    requires stuck != {} && stuck <= Below(|deps|)
    requires forall i | i in stuck :: deps[i] * stuck != {}
    ensures Cyclic(deps)
  {
    var first :| first in stuck;
    assert IsPath(deps, [first]);
    Walk(deps, stuck, [first]);
  }

  lemma {:induction false} Walk(deps: seq<set<nat>>, stuck: set<nat>, p: seq<nat>)
    requires stuck <= Below(|deps|)
    requires forall i | i in stuck :: deps[i] * stuck != {}
    requires IsPath(deps, p) && NoDup(p) && p[|p| - 1] in stuck
    ensures Cyclic(deps)
    decreases |deps| - |p|
  {
    var next :| next in deps[p[|p| - 1]] * stuck;
    PathExtends(deps, p, next);
    if next in p {
      var i :| 0 <= i < |p| && p[i] == next;
      PathSuffix(deps, p + [next], i);
      var cycle := (p + [next])[i..];
      assert cycle[0] == next && cycle[|cycle| - 1] == next && |cycle| >= 2;
    } else {
      NoDupAppend(p, next);
      DistinctBelow(p + [next], |deps|);
      Walk(deps, stuck, p + [next]);
    }
  }

  lemma PathExtends(deps: seq<set<nat>>, p: seq<nat>, next: nat)
    requires IsPath(deps, p) && next < |deps| && next in deps[p[|p| - 1]]
    ensures IsPath(deps, p + [next])
  {
    var q := p + [next];
    forall k | 0 <= k < |q| - 1
      ensures q[k + 1] in deps[q[k]]
    {
      assert k < |p| - 1 ==> p[k + 1] in deps[p[k]];
    }
  }

  lemma PathSuffix(deps: seq<set<nat>>, p: seq<nat>, i: nat)
    requires IsPath(deps, p) && i < |p|
    ensures IsPath(deps, p[i..])
  {
    var q := p[i..];
    forall k | 0 <= k < |q| - 1
      ensures q[k + 1] in deps[q[k]]
    {
      assert p[(i + k) + 1] in deps[p[i + k]];
    }
  }

  /** Every dependency of an ordered node stands before it. */
  predicate DepsEarlier(deps: seq<set<nat>>, order: seq<nat>) {
    order == []
    || (var front, last := order[..|order| - 1], order[|order| - 1];
        DepsEarlier(deps, front) && last < |deps| && deps[last] <= Elems(front))
  }

  lemma {:induction false} DepsEarlierAt(deps: seq<set<nat>>, order: seq<nat>, k: nat)
    requires DepsEarlier(deps, order) && k < |order|
    ensures order[k] < |deps| && deps[order[k]] <= Elems(order[..k])
  {
    if k < |order| - 1 {
      DepsEarlierAt(deps, order[..|order| - 1], k);
      assert order[..|order| - 1][..k] == order[..k];
    }
  }

  /** An order of all nodes rules cycles out: along a path the position strictly falls. */
  lemma {:induction false} OrderedIsAcyclic(deps: seq<set<nat>>, order: seq<nat>)
    requires IsGraph(deps) && DepsEarlier(deps, order) && NoDup(order) && AllBelow(order, |deps|) && |order| == |deps|
    ensures !Cyclic(deps)
  {
    DistinctBelow(order, |deps|);
    if Cyclic(deps) {
      var p: seq<nat> :| |p| >= 2 && IsPath(deps, p) && p[0] == p[|p| - 1];
      assert p[0] in Elems(order);
      var k :| 0 <= k < |order| && order[k] == p[0];
      PathFalls(deps, order, p, k);
    }
  }

  lemma {:induction false} PathFalls(deps: seq<set<nat>>, order: seq<nat>, p: seq<nat>, k: nat)
    requires DepsEarlier(deps, order) && NoDup(order) && IsPath(deps, p) && |p| >= 2
    requires k < |order| && order[k] == p[0]
    ensures p[|p| - 1] in Elems(order[..k])
    ensures p[|p| - 1] != p[0]
  {
    assert p[0 + 1] in deps[p[0]];
    DepsEarlierAt(deps, order, k);
    var j :| 0 <= j < k && order[..k][j] == p[1];
    if |p| > 2 {
      PathSuffix(deps, p, 1);
      PathFalls(deps, order, p[1..], j);
      assert Elems(order[..j]) <= Elems(order[..k]);
    }
  }
}
