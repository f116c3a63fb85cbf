/** The module graph of the query engine: who imports whom, and who must be rebuilt after a change. */
module DependencyGraph {
  import opened Sequences

  datatype Path = Path(text: string)
  type Index = map<Path, set<Path>>

  function At(index: Index, p: Path): (r: set<Path>) { if p in index then index[p] else {} }

  predicate NoEmptySets(index: Index) { forall p | p in index :: index[p] != {} }

  ghost predicate Converse(forward: Index, reverse: Index) {
    forall m: Path, d: Path :: d in At(forward, m) <==> m in At(reverse, d)
  }

  /** `p` leads from a module to one it depends on, at every step. */
  predicate IsChain(forward: Index, p: seq<Path>) {
    p != [] && forall k | 0 <= k < |p| - 1 :: p[k + 1] in At(forward, p[k])
  }

  /** `m` is `target` or depends on it, directly or through other modules. */
  ghost predicate Reaches(forward: Index, m: Path, target: Path) {
    exists p: seq<Path> :: IsChain(forward, p) && p[0] == m && p[|p| - 1] == target
  }

  lemma ReachesSelf(forward: Index, m: Path)
    ensures Reaches(forward, m, m)
  {
    assert IsChain(forward, [m]);
  }

  lemma ReachesStep(forward: Index, m: Path, d: Path, target: Path)
    requires d in At(forward, m) && Reaches(forward, d, target)
    ensures Reaches(forward, m, target)
  {
    var p: seq<Path> :| IsChain(forward, p) && p[0] == d && p[|p| - 1] == target;
    var q := [m] + p;
    forall k | 0 <= k < |q| - 1
      ensures q[k + 1] in At(forward, q[k])
    {
      assert k > 0 ==> p[(k - 1) + 1] in At(forward, p[k - 1]);
    }
    assert IsChain(forward, q);
  }

  /** Who depends on a member of `out` is a member too, apart from the members still in the queue. */
  ghost predicate ClosedExcept(forward: Index, out: set<Path>, queued: set<Path>) {
    forall m: Path, d: Path | d in out && d !in queued && d in At(forward, m) :: m in out
  }

  /** A set that contains `target` and the dependents of its members contains all that reaches `target`. */
  lemma {:induction false} ClosedHoldsChain(forward: Index, closed: set<Path>, p: seq<Path>)
    requires ClosedExcept(forward, closed, Elems([]))
    requires IsChain(forward, p) && p[|p| - 1] in closed
    ensures p[0] in closed
  {
    if |p| > 1 {
      var rest := p[1..];
      forall k | 0 <= k < |rest| - 1
        ensures rest[k + 1] in At(forward, rest[k])
      {
        assert p[(k + 1) + 1] in At(forward, p[k + 1]);
      }
      ClosedHoldsChain(forward, closed, rest);
      assert p[0 + 1] in At(forward, p[0]);
    }
  }

  /** With the queue empty the result is exact. */
  lemma ExploredAll(forward: Index, target: Path, out: set<Path>)
    requires Exploring(forward, target, out, [])
    ensures forall m: Path :: m in out <==> Reaches(forward, m, target)
  {
    forall m: Path | Reaches(forward, m, target)
      ensures m in out
    {
      var p: seq<Path> :| IsChain(forward, p) && p[0] == m && p[|p| - 1] == target;
      ClosedHoldsChain(forward, out, p);
    }
  }

  /** What the worklist loop keeps: all found do reach `target`, and only the queue is still to be followed. */
  ghost predicate Exploring(forward: Index, target: Path, out: set<Path>, q: seq<Path>) {
    target in out && Elems(q) <= out && (forall m | m in out :: Reaches(forward, m, target))
    && ClosedExcept(forward, out, Elems(q))
  }

  lemma StartExploring(forward: Index, target: Path)
    ensures Exploring(forward, target, {target}, [target])
  {
    ReachesSelf(forward, target);
    assert Elems([target]) == {target};
  }

  lemma ExploreStep(forward: Index, reverse: Index, target: Path, out: set<Path>, q: seq<Path>, out': set<Path>,
                    q': seq<Path>)
    requires Converse(forward, reverse) && q != [] && Exploring(forward, target, out, q)
    requires out' == out + At(reverse, q[0]) && Elems(q') == Elems(q[1..]) + (At(reverse, q[0]) - out)
    ensures Exploring(forward, target, out', q')
  {
    assert q == [q[0]] + q[1..];
    ElemsAppend([q[0]], q[1..]);
    assert q[0] in Elems(q);
    DependentsReach(forward, reverse, q[0], target);
    ClosedAfter(forward, reverse, out, q, out', q');
  }

  lemma DependentsReach(forward: Index, reverse: Index, cur: Path, target: Path)
    requires Converse(forward, reverse) && Reaches(forward, cur, target)
    ensures forall m | m in At(reverse, cur) :: Reaches(forward, m, target)
  {
    forall m | m in At(reverse, cur)
      ensures Reaches(forward, m, target)
    {
      ReachesStep(forward, m, cur, target);
    }
  }

  /** Visiting the dependents of the first module in the queue takes it off the list of exceptions. */
  lemma ClosedAfter(forward: Index, reverse: Index, out: set<Path>, q: seq<Path>, out': set<Path>, q': seq<Path>)
    requires Converse(forward, reverse) && q != [] && ClosedExcept(forward, out, Elems(q))
    requires out' == out + At(reverse, q[0]) && Elems(q') == Elems(q[1..]) + (At(reverse, q[0]) - out)
    ensures ClosedExcept(forward, out', Elems(q'))
  {
    assert q == [q[0]] + q[1..];
    ElemsAppend([q[0]], q[1..]);
  }

  lemma StillBounded(reverse: Index, cur: Path, universe: set<Path>, before: set<Path>, after: set<Path>)
    requires before <= universe && Mentioned(reverse) <= universe && after == before + At(reverse, cur)
    ensures after <= universe
    ensures after == before || |universe - after| < |universe - before|
  {
    assert At(reverse, cur) <= Mentioned(reverse);
    SubsetCard(universe - after, universe - before);
    assert universe - after == universe - before ==> after == before by {
      assert universe - after == universe - before ==>
               forall x | x in after :: x in universe && x !in universe - before;
    }
  }

  /** Put the dependents not seen before in the result and in the queue. */
  method Visit(dependents: set<Path>, queue: seq<Path>, seen: set<Path>) returns (q: seq<Path>, out: set<Path>)
    ensures out == seen + dependents
    ensures Elems(q) == Elems(queue) + (dependents - seen)
    ensures out == seen ==> q == queue
  {
    q, out := queue, seen;
    var todo := dependents;
    while todo != {}
      invariant todo <= dependents
      invariant Visited(queue, seen, dependents - todo, q, out)
      decreases |todo|
    {
      var dep :| dep in todo;
      VisitStep(queue, seen, dependents - todo, q, out, dep);
      OneLess(dependents, todo, dep);
      if dep !in out {
        out := out + {dep};
        q := q + [dep];
      }
      todo := todo - {dep};
    }
    assert dependents - {} == dependents;
  }

  lemma OneLess(all: set<Path>, todo: set<Path>, dep: Path)
    requires dep in todo && todo <= all
    ensures all - (todo - {dep}) == (all - todo) + {dep}
  {
  }

  /** State of the visit after the dependents in `done`. */
  predicate Visited(queue: seq<Path>, seen: set<Path>, done: set<Path>, q: seq<Path>, out: set<Path>) {
    out == seen + done && Elems(q) == Elems(queue) + (done - seen) && (out == seen ==> q == queue)
  }

  lemma VisitStep(queue: seq<Path>, seen: set<Path>, done: set<Path>, q: seq<Path>, out: set<Path>, dep: Path)
    requires Visited(queue, seen, done, q, out)
    ensures dep in out ==> Visited(queue, seen, done + {dep}, q, out)
    ensures dep !in out ==> Visited(queue, seen, done + {dep}, q + [dep], out + {dep})
  {
    ElemsAppend(q, [dep]);
    assert Elems([dep]) == {dep};
  }

  /** Everything an index mentions on its right side. */
  function Mentioned(index: Index): (r: set<Path>) { set p, q | p in index && q in index[p] :: q }

  /** The dependency set last given for `m` by a sequence of calls. */
  function LastGiven(calls: seq<(Path, seq<Path>)>, m: Path): (deps: set<Path>) {
    if calls == [] then {}
    else
      var call := calls[|calls| - 1];
      if call.0 == m then Elems(call.1) else LastGiven(calls[..|calls| - 1], m)
  }

  /** `after` is `before` with `m` taken out of, or put into, the sets of the modules in `done`. */
  ghost predicate Removed(before: Index, after: Index, m: Path, done: set<Path>) {
    forall d: Path :: At(after, d) == if d in done then At(before, d) - {m} else At(before, d)
  }

  ghost predicate Added(before: Index, after: Index, m: Path, done: set<Path>) {
    forall d: Path :: At(after, d) == if d in done then At(before, d) + {m} else At(before, d)
  }

  /** One module less to go; an index never keeps an empty set. */
  lemma RemoveStep(before: Index, mid: Index, after: Index, m: Path, all: set<Path>, todo: set<Path>, dep: Path)
    requires NoEmptySets(mid) && Removed(before, mid, m, all - todo) && dep in todo && todo <= all
    requires after == if dep !in mid then mid else if mid[dep] - {m} == {} then mid - {dep}
             else mid[dep := mid[dep] - {m}]
    ensures NoEmptySets(after) && Removed(before, after, m, all - (todo - {dep}))
  {
    assert At(after, dep) == At(mid, dep) - {m};
    assert forall d: Path | d != dep :: At(after, d) == At(mid, d);
  }

  lemma AddStep(before: Index, mid: Index, after: Index, m: Path, all: set<Path>, todo: set<Path>, dep: Path)
    requires NoEmptySets(mid) && Added(before, mid, m, all - todo) && dep in todo && todo <= all
    requires after == mid[dep := At(mid, dep) + {m}]
    ensures NoEmptySets(after) && Added(before, after, m, all - (todo - {dep}))
  {
    assert At(after, dep) == At(mid, dep) + {m};
    assert forall d: Path | d != dep :: At(after, d) == At(mid, d);
  }

  /** The two edits turn the converse of the old sets into the converse of the new ones. */
  lemma ConverseAfter(f: Index, r: Index, r1: Index, r2: Index, m: Path, next: set<Path>, f': Index)
    requires Converse(f, r) && Removed(r, r1, m, At(f, m) - next) && Added(r1, r2, m, next - At(f, m))
    requires forall x: Path :: At(f', x) == if x == m then next else At(f, x)
    ensures Converse(f', r2)
  {
    forall x: Path, d: Path
      ensures d in At(f', x) <==> x in At(r2, d)
    {
      assert d in At(f, x) <==> x in At(r, d);
      assert d in At(f, m) <==> m in At(r, d);
    }
  }

  class Graph {
    var forward: Index
    var reverse: Index

    ghost predicate Valid()
      reads this
    {
      NoEmptySets(forward) && NoEmptySets(reverse) && Converse(forward, reverse)
    }

    constructor ()
      ensures Valid() && forward == map[] && reverse == map[]
    {
      forward, reverse := map[], map[];
    }

    method SetDependencies(module_: Path, deps: seq<Path>)
      requires Valid()
      modifies this
      ensures Valid()
      ensures forall m: Path :: At(forward, m) == if m == module_ then Elems(deps) else old(At(forward, m))
    {
      var next := Elems(deps);
      var prev := At(forward, module_);
      RemoveDependent(module_, prev - next);
      ghost var between := reverse;
      AddDependent(module_, next - prev);
      if next == {} {
        forward := forward - {module_};
      } else {
        forward := forward[module_ := next];
      }
      ConverseAfter(old(forward), old(reverse), between, reverse, module_, next, forward);
    }

    /** Take `m` out of the dependents of every module in `removed`, dropping the sets that become empty. */
    method RemoveDependent(m: Path, removed: set<Path>)
      requires NoEmptySets(reverse)
      modifies this`reverse
      ensures NoEmptySets(reverse)
      ensures Removed(old(reverse), reverse, m, removed)
    {
      var todo := removed;
      while todo != {}
        invariant NoEmptySets(reverse) && todo <= removed
        invariant Removed(old(reverse), reverse, m, removed - todo)
        decreases |todo|
      {
        var dep :| dep in todo;
        ghost var mid := reverse;
        if dep in reverse {
          var rdeps := reverse[dep] - {m};
          if rdeps == {} {
            reverse := reverse - {dep};
          } else {
            reverse := reverse[dep := rdeps];
          }
        }
        RemoveStep(old(reverse), mid, reverse, m, removed, todo, dep);
        todo := todo - {dep};
      }
    }

    /** Enter `m` among the dependents of every module in `added`. */
    method AddDependent(m: Path, added: set<Path>)
      requires NoEmptySets(reverse)
      modifies this`reverse
      ensures NoEmptySets(reverse)
      ensures Added(old(reverse), reverse, m, added)
    {
      var todo := added;
      while todo != {}
        invariant NoEmptySets(reverse) && todo <= added
        invariant Added(old(reverse), reverse, m, added - todo)
        decreases |todo|
      {
        var dep :| dep in todo;
        ghost var mid := reverse;
        reverse := reverse[dep := At(reverse, dep) + {m}];
        AddStep(old(reverse), mid, reverse, m, added, todo, dep);
        todo := todo - {dep};
      }
    }

    /** The modules to rebuild when `changed` changes: it and all that depend on it. */
    method ReverseDependentsClosure(changed: Path) returns (out: set<Path>)
      requires Valid()
      ensures forall m: Path :: m in out <==> Reaches(forward, m, changed)
    {
      out := {changed};
      var q := [changed];
      ghost var universe := Mentioned(reverse) + {changed};
      StartExploring(forward, changed);
      while q != []
        invariant out <= universe && Exploring(forward, changed, out, q)
        decreases |universe - out|, |q|
      {
        var cur := q[0];
        ghost var queue, before := q, out;
        q := q[1..];
        if cur in reverse {
          q, out := Visit(reverse[cur], q, out);
        }
        ExploreStep(forward, reverse, changed, before, queue, out, q);
        StillBounded(reverse, cur, universe, before, out);
      }
      ExploredAll(forward, changed, out);
    }
  }

  /** A graph after any sequence of calls, from the empty one. */
  method Replay(calls: seq<(Path, seq<Path>)>) returns (g: Graph)
    ensures fresh(g) && g.Valid()
    ensures forall m: Path :: At(g.forward, m) == LastGiven(calls, m)
  {
    g := new Graph();
    for i := 0 to |calls|
      invariant fresh(g) && g.Valid()
      invariant forall m: Path :: At(g.forward, m) == LastGiven(calls[..i], m)
    {
      g.SetDependencies(calls[i].0, calls[i].1);
      assert calls[..i + 1][..i] == calls[..i];
    }
    assert calls[..|calls|] == calls;
  }

  /** Nothing is left open about either index: they are functions of the dependency sets last given. */
  lemma IndexesDetermined(f: Index, r: Index, g: Index, s: Index)
    requires NoEmptySets(f) && NoEmptySets(r) && Converse(f, r)
    requires NoEmptySets(g) && NoEmptySets(s) && Converse(g, s)
    requires forall m: Path :: At(f, m) == At(g, m)
    ensures f == g && r == s
  {
    SameIndex(f, g);
    forall d: Path
      ensures At(r, d) == At(s, d)
    {
      assert forall m: Path :: (m in At(r, d) <==> d in At(f, m)) && (m in At(s, d) <==> d in At(g, m));
    }
    SameIndex(r, s);
  }

  lemma SameIndex(f: Index, g: Index)
    requires NoEmptySets(f) && NoEmptySets(g)
    requires forall m: Path :: At(f, m) == At(g, m)
    ensures f == g
  {
    assert forall m: Path :: m in f <==> At(f, m) != {};
    assert forall m: Path :: m in g <==> At(g, m) != {};
  }
}
