/** Ordering the local Wasm type definitions so that each one follows the definitions it refers to. */
module TypeOrder {
  import opened Base
  import opened Wasm
  import opened Sequences
  import opened Graphs

  datatype TypeDef =
    | StructType(name: Sym, fields: seq<ValType>, supertype: Option<Sym>)
    | ArrayType(name: Sym, elem: ValType)
    | FuncType(name: Sym, params: seq<ValType>, results: seq<ValType>)

  // ----- Dependencies -----

  function ValTypeNames(ty: ValType): (names: set<Sym>) {
    if ty.Ref? && ty.heap.NamedHeap? then {ty.heap.sym} else {}
  }

  function ValTypesNames(tys: seq<ValType>): (names: set<Sym>) {
    if tys == [] then {} else ValTypeNames(tys[0]) + ValTypesNames(tys[1..])
  }

  /** The type names that a definition mentions. */
  function Names(def: TypeDef): (names: set<Sym>) {
    match def
    case StructType(_, fields, parent) => (if parent.Some? then {parent.value} else {}) + ValTypesNames(fields)
    case ArrayType(_, elem) => ValTypeNames(elem)
    case FuncType(_, params, results) => ValTypesNames(params) + ValTypesNames(results)
  }

  predicate RefersTo(ty: ValType, name: Sym) { ty.Ref? && ty.heap == NamedHeap(name) }

  /** The name stands at some position of the definition. */
  predicate Mentions(def: TypeDef, name: Sym) {
    match def
    case StructType(_, fields, parent) =>
      parent == Some(name) || exists i :: 0 <= i < |fields| && RefersTo(fields[i], name)
    case ArrayType(_, elem) => RefersTo(elem, name)
    case FuncType(_, params, results) =>
      (exists i :: 0 <= i < |params| && RefersTo(params[i], name))
      || exists i :: 0 <= i < |results| && RefersTo(results[i], name)
  }

  lemma {:induction false} ValTypesNamesMeaning(tys: seq<ValType>, name: Sym)
    ensures name in ValTypesNames(tys) <==> exists i :: 0 <= i < |tys| && RefersTo(tys[i], name)
  {
    if tys != [] {
      ValTypesNamesMeaning(tys[1..], name);
      assert forall i | 0 <= i < |tys| - 1 :: tys[1..][i] == tys[i + 1];
      if i :| 0 <= i < |tys| && RefersTo(tys[i], name) {
        assert i > 0 ==> RefersTo(tys[1..][i - 1], name);
      }
    }
  }

  /** The pass finds a name in a definition exactly when it stands at one of its positions. */
  lemma NamesAreMentioned(def: TypeDef, name: Sym)
    ensures name in Names(def) <==> Mentions(def, name)
  {
    match def
    case StructType(_, fields, _) =>
      ValTypesNamesMeaning(fields, name);
    case ArrayType(_, _) =>
    case FuncType(_, params, results) =>
      ValTypesNamesMeaning(params, name);
      ValTypesNamesMeaning(results, name);
  }

  /** `idx` is the definition that `name` stands for: the last one of that name. */
  predicate Defines(defs: seq<TypeDef>, name: Sym, idx: nat) {
    idx < |defs| && defs[idx].name == name && forall j | idx < j < |defs| :: defs[j].name != name
  }

  /** Definition `i` mentions the other local definition `d`. */
  predicate DependsOn(defs: seq<TypeDef>, i: nat, d: nat) {
    i < |defs| && d < |defs| && d != i && Mentions(defs[i], defs[d].name) && Defines(defs, defs[d].name, d)
  }

  ghost predicate IsLocalDeps(defs: seq<TypeDef>, deps: seq<set<nat>>) {
    |deps| == |defs| && forall i: nat, d: nat | i < |defs| :: d in deps[i] <==> DependsOn(defs, i, d)
  }

  /** `name_to_index`: later definitions replace earlier ones. */
  method NameToIndex(defs: seq<TypeDef>) returns (index: map<Sym, nat>)
    ensures forall name | name in index :: Defines(defs, name, index[name])
    ensures forall i | 0 <= i < |defs| :: defs[i].name in index
  {
    index := map[];
    for i := 0 to |defs|
      invariant forall name | name in index :: Defines(defs[..i], name, index[name])
      invariant forall j | 0 <= j < i :: defs[j].name in index
    {
      index := index[defs[i].name := i];
    }
    assert defs[..|defs|] == defs;
  }

  function LocalDeps(defs: seq<TypeDef>, index: map<Sym, nat>, i: nat): (r: set<nat>)
    requires i < |defs|
  {
    (set name | name in Names(defs[i]) && name in index :: index[name]) - {i}
  }

  /** The dependency sets of all definitions, self-references dropped. */
  method CollectDeps(defs: seq<TypeDef>) returns (deps: seq<set<nat>>)
    ensures IsLocalDeps(defs, deps) && IsGraph(deps)
  {
    var index := NameToIndex(defs);
    deps := [];
    for i := 0 to |defs|
      invariant |deps| == i
      invariant forall j | 0 <= j < i :: deps[j] == LocalDeps(defs, index, j)
    {
      deps := deps + [LocalDeps(defs, index, i)];
    }
    forall i: nat, d: nat | i < |defs|
      ensures d in deps[i] <==> DependsOn(defs, i, d)
    {
      LocalDepsMeaning(defs, index, i, d);
    }
  }

  lemma LocalDepsMeaning(defs: seq<TypeDef>, index: map<Sym, nat>, i: nat, d: nat)
    requires forall name | name in index :: Defines(defs, name, index[name])
    requires forall k | 0 <= k < |defs| :: defs[k].name in index
    requires i < |defs|
    ensures d in LocalDeps(defs, index, i) <==> DependsOn(defs, i, d)
  {
    if d < |defs| {
      NamesAreMentioned(defs[i], defs[d].name);
    }
    if d < |defs| && Defines(defs, defs[d].name, d) {
      var name := defs[d].name;
      assert Defines(defs, name, index[name]);
      assert index[name] == d;
    }
  }

  // ----- Indegrees and dependents -----

  /** `js` lists, once each, the nodes below `n` that depend on `d`, and `n` itself when `d` is in `done`. */
  ghost predicate Listed(deps: seq<set<nat>>, n: nat, done: set<nat>, d: nat, js: seq<nat>) {
    n <= |deps| && NoDup(js) && forall j: nat :: j in js <==> (j < n && d in deps[j]) || (j == n && d in done)
  }

  lemma ListedPush(deps: seq<set<nat>>, n: nat, done: set<nat>, d: nat, js: seq<nat>)
    requires Listed(deps, n, done, d, js) && d !in done
    ensures Listed(deps, n, done + {d}, d, js + [n])
  {
    NoDupAppend(js, n);
    forall j: nat
      ensures j in js + [n] <==> (j < n && d in deps[j]) || (j == n && d in done + {d})
    {
      assert j in js + [n] <==> j in js || j == n;
    }
  }

  /** The reverse edges as lists, and the number of edges out of every node. */
  method BuildDependents(deps: seq<set<nat>>) returns (dependents: array<seq<nat>>, indegree: array<nat>)
    requires IsGraph(deps)
    ensures fresh(dependents) && fresh(indegree) && dependents.Length == |deps| && indegree.Length == |deps|
    ensures forall d | 0 <= d < |deps| :: Listed(deps, |deps|, {}, d, dependents[d])
    ensures forall i | 0 <= i < |deps| :: indegree[i] == |deps[i]|
  {
    var n := |deps|;
    dependents := new seq<nat>[n](_ => []);
    indegree := new nat[n](_ => 0);
    for idx := 0 to n
      invariant fresh(dependents) && fresh(indegree) && dependents.Length == n && indegree.Length == n
      invariant forall d | 0 <= d < n :: Listed(deps, idx, {}, d, dependents[d])
      invariant forall i | 0 <= i < idx :: indegree[i] == |deps[i]|
    {
      indegree[idx] := |deps[idx]|;
      PushDependent(deps, idx, dependents);
      forall d | 0 <= d < n
        ensures Listed(deps, idx + 1, {}, d, dependents[d])
      {
        assert Listed(deps, idx, deps[idx], d, dependents[d]);
      }
    }
  }

  /** Enter `idx` with every one of its dependencies, in whatever order the set is traversed. */
  method PushDependent(deps: seq<set<nat>>, idx: nat, dependents: array<seq<nat>>)
    requires IsGraph(deps) && idx < |deps| && dependents.Length == |deps|
    requires forall d | 0 <= d < |deps| :: Listed(deps, idx, {}, d, dependents[d])
    modifies dependents
    ensures forall d | 0 <= d < |deps| :: Listed(deps, idx, deps[idx], d, dependents[d])
  {
    var todo := deps[idx];
    ghost var done: set<nat> := {};
    while todo != {}
      invariant todo <= deps[idx] && done == deps[idx] - todo
      invariant forall d | 0 <= d < |deps| :: Listed(deps, idx, done, d, dependents[d])
      decreases |todo|
    {
      var dep :| dep in todo;
      ListedPush(deps, idx, done, dep, dependents[dep]);
      dependents[dep] := dependents[dep] + [idx];
      todo := todo - {dep};
      done := done + {dep};
    }
  }

  // ----- Kahn's loop -----

  /** Dependencies of `i` that have not been ordered yet. */
  function Waiting(deps: seq<set<nat>>, ordered: seq<nat>, i: nat): (n: nat)
    requires i < |deps|
  {
    |deps[i] - Elems(ordered)|
  }

  /** While the dependents of the node ordered last are visited, those still `pending` count it as well. */
  predicate Counted(deps: seq<set<nat>>, indegree: seq<nat>, ordered: seq<nat>, pending: set<nat>) {
    |indegree| == |deps|
    && forall i: nat | i < |deps| :: indegree[i] == Waiting(deps, ordered, i) + (if i in pending then 1 else 0)
  }

  /** A node with nothing left to wait for is in the queue or already ordered. */
  predicate Queued(indegree: seq<nat>, ordered: seq<nat>, ready: seq<nat>) {
    NoDup(ordered + ready) && AllBelow(ordered + ready, |indegree|)
    && forall i: nat | i < |indegree| :: indegree[i] == 0 <==> i in ordered + ready
  }

  lemma StartCounts(deps: seq<set<nat>>, indegree: seq<nat>)
    requires |indegree| == |deps| && forall i | 0 <= i < |deps| :: indegree[i] == |deps[i]|
    ensures Counted(deps, indegree, [], {})
  {
    assert forall i | 0 <= i < |deps| :: deps[i] - Elems<nat>([]) == deps[i];
  }

  lemma PopCounts(deps: seq<set<nat>>, indegree: seq<nat>, ordered: seq<nat>, idx: nat, js: seq<nat>)
    requires Counted(deps, indegree, ordered, {}) && idx !in ordered && Listed(deps, |deps|, {}, idx, js)
    ensures Counted(deps, indegree, ordered + [idx], Elems(js)) && AllBelow(js, |deps|)
  {
    assert forall k | 0 <= k < |js| :: js[k] in js;
    forall i: nat | i < |deps|
      ensures indegree[i] == Waiting(deps, ordered + [idx], i) + (if i in Elems(js) then 1 else 0)
    {
      assert i in Elems(js) <==> idx in deps[i];
      ElemsAppend(ordered, [idx]);
      var before, after := deps[i] - Elems(ordered), deps[i] - Elems(ordered + [idx]);
      assert idx in deps[i] ==> before == after + {idx};
      assert idx !in deps[i] ==> before == after;
    }
  }

  lemma VisitCounts(deps: seq<set<nat>>, indegree: seq<nat>, ordered: seq<nat>, pending: set<nat>, j: nat)
    requires Counted(deps, indegree, ordered, pending) && j in pending && j < |deps|
    ensures indegree[j] > 0 && Counted(deps, indegree[j := indegree[j] - 1], ordered, pending - {j})
  {
  }

  lemma VisitQueues(indegree: seq<nat>, ordered: seq<nat>, ready: seq<nat>, j: nat)
    requires Queued(indegree, ordered, ready) && j < |indegree| && indegree[j] > 0
    ensures Queued(indegree[j := indegree[j] - 1], ordered, if indegree[j] == 1 then ready + [j] else ready)
  {
    var queue := ordered + ready;
    NoDupAppend(queue, j);
    assert ordered + (ready + [j]) == queue + [j];
    assert forall i: nat :: i in queue + [j] <==> i in queue || i == j;
  }

  lemma PopQueue(indegree: seq<nat>, ordered: seq<nat>, ready: seq<nat>)
    requires Queued(indegree, ordered, ready) && ready != []
    ensures Queued(indegree, ordered + [ready[0]], ready[1..])
    ensures ready[0] < |indegree| && indegree[ready[0]] == 0 && ready[0] !in ordered
    ensures |ordered| < |indegree|
  {
    var queue := ordered + ready;
    assert queue[|ordered|] == ready[0];
    assert forall k | 0 <= k < |ordered| :: queue[k] == ordered[k];
    assert (ordered + [ready[0]]) + ready[1..] == queue;
    DistinctBelow(queue, |indegree|);
  }

  /** The node at the front of the queue may be ordered: all it depends on has been. */
  lemma {:induction false} PopReady(deps: seq<set<nat>>, indegree: seq<nat>, ordered: seq<nat>, idx: nat)
    requires Counted(deps, indegree, ordered, {}) && idx < |indegree| && indegree[idx] == 0
    requires DepsEarlier(deps, ordered)
    ensures DepsEarlier(deps, ordered + [idx])
  {
    assert Waiting(deps, ordered, idx) == 0;
    assert deps[idx] - Elems(ordered) == {};
    forall d | d in deps[idx]
      ensures d in Elems(ordered)
    {
      assert d !in deps[idx] - Elems(ordered);
    }
    var next := ordered + [idx];
    assert next[..|next| - 1] == ordered && next[|next| - 1] == idx;
  }

  /** The initial queue: the nodes without dependencies. */
  method InitialQueue(indegree: array<nat>) returns (ready: seq<nat>)
    ensures Queued(indegree[..], [], ready)
  {
    ready := [];
    for idx := 0 to indegree.Length
      invariant NoDup(ready) && AllBelow(ready, idx)
      invariant forall i: nat | i < idx :: indegree[i] == 0 <==> i in ready
    {
      if indegree[idx] == 0 {
        ready := ready + [idx];
      }
    }
    assert [] + ready == ready;
  }

  /** The visit of the dependents of the node ordered last. */
  method VisitDependents(ghost deps: seq<set<nat>>, js: seq<nat>, indegree: array<nat>, ghost ordered: seq<nat>,
                         queue: seq<nat>)
    returns (ready: seq<nat>)
    requires NoDup(js) && AllBelow(js, |deps|)
    requires Counted(deps, indegree[..], ordered, Elems(js)) && Queued(indegree[..], ordered, queue)
    modifies indegree
    ensures Counted(deps, indegree[..], ordered, {}) && Queued(indegree[..], ordered, ready)
  {
    ready := queue;
    assert js[0..] == js;
    for m := 0 to |js|
      invariant Counted(deps, indegree[..], ordered, Elems(js[m..]))
      invariant Queued(indegree[..], ordered, ready)
    {
      var dependent := js[m];
      ghost var before := indegree[..];
      assert js[m..] == [dependent] + js[m + 1..];
      VisitCounts(deps, before, ordered, Elems(js[m..]), dependent);
      VisitQueues(before, ordered, ready, dependent);
      indegree[dependent] := indegree[dependent] - 1;
      assert indegree[..] == before[dependent := before[dependent] - 1];
      if indegree[dependent] == 0 {
        ready := ready + [dependent];
      }
      assert Elems(js[m + 1..]) == Elems(js[m..]) - {dependent};
    }
  }

  /** Kahn's algorithm: what can be ordered is, and everything can unless there is a cycle. */
  method KahnOrder(deps: seq<set<nat>>) returns (ordered: seq<nat>)
    requires IsGraph(deps)
    ensures NoDup(ordered) && AllBelow(ordered, |deps|) && DepsEarlier(deps, ordered)
    ensures |ordered| == |deps| <==> !Cyclic(deps)
  {
    var dependents, indegree := BuildDependents(deps);
    var ready := InitialQueue(indegree);
    ordered := [];
    StartCounts(deps, indegree[..]);
    while ready != []
      invariant fresh(dependents) && fresh(indegree) && dependents.Length == |deps| && indegree.Length == |deps|
      invariant forall d | 0 <= d < |deps| :: Listed(deps, |deps|, {}, d, dependents[d])
      invariant Counted(deps, indegree[..], ordered, {}) && Queued(indegree[..], ordered, ready)
      invariant DepsEarlier(deps, ordered) && |ordered| <= |deps|
      decreases |deps| - |ordered|
    {
      var idx := ready[0];
      PopQueue(indegree[..], ordered, ready);
      PopReady(deps, indegree[..], ordered, idx);
      PopCounts(deps, indegree[..], ordered, idx, dependents[idx]);
      ordered := ordered + [idx];
      ready := VisitDependents(deps, dependents[idx], indegree, ordered, ready[1..]);
    }
    EmptyQueue(deps, indegree[..], ordered);
  }

  /** When the queue runs dry, a node left over waits for another one. */
  lemma {:induction false} LeftoversWait(deps: seq<set<nat>>, indegree: seq<nat>, ordered: seq<nat>, i: nat)
    requires IsGraph(deps) && Counted(deps, indegree, ordered, {}) && Queued(indegree, ordered, [])
    requires i in Below(|deps|) - Elems(ordered)
    ensures deps[i] * (Below(|deps|) - Elems(ordered)) != {}
  {
    assert ordered + [] == ordered;
    var left := deps[i] - Elems(ordered);
    assert |left| > 0;
    var d :| d in left;
    assert d in deps[i] * (Below(|deps|) - Elems(ordered));
  }

  lemma {:induction false} LeftoversAreCyclic(deps: seq<set<nat>>, indegree: seq<nat>, ordered: seq<nat>)
    requires IsGraph(deps) && Counted(deps, indegree, ordered, {}) && Queued(indegree, ordered, [])
    requires AllBelow(ordered, |deps|) && Elems(ordered) != Below(|deps|)
    ensures Cyclic(deps)
  {
    var stuck := Below(|deps|) - Elems(ordered);
    forall i | i in stuck
      ensures deps[i] * stuck != {}
    {
      LeftoversWait(deps, indegree, ordered, i);
    }
    assert Elems(ordered) <= Below(|deps|);
    StuckIsCyclic(deps, stuck);
  }

  lemma {:induction false} EmptyQueue(deps: seq<set<nat>>, indegree: seq<nat>, ordered: seq<nat>)
    requires IsGraph(deps) && DepsEarlier(deps, ordered)
    requires Counted(deps, indegree, ordered, {}) && Queued(indegree, ordered, [])
    ensures NoDup(ordered) && AllBelow(ordered, |deps|)
    ensures |ordered| == |deps| <==> !Cyclic(deps)
  {
    assert ordered + [] == ordered;
    DistinctBelow(ordered, |deps|);
    if |ordered| == |deps| {
      OrderedIsAcyclic(deps, ordered);
    } else {
      LeftoversAreCyclic(deps, indegree, ordered);
    }
  }

  // ----- The pass -----

  function Select(defs: seq<TypeDef>, order: seq<nat>): (out: seq<TypeDef>)
    requires AllBelow(order, |defs|)
  {
    seq(|order|, k requires 0 <= k < |order| => defs[order[k]])
  }

  /** The definitions numbered by `order`: every one of them once. */
  ghost predicate Permutes(defs: seq<TypeDef>, order: seq<nat>, out: seq<TypeDef>) {
    AllBelow(order, |defs|) && NoDup(order) && |order| == |defs| && |out| == |defs|
    && forall k: nat | k < |out| :: out[k] == defs[order[k]]
  }

  /** If a definition of `out` mentions a name that stands for another definition, that one is at an earlier index. */
  ghost predicate MentionsEarlier(defs: seq<TypeDef>, order: seq<nat>, out: seq<TypeDef>)
    requires Permutes(defs, order, out)
  {
    forall k: nat, name, d: nat | k < |out| && Mentions(out[k], name) && Defines(defs, name, d) && d != order[k] ::
      exists j: nat :: j < k && order[j] == d
  }

  /** Definitions that mention one another in a circle. */
  ghost predicate Circular(defs: seq<TypeDef>) {
    exists p: seq<nat> :: |p| >= 2 && p[0] == p[|p| - 1] && Linked(defs, p)
  }

  /** Each definition on the way depends on the next. */
  predicate Linked(defs: seq<TypeDef>, p: seq<nat>) { forall k | 0 <= k < |p| - 1 :: DependsOn(defs, p[k], p[k + 1]) }

  lemma CircularIffCyclic(defs: seq<TypeDef>, deps: seq<set<nat>>)
    requires IsLocalDeps(defs, deps)
    ensures Circular(defs) <==> Cyclic(deps)
  {
    if Circular(defs) {
      var p: seq<nat> :| |p| >= 2 && p[0] == p[|p| - 1] && Linked(defs, p);
      forall k | 0 <= k < |p|
        ensures p[k] < |deps|
      {
        assert k < |p| - 1 ==> DependsOn(defs, p[k], p[k + 1]);
        assert k > 0 ==> DependsOn(defs, p[k - 1], p[k - 1 + 1]);
      }
      assert IsPath(deps, p);
    }
    if Cyclic(deps) {
      var p: seq<nat> :| |p| >= 2 && IsPath(deps, p) && p[0] == p[|p| - 1];
      assert Linked(defs, p);
    }
  }

  lemma OrderMentionsEarlier(defs: seq<TypeDef>, deps: seq<set<nat>>, order: seq<nat>, out: seq<TypeDef>)
    requires IsLocalDeps(defs, deps) && DepsEarlier(deps, order) && Permutes(defs, order, out)
    ensures MentionsEarlier(defs, order, out)
  {
    forall k: nat, name, d: nat | k < |out| && Mentions(out[k], name) && Defines(defs, name, d) && d != order[k]
      ensures exists j: nat :: j < k && order[j] == d
    {
      DepsEarlierAt(deps, order, k);
      assert DependsOn(defs, order[k], d);
      assert d in Elems(order[..k]);
      var j: nat :| j < k && order[..k][j] == d;
    }
  }

  /** `topologically_order_local_type_defs`; `Aborted` is the panic. */
  method OrderTypes(defs: seq<TypeDef>) returns (r: Checked<seq<TypeDef>>)
    ensures r.Aborted? <==> Circular(defs)
    ensures r.Ok? ==> exists order :: Permutes(defs, order, r.value) && MentionsEarlier(defs, order, r.value)
  {
    var deps := CollectDeps(defs);
    var ordered := KahnOrder(deps);
    CircularIffCyclic(defs, deps);
    if |ordered| != |defs| {
      return Aborted;
    }
    r := Ok(Select(defs, ordered));
    OrderMentionsEarlier(defs, deps, ordered, r.value);
  }
}
