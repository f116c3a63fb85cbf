/** Types of captured variables: a fixpoint over all closure creation sites of the program. */
module CaptureTypes {
  import opened Mono
  import opened Anf
  import opened Sequences

  type Types = map<nat, MonoType>

  /** Function id to captured local to type. */
  type Table = map<nat, Types>

  /** What type inference knows about the locals of a function, given the capture types found so far. */
  type Inference = (Table, Function) -> Types

  // ----- One site, many sites, one round -----

  function AddVars(vars: seq<nat>, known: Types, entry: Types): (r: Types) {
    if vars == [] then entry
    else AddVars(vars[1..], known, if vars[0] in known && vars[0] !in entry then entry[vars[0] := known[vars[0]]]
                 else entry)
  }

  function AddSite(site: Site, known: Types, out: Table): (r: Table) {
    out[site.func := AddVars(site.freeVars, known, if site.func in out then out[site.func] else map[])]
  }

  function AddSites(sites: seq<Site>, known: Types, out: Table): (r: Table) {
    if sites == [] then out else AddSites(sites[1..], known, AddSite(sites[0], known, out))
  }

  /** `local_mono`, with the operation results as a fallback. */
  function Known(localMono: Types, opResult: Types): (r: Types) { opResult + localMono }

  /** One round: visit every function with what inference says under `snapshot`. */
  function Round(functions: seq<Function>, infer: Inference, snapshot: Table, out: Table): (r: Table) {
    if functions == [] then out
    else
      Round(functions[1..], infer, snapshot,
            AddSites(SitesOf(functions[0].body), Known(infer(snapshot, functions[0]), functions[0].opResult), out))
  }

  // ----- Entries are only added -----

  predicate Includes(a: Types, b: Types) { forall v | v in a :: v in b && b[v] == a[v] }

  /** Everything in `a` is in `b`, unchanged. */
  predicate Extends(a: Table, b: Table) { forall f | f in a :: f in b && Includes(a[f], b[f]) }

  lemma ExtendsTrans(a: Table, b: Table, c: Table)
    requires Extends(a, b) && Extends(b, c)
    ensures Extends(a, c)
  {
  }

  lemma {:induction false} AddVarsIncludes(vars: seq<nat>, known: Types, entry: Types)
    ensures Includes(entry, AddVars(vars, known, entry))
    ensures forall v | v in vars && v in known :: v in AddVars(vars, known, entry)
    ensures AddVars(vars, known, entry).Keys <= entry.Keys + Elems(vars)
  {
    if vars != [] {
      var next := if vars[0] in known && vars[0] !in entry then entry[vars[0] := known[vars[0]]] else entry;
      AddVarsIncludes(vars[1..], known, next);
      assert vars == [vars[0]] + vars[1..];
    }
  }

  /** Every captured variable that is known at a site has a type afterwards. */
  predicate Covers(out: Table, site: Site, known: Types) {
    site.func in out && forall v | v in site.freeVars && v in known :: v in out[site.func]
  }

  lemma AddSiteExtends(site: Site, known: Types, out: Table)
    ensures Extends(out, AddSite(site, known, out)) && Covers(AddSite(site, known, out), site, known)
  {
    AddVarsIncludes(site.freeVars, known, if site.func in out then out[site.func] else map[]);
  }

  lemma CoversExtends(a: Table, b: Table, site: Site, known: Types)
    requires Covers(a, site, known) && Extends(a, b)
    ensures Covers(b, site, known)
  {
  }

  lemma {:induction false} AddSitesExtends(sites: seq<Site>, known: Types, out: Table)
    ensures Extends(out, AddSites(sites, known, out))
    ensures forall s | s in sites :: Covers(AddSites(sites, known, out), s, known)
  {
    if sites != [] {
      var next := AddSite(sites[0], known, out);
      AddSiteExtends(sites[0], known, out);
      AddSitesExtends(sites[1..], known, next);
      ExtendsTrans(out, next, AddSites(sites, known, out));
      CoversExtends(next, AddSites(sites, known, out), sites[0], known);
      assert sites == [sites[0]] + sites[1..];
    }
  }

  /**
    In `out` every variable captured at a creation site of the program has a type, if inference under `snapshot` has
    one for it or it is the result of an operation.
  */
  ghost predicate Complete(functions: seq<Function>, infer: Inference, snapshot: Table, out: Table) {
    forall f, s, v | f in functions && s in SitesOf(f.body) && v in s.freeVars
                     && (v in infer(snapshot, f) || v in f.opResult) :: s.func in out && v in out[s.func]
  }

  lemma {:induction false} RoundExtends(functions: seq<Function>, infer: Inference, snapshot: Table, out: Table)
    ensures Extends(out, Round(functions, infer, snapshot, out))
    ensures Complete(functions, infer, snapshot, Round(functions, infer, snapshot, out))
  {
    if functions != [] {
      var local, opResult := infer(snapshot, functions[0]), functions[0].opResult;
      var known, sites := Known(local, opResult), SitesOf(functions[0].body);
      var next, last := AddSites(sites, known, out), Round(functions, infer, snapshot, out);
      AddSitesExtends(sites, known, out);
      RoundExtends(functions[1..], infer, snapshot, next);
      ExtendsTrans(out, next, last);
      forall s, v | s in sites && v in s.freeVars && (v in local || v in opResult)
        ensures s.func in last && v in last[s.func]
      {
        CoversExtends(next, last, s, known);
      }
      assert functions == [functions[0]] + functions[1..];
    }
  }

  // ----- Where entries come from -----

  predicate Has(out: Table, f: nat, v: nat, t: MonoType) { f in out && v in out[f] && out[f][v] == t }

  /** Some site of function `f` captures `v`, and inference gives it the type `t` there. */
  predicate FromSite(sites: seq<Site>, known: Types, f: nat, v: nat, t: MonoType) {
    exists s :: s in sites && s.func == f && v in s.freeVars && v in known && known[v] == t
  }

  lemma {:induction false} AddVarsSource(vars: seq<nat>, known: Types, entry: Types, v: nat)
    requires v in AddVars(vars, known, entry)
    ensures (v in entry && AddVars(vars, known, entry)[v] == entry[v])
            || (v in vars && v in known && AddVars(vars, known, entry)[v] == known[v])
  {
    if vars != [] {
      AddVarsSource(vars[1..], known, if vars[0] in known && vars[0] !in entry then entry[vars[0] := known[vars[0]]]
                    else entry, v);
    }
  }

  lemma AddSiteSource(site: Site, known: Types, out: Table, f: nat, v: nat, t: MonoType)
    requires Has(AddSite(site, known, out), f, v, t)
    ensures Has(out, f, v, t) || (site.func == f && v in site.freeVars && v in known && known[v] == t)
  {
    if f == site.func {
      AddVarsSource(site.freeVars, known, if site.func in out then out[site.func] else map[], v);
    }
  }

  lemma {:induction false} AddSitesSource(sites: seq<Site>, known: Types, out: Table, f: nat, v: nat, t: MonoType)
    requires Has(AddSites(sites, known, out), f, v, t)
    ensures Has(out, f, v, t) || FromSite(sites, known, f, v, t)
  {
    if sites != [] {
      AddSitesSource(sites[1..], known, AddSite(sites[0], known, out), f, v, t);
      if Has(AddSite(sites[0], known, out), f, v, t) {
        AddSiteSource(sites[0], known, out, f, v, t);
      }
    }
  }

  /** The type of `v` in function `g`: what inference says under `snapshot`, or else that of the operation result. */
  predicate Gives(infer: Inference, snapshot: Table, g: Function, v: nat, t: MonoType) {
    if v in infer(snapshot, g) then infer(snapshot, g)[v] == t else v in g.opResult && g.opResult[v] == t
  }

  /** Some function of the program creates a closure of `f` over `v`, and `t` is the type of `v` there. */
  ghost predicate FromRound(functions: seq<Function>, infer: Inference, snapshot: Table, f: nat, v: nat, t: MonoType) {
    exists g, s :: g in functions && s in SitesOf(g.body) && s.func == f && v in s.freeVars
                   && Gives(infer, snapshot, g, v, t)
  }

  lemma {:induction false} RoundSource(functions: seq<Function>, infer: Inference, snapshot: Table, out: Table,
                                       f: nat, v: nat, t: MonoType)
    requires Has(Round(functions, infer, snapshot, out), f, v, t)
    ensures Has(out, f, v, t) || FromRound(functions, infer, snapshot, f, v, t)
  {
    if functions != [] {
      var g := functions[0];
      var known := Known(infer(snapshot, g), g.opResult);
      var next := AddSites(SitesOf(g.body), known, out);
      RoundSource(functions[1..], infer, snapshot, next, f, v, t);
      if Has(next, f, v, t) {
        AddSitesSource(SitesOf(g.body), known, out, f, v, t);
      }
    }
  }

  // ----- Bounds -----

  /** A place in the table: the entry of a function, or the type of one of its captured variables. */
  datatype Slot = FuncSlot(func: nat) | VarSlot(func: nat, local: nat)

  function SiteSlots(site: Site): (r: set<Slot>) {
    {FuncSlot(site.func)} + set v | v in site.freeVars :: VarSlot(site.func, v)
  }

  function Slots(sites: seq<Site>): (r: set<Slot>) {
    if sites == [] then {} else SiteSlots(sites[0]) + Slots(sites[1..])
  }

  function AllSlots(functions: seq<Function>): (r: set<Slot>) {
    if functions == [] then {} else Slots(SitesOf(functions[0].body)) + AllSlots(functions[1..])
  }

  predicate Filled(out: Table, slot: Slot) {
    slot.func in out && (slot.VarSlot? ==> slot.local in out[slot.func])
  }

  /** Every place in use is one of `slots`. */
  ghost predicate Within(out: Table, slots: set<Slot>) { forall slot: Slot | Filled(out, slot) :: slot in slots }

  lemma AddSiteWithin(site: Site, known: Types, out: Table, slots: set<Slot>)
    requires Within(out, slots) && SiteSlots(site) <= slots
    ensures Within(AddSite(site, known, out), slots)
  {
    var entry := if site.func in out then out[site.func] else map[];
    AddVarsIncludes(site.freeVars, known, entry);
    assert FuncSlot(site.func) in SiteSlots(site);
    forall slot: Slot | Filled(AddSite(site, known, out), slot)
      ensures slot in slots
    {
      if !Filled(out, slot) && slot.VarSlot? {
        assert slot.local in site.freeVars;
        assert slot in SiteSlots(site);
      }
    }
  }

  lemma {:induction false} AddSitesWithin(sites: seq<Site>, known: Types, out: Table, slots: set<Slot>)
    requires Within(out, slots) && Slots(sites) <= slots
    ensures Within(AddSites(sites, known, out), slots)
  {
    if sites != [] {
      AddSiteWithin(sites[0], known, out, slots);
      AddSitesWithin(sites[1..], known, AddSite(sites[0], known, out), slots);
    }
  }

  lemma {:induction false} RoundWithin(functions: seq<Function>, infer: Inference, snapshot: Table, out: Table,
                                       slots: set<Slot>)
    requires Within(out, slots) && AllSlots(functions) <= slots
    ensures Within(Round(functions, infer, snapshot, out), slots)
  {
    if functions != [] {
      var known, sites := Known(infer(snapshot, functions[0]), functions[0].opResult), SitesOf(functions[0].body);
      AddSitesWithin(sites, known, out, slots);
      RoundWithin(functions[1..], infer, snapshot, AddSites(sites, known, out), slots);
    }
  }

  /** The places of `slots` that are still free. */
  function Free(out: Table, slots: set<Slot>): (r: set<Slot>) { set slot | slot in slots && !Filled(out, slot) }

  /** A table that grows within `slots` has fewer free places, unless it stays the same. */
  lemma GrowthUsesSlots(a: Table, b: Table, slots: set<Slot>)
    requires Extends(a, b) && a != b && Within(b, slots)
    ensures |Free(b, slots)| < |Free(a, slots)|
  {
    forall slot | slot in Free(b, slots)
      ensures slot in Free(a, slots)
    {
    }
    SubsetCard(Free(b, slots), Free(a, slots));
    var slot := NewSlot(a, b);
    assert slot in Free(a, slots) && slot !in Free(b, slots);
  }

  lemma SameKeysEqual(a: Types, b: Types)
    requires Includes(a, b) && b.Keys <= a.Keys
    ensures a == b
  {
  }

  lemma NewSlot(a: Table, b: Table) returns (slot: Slot)
    requires Extends(a, b) && a != b
    ensures Filled(b, slot) && !Filled(a, slot)
  {
    if f :| f in b && f !in a {
      return FuncSlot(f);
    }
    assert a.Keys == b.Keys;
    var f :| f in a && a[f] != b[f];
    if b[f].Keys <= a[f].Keys {
      SameKeysEqual(a[f], b[f]);
    }
    var v :| v in b[f] && v !in a[f];
    return VarSlot(f, v);
  }

  // ----- The fixpoint -----

  /** The table after `k` rounds. */
  function Rounds(functions: seq<Function>, infer: Inference, k: nat): (r: Table) {
    if k == 0 then map[]
    else var before := Rounds(functions, infer, k - 1); Round(functions, infer, before, before)
  }

  /** What a round adds stays, with the type it was given. */
  lemma {:induction false} RoundsExtend(functions: seq<Function>, infer: Inference, i: nat, k: nat)
    requires i <= k
    ensures Extends(Rounds(functions, infer, i), Rounds(functions, infer, k))
    decreases k
  {
    if i < k {
      var before := Rounds(functions, infer, k - 1);
      RoundsExtend(functions, infer, i, k - 1);
      RoundExtends(functions, infer, before, before);
      ExtendsTrans(Rounds(functions, infer, i), before, Rounds(functions, infer, k));
    }
  }

  /** Every type in the table was inferred at a creation site, in some round. */
  lemma {:induction false} RoundsSource(functions: seq<Function>, infer: Inference, k: nat, f: nat, v: nat, t: MonoType)
    requires Has(Rounds(functions, infer, k), f, v, t)
    ensures exists i: nat :: i < k && FromRound(functions, infer, Rounds(functions, infer, i), f, v, t)
  {
    if k > 0 {
      var before := Rounds(functions, infer, k - 1);
      RoundSource(functions, infer, before, before, f, v, t);
      if Has(before, f, v, t) {
        RoundsSource(functions, infer, k - 1, f, v, t);
      }
    }
  }

  /** Every type in the table comes from a creation site in the program, under the table of some round. */
  ghost predicate Sourced(functions: seq<Function>, infer: Inference, out: Table) {
    forall f, v | f in out && v in out[f] ::
      exists i: nat :: FromRound(functions, infer, Rounds(functions, infer, i), f, v, out[f][v])
  }

  lemma {:induction false} AllTypesSourced(functions: seq<Function>, infer: Inference, k: nat)
    ensures Sourced(functions, infer, Rounds(functions, infer, k))
  {
    var out := Rounds(functions, infer, k);
    forall f, v | f in out && v in out[f]
      ensures exists i: nat :: FromRound(functions, infer, Rounds(functions, infer, i), f, v, out[f][v])
    {
      RoundsSource(functions, infer, k, f, v, out[f][v]);
    }
  }

  class Collector {
    var out: Table

    constructor ()
      ensures out == map[]
    {
      out := map[];
    }

    /** `collect_capture_mono_expr`: visit the creation sites of an expression in order. */
    method CollectExpr(e: Expr, localMono: Types, opResult: Types)
      modifies this
      ensures out == AddSites(SitesOf(e), Known(localMono, opResult), old(out))
      decreases e
    {
      if e.Let? {
        ghost var known := Known(localMono, opResult);
        AddSitesAppend(SitesOfOp(e.op), SitesOf(e.body), known, out);
        CollectOp(e.op, localMono, opResult);
        CollectExpr(e.body, localMono, opResult);
      }
    }

    method CollectOp(op: Op, localMono: Types, opResult: Types)
      modifies this
      ensures out == AddSites(SitesOfOp(op), Known(localMono, opResult), old(out))
      decreases op
    {
      ghost var known := Known(localMono, opResult);
      match op
      case AMakeClosure(f, vars) =>
        CollectSite(f, vars, localMono, opResult);
      case AIf(_, t, e) =>
        AddSitesAppend(SitesOf(t), SitesOf(e), known, out);
        CollectExpr(t, localMono, opResult);
        CollectExpr(e, localMono, opResult);
      case AMatch(_, arms) =>
        assert arms[0..] == arms;
        for i := 0 to |arms|
          invariant AddSites(SitesOfArms(arms[i..]), known, out) == AddSites(SitesOfArms(arms), known, old(out))
        {
          assert arms[i..][1..] == arms[i + 1..];
          AddSitesAppend(SitesOf(arms[i].body), SitesOfArms(arms[i + 1..]), known, out);
          CollectExpr(arms[i].body, localMono, opResult);
        }
      case ALoop(b) =>
        CollectExpr(b, localMono, opResult);
      case ADefer(b) =>
        CollectExpr(b, localMono, opResult);
      case _ =>
    }

    /** One creation site: make the entry of the function, and give each untyped captured variable its known type. */
    method CollectSite(f: nat, vars: seq<nat>, localMono: Types, opResult: Types)
      modifies this
      ensures out == AddSite(Site(f, vars), Known(localMono, opResult), old(out))
    {
      var entry: Types := if f in out then out[f] else map[];
      ghost var start, known := entry, Known(localMono, opResult);
      assert vars[0..] == vars;
      for i := 0 to |vars|
        invariant AddVars(vars[i..], known, entry) == AddVars(vars, known, start)
      {
        assert vars[i..][1..] == vars[i + 1..];
        if vars[i] in localMono {
          if vars[i] !in entry {
            entry := entry[vars[i] := localMono[vars[i]]];
          }
        } else if vars[i] in opResult {
          if vars[i] !in entry {
            entry := entry[vars[i] := opResult[vars[i]]];
          }
        }
      }
      out := out[f := entry];
    }
  }

  lemma {:induction false} AddSitesAppend(s: seq<Site>, t: seq<Site>, known: Types, out: Table)
    ensures AddSites(s + t, known, out) == AddSites(t, known, AddSites(s, known, out))
  {
    if s == [] {
      assert s + t == t;
    } else {
      assert (s + t)[1..] == s[1..] + t;
      AddSitesAppend(s[1..], t, known, AddSite(s[0], known, out));
    }
  }

  /** `collect_capture_mono_by_func`: rounds until one changes nothing. */
  method CollectCaptureTypes(functions: seq<Function>, infer: Inference) returns (out: Table)
    ensures exists k: nat :: k <= |AllSlots(functions)| && out == Rounds(functions, infer, k)
    ensures Round(functions, infer, out, out) == out && Within(out, AllSlots(functions))
    ensures Complete(functions, infer, out, out)
    ensures Sourced(functions, infer, out)
  {
    ghost var slots := AllSlots(functions);
    ghost var k := 0;
    out := map[];
    assert Free(out, slots) == slots;
    while true
      invariant out == Rounds(functions, infer, k) && Within(out, slots)
      invariant k + |Free(out, slots)| <= |slots|
      decreases |Free(out, slots)|
    {
      var snapshot := out;
      out := OneRound(functions, infer, snapshot);
      RoundExtends(functions, infer, snapshot, snapshot);
      RoundWithin(functions, infer, snapshot, snapshot, slots);
      if out == snapshot {
        AllTypesSourced(functions, infer, k);
        return;
      }
      GrowthUsesSlots(snapshot, out, slots);
      k := k + 1;
    }
  }

  method OneRound(functions: seq<Function>, infer: Inference, snapshot: Table) returns (out: Table)
    ensures out == Round(functions, infer, snapshot, snapshot)
  {
    var collector := new Collector();
    collector.out := snapshot;
    assert functions[0..] == functions;
    for i := 0 to |functions|
      invariant Round(functions[i..], infer, snapshot, collector.out) == Round(functions, infer, snapshot, snapshot)
    {
      assert functions[i..][1..] == functions[i + 1..];
      collector.CollectExpr(functions[i].body, infer(snapshot, functions[i]), functions[i].opResult);
    }
    out := collector.out;
  }
}
