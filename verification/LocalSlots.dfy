/** Assigning Wasm local slots to the locals of a function. */
module LocalSlots {
  import opened Base
  import opened Wasm
  import opened Mono
  import opened Anf
  import opened Sequences
  import opened Sorting
  import P = Match
  import opened PatternSlots

  type SlotMap = map<nat, (nat, ValType)>

  // ----- The locals of an expression -----

  function PatternLocals(p: P.Pattern): (r: set<nat>)
    decreases p, 1
  {
    match p
    case PVar(l) => {l}
    case PVariant(_, _, fields) => PatternsLocals(fields)
    case _ => {}
  }

  function PatternsLocals(ps: seq<P.Pattern>): (r: set<nat>)
    decreases ps, 0
  {
    if ps == [] then {} else PatternLocals(ps[0]) + PatternsLocals(ps[1..])
  }

  /** Every local that a let or a pattern binds. */
  function Bound(e: Expr): (r: set<nat>)
    decreases e
  {
    if e.Let? then BoundOp(e.op) + {e.local} + Bound(e.body) else {}
  }

  function BoundOp(op: Op): (r: set<nat>)
    decreases op
  {
    match op
    case AIf(_, t, e) => Bound(t) + Bound(e)
    case AMatch(_, arms) => ArmPatterns(arms) + BoundArms(arms)
    case ALoop(b) => Bound(b)
    case ADefer(b) => Bound(b)
    case _ => {}
  }

  function ArmPatterns(arms: seq<Arm>): (r: set<nat>) {
    if arms == [] then {} else PatternLocals(arms[0].pattern) + ArmPatterns(arms[1..])
  }

  function BoundArms(arms: seq<Arm>): (r: set<nat>)
    decreases arms
  {
    if arms == [] then {} else BoundArm(arms[0]) + BoundArms(arms[1..])
  }

  function BoundArm(arm: Arm): (r: set<nat>)
    decreases arm
  {
    Bound(arm.body)
  }

  // ----- Allocations -----

  /**
    `owners[i]` is the local in slot `i`: every slot below `owners` has exactly one, and the slots behind the `params`
    parameters have their type in the vector of declared locals.
  */
  predicate Allocated(slots: SlotMap, owners: seq<nat>, params: nat, declared: seq<ValType>) {
    NoDup(owners) && |owners| == params + |declared| && slots.Keys == Elems(owners)
    && (forall i | 0 <= i < |owners| :: owners[i] in slots && slots[owners[i]].0 == i)
    && (forall i | 0 <= i < |declared| :: owners[params + i] in slots && slots[owners[params + i]].1 == declared[i])
  }

  lemma AllocateNext(slots: SlotMap, owners: seq<nat>, params: nat, declared: seq<ValType>, l: nat, ty: ValType)
    requires Allocated(slots, owners, params, declared) && l !in slots
    ensures Allocated(slots[l := (|owners|, ty)], owners + [l], params, declared + [ty])
  {
    assert l !in Elems(owners);
    NoDupAppend(owners, l);
    ElemsAppend(owners, [l]);
    assert Elems([l]) == {l};
  }

  /** A parameter takes a slot too, without a declaration. */
  lemma AllocateParam(slots: SlotMap, owners: seq<nat>, l: nat, ty: ValType)
    requires Allocated(slots, owners, |owners|, []) && l !in slots
    ensures Allocated(slots[l := (|owners|, ty)], owners + [l], |owners| + 1, [])
  {
    assert l !in Elems(owners);
    NoDupAppend(owners, l);
    ElemsAppend(owners, [l]);
    assert Elems([l]) == {l};
  }

  /** Slots are addressed without confusion. */
  lemma AllocatedMeaning(slots: SlotMap, owners: seq<nat>, params: nat, declared: seq<ValType>)
    requires Allocated(slots, owners, params, declared)
    ensures forall l | l in slots :: slots[l].0 < params + |declared|
    ensures forall a, b | a in slots && b in slots && slots[a].0 == slots[b].0 :: a == b
    ensures forall l | l in slots && slots[l].0 >= params :: declared[slots[l].0 - params] == slots[l].1
  {
    forall l | l in slots
      ensures slots[l].0 < |owners| && owners[slots[l].0] == l
      ensures slots[l].0 >= params ==> declared[slots[l].0 - params] == slots[l].1
    {
      assert l in Elems(owners);
      var i :| 0 <= i < |owners| && owners[i] == l;
      assert i >= params ==> owners[params + (i - params)] == l;
    }
  }

  /** The slot type of parameter `i`: a missing type counts as `Void`, and `__init__` keeps cells erased. */
  function ParamType(te: TypeEnv, inInit: bool, tys: seq<MonoType>, i: nat): (t: ValType)
    ensures i >= |tys| ==> t == I32
    ensures i < |tys| && inInit && tys[i].Named? && tys[i].typeId == CELL ==> t == Anyref
    ensures i < |tys| && !(inInit && tys[i].Named? && tys[i].typeId == CELL) ==> t == ValTypeOf(te, tys[i])
  {
    var mono := if i < |tys| then tys[i] else Void;
    if inInit && mono.Named? && mono.typeId == CELL then Anyref else ValTypeOf(te, mono)
  }

  /** The parameters of a function with their slot types. */
  function TypedParams(te: TypeEnv, inInit: bool, ps: seq<nat>, tys: seq<MonoType>): (r: seq<(nat, ValType)>) {
    seq(|ps|, i requires 0 <= i < |ps| => (ps[i], ParamType(te, inInit, tys, i)))
  }

  /** The entries have the slots from `first` on, in order. */
  predicate Placed(slots: SlotMap, first: nat, entries: seq<(nat, ValType)>) {
    forall i | 0 <= i < |entries| :: entries[i].0 in slots && slots[entries[i].0] == (first + i, entries[i].1)
  }

  lemma PlacedKept(before: SlotMap, after: SlotMap, first: nat, entries: seq<(nat, ValType)>)
    requires Placed(before, first, entries) && Keeps(before, after)
    ensures Placed(after, first, entries)
  {
  }

  lemma PlacedNext(before: SlotMap, after: SlotMap, first: nat, entries: seq<(nat, ValType)>, i: nat)
    requires i < |entries| && Placed(before, first, entries[..i]) && Keeps(before, after)
    requires entries[i].0 in after && after[entries[i].0] == (first + i, entries[i].1)
    ensures Placed(after, first, entries[..i + 1])
  {
    forall k | 0 <= k < i + 1
      ensures entries[k].0 in after && after[entries[k].0] == (first + k, entries[k].1)
    {
      if k < i {
        assert entries[..i][k] == entries[k];
      }
    }
  }

  /**
    No two locals share a slot, the declared types are in their places, and the last declared slot, the scratch slot,
    is nobody's.
  */
  predicate Proper(slots: SlotMap, params: nat, locals: seq<ValType>) {
    locals != [] && locals[|locals| - 1] == Anyref
    && (forall a, b | a in slots && b in slots && a != b :: slots[a].0 != slots[b].0)
    && (forall l | l in slots :: slots[l].0 < params + |locals| - 1)
    && (forall l | l in slots && slots[l].0 >= params :: locals[slots[l].0 - params] == slots[l].1)
  }

  lemma ProperWithScratch(slots: SlotMap, owners: seq<nat>, params: nat, declared: seq<ValType>)
    requires Allocated(slots, owners, params, declared)
    ensures Proper(slots, params, declared + [Anyref])
  {
    AllocatedMeaning(slots, owners, params, declared);
  }

  predicate Keeps(before: SlotMap, after: SlotMap) { forall l | l in before :: l in after && after[l] == before[l] }

  // ----- Pattern variables -----

  lemma {:induction false} OccursAppend(a: seq<(nat, ValType)>, b: seq<(nat, ValType)>, x: nat)
    ensures Occurs(a + b, x) <==> Occurs(a, x) || Occurs(b, x)
  {
    if Occurs(a, x) {
      var i :| 0 <= i < |a| && a[i].0 == x;
      assert (a + b)[i].0 == x;
    }
    if Occurs(b, x) {
      var i :| 0 <= i < |b| && b[i].0 == x;
      assert (a + b)[|a| + i].0 == x;
    }
  }

  /** The typed list has exactly the variables of the pattern. */
  lemma {:induction false} TypedLocalsOccur(te: TypeEnv, decl: Fields, p: P.Pattern, expected: Option<MonoType>,
                                            iter: Option<IterInfo>, x: nat)
    ensures Occurs(TypedLocals(te, decl, p, expected, iter), x) <==> x in PatternLocals(p)
    decreases p, 1
  {
    if p.PVar? {
      assert TypedLocals(te, decl, p, expected, iter)[0].0 == p.local;
    } else if p.PVariant? {
      FieldLocalsOccur(te, decl, p.fields, FieldMonos(decl, p.typeId, p.variant, expected),
                       FieldIter(p.typeId, p.variant, iter), 0, x);
      assert p.fields[0..] == p.fields;
    }
  }

  lemma {:induction false} FieldLocalsOccur(te: TypeEnv, decl: Fields, fs: seq<P.Pattern>, monos: seq<MonoType>,
                                            iter: Option<IterInfo>, i: nat, x: nat)
    requires i <= |fs|
    ensures Occurs(FieldLocals(te, decl, fs, monos, iter, i), x) <==> x in PatternsLocals(fs[i..])
    decreases fs, |fs| - i
  {
    if i < |fs| {
      FieldLocalsOccur(te, decl, fs, monos, iter, i + 1, x);
      OneFieldOccurs(te, decl, fs, monos, iter, i, x);
      OccursAppend(TypedLocals(te, decl, fs[i], FieldMono(monos, iter, i), iter),
                   FieldLocals(te, decl, fs, monos, iter, i + 1), x);
      assert fs[i..][1..] == fs[i + 1..];
    }
  }

  lemma {:induction false} OneFieldOccurs(te: TypeEnv, decl: Fields, fs: seq<P.Pattern>, monos: seq<MonoType>,
                                          iter: Option<IterInfo>, i: nat, x: nat)
    requires i < |fs|
    ensures Occurs(TypedLocals(te, decl, fs[i], FieldMono(monos, iter, i), iter), x) <==> x in PatternLocals(fs[i])
    decreases fs, 0
  {
    TypedLocalsOccur(te, decl, fs[i], FieldMono(monos, iter, i), iter, x);
  }

  /** All occurrences of pattern variables in the arms, with the type of the slot each asks for. */
  function Occurrences(te: TypeEnv, decl: Fields, arms: seq<Arm>, mono: Option<MonoType>, iter: Option<IterInfo>)
    : (r: seq<(nat, ValType)>) {
    if arms == [] then []
    else
      Occurrences(te, decl, arms[..|arms| - 1], mono, iter) + TypedLocals(te, decl, arms[|arms| - 1].pattern, mono,
          iter)
  }

  lemma {:induction false} OccurrencesOccur(te: TypeEnv, decl: Fields, arms: seq<Arm>, mono: Option<MonoType>,
                                            iter: Option<IterInfo>, x: nat)
    ensures Occurs(Occurrences(te, decl, arms, mono, iter), x) <==> x in ArmPatterns(arms)
  {
    if arms != [] {
      var front, last := arms[..|arms| - 1], arms[|arms| - 1];
      OccurrencesOccur(te, decl, front, mono, iter, x);
      TypedLocalsOccur(te, decl, last.pattern, mono, iter, x);
      OccursAppend(Occurrences(te, decl, front, mono, iter), TypedLocals(te, decl, last.pattern, mono, iter), x);
      assert arms == front + [last];
      ArmPatternsAppend(front, last);
    }
  }

  lemma {:induction false} ArmPatternsAppend(arms: seq<Arm>, last: Arm)
    ensures ArmPatterns(arms + [last]) == ArmPatterns(arms) + PatternLocals(last.pattern)
  {
    if arms == [] {
      assert [last][1..] == [];
    } else {
      ArmPatternsAppend(arms[1..], last);
      assert (arms + [last])[1..] == arms[1..] + [last];
    }
  }

  /** The occurrences in one arm are among those in all arms. */
  lemma {:induction false} OccurrencesInclude(te: TypeEnv, decl: Fields, arms: seq<Arm>, mono: Option<MonoType>,
                                              iter: Option<IterInfo>, k: nat, j: nat) returns (i: nat)
    requires k < |arms| && j < |TypedLocals(te, decl, arms[k].pattern, mono, iter)|
    ensures i < |Occurrences(te, decl, arms, mono, iter)|
    ensures Occurrences(te, decl, arms, mono, iter)[i] == TypedLocals(te, decl, arms[k].pattern, mono, iter)[j]
  {
    if k == |arms| - 1 {
      i := |Occurrences(te, decl, arms[..|arms| - 1], mono, iter)| + j;
    } else {
      i := OccurrencesInclude(te, decl, arms[..|arms| - 1], mono, iter, k, j);
    }
  }

  // ----- Bindings of a function body -----

  /** A match, with the locals that have a slot before it is reached. */
  datatype MatchSite = MatchSite(scrutinee: Atom, arms: seq<Arm>, before: set<nat>)

  /** A place that binds locals: a match, or a let with the locals that have a slot before its own does. */
  datatype BindSite = OfMatch(site: MatchSite) | OfLet(local: nat, op: Op, before: set<nat>)

  function Sites(e: Expr, seen: set<nat>): (sites: seq<BindSite>)
    decreases e
  {
    if e.Let? then
      SitesOp(e.op, seen) + [OfLet(e.local, e.op, seen + BoundOp(e.op))]
      + Sites(e.body, seen + BoundOp(e.op) + {e.local})
    else []
  }

  function SitesOp(op: Op, seen: set<nat>): (sites: seq<BindSite>)
    decreases op
  {
    match op
    case AIf(_, t, e) => Sites(t, seen) + Sites(e, seen + Bound(t))
    case AMatch(a, arms) => [OfMatch(MatchSite(a, arms, seen))] + SitesArms(arms, seen + ArmPatterns(arms))
    case ALoop(b) => Sites(b, seen)
    case ADefer(b) => Sites(b, seen)
    case _ => []
  }

  function SitesArms(arms: seq<Arm>, seen: set<nat>): (sites: seq<BindSite>)
    decreases arms
  {
    if arms == [] then [] else SitesArm(arms[0], seen) + SitesArms(arms[1..], seen + BoundArm(arms[0]))
  }

  function SitesArm(arm: Arm, seen: set<nat>): (sites: seq<BindSite>)
    decreases arm
  {
    Sites(arm.body, seen)
  }

  /** The locals that a site binds. */
  function Binds(site: BindSite): (r: set<nat>) {
    match site
    case OfMatch(s) => ArmPatterns(s.arms)
    case OfLet(local, _, _) => {local}
  }

  function AllBinds(sites: seq<BindSite>): (r: set<nat>) {
    if sites == [] then {} else AllBinds(sites[..|sites| - 1]) + Binds(sites[|sites| - 1])
  }

  function BoundBefore(site: BindSite): (r: set<nat>) {
    match site
    case OfMatch(s) => s.before
    case OfLet(_, _, before) => before
  }

  /** Before each site, exactly the locals of `seen` and of the earlier sites have a slot. */
  predicate InOrder(sites: seq<BindSite>, seen: set<nat>) {
    forall i | 0 <= i < |sites| :: BoundBefore(sites[i]) == seen + AllBinds(sites[..i])
  }

  lemma {:induction false} AllBindsAppend(a: seq<BindSite>, b: seq<BindSite>)
    ensures AllBinds(a + b) == AllBinds(a) + AllBinds(b)
  {
    if b == [] {
      assert a + b == a;
    } else {
      assert (a + b)[..|a + b| - 1] == a + b[..|b| - 1];
      AllBindsAppend(a, b[..|b| - 1]);
    }
  }

  lemma {:induction false} InOrderAppend(a: seq<BindSite>, b: seq<BindSite>, seen: set<nat>)
    requires InOrder(a, seen) && InOrder(b, seen + AllBinds(a))
    ensures InOrder(a + b, seen)
  {
    forall i | 0 <= i < |a + b|
      ensures BoundBefore((a + b)[i]) == seen + AllBinds((a + b)[..i])
    {
      if i < |a| {
        assert (a + b)[..i] == a[..i];
      } else {
        assert (a + b)[..i] == a + b[..i - |a|];
        AllBindsAppend(a, b[..i - |a|]);
      }
    }
  }

  lemma {:induction false} OneInOrder(site: BindSite, seen: set<nat>)
    requires BoundBefore(site) == seen
    ensures AllBinds([site]) == Binds(site) && InOrder([site], seen)
  {
    assert [site][..0] == [];
  }

  /** The sites bind exactly the locals that the expression binds, and each knows what has a slot before it. */
  lemma {:induction false} SitesOfExpr(e: Expr, seen: set<nat>)
    ensures AllBinds(Sites(e, seen)) == Bound(e) && InOrder(Sites(e, seen), seen)
    decreases e
  {
    if e.Let? {
      var op, own := SitesOp(e.op, seen), OfLet(e.local, e.op, seen + BoundOp(e.op));
      var after := seen + BoundOp(e.op) + {e.local};
      SitesOfOp(e.op, seen);
      OneInOrder(own, seen + BoundOp(e.op));
      SitesOfExpr(e.body, after);
      AllBindsAppend(op, [own]);
      InOrderAppend(op, [own], seen);
      assert seen + AllBinds(op + [own]) == after;
      AllBindsAppend(op + [own], Sites(e.body, after));
      InOrderAppend(op + [own], Sites(e.body, after), seen);
    }
  }

  lemma {:induction false} SitesOfOp(op: Op, seen: set<nat>)
    ensures AllBinds(SitesOp(op, seen)) == BoundOp(op) && InOrder(SitesOp(op, seen), seen)
    decreases op
  {
    match op
    case AIf(_, t, e) =>
      SitesOfExpr(t, seen);
      SitesOfExpr(e, seen + Bound(t));
      AllBindsAppend(Sites(t, seen), Sites(e, seen + Bound(t)));
      InOrderAppend(Sites(t, seen), Sites(e, seen + Bound(t)), seen);
    case AMatch(a, arms) =>
      var own, after := OfMatch(MatchSite(a, arms, seen)), seen + ArmPatterns(arms);
      OneInOrder(own, seen);
      SitesOfArms(arms, after);
      AllBindsAppend([own], SitesArms(arms, after));
      InOrderAppend([own], SitesArms(arms, after), seen);
    case ALoop(b) =>
      SitesOfExpr(b, seen);
    case ADefer(b) =>
      SitesOfExpr(b, seen);
    case _ =>
  }

  lemma {:induction false} SitesOfArms(arms: seq<Arm>, seen: set<nat>)
    ensures AllBinds(SitesArms(arms, seen)) == BoundArms(arms) && InOrder(SitesArms(arms, seen), seen)
    decreases arms
  {
    if arms != [] {
      var own, after := SitesArm(arms[0], seen), seen + BoundArm(arms[0]);
      SitesOfArm(arms[0], seen);
      SitesOfArms(arms[1..], after);
      AllBindsAppend(own, SitesArms(arms[1..], after));
      InOrderAppend(own, SitesArms(arms[1..], after), seen);
    }
  }

  lemma {:induction false} SitesOfArm(arm: Arm, seen: set<nat>)
    ensures AllBinds(SitesArm(arm, seen)) == BoundArm(arm) && InOrder(SitesArm(arm, seen), seen)
    decreases arm
  {
    SitesOfExpr(arm.body, seen);
  }

  /** The variables of the match that had no slot before have one of the type chosen for the scrutinee type `mono`. */
  predicate TypedFor(te: TypeEnv, decl: Fields, slots: SlotMap, site: MatchSite, mono: Option<MonoType>,
                     iter: Option<IterInfo>) {
    ArmPatterns(site.arms) <= slots.Keys
    && forall x | x in ArmPatterns(site.arms) && x !in site.before ::
         Joined(Occurrences(te, decl, site.arms, mono, iter), x) == Some(slots[x].1)
  }

  /** For some answer of inference about the scrutinee. */
  ghost predicate Served(inference: Inference, slots: SlotMap, site: MatchSite) {
    exists q: nat, known: SlotMap ::
      var answer := inference.scrutinee(q, known, site.scrutinee);
      TypedFor(inference.te, inference.decl, slots, site, answer.0, answer.1)
  }

  /** The local has a slot of the type that inference answers for the let. */
  ghost predicate LetServed(inference: Inference, slots: SlotMap, local: nat, op: Op) {
    local in slots && exists q: nat, known: SlotMap :: slots[local].1 == inference.letType(q, known, local, op)
  }

  /** The locals that a site is the first to bind have slots of the types it asks for. */
  ghost predicate SiteServed(inference: Inference, slots: SlotMap, site: BindSite) {
    match site
    case OfMatch(s) => Served(inference, slots, s)
    case OfLet(local, op, before) => local !in before ==> LetServed(inference, slots, local, op)
  }

  ghost predicate AllServed(inference: Inference, slots: SlotMap, sites: seq<BindSite>) {
    forall i | 0 <= i < |sites| :: SiteServed(inference, slots, sites[i])
  }

  lemma ServedKept(inference: Inference, before: SlotMap, after: SlotMap, site: MatchSite)
    requires Served(inference, before, site) && Keeps(before, after)
    ensures Served(inference, after, site)
  {
    var q: nat, known: SlotMap :|
      var answer := inference.scrutinee(q, known, site.scrutinee);
      TypedFor(inference.te, inference.decl, before, site, answer.0, answer.1);
    var answer := inference.scrutinee(q, known, site.scrutinee);
    assert TypedFor(inference.te, inference.decl, after, site, answer.0, answer.1);
  }

  lemma SiteServedKept(inference: Inference, before: SlotMap, after: SlotMap, site: BindSite)
    requires SiteServed(inference, before, site) && Keeps(before, after)
    ensures SiteServed(inference, after, site)
  {
    if site.OfMatch? {
      ServedKept(inference, before, after, site.site);
    }
  }

  lemma AllServedMore(inference: Inference, before: SlotMap, after: SlotMap, a: seq<BindSite>, b: seq<BindSite>)
    requires AllServed(inference, before, a) && Keeps(before, after) && AllServed(inference, after, b)
    ensures AllServed(inference, after, a + b)
  {
    forall i | 0 <= i < |a + b|
      ensures SiteServed(inference, after, (a + b)[i])
    {
      if i < |a| {
        SiteServedKept(inference, before, after, a[i]);
      } else {
        assert (a + b)[i] == b[i - |a|];
      }
    }
  }

  /** What the allocator is told: type definitions, and the answers of inference, whatever they depend on. */
  datatype Inference = Inference(
    te: TypeEnv,
    decl: Fields,
    letType: (nat, SlotMap, nat, Op) -> ValType,
    scrutinee: (nat, SlotMap, Atom) -> (Option<MonoType>, Option<IterInfo>))

  class Allocator {
    const inference: Inference
    var slots: SlotMap
    var nextIdx: nat
    var params: nat
    var declared: seq<ValType>
    var scratch: Option<nat>
    var asked: nat
    ghost var owners: seq<nat>

    ghost predicate Valid()
      reads this
    {
      Allocated(slots, owners, params, declared) && nextIdx == |owners|
    }

    constructor (inference: Inference)
      ensures this.inference == inference
      ensures Valid() && slots == map[] && declared == [] && params == 0
    {
      this.inference := inference;
      slots, nextIdx, params, declared, scratch, asked, owners := map[], 0, 0, [], None, 0, [];
    }

    /** A slot of its own for `l`, behind all others. */
    method Allocate(l: nat, ty: ValType)
      requires Valid() && l !in slots
      modifies this
      ensures Valid() && params == old(params)
      ensures slots == old(slots)[l := (old(nextIdx), ty)] && declared == old(declared) + [ty]
    {
      AllocateNext(slots, owners, params, declared, l, ty);
      slots := slots[l := (nextIdx, ty)];
      declared := declared + [ty];
      nextIdx := nextIdx + 1;
      owners := owners + [l];
    }

    method AllocateParameter(l: nat, ty: ValType)
      requires Valid() && declared == [] && l !in slots
      modifies this
      ensures Valid() && declared == [] && params == old(params) + 1
      ensures slots == old(slots)[l := (old(params), ty)] && owners == old(owners) + [l]
    {
      AllocateParam(slots, owners, l, ty);
      slots := slots[l := (nextIdx, ty)];
      nextIdx := nextIdx + 1;
      params := params + 1;
      owners := owners + [l];
    }

    /** One loop over parameters; it runs for those of the source and again for the captured locals. */
    method AllocateParameters(entries: seq<(nat, ValType)>)
      requires Valid() && declared == [] && NoDup(owners + Ids(entries))
      modifies this
      ensures Valid() && declared == [] && params == old(params) + |entries| && owners == old(owners) + Ids(entries)
      ensures Keeps(old(slots), slots) && Placed(slots, old(params), entries)
    {
      ghost var first := owners;
      assert Ids(entries[..0]) == [] && owners + [] == owners;
      for i := 0 to |entries|
        invariant Valid() && declared == [] && params == |first| + i && owners == first + Ids(entries[..i])
        invariant Keeps(old(slots), slots) && Placed(slots, |first|, entries[..i])
      {
        NextEntry(first, entries, i);
        ghost var before := slots;
        AllocateParameter(entries[i].0, entries[i].1);
        PlacedNext(before, slots, |first|, entries, i);
      }
      assert entries[..|entries|] == entries;
    }

    /** The parameters of the function, then the captured locals. */
    method StartFunction(entries: seq<(nat, ValType)>, captures: seq<(nat, ValType)>)
      requires NoDup(Ids(entries) + Ids(captures))
      modifies this
      ensures Valid() && params == |entries| + |captures| && declared == []
      ensures Placed(slots, 0, entries) && Placed(slots, |entries|, captures)
      ensures slots.Keys == Elems(Ids(entries) + Ids(captures))
    {
      slots, nextIdx, params, declared, owners := map[], 0, 0, [], [];
      var all := Ids(entries) + Ids(captures);
      assert all[..|entries|] == Ids(entries) && [] + Ids(entries) == Ids(entries);
      NoDupPrefix(all, |entries|);
      AllocateParameters(entries);
      ghost var between := slots;
      AllocateParameters(captures);
      PlacedKept(between, slots, 0, entries);
    }

    /** Slots for typed parameters, captured locals and the body, and the scratch slot behind them. */
    method SetupSlots(entries: seq<(nat, ValType)>, captures: seq<(nat, ValType)>, body: Expr)
      returns (locals: seq<ValType>)
      requires NoDup(Ids(entries) + Ids(captures))
      modifies this
      ensures params == |entries| + |captures|
      ensures Placed(slots, 0, entries) && Placed(slots, |entries|, captures)
      ensures slots.Keys == Elems(Ids(entries) + Ids(captures)) + Bound(body)
      ensures Proper(slots, params, locals) && scratch == Some(params + |locals| - 1)
      ensures AllServed(inference, slots, Sites(body, Elems(Ids(entries) + Ids(captures))))
    {
      StartFunction(entries, captures);
      ghost var between := slots;
      AssignExpr(body);
      ProperWithScratch(slots, owners, params, declared);
      PlacedKept(between, slots, 0, entries);
      PlacedKept(between, slots, |entries|, captures);
      scratch := Some(nextIdx);
      declared := declared + [Anyref];
      locals := declared;
    }

    /** `setup_locals_with_extra`: the declared locals of function `f`. */
    method SetupLocals(inInit: bool, f: Anf.Function, captures: seq<(nat, ValType)>) returns (locals: seq<ValType>)
      requires NoDup(f.params + Ids(captures))
      modifies this
      ensures params == |f.params| + |captures|
      ensures Placed(slots, 0, TypedParams(inference.te, inInit, f.params, f.paramTypes))
              && Placed(slots, |f.params|, captures)
      ensures slots.Keys == Elems(f.params + Ids(captures)) + Bound(f.body)
      ensures Proper(slots, params, locals) && scratch == Some(params + |locals| - 1)
      ensures AllServed(inference, slots, Sites(f.body, Elems(f.params + Ids(captures))))
    {
      assert Ids(TypedParams(inference.te, inInit, f.params, f.paramTypes)) == f.params;
      locals := SetupSlots(TypedParams(inference.te, inInit, f.params, f.paramTypes), captures, f.body);
    }

    // ----- Patterns -----

    /** `collect_pattern_locals_typed`. */
    method CollectPatternLocals(p: P.Pattern, expected: Option<MonoType>, iter: Option<IterInfo>,
                                typed: seq<(nat, ValType)>)
      returns (r: seq<(nat, ValType)>)
      ensures r == typed + TypedLocals(inference.te, inference.decl, p, expected, iter)
      decreases p
    {
      r := typed;
      match p
      case PVar(l) =>
        r := typed + [(l, VarType(inference.te, expected, iter))];
      case PVariant(t, k, fields) =>
        var monos, below := FieldMonos(inference.decl, t, k, expected), FieldIter(t, k, iter);
        for i := 0 to |fields|
          invariant r + FieldLocals(inference.te, inference.decl, fields, monos, below, i)
                 == typed + FieldLocals(inference.te, inference.decl, fields, monos, below, 0)
        {
          r := CollectPatternLocals(fields[i], FieldMono(monos, below, i), below, r);
        }
      case _ =>
    }

    /** The type of every pattern local over all arms. */
    method PatternTypes(arms: seq<Arm>, mono: Option<MonoType>, iter: Option<IterInfo>)
      returns (types: map<nat, ValType>)
      ensures IsJoined(types, Occurrences(inference.te, inference.decl, arms, mono, iter))
    {
      types := map[];
      for i := 0 to |arms|
        invariant IsJoined(types, Occurrences(inference.te, inference.decl, arms[..i], mono, iter))
      {
        assert arms[..i + 1][..i] == arms[..i] && arms[..i + 1][i] == arms[i];
        ghost var own := TypedLocals(inference.te, inference.decl, arms[i].pattern, mono, iter);
        assert [] + own == own;
        var typed := CollectPatternLocals(arms[i].pattern, mono, iter, []);
        types := MergeTypes(typed, types, Occurrences(inference.te, inference.decl, arms[..i], mono, iter));
      }
      assert arms[..|arms|] == arms;
    }

    /** Occurrences that agree keep their type; disagreement widens it to `anyref`. */
    method MergeTypes(typed: seq<(nat, ValType)>, before: map<nat, ValType>, ghost seen: seq<(nat, ValType)>)
      returns (types: map<nat, ValType>)
      requires IsJoined(before, seen)
      ensures IsJoined(types, seen + typed)
    {
      types := before;
      assert seen + typed[..0] == seen;
      for i := 0 to |typed|
        invariant IsJoined(types, seen + typed[..i])
      {
        var (l, ty) := typed[i];
        ghost var old_ := types;
        if l in types {
          if types[l] != ty {
            types := types[l := Anyref];
          }
        } else {
          types := types[l := ty];
        }
        JoinedNext(old_, seen + typed[..i], typed[i], types);
        assert seen + typed[..i + 1] == (seen + typed[..i]) + [typed[i]];
      }
      assert typed[..|typed|] == typed;
    }

    /** The pattern locals of a match in ascending order; one that has a slot keeps it. */
    method AssignPatternLocals(scrutinee: Atom, arms: seq<Arm>)
      requires Valid()
      modifies this
      ensures Valid() && params == old(params)
      ensures Keeps(old(slots), slots) && slots.Keys == old(slots.Keys) + ArmPatterns(arms)
      ensures Served(inference, slots, MatchSite(scrutinee, arms, old(slots.Keys)))
      ensures InKeyOrder(old(slots), slots)
    {
      var (mono, iter) := inference.scrutinee(asked, slots, scrutinee);
      var types := PatternTypes(arms, mono, iter);
      ghost var q, known := asked, slots;
      asked := asked + 1;
      JoinedKeys(inference.te, inference.decl, arms, mono, iter, types);
      AssignTypes(types);
      assert TypedFor(inference.te, inference.decl, slots, MatchSite(scrutinee, arms, old(slots.Keys)), mono, iter);
      assert inference.scrutinee(q, known, scrutinee) == (mono, iter);
    }

    method AssignTypes(types: map<nat, ValType>)
      requires Valid()
      modifies this
      ensures Valid() && params == old(params)
      ensures GrownBy(old(slots), slots, types, types.Keys) && InKeyOrder(old(slots), slots)
    {
      var order := SortedKeys(types.Keys);
      for i := 0 to |order|
        invariant Valid() && params == old(params)
        invariant GrownBy(old(slots), slots, types, Elems(order[..i])) && InKeyOrder(old(slots), slots)
        invariant forall l | l in slots :: slots[l].0 < nextIdx
      {
        ElemsSnoc(order, i);
        AscendingBelow(order, i);
        assert order[i] in Elems(order);
        ghost var mid := slots;
        if order[i] !in slots {
          Allocate(order[i], types[order[i]]);
        }
        GrowsBy(old(slots), mid, slots, types, Elems(order[..i]), order[i]);
      }
      assert order[..|order|] == order;
    }

    // ----- Expressions -----

    method AssignExpr(e: Expr)
      requires Valid()
      modifies this
      ensures Valid() && params == old(params)
      ensures Keeps(old(slots), slots) && slots.Keys == old(slots.Keys) + Bound(e)
      ensures AllServed(inference, slots, Sites(e, old(slots.Keys)))
      decreases e
    {
      if e.Let? {
        AssignOp(e.op);
        ghost var mid := slots;
        AssignLet(e.local, e.op);
        ghost var own := OfLet(e.local, e.op, mid.Keys);
        AllServedMore(inference, mid, slots, SitesOp(e.op, old(slots.Keys)), [own]);
        ghost var next := slots;
        AssignExpr(e.body);
        AllServedMore(inference, next, slots, SitesOp(e.op, old(slots.Keys)) + [own], Sites(e.body, next.Keys));
      }
    }

    /** A let-bound local has a slot of the inferred type, unless it has one already. */
    method AssignLet(local: nat, op: Op)
      requires Valid()
      modifies this
      ensures Valid() && params == old(params)
      ensures Keeps(old(slots), slots) && slots.Keys == old(slots.Keys) + {local}
      ensures SiteServed(inference, slots, OfLet(local, op, old(slots.Keys)))
    {
      if local !in slots {
        var ty := inference.letType(asked, slots, local, op);
        ghost var q, known := asked, slots;
        asked := asked + 1;
        Allocate(local, ty);
        assert slots[local].1 == inference.letType(q, known, local, op);
      }
    }

    method AssignOp(op: Op)
      requires Valid()
      modifies this
      ensures Valid() && params == old(params)
      ensures Keeps(old(slots), slots) && slots.Keys == old(slots.Keys) + BoundOp(op)
      ensures AllServed(inference, slots, SitesOp(op, old(slots.Keys)))
      decreases op, 1
    {
      match op
      case AIf(_, t, e) =>
        AssignExpr(t);
        ghost var mid := slots;
        AssignExpr(e);
        AllServedMore(inference, mid, slots, Sites(t, old(slots.Keys)), Sites(e, old(slots.Keys) + Bound(t)));
      case AMatch(a, arms) =>
        AssignPatternLocals(a, arms);
        ghost var mid := slots;
        AssignArms(op);
        AllServedMore(inference, mid, slots, [OfMatch(MatchSite(a, arms, old(slots.Keys)))],
                      SitesArms(arms, old(slots.Keys) + ArmPatterns(arms)));
      case ALoop(b) =>
        AssignExpr(b);
      case ADefer(b) =>
        AssignExpr(b);
      case _ =>
    }

    method AssignArms(op: Op)
      requires Valid() && op.AMatch?
      modifies this
      ensures Valid() && params == old(params)
      ensures Keeps(old(slots), slots) && slots.Keys == old(slots.Keys) + BoundArms(op.arms)
      ensures AllServed(inference, slots, SitesArms(op.arms, old(slots.Keys)))
      decreases op, 0
    {
      var arms := op.arms;
      assert arms[0..] == arms;
      ghost var done: seq<BindSite> := [];
      for i := 0 to |arms|
        invariant Valid() && params == old(params)
        invariant Keeps(old(slots), slots)
        invariant slots.Keys + BoundArms(arms[i..]) == old(slots.Keys) + BoundArms(arms)
        invariant AllServed(inference, slots, done)
        invariant done + SitesArms(arms[i..], slots.Keys) == SitesArms(arms, old(slots.Keys))
      {
        assert arms[i..][1..] == arms[i + 1..];
        ghost var mid := slots;
        AssignExpr(arms[i].body);
        AllServedMore(inference, mid, slots, done, SitesArm(arms[i], mid.Keys));
        SitesRegroup(done, SitesArm(arms[i], mid.Keys), SitesArms(arms[i + 1..], slots.Keys));
        done := done + SitesArm(arms[i], mid.Keys);
      }
      assert done + [] == done;
    }
  }

  /** The locals in `done` have slots, the new ones of the given types, and nothing else changed. */
  predicate GrownBy(before: SlotMap, after: SlotMap, types: map<nat, ValType>, done: set<nat>) {
    Keeps(before, after) && after.Keys == before.Keys + done
    && forall l | l in done && l !in before :: l in types && after[l].1 == types[l]
  }

  /** New locals have slots in the order of their numbers. */
  predicate InKeyOrder(before: SlotMap, after: SlotMap) {
    forall a, b | a in after && b in after && a !in before && b !in before && a < b :: after[a].0 < after[b].0
  }

  lemma {:induction false} AscendingBelow(s: seq<nat>, i: nat)
    requires Ascending(s) && i < |s|
    ensures forall x | x in Elems(s[..i]) :: x < s[i]
  {
    if i > 0 {
      AscendingBelow(s[1..], i - 1);
      AscendingHead(s);
      forall x | x in Elems(s[..i])
        ensures x < s[i]
      {
        var j :| 0 <= j < i && s[..i][j] == x;
        assert j > 0 ==> s[1..][..i - 1][j - 1] == x && x in Elems(s[1..][..i - 1]) && s[1..][i - 1] == s[i];
      }
    }
  }

  lemma {:induction false} AscendingHead(s: seq<nat>)
    requires Ascending(s) && s != []
    ensures forall j | 0 < j < |s| :: s[0] < s[j]
  {
    if |s| >= 2 {
      AscendingHead(s[1..]);
      assert forall j | 0 < j < |s| :: s[j] == s[1..][j - 1];
    }
  }

  lemma GrowsBy(before: SlotMap, mid: SlotMap, after: SlotMap, types: map<nat, ValType>, done: set<nat>, x: nat)
    requires GrownBy(before, mid, types, done) && x in types
    requires if x in mid then after == mid else x in after && after == mid[x := after[x]] && after[x].1 == types[x]
    ensures GrownBy(before, after, types, done + {x})
  {
  }

  lemma SitesRegroup(a: seq<BindSite>, b: seq<BindSite>, c: seq<BindSite>)
    ensures a + (b + c) == a + b + c
  {
  }

  /** A table of types with the joined type of every variable that occurs. */
  ghost predicate IsJoined(types: map<nat, ValType>, typed: seq<(nat, ValType)>) {
    forall x: nat :: Joined(typed, x) == if x in types then Some(types[x]) else None
  }

  lemma JoinedNext(before: map<nat, ValType>, typed: seq<(nat, ValType)>, next: (nat, ValType),
                   after: map<nat, ValType>)
    requires IsJoined(before, typed)
    requires after == before[next.0 := JoinType(if next.0 in before then Some(before[next.0]) else None, next.1)]
    ensures IsJoined(after, typed + [next])
  {
    var all := typed + [next];
    assert all[..|all| - 1] == typed && all[|all| - 1] == next;
  }

  lemma JoinedKeys(te: TypeEnv, decl: Fields, arms: seq<Arm>, mono: Option<MonoType>, iter: Option<IterInfo>,
                   types: map<nat, ValType>)
    requires IsJoined(types, Occurrences(te, decl, arms, mono, iter))
    ensures types.Keys == ArmPatterns(arms)
  {
    forall x: nat
      ensures x in types <==> x in ArmPatterns(arms)
    {
      JoinedMeaning(Occurrences(te, decl, arms, mono, iter), x);
      OccurrencesOccur(te, decl, arms, mono, iter, x);
    }
  }

  function Ids(captures: seq<(nat, ValType)>): (ids: seq<nat>) {
    seq(|captures|, i requires 0 <= i < |captures| => captures[i].0)
  }

  lemma NoDupPrefix(s: seq<nat>, n: nat)
    requires NoDup(s) && n <= |s|
    ensures NoDup(s[..n])
  {
  }

  lemma NextEntry(first: seq<nat>, entries: seq<(nat, ValType)>, i: nat)
    requires NoDup(first + Ids(entries)) && i < |entries|
    ensures entries[i].0 !in Elems(first + Ids(entries[..i]))
    ensures first + Ids(entries[..i + 1]) == first + Ids(entries[..i]) + [entries[i].0]
  {
    var all, before := first + Ids(entries), first + Ids(entries[..i]);
    assert forall k | 0 <= k < |before| :: before[k] == all[k];
    assert all[|before|] == entries[i].0;
    assert Ids(entries[..i + 1]) == Ids(entries[..i]) + [entries[i].0];
  }

  method SortedKeys(keys: set<nat>) returns (order: seq<nat>)
    ensures Ascending(order) && Elems(order) == keys
  {
    order := [];
    var todo := keys;
    while todo != {}
      invariant Ascending(order) && Elems(order) + todo == keys
      decreases |todo|
    {
      var k :| k in todo;
      order := Insert(k, order);
      todo := todo - {k};
    }
  }
}
