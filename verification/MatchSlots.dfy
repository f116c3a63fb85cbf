/** Matches on the slots that the allocator hands out: from the locals of a function to the outcome of its matches. */
module MatchSlots {
  import opened Base
  import opened Wasm
  import opened Mono
  import opened CodeCalculus
  import opened Coercions
  import opened Values
  import opened Match
  import opened MatchBindings
  import opened MatchChain
  import opened PatternSlots
  import opened LocalSlots

  /** The slots of the variables of a match. */
  function SlotsOf(slots: SlotMap, xs: set<nat>): (r: set<nat>) { set x | x in xs && x in slots :: slots[x].0 }

  /** The emitted arms have the patterns of the source. */
  predicate SamePatterns(arms: seq<Arm>, site: MatchSite) {
    |arms| == |site.arms| && forall i | 0 <= i < |arms| :: arms[i].pattern == site.arms[i].pattern
  }

  lemma {:induction false} InArmPatterns(te: TypeEnv, decl: Fields, site: MatchSite, mono: Option<MonoType>,
                                         iter: Option<IterInfo>, i: nat)
    requires i < |Occurrences(te, decl, site.arms, mono, iter)|
    ensures Occurrences(te, decl, site.arms, mono, iter)[i].0 in ArmPatterns(site.arms)
  {
    var typed := Occurrences(te, decl, site.arms, mono, iter);
    assert Occurs(typed, typed[i].0);
    OccurrencesOccur(te, decl, site.arms, mono, iter, typed[i].0);
  }

  /** The match binds the variable of component `j` first, and the type chosen there fits the component. */
  predicate Settled(types: map<Sym, StructDef>, before: set<nat>, typed: seq<(nat, ValType)>, cs: seq<(nat, Val)>,
                    j: nat)
    requires j < |cs|
  {
    j < |typed| && cs[j].0 !in before && Storable(types, typed[j].1, cs[j].1)
  }

  /** Every component that the match does not settle fits the slot that its variable has. */
  predicate OthersFit(types: map<Sym, StructDef>, cx: MatchCtx, before: set<nat>, typed: seq<(nat, ValType)>,
                      cs: seq<(nat, Val)>) {
    forall j | 0 <= j < |cs| && !Settled(types, before, typed, cs, j) ::
      HasSlot(cx, cs[j].0) && Storable(types, cx.slots[cs[j].0].1, cs[j].1)
  }

  /** A settled component of an arm fits the slot of its variable. */
  lemma {:induction false} SettledStorable(types: map<Sym, StructDef>, te: TypeEnv, decl: Fields, cx: MatchCtx,
                                           site: MatchSite, mono: Option<MonoType>, iter: Option<IterInfo>, k: nat,
                                           cs: seq<(nat, Val)>, j: nat)
    requires TypedFor(te, decl, cx.slots, site, mono, iter) && k < |site.arms| && j < |cs|
    requires Aligned(TypedLocals(te, decl, site.arms[k].pattern, mono, iter), cs)
    requires Settled(types, site.before, TypedLocals(te, decl, site.arms[k].pattern, mono, iter), cs, j)
    ensures HasSlot(cx, cs[j].0) && Storable(types, cx.slots[cs[j].0].1, cs[j].1)
  {
    var i := OccurrencesInclude(te, decl, site.arms, mono, iter, k, j);
    InArmPatterns(te, decl, site, mono, iter, i);
    JoinedStorable(types, Occurrences(te, decl, site.arms, mono, iter), i, cs[j].1);
  }

  /** The variable of a component has its slot in the frame, among those of the match. */
  lemma {:induction false} ComponentInFrame(te: TypeEnv, decl: Fields, cx: MatchCtx, params: nat,
                                            locals: seq<ValType>, site: MatchSite, mono: Option<MonoType>,
                                            iter: Option<IterInfo>, k: nat, cs: seq<(nat, Val)>, j: nat)
    requires Proper(cx.slots, params, locals) && TypedFor(te, decl, cx.slots, site, mono, iter)
    requires k < |site.arms| && j < |cs| && Aligned(TypedLocals(te, decl, site.arms[k].pattern, mono, iter), cs)
    ensures cs[j].0 in cx.slots && cx.slots[cs[j].0].0 < params + |locals|
    ensures cx.slots[cs[j].0].0 in SlotsOf(cx.slots, ArmPatterns(site.arms))
  {
    var i := OccurrencesInclude(te, decl, site.arms, mono, iter, k, j);
    InArmPatterns(te, decl, site, mono, iter, i);
  }

  /** The components of an arm can be stored exactly when those that the match does not settle fit. */
  lemma {:induction false} ArmStorableIff(types: map<Sym, StructDef>, te: TypeEnv, decl: Fields, cx: MatchCtx,
                                          params: nat, locals: seq<ValType>, site: MatchSite, mono: Option<MonoType>,
                                          iter: Option<IterInfo>, k: nat, cs: seq<(nat, Val)>)
    requires Proper(cx.slots, params, locals) && TypedFor(te, decl, cx.slots, site, mono, iter) && k < |site.arms|
    requires Aligned(TypedLocals(te, decl, site.arms[k].pattern, mono, iter), cs)
    ensures AllStorable(types, cx, cs, params + |locals|, SlotsOf(cx.slots, ArmPatterns(site.arms)))
       <==> OthersFit(types, cx, site.before, TypedLocals(te, decl, site.arms[k].pattern, mono, iter), cs)
  {
    var typed := TypedLocals(te, decl, site.arms[k].pattern, mono, iter);
    forall j | 0 <= j < |cs|
      ensures cs[j].0 in cx.slots && cx.slots[cs[j].0].0 < params + |locals|
              && cx.slots[cs[j].0].0 in SlotsOf(cx.slots, ArmPatterns(site.arms))
      ensures Settled(types, site.before, typed, cs, j) ==>
                HasSlot(cx, cs[j].0) && Storable(types, cx.slots[cs[j].0].1, cs[j].1)
    {
      ComponentInFrame(te, decl, cx, params, locals, site, mono, iter, k, cs, j);
      if Settled(types, site.before, typed, cs, j) {
        SettledStorable(types, te, decl, cx, site, mono, iter, k, cs, j);
      }
    }
  }

  /** The components of an arm that takes the value, and the types chosen for its variables, in the same order. */
  lemma {:induction false} ArmAligned(types: map<Sym, StructDef>, te: TypeEnv, decl: Fields, p: Pattern, v: Value,
                                      w: Val, mono: Option<MonoType>, iter: Option<IterInfo>)
    requires SlotsApply(types, te, decl) && Matches(p, v)
    requires Conforms(types, te, decl, v, mono, iter) && TuplesAreRecords(te, v) && Made(types, te, v)
    ensures Aligned(TypedLocals(te, decl, p, mono, iter), Components(p, v, w))
  {
    ComponentsFitIff(types, te, decl, p, v, mono, iter);
    if !p.PVar? {
      assert Components(p, v, w) == Components(p, v, Boxed(v));
    }
  }

  /**
    From what slot allocation guarantees: the variables of the arm that a match takes can be stored if and only if the
    slots of those bound earlier, and of those that stand at another form than chosen for, take their components. No
    local but the variables of the match lives in those slots.
  */
  lemma {:induction false} SlotsServeMatches(types: map<Sym, StructDef>, decl: Fields, cx: MatchCtx, params: nat,
                                             locals: seq<ValType>, site: MatchSite, mono: Option<MonoType>,
                                             iter: Option<IterInfo>, arms: seq<Arm>, expected: Option<MonoType>,
                                             h: Hints, v: Value, w: Val)
    requires SlotsApply(types, cx.te, decl) && Proper(cx.slots, params, locals)
             && TypedFor(cx.te, decl, cx.slots, site, mono, iter)
    requires SamePatterns(arms, site) && TakesArm(cx.te, arms, v, expected, h)
    requires Conforms(types, cx.te, decl, v, mono, iter) && TuplesAreRecords(cx.te, v) && Made(types, cx.te, v)
    ensures var p := arms[Taken(cx.te, arms, v, expected, h)].pattern;
            TakenStorable(types, cx, arms, v, w, expected, h, params + |locals|,
                          SlotsOf(cx.slots, ArmPatterns(site.arms)))
            <==> OthersFit(types, cx, site.before, TypedLocals(cx.te, decl, p, mono, iter), Components(p, v, w))
    ensures DistinctSlots(cx)
    ensures forall y | y in cx.slots && y !in ArmPatterns(site.arms) ::
            cx.slots[y].0 !in SlotsOf(cx.slots, ArmPatterns(site.arms))
  {
    var k := Taken(cx.te, arms, v, expected, h);
    ArmAligned(types, cx.te, decl, arms[k].pattern, v, w, mono, iter);
    ArmStorableIff(types, cx.te, decl, cx, params, locals, site, mono, iter, k, Components(arms[k].pattern, v, w));
  }

  /**
    A match that is the first to bind its variables, on a value that has no step in the other form than chosen for,
    is served without any further condition.
  */
  lemma {:induction false} FirstBindingServed(types: map<Sym, StructDef>, decl: Fields, cx: MatchCtx, params: nat,
                                              locals: seq<ValType>, site: MatchSite, mono: Option<MonoType>,
                                              iter: Option<IterInfo>, arms: seq<Arm>, expected: Option<MonoType>,
                                              h: Hints, v: Value)
    requires SlotsApply(types, cx.te, decl) && Proper(cx.slots, params, locals)
             && TypedFor(cx.te, decl, cx.slots, site, mono, iter)
    requires SamePatterns(arms, site) && TakesArm(cx.te, arms, v, expected, h) && ArmPatterns(site.arms) !! site.before
    requires Conforms(types, cx.te, decl, v, mono, iter) && TuplesAreRecords(cx.te, v) && Made(types, cx.te, v)
    requires !Misfit(types, cx.te, decl, arms[Taken(cx.te, arms, v, expected, h)].pattern, v, mono, iter)
    ensures TakenStorable(types, cx, arms, v, Boxed(v), expected, h, params + |locals|,
                          SlotsOf(cx.slots, ArmPatterns(site.arms)))
  {
    var k := Taken(cx.te, arms, v, expected, h);
    var p := arms[k].pattern;
    var cs := Components(p, v, Boxed(v));
    SlotsServeMatches(types, decl, cx, params, locals, site, mono, iter, arms, expected, h, v, Boxed(v));
    ComponentsFitIff(types, cx.te, decl, p, v, mono, iter);
    forall j | 0 <= j < |cs|
      ensures Settled(types, site.before, TypedLocals(cx.te, decl, p, mono, iter), cs, j)
    {
      var i := OccurrencesInclude(cx.te, decl, site.arms, mono, iter, k, j);
      InArmPatterns(cx.te, decl, site, mono, iter, i);
    }
  }

  /** The code that pushes a local as `anyref`. */
  function ReadLocal(slot: (nat, ValType)): (code: seq<Instr>) { [LocalGet(slot.0)] + ToAnyCode(slot.1) }

  lemma {:induction false} ReadLocalYields(m: Module, slot: (nat, ValType), frame: seq<Val>, hidden: set<nat>)
    requires RuntimeTypes(m.types) && slot.0 < |frame| && slot.0 !in hidden && HasType(m.types, frame[slot.0], slot.1)
    ensures Yields(m, ReadLocal(slot), frame, hidden, Box(slot.1, frame[slot.0]))
  {
    YieldsLocal(m, slot.0, frame, hidden);
    BoxCodeBoxes(m, slot.1, frame[slot.0]);
    YieldsMap(m, [LocalGet(slot.0)], ToAnyCode(slot.1), frame, hidden, frame[slot.0], Box(slot.1, frame[slot.0]));
  }

  /**
    A match of the function body on a value in any layout, pushed by code that reads none of the slots of the match: on
    any frame of the function it runs the arm that the conditions take with every variable of the pattern in its slot,
    and traps if they take none. It needs the condition of `SlotsServeMatches` and nothing else of the slots.
  */
  lemma {:induction false} AllocatedMatchRuns(m: Module, decl: Fields, cx: MatchCtx, params: nat,
                                              locals: seq<ValType>, site: MatchSite, mono: Option<MonoType>,
                                              iter: Option<IterInfo>, arms: seq<Arm>, value: seq<Instr>,
                                              expected: Option<MonoType>, h: Hints, message: Sym, v: Value, w: Val,
                                              s: Stack, frame: seq<Val>)
    requires Wired(m, cx) && SlotsApply(m.types, cx.te, decl) && Proper(cx.slots, params, locals)
    requires TypedFor(cx.te, decl, cx.slots, site, mono, iter) && SamePatterns(arms, site)
    requires Conforms(m.types, cx.te, decl, v, mono, iter) && TuplesAreRecords(cx.te, v)
    requires |frame| == params + |locals|
             && Yields(m, value, frame, SlotsOf(cx.slots, ArmPatterns(site.arms)), w)
    requires Truthful(m, cx.te, expected, h, w, v) && ArmsOk(m, cx, arms, v, expected, h)
    requires TakesArm(cx.te, arms, v, expected, h) ==>
               var p := arms[Taken(cx.te, arms, v, expected, h)].pattern;
               OthersFit(m.types, cx, site.before, TypedLocals(cx.te, decl, p, mono, iter), Components(p, v, w))
    ensures TakenSlotted(cx, arms, v, w, expected, h, |frame|)
    ensures Exec(m, Chain(cx, arms, value, expected, h, message), State(s, frame))
         == ChainOutcome(m, cx, arms, v, w, expected, h, s, frame)
  {
    var hidden := SlotsOf(cx.slots, ArmPatterns(site.arms));
    if TakesArm(cx.te, arms, v, expected, h) {
      SlotsServeMatches(m.types, decl, cx, params, locals, site, mono, iter, arms, expected, h, v, w);
    }
    ChainRuns(m, cx, arms, value, expected, h, message, v, w, frame, hidden, s, frame);
  }

  /** Reading a local that the match does not bind is such code. */
  lemma {:induction false} ScrutineeYields(m: Module, cx: MatchCtx, params: nat, locals: seq<ValType>,
                                           arms: seq<Anf.Arm>, y: nat, frame: seq<Val>)
    requires RuntimeTypes(m.types) && Proper(cx.slots, params, locals) && |frame| == params + |locals|
    requires y in cx.slots && y !in ArmPatterns(arms) && HasType(m.types, frame[cx.slots[y].0], cx.slots[y].1)
    ensures Yields(m, ReadLocal(cx.slots[y]), frame, SlotsOf(cx.slots, ArmPatterns(arms)),
                   Box(cx.slots[y].1, frame[cx.slots[y].0]))
  {
    ReadLocalYields(m, cx.slots[y], frame, SlotsOf(cx.slots, ArmPatterns(arms)));
  }
}
