/**
  UnfoldStep values inside other values. Once the program has concrete closure signatures, a step keeps its typed
  struct as a component, and the erased code for sub-patterns cannot read it.
*/
module StepPatterns {
  import opened Base
  import opened Wasm
  import opened Mono
  import opened CodeCalculus
  import opened Values
  import opened Sums
  import opened Match

  /** No typed step in the value has a struct that passes for `$Variant`. */
  predicate NoLookalikes(te: TypeEnv, v: Value)
    decreases v
  {
    (v.StepV? ==> !LookalikeStep(te, v.yieldTy, v.seedTy))
    && forall i | 0 <= i < |Parts(v)| :: NoLookalikes(te, Parts(v)[i])
  }

  lemma {:induction false} MeetingStumbles(te: TypeEnv, p: Pattern, v: Value)
    requires NoLookalikes(te, v) && MeetsStep(p, v)
    ensures Stumbles(te, p, v)
    decreases p
  {
    if !v.StepV? {
      var i :| 0 <= i < |p.fields| && i < |Parts(v)| && MeetsStep(p.fields[i], Parts(v)[i]);
      MeetingStumbles(te, p.fields[i], Parts(v)[i]);
    }
  }

  /**
    The condition traps exactly when the pattern meets a typed step that does not pass for `$Variant`, or reads a Byte
    as an Int. It decides the match exactly when it does not trap and does not overlook a step that does pass.
  */
  lemma {:induction false} ConditionDecidesIff(m: Module, cx: MatchCtx, p: Pattern, value: seq<Instr>,
                                               expected: Option<MonoType>, h: Hints, v: Value, w: Val,
                                               locals: seq<Val>, hidden: set<nat>)
    requires Wired(m, cx) && Yields(m, value, locals, hidden, w) && Truthful(m, cx.te, expected, h, w, v)
    requires Fits(cx.te, p, v, expected, h)
    ensures Traps(m, Condition(cx, p, value, expected, h), locals, hidden)
       <==> Stumbles(cx.te, p, v) || ReadsByteAsInt(cx.te, p, v, expected, h)
    ensures Yields(m, Condition(cx, p, value, expected, h), locals, hidden, I32Val(BoolInt(Matches(p, v))))
       <==> !Stumbles(cx.te, p, v) && !ReadsByteAsInt(cx.te, p, v, expected, h) && !(MeetsStep(p, v) && Matches(p, v))
  {
    ConditionAnswers(m, cx, p, value, expected, h, v, w, locals, hidden);
    VerdictDecidesIff(m, Condition(cx, p, value, expected, h), cx.te, p, v, expected, h, locals, hidden);
  }

  lemma {:induction false} VerdictDecidesIff(m: Module, code: seq<Instr>, te: TypeEnv, p: Pattern, v: Value,
                                             expected: Option<MonoType>, h: Hints, locals: seq<Val>, hidden: set<nat>)
    requires Answers(m, code, locals, hidden, VerdictOf(te, p, v, expected, h))
    ensures Traps(m, code, locals, hidden) <==> Stumbles(te, p, v) || ReadsByteAsInt(te, p, v, expected, h)
    ensures Yields(m, code, locals, hidden, I32Val(BoolInt(Matches(p, v))))
       <==> !Stumbles(te, p, v) && !ReadsByteAsInt(te, p, v, expected, h) && !(MeetsStep(p, v) && Matches(p, v))
  {
    VerdictMeaning(te, p, v, expected, h);
    AnswersOnce(m, code, locals, hidden, VerdictOf(te, p, v, expected, h), Matches(p, v));
  }

  lemma {:induction false} VerdictMeaning(te: TypeEnv, p: Pattern, v: Value, expected: Option<MonoType>, h: Hints)
    ensures VerdictOf(te, p, v, expected, h).Stuck? <==> Stumbles(te, p, v) || ReadsByteAsInt(te, p, v, expected, h)
    ensures VerdictOf(te, p, v, expected, h) == Decided(Matches(p, v))
       <==> !Stumbles(te, p, v) && !ReadsByteAsInt(te, p, v, expected, h) && !(MeetsStep(p, v) && Matches(p, v))
  {
  }

  lemma {:induction false} AnswersOnce(m: Module, code: seq<Instr>, locals: seq<Val>, hidden: set<nat>, d: Verdict,
                                       b: bool)
    requires Answers(m, code, locals, hidden, d)
    ensures Traps(m, code, locals, hidden) <==> d.Stuck?
    ensures Yields(m, code, locals, hidden, I32Val(BoolInt(b))) <==> d == Decided(b)
  {
    if d.Stuck? {
      YieldsOrTraps(m, code, locals, hidden, I32Val(BoolInt(b)));
    } else {
      if Traps(m, code, locals, hidden) {
        YieldsOrTraps(m, code, locals, hidden, I32Val(BoolInt(d.holds)));
      }
      if Yields(m, code, locals, hidden, I32Val(BoolInt(b))) {
        YieldsUnique(m, code, locals, hidden, I32Val(BoolInt(b)), I32Val(BoolInt(d.holds)));
      }
    }
  }

  /**
    Look-alikes apart, the condition decides the match if and only if the pattern meets no typed step and reads no Byte
    as an Int, and it traps otherwise.
  */
  lemma {:induction false} DecidesUnlessStepMet(m: Module, cx: MatchCtx, p: Pattern, value: seq<Instr>,
                                                expected: Option<MonoType>, h: Hints, v: Value, w: Val,
                                                locals: seq<Val>, hidden: set<nat>)
    requires Wired(m, cx) && Yields(m, value, locals, hidden, w) && Truthful(m, cx.te, expected, h, w, v)
    requires Fits(cx.te, p, v, expected, h) && NoLookalikes(cx.te, v)
    ensures Yields(m, Condition(cx, p, value, expected, h), locals, hidden, I32Val(BoolInt(Matches(p, v))))
       <==> !MeetsStep(p, v) && !ReadsByteAsInt(cx.te, p, v, expected, h)
    ensures Traps(m, Condition(cx, p, value, expected, h), locals, hidden)
       <==> MeetsStep(p, v) || ReadsByteAsInt(cx.te, p, v, expected, h)
  {
    ConditionDecidesIff(m, cx, p, value, expected, h, v, w, locals, hidden);
    if MeetsStep(p, v) {
      MeetingStumbles(cx.te, p, v);
    }
    if Stumbles(cx.te, p, v) {
      StumblingMeets(cx.te, p, v);
    }
  }

  // ----- Steps in typed sums -----

  /** The module declares the struct of the step type, and it does not pass for `$Variant`. */
  predicate StepDeclared(types: map<Sym, StructDef>, te: TypeEnv, y: MonoType, s: MonoType) {
    te.sigs != {} && IsConcrete(y) && IsConcrete(s) && !LookalikeStep(te, y, s)
    && UnfoldStepSym(y, s) in types && types[UnfoldStepSym(y, s)] == UnfoldStepDef(te, y, s)
  }

  predicate IsStep(v: Value) { v.StepV? || (v.SumV? && v.typeId == UNFOLD_STEP) }

  /** A step in a slot for steps of type `y` and `s` is in typed form and does not pass for `$Variant`. */
  lemma {:induction false} SlotHoldsTypedStep(types: map<Sym, StructDef>, te: TypeEnv, y: MonoType, s: MonoType,
                                              w: Val, a: Value)
    requires RuntimeTypes(types) && StepDeclared(types, te, y, s) && IsStep(a) && Made(types, te, a)
    requires Holds(types, w, ValTypeOf(te, UnfoldStepType(y, s)), a)
    ensures a.StepV? && !LookalikeStep(te, a.yieldTy, a.seedTy)
  {
    StepInTypedSlot(types, te, y, s, w, a);
    assert UnfoldStepDef(te, y, s).fields[1] == Field(ValTypeOf(te, y));
    assert types[a.ref.sym].fields == types[UnfoldStepSym(y, s)].fields;
  }

  lemma {:induction false} PayloadIsTypedStep(types: map<Sym, StructDef>, te: TypeEnv, t: MonoType, y: MonoType,
                                              s: MonoType, w: Val, v: Value)
    requires RuntimeTypes(types) && StepDeclared(types, te, y, s) && SumRep(types, te, t, w, v) && Made(types, te, v)
    requires 1 <= |v.args| && IsStep(v.args[0]) && SumFieldMono(t, v.variant, 0) == Some(UnfoldStepType(y, s))
    ensures v.args[0].StepV? && !LookalikeStep(te, v.args[0].yieldTy, v.args[0].seedTy)
  {
    var slot := w.fields[SumFieldOffset(t, v.variant, 0)];
    assert Holds(types, slot, ValTypeOf(te, SumFieldMono(t, v.variant, 0).value), v.args[0]);
    assert Made(types, te, Parts(v)[0]);
    SlotHoldsTypedStep(types, te, y, s, slot, v.args[0]);
  }

  lemma {:induction false} FirstFieldStumbles(te: TypeEnv, p: Pattern, v: Value)
    requires p.PVariant? && v.SumV? && TagFits(p.typeId, p.variant, v) && |p.fields| == 1 <= |v.args|
    requires v.args[0].StepV? && !LookalikeStep(te, v.args[0].yieldTy, v.args[0].seedTy) && p.fields[0].PVariant?
    ensures Stumbles(te, p, v) && MeetsStep(p, v)
  {
    assert Stumbles(te, p.fields[0], Parts(v)[0]);
    assert MeetsStep(p.fields[0], Parts(v)[0]);
  }

  /**
    Every variant sub-pattern at a field of step type traps as soon as the tag of the enclosing typed Option or Result
    matches.
  */
  lemma {:induction false} StepFieldTraps(m: Module, cx: MatchCtx, t: MonoType, y: MonoType, s: MonoType, p: Pattern,
                                          value: seq<Instr>, expected: Option<MonoType>, v: Value, w: Val,
                                          locals: seq<Val>, hidden: set<nat>)
    requires Wired(m, cx) && Yields(m, value, locals, hidden, w) && StepDeclared(m.types, cx.te, y, s)
    requires Truthful(m, cx.te, expected, SumHints(t), w, v)
    requires p.PVariant? && TagFits(p.typeId, p.variant, v) && |p.fields| == 1 <= |v.args| && IsStep(v.args[0])
    requires SumFieldMono(t, v.variant, 0) == Some(UnfoldStepType(y, s))
    requires p.fields[0].PVariant? && p.fields[0].typeId == UNFOLD_STEP
    requires !IsRecord(cx.te, UNFOLD_STEP)
    ensures MeetsStep(p, v)
    ensures Traps(m, Condition(cx, p, value, expected, SumHints(t)), locals, hidden)
  {
    PayloadIsTypedStep(m.types, cx.te, t, y, s, w, v);
    FirstFieldStumbles(cx.te, p, v);
    StepFieldFits(cx.te, t, p, v, expected);
    ConditionAnswers(m, cx, p, value, expected, SumHints(t), v, w, locals, hidden);
  }

  lemma {:induction false} StepFieldFits(te: TypeEnv, t: MonoType, p: Pattern, v: Value, expected: Option<MonoType>)
    requires IsSumCandidate(t) && v.SumV? && v.typeId == t.typeId && (expected.Some? ==> expected.value == t)
    requires p.PVariant? && TagFits(p.typeId, p.variant, v) && |p.fields| == 1 <= |v.args| && v.args[0].StepV?
    requires p.fields[0].PVariant? && p.fields[0].typeId == UNFOLD_STEP && !IsRecord(te, UNFOLD_STEP)
    ensures Fits(te, p, v, expected, SumHints(t))
  {
    var a := AccessFor(te, p.typeId, expected, SumHints(t));
    assert a.SumAccess?;
    assert Fits(te, p.fields[0], v.args[0], FieldExpected(a, expected, p.variant, 0), NO_HINTS);
  }

  /** The struct the compiler builds for `Yield(a, b)` with Int value and seed, and its value as a component. */
  function YieldStruct(a: int, b: int): (w: Val) {
    StructRef(UnfoldStepSym(Int, Int), [I32Val(1), I64Val(a), I64Val(b)])
  }

  function YieldValue(a: int, b: int): (v: Value) { StepV(Int, Int, 1, [IntV(a), IntV(b)], YieldStruct(a, b)) }

  lemma {:induction false} YieldMade(types: map<Sym, StructDef>, te: TypeEnv, a: int, b: int)
    requires StepDeclared(types, te, Int, Int)
    ensures Made(types, te, YieldValue(a, b))
  {
    assert Parts(YieldValue(a, b)) == [IntV(a), IntV(b)];
    assert Made(types, te, IntV(a)) && Made(types, te, IntV(b));
  }

  /** The failing family is inhabited: `Some(Yield(a, b))` of type `Option<UnfoldStep<Int, Int>>`. */
  lemma {:induction false} StepFieldExample(types: map<Sym, StructDef>, te: TypeEnv, a: int, b: int)
    requires RuntimeTypes(types) && StepDeclared(types, te, Int, Int)
    ensures var t := MonoType.Named(OPTION, [UnfoldStepType(Int, Int)]);
            var v := SumV(OPTION, 1, [YieldValue(a, b)]);
            SumRep(types, te, t, StructRef(SumSym(t), [I32Val(1), YieldStruct(a, b)]), v) && Made(types, te, v)
            && SumFieldMono(t, 1, 0) == Some(UnfoldStepType(Int, Int))
  {
    YieldMade(types, te, a, b);
    assert Parts(SumV(OPTION, 1, [YieldValue(a, b)])) == [YieldValue(a, b)];
  }

  /**
    Converting a typed Option or Result gives a value that is erased throughout if and only if no component is a typed
    step: the conversion copies the payload as it is.
  */
  lemma {:induction false} ErasesThroughoutIff(m: Module, te: TypeEnv, idx: nat, t: MonoType, v: Value,
                                               locals: seq<Val>, hidden: set<nat>)
    requires Declared(m, te, t) && Made(m.types, te, v)
    requires idx < |locals| && idx !in hidden && SumRep(m.types, te, t, locals[idx], v)
    ensures Yields(m, SumToVariant(te, idx, t), locals, hidden, Boxed(Erased(v))) <==> !HasTypedStep(v)
  {
    TypedSumErases(m, te, idx, t, v, locals, hidden);
    ErasedThroughoutIff(m.types, te, v);
    if Yields(m, SumToVariant(te, idx, t), locals, hidden, Boxed(Erased(v))) {
      YieldsUnique(m, SumToVariant(te, idx, t), locals, hidden, Boxed(v), Boxed(Erased(v)));
    }
  }
}
