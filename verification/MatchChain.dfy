/** Whole matches: the first matching arm runs with its variables bound, and no match traps. */
module MatchChain {
  import opened Base
  import opened Wasm
  import opened Mono
  import opened CodeCalculus
  import opened Coercions
  import opened Values
  import opened Sums
  import opened Match
  import opened MatchBindings
  import opened StepPatterns

  /** A match arm with its emitted body; `diverges` is the backend's claim that the body never falls through. */
  datatype Arm = Arm(pattern: Pattern, body: seq<Instr>, diverges: bool)

  /** `match_chain_always_diverges`. */
  predicate AllDiverge(arms: seq<Arm>) { forall i | 0 <= i < |arms| :: arms[i].diverges }

  /** `emit_non_exhaustive_match_fallback` with the pooled getter of its message. */
  function Fallback(message: Sym): (code: seq<Instr>) { [Call(message), Call("rt_core__trap"), Unreachable] }

  /** What closes an else branch that never falls through. */
  function Pad(arms: seq<Arm>): (code: seq<Instr>) { if AllDiverge(arms) then [Unreachable] else [] }

  /** `emit_match_arm_chain`. */
  function Chain(cx: MatchCtx, arms: seq<Arm>, value: seq<Instr>, expected: Option<MonoType>, h: Hints, message: Sym)
    : (code: seq<Instr>)
  {
    if arms == [] then Fallback(message)
    else
      Condition(cx, arms[0].pattern, value, expected, h)
      + [If(Bindings(cx, arms[0].pattern, value, expected, h) + arms[0].body,
            Chain(cx, arms[1..], value, expected, h, message) + Pad(arms[1..]))]
  }

  /** Index of the first arm whose pattern matches; `|arms|` when none does. */
  function FirstMatch(arms: seq<Arm>, v: Value): (i: nat)
    ensures i <= |arms|
    ensures forall j | 0 <= j < i :: !Matches(arms[j].pattern, v)
    ensures i < |arms| ==> Matches(arms[i].pattern, v)
  {
    if arms == [] || Matches(arms[0].pattern, v) then 0 else 1 + FirstMatch(arms[1..], v)
  }

  /** Index of the first arm whose condition does not yield 0; `|arms|` when all do. */
  function Taken(te: TypeEnv, arms: seq<Arm>, v: Value, expected: Option<MonoType>, h: Hints): (i: nat)
    ensures i <= |arms|
    ensures forall j | 0 <= j < i :: VerdictOf(te, arms[j].pattern, v, expected, h) == Decided(false)
    ensures i < |arms| ==> VerdictOf(te, arms[i].pattern, v, expected, h) != Decided(false)
  {
    if arms == [] || VerdictOf(te, arms[0].pattern, v, expected, h) != Decided(false) then 0
    else 1 + Taken(te, arms[1..], v, expected, h)
  }

  /** The condition of some arm yields 1, before one gets stuck. */
  predicate TakesArm(te: TypeEnv, arms: seq<Arm>, v: Value, expected: Option<MonoType>, h: Hints) {
    var i := Taken(te, arms, v, expected, h);
    i < |arms| && VerdictOf(te, arms[i].pattern, v, expected, h) == Decided(true)
  }

  /** No arm before the first matching one gets stuck, and that one meets no typed step and reads no Byte as an Int. */
  predicate Clear(te: TypeEnv, arms: seq<Arm>, v: Value, expected: Option<MonoType>, h: Hints) {
    var i := FirstMatch(arms, v);
    (forall j | 0 <= j < i ::
       !Stumbles(te, arms[j].pattern, v) && !ReadsByteAsInt(te, arms[j].pattern, v, expected, h))
    && (i < |arms| ==> !MeetsStep(arms[i].pattern, v) && !ReadsByteAsInt(te, arms[i].pattern, v, expected, h))
  }

  /** The conditions take the first matching arm, and none if there is none, exactly when the way to it is clear. */
  lemma {:induction false} TakenIsFirstMatchIff(te: TypeEnv, arms: seq<Arm>, v: Value, expected: Option<MonoType>,
                                                h: Hints)
    ensures Taken(te, arms, v, expected, h) == FirstMatch(arms, v)
            && (TakesArm(te, arms, v, expected, h) <==> FirstMatch(arms, v) < |arms|)
       <==> Clear(te, arms, v, expected, h)
  {
    var i := FirstMatch(arms, v);
    if Clear(te, arms, v, expected, h) && i < |arms| && Stumbles(te, arms[i].pattern, v) {
      StumblingMeets(te, arms[i].pattern, v);
    }
  }

  /** The backend's divergence claim about an arm is right. */
  ghost predicate Honest(m: Module, arm: Arm) { arm.diverges ==> forall st: State :: !Exec(m, arm.body, st).Next? }

  /** Every arm is well typed for the value. */
  ghost predicate ArmsOk(m: Module, cx: MatchCtx, arms: seq<Arm>, v: Value, expected: Option<MonoType>, h: Hints) {
    forall i | 0 <= i < |arms| :: Fits(cx.te, arms[i].pattern, v, expected, h) && Honest(m, arms[i])
  }

  /** The variables of the arm that is taken have slots of a compatible type. Those of other arms are never stored. */
  predicate TakenStorable(types: map<Sym, StructDef>, cx: MatchCtx, arms: seq<Arm>, v: Value, w: Val,
                          expected: Option<MonoType>, h: Hints, size: nat, hidden: set<nat>) {
    TakesArm(cx.te, arms, v, expected, h) ==>
      AllStorable(types, cx, Components(arms[Taken(cx.te, arms, v, expected, h)].pattern, v, w), size, hidden)
  }

  lemma {:induction false} ArmsOkTail(m: Module, cx: MatchCtx, arms: seq<Arm>, v: Value, expected: Option<MonoType>,
                                      h: Hints)
    requires arms != [] && ArmsOk(m, cx, arms, v, expected, h)
    ensures ArmsOk(m, cx, arms[1..], v, expected, h)
    ensures forall i | 0 <= i < |arms[1..]| :: Honest(m, arms[1..][i])
  {
    assert forall i | 0 <= i < |arms[1..]| :: arms[1..][i] == arms[i + 1];
  }

  lemma {:induction false} FallbackTraps(m: Module, message: Sym, st: State)
    ensures Exec(m, Fallback(message), st) == Trap
  {
    assert Fallback(message) == [Call(message), Call("rt_core__trap")] + [Unreachable];
    ExecConcat(m, [Call(message), Call("rt_core__trap")], [Unreachable], st);
    ExecTwo(m, Call(message), Call("rt_core__trap"), st);
    var o := Exec(m, [Call(message), Call("rt_core__trap")], st);
    if o.Next? {
      ExecOne(m, Unreachable, o.st);
    }
  }

  /** The outcome of the arm that the conditions select: bindings and body, or the trap when there is no such arm. */
  ghost function Selected(m: Module, cx: MatchCtx, arms: seq<Arm>, value: seq<Instr>, expected: Option<MonoType>,
                          h: Hints, v: Value, s: Stack, ls: seq<Val>): (o: Outcome) {
    if !TakesArm(cx.te, arms, v, expected, h) then Trap
    else
      var arm := arms[Taken(cx.te, arms, v, expected, h)];
      Exec(m, Bindings(cx, arm.pattern, value, expected, h) + arm.body, State(s, ls))
  }

  /** Running a condition and then the `If` on it takes the branch the pattern decides. */
  lemma {:induction false} BranchTaken(m: Module, cond: seq<Instr>, b: bool, t: seq<Instr>, e: seq<Instr>,
                                       locals: seq<Val>, hidden: set<nat>, s: Stack, ls: seq<Val>)
    requires Yields(m, cond, locals, hidden, I32Val(BoolInt(b))) && AgreeOutside(locals, ls, hidden)
    ensures Exec(m, cond + [If(t, e)], State(s, ls)) == Exec(m, if b then t else e, State(s, ls))
  {
    ExecConcat(m, cond, [If(t, e)], State(s, ls));
    ExecOne(m, If(t, e), State(Push(I32Val(BoolInt(b)), s), ls));
  }

  /** The condition of the first arm runs the arm, goes on to the others, or gets stuck. */
  lemma {:induction false} HeadDecides(m: Module, cx: MatchCtx, arms: seq<Arm>, value: seq<Instr>,
                                       expected: Option<MonoType>, h: Hints, message: Sym, v: Value, w: Val,
                                       locals: seq<Val>, hidden: set<nat>, s: Stack, ls: seq<Val>)
    requires Wired(m, cx) && Yields(m, value, locals, hidden, w) && AgreeOutside(locals, ls, hidden)
    requires arms != [] && Truthful(m, cx.te, expected, h, w, v) && Fits(cx.te, arms[0].pattern, v, expected, h)
    ensures Exec(m, Chain(cx, arms, value, expected, h, message), State(s, ls))
         == match VerdictOf(cx.te, arms[0].pattern, v, expected, h)
            case Stuck => Trap
            case Decided(b) =>
              Exec(m, if b then Bindings(cx, arms[0].pattern, value, expected, h) + arms[0].body
                      else Chain(cx, arms[1..], value, expected, h, message) + Pad(arms[1..]), State(s, ls))
  {
    var p := arms[0].pattern;
    var body := Bindings(cx, p, value, expected, h) + arms[0].body;
    var others := Chain(cx, arms[1..], value, expected, h, message) + Pad(arms[1..]);
    ConditionAnswers(m, cx, p, value, expected, h, v, w, locals, hidden);
    match VerdictOf(cx.te, p, v, expected, h)
    case Stuck =>
      TrapsFirst(m, Condition(cx, p, value, expected, h), [If(body, others)], locals, hidden);
      assert Exec(m, Condition(cx, p, value, expected, h) + [If(body, others)], State(s, ls)) == Trap;
    case Decided(b) =>
      BranchTaken(m, Condition(cx, p, value, expected, h), b, body, others, locals, hidden, s, ls);
  }

  lemma {:induction false} TakenTail(te: TypeEnv, arms: seq<Arm>, v: Value, expected: Option<MonoType>, h: Hints)
    requires arms != []
    ensures VerdictOf(te, arms[0].pattern, v, expected, h) == Decided(false) ==>
              Taken(te, arms, v, expected, h) == 1 + Taken(te, arms[1..], v, expected, h)
              && (TakesArm(te, arms, v, expected, h) <==> TakesArm(te, arms[1..], v, expected, h))
    ensures VerdictOf(te, arms[0].pattern, v, expected, h) != Decided(false) ==> Taken(te, arms, v, expected, h) == 0
  {
  }

  lemma {:induction false} SelectedTail(m: Module, cx: MatchCtx, arms: seq<Arm>, value: seq<Instr>,
                                        expected: Option<MonoType>, h: Hints, v: Value, s: Stack, ls: seq<Val>)
    requires arms != []
    ensures Selected(m, cx, arms, value, expected, h, v, s, ls)
         == match VerdictOf(cx.te, arms[0].pattern, v, expected, h)
            case Stuck => Trap
            case Decided(b) =>
              if b then Exec(m, Bindings(cx, arms[0].pattern, value, expected, h) + arms[0].body, State(s, ls))
              else Selected(m, cx, arms[1..], value, expected, h, v, s, ls)
  {
    TakenTail(cx.te, arms, v, expected, h);
  }

  /** The chain runs the bindings and the body of the arm that the conditions take; when they take none it traps. */
  lemma {:induction false} ChainSelects(m: Module, cx: MatchCtx, arms: seq<Arm>, value: seq<Instr>,
                                        expected: Option<MonoType>, h: Hints, message: Sym, v: Value, w: Val,
                                        locals: seq<Val>, hidden: set<nat>, s: Stack, ls: seq<Val>)
    requires Wired(m, cx) && Yields(m, value, locals, hidden, w) && AgreeOutside(locals, ls, hidden)
    requires Truthful(m, cx.te, expected, h, w, v) && ArmsOk(m, cx, arms, v, expected, h)
    ensures Exec(m, Chain(cx, arms, value, expected, h, message), State(s, ls))
            == Selected(m, cx, arms, value, expected, h, v, s, ls)
  {
    if arms == [] {
      FallbackTraps(m, message, State(s, ls));
    } else {
      HeadDecides(m, cx, arms, value, expected, h, message, v, w, locals, hidden, s, ls);
      SelectedTail(m, cx, arms, value, expected, h, v, s, ls);
      if VerdictOf(cx.te, arms[0].pattern, v, expected, h) == Decided(false) {
        ArmsOkTail(m, cx, arms, v, expected, h);
        ChainSelects(m, cx, arms[1..], value, expected, h, message, v, w, locals, hidden, s, ls);
        PadIsUnreachable(m, cx, arms[1..], Chain(cx, arms[1..], value, expected, h, message), value, expected, h, v,
                         s, ls);
      }
    }
  }

  /** The `unreachable` after a diverging chain is never reached. */
  lemma {:induction false} PadIsUnreachable(m: Module, cx: MatchCtx, arms: seq<Arm>, tail: seq<Instr>,
                                            value: seq<Instr>, expected: Option<MonoType>, h: Hints, v: Value,
                                            s: Stack, ls: seq<Val>)
    requires Exec(m, tail, State(s, ls)) == Selected(m, cx, arms, value, expected, h, v, s, ls)
    requires forall i | 0 <= i < |arms| :: Honest(m, arms[i])
    ensures Exec(m, tail + Pad(arms), State(s, ls)) == Selected(m, cx, arms, value, expected, h, v, s, ls)
  {
    if AllDiverge(arms) {
      if TakesArm(cx.te, arms, v, expected, h) {
        var i := Taken(cx.te, arms, v, expected, h);
        assert Honest(m, arms[i]);
        ExecConcat(m, Bindings(cx, arms[i].pattern, value, expected, h), arms[i].body, State(s, ls));
      }
      ExecConcat(m, tail, Pad(arms), State(s, ls));
    } else {
      assert tail + Pad(arms) == tail;
    }
  }

  lemma {:induction false} ArmRuns(m: Module, cx: MatchCtx, arm: Arm, value: seq<Instr>, expected: Option<MonoType>,
                                   h: Hints, v: Value, w: Val, locals: seq<Val>, hidden: set<nat>, s: Stack,
                                   ls: seq<Val>)
    requires RuntimeTypes(m.types) && Yields(m, value, locals, hidden, w) && AgreeOutside(locals, ls, hidden)
    requires !IsRecord(cx.te, OPTION) && !IsRecord(cx.te, RESULT) && !IsRecord(cx.te, UNFOLD_STEP)
    requires Truthful(m, cx.te, expected, h, w, v) && Fits(cx.te, arm.pattern, v, expected, h)
             && VerdictOf(cx.te, arm.pattern, v, expected, h) == Decided(true)
    requires AllStorable(m.types, cx, Components(arm.pattern, v, w), |ls|, hidden)
    ensures Slotted(cx, Components(arm.pattern, v, w), |ls|)
    ensures Exec(m, Bindings(cx, arm.pattern, value, expected, h) + arm.body, State(s, ls))
         == Exec(m, arm.body, State(s, Store(cx, Components(arm.pattern, v, w), ls)))
  {
    BindingsCorrect(m, cx, arm.pattern, value, expected, h, v, w, locals, hidden, s, ls);
    ExecConcat(m, Bindings(cx, arm.pattern, value, expected, h), arm.body, State(s, ls));
  }

  /** The components of the arm that is taken have slots among the first `size` locals. */
  predicate TakenSlotted(cx: MatchCtx, arms: seq<Arm>, v: Value, w: Val, expected: Option<MonoType>, h: Hints,
                         size: nat) {
    TakesArm(cx.te, arms, v, expected, h) ==> Slotted(cx, Components(arms[Taken(cx.te, arms, v, expected, h)].pattern,
                                                                     v, w), size)
  }

  /** What running the chain amounts to. */
  ghost function ChainOutcome(m: Module, cx: MatchCtx, arms: seq<Arm>, v: Value, w: Val, expected: Option<MonoType>,
                              h: Hints, s: Stack, ls: seq<Val>)
    : (o: Outcome)
    requires TakenSlotted(cx, arms, v, w, expected, h, |ls|)
  {
    if !TakesArm(cx.te, arms, v, expected, h) then Trap
    else
      var arm := arms[Taken(cx.te, arms, v, expected, h)];
      Exec(m, arm.body, State(s, Store(cx, Components(arm.pattern, v, w), ls)))
  }

  /**
    The emitted chain runs the body of the arm that the conditions take, with every pattern variable stored and
    everything else as it was; when they take none it traps.
  */
  lemma {:induction false} ChainRuns(m: Module, cx: MatchCtx, arms: seq<Arm>, value: seq<Instr>,
                                     expected: Option<MonoType>, h: Hints, message: Sym, v: Value, w: Val,
                                     locals: seq<Val>, hidden: set<nat>, s: Stack, ls: seq<Val>)
    requires Wired(m, cx) && Yields(m, value, locals, hidden, w) && AgreeOutside(locals, ls, hidden)
    requires !IsRecord(cx.te, OPTION) && !IsRecord(cx.te, RESULT) && !IsRecord(cx.te, UNFOLD_STEP)
    requires Truthful(m, cx.te, expected, h, w, v) && ArmsOk(m, cx, arms, v, expected, h)
    requires TakenStorable(m.types, cx, arms, v, w, expected, h, |ls|, hidden)
    ensures TakenSlotted(cx, arms, v, w, expected, h, |ls|)
    ensures Exec(m, Chain(cx, arms, value, expected, h, message), State(s, ls))
            == ChainOutcome(m, cx, arms, v, w, expected, h, s, ls)
  {
    ChainSelects(m, cx, arms, value, expected, h, message, v, w, locals, hidden, s, ls);
    SelectedRuns(m, cx, arms, value, expected, h, v, w, locals, hidden, s, ls);
  }

  lemma {:induction false} SelectedRuns(m: Module, cx: MatchCtx, arms: seq<Arm>, value: seq<Instr>,
                                        expected: Option<MonoType>, h: Hints, v: Value, w: Val, locals: seq<Val>,
                                        hidden: set<nat>, s: Stack, ls: seq<Val>)
    requires RuntimeTypes(m.types) && Yields(m, value, locals, hidden, w) && AgreeOutside(locals, ls, hidden)
    requires !IsRecord(cx.te, OPTION) && !IsRecord(cx.te, RESULT) && !IsRecord(cx.te, UNFOLD_STEP)
    requires Truthful(m, cx.te, expected, h, w, v) && ArmsOk(m, cx, arms, v, expected, h)
    requires TakenStorable(m.types, cx, arms, v, w, expected, h, |ls|, hidden)
    ensures TakenSlotted(cx, arms, v, w, expected, h, |ls|)
    ensures Selected(m, cx, arms, value, expected, h, v, s, ls) == ChainOutcome(m, cx, arms, v, w, expected, h, s, ls)
  {
    if TakesArm(cx.te, arms, v, expected, h) {
      ArmRuns(m, cx, arms[Taken(cx.te, arms, v, expected, h)], value, expected, h, v, w, locals, hidden, s, ls);
    }
  }

  /**
    With a clear way to it, the chain runs the body of the first matching arm with its variables stored; when no arm
    matches it traps.
  */
  lemma {:induction false} ChainCorrect(m: Module, cx: MatchCtx, arms: seq<Arm>, value: seq<Instr>,
                                        expected: Option<MonoType>, h: Hints, message: Sym, v: Value, w: Val,
                                        locals: seq<Val>, hidden: set<nat>, s: Stack, ls: seq<Val>)
    requires Wired(m, cx) && Yields(m, value, locals, hidden, w) && AgreeOutside(locals, ls, hidden)
    requires !IsRecord(cx.te, OPTION) && !IsRecord(cx.te, RESULT) && !IsRecord(cx.te, UNFOLD_STEP)
    requires Truthful(m, cx.te, expected, h, w, v) && ArmsOk(m, cx, arms, v, expected, h)
    requires Clear(cx.te, arms, v, expected, h) && TakenStorable(m.types, cx, arms, v, w, expected, h, |ls|, hidden)
    ensures var i := FirstMatch(arms, v);
            i < |arms| ==>
              Slotted(cx, Components(arms[i].pattern, v, w), |ls|)
              && Exec(m, Chain(cx, arms, value, expected, h, message), State(s, ls))
                 == Exec(m, arms[i].body, State(s, Store(cx, Components(arms[i].pattern, v, w), ls)))
    ensures FirstMatch(arms, v) == |arms| ==>
              Exec(m, Chain(cx, arms, value, expected, h, message), State(s, ls)) == Trap
  {
    TakenIsFirstMatchIff(cx.te, arms, v, expected, h);
    ChainRuns(m, cx, arms, value, expected, h, message, v, w, locals, hidden, s, ls);
  }

  /** Look-alikes apart, the chain traps whenever the way to the first matching arm is not clear. */
  lemma {:induction false} ChainStumbles(m: Module, cx: MatchCtx, arms: seq<Arm>, value: seq<Instr>,
                                         expected: Option<MonoType>, h: Hints, message: Sym, v: Value, w: Val,
                                         locals: seq<Val>, hidden: set<nat>, s: Stack, ls: seq<Val>)
    requires Wired(m, cx) && Yields(m, value, locals, hidden, w) && AgreeOutside(locals, ls, hidden)
    requires Truthful(m, cx.te, expected, h, w, v) && ArmsOk(m, cx, arms, v, expected, h)
    requires !Clear(cx.te, arms, v, expected, h) && NoLookalikes(cx.te, v)
    ensures Exec(m, Chain(cx, arms, value, expected, h, message), State(s, ls)) == Trap
  {
    ChainSelects(m, cx, arms, value, expected, h, message, v, w, locals, hidden, s, ls);
    StuckBeforeMatch(cx.te, arms, v, expected, h);
  }

  lemma {:induction false} StuckBeforeMatch(te: TypeEnv, arms: seq<Arm>, v: Value, expected: Option<MonoType>,
                                            h: Hints)
    requires !Clear(te, arms, v, expected, h) && NoLookalikes(te, v)
    ensures !TakesArm(te, arms, v, expected, h)
  {
    var i, k := FirstMatch(arms, v), Taken(te, arms, v, expected, h);
    if TakesArm(te, arms, v, expected, h) {
      assert Matches(arms[k].pattern, v) && i <= k;
      if i < |arms| && MeetsStep(arms[i].pattern, v) {
        MeetingStumbles(te, arms[i].pattern, v);
      }
    }
  }

  // ----- Consequences -----

  /** The condition of an arm comes to the same verdict on both forms. */
  lemma {:induction false} SameVerdict(types: map<Sym, StructDef>, te: TypeEnv, p: Pattern, t: MonoType, v: Value,
                                       w: Val)
    requires SumRep(types, te, t, w, v) && !IsRecord(te, OPTION) && !IsRecord(te, RESULT)
    requires Fits(te, p, v, Some(t), SumHints(t))
    ensures VerdictOf(te, p, v, Some(t), SumHints(t)) == VerdictOf(te, p, v, Some(t), NO_HINTS)
    ensures Fits(te, p, v, Some(t), NO_HINTS)
  {
    if p.PVariant? && TagFits(p.typeId, p.variant, v) {
      var a, b := AccessFor(te, p.typeId, Some(t), SumHints(t)), AccessFor(te, p.typeId, Some(t), NO_HINTS);
      forall i | 0 <= i < |p.fields|
        ensures FieldExpected(a, Some(t), p.variant, i) == FieldExpected(b, Some(t), p.variant, i)
      {
        assert i == 0;
      }
      assert FieldHints(a, SumHints(t)) == FieldHints(b, NO_HINTS);
      FieldsStuckIff(te, p, v, Some(t), SumHints(t));
      FieldsStuckIff(te, p, v, Some(t), NO_HINTS);
    }
  }

  lemma {:induction false} SameTaken(types: map<Sym, StructDef>, te: TypeEnv, arms: seq<Arm>, t: MonoType, v: Value,
                                     w: Val)
    requires SumRep(types, te, t, w, v) && !IsRecord(te, OPTION) && !IsRecord(te, RESULT)
    requires forall i | 0 <= i < |arms| :: Fits(te, arms[i].pattern, v, Some(t), SumHints(t))
    ensures Taken(te, arms, v, Some(t), SumHints(t)) == Taken(te, arms, v, Some(t), NO_HINTS)
    ensures TakesArm(te, arms, v, Some(t), SumHints(t)) <==> TakesArm(te, arms, v, Some(t), NO_HINTS)
    ensures forall i | 0 <= i < |arms| :: Fits(te, arms[i].pattern, v, Some(t), NO_HINTS)
  {
    if arms != [] {
      SameVerdict(types, te, arms[0].pattern, t, v, w);
      SameTaken(types, te, arms[1..], t, v, w);
      assert forall i | 0 < i < |arms| :: arms[i] == arms[1..][i - 1];
      TakenTail(te, arms, v, Some(t), SumHints(t));
      TakenTail(te, arms, v, Some(t), NO_HINTS);
    }
  }

  /**
    Matching a typed Option or Result takes the same arm, with the same components, as matching its erased form, or
    gets stuck as that does, unless the arm is a variable for the whole value.
  */
  lemma {:induction false} TypedMatchAgreesWithErased(m: Module, cx: MatchCtx, arms: seq<Arm>, t: MonoType,
                                                      message: Sym, v: Value, w: Val, typedValue: seq<Instr>,
                                                      erasedValue: seq<Instr>, locals: seq<Val>, hidden: set<nat>,
                                                      s: Stack, ls: seq<Val>)
    requires Wired(m, cx) && AgreeOutside(locals, ls, hidden)
    requires !IsRecord(cx.te, OPTION) && !IsRecord(cx.te, RESULT) && !IsRecord(cx.te, UNFOLD_STEP)
    requires SumRep(m.types, cx.te, t, w, v) && Made(m.types, cx.te, v)
    requires Yields(m, typedValue, locals, hidden, w) && Yields(m, erasedValue, locals, hidden, Boxed(v))
    requires ArmsOk(m, cx, arms, v, Some(t), SumHints(t))
    requires TakenStorable(m.types, cx, arms, v, Boxed(v), Some(t), SumHints(t), |ls|, hidden)
    requires TakesArm(cx.te, arms, v, Some(t), SumHints(t)) ==>
               !arms[Taken(cx.te, arms, v, Some(t), SumHints(t))].pattern.PVar?
    ensures Exec(m, Chain(cx, arms, typedValue, Some(t), SumHints(t), message), State(s, ls))
         == Exec(m, Chain(cx, arms, erasedValue, Some(t), NO_HINTS, message), State(s, ls))
  {
    if TakesArm(cx.te, arms, v, Some(t), SumHints(t)) {
      var p := arms[Taken(cx.te, arms, v, Some(t), SumHints(t))].pattern;
      assert Components(p, v, w) == Components(p, v, Boxed(v));
    }
    SameTaken(m.types, cx.te, arms, t, v, w);
    ChainRuns(m, cx, arms, typedValue, Some(t), SumHints(t), message, v, w, locals, hidden, s, ls);
    ChainRuns(m, cx, arms, erasedValue, Some(t), NO_HINTS, message, v, Boxed(v), locals, hidden, s, ls);
  }

  // ----- Variable arms on typed values -----

  /** A local of type `ty` can hold a struct of type `sym` as it is. */
  predicate CanHold(types: map<Sym, StructDef>, ty: ValType, sym: Sym) {
    ty == Anyref || (ty.Ref? && (ty.heap == AnyHeap || (ty.heap.NamedHeap? && SubType(types, sym, ty.heap.sym))))
  }

  /** A typed sum is no boxed number. */
  lemma {:induction false} SumIsNoBox(m: Module, te: TypeEnv, t: MonoType)
    requires Declared(m, te, t)
    ensures !SubType(m.types, SumSym(t), T_BOXED_INT) && !SubType(m.types, SumSym(t), T_BOXED_FLOAT)
  {
    assert SumSym(t)[1] != T_BOXED_INT[1] && SumSym(t)[1] != T_BOXED_FLOAT[1];
    assert |SumDefOf(te, t).fields| != |BOXED_INT_DEF.fields| && |SumDefOf(te, t).fields| != |BOXED_FLOAT_DEF.fields|;
  }

  lemma {:induction false} FailedCastTraps(m: Module, nullable: bool, heap: HeapType, code: seq<Instr>, w: Val,
                                           s: Stack, ls: seq<Val>)
    requires !CastSucceeds(m.types, w, nullable, heap)
    ensures Exec(m, [RefCast(nullable, heap)] + code, State(Push(w, s), ls)) == Trap
  {
    ExecConcat(m, [RefCast(nullable, heap)], code, State(Push(w, s), ls));
    ExecOne(m, RefCast(nullable, heap), State(Push(w, s), ls));
  }

  lemma {:induction false} UnboxTraps(m: Module, te: TypeEnv, t: MonoType, ty: ValType, w: Val, s: Stack, ls: seq<Val>)
    requires Declared(m, te, t) && CanUnbox(ty) && w.StructRef? && w.sym == SumSym(t)
             && !CanHold(m.types, ty, SumSym(t))
    ensures Exec(m, FromAnyCode(ty), State(Push(w, s), ls)) == Trap
  {
    SumIsNoBox(m, te, t);
    match ty
    case I64 =>
      FailedCastTraps(m, false, NamedHeap(T_BOXED_INT), [StructGet(T_BOXED_INT, 0)], w, s, ls);
      assert FromAnyCode(ty) == [RefCast(false, NamedHeap(T_BOXED_INT))] + [StructGet(T_BOXED_INT, 0)];
    case F64 =>
      FailedCastTraps(m, false, NamedHeap(T_BOXED_FLOAT), [StructGet(T_BOXED_FLOAT, 0)], w, s, ls);
      assert FromAnyCode(ty) == [RefCast(false, NamedHeap(T_BOXED_FLOAT))] + [StructGet(T_BOXED_FLOAT, 0)];
    case I32 =>
      FailedCastTraps(m, false, I31Heap, [I31GetS], w, s, ls);
      assert FromAnyCode(ty) == [RefCast(false, I31Heap)] + [I31GetS];
    case Ref(nullable, heap) =>
      FailedCastTraps(m, nullable, heap, [], w, s, ls);
      assert FromAnyCode(ty) == [RefCast(nullable, heap)] + [];
  }

  /** Binding the whole of a typed sum to a variable stores the struct, or traps when the slot is too narrow for it. */
  lemma {:induction false} VariableBinds(m: Module, cx: MatchCtx, x: nat, t: MonoType, v: Value, w: Val,
                                         value: seq<Instr>, locals: seq<Val>, hidden: set<nat>, s: Stack,
                                         ls: seq<Val>)
    requires Declared(m, cx.te, t) && SumRep(m.types, cx.te, t, w, v)
    requires Yields(m, value, locals, hidden, w) && AgreeOutside(locals, ls, hidden)
    requires HasSlot(cx, x) && cx.slots[x].0 < |ls|
    ensures Exec(m, Bindings(cx, PVar(x), value, Some(t), SumHints(t)), State(s, ls))
         == if CanHold(m.types, cx.slots[x].1, SumSym(t)) then Next(State(s, ls[cx.slots[x].0 := w])) else Trap
  {
    var (k, ty) := cx.slots[x];
    if CanHold(m.types, ty, SumSym(t)) {
      VarCorrect(m, cx, x, value, w, locals, hidden, s, ls);
      assert [(x, w)][1..] == [];
      assert Store(cx, [(x, w)], ls) == ls[k := StoredAs(ty, w)];
    } else {
      UnboxTraps(m, cx.te, t, ty, w, s, ls);
      ExecConcat(m, value + FromAnyCode(ty), [LocalSet(k)], State(s, ls));
      ExecConcat(m, value, FromAnyCode(ty), State(s, ls));
    }
  }

  /**
    A match on a typed Option or Result that takes a variable arm: the body runs with the typed struct in the local if
    the local can hold it, and the match traps if it cannot. On the erased form the local gets the erased form.
  */
  lemma {:induction false} VariableArmOutcome(m: Module, cx: MatchCtx, arms: seq<Arm>, t: MonoType, message: Sym,
                                              v: Value, w: Val, x: nat, typedValue: seq<Instr>, locals: seq<Val>,
                                              hidden: set<nat>, s: Stack, ls: seq<Val>)
    requires Wired(m, cx) && AgreeOutside(locals, ls, hidden) && Declared(m, cx.te, t)
             && SumRep(m.types, cx.te, t, w, v) && Made(m.types, cx.te, v)
    requires Yields(m, typedValue, locals, hidden, w) && ArmsOk(m, cx, arms, v, Some(t), SumHints(t))
    requires TakesArm(cx.te, arms, v, Some(t), SumHints(t)) && arms[Taken(cx.te, arms, v, Some(t),
        SumHints(t))].pattern == PVar(x)
    requires HasSlot(cx, x) && cx.slots[x].0 < |ls|
    ensures Exec(m, Chain(cx, arms, typedValue, Some(t), SumHints(t), message), State(s, ls))
         == if CanHold(m.types, cx.slots[x].1, SumSym(t))
            then Exec(m, arms[Taken(cx.te, arms, v, Some(t), SumHints(t))].body, State(s, ls[cx.slots[x].0 := w]))
                else Trap
  {
    var arm := arms[Taken(cx.te, arms, v, Some(t), SumHints(t))];
    ChainSelects(m, cx, arms, typedValue, Some(t), SumHints(t), message, v, w, locals, hidden, s, ls);
    VariableBinds(m, cx, x, t, v, w, typedValue, locals, hidden, s, ls);
    ExecConcat(m, Bindings(cx, PVar(x), typedValue, Some(t), SumHints(t)), arm.body, State(s, ls));
  }

  /**
    The bindings of an arm that is taken complete on the typed value, as they do on the erased one, if and only if the
    pattern is no variable or the slot of the variable can hold the typed struct.
  */
  lemma {:induction false} TypedArmBindsIff(m: Module, cx: MatchCtx, p: Pattern, t: MonoType, v: Value, w: Val,
                                            value: seq<Instr>, locals: seq<Val>, hidden: set<nat>, s: Stack,
                                            ls: seq<Val>)
    requires Declared(m, cx.te, t) && SumRep(m.types, cx.te, t, w, v) && Made(m.types, cx.te, v)
    requires Yields(m, value, locals, hidden, w) && AgreeOutside(locals, ls, hidden)
    requires !IsRecord(cx.te, OPTION) && !IsRecord(cx.te, RESULT) && !IsRecord(cx.te, UNFOLD_STEP)
    requires Fits(cx.te, p, v, Some(t), SumHints(t)) && VerdictOf(cx.te, p, v, Some(t), SumHints(t)) == Decided(true)
    requires AllStorable(m.types, cx, Components(p, v, Boxed(v)), |ls|, hidden)
    ensures Exec(m, Bindings(cx, p, value, Some(t), SumHints(t)), State(s, ls)).Next?
       <==> (p.PVar? ==> p.local in cx.slots && CanHold(m.types, cx.slots[p.local].1, SumSym(t)))
  {
    if p.PVar? {
      assert Components(p, v, Boxed(v))[0] == (p.local, Boxed(v));
      VariableBinds(m, cx, p.local, t, v, w, value, locals, hidden, s, ls);
    } else {
      assert Components(p, v, w) == Components(p, v, Boxed(v));
      BindingsCorrect(m, cx, p, value, Some(t), SumHints(t), v, w, locals, hidden, s, ls);
    }
  }

  /**
    The slot that the backend gives such a variable has the type of the erased form. It can hold the typed struct only
    if that struct passes for `$Variant`.
  */
  lemma {:induction false} VariableSlotIsTooNarrow(m: Module, te: TypeEnv, t: MonoType)
    requires Declared(m, te, t) && t.typeId in te.defs && te.defs[t.typeId] == SumDef
    ensures ValTypeOf(te, t) == RefTo(T_VARIANT)
    ensures CanHold(m.types, ValTypeOf(te, t), SumSym(t)) <==> Lookalike(te, t)
    ensures IsOptionCandidate(t) ==> !CanHold(m.types, ValTypeOf(te, t), SumSym(t))
  {
    LookalikeIsVariant(m, te, t);
  }

  /** On the slot that the backend gives it, a variable arm makes a match on a typed Option trap. */
  lemma {:induction false} VariableArmTraps(m: Module, cx: MatchCtx, arms: seq<Arm>, t: MonoType, message: Sym,
                                            v: Value, w: Val, x: nat, typedValue: seq<Instr>, locals: seq<Val>,
                                            hidden: set<nat>, s: Stack, ls: seq<Val>)
    requires Wired(m, cx) && AgreeOutside(locals, ls, hidden) && Declared(m, cx.te, t)
             && SumRep(m.types, cx.te, t, w, v) && Made(m.types, cx.te, v)
    requires Yields(m, typedValue, locals, hidden, w) && ArmsOk(m, cx, arms, v, Some(t), SumHints(t))
    requires TakesArm(cx.te, arms, v, Some(t), SumHints(t)) && arms[Taken(cx.te, arms, v, Some(t),
        SumHints(t))].pattern == PVar(x)
    requires x in cx.slots && cx.slots[x].0 < |ls| && cx.slots[x].1 == ValTypeOf(cx.te, t)
    requires t.typeId in cx.te.defs && cx.te.defs[t.typeId] == SumDef && !Lookalike(cx.te, t)
    ensures Exec(m, Chain(cx, arms, typedValue, Some(t), SumHints(t), message), State(s, ls)) == Trap
  {
    VariableSlotIsTooNarrow(m, cx.te, t);
    VariableArmOutcome(m, cx, arms, t, message, v, w, x, typedValue, locals, hidden, s, ls);
  }

  // ----- Byte literals -----

  /** A Byte literal decides the match exactly when the Byte type is tracked at its position; otherwise it traps. */
  lemma {:induction false} ByteLiteralIff(m: Module, cx: MatchCtx, n: int, x: int, value: seq<Instr>,
                                          expected: Option<MonoType>, locals: seq<Val>, hidden: set<nat>)
    requires Wired(m, cx) && 0 <= n < 256 && 0 <= x < 256 && Yields(m, value, locals, hidden, Boxed(ByteV(x)))
    ensures expected == Some(Byte) <==>
              Yields(m, Condition(cx, LitInt(n), value, expected, NO_HINTS), locals, hidden,
                     I32Val(BoolInt(Matches(LitInt(n), ByteV(x)))))
    ensures expected != Some(Byte) <==> Traps(m, Condition(cx, LitInt(n), value, expected, NO_HINTS), locals, hidden)
  {
    ConditionDecidesIff(m, cx, LitInt(n), value, expected, NO_HINTS, ByteV(x), Boxed(ByteV(x)), locals, hidden);
  }

  /** The failing family: a Byte literal under a user enum, whose field types the backend does not track. */
  lemma {:induction false} UserEnumByteLiteralTraps(m: Module, cx: MatchCtx, t: nat, k: nat, n: int, x: int,
                                                    value: seq<Instr>, expected: Option<MonoType>, locals: seq<Val>,
                                                    hidden: set<nat>)
    requires Wired(m, cx) && !IsRecord(cx.te, t) && t !in {OPTION, RESULT, UNFOLD_STEP}
    requires expected.Some? ==> expected.value.Named? && expected.value.typeId == t
    requires 0 <= n < 256 && 0 <= x < 256 && Yields(m, value, locals, hidden, Boxed(SumV(t, k, [ByteV(x)])))
    ensures Traps(m, Condition(cx, PVariant(t, k, [LitInt(n)]), value, expected, NO_HINTS), locals, hidden)
  {
    var p, v := PVariant(t, k, [LitInt(n)]), SumV(t, k, [ByteV(x)]);
    EnumByteUntracked(m.types, cx.te, t, k, n, x, expected);
    ConditionDecidesIff(m, cx, p, value, expected, NO_HINTS, v, Boxed(v), locals, hidden);
  }

  lemma {:induction false} EnumByteUntracked(types: map<Sym, StructDef>, te: TypeEnv, t: nat, k: nat, n: int, x: int,
                                             expected: Option<MonoType>)
    requires !IsRecord(te, t) && t !in {OPTION, RESULT, UNFOLD_STEP} && 0 <= n < 256 && 0 <= x < 256
    requires expected.Some? ==> expected.value.Named? && expected.value.typeId == t
    ensures var p, v := PVariant(t, k, [LitInt(n)]), SumV(t, k, [ByteV(x)]);
            Made(types, te, v) && Fits(te, p, v, expected, NO_HINTS) && ReadsByteAsInt(te, p, v, expected, NO_HINTS)
  {
    var a := AccessFor(te, t, expected, NO_HINTS);
    assert FieldExpected(a, expected, k, 0) == None;
    assert ReadsByteAsInt(te, LitInt(n), ByteV(x), None, NO_HINTS);
    assert Parts(SumV(t, k, [ByteV(x)])) == [ByteV(x)] && Made(types, te, ByteV(x));
  }
}
