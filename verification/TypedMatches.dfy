/**
  Matches on values of a known type: which literals the conditions read correctly, and what a whole match on freshly
  allocated slots does.
*/
module TypedMatches {
  import opened Base
  import opened Wasm
  import opened Mono
  import opened CodeCalculus
  import opened Values
  import opened Match
  import opened MatchBindings
  import opened MatchChain
  import opened StepPatterns
  import opened Typing
  import opened PatternSlots
  import opened TypedSlots
  import opened LocalSlots
  import opened MatchSlots

  /** A value of type `t` in the layout that the flow metadata tells, and a pattern of its type. */
  ghost predicate WellTyped(m: Module, te: TypeEnv, decl: Fields, t: MonoType, h: Hints, w: Val, v: Value) {
    Prelude(te, decl) && IsConcrete(t) && Typed(m.types, te, decl, Some(t), v) && Truthful(m, te, Some(t), h, w, v)
  }

  /**
    For a value of a known type the condition traps exactly when the pattern meets a typed step that does not pass for
    `$Variant`, or a literal stands at a Byte below a user enum; it decides the match unless it traps or overlooks a
    step that does pass.
  */
  lemma {:induction false} TypedConditionIff(m: Module, cx: MatchCtx, decl: Fields, p: Pattern, value: seq<Instr>,
                                             t: MonoType, h: Hints, v: Value, w: Val, locals: seq<Val>,
                                             hidden: set<nat>)
    requires Wired(m, cx) && Yields(m, value, locals, hidden, w) && WellTyped(m, cx.te, decl, t, h, w, v)
    requires Suits(p, v)
    ensures Traps(m, Condition(cx, p, value, Some(t), h), locals, hidden)
       <==> Stumbles(cx.te, p, v) || UntrackedByte(p, v, true)
    ensures Yields(m, Condition(cx, p, value, Some(t), h), locals, hidden, I32Val(BoolInt(Matches(p, v))))
       <==> !Stumbles(cx.te, p, v) && !UntrackedByte(p, v, true) && !(MeetsStep(p, v) && Matches(p, v))
  {
    TypedAssumptions(m, cx.te, decl, p, t, h, v, w);
    ConditionDecidesIff(m, cx, p, value, Some(t), h, v, w, locals, hidden);
  }

  lemma {:induction false} TypedAssumptions(m: Module, te: TypeEnv, decl: Fields, p: Pattern, t: MonoType, h: Hints,
                                            v: Value, w: Val)
    requires WellTyped(m, te, decl, t, h, w, v)
    ensures Suits(p, v) ==> Fits(te, p, v, Some(t), h)
    ensures ReadsByteAsInt(te, p, v, Some(t), h) <==> UntrackedByte(p, v, true)
  {
    TruthfulHinted(m, te, Some(t), h, w, v);
    ReadsByteIff(m.types, te, decl, p, v, Some(t), h);
    if Suits(p, v) {
      TypedFits(m.types, te, decl, p, v, Some(t), h);
    }
  }

  /** A pattern of tuples and built-in sums alone decides the match on every value of a known type without steps. */
  lemma {:induction false} TrackedConditionDecides(m: Module, cx: MatchCtx, decl: Fields, p: Pattern,
                                                   value: seq<Instr>, t: MonoType, h: Hints, v: Value, w: Val,
                                                   locals: seq<Val>, hidden: set<nat>)
    requires Wired(m, cx) && Yields(m, value, locals, hidden, w) && WellTyped(m, cx.te, decl, t, h, w, v)
    requires Suits(p, v) && NoEnums(cx.te, p) && StepFree(v)
    ensures Yields(m, Condition(cx, p, value, Some(t), h), locals, hidden, I32Val(BoolInt(Matches(p, v))))
  {
    StepFreeMeetsNone(p, v);
    if Stumbles(cx.te, p, v) {
      StumblingMeets(cx.te, p, v);
    }
    NoEnumsTracked(m.types, cx.te, decl, Some(t), p, v);
    TypedConditionIff(m, cx, decl, p, value, t, h, v, w, locals, hidden);
  }

  /** A Byte in a tuple is read as a Byte. */
  lemma {:induction false} TupleByteDecides(m: Module, cx: MatchCtx, decl: Fields, id: nat, a: int, x: int, n: int,
                                            value: seq<Instr>, locals: seq<Val>, hidden: set<nat>)
    requires Wired(m, cx) && Prelude(cx.te, decl) && IsRecord(cx.te, id) && !IsNative(id)
    requires 0 <= x < 256 && 0 <= n < 256
    requires Yields(m, value, locals, hidden, Boxed(TupleV(id, [IntV(a), ByteV(x)])))
    ensures Yields(m, Condition(cx, PVariant(id, 0, [Wildcard, LitInt(n)]), value, Some(Named(id, [Int, Byte])),
                                NO_HINTS), locals, hidden, I32Val(BoolInt(x == n)))
  {
    var t, v, p := Named(id, [Int, Byte]), TupleV(id, [IntV(a), ByteV(x)]), PVariant(id, 0, [Wildcard, LitInt(n)]);
    PairTyped(m.types, cx.te, decl, id, a, x);
    PairPattern(cx.te, id, a, x, n);
    TrackedConditionDecides(m, cx, decl, p, value, t, NO_HINTS, v, Boxed(v), locals, hidden);
  }

  lemma {:induction false} PairPattern(te: TypeEnv, id: nat, a: int, x: int, n: int)
    requires IsRecord(te, id) && 0 <= n < 256
    ensures var p, v := PVariant(id, 0, [Wildcard, LitInt(n)]), TupleV(id, [IntV(a), ByteV(x)]);
            Suits(p, v) && NoEnums(te, p) && (Matches(p, v) <==> x == n)
  {
    var p, v := PVariant(id, 0, [Wildcard, LitInt(n)]), TupleV(id, [IntV(a), ByteV(x)]);
    assert Suits(p.fields[1], v.items[1]) && NoEnums(te, p.fields[1]);
    assert Matches(p.fields[1], v.items[1]) <==> x == n;
  }

  lemma {:induction false} PairTyped(types: map<Sym, StructDef>, te: TypeEnv, decl: Fields, id: nat, a: int, x: int)
    requires IsRecord(te, id) && !IsNative(id) && 0 <= x < 256
    ensures var v := TupleV(id, [IntV(a), ByteV(x)]);
            Typed(types, te, decl, Some(Named(id, [Int, Byte])), v) && Made(types, te, v) && StepFree(v)
  {
    var v := TupleV(id, [IntV(a), ByteV(x)]);
    assert Typed(types, te, decl, Some(Int), IntV(a)) && Typed(types, te, decl, Some(Byte), ByteV(x));
    assert Made(types, te, IntV(a)) && Made(types, te, ByteV(x)) && StepFree(IntV(a)) && StepFree(ByteV(x));
    assert Parts(v) == [IntV(a), ByteV(x)];
  }

  lemma {:induction false} StepFreeMeetsNone(p: Pattern, v: Value)
    requires StepFree(v)
    ensures !MeetsStep(p, v)
  {
    if MeetsStep(p, v) {
      MeetsOnlyTyped(p, v);
      StepFreeUntyped(v);
    }
  }

  lemma {:induction false} StepFreeUntyped(v: Value)
    requires StepFree(v)
    ensures !HasTypedStep(v)
    decreases v
  {
    forall i | 0 <= i < |Parts(v)|
      ensures !HasTypedStep(Parts(v)[i])
    {
      StepFreeUntyped(Parts(v)[i]);
    }
  }

  lemma {:induction false} StepFreeNoLookalikes(te: TypeEnv, v: Value)
    requires StepFree(v)
    ensures NoLookalikes(te, v)
    decreases v
  {
    forall i | 0 <= i < |Parts(v)|
      ensures NoLookalikes(te, Parts(v)[i])
    {
      StepFreeNoLookalikes(te, Parts(v)[i]);
    }
  }

  // ----- Chains -----

  /** Up to the first match, no literal stands at a Byte below a user enum. */
  predicate BytesTracked(arms: seq<Arm>, v: Value) {
    forall j | 0 <= j < |arms| && j <= FirstMatch(arms, v) :: !UntrackedByte(arms[j].pattern, v, true)
  }

  lemma {:induction false} ClearIffTracked(m: Module, te: TypeEnv, decl: Fields, arms: seq<Arm>, t: MonoType,
                                           h: Hints, v: Value, w: Val)
    requires WellTyped(m, te, decl, t, h, w, v) && StepFree(v)
    ensures Clear(te, arms, v, Some(t), h) <==> BytesTracked(arms, v)
  {
    forall j | 0 <= j < |arms|
      ensures ReadsByteAsInt(te, arms[j].pattern, v, Some(t), h) <==> UntrackedByte(arms[j].pattern, v, true)
      ensures !Stumbles(te, arms[j].pattern, v) && !MeetsStep(arms[j].pattern, v)
    {
      TypedAssumptions(m, te, decl, arms[j].pattern, t, h, v, w);
      StepFreeMeetsNone(arms[j].pattern, v);
      if Stumbles(te, arms[j].pattern, v) {
        StumblingMeets(te, arms[j].pattern, v);
      }
    }
  }

  /** Every arm is well typed for the value, and the backend's claims about divergence are right. */
  ghost predicate ArmsTyped(m: Module, arms: seq<Arm>, v: Value) {
    forall i | 0 <= i < |arms| :: Suits(arms[i].pattern, v) && Honest(m, arms[i])
  }

  lemma {:induction false} ArmsTypedOk(m: Module, cx: MatchCtx, decl: Fields, arms: seq<Arm>, t: MonoType, h: Hints,
                                       v: Value, w: Val)
    requires WellTyped(m, cx.te, decl, t, h, w, v) && ArmsTyped(m, arms, v)
    ensures ArmsOk(m, cx, arms, v, Some(t), h)
  {
    forall i | 0 <= i < |arms|
      ensures Fits(cx.te, arms[i].pattern, v, Some(t), h)
    {
      TypedAssumptions(m, cx.te, decl, arms[i].pattern, t, h, v, w);
    }
  }

  // ----- Slots -----

  /** For values of a type, what `Conforms` asks for holds. */
  lemma {:induction false} TypedSlotsApply(types: map<Sym, StructDef>, te: TypeEnv, decl: Fields, t: MonoType,
                                           v: Value)
    requires RuntimeTypes(types) && Unboxable(te) && Prelude(te, decl) && Typed(types, te, decl, Some(t), v)
    ensures SlotsApply(types, te, decl)
    ensures Conforms(types, te, decl, v, Some(t), None) && TuplesAreRecords(te, v)
  {
    TypedConforms(types, te, decl, Some(t), Some(t), v);
    TypedTuples(types, te, decl, Some(t), v);
  }

  /**
    What a matching pattern stores of a value of type `t` fits into the slots chosen for `t`, if and only if no variable
    stands at a step in the other form; without steps it always does.
  */
  lemma {:induction false} TypedComponentsFitIff(types: map<Sym, StructDef>, te: TypeEnv, decl: Fields, p: Pattern,
                                                 t: MonoType, v: Value)
    requires RuntimeTypes(types) && Unboxable(te) && Prelude(te, decl) && Typed(types, te, decl, Some(t), v)
    requires Made(types, te, v) && Matches(p, v)
    ensures Aligned(TypedLocals(te, decl, p, Some(t), None), Components(p, v, Boxed(v)))
    ensures AllFit(types, TypedLocals(te, decl, p, Some(t), None), Components(p, v, Boxed(v)))
       <==> !Misfit(types, te, decl, p, v, Some(t), None)
    ensures StepFree(v) ==> AllFit(types, TypedLocals(te, decl, p, Some(t), None), Components(p, v, Boxed(v)))
  {
    TypedSlotsApply(types, te, decl, t, v);
    ComponentsFitIff(types, te, decl, p, v, Some(t), None);
    if StepFree(v) {
      StepFreeFits(types, te, decl, Some(t), p, v, Some(t));
    }
  }

  /** Components of a typed layout are those of the boxed value, unless the arm binds the value itself. */
  lemma {:induction false} LayoutComponents(arms: seq<Arm>, v: Value, w: Val, i: nat)
    requires i < |arms| && (w == Boxed(v) || !arms[i].pattern.PVar?)
    ensures Components(arms[i].pattern, v, w) == Components(arms[i].pattern, v, Boxed(v))
  {
  }

  /** The slots of a match that binds its variables first take every component of a typed value without steps. */
  lemma {:induction false} TypedMatchServed(m: Module, decl: Fields, cx: MatchCtx, params: nat, locals: seq<ValType>,
                                            site: MatchSite, arms: seq<Arm>, t: MonoType, h: Hints, v: Value, w: Val)
    requires RuntimeTypes(m.types) && Unboxable(cx.te) && WellTyped(m, cx.te, decl, t, h, w, v) && StepFree(v)
    requires Proper(cx.slots, params, locals) && TypedFor(cx.te, decl, cx.slots, site, Some(t), None)
    requires SamePatterns(arms, site) && ArmPatterns(site.arms) !! site.before
    requires w == Boxed(v) || forall i | 0 <= i < |arms| :: !arms[i].pattern.PVar?
    ensures TakenStorable(m.types, cx, arms, v, w, Some(t), h, params + |locals|,
                          SlotsOf(cx.slots, ArmPatterns(site.arms)))
  {
    if TakesArm(cx.te, arms, v, Some(t), h) {
      var i := Taken(cx.te, arms, v, Some(t), h);
      TypedSlotsApply(m.types, cx.te, decl, t, v);
      StepFreeFits(m.types, cx.te, decl, Some(t), arms[i].pattern, v, Some(t));
      FirstBindingServed(m.types, decl, cx, params, locals, site, Some(t), None, arms, Some(t), h, v);
      LayoutComponents(arms, v, w, i);
    }
  }

  /**
    A match that binds its variables first, on a value of a known type without steps, on any frame of the function: if
    no literal up to the first match stands at a Byte below a user enum, it runs the first matching arm with its
    variables stored, and traps if no arm matches; otherwise it traps.
  */
  lemma {:induction false} TypedMatchRuns(m: Module, decl: Fields, cx: MatchCtx, params: nat, locals: seq<ValType>,
                                          site: MatchSite, arms: seq<Arm>, value: seq<Instr>, t: MonoType, h: Hints,
                                          message: Sym, v: Value, w: Val, s: Stack, frame: seq<Val>)
    requires Wired(m, cx) && Unboxable(cx.te) && WellTyped(m, cx.te, decl, t, h, w, v) && StepFree(v)
    requires Proper(cx.slots, params, locals) && TypedFor(cx.te, decl, cx.slots, site, Some(t), None)
    requires SamePatterns(arms, site) && ArmPatterns(site.arms) !! site.before && ArmsTyped(m, arms, v)
    requires w == Boxed(v) || forall i | 0 <= i < |arms| :: !arms[i].pattern.PVar?
    requires |frame| == params + |locals| && Yields(m, value, frame, SlotsOf(cx.slots, ArmPatterns(site.arms)), w)
    ensures var i, code := FirstMatch(arms, v), Chain(cx, arms, value, Some(t), h, message);
            if BytesTracked(arms, v) && i < |arms| then
              Slotted(cx, Components(arms[i].pattern, v, w), |frame|)
              && Exec(m, code, State(s, frame))
                 == Exec(m, arms[i].body, State(s, Store(cx, Components(arms[i].pattern, v, w), frame)))
            else Exec(m, code, State(s, frame)) == Trap
  {
    var hidden := SlotsOf(cx.slots, ArmPatterns(site.arms));
    ArmsTypedOk(m, cx, decl, arms, t, h, v, w);
    ClearIffTracked(m, cx.te, decl, arms, t, h, v, w);
    if BytesTracked(arms, v) {
      TypedMatchServed(m, decl, cx, params, locals, site, arms, t, h, v, w);
      ChainCorrect(m, cx, arms, value, Some(t), h, message, v, w, frame, hidden, s, frame);
    } else {
      StepFreeNoLookalikes(cx.te, v);
      ChainStumbles(m, cx, arms, value, Some(t), h, message, v, w, frame, hidden, s, frame);
    }
  }
}
