/** The two `next` helpers and the refinement between them. */
module IteratorNext {
  import opened Base
  import opened Wasm
  import opened Mono
  import opened CodeCalculus
  import opened Coercions
  import opened Iterators

  // ----- Iterator states: boxing and unboxing -----

  /** `emit_box_typed_iterator_state_local`; the step closure is a reference already. */
  function BoxStateCode(te: TypeEnv, info: IterInfo, idx: nat): (code: seq<Instr>) {
    (Read(idx, IterStateSym(info), 0) + ToAnyCode(SeedType(te, info)))
    + (Read(idx, IterStateSym(info), 1) + ToAnyCode(RefTo(StepClosureSym(info)))) + [StructNew(T_ITER_STATE)]
  }

  /** `emit_unbox_erased_iterator_state_local`. */
  function UnboxStateCode(te: TypeEnv, info: IterInfo, idx: nat): (code: seq<Instr>)
    requires CanUnbox(SeedType(te, info))
  {
    (Read(idx, T_ITER_STATE, 0) + FromAnyCode(SeedType(te, info)))
    + (Read(idx, T_ITER_STATE, 1) + FromAnyCode(RefTo(StepClosureSym(info)))) + [StructNew(IterStateSym(info))]
  }

  predicate IsStepRef(info: IterInfo, c: Val) { c.StructRef? && c.sym == StepClosureSym(info) }

  lemma {:induction false} BoxStateYields(m: Module, te: TypeEnv, info: IterInfo, idx: nat, seed: Val, step: Val,
                                          locals: seq<Val>, hidden: set<nat>)
    requires IterTypes(m.types, te, info) && HasType(m.types, seed, SeedType(te, info)) && IsStepRef(info, step)
    requires idx < |locals| && idx !in hidden && locals[idx] == TypedState(info, seed, step)
    ensures Yields(m, BoxStateCode(te, info, idx), locals, hidden, BoxedState(te, info, seed, step))
  {
    var sym := IterStateSym(info);
    BoxedFieldYields(m, idx, sym, 0, SeedType(te, info), locals, hidden);
    BoxedFieldYields(m, idx, sym, 1, RefTo(StepClosureSym(info)), locals, hidden);
    Struct2Yields(m, Read(idx, sym, 0) + ToAnyCode(SeedType(te, info)),
                  Read(idx, sym, 1) + ToAnyCode(RefTo(StepClosureSym(info))),
                  T_ITER_STATE, Box(SeedType(te, info), seed), step, locals, hidden);
  }

  lemma {:induction false} UnboxStateYields(m: Module, te: TypeEnv, info: IterInfo, idx: nat, seed: Val, step: Val,
                                            locals: seq<Val>, hidden: set<nat>)
    requires IterTypes(m.types, te, info) && HasType(m.types, seed, SeedType(te, info)) && IsStepRef(info, step)
    requires idx < |locals| && idx !in hidden && locals[idx] == BoxedState(te, info, seed, step)
    ensures Yields(m, UnboxStateCode(te, info, idx), locals, hidden, TypedState(info, seed, step))
  {
    var st, ct := SeedType(te, info), RefTo(StepClosureSym(info));
    ReadYields(m, idx, T_ITER_STATE, 0, locals, hidden);
    UnboxCodeUnboxes(m, st, seed);
    YieldsMap(m, Read(idx, T_ITER_STATE, 0), FromAnyCode(st), locals, hidden, Box(st, seed), seed);
    ReadYields(m, idx, T_ITER_STATE, 1, locals, hidden);
    UnboxCodeUnboxes(m, ct, step);
    YieldsMap(m, Read(idx, T_ITER_STATE, 1), FromAnyCode(ct), locals, hidden, step, step);
    Struct2Yields(m, Read(idx, T_ITER_STATE, 0) + FromAnyCode(st), Read(idx, T_ITER_STATE, 1) + FromAnyCode(ct),
                  IterStateSym(info), seed, step, locals, hidden);
  }

  // ----- Iterator options: boxing and unboxing -----

  /** Field `k` of the typed item in local `idx`. */
  function ReadItem(info: IterInfo, idx: nat, k: nat): (code: seq<Instr>) {
    Read(idx, IterOptionSym(info), 1) + [StructGet(IterItemSym(info), k)]
  }

  /** Field `k` of the typed state inside the typed item in local `idx`. */
  function ReadRest(info: IterInfo, idx: nat, k: nat): (code: seq<Instr>) {
    ReadItem(info, idx, 1) + [StructGet(IterStateSym(info), k)]
  }

  /** `emit_box_typed_iter_option_local`. */
  function BoxOptionCode(te: TypeEnv, info: IterInfo, idx: nat): (code: seq<Instr>) {
    Read(idx, IterOptionSym(info), 0) + [I32Eqz]
    + [If(EmptyVariant(OPTION),
          [I32Const(OPTION)] + [I32Const(1)] + (BoxItemCode(te, info, idx) + [ArrayNewFixed(T_ARRAY, 1)])
              + [StructNew(T_VARIANT)])]
  }

  function BoxItemCode(te: TypeEnv, info: IterInfo, idx: nat): (code: seq<Instr>) {
    (ReadItem(info, idx, 0) + ToAnyCode(YieldType(te, info)))
    + ((ReadRest(info, idx, 0) + ToAnyCode(SeedType(te, info)))
       + (ReadRest(info, idx, 1) + ToAnyCode(RefTo(StepClosureSym(info)))) + [StructNew(T_ITER_STATE)])
    + [StructNew(ITEM_RECORD)]
  }

  /** Field `k` of the erased item record inside the erased option in local `idx`. */
  function ReadRecord(idx: nat, k: nat): (code: seq<Instr>) {
    PayloadElem(idx, 0) + [RefCast(true, NamedHeap(ITEM_RECORD))] + [StructGet(ITEM_RECORD, k)]
  }

  function ReadRecordRest(idx: nat, k: nat): (code: seq<Instr>) { ReadRecord(idx, 1) + [StructGet(T_ITER_STATE, k)] }

  /** `emit_unbox_erased_iter_option_local`. */
  function UnboxOptionCode(te: TypeEnv, info: IterInfo, idx: nat): (code: seq<Instr>)
    requires CanUnbox(YieldType(te, info)) && CanUnbox(SeedType(te, info))
  {
    Read(idx, T_VARIANT, 1) + [I32Eqz]
    + [If([I32Const(0)] + [RefNull(NamedHeap(IterItemSym(info)))] + [StructNew(IterOptionSym(info))],
          [I32Const(1)] + UnboxItemCode(te, info, idx) + [StructNew(IterOptionSym(info))])]
  }

  function UnboxItemCode(te: TypeEnv, info: IterInfo, idx: nat): (code: seq<Instr>)
    requires CanUnbox(YieldType(te, info)) && CanUnbox(SeedType(te, info))
  {
    (ReadRecord(idx, 0) + FromAnyCode(YieldType(te, info)))
    + ((ReadRecordRest(idx, 0) + FromAnyCode(SeedType(te, info)))
       + (ReadRecordRest(idx, 1) + FromAnyCode(RefTo(StepClosureSym(info)))) + [StructNew(IterStateSym(info))])
    + [StructNew(IterItemSym(info))]
  }

  /** Follow one struct field further. */
  lemma {:induction false} GetYields(m: Module, a: seq<Instr>, sym: Sym, k: nat, locals: seq<Val>, hidden: set<nat>,
                                     w: Val)
    requires Yields(m, a, locals, hidden, w) && w.StructRef? && w.sym == sym && k < |w.fields|
    ensures Yields(m, a + [StructGet(sym, k)], locals, hidden, w.fields[k])
  {
    MapsGet(m, sym, k, w);
    YieldsMap(m, a, [StructGet(sym, k)], locals, hidden, w, w.fields[k]);
  }

  lemma {:induction false} ToAnyYields(m: Module, a: seq<Instr>, t: ValType, locals: seq<Val>, hidden: set<nat>, w: Val)
    requires RuntimeTypes(m.types) && Yields(m, a, locals, hidden, w) && HasType(m.types, w, t)
    ensures Yields(m, a + ToAnyCode(t), locals, hidden, Box(t, w))
  {
    BoxCodeBoxes(m, t, w);
    YieldsMap(m, a, ToAnyCode(t), locals, hidden, w, Box(t, w));
  }

  lemma {:induction false} FromAnyYields(m: Module, a: seq<Instr>, t: ValType, locals: seq<Val>, hidden: set<nat>,
                                         w: Val)
    requires RuntimeTypes(m.types) && CanUnbox(t) && HasType(m.types, w, t) && Yields(m, a, locals, hidden, Box(t, w))
    ensures Yields(m, a + FromAnyCode(t), locals, hidden, w)
  {
    UnboxCodeUnboxes(m, t, w);
    YieldsMap(m, a, FromAnyCode(t), locals, hidden, Box(t, w), w);
  }

  lemma {:induction false} BoxItemYields(m: Module, te: TypeEnv, info: IterInfo, idx: nat, step: Val, y: Val, s: Val,
                                         locals: seq<Val>, hidden: set<nat>)
    requires IterTypes(m.types, te, info) && ResultTyped(m.types, te, info, Yield(y, s)) && IsStepRef(info, step)
    requires idx < |locals| && idx !in hidden && locals[idx] == TypedOption(info, step, Yield(y, s))
    ensures Yields(m, BoxItemCode(te, info, idx), locals, hidden,
                   StructRef(ITEM_RECORD, [Box(YieldType(te, info), y), BoxedState(te, info, s, step)]))
  {
    var yt, st, ct := YieldType(te, info), SeedType(te, info), RefTo(StepClosureSym(info));
    var rest := TypedState(info, s, step);
    var item := StructRef(IterItemSym(info), [y, rest]);
    ReadYields(m, idx, IterOptionSym(info), 1, locals, hidden);
    GetYields(m, Read(idx, IterOptionSym(info), 1), IterItemSym(info), 0, locals, hidden, item);
    GetYields(m, Read(idx, IterOptionSym(info), 1), IterItemSym(info), 1, locals, hidden, item);
    GetYields(m, ReadItem(info, idx, 1), IterStateSym(info), 0, locals, hidden, rest);
    GetYields(m, ReadItem(info, idx, 1), IterStateSym(info), 1, locals, hidden, rest);
    ToAnyYields(m, ReadItem(info, idx, 0), yt, locals, hidden, y);
    ToAnyYields(m, ReadRest(info, idx, 0), st, locals, hidden, s);
    ToAnyYields(m, ReadRest(info, idx, 1), ct, locals, hidden, step);
    var a, b := ReadRest(info, idx, 0) + ToAnyCode(st), ReadRest(info, idx, 1) + ToAnyCode(ct);
    Struct2Yields(m, a, b, T_ITER_STATE, Box(st, s), step, locals, hidden);
    Struct2Yields(m, ReadItem(info, idx, 0) + ToAnyCode(yt), a + b + [StructNew(T_ITER_STATE)], ITEM_RECORD,
                  Box(yt, y), BoxedState(te, info, s, step), locals, hidden);
  }

  lemma {:induction false} UnboxItemYields(m: Module, te: TypeEnv, info: IterInfo, idx: nat, step: Val, y: Val,
                                           s: Val, locals: seq<Val>, hidden: set<nat>)
    requires IterTypes(m.types, te, info) && ResultTyped(m.types, te, info, Yield(y, s)) && IsStepRef(info, step)
    requires idx < |locals| && idx !in hidden && locals[idx] == BoxedOption(te, info, step, Yield(y, s))
    ensures Yields(m, UnboxItemCode(te, info, idx), locals, hidden,
                   StructRef(IterItemSym(info), [y, TypedState(info, s, step)]))
  {
    var yt, st, ct := YieldType(te, info), SeedType(te, info), RefTo(StepClosureSym(info));
    var rest := BoxedState(te, info, s, step);
    var item := StructRef(ITEM_RECORD, [Box(yt, y), rest]);
    PayloadElemYields(m, idx, 0, [item], locals, hidden);
    MapsCast(m, true, NamedHeap(ITEM_RECORD), item);
    YieldsMap(m, PayloadElem(idx, 0), [RefCast(true, NamedHeap(ITEM_RECORD))], locals, hidden, item, item);
    var rec := PayloadElem(idx, 0) + [RefCast(true, NamedHeap(ITEM_RECORD))];
    GetYields(m, rec, ITEM_RECORD, 0, locals, hidden, item);
    GetYields(m, rec, ITEM_RECORD, 1, locals, hidden, item);
    GetYields(m, ReadRecord(idx, 1), T_ITER_STATE, 0, locals, hidden, rest);
    GetYields(m, ReadRecord(idx, 1), T_ITER_STATE, 1, locals, hidden, rest);
    FromAnyYields(m, ReadRecord(idx, 0), yt, locals, hidden, y);
    FromAnyYields(m, ReadRecordRest(idx, 0), st, locals, hidden, s);
    FromAnyYields(m, ReadRecordRest(idx, 1), ct, locals, hidden, step);
    var a, b := ReadRecordRest(idx, 0) + FromAnyCode(st), ReadRecordRest(idx, 1) + FromAnyCode(ct);
    Struct2Yields(m, a, b, IterStateSym(info), s, step, locals, hidden);
    Struct2Yields(m, ReadRecord(idx, 0) + FromAnyCode(yt), a + b + [StructNew(IterStateSym(info))], IterItemSym(info),
                  y, TypedState(info, s, step), locals, hidden);
  }

  lemma {:induction false} BoxOptionYields(m: Module, te: TypeEnv, info: IterInfo, idx: nat, step: Val, r: StepResult,
                                           locals: seq<Val>, hidden: set<nat>)
    requires IterTypes(m.types, te, info) && ResultTyped(m.types, te, info, r) && IsStepRef(info, step)
    requires idx < |locals| && idx !in hidden && locals[idx] == TypedOption(info, step, r)
    ensures Yields(m, BoxOptionCode(te, info, idx), locals, hidden, BoxedOption(te, info, step, r))
  {
    var variant := if r.Done? then 0 else 1;
    var payload := BoxItemCode(te, info, idx) + [ArrayNewFixed(T_ARRAY, 1)];
    var some := [I32Const(OPTION)] + [I32Const(1)] + payload + [StructNew(T_VARIANT)];
    ReadYields(m, idx, IterOptionSym(info), 0, locals, hidden);
    MapsEqz(m, variant);
    YieldsMap(m, Read(idx, IterOptionSym(info), 0), [I32Eqz], locals, hidden, I32Val(variant),
              I32Val(BoolInt(variant == 0)));
    if r.Done? {
      EmptyVariantYields(m, OPTION, locals, hidden);
    } else {
      var item := StructRef(ITEM_RECORD, [Box(YieldType(te, info), r.value), BoxedState(te, info, r.seed, step)]);
      BoxItemYields(m, te, info, idx, step, r.value, r.seed, locals, hidden);
      PushesOne(m, BoxItemCode(te, info, idx), locals, hidden, item);
      YieldsArray(m, BoxItemCode(te, info, idx), T_ARRAY, locals, hidden, [item]);
      YieldsConst(m, 1, locals, hidden);
      Struct3Yields(m, OPTION, [I32Const(1)], payload, T_VARIANT, I32Val(1), ArrayRef(T_ARRAY, [item]), locals, hidden);
    }
    YieldsIf(m, Read(idx, IterOptionSym(info), 0) + [I32Eqz], EmptyVariant(OPTION), some, locals, hidden,
             BoolInt(variant == 0),
             BoxedOption(te, info, step, r));
  }

  lemma {:induction false} NullYields(m: Module, heap: HeapType, locals: seq<Val>, hidden: set<nat>)
    ensures Yields(m, [RefNull(heap)], locals, hidden, NullRef)
  {
    forall s: Stack, ls: seq<Val> | AgreeOutside(locals, ls, hidden)
      ensures Exec(m, [RefNull(heap)], State(s, ls)) == Next(State(Push(NullRef, s), ls))
    {
      ExecOne(m, RefNull(heap), State(s, ls));
    }
  }

  lemma {:induction false} UnboxOptionYields(m: Module, te: TypeEnv, info: IterInfo, idx: nat, step: Val,
                                             r: StepResult, locals: seq<Val>, hidden: set<nat>)
    requires IterTypes(m.types, te, info) && ResultTyped(m.types, te, info, r) && IsStepRef(info, step)
    requires idx < |locals| && idx !in hidden && locals[idx] == BoxedOption(te, info, step, r)
    ensures Yields(m, UnboxOptionCode(te, info, idx), locals, hidden, TypedOption(info, step, r))
  {
    var sym := IterOptionSym(info);
    var variant := if r.Done? then 0 else 1;
    var none := [I32Const(0)] + [RefNull(NamedHeap(IterItemSym(info)))] + [StructNew(sym)];
    var some := [I32Const(1)] + UnboxItemCode(te, info, idx) + [StructNew(sym)];
    ReadYields(m, idx, T_VARIANT, 1, locals, hidden);
    MapsEqz(m, variant);
    YieldsMap(m, Read(idx, T_VARIANT, 1), [I32Eqz], locals, hidden, I32Val(variant), I32Val(BoolInt(variant == 0)));
    YieldsConst(m, variant, locals, hidden);
    if r.Done? {
      NullYields(m, NamedHeap(IterItemSym(info)), locals, hidden);
      Struct2Yields(m, [I32Const(0)], [RefNull(NamedHeap(IterItemSym(info)))], sym, I32Val(0), NullRef, locals, hidden);
    } else {
      UnboxItemYields(m, te, info, idx, step, r.value, r.seed, locals, hidden);
      Struct2Yields(m, [I32Const(1)], UnboxItemCode(te, info, idx), sym, I32Val(1),
                    StructRef(IterItemSym(info), [r.value, TypedState(info, r.seed, step)]), locals, hidden);
    }
    YieldsIf(m, Read(idx, T_VARIANT, 1) + [I32Eqz], none, some, locals, hidden, BoolInt(variant == 0),
             TypedOption(info, step, r));
  }

  // ----- The universal helper -----

  /** Field `k` of the step closure of the universal state in local 4. */
  function StepField(k: nat): (code: seq<Instr>) {
    Read(4, T_ITER_STATE, 1) + [RefCast(false, NamedHeap(T_CLOSURE))] + [StructGet(T_CLOSURE, k)]
  }

  /** Call the step closure on the seed. Locals: 0 iterator, 1 step result, 2 variant id, 3 temporary, 4 state. */
  function UniversalCall(): (code: seq<Instr>) {
    (StepField(1) + (Read(4, T_ITER_STATE, 0) + [ArrayNewFixed(T_ARRAY, 1)])) + StepField(0) + [CallRef(T_CLOSURE_FUNC)]
    + [RefCast(false, NamedHeap(T_VARIANT))]
  }

  function TempElem(i: nat): (code: seq<Instr>) {
    [LocalGet(3)] + [RefCast(true, NamedHeap(T_ARRAY))] + [I32Const(i), ArrayGet(T_ARRAY)]
  }

  function UniversalItem(): (code: seq<Instr>) {
    TempElem(0) + (TempElem(1) + Read(4, T_ITER_STATE, 1) + [StructNew(T_ITER_STATE)]) + [StructNew(ITEM_RECORD)]
  }

  function UniversalSome(): (code: seq<Instr>) {
    (Read(1, T_VARIANT, 2) + [LocalSet(3)]) + ((UniversalItem() + [LocalSet(3)])
    + ([I32Const(OPTION)] + [I32Const(1)] + ([LocalGet(3)] + [ArrayNewFixed(T_ARRAY, 1)]) + [StructNew(T_VARIANT)]))
  }

  /** `emit_iterator_next_helper`. */
  function UniversalNext(): (code: seq<Instr>) {
    ([LocalGet(0)] + [RefCast(true, NamedHeap(T_ITER_STATE))] + [LocalSet(4)])
    + ((UniversalCall() + [LocalSet(1)])
    + ((Read(1, T_VARIANT, 1) + [LocalSet(2)])
    + ([LocalGet(2)] + [I32Eqz] + [If(EmptyVariant(OPTION), UniversalSome())] + [Return])))
  }

  function UniversalFrame(it: Val): (locals: seq<Val>) { [it, NullRef, I32Val(0), NullRef, NullRef] }

  // ----- The typed helper -----

  function TypedStepField(info: IterInfo, k: nat): (code: seq<Instr>) {
    Read(4, IterStateSym(info), 1) + [RefCast(false, NamedHeap(StepClosureSym(info)))]
        + [StructGet(StepClosureSym(info), k)]
  }

  function TypedCall(info: IterInfo): (code: seq<Instr>) {
    (TypedStepField(info, 1) + Read(4, IterStateSym(info), 0)) + TypedStepField(info, 2)
    + [CallRef(ClosureFuncSym([info.seedTy], UnfoldStepType(info.yieldTy, info.seedTy)))]
    + [RefCast(true, NamedHeap(T_VARIANT))]
  }

  function TypedItem(info: IterInfo): (code: seq<Instr>) {
    var step := UnfoldStepSym(info.yieldTy, info.seedTy);
    Read(1, step, 1) + (Read(1, step, 2) + Read(4, IterStateSym(info), 1) + [StructNew(IterStateSym(info))])
    + [StructNew(IterItemSym(info))]
  }

  function TypedSome(info: IterInfo): (code: seq<Instr>) {
    (TypedItem(info) + [LocalSet(3)]) + ([I32Const(1)] + [LocalGet(3)] + [StructNew(IterOptionSym(info))])
  }

  function TypedNone(info: IterInfo): (code: seq<Instr>) {
    [I32Const(0)] + [RefNull(NamedHeap(IterItemSym(info)))] + [StructNew(IterOptionSym(info))]
  }

  /** `emit_typed_iterator_next_helper`; local 5 holds the erased step result. */
  function TypedNext(te: TypeEnv, info: IterInfo): (code: seq<Instr>)
    requires CanUnbox(YieldType(te, info)) && CanUnbox(SeedType(te, info))
  {
    ([LocalGet(0)] + [LocalSet(4)])
    + ((TypedCall(info) + [LocalSet(5)])
    + ((UnboxStepCode(te, info, 5) + [LocalSet(1)])
    + ((Read(1, UnfoldStepSym(info.yieldTy, info.seedTy), 0) + [LocalSet(2)])
    + ([LocalGet(2)] + [I32Eqz] + [If(TypedNone(info), TypedSome(info))] + [Return]))))
  }

  function TypedFrame(it: Val): (locals: seq<Val>) { [it, NullRef, I32Val(0), NullRef, NullRef, NullRef] }

  // ----- Running a helper -----

  /** The value a function body returns, if it does. */
  function ReturnValue(o: Outcome): (r: Option<Val>) {
    if o.Returned? && o.st.stack.Push? then Some(o.st.stack.top) else None
  }

  /** `a; b`, where `a` stores a value in local `k`. */
  lemma {:induction false} StoreThen(m: Module, a: seq<Instr>, k: nat, b: seq<Instr>, v: Val, s: Stack, ls: seq<Val>)
    requires Yields(m, a, ls, {}, v) && k < |ls|
    ensures Exec(m, (a + [LocalSet(k)]) + b, State(s, ls)) == Exec(m, b, State(s, ls[k := v]))
  {
    ExecStore(m, a, k, ls, {}, v, s, ls);
    ExecConcat(m, a + [LocalSet(k)], b, State(s, ls));
  }

  /** The last statement of both helpers: branch on the variant id and return what the branch leaves. */
  lemma {:induction false} BranchReturns(m: Module, k: nat, n: int, t: seq<Instr>, e: seq<Instr>, r: Val, ls: seq<Val>)
    requires k < |ls| && ls[k] == I32Val(n)
    requires var o := Exec(m, if n == 0 then t else e, State(Empty, ls)); o.Next? && o.st.stack == Push(r, Empty)
    ensures ReturnValue(Exec(m, [LocalGet(k)] + [I32Eqz] + [If(t, e)] + [Return], State(Empty, ls))) == Some(r)
  {
    var cond := [LocalGet(k)] + [I32Eqz];
    YieldsLocal(m, k, ls, {});
    MapsEqz(m, n);
    YieldsMap(m, [LocalGet(k)], [I32Eqz], ls, {}, I32Val(n), I32Val(BoolInt(n == 0)));
    assert AgreeOutside(ls, ls, {});
    var st := State(Empty, ls);
    ExecConcat(m, cond + [If(t, e)], [Return], st);
    ExecConcat(m, cond, [If(t, e)], st);
    ExecOne(m, If(t, e), State(Push(I32Val(BoolInt(n == 0)), Empty), ls));
    var o := Exec(m, if n == 0 then t else e, st);
    ExecOne(m, Return, o.st);
  }

  lemma {:induction false} UniversalCallYields(m: Module, te: TypeEnv, info: IterInfo, seed: Val, c: Val,
                                               f: Val -> StepResult, ls: seq<Val>)
    requires IterTypes(m.types, te, info) && StepClosure(m, te, info, c, f)
             && HasType(m.types, seed, SeedType(te, info))
    requires |ls| == 5 && ls[4] == BoxedState(te, info, seed, c)
    ensures Yields(m, UniversalCall(), ls, {}, BoxedStep(te, info, f(seed)))
  {
    var arg := Box(SeedType(te, info), seed);
    ReadYields(m, 4, T_ITER_STATE, 1, ls, {});
    MapsCast(m, false, NamedHeap(T_CLOSURE), c);
    YieldsMap(m, Read(4, T_ITER_STATE, 1), [RefCast(false, NamedHeap(T_CLOSURE))], ls, {}, c, c);
    var clo := Read(4, T_ITER_STATE, 1) + [RefCast(false, NamedHeap(T_CLOSURE))];
    MapsGet(m, T_CLOSURE, 1, c);
    YieldsMap(m, clo, [StructGet(T_CLOSURE, 1)], ls, {}, c, c.fields[1]);
    MapsGet(m, T_CLOSURE, 0, c);
    YieldsMap(m, clo, [StructGet(T_CLOSURE, 0)], ls, {}, c, c.fields[0]);
    ReadYields(m, 4, T_ITER_STATE, 0, ls, {});
    PushesOne(m, Read(4, T_ITER_STATE, 0), ls, {}, arg);
    YieldsArray(m, Read(4, T_ITER_STATE, 0), T_ARRAY, ls, {}, [arg]);
    PushesOne(m, StepField(1), ls, {}, c.fields[1]);
    var args := Read(4, T_ITER_STATE, 0) + [ArrayNewFixed(T_ARRAY, 1)];
    PushesThen(m, StepField(1), args, ls, {}, [c.fields[1]], ArrayRef(T_ARRAY, [arg]));
    var vs := [c.fields[1], ArrayRef(T_ARRAY, [arg])];
    assert [c.fields[1]] + [ArrayRef(T_ARRAY, [arg])] == vs;
    YieldsCallRef(m, StepField(1) + args, StepField(0), T_CLOSURE_FUNC, c.fields[0].sym, ls, {}, vs,
                  BoxedStep(te, info, f(seed)));
    MapsCast(m, false, NamedHeap(T_VARIANT), BoxedStep(te, info, f(seed)));
    YieldsMap(m, (StepField(1) + args) + StepField(0) + [CallRef(T_CLOSURE_FUNC)],
              [RefCast(false, NamedHeap(T_VARIANT))], ls, {},
              BoxedStep(te, info, f(seed)), BoxedStep(te, info, f(seed)));
  }

  lemma {:induction false} TempElemYields(m: Module, i: nat, payload: seq<Val>, ls: seq<Val>)
    requires |ls| == 5 && ls[3] == ArrayRef(T_ARRAY, payload) && i < |payload|
    ensures Yields(m, TempElem(i), ls, {}, payload[i])
  {
    YieldsLocal(m, 3, ls, {});
    MapsCast(m, true, NamedHeap(T_ARRAY), ls[3]);
    YieldsMap(m, [LocalGet(3)], [RefCast(true, NamedHeap(T_ARRAY))], ls, {}, ls[3], ls[3]);
    MapsElem(m, T_ARRAY, i, ls[3]);
    YieldsMap(m, [LocalGet(3)] + [RefCast(true, NamedHeap(T_ARRAY))], [I32Const(i), ArrayGet(T_ARRAY)], ls, {}, ls[3],
              payload[i]);
  }

  lemma {:induction false} UniversalItemYields(m: Module, te: TypeEnv, info: IterInfo, seed: Val, c: Val, a: Val,
                                               b: Val, ls: seq<Val>)
    requires IterTypes(m.types, te, info)
    requires |ls| == 5 && ls[3] == ArrayRef(T_ARRAY, [a, b]) && ls[4] == BoxedState(te, info, seed, c)
    ensures Yields(m, UniversalItem(), ls, {}, StructRef(ITEM_RECORD, [a, StructRef(T_ITER_STATE, [b, c])]))
  {
    TempElemYields(m, 0, [a, b], ls);
    TempElemYields(m, 1, [a, b], ls);
    ReadYields(m, 4, T_ITER_STATE, 1, ls, {});
    Struct2Yields(m, TempElem(1), Read(4, T_ITER_STATE, 1), T_ITER_STATE, b, c, ls, {});
    Struct2Yields(m, TempElem(0), TempElem(1) + Read(4, T_ITER_STATE, 1) + [StructNew(T_ITER_STATE)], ITEM_RECORD,
                  a, StructRef(T_ITER_STATE, [b, c]), ls, {});
  }

  lemma {:induction false} UniversalSomeRuns(m: Module, te: TypeEnv, info: IterInfo, seed: Val, c: Val, y: Val,
                                             s: Val, ls: seq<Val>)
    requires IterTypes(m.types, te, info)
    requires |ls| == 5 && ls[1] == BoxedStep(te, info, Yield(y, s)) && ls[4] == BoxedState(te, info, seed, c)
    ensures var o := Exec(m, UniversalSome(), State(Empty, ls));
            o.Next? && o.st.stack == Push(BoxedOption(te, info, c, Yield(y, s)), Empty)
  {
    var a, b := Box(YieldType(te, info), y), Box(SeedType(te, info), s);
    var arr := ArrayRef(T_ARRAY, [a, b]);
    var item := StructRef(ITEM_RECORD, [a, StructRef(T_ITER_STATE, [b, c])]);
    var some := [I32Const(OPTION)] + [I32Const(1)] + ([LocalGet(3)] + [ArrayNewFixed(T_ARRAY, 1)])
        + [StructNew(T_VARIANT)];
    ReadYields(m, 1, T_VARIANT, 2, ls, {});
    StoreThen(m, Read(1, T_VARIANT, 2), 3, (UniversalItem() + [LocalSet(3)]) + some, arr, Empty, ls);
    var ls1 := ls[3 := arr];
    UniversalItemYields(m, te, info, seed, c, a, b, ls1);
    StoreThen(m, UniversalItem(), 3, some, item, Empty, ls1);
    var ls2 := ls1[3 := item];
    YieldsLocal(m, 3, ls2, {});
    PushesOne(m, [LocalGet(3)], ls2, {}, item);
    YieldsArray(m, [LocalGet(3)], T_ARRAY, ls2, {}, [item]);
    YieldsConst(m, 1, ls2, {});
    Struct3Yields(m, OPTION, [I32Const(1)], [LocalGet(3)] + [ArrayNewFixed(T_ARRAY, 1)], T_VARIANT, I32Val(1),
                  ArrayRef(T_ARRAY, [item]), ls2, {});
    assert AgreeOutside(ls2, ls2, {});
    assert Exec(m, some, State(Empty, ls2)) == Next(State(Push(BoxedOption(te, info, c, Yield(y, s)), Empty), ls2));
  }

  /** The universal helper, run on a boxed iterator state, returns the boxed option of one step. */
  lemma {:induction false} UniversalNextReturns(m: Module, te: TypeEnv, info: IterInfo, seed: Val, c: Val,
                                                f: Val -> StepResult)
    requires IterTypes(m.types, te, info) && StepClosure(m, te, info, c, f)
             && HasType(m.types, seed, SeedType(te, info))
    ensures ReturnValue(Exec(m, UniversalNext(), State(Empty, UniversalFrame(BoxedState(te, info, seed, c)))))
         == Some(BoxedOption(te, info, c, f(seed)))
  {
    var it, step := BoxedState(te, info, seed, c), BoxedStep(te, info, f(seed));
    var variant := if f(seed).Done? then 0 else 1;
    var ls0 := UniversalFrame(it);
    var p4 := [LocalGet(2)] + [I32Eqz] + [If(EmptyVariant(OPTION), UniversalSome())] + [Return];
    var p3 := (Read(1, T_VARIANT, 1) + [LocalSet(2)]) + p4;
    var p2 := (UniversalCall() + [LocalSet(1)]) + p3;
    YieldsLocal(m, 0, ls0, {});
    MapsCast(m, true, NamedHeap(T_ITER_STATE), it);
    YieldsMap(m, [LocalGet(0)], [RefCast(true, NamedHeap(T_ITER_STATE))], ls0, {}, it, it);
    StoreThen(m, [LocalGet(0)] + [RefCast(true, NamedHeap(T_ITER_STATE))], 4, p2, it, Empty, ls0);
    var ls1 := ls0[4 := it];
    UniversalCallYields(m, te, info, seed, c, f, ls1);
    StoreThen(m, UniversalCall(), 1, p3, step, Empty, ls1);
    var ls2 := ls1[1 := step];
    ReadYields(m, 1, T_VARIANT, 1, ls2, {});
    StoreThen(m, Read(1, T_VARIANT, 1), 2, p4, I32Val(variant), Empty, ls2);
    var ls3 := ls2[2 := I32Val(variant)];
    UniversalTail(m, te, info, seed, c, f(seed), ls3);
  }

  lemma {:induction false} UniversalTail(m: Module, te: TypeEnv, info: IterInfo, seed: Val, c: Val, r: StepResult,
                                         ls: seq<Val>)
    requires IterTypes(m.types, te, info)
    requires |ls| == 5 && ls[1] == BoxedStep(te, info, r) && ls[2] == I32Val(if r.Done? then 0 else 1)
    requires ls[4] == BoxedState(te, info, seed, c)
    ensures ReturnValue(Exec(m, [LocalGet(2)] + [I32Eqz] + [If(EmptyVariant(OPTION), UniversalSome())] + [Return],
                             State(Empty, ls)))
         == Some(BoxedOption(te, info, c, r))
  {
    if r.Done? {
      EmptyVariantYields(m, OPTION, ls, {});
      assert AgreeOutside(ls, ls, {});
      assert Exec(m, EmptyVariant(OPTION), State(Empty, ls)) == Next(State(Push(Variant(OPTION, 0, []), Empty), ls));
    } else {
      UniversalSomeRuns(m, te, info, seed, c, r.value, r.seed, ls);
    }
    BranchReturns(m, 2, if r.Done? then 0 else 1, EmptyVariant(OPTION), UniversalSome(), BoxedOption(te, info, c, r),
                  ls);
  }

  lemma {:induction false} TypedCallYields(m: Module, te: TypeEnv, info: IterInfo, seed: Val, c: Val,
                                           f: Val -> StepResult, ls: seq<Val>)
    requires IterTypes(m.types, te, info) && StepClosure(m, te, info, c, f)
             && HasType(m.types, seed, SeedType(te, info))
    requires |ls| == 6 && ls[4] == TypedState(info, seed, c)
    ensures Yields(m, TypedCall(info), ls, {}, BoxedStep(te, info, f(seed)))
  {
    var sym, csym := IterStateSym(info), StepClosureSym(info);
    var fsym := ClosureFuncSym([info.seedTy], UnfoldStepType(info.yieldTy, info.seedTy));
    ReadYields(m, 4, sym, 1, ls, {});
    MapsCast(m, false, NamedHeap(csym), c);
    YieldsMap(m, Read(4, sym, 1), [RefCast(false, NamedHeap(csym))], ls, {}, c, c);
    var clo := Read(4, sym, 1) + [RefCast(false, NamedHeap(csym))];
    GetYields(m, clo, csym, 1, ls, {}, c);
    GetYields(m, clo, csym, 2, ls, {}, c);
    ReadYields(m, 4, sym, 0, ls, {});
    PushesOne(m, TypedStepField(info, 1), ls, {}, c.fields[1]);
    PushesThen(m, TypedStepField(info, 1), Read(4, sym, 0), ls, {}, [c.fields[1]], seed);
    assert [c.fields[1]] + [seed] == [c.fields[1], seed];
    var args := TypedStepField(info, 1) + Read(4, sym, 0);
    YieldsCallRef(m, args, TypedStepField(info, 2), fsym, c.fields[2].sym, ls, {}, [c.fields[1], seed],
                  BoxedStep(te, info, f(seed)));
    MapsCast(m, true, NamedHeap(T_VARIANT), BoxedStep(te, info, f(seed)));
    YieldsMap(m, args + TypedStepField(info, 2) + [CallRef(fsym)], [RefCast(true, NamedHeap(T_VARIANT))], ls, {},
              BoxedStep(te, info, f(seed)), BoxedStep(te, info, f(seed)));
  }

  lemma {:induction false} TypedSomeRuns(m: Module, te: TypeEnv, info: IterInfo, seed: Val, c: Val, y: Val, s: Val,
                                         ls: seq<Val>)
    requires IterTypes(m.types, te, info)
    requires |ls| == 6 && ls[1] == TypedStep(te, info, Yield(y, s)) && ls[4] == TypedState(info, seed, c)
    ensures var o := Exec(m, TypedSome(info), State(Empty, ls));
            o.Next? && o.st.stack == Push(TypedOption(info, c, Yield(y, s)), Empty)
  {
    var step, sym := UnfoldStepSym(info.yieldTy, info.seedTy), IterStateSym(info);
    var rest := TypedState(info, s, c);
    var item := StructRef(IterItemSym(info), [y, rest]);
    var some := [I32Const(1)] + [LocalGet(3)] + [StructNew(IterOptionSym(info))];
    ReadYields(m, 1, step, 1, ls, {});
    ReadYields(m, 1, step, 2, ls, {});
    ReadYields(m, 4, sym, 1, ls, {});
    Struct2Yields(m, Read(1, step, 2), Read(4, sym, 1), sym, s, c, ls, {});
    Struct2Yields(m, Read(1, step, 1), Read(1, step, 2) + Read(4, sym, 1) + [StructNew(sym)], IterItemSym(info), y,
                  rest, ls, {});
    StoreThen(m, TypedItem(info), 3, some, item, Empty, ls);
    var ls1 := ls[3 := item];
    YieldsConst(m, 1, ls1, {});
    YieldsLocal(m, 3, ls1, {});
    Struct2Yields(m, [I32Const(1)], [LocalGet(3)], IterOptionSym(info), I32Val(1), item, ls1, {});
    assert AgreeOutside(ls1, ls1, {});
    assert Exec(m, some, State(Empty, ls1)) == Next(State(Push(TypedOption(info, c, Yield(y, s)), Empty), ls1));
  }

  lemma {:induction false} TypedTail(m: Module, te: TypeEnv, info: IterInfo, seed: Val, c: Val, r: StepResult,
                                     ls: seq<Val>)
    requires IterTypes(m.types, te, info)
    requires |ls| == 6 && ls[1] == TypedStep(te, info, r) && ls[2] == I32Val(if r.Done? then 0 else 1)
    requires ls[4] == TypedState(info, seed, c)
    ensures ReturnValue(Exec(m, [LocalGet(2)] + [I32Eqz] + [If(TypedNone(info), TypedSome(info))] + [Return],
                             State(Empty, ls)))
         == Some(TypedOption(info, c, r))
  {
    if r.Done? {
      YieldsConst(m, 0, ls, {});
      NullYields(m, NamedHeap(IterItemSym(info)), ls, {});
      Struct2Yields(m, [I32Const(0)], [RefNull(NamedHeap(IterItemSym(info)))], IterOptionSym(info), I32Val(0),
                    NullRef, ls, {});
      assert AgreeOutside(ls, ls, {});
      assert Exec(m, TypedNone(info), State(Empty, ls)) == Next(State(Push(TypedOption(info, c, r), Empty), ls));
    } else {
      TypedSomeRuns(m, te, info, seed, c, r.value, r.seed, ls);
    }
    BranchReturns(m, 2, if r.Done? then 0 else 1, TypedNone(info), TypedSome(info), TypedOption(info, c, r), ls);
  }

  /** The typed helper, run on a typed iterator state, returns the typed option of one step. */
  lemma {:induction false} TypedNextReturns(m: Module, te: TypeEnv, info: IterInfo, seed: Val, c: Val,
                                            f: Val -> StepResult)
    requires IterTypes(m.types, te, info) && StepClosure(m, te, info, c, f)
             && HasType(m.types, seed, SeedType(te, info))
    ensures ReturnValue(Exec(m, TypedNext(te, info), State(Empty, TypedFrame(TypedState(info, seed, c)))))
         == Some(TypedOption(info, c, f(seed)))
  {
    var it, r := TypedState(info, seed, c), f(seed);
    var variant := if r.Done? then 0 else 1;
    var step := UnfoldStepSym(info.yieldTy, info.seedTy);
    var ls0 := TypedFrame(it);
    var p5 := [LocalGet(2)] + [I32Eqz] + [If(TypedNone(info), TypedSome(info))] + [Return];
    var p4 := (Read(1, step, 0) + [LocalSet(2)]) + p5;
    var p3 := (UnboxStepCode(te, info, 5) + [LocalSet(1)]) + p4;
    var p2 := (TypedCall(info) + [LocalSet(5)]) + p3;
    YieldsLocal(m, 0, ls0, {});
    StoreThen(m, [LocalGet(0)], 4, p2, it, Empty, ls0);
    var ls1 := ls0[4 := it];
    TypedCallYields(m, te, info, seed, c, f, ls1);
    StoreThen(m, TypedCall(info), 5, p3, BoxedStep(te, info, r), Empty, ls1);
    var ls2 := ls1[5 := BoxedStep(te, info, r)];
    UnboxStepYields(m, te, info, 5, r, ls2, {});
    StoreThen(m, UnboxStepCode(te, info, 5), 1, p4, TypedStep(te, info, r), Empty, ls2);
    var ls3 := ls2[1 := TypedStep(te, info, r)];
    ReadYields(m, 1, step, 0, ls3, {});
    StoreThen(m, Read(1, step, 0), 2, p5, I32Val(variant), Empty, ls3);
    TypedTail(m, te, info, seed, c, r, ls3[2 := I32Val(variant)]);
  }
}
