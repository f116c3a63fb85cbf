/**
  Iterators built by `Iterator.unfold`: the universal `next` helper, the typed one, and the conversions between the
  typed and the erased form of iterator states, unfold steps and iterator options.
*/
module Iterators {
  import opened Wasm
  import opened Mono
  import opened CodeCalculus
  import opened Coercions

  // ----- Values -----

  /** The outcome of one application of a step function, with typed components. */
  datatype StepResult = Done | Yield(value: Val, seed: Val)

  function YieldType(te: TypeEnv, info: IterInfo): (t: ValType) { ValTypeOf(te, info.yieldTy) }

  function SeedType(te: TypeEnv, info: IterInfo): (t: ValType) { ValTypeOf(te, info.seedTy) }

  const ITEM_RECORD: Sym := RecordSym(ITER_ITEM)

  function Variant(typeId: nat, variant: nat, payload: seq<Val>): (v: Val) {
    StructRef(T_VARIANT, [I32Val(typeId), I32Val(variant), ArrayRef(T_ARRAY, payload)])
  }

  /** The erased unfold step. */
  function BoxedStep(te: TypeEnv, info: IterInfo, r: StepResult): (v: Val) {
    match r
    case Done => Variant(UNFOLD_STEP, 0, [])
    case Yield(y, s) => Variant(UNFOLD_STEP, 1, [Box(YieldType(te, info), y), Box(SeedType(te, info), s)])
  }

  function DefaultVal(t: ValType): (v: Val) {
    match t
    case I32 => I32Val(0)
    case I64 => I64Val(0)
    case F64 => F64Val(0.0)
    case I31ref => I31Ref(0)
    case _ => NullRef
  }

  /** The typed unfold step as the compiler builds it: unused slots hold the default of their type. */
  function TypedStep(te: TypeEnv, info: IterInfo, r: StepResult): (v: Val) {
    var sym := UnfoldStepSym(info.yieldTy, info.seedTy);
    match r
    case Done => StructRef(sym, [I32Val(0), DefaultVal(YieldType(te, info)), DefaultVal(SeedType(te, info))])
    case Yield(y, s) => StructRef(sym, [I32Val(1), y, s])
  }

  function TypedState(info: IterInfo, seed: Val, step: Val): (v: Val) { StructRef(IterStateSym(info), [seed, step]) }

  function BoxedState(te: TypeEnv, info: IterInfo, seed: Val, step: Val): (v: Val) {
    StructRef(T_ITER_STATE, [Box(SeedType(te, info), seed), step])
  }

  /** The typed result of `next` on an iterator with step closure `step`. */
  function TypedOption(info: IterInfo, step: Val, r: StepResult): (v: Val) {
    match r
    case Done => StructRef(IterOptionSym(info), [I32Val(0), NullRef])
    case Yield(y, s) =>
      StructRef(IterOptionSym(info), [I32Val(1), StructRef(IterItemSym(info), [y, TypedState(info, s, step)])])
  }

  function BoxedOption(te: TypeEnv, info: IterInfo, step: Val, r: StepResult): (v: Val) {
    match r
    case Done => Variant(OPTION, 0, [])
    case Yield(y, s) => Variant(OPTION, 1, [StructRef(ITEM_RECORD,
                                                      [Box(YieldType(te, info), y), BoxedState(te, info, s, step)])])
  }

  // ----- Assumptions -----

  /** The linked module declares every type the iterator code names. */
  predicate IterTypes(types: map<Sym, StructDef>, te: TypeEnv, info: IterInfo) {
    RuntimeTypes(types)
    && UnfoldStepSym(info.yieldTy, info.seedTy) in types
    && types[UnfoldStepSym(info.yieldTy, info.seedTy)] == UnfoldStepDef(te, info.yieldTy, info.seedTy)
    && IterStateSym(info) in types && types[IterStateSym(info)] == IterStateDef(te, info)
    && IterItemSym(info) in types && types[IterItemSym(info)] == IterItemDef(te, info)
    && IterOptionSym(info) in types && types[IterOptionSym(info)] == IterOptionDef(info)
    && ITEM_RECORD in types && |types[ITEM_RECORD].fields| == 2
    && StepClosureSym(info) in types
    && types[StepClosureSym(info)] == ClosureStructDef([info.seedTy], UnfoldStepType(info.yieldTy, info.seedTy))
    && CanUnbox(YieldType(te, info)) && CanUnbox(SeedType(te, info))
  }

  predicate ResultTyped(types: map<Sym, StructDef>, te: TypeEnv, info: IterInfo, r: StepResult) {
    r.Yield? ==> HasType(types, r.value, YieldType(te, info)) && HasType(types, r.seed, SeedType(te, info))
  }

  /**
    `c` is a typed closure for the step function `f`: its universal entry takes an array with the boxed seed, its
    typed entry takes the seed, and both return the erased step.
  */
  ghost predicate StepClosure(m: Module, te: TypeEnv, info: IterInfo, c: Val, f: Val -> StepResult) {
    c.StructRef? && c.sym == StepClosureSym(info) && |c.fields| == 3 && c.fields[0].FuncRef? && c.fields[2].FuncRef?
    && (var u, e, t := m.funcs(c.fields[0].sym), c.fields[1], m.funcs(c.fields[2].sym);
        u.Some? && u.value.arity == 2 && t.Some? && t.value.arity == 2
        && forall s: Val | HasType(m.types, s, SeedType(te, info)) ::
             ResultTyped(m.types, te, info, f(s))
             && u.value.run([e, ArrayRef(T_ARRAY, [Box(SeedType(te, info), s)])]) == Returns(BoxedStep(te, info, f(s)))
             && t.value.run([e, s]) == Returns(BoxedStep(te, info, f(s))))
  }

  // ----- Code shared by helpers and conversions -----

  /** `emit_default_value_instrs`. */
  function DefaultCode(t: ValType): (code: seq<Instr>) {
    match t
    case I32 => [I32Const(0)]
    case I64 => [I64Const(0)]
    case F64 => [F64Const(0.0)]
    case I31ref => [I32Const(0), RefI31]
    case Ref(_, heap) => [RefNull(heap)]
    case Funcref => [RefNull(FuncHeap)]
    case Anyref => [RefNull(NoneHeap)]
  }

  function EmptyVariant(typeId: nat): (code: seq<Instr>) {
    [I32Const(typeId)] + [I32Const(0)] + [ArrayNewFixed(T_ARRAY, 0)] + [StructNew(T_VARIANT)]
  }

  /** Field `k` of the struct in local `idx`. */
  function Read(idx: nat, sym: Sym, k: nat): (code: seq<Instr>) { [LocalGet(idx)] + [StructGet(sym, k)] }

  /** Element `i` of the payload array of the variant in local `idx`. */
  function PayloadElem(idx: nat, i: nat): (code: seq<Instr>) {
    Read(idx, T_VARIANT, 2) + [RefCast(true, NamedHeap(T_ARRAY))] + [I32Const(i), ArrayGet(T_ARRAY)]
  }

  /** Rebuild the typed unfold step from the erased one in local `idx`. */
  function UnboxStepCode(te: TypeEnv, info: IterInfo, idx: nat): (code: seq<Instr>)
    requires CanUnbox(YieldType(te, info)) && CanUnbox(SeedType(te, info))
  {
    var sym := UnfoldStepSym(info.yieldTy, info.seedTy);
    Read(idx, T_VARIANT, 1) + [I32Eqz]
    + [If([I32Const(0)] + DefaultCode(YieldType(te, info)) + DefaultCode(SeedType(te, info)) + [StructNew(sym)],
          [I32Const(1)] + (PayloadElem(idx, 0) + FromAnyCode(YieldType(te, info)))
          + (PayloadElem(idx, 1) + FromAnyCode(SeedType(te, info))) + [StructNew(sym)])]
  }

  /** `emit_box_typed_unfold_step_local`. */
  function BoxStepCode(te: TypeEnv, info: IterInfo, idx: nat): (code: seq<Instr>) {
    var sym := UnfoldStepSym(info.yieldTy, info.seedTy);
    Read(idx, sym, 0) + [I32Eqz]
    + [If(EmptyVariant(UNFOLD_STEP),
          [I32Const(UNFOLD_STEP)] + [I32Const(1)]
          + ((Read(idx, sym, 1) + ToAnyCode(YieldType(te, info))) + (Read(idx, sym, 2) + ToAnyCode(SeedType(te, info)))
             + [ArrayNewFixed(T_ARRAY, 2)])
          + [StructNew(T_VARIANT)])]
  }

  // ----- Lemmas about that code -----

  lemma {:induction false} DefaultYields(m: Module, t: ValType, locals: seq<Val>, hidden: set<nat>)
    ensures Yields(m, DefaultCode(t), locals, hidden, DefaultVal(t))
  {
    forall s: Stack, ls: seq<Val> | AgreeOutside(locals, ls, hidden)
      ensures Exec(m, DefaultCode(t), State(s, ls)) == Next(State(Push(DefaultVal(t), s), ls))
    {
      if t.I31ref? {
        ExecTwo(m, I32Const(0), RefI31, State(s, ls));
      } else {
        ExecOne(m, DefaultCode(t)[0], State(s, ls));
      }
    }
  }

  lemma {:induction false} ReadYields(m: Module, idx: nat, sym: Sym, k: nat, locals: seq<Val>, hidden: set<nat>)
    requires idx < |locals| && idx !in hidden
    requires locals[idx].StructRef? && SubType(m.types, locals[idx].sym, sym) && k < |locals[idx].fields|
    ensures Yields(m, Read(idx, sym, k), locals, hidden, locals[idx].fields[k])
  {
    YieldsLocal(m, idx, locals, hidden);
    MapsGet(m, sym, k, locals[idx]);
    YieldsMap(m, [LocalGet(idx)], [StructGet(sym, k)], locals, hidden, locals[idx], locals[idx].fields[k]);
  }

  lemma {:induction false} PayloadElemYields(m: Module, idx: nat, i: nat, payload: seq<Val>, locals: seq<Val>,
                                             hidden: set<nat>)
    requires idx < |locals| && idx !in hidden && i < |payload|
    requires locals[idx].StructRef? && locals[idx].sym == T_VARIANT && |locals[idx].fields| == 3
    requires locals[idx].fields[2] == ArrayRef(T_ARRAY, payload)
    ensures Yields(m, PayloadElem(idx, i), locals, hidden, payload[i])
  {
    var arr := ArrayRef(T_ARRAY, payload);
    ReadYields(m, idx, T_VARIANT, 2, locals, hidden);
    MapsCast(m, true, NamedHeap(T_ARRAY), arr);
    YieldsMap(m, Read(idx, T_VARIANT, 2), [RefCast(true, NamedHeap(T_ARRAY))], locals, hidden, arr, arr);
    MapsElem(m, T_ARRAY, i, arr);
    YieldsMap(m, Read(idx, T_VARIANT, 2) + [RefCast(true, NamedHeap(T_ARRAY))], [I32Const(i), ArrayGet(T_ARRAY)],
              locals, hidden, arr, payload[i]);
  }

  /** Unboxing a payload element takes back the typed component. */
  lemma {:induction false} PayloadFieldYields(m: Module, idx: nat, i: nat, payload: seq<Val>, t: ValType, v: Val,
                                              locals: seq<Val>, hidden: set<nat>)
    requires RuntimeTypes(m.types) && CanUnbox(t) && HasType(m.types, v, t)
    requires idx < |locals| && idx !in hidden && i < |payload| && payload[i] == Box(t, v)
    requires locals[idx].StructRef? && locals[idx].sym == T_VARIANT && |locals[idx].fields| == 3
    requires locals[idx].fields[2] == ArrayRef(T_ARRAY, payload)
    ensures Yields(m, PayloadElem(idx, i) + FromAnyCode(t), locals, hidden, v)
  {
    PayloadElemYields(m, idx, i, payload, locals, hidden);
    UnboxCodeUnboxes(m, t, v);
    YieldsMap(m, PayloadElem(idx, i), FromAnyCode(t), locals, hidden, Box(t, v), v);
  }

  /** Boxing a typed field. */
  lemma {:induction false} BoxedFieldYields(m: Module, idx: nat, sym: Sym, k: nat, t: ValType, locals: seq<Val>,
                                            hidden: set<nat>)
    requires RuntimeTypes(m.types) && idx < |locals| && idx !in hidden
    requires locals[idx].StructRef? && locals[idx].sym == sym && k < |locals[idx].fields|
             && HasType(m.types, locals[idx].fields[k], t)
    ensures Yields(m, Read(idx, sym, k) + ToAnyCode(t), locals, hidden, Box(t, locals[idx].fields[k]))
  {
    ReadYields(m, idx, sym, k, locals, hidden);
    BoxCodeBoxes(m, t, locals[idx].fields[k]);
    YieldsMap(m, Read(idx, sym, k), ToAnyCode(t), locals, hidden, locals[idx].fields[k], Box(t, locals[idx].fields[k]));
  }

  /** Three operands, the first a constant, make a struct. */
  lemma {:induction false} Struct3Yields(m: Module, n: int, a: seq<Instr>, b: seq<Instr>, t: Sym, x: Val, y: Val,
                                         locals: seq<Val>, hidden: set<nat>)
    requires t in m.types && |m.types[t].fields| == 3
    requires Yields(m, a, locals, hidden, x) && Yields(m, b, locals, hidden, y)
    ensures Yields(m, [I32Const(n)] + a + b + [StructNew(t)], locals, hidden, StructRef(t, [I32Val(n), x, y]))
  {
    YieldsConst(m, n, locals, hidden);
    PushesOne(m, [I32Const(n)], locals, hidden, I32Val(n));
    PushesThen(m, [I32Const(n)], a, locals, hidden, [I32Val(n)], x);
    PushesThen(m, [I32Const(n)] + a, b, locals, hidden, [I32Val(n)] + [x], y);
    assert [I32Val(n)] + [x] + [y] == [I32Val(n), x, y];
    YieldsStruct(m, [I32Const(n)] + a + b, t, locals, hidden, [I32Val(n), x, y]);
  }

  lemma {:induction false} Struct2Yields(m: Module, a: seq<Instr>, b: seq<Instr>, t: Sym, x: Val, y: Val,
                                         locals: seq<Val>, hidden: set<nat>)
    requires t in m.types && |m.types[t].fields| == 2
    requires Yields(m, a, locals, hidden, x) && Yields(m, b, locals, hidden, y)
    ensures Yields(m, a + b + [StructNew(t)], locals, hidden, StructRef(t, [x, y]))
  {
    PushesOne(m, a, locals, hidden, x);
    PushesThen(m, a, b, locals, hidden, [x], y);
    assert [x] + [y] == [x, y];
    YieldsStruct(m, a + b, t, locals, hidden, [x, y]);
  }

  lemma {:induction false} EmptyVariantYields(m: Module, typeId: nat, locals: seq<Val>, hidden: set<nat>)
    requires RuntimeTypes(m.types)
    ensures Yields(m, EmptyVariant(typeId), locals, hidden, Variant(typeId, 0, []))
  {
    PushesNone(m, locals, hidden);
    YieldsArray(m, [], T_ARRAY, locals, hidden, []);
    assert [] + [ArrayNewFixed(T_ARRAY, 0)] == [ArrayNewFixed(T_ARRAY, 0)];
    YieldsConst(m, 0, locals, hidden);
    Struct3Yields(m, typeId, [I32Const(0)], [ArrayNewFixed(T_ARRAY, 0)], T_VARIANT, I32Val(0), ArrayRef(T_ARRAY, []),
                  locals, hidden);
  }

  // ----- Unfold steps -----

  lemma {:induction false} UnboxStepYields(m: Module, te: TypeEnv, info: IterInfo, idx: nat, r: StepResult,
                                           locals: seq<Val>, hidden: set<nat>)
    requires IterTypes(m.types, te, info) && ResultTyped(m.types, te, info, r)
    requires idx < |locals| && idx !in hidden && locals[idx] == BoxedStep(te, info, r)
    ensures Yields(m, UnboxStepCode(te, info, idx), locals, hidden, TypedStep(te, info, r))
  {
    var sym := UnfoldStepSym(info.yieldTy, info.seedTy);
    var yt, st := YieldType(te, info), SeedType(te, info);
    var variant := if r.Done? then 0 else 1;
    var done := [I32Const(0)] + DefaultCode(yt) + DefaultCode(st) + [StructNew(sym)];
    var yielded := [I32Const(1)] + (PayloadElem(idx, 0) + FromAnyCode(yt)) + (PayloadElem(idx, 1) + FromAnyCode(st))
        + [StructNew(sym)];
    ReadYields(m, idx, T_VARIANT, 1, locals, hidden);
    MapsEqz(m, variant);
    YieldsMap(m, Read(idx, T_VARIANT, 1), [I32Eqz], locals, hidden, I32Val(variant), I32Val(BoolInt(variant == 0)));
    if r.Done? {
      DefaultYields(m, yt, locals, hidden);
      DefaultYields(m, st, locals, hidden);
      Struct3Yields(m, 0, DefaultCode(yt), DefaultCode(st), sym, DefaultVal(yt), DefaultVal(st), locals, hidden);
    } else {
      var payload := [Box(yt, r.value), Box(st, r.seed)];
      PayloadFieldYields(m, idx, 0, payload, yt, r.value, locals, hidden);
      PayloadFieldYields(m, idx, 1, payload, st, r.seed, locals, hidden);
      Struct3Yields(m, 1, PayloadElem(idx, 0) + FromAnyCode(yt), PayloadElem(idx, 1) + FromAnyCode(st), sym, r.value,
                    r.seed, locals, hidden);
    }
    YieldsIf(m, Read(idx, T_VARIANT, 1) + [I32Eqz], done, yielded, locals, hidden, BoolInt(variant == 0),
             TypedStep(te, info, r));
  }

  lemma {:induction false} BoxStepYields(m: Module, te: TypeEnv, info: IterInfo, idx: nat, r: StepResult,
                                         locals: seq<Val>, hidden: set<nat>)
    requires IterTypes(m.types, te, info) && ResultTyped(m.types, te, info, r)
    requires idx < |locals| && idx !in hidden && locals[idx] == TypedStep(te, info, r)
    ensures Yields(m, BoxStepCode(te, info, idx), locals, hidden, BoxedStep(te, info, r))
  {
    var sym := UnfoldStepSym(info.yieldTy, info.seedTy);
    var yt, st := YieldType(te, info), SeedType(te, info);
    var variant := if r.Done? then 0 else 1;
    var y, s := Read(idx, sym, 1) + ToAnyCode(yt), Read(idx, sym, 2) + ToAnyCode(st);
    var payload := y + s + [ArrayNewFixed(T_ARRAY, 2)];
    var yielded := [I32Const(UNFOLD_STEP)] + [I32Const(1)] + payload + [StructNew(T_VARIANT)];
    ReadYields(m, idx, sym, 0, locals, hidden);
    MapsEqz(m, variant);
    YieldsMap(m, Read(idx, sym, 0), [I32Eqz], locals, hidden, I32Val(variant), I32Val(BoolInt(variant == 0)));
    if r.Done? {
      EmptyVariantYields(m, UNFOLD_STEP, locals, hidden);
    } else {
      BoxedFieldYields(m, idx, sym, 1, yt, locals, hidden);
      BoxedFieldYields(m, idx, sym, 2, st, locals, hidden);
      var vs := [Box(yt, r.value), Box(st, r.seed)];
      PushesOne(m, y, locals, hidden, vs[0]);
      PushesThen(m, y, s, locals, hidden, [vs[0]], vs[1]);
      assert [vs[0]] + [vs[1]] == vs;
      YieldsArray(m, y + s, T_ARRAY, locals, hidden, vs);
      YieldsConst(m, 1, locals, hidden);
      Struct3Yields(m, UNFOLD_STEP, [I32Const(1)], payload, T_VARIANT, I32Val(1), ArrayRef(T_ARRAY, vs), locals,
                    hidden);
    }
    YieldsIf(m, Read(idx, sym, 0) + [I32Eqz], EmptyVariant(UNFOLD_STEP), yielded, locals, hidden,
             BoolInt(variant == 0), BoxedStep(te, info, r));
  }
}
