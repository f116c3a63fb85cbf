/** Conversion of typed Option and Result structs to the erased `$Variant`, and the run-time dispatch between both. */
module Sums {
  import opened Wasm
  import opened Mono
  import opened CodeCalculus
  import opened Coercions
  import opened Values

  /** The linked module declares the runtime types and the typed struct of `t`. */
  predicate Declared(m: Module, te: TypeEnv, t: MonoType) {
    RuntimeTypes(m.types) && IsSumCandidate(t) && SumSym(t) in m.types && m.types[SumSym(t)] == SumDefOf(te, t)
  }

  /** Read field `k` of the typed struct in local `idx`. */
  function ReadField(idx: nat, sym: Sym, k: nat): (code: seq<Instr>) {
    [LocalGet(idx)] + UnboxCode(RefTo(sym)) + [StructGet(sym, k)]
  }

  /** The one-element payload array that carries field `k`, of type `t`. */
  function PayloadCode(idx: nat, sym: Sym, k: nat, t: ValType): (code: seq<Instr>) {
    ReadField(idx, sym, k) + ToAnyCode(t) + [ArrayNewFixed(T_ARRAY, 1)]
  }

  /** `emit_typed_option_local_to_variant`. */
  function OptionToVariant(te: TypeEnv, idx: nat, t: MonoType): (code: seq<Instr>)
    requires IsOptionCandidate(t)
  {
    var sym := SumSym(t);
    [I32Const(OPTION)] + ReadField(idx, sym, 0)
    + (ReadField(idx, sym, 0) + [I32Const(1), I32Eq]
       + [If(PayloadCode(idx, sym, 1, ValTypeOf(te, t.args[0])), [ArrayNewFixed(T_ARRAY, 0)])])
    + [StructNew(T_VARIANT)]
  }

  /** `emit_typed_result_local_to_variant`. */
  function ResultToVariant(te: TypeEnv, idx: nat, t: MonoType): (code: seq<Instr>)
    requires IsResultCandidate(t)
  {
    var sym := SumSym(t);
    [I32Const(RESULT)] + ReadField(idx, sym, 0)
    + (ReadField(idx, sym, 0) + [I32Const(0), I32Eq]
       + [If(PayloadCode(idx, sym, 1, ValTypeOf(te, t.args[0])), PayloadCode(idx, sym, 2, ValTypeOf(te, t.args[1])))])
    + [StructNew(T_VARIANT)]
  }

  /** `emit_typed_general_option_local_to_variant`. */
  function SumToVariant(te: TypeEnv, idx: nat, t: MonoType): (code: seq<Instr>)
    requires IsSumCandidate(t)
  {
    if t.typeId == OPTION then OptionToVariant(te, idx, t) else ResultToVariant(te, idx, t)
  }

  /** `emit_anyref_option_or_variant_local_to_variant`: the local may hold either layout. */
  function DispatchToVariant(te: TypeEnv, idx: nat, t: MonoType, expected: ValType): (code: seq<Instr>)
    requires IsSumCandidate(t) && expected.Ref?
  {
    [LocalGet(idx)] + [RefTest(true, NamedHeap(T_VARIANT))]
    + [If([LocalGet(idx)] + [RefCast(true, NamedHeap(T_VARIANT))], SumToVariant(te, idx, t))]
    + RefCoerceCode(RefTo(T_VARIANT), expected)
  }

  // ----- Conversion of a typed local -----

  lemma {:induction false} ReadFieldYields(m: Module, idx: nat, sym: Sym, k: nat, locals: seq<Val>, hidden: set<nat>)
    requires idx < |locals| && idx !in hidden
    requires locals[idx].StructRef? && locals[idx].sym == sym && k < |locals[idx].fields|
    ensures Yields(m, ReadField(idx, sym, k), locals, hidden, locals[idx].fields[k])
  {
    var w := locals[idx];
    YieldsLocal(m, idx, locals, hidden);
    MapsCast(m, true, NamedHeap(sym), w);
    YieldsMap(m, [LocalGet(idx)], UnboxCode(RefTo(sym)), locals, hidden, w, w);
    MapsGet(m, sym, k, w);
    YieldsMap(m, [LocalGet(idx)] + UnboxCode(RefTo(sym)), [StructGet(sym, k)], locals, hidden, w, w.fields[k]);
  }

  lemma {:induction false} PayloadYields(m: Module, idx: nat, sym: Sym, k: nat, t: ValType, a: Value,
                                         locals: seq<Val>, hidden: set<nat>)
    requires RuntimeTypes(m.types) && idx < |locals| && idx !in hidden
    requires locals[idx].StructRef? && locals[idx].sym == sym && k < |locals[idx].fields|
    requires Holds(m.types, locals[idx].fields[k], t, a)
    ensures Yields(m, PayloadCode(idx, sym, k, t), locals, hidden, ArrayRef(T_ARRAY, BoxedAll([a])))
  {
    var f := locals[idx].fields[k];
    ReadFieldYields(m, idx, sym, k, locals, hidden);
    BoxCodeBoxes(m, t, f);
    YieldsMap(m, ReadField(idx, sym, k), ToAnyCode(t), locals, hidden, f, Boxed(a));
    PushesOne(m, ReadField(idx, sym, k) + ToAnyCode(t), locals, hidden, Boxed(a));
    YieldsArray(m, ReadField(idx, sym, k) + ToAnyCode(t), T_ARRAY, locals, hidden, [Boxed(a)]);
    assert BoxedAll([a]) == [Boxed(a)];
  }

  lemma {:induction false} EmptyPayloadYields(m: Module, locals: seq<Val>, hidden: set<nat>)
    ensures Yields(m, [ArrayNewFixed(T_ARRAY, 0)], locals, hidden, ArrayRef(T_ARRAY, []))
  {
    PushesNone(m, locals, hidden);
    YieldsArray(m, [], T_ARRAY, locals, hidden, []);
    assert [] + [ArrayNewFixed(T_ARRAY, 0)] == [ArrayNewFixed(T_ARRAY, 0)];
  }

  /** Type id, variant id and payload array make the erased variant. */
  lemma {:induction false} VariantYields(m: Module, typeId: nat, tag: seq<Instr>, payload: seq<Instr>, variant: nat,
                                         args: seq<Value>, locals: seq<Val>, hidden: set<nat>)
    requires RuntimeTypes(m.types)
    requires Yields(m, tag, locals, hidden, I32Val(variant))
    requires Yields(m, payload, locals, hidden, ArrayRef(T_ARRAY, BoxedAll(args)))
    ensures Yields(m, [I32Const(typeId)] + tag + payload + [StructNew(T_VARIANT)], locals, hidden,
                   Boxed(SumV(typeId, variant, args)))
  {
    var vs := [I32Val(typeId), I32Val(variant), ArrayRef(T_ARRAY, BoxedAll(args))];
    YieldsConst(m, typeId, locals, hidden);
    PushesOne(m, [I32Const(typeId)], locals, hidden, vs[0]);
    PushesThen(m, [I32Const(typeId)], tag, locals, hidden, [vs[0]], vs[1]);
    PushesThen(m, [I32Const(typeId)] + tag, payload, locals, hidden, [vs[0]] + [vs[1]], vs[2]);
    assert [vs[0]] + [vs[1]] + [vs[2]] == vs;
    YieldsStruct(m, [I32Const(typeId)] + tag + payload, T_VARIANT, locals, hidden, vs);
  }

  lemma {:induction false} OptionErases(m: Module, te: TypeEnv, idx: nat, t: MonoType, v: Value, locals: seq<Val>,
                                        hidden: set<nat>)
    requires Declared(m, te, t) && t.typeId == OPTION
    requires idx < |locals| && idx !in hidden && SumRep(m.types, te, t, locals[idx], v)
    ensures Yields(m, OptionToVariant(te, idx, t), locals, hidden, Boxed(v))
  {
    var sym := SumSym(t);
    var tag := ReadField(idx, sym, 0);
    var some := PayloadCode(idx, sym, 1, ValTypeOf(te, t.args[0]));
    var none := [ArrayNewFixed(T_ARRAY, 0)];
    ReadFieldYields(m, idx, sym, 0, locals, hidden);
    MapsEq32(m, 1, v.variant);
    YieldsMap(m, tag, [I32Const(1), I32Eq], locals, hidden, I32Val(v.variant), I32Val(BoolInt(v.variant == 1)));
    if v.variant == 1 {
      PayloadYields(m, idx, sym, 1, ValTypeOf(te, t.args[0]), v.args[0], locals, hidden);
      assert v.args == [v.args[0]];
    } else {
      EmptyPayloadYields(m, locals, hidden);
      assert BoxedAll(v.args) == [];
    }
    YieldsIf(m, tag + [I32Const(1), I32Eq], some, none, locals, hidden, BoolInt(v.variant == 1),
             ArrayRef(T_ARRAY, BoxedAll(v.args)));
    VariantYields(m, OPTION, tag, tag + [I32Const(1), I32Eq] + [If(some, none)], v.variant, v.args, locals, hidden);
  }

  lemma {:induction false} ResultErases(m: Module, te: TypeEnv, idx: nat, t: MonoType, v: Value, locals: seq<Val>,
                                        hidden: set<nat>)
    requires Declared(m, te, t) && t.typeId == RESULT
    requires idx < |locals| && idx !in hidden && SumRep(m.types, te, t, locals[idx], v)
    ensures Yields(m, ResultToVariant(te, idx, t), locals, hidden, Boxed(v))
  {
    var sym := SumSym(t);
    var tag := ReadField(idx, sym, 0);
    var ok := PayloadCode(idx, sym, 1, ValTypeOf(te, t.args[0]));
    var err := PayloadCode(idx, sym, 2, ValTypeOf(te, t.args[1]));
    ReadFieldYields(m, idx, sym, 0, locals, hidden);
    MapsEq32(m, 0, v.variant);
    YieldsMap(m, tag, [I32Const(0), I32Eq], locals, hidden, I32Val(v.variant), I32Val(BoolInt(v.variant == 0)));
    assert v.args == [v.args[0]];
    PayloadYields(m, idx, sym, 1 + v.variant, ValTypeOf(te, t.args[v.variant]), v.args[0], locals, hidden);
    YieldsIf(m, tag + [I32Const(0), I32Eq], ok, err, locals, hidden, BoolInt(v.variant == 0),
             ArrayRef(T_ARRAY, BoxedAll(v.args)));
    VariantYields(m, RESULT, tag, tag + [I32Const(0), I32Eq] + [If(ok, err)], v.variant, v.args, locals, hidden);
  }

  /** Converting a typed local yields the erased form of the value it represents. */
  lemma {:induction false} TypedSumErases(m: Module, te: TypeEnv, idx: nat, t: MonoType, v: Value, locals: seq<Val>,
                                          hidden: set<nat>)
    requires Declared(m, te, t)
    requires idx < |locals| && idx !in hidden && SumRep(m.types, te, t, locals[idx], v)
    ensures Yields(m, SumToVariant(te, idx, t), locals, hidden, Boxed(v))
  {
    if t.typeId == OPTION {
      OptionErases(m, te, idx, t, v, locals, hidden);
    } else {
      ResultErases(m, te, idx, t, v, locals, hidden);
    }
  }

  // ----- Run-time dispatch -----

  /** `w` is what the dispatch reads in the local, `u` what its two branches make of it. */
  lemma {:induction false} DispatchYields(m: Module, te: TypeEnv, idx: nat, t: MonoType, expected: ValType, u: Val,
                                          locals: seq<Val>, hidden: set<nat>)
    requires RuntimeTypes(m.types) && IsSumCandidate(t) && idx < |locals| && idx !in hidden
    requires expected.Ref? && expected.heap == NamedHeap(T_VARIANT) && u != NullRef
    requires CastSucceeds(m.types, locals[idx], true, NamedHeap(T_VARIANT)) ==> u == locals[idx]
    requires !CastSucceeds(m.types, locals[idx], true, NamedHeap(T_VARIANT)) ==>
               Yields(m, SumToVariant(te, idx, t), locals, hidden, u)
    ensures Yields(m, DispatchToVariant(te, idx, t, expected), locals, hidden, u)
  {
    var w := locals[idx];
    var isVariant := CastSucceeds(m.types, w, true, NamedHeap(T_VARIANT));
    var test := [LocalGet(idx)] + [RefTest(true, NamedHeap(T_VARIANT))];
    var cast := [LocalGet(idx)] + [RefCast(true, NamedHeap(T_VARIANT))];
    YieldsLocal(m, idx, locals, hidden);
    MapsTest(m, true, NamedHeap(T_VARIANT), w);
    YieldsMap(m, [LocalGet(idx)], [RefTest(true, NamedHeap(T_VARIANT))], locals, hidden, w, I32Val(BoolInt(isVariant)));
    if isVariant {
      MapsCast(m, true, NamedHeap(T_VARIANT), w);
      YieldsMap(m, [LocalGet(idx)], [RefCast(true, NamedHeap(T_VARIANT))], locals, hidden, w, w);
    }
    YieldsIf(m, test, cast, SumToVariant(te, idx, t), locals, hidden, BoolInt(isVariant), u);
    MapsNil(m, u);
    MapsNonNull(m, u);
    YieldsMap(m, test + [If(cast, SumToVariant(te, idx, t))], RefCoerceCode(RefTo(T_VARIANT), expected),
              locals, hidden, u, u);
  }

  /** An already erased value passes through the dispatch unchanged. */
  lemma {:induction false} DispatchKeepsErased(m: Module, te: TypeEnv, idx: nat, t: MonoType, expected: ValType,
                                               v: Value, locals: seq<Val>, hidden: set<nat>)
    requires RuntimeTypes(m.types) && IsSumCandidate(t) && idx < |locals| && idx !in hidden
    requires expected.Ref? && expected.heap == NamedHeap(T_VARIANT)
    requires v.SumV? && locals[idx] == Boxed(v)
    ensures Yields(m, DispatchToVariant(te, idx, t, expected), locals, hidden, Boxed(v))
  {
    DispatchYields(m, te, idx, t, expected, Boxed(v), locals, hidden);
  }

  /**
    A Result whose Ok slot is an i32 (Bool, Byte, Void) and whose Err slot is `(ref null $Array)` (an untyped Cell)
    has field for field the definition of `$Variant`.
  */
  predicate Lookalike(te: TypeEnv, t: MonoType) {
    t.Named? && t.typeId == RESULT && |t.args| == 2
    && ValTypeOf(te, t.args[0]) == I32 && ValTypeOf(te, t.args[1]) == RefTo(T_ARRAY)
  }

  lemma {:induction false} LookalikeIsVariant(m: Module, te: TypeEnv, t: MonoType)
    requires Declared(m, te, t)
    ensures SumSym(t) != T_VARIANT
    ensures SubType(m.types, SumSym(t), T_VARIANT) <==> Lookalike(te, t)
  {
    assert SumSym(t)[1] != T_VARIANT[1];
    var d := SumDefOf(te, t);
    if Lookalike(te, t) {
      assert d.fields == VARIANT_DEF.fields;
    }
  }

  /** A typed value leaves the dispatch in erased form exactly when its struct is not a look-alike of `$Variant`. */
  lemma {:induction false} DispatchErasesTypedIff(m: Module, te: TypeEnv, idx: nat, t: MonoType, expected: ValType,
                                                  v: Value, locals: seq<Val>, hidden: set<nat>)
    requires Declared(m, te, t) && idx < |locals| && idx !in hidden
    requires expected.Ref? && expected.heap == NamedHeap(T_VARIANT)
    requires SumRep(m.types, te, t, locals[idx], v)
    ensures Yields(m, DispatchToVariant(te, idx, t, expected), locals, hidden, Boxed(v)) <==> !Lookalike(te, t)
  {
    LookalikeIsVariant(m, te, t);
    var w := locals[idx];
    if Lookalike(te, t) {
      DispatchYields(m, te, idx, t, expected, w, locals, hidden);
      if Yields(m, DispatchToVariant(te, idx, t, expected), locals, hidden, Boxed(v)) {
        YieldsUnique(m, DispatchToVariant(te, idx, t, expected), locals, hidden, w, Boxed(v));
      }
    } else {
      TypedSumErases(m, te, idx, t, v, locals, hidden);
      DispatchYields(m, te, idx, t, expected, Boxed(v), locals, hidden);
    }
  }

  /** The failing family is not empty: `Result<Bool, Cell<Int>>` in a program without concrete closure signatures. */
  lemma {:induction false} LookalikeExample(defs: map<nat, LangDef>)
    ensures Lookalike(TypeEnv(defs, {}), MonoType.Named(RESULT, [Bool, MonoType.Named(CELL, [Int])]))
    ensures forall te: TypeEnv, t: MonoType | Lookalike(te, t) :: !IsOptionCandidate(t)
  {
  }

  /**
    What goes wrong for a look-alike: `Err(cell)`, whose unused Ok slot the literal fills with 0, reads back through
    the `$Variant` fields as type id `RESULT` and variant 0, that is as `Ok`.
  */
  lemma {:induction false} LookalikeErrReadsAsOk(m: Module, te: TypeEnv, idx: nat, t: MonoType, expected: ValType,
                                                 cell: Val, locals: seq<Val>, hidden: set<nat>)
    requires Declared(m, te, t) && Lookalike(te, t) && idx < |locals| && idx !in hidden
    requires expected.Ref? && expected.heap == NamedHeap(T_VARIANT)
    requires locals[idx] == StructRef(SumSym(t), [I32Val(1), I32Val(0), cell])
    ensures Yields(m, DispatchToVariant(te, idx, t, expected) + [StructGet(T_VARIANT, 0)], locals, hidden,
                   I32Val(RESULT))
    ensures Yields(m, DispatchToVariant(te, idx, t, expected) + [StructGet(T_VARIANT, 1)], locals, hidden, I32Val(0))
  {
    LookalikeIsVariant(m, te, t);
    var w := locals[idx];
    var code := DispatchToVariant(te, idx, t, expected);
    DispatchYields(m, te, idx, t, expected, w, locals, hidden);
    MapsGet(m, T_VARIANT, 0, w);
    MapsGet(m, T_VARIANT, 1, w);
    YieldsMap(m, code, [StructGet(T_VARIANT, 0)], locals, hidden, w, I32Val(1));
    YieldsMap(m, code, [StructGet(T_VARIANT, 1)], locals, hidden, w, I32Val(0));
  }
}
