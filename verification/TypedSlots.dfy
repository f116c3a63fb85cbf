/** Slots of pattern variables, for values of the types the slots are chosen by. */
module TypedSlots {
  import opened Base
  import opened Wasm
  import opened Mono
  import opened Values
  import opened Match
  import opened MatchBindings
  import opened Typing
  import opened PatternSlots

  // ----- The slot types -----

  /** The slot type of a variable at a component whose type is known. */
  function SlotOf(te: TypeEnv, t: MonoType): (ty: ValType) { if t.Void? then Anyref else ValTypeOf(te, t) }

  /**
    The variables of the built-in sums have the slot types of their type arguments: `Some(x)` that of the payload,
    `Ok(x)` that of the first and `Err(x)` that of the second argument, and `Yield(x, y)` those of both.
  */
  lemma {:induction false} BuiltinSlots(te: TypeEnv, decl: Fields, a: MonoType, b: MonoType, x: nat, y: nat)
    ensures TypedLocals(te, decl, PVariant(OPTION, 1, [PVar(x)]), Some(Named(OPTION, [a])), None)
         == [(x, SlotOf(te, a))]
    ensures TypedLocals(te, decl, PVariant(RESULT, 0, [PVar(x)]), Some(Named(RESULT, [a, b])), None)
         == [(x, SlotOf(te, a))]
    ensures TypedLocals(te, decl, PVariant(RESULT, 1, [PVar(x)]), Some(Named(RESULT, [a, b])), None)
         == [(x, SlotOf(te, b))]
    ensures TypedLocals(te, decl, PVariant(UNFOLD_STEP, 1, [PVar(x), PVar(y)]), Some(Named(UNFOLD_STEP, [a, b])), None)
         == [(x, SlotOf(te, a)), (y, SlotOf(te, b))]
  {
    OneSlot(te, decl, OPTION, 1, x, Named(OPTION, [a]), a);
    OneSlot(te, decl, RESULT, 0, x, Named(RESULT, [a, b]), a);
    OneSlot(te, decl, RESULT, 1, x, Named(RESULT, [a, b]), b);
    TwoSlots(te, decl, x, y, a, b);
  }

  lemma {:induction false} OneSlot(te: TypeEnv, decl: Fields, id: nat, k: nat, x: nat, t: MonoType, a: MonoType)
    requires FieldMonos(decl, id, k, Some(t)) == [a]
    ensures TypedLocals(te, decl, PVariant(id, k, [PVar(x)]), Some(t), None) == [(x, SlotOf(te, a))]
  {
    var fs := [PVar(x)];
    assert FieldMono([a], None, 0) == Some(a);
    assert FieldLocals(te, decl, fs, [a], None, 1) == [];
    assert TypedLocals(te, decl, fs[0], Some(a), None) == [(x, SlotOf(te, a))];
    assert FieldLocals(te, decl, fs, [a], None, 0) == [(x, SlotOf(te, a))] + [];
  }

  lemma {:induction false} TwoSlots(te: TypeEnv, decl: Fields, x: nat, y: nat, a: MonoType, b: MonoType)
    ensures TypedLocals(te, decl, PVariant(UNFOLD_STEP, 1, [PVar(x), PVar(y)]), Some(Named(UNFOLD_STEP, [a, b])), None)
         == [(x, SlotOf(te, a)), (y, SlotOf(te, b))]
  {
    var fs, monos := [PVar(x), PVar(y)], [a, b];
    assert FieldMonos(decl, UNFOLD_STEP, 1, Some(Named(UNFOLD_STEP, monos))) == monos;
    assert FieldLocals(te, decl, fs, monos, None, 2) == [];
    assert TypedLocals(te, decl, fs[1], Some(b), None) == [(y, SlotOf(te, b))];
    assert FieldLocals(te, decl, fs, monos, None, 1) == [(y, SlotOf(te, b))] + [];
    assert TypedLocals(te, decl, fs[0], Some(a), None) == [(x, SlotOf(te, a))];
    assert FieldLocals(te, decl, fs, monos, None, 0) == [(x, SlotOf(te, a))] + [(y, SlotOf(te, b))];
  }

  /** The item of an iterator-next Option has the slot of its own struct; payloads of other types do not. */
  lemma {:induction false} ItemSlots(te: TypeEnv, decl: Fields, info: IterInfo, a: MonoType, b: MonoType, x: nat,
                                    args: seq<MonoType>)
    ensures TypedLocals(te, decl, PVariant(OPTION, 1, [PVar(x)]), Some(Named(OPTION, [Named(ITER_ITEM, [a])])),
                        Some(info)) == [(x, RefTo(IterItemSym(info)))]
    ensures TypedLocals(te, decl, PVariant(RESULT, 0, [PVar(x)]), Some(Named(RESULT, [a, b])), Some(info))
         == [(x, SlotOf(te, a))]
    ensures TypedLocals(te, decl, PVar(x), Some(Named(ITER_ITEM, args)), Some(info))
         == [(x, if |args| == 1 then RefTo(IterItemSym(info)) else ValTypeOf(te, Named(ITER_ITEM, args)))]
  {
    var fs, item := [PVar(x)], MonoType.Named(ITER_ITEM, [info.yieldTy]);
    assert FieldIter(OPTION, 1, Some(info)) == Some(info) && FieldIter(RESULT, 0, Some(info)) == None;
    assert TypedLocals(te, decl, fs[0], Some(item), Some(info)) == [(x, RefTo(IterItemSym(info)))];
    var monos := FieldMonos(decl, OPTION, 1, Some(Named(OPTION, [Named(ITER_ITEM, [a])])));
    assert FieldLocals(te, decl, fs, monos, Some(info), 1) == [];
    assert FieldLocals(te, decl, fs, monos, Some(info), 0) == [(x, RefTo(IterItemSym(info)))] + [];
    OneSlot(te, decl, RESULT, 0, x, Named(RESULT, [a, b]), a);
  }

  // ----- Typed values conform -----

  /** The form a value of type `t` has fits a slot of that type. */
  lemma {:induction false} OfTypeInhabits(types: map<Sym, StructDef>, te: TypeEnv, decl: Fields, t: MonoType, v: Value)
    requires Prelude(te, decl) && Typed(types, te, decl, Some(t), v)
    ensures Inhabits(types, te, t, v)
  {
    if v.Opaque? {
      if t.Named? {
        NamedOpaqueFits(types, te, t, v);
      } else if !t.Void? && !t.TVar? && !t.MetaVar? {
        PlainOpaqueFits(types, te, t, v);
      }
    } else if t.Named? {
      StructuredSlot(te, decl, t, v);
    }
  }

  lemma {:induction false} StructuredSlot(te: TypeEnv, decl: Fields, t: MonoType, v: Value)
    requires Shaped(te, decl, v) && t.Named? && (v.SumV? || v.StepV? || v.TupleV?)
    requires Prelude(te, decl) && t.typeId == TypeIdOf(v)
    ensures v.TupleV? ==> ValTypeOf(te, t) == RefTo(RecordSym(t.typeId))
    ensures !v.TupleV? ==> ValTypeOf(te, t) == RefTo(T_VARIANT) || TypedStepSlot(te, t)
  {
  }

  /** Slots hold typed steps exactly in programs with concrete closure signatures, for concrete value and seed. */
  lemma {:induction false} TypedStepSlotIff(te: TypeEnv, decl: Fields, y: MonoType, s: MonoType)
    requires Prelude(te, decl)
    ensures TypedStepSlot(te, UnfoldStepType(y, s)) <==> te.sigs != {} && IsConcrete(y) && IsConcrete(s)
  {
    assert UnfoldStepSym(y, s)[0] != T_VARIANT[0];
  }

  /** The step function in an iterator state has the typed closure struct that slots of its type are for. */
  lemma {:induction false} StepClosureSlot(te: TypeEnv, info: IterInfo)
    requires IsConcrete(info.yieldTy) && IsConcrete(info.seedTy)
    requires ([info.seedTy], UnfoldStepType(info.yieldTy, info.seedTy)) in te.sigs
    ensures ValTypeOf(te, Function([info.seedTy], UnfoldStepType(info.yieldTy, info.seedTy)))
         == RefTo(StepClosureSym(info))
  {
    var step := UnfoldStepType(info.yieldTy, info.seedTy);
    assert IsConcrete(step);
    assert IsConcrete(Function([info.seedTy], step));
  }

  lemma {:induction false} PlainOpaqueFits(types: map<Sym, StructDef>, te: TypeEnv, t: MonoType, v: Value)
    requires OfType(types, te, t, v) && v.Opaque? && !t.Named? && !t.Void? && !t.TVar? && !t.MetaVar?
    ensures Fitting(types, ValTypeOf(te, t), v)
  {
  }

  lemma {:induction false} NamedOpaqueFits(types: map<Sym, StructDef>, te: TypeEnv, t: MonoType, v: Value)
    requires OfType(types, te, t, v) && v.Opaque? && t.Named?
    ensures Fitting(types, ValTypeOf(te, t), v)
  {
  }

  /** What slot allocation expects is the type, or says nothing. */
  predicate Expects(expected: Option<MonoType>, t: Option<MonoType>) {
    expected == t || expected == None || expected == Some(Void)
  }

  lemma {:induction false} FieldExpects(types: map<Sym, StructDef>, te: TypeEnv, decl: Fields, t: Option<MonoType>,
                                        expected: Option<MonoType>, v: Value, i: nat)
    requires Prelude(te, decl) && Typed(types, te, decl, t, v) && Expects(expected, t)
    requires (v.SumV? || v.StepV?) && i < |Parts(v)|
    ensures Expects(FieldMono(FieldMonos(decl, TypeIdOf(v), v.variant, expected), None, i), PartType(decl, t, v, i))
  {
    var id, k := TypeIdOf(v), v.variant;
    if !IsBuiltin(id) {
      assert FieldMonos(decl, id, k, expected) == decl(id, k);
    } else if BuiltinFields(id, k, expected).None? {
      assert i < |decl(id, k)| ==> decl(id, k)[i] == Void;
    } else {
      BuiltinParts(types, te, decl, t.value, v, i);
    }
  }

  lemma {:induction false} BuiltinParts(types: map<Sym, StructDef>, te: TypeEnv, decl: Fields, t: MonoType, v: Value,
                                        i: nat)
    requires Typed(types, te, decl, Some(t), v) && (v.SumV? || v.StepV?) && IsBuiltin(TypeIdOf(v)) && i < |Parts(v)|
    requires BuiltinFields(TypeIdOf(v), v.variant, Some(t)).Some?
    ensures FieldMono(BuiltinFields(TypeIdOf(v), v.variant, Some(t)).value, None, i) == PartType(decl, Some(t), v, i)
  {
    assert Shaped(te, decl, v) && OfType(types, te, t, v);
    if v.SumV? {
      assert v.variant < 2 && |v.args| == Arity(decl, v.typeId, v.variant);
      if v.typeId == OPTION {
        assert v.variant == 1 && i == 0;
      } else if v.typeId == RESULT {
        assert i == 0;
      }
    }
  }

  /** What slot allocation expects of component `i`. */
  function PartExpected(decl: Fields, expected: Option<MonoType>, v: Value, i: nat): (r: Option<MonoType>) {
    if v.SumV? || v.StepV? then FieldMono(FieldMonos(decl, TypeIdOf(v), v.variant, expected), None, i) else None
  }

  lemma {:induction false} ConformsParts(types: map<Sym, StructDef>, te: TypeEnv, decl: Fields,
                                         expected: Option<MonoType>, v: Value)
    requires expected.Some? ==> Inhabits(types, te, expected.value, v)
    requires forall i | 0 <= i < |Parts(v)| ::
               Conforms(types, te, decl, Parts(v)[i], PartExpected(decl, expected, v, i), None)
    ensures Conforms(types, te, decl, v, expected, None)
  {
    if v.SumV? || v.StepV? {
      var monos := FieldMonos(decl, TypeIdOf(v), v.variant, expected);
      forall i | 0 <= i < |Parts(v)|
        ensures Conforms(types, te, decl, Parts(v)[i], FieldMono(monos, None, i), None)
      {
        assert PartExpected(decl, expected, v, i) == FieldMono(monos, None, i);
      }
    } else if v.TupleV? {
      forall i | 0 <= i < |v.items|
        ensures Conforms(types, te, decl, v.items[i], None, None)
      {
        assert Conforms(types, te, decl, Parts(v)[i], PartExpected(decl, expected, v, i), None);
      }
    }
  }

  /** Values of a type are what the slots of a match on that type are chosen for. */
  lemma {:induction false} TypedConforms(types: map<Sym, StructDef>, te: TypeEnv, decl: Fields, t: Option<MonoType>,
                                         expected: Option<MonoType>, v: Value)
    requires Prelude(te, decl) && Typed(types, te, decl, t, v) && Expects(expected, t)
    ensures Conforms(types, te, decl, v, expected, None)
    decreases v
  {
    if expected.Some? && expected == t {
      OfTypeInhabits(types, te, decl, t.value, v);
    }
    forall i | 0 <= i < |Parts(v)|
      ensures Conforms(types, te, decl, Parts(v)[i], PartExpected(decl, expected, v, i), None)
    {
      if !v.TupleV? {
        FieldExpects(types, te, decl, t, expected, v, i);
      }
      TypedConforms(types, te, decl, PartType(decl, t, v, i), PartExpected(decl, expected, v, i), Parts(v)[i]);
    }
    ConformsParts(types, te, decl, expected, v);
  }

  lemma {:induction false} TypedTuples(types: map<Sym, StructDef>, te: TypeEnv, decl: Fields, t: Option<MonoType>,
                                       v: Value)
    requires Typed(types, te, decl, t, v)
    ensures TuplesAreRecords(te, v)
    decreases v
  {
    forall i | 0 <= i < |Parts(v)|
      ensures TuplesAreRecords(te, Parts(v)[i])
    {
      TypedTuples(types, te, decl, PartType(decl, t, v, i), Parts(v)[i]);
    }
  }

  // ----- Components of typed values fit -----

  /** No part of the value is an UnfoldStep. */
  predicate StepFree(v: Value)
    decreases v
  {
    !v.StepV? && (v.SumV? ==> v.typeId != UNFOLD_STEP) && forall i | 0 <= i < |Parts(v)| :: StepFree(Parts(v)[i])
  }

  lemma {:induction false} StepFreeFits(types: map<Sym, StructDef>, te: TypeEnv, decl: Fields, t: Option<MonoType>,
                                        p: Pattern, v: Value, expected: Option<MonoType>)
    requires Prelude(te, decl) && Typed(types, te, decl, t, v) && Expects(expected, t) && StepFree(v)
    ensures Matches(p, v) ==> !Misfit(types, te, decl, p, v, expected, None)
    decreases p
  {
    if p.PVariant? && Matches(p, v) {
      var monos := FieldMonos(decl, p.typeId, p.variant, expected);
      forall i | 0 <= i < |p.fields|
        ensures !Misfit(types, te, decl, p.fields[i], Parts(v)[i], FieldMono(monos, None, i), None)
      {
        if v.TupleV? {
          assert monos == [];
        } else {
          FieldExpects(types, te, decl, t, expected, v, i);
        }
        StepFreeFits(types, te, decl, PartType(decl, t, v, i), p.fields[i], Parts(v)[i], FieldMono(monos, None, i));
      }
    } else if p.PVar? && expected.Some? && expected == t && v.SumV? {
      StepFreeHere(types, te, decl, t.value, v);
    }
  }

  lemma {:induction false} StepFreeHere(types: map<Sym, StructDef>, te: TypeEnv, decl: Fields, t: MonoType, v: Value)
    requires Typed(types, te, decl, Some(t), v) && StepFree(v) && v.SumV?
    ensures !OtherForm(types, te, t, v)
  {
  }
}
