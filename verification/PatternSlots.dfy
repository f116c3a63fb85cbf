/** Slot types of pattern variables: how they are chosen, and that the components they are meant for fit into them. */
module PatternSlots {
  import opened Base
  import opened Wasm
  import opened Mono
  import opened Coercions
  import opened Values
  import opened Match
  import opened MatchBindings

  // ----- The choice -----

  /** `concrete_builtin_sum_field_monos`. */
  function BuiltinFields(typeId: nat, variant: nat, expected: Option<MonoType>): (r: Option<seq<MonoType>>) {
    if expected.None? || !expected.value.Named? || expected.value.typeId != typeId then None
    else
      var args := expected.value.args;
      if typeId == OPTION && |args| == 1 then Some(if variant == 1 then args else [])
      else if typeId == RESULT && |args| == 2 then Some(if variant < 2 then [args[variant]] else [])
      else if typeId == UNFOLD_STEP && |args| == 2 then Some(if variant == 1 then args else [])
      else None
  }

  /** `sum_variant_field_monos`. */
  function FieldMonos(decl: Fields, typeId: nat, variant: nat, expected: Option<MonoType>): (r: seq<MonoType>) {
    var builtin := BuiltinFields(typeId, variant, expected);
    if builtin.Some? then builtin.value else decl(typeId, variant)
  }

  /** Only the payload of `Some` inherits the iterator state. */
  function FieldIter(typeId: nat, variant: nat, iter: Option<IterInfo>): (r: Option<IterInfo>) {
    if typeId == OPTION && variant == 1 then iter else None
  }

  function FieldMono(monos: seq<MonoType>, iter: Option<IterInfo>, i: nat): (r: Option<MonoType>) {
    if iter.Some? then Some(MonoType.Named(ITER_ITEM, [iter.value.yieldTy])) else if i < |monos| then Some(monos[i])
        else None
  }

  predicate IsTypedItem(expected: Option<MonoType>, iter: Option<IterInfo>) {
    iter.Some? && expected.Some? && expected.value.Named? && expected.value.typeId == ITER_ITEM
        && |expected.value.args| == 1
  }

  /** The slot type of a variable where a value of type `expected` is matched. */
  function VarType(te: TypeEnv, expected: Option<MonoType>, iter: Option<IterInfo>): (ty: ValType) {
    if expected.None? || expected.value.Void? then Anyref
    else if IsTypedItem(expected, iter) then RefTo(IterItemSym(iter.value))
    else ValTypeOf(te, expected.value)
  }

  /** `collect_pattern_locals_typed`: the variables of a pattern with their slot types, in order. */
  function TypedLocals(te: TypeEnv, decl: Fields, p: Pattern, expected: Option<MonoType>, iter: Option<IterInfo>)
    : (r: seq<(nat, ValType)>)
    decreases p, 0
  {
    match p
    case PVar(x) => [(x, VarType(te, expected, iter))]
    case PVariant(t, k, fs) => FieldLocals(te, decl, fs, FieldMonos(decl, t, k, expected), FieldIter(t, k, iter), 0)
    case _ => []
  }

  function FieldLocals(te: TypeEnv, decl: Fields, fs: seq<Pattern>, monos: seq<MonoType>, iter: Option<IterInfo>,
                       i: nat)
    : (r: seq<(nat, ValType)>)
    requires i <= |fs|
    decreases fs, |fs| - i
  {
    if i == |fs| then []
    else TypedLocals(te, decl, fs[i], FieldMono(monos, iter, i), iter) + FieldLocals(te, decl, fs, monos, iter, i + 1)
  }

  // ----- Values of a type -----

  /** Aliases stand for value types that can be unboxed. */
  predicate Unboxable(te: TypeEnv) {
    forall id | id in te.defs && te.defs[id].AliasDef? :: CanUnbox(te.defs[id].target)
  }

  /** A reference to which a slot of type `ty` gives access. */
  predicate Fitting(types: map<Sym, StructDef>, ty: ValType, v: Value) {
    v.Opaque? && Storable(types, ty, v.ref)
  }

  /** Slots of type `t` hold typed steps. */
  predicate TypedStepSlot(te: TypeEnv, t: MonoType) {
    t.Named? && t.typeId == UNFOLD_STEP && |t.args| == 2
    && ValTypeOf(te, t) == RefTo(UnfoldStepSym(t.args[0], t.args[1]))
  }

  /**
    `v` is a value of type `t` in the form it has as a component: sums and tuples erased, steps typed or erased,
    everything else by reference.
  */
  predicate Inhabits(types: map<Sym, StructDef>, te: TypeEnv, t: MonoType, v: Value) {
    match t
    case Int => v.IntV?
    case Bool => v.BoolV?
    case Byte => v.ByteV?
    case String => v.StrV?
    case Void => true
    case Never => false
    case TVar(_) => true
    case MetaVar(_) => true
    case Named(id, _) =>
      if v.SumV? then v.typeId == id && (ValTypeOf(te, t) == RefTo(T_VARIANT) || TypedStepSlot(te, t))
      else if v.StepV? then
        t == UnfoldStepType(v.yieldTy, v.seedTy) && (ValTypeOf(te, t) == RefTo(T_VARIANT) || TypedStepSlot(te, t))
      else if v.TupleV? then v.typeId == id && ValTypeOf(te, t) == RefTo(RecordSym(id))
      else Fitting(types, ValTypeOf(te, t), v)
    case _ => Fitting(types, ValTypeOf(te, t), v)
  }

  /** The type a variant pattern for `v` names. */
  function TypeIdOf(v: Value): (id: nat) {
    if v.SumV? || v.TupleV? then v.typeId else UNFOLD_STEP
  }

  /** The value, and every component a pattern can reach, is of the type that the slot types are chosen by. */
  predicate Conforms(types: map<Sym, StructDef>, te: TypeEnv, decl: Fields, v: Value, expected: Option<MonoType>,
                     iter: Option<IterInfo>)
    decreases v
  {
    (expected.Some? ==> if IsTypedItem(expected, iter) then Fitting(types, RefTo(IterItemSym(iter.value)), v)
                        else Inhabits(types, te, expected.value, v))
    && (v.SumV? || v.StepV? ==>
          var monos, below := FieldMonos(decl, TypeIdOf(v), v.variant, expected),
                              FieldIter(TypeIdOf(v), v.variant, iter);
          forall i | 0 <= i < |Parts(v)| :: Conforms(types, te, decl, Parts(v)[i], FieldMono(monos, below, i), below))
    && (v.TupleV? ==> forall i | 0 <= i < |v.items| :: Conforms(types, te, decl, v.items[i], None, None))
  }

  /** `v` is a step in the other form than the slots of its type `t` hold, and neither passes for the other. */
  predicate OtherForm(types: map<Sym, StructDef>, te: TypeEnv, t: MonoType, v: Value) {
    if v.SumV? then TypedStepSlot(te, t) && !SubType(types, T_VARIANT, UnfoldStepSym(t.args[0], t.args[1]))
    else
      v.StepV? && t == UnfoldStepType(v.yieldTy, v.seedTy) && !TypedStepSlot(te, t)
      && !LookalikeStep(te, v.yieldTy, v.seedTy)
  }

  lemma {:induction false} InhabitsStorableIff(types: map<Sym, StructDef>, te: TypeEnv, t: MonoType, v: Value)
    requires RuntimeTypes(types) && Inhabits(types, te, t, v) && Made(types, te, v) && !t.Void?
    ensures Storable(types, ValTypeOf(te, t), Boxed(v)) <==> !OtherForm(types, te, t, v)
  {
    if v.StepV? {
      LookalikeStepIsVariant(types, te, v.yieldTy, v.seedTy);
    }
  }

  /** A variable stands at the value, and its slot is for the other form of it. */
  predicate MisfitHere(types: map<Sym, StructDef>, te: TypeEnv, v: Value, expected: Option<MonoType>,
                       iter: Option<IterInfo>) {
    expected.Some? && !expected.value.Void? && !IsTypedItem(expected, iter) && OtherForm(types, te, expected.value, v)
  }

  /** Some variable of the pattern stands at a step in the other form than its slot is for. */
  predicate Misfit(types: map<Sym, StructDef>, te: TypeEnv, decl: Fields, p: Pattern, v: Value,
                   expected: Option<MonoType>, iter: Option<IterInfo>)
    decreases p
  {
    match p
    case PVar(_) => MisfitHere(types, te, v, expected, iter)
    case PVariant(t, k, fs) =>
      var monos, below := FieldMonos(decl, t, k, expected), FieldIter(t, k, iter);
      exists i | 0 <= i < |fs| :: i < |Parts(v)|
                                  && Misfit(types, te, decl, fs[i], Parts(v)[i], FieldMono(monos, below, i), below)
    case _ => false
  }

  /** A variable can take the value it is meant for, but not the other form of a step. */
  lemma {:induction false} VarStorableIff(types: map<Sym, StructDef>, te: TypeEnv, decl: Fields, v: Value,
                                          expected: Option<MonoType>, iter: Option<IterInfo>)
    requires RuntimeTypes(types) && Conforms(types, te, decl, v, expected, iter) && Made(types, te, v)
    ensures Storable(types, VarType(te, expected, iter), Boxed(v)) <==> !MisfitHere(types, te, v, expected, iter)
  {
    if expected.Some? && !expected.value.Void? && !IsTypedItem(expected, iter) {
      InhabitsStorableIff(types, te, expected.value, v);
    }
  }

  lemma {:induction false} VarUnboxable(te: TypeEnv, expected: Option<MonoType>, iter: Option<IterInfo>)
    requires Unboxable(te)
    ensures CanUnbox(VarType(te, expected, iter))
  {
  }

  // ----- Components fit -----

  /** The components have the variables of the typed list, in its order. */
  predicate Aligned(typed: seq<(nat, ValType)>, cs: seq<(nat, Val)>) {
    |typed| == |cs| && forall i | 0 <= i < |cs| :: typed[i].0 == cs[i].0 && CanUnbox(typed[i].1)
  }

  /** Each component fits its slot type. */
  predicate AllFit(types: map<Sym, StructDef>, typed: seq<(nat, ValType)>, cs: seq<(nat, Val)>)
    requires Aligned(typed, cs)
  {
    forall i | 0 <= i < |cs| :: Storable(types, typed[i].1, cs[i].1)
  }

  lemma {:induction false} FitAppend(types: map<Sym, StructDef>, a: seq<(nat, ValType)>, c: seq<(nat, Val)>,
                                     b: seq<(nat, ValType)>, d: seq<(nat, Val)>)
    requires Aligned(a, c) && Aligned(b, d)
    ensures Aligned(a + b, c + d)
    ensures AllFit(types, a + b, c + d) <==> AllFit(types, a, c) && AllFit(types, b, d)
  {
    var typed, cs := a + b, c + d;
    assert forall i | 0 <= i < |a| :: typed[i] == a[i] && cs[i] == c[i];
    assert forall i | 0 <= i < |b| :: typed[|a| + i] == b[i] && cs[|a| + i] == d[i];
  }

  lemma {:induction false} OneFits(types: map<Sym, StructDef>, x: nat, ty: ValType, w: Val)
    requires CanUnbox(ty)
    ensures Aligned([(x, ty)], [(x, w)])
    ensures AllFit(types, [(x, ty)], [(x, w)]) <==> Storable(types, ty, w)
  {
    assert [(x, ty)][0] == (x, ty) && [(x, w)][0] == (x, w);
  }

  /** Records have no variants, so nothing is known about the fields of a tuple pattern. */
  ghost predicate TuplesUntyped(te: TypeEnv, decl: Fields) {
    forall id: nat, k: nat | IsRecord(te, id) :: decl(id, k) == []
  }

  /** Tuples are values of record types. */
  predicate TuplesAreRecords(te: TypeEnv, v: Value)
    decreases v
  {
    (v.TupleV? ==> IsRecord(te, v.typeId)) && forall i | 0 <= i < |Parts(v)| :: TuplesAreRecords(te, Parts(v)[i])
  }

  ghost predicate SlotsApply(types: map<Sym, StructDef>, te: TypeEnv, decl: Fields) {
    RuntimeTypes(types) && Unboxable(te) && TuplesUntyped(te, decl)
    && !IsRecord(te, OPTION) && !IsRecord(te, RESULT) && !IsRecord(te, UNFOLD_STEP)
  }

  /** Each field of the value is of the type its sub-pattern is given slots for. */
  predicate FieldsConform(types: map<Sym, StructDef>, te: TypeEnv, decl: Fields, vs: seq<Value>, monos: seq<MonoType>,
                          iter: Option<IterInfo>) {
    forall i | 0 <= i < |vs| ::
      Conforms(types, te, decl, vs[i], FieldMono(monos, iter, i), iter) && TuplesAreRecords(te, vs[i])
      && Made(types, te, vs[i])
  }

  lemma {:induction false} PartsConform(types: map<Sym, StructDef>, te: TypeEnv, decl: Fields, p: Pattern, v: Value,
                                        expected: Option<MonoType>, iter: Option<IterInfo>)
    requires SlotsApply(types, te, decl) && p.PVariant? && Matches(p, v)
    requires Conforms(types, te, decl, v, expected, iter) && TuplesAreRecords(te, v) && Made(types, te, v)
    ensures |p.fields| <= |Parts(v)| && forall i | 0 <= i < |p.fields| :: Matches(p.fields[i], Parts(v)[i])
    ensures FieldsConform(types, te, decl, Parts(v), FieldMonos(decl, p.typeId, p.variant, expected),
                          FieldIter(p.typeId, p.variant, iter))
  {
  }

  /**
    What a matching pattern stores fits into the slots chosen for its variables if and only if no variable stands at
    a step in the other form.
  */
  lemma {:induction false} ComponentsFitIff(types: map<Sym, StructDef>, te: TypeEnv, decl: Fields, p: Pattern,
                                            v: Value, expected: Option<MonoType>, iter: Option<IterInfo>)
    requires SlotsApply(types, te, decl) && Matches(p, v)
    requires Conforms(types, te, decl, v, expected, iter) && TuplesAreRecords(te, v) && Made(types, te, v)
    ensures Aligned(TypedLocals(te, decl, p, expected, iter), Components(p, v, Boxed(v)))
    ensures AllFit(types, TypedLocals(te, decl, p, expected, iter), Components(p, v, Boxed(v)))
       <==> !Misfit(types, te, decl, p, v, expected, iter)
    decreases p, 1
  {
    if p.PVar? {
      VarStorableIff(types, te, decl, v, expected, iter);
      VarUnboxable(te, expected, iter);
      OneFits(types, p.local, VarType(te, expected, iter), Boxed(v));
    } else if p.PVariant? {
      PartsConform(types, te, decl, p, v, expected, iter);
      var monos, below := FieldMonos(decl, p.typeId, p.variant, expected), FieldIter(p.typeId, p.variant, iter);
      FieldsFitIff(types, te, decl, p.fields, Parts(v), monos, below, 0);
      MisfitOfFields(types, te, decl, p, v, expected, iter);
    }
  }

  /** Some field from index `i` on has a misfit. */
  predicate FieldMisfit(types: map<Sym, StructDef>, te: TypeEnv, decl: Fields, fs: seq<Pattern>, vs: seq<Value>,
                        monos: seq<MonoType>, iter: Option<IterInfo>, i: nat)
    requires i <= |fs| <= |vs|
  {
    exists j | i <= j < |fs| :: Misfit(types, te, decl, fs[j], vs[j], FieldMono(monos, iter, j), iter)
  }

  lemma {:induction false} MisfitOfFields(types: map<Sym, StructDef>, te: TypeEnv, decl: Fields, p: Pattern, v: Value,
                                          expected: Option<MonoType>, iter: Option<IterInfo>)
    requires p.PVariant? && |p.fields| <= |Parts(v)|
    ensures Misfit(types, te, decl, p, v, expected, iter)
       <==> FieldMisfit(types, te, decl, p.fields, Parts(v), FieldMonos(decl, p.typeId, p.variant, expected),
                        FieldIter(p.typeId, p.variant, iter), 0)
  {
  }

  lemma {:induction false} FieldsFitIff(types: map<Sym, StructDef>, te: TypeEnv, decl: Fields, fs: seq<Pattern>,
                                        vs: seq<Value>, monos: seq<MonoType>, iter: Option<IterInfo>, i: nat)
    requires SlotsApply(types, te, decl) && i <= |fs| <= |vs| && (forall j | 0 <= j < |fs| :: Matches(fs[j], vs[j]))
    requires FieldsConform(types, te, decl, vs, monos, iter)
    ensures Aligned(FieldLocals(te, decl, fs, monos, iter, i), FieldComponents(fs, vs, i))
    ensures AllFit(types, FieldLocals(te, decl, fs, monos, iter, i), FieldComponents(fs, vs, i))
       <==> !FieldMisfit(types, te, decl, fs, vs, monos, iter, i)
    decreases fs, |fs| - i
  {
    if i < |fs| {
      FieldsFitIff(types, te, decl, fs, vs, monos, iter, i + 1);
      OneFieldFitsIff(types, te, decl, fs, vs, monos, iter, i);
      FitAppend(types, TypedLocals(te, decl, fs[i], FieldMono(monos, iter, i), iter),
                Components(fs[i], vs[i], Boxed(vs[i])),
                FieldLocals(te, decl, fs, monos, iter, i + 1), FieldComponents(fs, vs, i + 1));
      FieldMisfitStep(types, te, decl, fs, vs, monos, iter, i);
    }
  }

  lemma {:induction false} FieldMisfitStep(types: map<Sym, StructDef>, te: TypeEnv, decl: Fields, fs: seq<Pattern>,
                                           vs: seq<Value>, monos: seq<MonoType>, iter: Option<IterInfo>, i: nat)
    requires i < |fs| <= |vs|
    ensures FieldMisfit(types, te, decl, fs, vs, monos, iter, i)
       <==> Misfit(types, te, decl, fs[i], vs[i], FieldMono(monos, iter, i), iter)
            || FieldMisfit(types, te, decl, fs, vs, monos, iter, i + 1)
  {
  }

  lemma {:induction false} OneFieldFitsIff(types: map<Sym, StructDef>, te: TypeEnv, decl: Fields, fs: seq<Pattern>,
                                           vs: seq<Value>, monos: seq<MonoType>, iter: Option<IterInfo>, i: nat)
    requires SlotsApply(types, te, decl) && i < |fs| <= |vs| && Matches(fs[i], vs[i])
             && FieldsConform(types, te, decl, vs, monos, iter)
    ensures Aligned(TypedLocals(te, decl, fs[i], FieldMono(monos, iter, i), iter),
                    Components(fs[i], vs[i], Boxed(vs[i])))
    ensures AllFit(types, TypedLocals(te, decl, fs[i], FieldMono(monos, iter, i), iter),
                   Components(fs[i], vs[i], Boxed(vs[i])))
       <==> !Misfit(types, te, decl, fs[i], vs[i], FieldMono(monos, iter, i), iter)
    decreases fs, 0
  {
    ComponentsFitIff(types, te, decl, fs[i], vs[i], FieldMono(monos, iter, i), iter);
  }

  // ----- Several arms -----

  /** Two occurrences of a variable: their common type, or `anyref` when they disagree. */
  function JoinType(a: Option<ValType>, ty: ValType): (r: ValType) { if a == None || a == Some(ty) then ty else Anyref }

  /** The type of `x` over all its occurrences. */
  function Joined(typed: seq<(nat, ValType)>, x: nat): (r: Option<ValType>) {
    if typed == [] then None
    else
      var before, last := Joined(typed[..|typed| - 1], x), typed[|typed| - 1];
      if last.0 == x then Some(JoinType(before, last.1)) else before
  }

  predicate Occurs(typed: seq<(nat, ValType)>, x: nat) { exists i :: 0 <= i < |typed| && typed[i].0 == x }

  /** All occurrences of `x` have type `ty`. */
  predicate AllOf(typed: seq<(nat, ValType)>, x: nat, ty: ValType) {
    forall i | 0 <= i < |typed| && typed[i].0 == x :: typed[i].1 == ty
  }

  /** Occurrences that agree keep their type; occurrences that do not make it `anyref`. */
  lemma {:induction false} JoinedMeaning(typed: seq<(nat, ValType)>, x: nat)
    ensures Joined(typed, x).Some? <==> Occurs(typed, x)
    ensures Joined(typed, x).Some? ==> AllOf(typed, x, Joined(typed, x).value) || Joined(typed, x).value == Anyref
    ensures forall ty: ValType | Occurs(typed, x) && AllOf(typed, x, ty) :: Joined(typed, x) == Some(ty)
  {
    if typed != [] {
      var front, last := typed[..|typed| - 1], typed[|typed| - 1];
      JoinedMeaning(front, x);
      assert forall i | 0 <= i < |front| :: front[i] == typed[i];
      assert Occurs(typed, x) <==> Occurs(front, x) || last.0 == x;
      assert forall ty: ValType :: AllOf(typed, x, ty) <==> AllOf(front, x, ty) && (last.0 == x ==> last.1 == ty);
    }
  }

  /** A slot of the joined type takes whatever one of the occurrences takes. */
  lemma {:induction false} JoinedStorable(types: map<Sym, StructDef>, typed: seq<(nat, ValType)>, i: nat, w: Val)
    requires i < |typed| && Storable(types, typed[i].1, w) && CanUnbox(typed[i].1)
    ensures var ty := Joined(typed, typed[i].0); ty.Some? && Storable(types, ty.value, w) && CanUnbox(ty.value)
  {
    JoinedMeaning(typed, typed[i].0);
  }
}
