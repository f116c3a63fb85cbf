/** Source values and the ways the backend represents them. */
module Values {
  import opened Base
  import opened Wasm
  import opened Mono
  import opened Coercions

  /**
    A Twinkle value as patterns see it. `StepV` is an UnfoldStep that is a component of another value in its typed
    form, with the reference to its struct. `Opaque` stands for a value no pattern looks into (a float, a vector, a
    closure, an iterator item): it is given by its reference.
  */
  datatype Value =
    | IntV(n: int)
    | BoolV(b: bool)
    | ByteV(n: int)
    | StrV(bytes: seq<int>)
    | SumV(typeId: nat, variant: nat, args: seq<Value>)
    | TupleV(typeId: nat, items: seq<Value>)
    | StepV(yieldTy: MonoType, seedTy: MonoType, variant: nat, args: seq<Value>, ref: Val)
    | Opaque(ref: Val)

  function ByteVals(bytes: seq<int>): (vs: seq<Val>) { seq(|bytes|, i requires 0 <= i < |bytes| => I32Val(bytes[i])) }

  /** Different strings have different forms. */
  lemma ByteValsInjective(a: seq<int>, b: seq<int>)
    requires ByteVals(a) == ByteVals(b)
    ensures a == b
  {
    assert forall i | 0 <= i < |a| :: ByteVals(a)[i] == I32Val(a[i]);
    assert forall i | 0 <= i < |b| :: ByteVals(b)[i] == I32Val(b[i]);
    assert |ByteVals(a)| == |a| && |ByteVals(b)| == |b|;
  }

  /**
    The form as a component: numbers boxed, sums as `$Variant`, tuples as the record struct with `anyref` fields, and
    typed steps as they are.
  */
  function Boxed(v: Value): (w: Val)
    decreases v, 1
  {
    match v
    case IntV(n) => StructRef(T_BOXED_INT, [I64Val(n)])
    case BoolV(b) => I31Ref(BoolInt(b))
    case ByteV(n) => I31Ref(n)
    case StrV(bytes) => ArrayRef(T_STRING, ByteVals(bytes))
    case SumV(t, k, args) => StructRef(T_VARIANT, [I32Val(t), I32Val(k), ArrayRef(T_ARRAY, BoxedAll(args))])
    case TupleV(t, items) => StructRef(RecordSym(t), BoxedAll(items))
    case StepV(_, _, _, _, w) => w
    case Opaque(w) => w
  }

  function BoxedAll(vs: seq<Value>): (ws: seq<Val>)
    ensures |ws| == |vs|
    ensures forall i :: 0 <= i < |vs| ==> ws[i] == Boxed(vs[i])
    decreases vs, 0
  {
    if vs == [] then [] else [Boxed(vs[0])] + BoxedAll(vs[1..])
  }

  /** Components of a value. */
  function Parts(v: Value): (vs: seq<Value>)
    ensures forall i | 0 <= i < |vs| :: vs[i] < v
  {
    if v.SumV? || v.StepV? then v.args else if v.TupleV? then v.items else []
  }

  // ----- Typed layouts -----

  /** A typed slot of type `t` holds the component `a`. */
  predicate Holds(types: map<Sym, StructDef>, w: Val, t: ValType, a: Value) {
    HasType(types, w, t) && Box(t, w) == Boxed(a)
  }

  /** The struct field where a typed Option or Result keeps field `i` of `variant`. */
  function SumFieldOffset(t: MonoType, variant: nat, i: nat): (k: nat) {
    if t.Named? && t.typeId == RESULT then variant + 1 + i else 1 + i
  }

  /** The type of field `i` of `variant` of a typed Option or Result. */
  function SumFieldMono(t: MonoType, variant: nat, i: nat): (r: Option<MonoType>) {
    if t.Named? && t.typeId == RESULT && |t.args| == 2 then
      if i == 0 && variant < 2 then Some(t.args[variant]) else None
    else if t.Named? && t.typeId == OPTION && |t.args| == 1 then
      if variant == 1 && i == 0 then Some(t.args[0]) else None
    else None
  }

  /** How many fields a variant of Option (`None`, `Some`) or Result (`Ok`, `Err`) has. */
  function SumArity(t: MonoType, variant: nat): (n: nat) {
    if t.Named? && t.typeId == OPTION && variant == 0 then 0 else 1
  }

  /**
    `w` is the typed struct of the Option or Result `v : t`. Slots of the other variant hold whatever default the
    literal wrote there.
  */
  predicate SumRep(types: map<Sym, StructDef>, te: TypeEnv, t: MonoType, w: Val, v: Value) {
    IsSumCandidate(t)
    && v.SumV? && v.typeId == t.typeId && v.variant < 2 && |v.args| == SumArity(t, v.variant)
    && w.StructRef? && w.sym == SumSym(t) && |w.fields| == |SumDefOf(te, t).fields|
    && w.fields[0] == I32Val(v.variant)
    && forall i | 0 <= i < |v.args| ::
         Holds(types, w.fields[SumFieldOffset(t, v.variant, i)], ValTypeOf(te, SumFieldMono(t, v.variant, i).value),
               v.args[i])
  }

  /** `w` is the typed struct of the UnfoldStep `v`: `Done` or `Yield(value, seed)`. */
  predicate StepRep(types: map<Sym, StructDef>, te: TypeEnv, y: MonoType, s: MonoType, w: Val, v: Value) {
    v.SumV? && v.typeId == UNFOLD_STEP && v.variant < 2 && |v.args| == (if v.variant == 0 then 0 else 2)
    && w.StructRef? && w.sym == UnfoldStepSym(y, s) && |w.fields| == 3 && w.fields[0] == I32Val(v.variant)
    && (v.variant == 1 ==>
          (Holds(types, w.fields[1], ValTypeOf(te, y), v.args[0])
           && Holds(types, w.fields[2], ValTypeOf(te, s), v.args[1])))
  }

  /** `w` is the typed struct of an iterator-next Option; a present item is its own typed struct. */
  predicate IterOptionRep(types: map<Sym, StructDef>, info: IterInfo, w: Val, v: Value) {
    v.SumV? && v.typeId == OPTION && v.variant < 2 && |v.args| == v.variant
    && w.StructRef? && w.sym == IterOptionSym(info) && |w.fields| == 2 && w.fields[0] == I32Val(v.variant)
    && (v.variant == 1 ==>
          (v.args[0] == Opaque(w.fields[1]) && HasType(types, w.fields[1], RefTo(IterItemSym(info)))))
  }

  // ----- Typed steps as components -----

  /** The fields of a struct have the types of its definition. */
  predicate FieldsTyped(types: map<Sym, StructDef>, w: Val, d: StructDef) {
    w.StructRef? && |w.fields| == |d.fields|
    && forall k | 0 <= k < |d.fields| :: HasType(types, w.fields[k], d.fields[k].ty)
  }

  /** Every typed step in the value is the struct of that step, and the module declares its type. */
  predicate Made(types: map<Sym, StructDef>, te: TypeEnv, v: Value)
    decreases v
  {
    (v.StepV? ==>
       StepRep(types, te, v.yieldTy, v.seedTy, v.ref, SumV(UNFOLD_STEP, v.variant, v.args))
       && UnfoldStepSym(v.yieldTy, v.seedTy) in types
       && types[UnfoldStepSym(v.yieldTy, v.seedTy)] == UnfoldStepDef(te, v.yieldTy, v.seedTy)
       && FieldsTyped(types, v.ref, UnfoldStepDef(te, v.yieldTy, v.seedTy)))
    && forall i | 0 <= i < |Parts(v)| :: Made(types, te, Parts(v)[i])
  }

  predicate HasTypedStep(v: Value)
    decreases v
  {
    v.StepV? || exists i | 0 <= i < |Parts(v)| :: HasTypedStep(Parts(v)[i])
  }

  /** The same value with every step in erased form. */
  function Erased(v: Value): (r: Value)
    decreases v, 1
  {
    match v
    case SumV(t, k, args) => SumV(t, k, ErasedAll(args))
    case TupleV(t, items) => TupleV(t, ErasedAll(items))
    case StepV(_, _, k, args, _) => SumV(UNFOLD_STEP, k, ErasedAll(args))
    case _ => v
  }

  function ErasedAll(vs: seq<Value>): (rs: seq<Value>)
    ensures |rs| == |vs|
    ensures forall i | 0 <= i < |vs| :: rs[i] == Erased(vs[i])
    decreases vs, 0
  {
    if vs == [] then [] else [Erased(vs[0])] + ErasedAll(vs[1..])
  }

  /** The struct of a step has, field for field, the definition of `$Variant`. */
  predicate LookalikeStep(te: TypeEnv, y: MonoType, s: MonoType) {
    ValTypeOf(te, y) == I32 && ValTypeOf(te, s) == RefTo(T_ARRAY)
  }

  lemma {:induction false} LookalikeStepIsVariant(types: map<Sym, StructDef>, te: TypeEnv, y: MonoType, s: MonoType)
    requires RuntimeTypes(types) && UnfoldStepSym(y, s) in types
    requires types[UnfoldStepSym(y, s)] == UnfoldStepDef(te, y, s)
    ensures UnfoldStepSym(y, s) != T_VARIANT
    ensures SubType(types, UnfoldStepSym(y, s), T_VARIANT) <==> LookalikeStep(te, y, s)
  {
    assert UnfoldStepSym(y, s)[0] != T_VARIANT[0];
    if LookalikeStep(te, y, s) {
      assert UnfoldStepDef(te, y, s).fields == VARIANT_DEF.fields;
    }
  }

  /** In a slot for typed steps a step is in typed form, unless its type passes for `$Variant`. */
  lemma {:induction false} StepInTypedSlot(types: map<Sym, StructDef>, te: TypeEnv, y: MonoType, s: MonoType, w: Val,
                                           a: Value)
    requires RuntimeTypes(types) && UnfoldStepSym(y, s) in types
    requires types[UnfoldStepSym(y, s)] == UnfoldStepDef(te, y, s) && !LookalikeStep(te, y, s)
    requires Holds(types, w, RefTo(UnfoldStepSym(y, s)), a)
    ensures !a.SumV?
  {
    LookalikeStepIsVariant(types, te, y, s);
  }

  /** A value is in erased form throughout exactly when no component is a typed step. */
  lemma {:induction false} ErasedThroughoutIff(types: map<Sym, StructDef>, te: TypeEnv, v: Value)
    requires Made(types, te, v)
    ensures Boxed(v) == Boxed(Erased(v)) <==> !HasTypedStep(v)
    decreases v
  {
    if v.StepV? {
      assert UnfoldStepSym(v.yieldTy, v.seedTy)[0] != T_VARIANT[0];
    } else if v.SumV? || v.TupleV? {
      var parts := Parts(v);
      forall i | 0 <= i < |parts|
        ensures Boxed(parts[i]) == Boxed(Erased(parts[i])) <==> !HasTypedStep(parts[i])
      {
        ErasedThroughoutIff(types, te, parts[i]);
      }
      SameBoxesIff(parts);
    }
  }

  lemma {:induction false} SameBoxesIff(vs: seq<Value>)
    ensures BoxedAll(vs) == BoxedAll(ErasedAll(vs)) <==>
            forall i | 0 <= i < |vs| :: Boxed(vs[i]) == Boxed(Erased(vs[i]))
  {
    var a, b := BoxedAll(vs), BoxedAll(ErasedAll(vs));
    assert forall i | 0 <= i < |vs| :: a[i] == Boxed(vs[i]) && b[i] == Boxed(Erased(vs[i]));
  }
}
