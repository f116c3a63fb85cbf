/** The types that the emitter assumes of pattern variables while it emits the body of an arm. */
module ArmTypes {
  import opened Base
  import opened Wasm
  import opened Mono
  import opened Values
  import opened Match
  import opened MatchBindings
  import opened Typing
  import opened Emission

  /** The variables of a pattern with the components they stand at, in order. */
  function BoundValues(p: Pattern, v: Value): (r: seq<(nat, Value)>)
    decreases p, 0
  {
    match p
    case PVar(x) => [(x, v)]
    case PVariant(_, _, fs) => FieldBoundValues(fs, Parts(v), 0)
    case _ => []
  }

  function FieldBoundValues(fs: seq<Pattern>, vs: seq<Value>, i: nat): (r: seq<(nat, Value)>)
    requires i <= |fs|
    decreases fs, |fs| - i
  {
    if i == |fs| || i >= |vs| then [] else BoundValues(fs[i], vs[i]) + FieldBoundValues(fs, vs, i + 1)
  }

  /** Built-in sums alone say what their components are; below tuples and user enums nothing is known. */
  function KnownPart(decl: Fields, t: Option<MonoType>, v: Value, i: nat): (r: Option<MonoType>)
    requires i < |Parts(v)|
  {
    if v.StepV? then Argument(t, i) else if SaysParts(v) && v.SumV? then PartType(decl, t, v, i) else None
  }

  /** The variables of a pattern with what is known of their types, in order. */
  function BoundTypes(decl: Fields, p: Pattern, v: Value, t: Option<MonoType>): (r: seq<(nat, Option<MonoType>)>)
    decreases p, 0
  {
    match p
    case PVar(x) => [(x, t)]
    case PVariant(_, _, fs) => FieldBoundTypes(decl, fs, v, t, 0)
    case _ => []
  }

  function FieldBoundTypes(decl: Fields, fs: seq<Pattern>, v: Value, t: Option<MonoType>, i: nat)
    : (r: seq<(nat, Option<MonoType>)>)
    requires i <= |fs|
    decreases fs, |fs| - i
  {
    if i == |fs| || i >= |Parts(v)| then []
    else BoundTypes(decl, fs[i], Parts(v)[i], KnownPart(decl, t, v, i)) + FieldBoundTypes(decl, fs, v, t, i + 1)
  }

  /** What an arm assumes of its variables is what is known of the components they are bound to. */
  lemma {:induction false} ArmAssumes(types: map<Sym, StructDef>, te: TypeEnv, decl: Fields, p: Pattern, v: Value,
                                      t: Option<MonoType>)
    requires Prelude(te, decl) && Typed(types, te, decl, t, v) && Matches(p, v)
    ensures PatternMonos(te, p, t, None) == BoundTypes(decl, p, v, t)
    decreases p, 1
  {
    if p.PVariant? {
      FieldsAssume(types, te, decl, p, v, t, 0);
    }
  }

  lemma {:induction false} FieldsAssume(types: map<Sym, StructDef>, te: TypeEnv, decl: Fields, p: Pattern, v: Value,
                                        t: Option<MonoType>, i: nat)
    requires Prelude(te, decl) && Typed(types, te, decl, t, v) && Matches(p, v) && p.PVariant? && i <= |p.fields|
    ensures FieldsMonos(te, p.typeId, p.variant, p.fields, t, None, i) == FieldBoundTypes(decl, p.fields, v, t, i)
    decreases p, 0, |p.fields| - i
  {
    if i < |p.fields| {
      assert i < |Parts(v)| && Matches(p.fields[i], Parts(v)[i]);
      FieldAssumed(types, te, decl, p, v, t, i);
      KnownTyped(types, te, decl, t, v, i);
      ArmAssumes(types, te, decl, p.fields[i], Parts(v)[i], KnownPart(decl, t, v, i));
      FieldsAssume(types, te, decl, p, v, t, i + 1);
    }
  }

  lemma {:induction false} FieldAssumed(types: map<Sym, StructDef>, te: TypeEnv, decl: Fields, p: Pattern, v: Value,
                                        t: Option<MonoType>, i: nat)
    requires Prelude(te, decl) && Typed(types, te, decl, t, v) && Matches(p, v) && p.PVariant? && i < |Parts(v)|
    ensures ArmFieldMono(te, p.typeId, p.variant, t, None, i) == KnownPart(decl, t, v, i)
  {
  }

  lemma {:induction false} KnownTyped(types: map<Sym, StructDef>, te: TypeEnv, decl: Fields, t: Option<MonoType>,
                                      v: Value, i: nat)
    requires Typed(types, te, decl, t, v) && i < |Parts(v)|
    ensures Typed(types, te, decl, KnownPart(decl, t, v, i), Parts(v)[i])
  {
    TypedWeaken(types, te, decl, PartType(decl, t, v, i), Parts(v)[i]);
  }

  // ----- The assumptions are right -----

  /** Each variable has the type it is listed with. */
  predicate Right(types: map<Sym, StructDef>, te: TypeEnv, decl: Fields, ts: seq<(nat, Option<MonoType>)>,
                  vs: seq<(nat, Value)>) {
    |ts| == |vs|
    && forall j | 0 <= j < |ts| :: ts[j].0 == vs[j].0 && Typed(types, te, decl, ts[j].1, vs[j].1)
  }

  /** The components that an arm stores have the types that its body is emitted under. */
  lemma {:induction false} ArmTypesRight(types: map<Sym, StructDef>, te: TypeEnv, decl: Fields, p: Pattern, v: Value,
                                         t: Option<MonoType>)
    requires Prelude(te, decl) && Typed(types, te, decl, t, v) && Matches(p, v)
    ensures Right(types, te, decl, PatternMonos(te, p, t, None), BoundValues(p, v))
  {
    ArmAssumes(types, te, decl, p, v, t);
    BoundTypesRight(types, te, decl, p, v, t);
  }

  lemma {:induction false} BoundTypesRight(types: map<Sym, StructDef>, te: TypeEnv, decl: Fields, p: Pattern, v: Value,
                                           t: Option<MonoType>)
    requires Typed(types, te, decl, t, v)
    ensures Right(types, te, decl, BoundTypes(decl, p, v, t), BoundValues(p, v))
    decreases p, 1
  {
    if p.PVariant? {
      FieldTypesRight(types, te, decl, p.fields, v, t, 0);
    }
  }

  lemma {:induction false} RightAppend(types: map<Sym, StructDef>, te: TypeEnv, decl: Fields,
                                       a: seq<(nat, Option<MonoType>)>, b: seq<(nat, Value)>,
                                       c: seq<(nat, Option<MonoType>)>, d: seq<(nat, Value)>)
    requires Right(types, te, decl, a, b) && Right(types, te, decl, c, d)
    ensures Right(types, te, decl, a + c, b + d)
  {
    forall j | 0 <= j < |a + c|
      ensures (a + c)[j].0 == (b + d)[j].0 && Typed(types, te, decl, (a + c)[j].1, (b + d)[j].1)
    {
      if j >= |a| {
        assert (a + c)[j] == c[j - |a|] && (b + d)[j] == d[j - |a|];
      }
    }
  }

  lemma {:induction false} FieldTypesRight(types: map<Sym, StructDef>, te: TypeEnv, decl: Fields, fs: seq<Pattern>,
                                           v: Value, t: Option<MonoType>, i: nat)
    requires Typed(types, te, decl, t, v) && i <= |fs|
    ensures Right(types, te, decl, FieldBoundTypes(decl, fs, v, t, i), FieldBoundValues(fs, Parts(v), i))
    decreases fs, 0, |fs| - i
  {
    if i < |fs| && i < |Parts(v)| {
      KnownTyped(types, te, decl, t, v, i);
      BoundTypesRight(types, te, decl, fs[i], Parts(v)[i], KnownPart(decl, t, v, i));
      FieldTypesRight(types, te, decl, fs, v, t, i + 1);
      RightAppend(types, te, decl, BoundTypes(decl, fs[i], Parts(v)[i], KnownPart(decl, t, v, i)),
                  BoundValues(fs[i], Parts(v)[i]), FieldBoundTypes(decl, fs, v, t, i + 1),
                  FieldBoundValues(fs, Parts(v), i + 1));
    }
  }

  /** The bound values are the components that the bindings store. */
  lemma {:induction false} BoundAreComponents(p: Pattern, v: Value)
    ensures |BoundValues(p, v)| == |Components(p, v, Boxed(v))|
    ensures forall j | 0 <= j < |BoundValues(p, v)| ::
              Components(p, v, Boxed(v))[j] == (BoundValues(p, v)[j].0, Boxed(BoundValues(p, v)[j].1))
    decreases p, 1
  {
    if p.PVariant? {
      FieldsAreComponents(p.fields, Parts(v), 0);
    }
  }

  lemma {:induction false} FieldsAreComponents(fs: seq<Pattern>, vs: seq<Value>, i: nat)
    requires i <= |fs|
    ensures |FieldBoundValues(fs, vs, i)| == |FieldComponents(fs, vs, i)|
    ensures forall j | 0 <= j < |FieldBoundValues(fs, vs, i)| ::
              var b := FieldBoundValues(fs, vs, i)[j];
              FieldComponents(fs, vs, i)[j] == (b.0, Boxed(b.1))
    decreases fs, 0, |fs| - i
  {
    if i < |fs| && i < |vs| {
      BoundAreComponents(fs[i], vs[i]);
      FieldsAreComponents(fs, vs, i + 1);
    }
  }

  // ----- Iterator items -----

  /** The payload of an iterator-next Option is an iterator item, whatever else is known about the scrutinee. */
  lemma {:induction false} ItemAssumed(te: TypeEnv, info: IterInfo, x: nat, expected: Option<MonoType>)
    requires te.sigs != {}
    ensures PatternMonos(te, PVariant(OPTION, 1, [PVar(x)]), expected, Some(info))
         == [(x, Some(if expected.Some? && IsIterItemOption(expected.value) then expected.value.args[0]
                      else MonoType.Named(ITER_ITEM, [info.yieldTy])))]
  {
    var fs := [PVar(x)];
    var mono := ArmFieldMono(te, OPTION, 1, expected, Some(info), 0);
    assert FieldsMonos(te, OPTION, 1, fs, expected, Some(info), 1) == [];
    assert PatternMonos(te, fs[0], mono, Some(info)) == [(x, mono)];
    assert FieldsMonos(te, OPTION, 1, fs, expected, Some(info), 0) == [(x, mono)] + [];
  }
}
