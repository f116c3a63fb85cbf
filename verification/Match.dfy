/**
  Match compilation: the code `emit_pattern_condition`, `emit_pattern_bindings` and `emit_match_arm_chain` emit. The
  three typed layouts and the erased one share one shape: check the tag, then project each field.
*/
module Match {
  import opened Base
  import opened Wasm
  import opened Mono
  import opened CodeCalculus
  import opened Coercions
  import opened Values

  datatype Pattern =
    | Wildcard
    | PVar(local: nat)
    | LitInt(n: int)
    | LitBool(b: bool)
    | LitStr(bytes: seq<int>)
    | PVariant(typeId: nat, variant: nat, fields: seq<Pattern>)

  // ----- What a pattern means -----

  predicate Matches(p: Pattern, v: Value) {
    match p
    case Wildcard => true
    case PVar(_) => true
    case LitInt(n) => v == IntV(n) || v == ByteV(n)
    case LitBool(b) => v == BoolV(b)
    case LitStr(s) => v == StrV(s)
    case PVariant(t, k, fs) =>
      match v
      case SumV(t', k', args) =>
        t == t' && k == k' && |fs| <= |args| && forall i | 0 <= i < |fs| :: Matches(fs[i], args[i])
      case TupleV(t', items) => t == t' && |fs| <= |items| && forall i | 0 <= i < |fs| :: Matches(fs[i], items[i])
      case StepV(_, _, k', args, _) =>
        t == UNFOLD_STEP && k == k' && |fs| <= |args| && forall i | 0 <= i < |fs| :: Matches(fs[i], args[i])
      case _ => false
  }

  /** Whether a step is in typed form makes no difference to what a pattern means. */
  lemma {:induction false} MatchesErased(p: Pattern, v: Value)
    ensures Matches(p, v) <==> Matches(p, Erased(v))
    decreases p
  {
    if p.PVariant? && |p.fields| <= |Parts(v)| {
      assert |Parts(Erased(v))| == |Parts(v)|;
      forall i | 0 <= i < |p.fields|
        ensures Matches(p.fields[i], Parts(v)[i]) <==> Matches(p.fields[i], Parts(Erased(v))[i])
      {
        MatchesErased(p.fields[i], Parts(v)[i]);
      }
    }
  }

  // ----- Patterns on typed steps -----

  /** The code that looks into `v` with this variant pattern reaches the fields. */
  predicate TagFits(t: nat, k: nat, v: Value) {
    if v.SumV? then t == v.typeId && k == v.variant else v.TupleV? && t == v.typeId
  }

  /** Under matching tags, a variant sub-pattern stands at a component that is a step in typed form. */
  predicate MeetsStep(p: Pattern, v: Value) {
    p.PVariant?
    && (v.StepV?
        || (TagFits(p.typeId, p.variant, v)
            && exists i | 0 <= i < |p.fields| :: i < |Parts(v)| && MeetsStep(p.fields[i], Parts(v)[i])))
  }

  /** The same for a step whose struct does not pass for `$Variant`. */
  predicate Stumbles(te: TypeEnv, p: Pattern, v: Value) {
    p.PVariant?
    && (if v.StepV? then !LookalikeStep(te, v.yieldTy, v.seedTy)
        else TagFits(p.typeId, p.variant, v)
             && exists i | 0 <= i < |p.fields| :: i < |Parts(v)| && Stumbles(te, p.fields[i], Parts(v)[i]))
  }

  lemma {:induction false} StumblingMeets(te: TypeEnv, p: Pattern, v: Value)
    requires Stumbles(te, p, v)
    ensures MeetsStep(p, v)
    decreases p
  {
    if !v.StepV? {
      var i :| 0 <= i < |p.fields| && i < |Parts(v)| && Stumbles(te, p.fields[i], Parts(v)[i]);
      StumblingMeets(te, p.fields[i], Parts(v)[i]);
    }
  }

  lemma {:induction false} MeetsOnlyTyped(p: Pattern, v: Value)
    requires MeetsStep(p, v)
    ensures HasTypedStep(v)
    decreases p
  {
    if !v.StepV? {
      var i :| 0 <= i < |p.fields| && i < |Parts(v)| && MeetsStep(p.fields[i], Parts(v)[i]);
      MeetsOnlyTyped(p.fields[i], Parts(v)[i]);
    }
  }

  // ----- Emission -----

  /** Flow metadata about the scrutinee: it holds an iterator-next Option, an UnfoldStep or a typed Option/Result. */
  datatype Hints = Hints(iter: Option<IterInfo>, step: Option<(MonoType, MonoType)>, sum: Option<MonoType>)

  const NO_HINTS := Hints(None, None, None)

  function SumHints(t: MonoType): (h: Hints) { Hints(None, None, Some(t)) }

  /** What emission reads from the context: types, the slot and type of each local, pooled string getters. */
  datatype MatchCtx = MatchCtx(te: TypeEnv, slots: map<nat, (nat, ValType)>, getter: seq<int> -> Sym)

  predicate IsRecord(te: TypeEnv, id: nat) { id in te.defs && te.defs[id].RecordDef? }

  predicate IsTrivial(p: Pattern) { p.Wildcard? || p.PVar? }

  predicate IsIterItemOption(t: MonoType) {
    t.Named? && t.typeId == OPTION && |t.args| == 1
    && t.args[0].Named? && t.args[0].typeId == ITER_ITEM && |t.args[0].args| == 1
  }

  /** `typed_iter_option_pattern_info`. */
  function IterPattern(te: TypeEnv, typeId: nat, expected: Option<MonoType>, iter: Option<IterInfo>)
    : (r: Option<(Sym, MonoType)>)
  {
    if te.sigs == {} || typeId != OPTION || iter.None? then None
    else
      var payload := if expected.Some? && IsIterItemOption(expected.value) then expected.value.args[0]
                     else MonoType.Named(ITER_ITEM, [iter.value.yieldTy]);
      Some((IterOptionSym(iter.value), payload))
  }

  /** `typed_unfold_step_pattern_info`. */
  predicate IsStepPattern(te: TypeEnv, typeId: nat, expected: Option<MonoType>, step: Option<(MonoType, MonoType)>) {
    te.sigs != {} && typeId == UNFOLD_STEP && step.Some?
    && expected == Some(UnfoldStepType(step.value.0, step.value.1))
  }

  /** `typed_general_option_pattern_sym`. */
  predicate IsSumPattern(typeId: nat, expected: Option<MonoType>, sum: Option<MonoType>) {
    (typeId == OPTION || typeId == RESULT) && sum.Some? && IsSumCandidate(sum.value)
    && (expected.Some? ==> expected == sum)
  }

  /** How a variant pattern reaches the tag and the fields of its value. */
  datatype Access =
    | IterAccess(sym: Sym, info: IterInfo, payload: MonoType)
    | StepAccess(sym: Sym, y: MonoType, s: MonoType)
    | SumAccess(sym: Sym, mono: MonoType)
    | RecordAccess(typeId: nat)
    | ErasedAccess

  /** The order in which `emit_pattern_condition` tries the layouts. */
  function AccessFor(te: TypeEnv, typeId: nat, expected: Option<MonoType>, h: Hints): (a: Access) {
    var iter := IterPattern(te, typeId, expected, h.iter);
    if iter.Some? then IterAccess(iter.value.0, h.iter.value, iter.value.1)
    else if IsStepPattern(te, typeId, expected, h.step) then
      StepAccess(UnfoldStepSym(h.step.value.0, h.step.value.1), h.step.value.0, h.step.value.1)
    else if IsSumPattern(typeId, expected, h.sum) then SumAccess(SumSym(h.sum.value), h.sum.value)
    else if IsRecord(te, typeId) then RecordAccess(typeId)
    else ErasedAccess
  }

  /** `pattern_variant_field_mono`. */
  function VariantFieldMono(expected: Option<MonoType>, variant: nat, i: nat): (r: Option<MonoType>) {
    if expected.None? then None
    else
      var t := expected.value;
      if SumFieldMono(t, variant, i).Some? then SumFieldMono(t, variant, i)
      else if t.Named? && t.typeId == OPTION && i == 0 && |t.args| > 0 then Some(t.args[0])
      else if t.Named? && t.typeId == UNFOLD_STEP && i < 2 && i < |t.args| then Some(t.args[i])
      else None
  }

  /** `tuple_field_mono`. */
  function TupleFieldMono(expected: Option<MonoType>, typeId: nat, i: nat): (r: Option<MonoType>) {
    if expected.Some? && expected.value.Named? && expected.value.typeId == typeId && i < |expected.value.args|
    then Some(expected.value.args[i]) else None
  }

  function FieldExpected(a: Access, expected: Option<MonoType>, variant: nat, i: nat): (r: Option<MonoType>) {
    match a
    case IterAccess(_, _, payload) => if i == 0 then Some(payload) else None
    case StepAccess(_, y, s) => if i == 0 then Some(y) else if i == 1 then Some(s) else None
    case SumAccess(_, t) => SumFieldMono(t, variant, i)
    case RecordAccess(id) => TupleFieldMono(expected, id, i)
    case ErasedAccess => VariantFieldMono(expected, variant, i)
  }

  function ValTypeOr(te: TypeEnv, t: Option<MonoType>, default: ValType): (v: ValType) {
    if t.Some? then ValTypeOf(te, t.value) else default
  }

  /** Project a field of a typed struct and box it. */
  function TypedField(value: seq<Instr>, sym: Sym, k: nat, t: ValType): (code: seq<Instr>) {
    value + [RefCast(true, NamedHeap(sym))] + [StructGet(sym, k)] + ToAnyCode(t)
  }

  /** `emit_variant_field_anyref_universal`. */
  function ErasedField(value: seq<Instr>, i: nat): (code: seq<Instr>) {
    value + UnboxCode(RefTo(T_VARIANT)) + [StructGet(T_VARIANT, 2)] + [I32Const(i), ArrayGet(T_ARRAY)]
  }

  function IterFieldType(te: TypeEnv, info: IterInfo, mono: Option<MonoType>): (t: ValType) {
    if mono.Some? && mono.value.Named? && mono.value.typeId == ITER_ITEM then RefTo(IterItemSym(info))
    else ValTypeOr(te, mono, Anyref)
  }

  /** Code that pushes field `i` as `anyref`. */
  function FieldCode(te: TypeEnv, a: Access, value: seq<Instr>, expected: Option<MonoType>, variant: nat, i: nat)
    : (code: seq<Instr>)
  {
    match a
    case IterAccess(sym, info, _) => TypedField(value, sym, i + 1,
                                                IterFieldType(te, info, FieldExpected(a, expected, variant, i)))
    case StepAccess(sym, _, _) => TypedField(value, sym, i + 1,
                                             ValTypeOr(te, FieldExpected(a, expected, variant, i), Anyref))
    case SumAccess(sym, t) => TypedField(value, sym, SumFieldOffset(t, variant, i),
                                         ValTypeOr(te, SumFieldMono(t, variant, i), I32))
    case RecordAccess(id) => value + UnboxCode(RefTo(RecordSym(id))) + [StructGet(RecordSym(id), i)]
    case ErasedAccess => ErasedField(value, i)
  }

  /** Sub-patterns inherit the iterator hint from the two iterator layouts and nothing from the others. */
  function FieldHints(a: Access, h: Hints): (r: Hints) {
    if a.IterAccess? || a.StepAccess? then Hints(h.iter, None, None) else NO_HINTS
  }

  /** `combine_i32_ands`. */
  function CombineAnds(checks: seq<seq<Instr>>): (code: seq<Instr>) {
    if checks == [] then [I32Const(1)]
    else if |checks| == 1 then checks[0]
    else CombineAnds(checks[..|checks| - 1]) + checks[|checks| - 1] + [I32And]
  }

  function TypedTag(value: seq<Instr>, sym: Sym, variant: nat): (code: seq<Instr>) {
    value + UnboxCode(RefTo(sym)) + [StructGet(sym, 0)] + [I32Const(variant), I32Eq]
  }

  function ErasedTag(value: seq<Instr>, k: nat, n: nat): (code: seq<Instr>) {
    value + UnboxCode(RefTo(T_VARIANT)) + [StructGet(T_VARIANT, k)] + [I32Const(n), I32Eq]
  }

  function TypedChecks(value: seq<Instr>, sym: Sym, variant: nat): (checks: seq<seq<Instr>>) {
    var test := value + [RefTest(true, NamedHeap(sym))];
    [test, test + [If(TypedTag(value, sym, variant), [I32Const(0)])]]
  }

  /** The tag checks, which are safe to evaluate on any value of the layout. */
  function OuterChecks(a: Access, value: seq<Instr>, typeId: nat, variant: nat): (checks: seq<seq<Instr>>) {
    match a
    case RecordAccess(_) => []
    case ErasedAccess => [ErasedTag(value, 0, typeId), ErasedTag(value, 1, variant)]
    case _ => TypedChecks(value, a.sym, variant)
  }

  /** `emit_pattern_condition`. */
  function Condition(cx: MatchCtx, p: Pattern, value: seq<Instr>, expected: Option<MonoType>, h: Hints)
    : (code: seq<Instr>)
    decreases p, 0
  {
    match p
    case Wildcard => [I32Const(1)]
    case PVar(_) => [I32Const(1)]
    case LitInt(n) =>
      if expected == Some(Byte) then value + UnboxCode(I32) + [I32Const(Wrap32(n)), I32Eq]
      else value + UnboxCode(I64) + [I64Const(n), I64Eq]
    case LitBool(b) => value + UnboxCode(I32) + [I32Const(BoolInt(b)), I32Eq]
    case LitStr(s) => value + UnboxCode(RefTo(T_STRING)) + [Call(cx.getter(s))] + [Call("rt_str__eq")]
    case PVariant(t, k, fs) =>
      var a := AccessFor(cx.te, t, expected, h);
      var inner := InnerChecks(cx, a, value, expected, h, k, fs, 0);
      if a.RecordAccess? then CombineAnds(inner)
      else
        var outer := CombineAnds(OuterChecks(a, value, t, k));
        if inner == [] then outer else outer + [If(CombineAnds(inner), [I32Const(0)])]
  }

  /** The conditions of the sub-patterns from index `i` on, leaving out those that always hold. */
  function InnerChecks(cx: MatchCtx, a: Access, value: seq<Instr>, expected: Option<MonoType>, h: Hints, variant: nat,
                       fs: seq<Pattern>, i: nat): (checks: seq<seq<Instr>>)
    requires i <= |fs|
    decreases fs, |fs| - i
  {
    if i == |fs| then []
    else if IsTrivial(fs[i]) then InnerChecks(cx, a, value, expected, h, variant, fs, i + 1)
    else
      [Condition(cx, fs[i], FieldCode(cx.te, a, value, expected, variant, i),
                 FieldExpected(a, expected, variant, i), FieldHints(a, h))]
      + InnerChecks(cx, a, value, expected, h, variant, fs, i + 1)
  }

  // ----- What the emitter is entitled to assume -----

  /** The runtime functions a string pattern calls. */
  ghost predicate StringFuncs(m: Module, getter: seq<int> -> Sym) {
    (var eq := m.funcs("rt_str__eq");
     eq.Some? && eq.value.arity == 2
     && forall a: seq<int>, b: seq<int> ::
          eq.value.run([ArrayRef(T_STRING, ByteVals(a)), ArrayRef(T_STRING, ByteVals(b))])
              == Returns(I32Val(BoolInt(a == b))))
    && forall s: seq<int> ::
         m.funcs(getter(s)).Some? && m.funcs(getter(s)).value.arity == 0
         && m.funcs(getter(s)).value.run([]) == Returns(ArrayRef(T_STRING, ByteVals(s)))
  }

  ghost predicate Wired(m: Module, cx: MatchCtx) { RuntimeTypes(m.types) && StringFuncs(m, cx.getter) }

  /** `w` is the run-time form of `v`, in the layout that the flow metadata tells. */
  predicate Truthful(m: Module, te: TypeEnv, expected: Option<MonoType>, h: Hints, w: Val, v: Value) {
    Made(m.types, te, v)
    && if h.iter.Some? then
         h.step.None? && h.sum.None? && te.sigs != {} && IterOptionRep(m.types, h.iter.value, w, v)
       else if h.step.Some? then
         h.sum.None? && te.sigs != {} && expected == Some(UnfoldStepType(h.step.value.0, h.step.value.1))
         && StepRep(m.types, te, h.step.value.0, h.step.value.1, w, v)
       else if h.sum.Some? then
         (expected.Some? ==> expected == h.sum) && SumRep(m.types, te, h.sum.value, w, v)
       else w == Boxed(v)
  }

  /** The pattern is well typed for the value. */
  predicate Fits(te: TypeEnv, p: Pattern, v: Value, expected: Option<MonoType>, h: Hints) {
    match p
    case Wildcard => true
    case PVar(_) => true
    case LitInt(n) =>
      (v.IntV? && expected != Some(Byte)) || (v.ByteV? && 0 <= n < 256 && 0 <= v.n < 256)
    case LitBool(_) => v.BoolV?
    case LitStr(_) => v.StrV?
    case PVariant(t, k, fs) =>
      var a := AccessFor(te, t, expected, h);
      if a.RecordAccess? then
        v.TupleV? && v.typeId == t && |fs| <= |v.items|
        && forall i | 0 <= i < |fs| :: Fits(te, fs[i], v.items[i], FieldExpected(a, expected, k, i), FieldHints(a, h))
      else if v.StepV? then t == UNFOLD_STEP && h == NO_HINTS
      else
        v.SumV? && (h != NO_HINTS ==> t == v.typeId)
        && (t == v.typeId && k == v.variant ==>
              (|fs| <= |v.args|
               && forall i | 0 <= i < |fs| :: Fits(te, fs[i], v.args[i], FieldExpected(a, expected, k, i),
                                                   FieldHints(a, h))))
  }

  /** Under matching tags, a literal stands at a Byte in a position whose type the backend does not track. */
  predicate ReadsByteAsInt(te: TypeEnv, p: Pattern, v: Value, expected: Option<MonoType>, h: Hints) {
    match p
    case LitInt(_) => v.ByteV? && expected != Some(Byte)
    case PVariant(t, k, fs) =>
      TagFits(t, k, v)
      && (var a := AccessFor(te, t, expected, h);
          exists i | 0 <= i < |fs| ::
            i < |Parts(v)|
            && ReadsByteAsInt(te, fs[i], Parts(v)[i], FieldExpected(a, expected, k, i), FieldHints(a, h)))
    case _ => false
  }

  /** What running a condition comes to: a truth value, or a trap. */
  datatype Verdict = Decided(holds: bool) | Stuck

  /**
    A pattern gets stuck on a typed step, or on a Byte that is read as an Int. If the struct of the step passes for
    `$Variant`, the pattern takes it for a variant of another type instead.
  */
  function VerdictOf(te: TypeEnv, p: Pattern, v: Value, expected: Option<MonoType>, h: Hints): (d: Verdict) {
    if Stumbles(te, p, v) || ReadsByteAsInt(te, p, v, expected, h) then Stuck
    else Decided(Matches(p, v) && !MeetsStep(p, v))
  }

  // ----- Conjunctions of checks -----

  /** The code comes to the verdict. */
  ghost predicate Answers(m: Module, code: seq<Instr>, locals: seq<Val>, hidden: set<nat>, d: Verdict) {
    if d.Stuck? then Traps(m, code, locals, hidden) else Yields(m, code, locals, hidden, I32Val(BoolInt(d.holds)))
  }

  function Both(a: Verdict, b: Verdict): (d: Verdict) {
    if a.Stuck? || b.Stuck? then Stuck else Decided(a.holds && b.holds)
  }

  /** All checks are evaluated, so one that gets stuck spoils the others. */
  function Conjunction(ds: seq<Verdict>): (d: Verdict) {
    if exists i | 0 <= i < |ds| :: ds[i].Stuck? then Stuck
    else Decided(forall i | 0 <= i < |ds| :: ds[i].Decided? && ds[i].holds)
  }

  lemma {:induction false} ConjunctionSnoc(ds: seq<Verdict>)
    requires ds != []
    ensures Conjunction(ds) == Both(Conjunction(ds[..|ds| - 1]), ds[|ds| - 1])
  {
    var front, last := ds[..|ds| - 1], ds[|ds| - 1];
    assert forall i | 0 <= i < |front| :: front[i] == ds[i];
    assert (exists i | 0 <= i < |ds| :: ds[i].Stuck?)
      <==> (exists i | 0 <= i < |front| :: front[i].Stuck?) || last.Stuck?;
  }

  lemma {:induction false} ConjunctionCons(d: Verdict, rest: seq<Verdict>)
    ensures Conjunction([d] + rest) == Both(d, Conjunction(rest))
  {
    var ds := [d] + rest;
    assert ds[0] == d;
    assert forall i | 0 <= i < |rest| :: rest[i] == ds[i + 1];
    assert (exists i | 0 <= i < |ds| :: ds[i].Stuck?) <==> d.Stuck? || exists i | 0 <= i < |rest| :: rest[i].Stuck?;
  }

  lemma {:induction false} ConjunctionTwo(a: bool, b: bool)
    ensures Conjunction([Decided(a), Decided(b)]) == Decided(a && b)
  {
    var ds := [Decided(a), Decided(b)];
    assert ds[0] == Decided(a) && ds[1] == Decided(b);
  }

  /** Each check comes to the verdict at its index. */
  ghost predicate Evaluate(m: Module, checks: seq<seq<Instr>>, locals: seq<Val>, hidden: set<nat>, ds: seq<Verdict>) {
    |checks| == |ds| && forall i | 0 <= i < |ds| :: Answers(m, checks[i], locals, hidden, ds[i])
  }

  lemma {:induction false} EvaluateCons(m: Module, check: seq<Instr>, checks: seq<seq<Instr>>, locals: seq<Val>,
                                        hidden: set<nat>, d: Verdict, ds: seq<Verdict>)
    requires Answers(m, check, locals, hidden, d) && Evaluate(m, checks, locals, hidden, ds)
    ensures Evaluate(m, [check] + checks, locals, hidden, [d] + ds)
  {
    forall i | 0 <= i < |ds| + 1
      ensures Answers(m, ([check] + checks)[i], locals, hidden, ([d] + ds)[i])
    {
      if i > 0 {
        assert ([check] + checks)[i] == checks[i - 1] && ([d] + ds)[i] == ds[i - 1];
      }
    }
  }

  lemma {:induction false} AndAnswers(m: Module, a: seq<Instr>, b: seq<Instr>, locals: seq<Val>, hidden: set<nat>,
                                      x: Verdict, y: Verdict)
    requires Answers(m, a, locals, hidden, x) && Answers(m, b, locals, hidden, y)
    ensures Answers(m, a + b + [I32And], locals, hidden, Both(x, y))
  {
    if x.Stuck? {
      TrapsFirst(m, a, b, locals, hidden);
      TrapsFirst(m, a + b, [I32And], locals, hidden);
    } else if y.Stuck? {
      TrapsAfter(m, a, b, locals, hidden, I32Val(BoolInt(x.holds)));
      TrapsFirst(m, a + b, [I32And], locals, hidden);
    } else {
      YieldsAnd(m, a, b, locals, hidden, x.holds, y.holds);
    }
  }

  /** The combined checks yield 1 exactly when every one does, and trap exactly when one of them traps. */
  lemma {:induction false} CombineAndsAnswers(m: Module, checks: seq<seq<Instr>>, locals: seq<Val>, hidden: set<nat>,
                                              ds: seq<Verdict>)
    requires Evaluate(m, checks, locals, hidden, ds)
    ensures Answers(m, CombineAnds(checks), locals, hidden, Conjunction(ds))
  {
    var n := |checks|;
    if n == 0 {
      YieldsConst(m, 1, locals, hidden);
    } else if n == 1 {
      assert Conjunction(ds) == ds[0];
    } else {
      CombineAndsAnswers(m, checks[..n - 1], locals, hidden, ds[..n - 1]);
      AndAnswers(m, CombineAnds(checks[..n - 1]), checks[n - 1], locals, hidden, Conjunction(ds[..n - 1]), ds[n - 1]);
      ConjunctionSnoc(ds);
    }
  }

  /** Inner checks behind an outer one. */
  lemma {:induction false} GuardedAnswers(m: Module, outer: seq<Instr>, inner: seq<Instr>, locals: seq<Val>,
                                          hidden: set<nat>, b: bool, d: Verdict)
    requires Yields(m, outer, locals, hidden, I32Val(BoolInt(b)))
    requires b ==> Answers(m, inner, locals, hidden, d)
    ensures Answers(m, outer + [If(inner, [I32Const(0)])], locals, hidden, if b then d else Decided(false))
  {
    if b && d.Stuck? {
      TrapsIf(m, outer, inner, [I32Const(0)], locals, hidden, 1);
    } else {
      YieldsConst(m, 0, locals, hidden);
      YieldsIf(m, outer, inner, [I32Const(0)], locals, hidden, BoolInt(b), I32Val(BoolInt(b && d.holds)));
    }
  }

  // ----- Tags -----

  lemma {:induction false} YieldsField(m: Module, value: seq<Instr>, sym: Sym, k: nat, locals: seq<Val>,
                                       hidden: set<nat>, w: Val)
    requires Yields(m, value, locals, hidden, w)
    requires w.StructRef? && SubType(m.types, w.sym, sym) && k < |w.fields|
    ensures Yields(m, value + [RefCast(true, NamedHeap(sym))] + [StructGet(sym, k)], locals, hidden, w.fields[k])
  {
    MapsCast(m, true, NamedHeap(sym), w);
    YieldsMap(m, value, [RefCast(true, NamedHeap(sym))], locals, hidden, w, w);
    MapsGet(m, sym, k, w);
    YieldsMap(m, value + [RefCast(true, NamedHeap(sym))], [StructGet(sym, k)], locals, hidden, w, w.fields[k]);
  }

  lemma {:induction false} TagYields(m: Module, value: seq<Instr>, sym: Sym, k: nat, n: nat, x: int, locals: seq<Val>,
                                     hidden: set<nat>, w: Val)
    requires Yields(m, value, locals, hidden, w)
    requires w.StructRef? && SubType(m.types, w.sym, sym) && k < |w.fields| && w.fields[k] == I32Val(x)
    ensures Yields(m, value + [RefCast(true, NamedHeap(sym))] + [StructGet(sym, k)] + [I32Const(n), I32Eq], locals,
                   hidden,
                   I32Val(BoolInt(x == n)))
  {
    YieldsField(m, value, sym, k, locals, hidden, w);
    MapsEq32(m, n, x);
    YieldsMap(m, value + [RefCast(true, NamedHeap(sym))] + [StructGet(sym, k)], [I32Const(n), I32Eq], locals, hidden,
              I32Val(x), I32Val(BoolInt(x == n)));
  }

  lemma {:induction false} TypedChecksYield(m: Module, value: seq<Instr>, sym: Sym, variant: nat, x: nat,
                                            locals: seq<Val>, hidden: set<nat>, w: Val)
    requires Yields(m, value, locals, hidden, w)
    requires w.StructRef? && w.sym == sym && |w.fields| > 0 && w.fields[0] == I32Val(x)
    ensures Evaluate(m, TypedChecks(value, sym, variant), locals, hidden, [Decided(true), Decided(x == variant)])
  {
    var test := value + [RefTest(true, NamedHeap(sym))];
    MapsTest(m, true, NamedHeap(sym), w);
    YieldsMap(m, value, [RefTest(true, NamedHeap(sym))], locals, hidden, w, I32Val(1));
    TagYields(m, value, sym, 0, variant, x, locals, hidden, w);
    YieldsIf(m, test, TypedTag(value, sym, variant), [I32Const(0)], locals, hidden, 1, I32Val(BoolInt(x == variant)));
  }

  lemma {:induction false} ErasedChecksYield(m: Module, value: seq<Instr>, typeId: nat, variant: nat,
                                             locals: seq<Val>, hidden: set<nat>, v: Value)
    requires v.SumV? && Yields(m, value, locals, hidden, Boxed(v))
    ensures Evaluate(m, OuterChecks(ErasedAccess, value, typeId, variant), locals, hidden,
                     [Decided(v.typeId == typeId), Decided(v.variant == variant)])
  {
    TagYields(m, value, T_VARIANT, 0, typeId, v.typeId, locals, hidden, Boxed(v));
    TagYields(m, value, T_VARIANT, 1, variant, v.variant, locals, hidden, Boxed(v));
  }

  /** The outer condition decides whether the tag is the pattern's. */
  lemma {:induction false} OuterYields(m: Module, te: TypeEnv, typeId: nat, variant: nat, value: seq<Instr>,
                                       expected: Option<MonoType>, h: Hints, v: Value, w: Val, locals: seq<Val>,
                                       hidden: set<nat>)
    requires Yields(m, value, locals, hidden, w) && Truthful(m, te, expected, h, w, v) && v.SumV?
    requires h != NO_HINTS ==> typeId == v.typeId
    requires !AccessFor(te, typeId, expected, h).RecordAccess?
    ensures Yields(m, CombineAnds(OuterChecks(AccessFor(te, typeId, expected, h), value, typeId, variant)), locals,
                   hidden,
                   I32Val(BoolInt(typeId == v.typeId && variant == v.variant)))
  {
    var a := AccessFor(te, typeId, expected, h);
    if a.ErasedAccess? {
      ErasedChecksYield(m, value, typeId, variant, locals, hidden, v);
      CombineAndsAnswers(m, OuterChecks(a, value, typeId, variant), locals, hidden,
                         [Decided(v.typeId == typeId), Decided(v.variant == variant)]);
      ConjunctionTwo(v.typeId == typeId, v.variant == variant);
    } else {
      TypedChecksYield(m, value, a.sym, variant, v.variant, locals, hidden, w);
      CombineAndsAnswers(m, OuterChecks(a, value, typeId, variant), locals, hidden,
                         [Decided(true), Decided(v.variant == variant)]);
      ConjunctionTwo(true, v.variant == variant);
    }
  }

  // ----- Fields -----

  lemma {:induction false} TypedFieldYields(m: Module, value: seq<Instr>, sym: Sym, k: nat, t: ValType, arg: Value,
                                            locals: seq<Val>, hidden: set<nat>, w: Val)
    requires RuntimeTypes(m.types) && Yields(m, value, locals, hidden, w)
    requires w.StructRef? && w.sym == sym && k < |w.fields| && Holds(m.types, w.fields[k], t, arg)
    ensures Yields(m, TypedField(value, sym, k, t), locals, hidden, Boxed(arg))
  {
    YieldsField(m, value, sym, k, locals, hidden, w);
    BoxCodeBoxes(m, t, w.fields[k]);
    YieldsMap(m, value + [RefCast(true, NamedHeap(sym))] + [StructGet(sym, k)], ToAnyCode(t), locals, hidden,
              w.fields[k], Boxed(arg));
  }

  lemma {:induction false} ErasedFieldYields(m: Module, value: seq<Instr>, i: nat, v: Value, locals: seq<Val>,
                                             hidden: set<nat>)
    requires v.SumV? && i < |v.args| && Yields(m, value, locals, hidden, Boxed(v))
    ensures Yields(m, ErasedField(value, i), locals, hidden, Boxed(v.args[i]))
  {
    YieldsField(m, value, T_VARIANT, 2, locals, hidden, Boxed(v));
    MapsElem(m, T_ARRAY, i, ArrayRef(T_ARRAY, BoxedAll(v.args)));
    YieldsMap(m, value + [RefCast(true, NamedHeap(T_VARIANT))] + [StructGet(T_VARIANT, 2)],
              [I32Const(i), ArrayGet(T_ARRAY)],
              locals, hidden, ArrayRef(T_ARRAY, BoxedAll(v.args)), Boxed(v.args[i]));
  }

  lemma {:induction false} SumFieldYields(m: Module, te: TypeEnv, t: MonoType, i: nat, value: seq<Instr>, v: Value,
                                          w: Val, locals: seq<Val>, hidden: set<nat>)
    requires RuntimeTypes(m.types) && Yields(m, value, locals, hidden, w) && SumRep(m.types, te, t, w, v)
             && i < |v.args|
    ensures Yields(m, TypedField(value, SumSym(t), SumFieldOffset(t, v.variant, i),
                                 ValTypeOr(te, SumFieldMono(t, v.variant, i), I32)),
                   locals, hidden, Boxed(v.args[i]))
  {
    TypedFieldYields(m, value, SumSym(t), SumFieldOffset(t, v.variant, i),
                     ValTypeOf(te, SumFieldMono(t, v.variant, i).value),
                     v.args[i], locals, hidden, w);
  }

  lemma {:induction false} StepFieldYields(m: Module, te: TypeEnv, y: MonoType, s: MonoType, i: nat,
                                           value: seq<Instr>, v: Value, w: Val, locals: seq<Val>, hidden: set<nat>)
    requires RuntimeTypes(m.types) && Yields(m, value, locals, hidden, w) && StepRep(m.types, te, y, s, w, v)
             && i < |v.args|
    ensures Yields(m, TypedField(value, UnfoldStepSym(y, s), i + 1, ValTypeOf(te, if i == 0 then y else s)), locals,
                   hidden, Boxed(v.args[i]))
  {
    TypedFieldYields(m, value, UnfoldStepSym(y, s), i + 1, ValTypeOf(te, if i == 0 then y else s), v.args[i], locals,
                     hidden, w);
  }

  lemma {:induction false} UntypedFieldYields(m: Module, te: TypeEnv, typeId: nat, variant: nat, i: nat,
                                              value: seq<Instr>, expected: Option<MonoType>, h: Hints, v: Value,
                                              w: Val, locals: seq<Val>, hidden: set<nat>)
    requires RuntimeTypes(m.types) && Yields(m, value, locals, hidden, w) && Truthful(m, te, expected, h, w, v)
    requires i < |Parts(v)| && !v.StepV?
    requires v.SumV? ==> typeId == v.typeId && variant == v.variant
    requires AccessFor(te, typeId, expected, h).RecordAccess? <==> v.TupleV?
    requires v.TupleV? ==> typeId == v.typeId
    requires var a := AccessFor(te, typeId, expected, h); a.RecordAccess? || a.ErasedAccess?
    ensures Yields(m, FieldCode(te, AccessFor(te, typeId, expected, h), value, expected, variant, i), locals, hidden,
                   Boxed(Parts(v)[i]))
  {
    if v.TupleV? {
      YieldsField(m, value, RecordSym(typeId), i, locals, hidden, Boxed(v));
    } else {
      ErasedFieldYields(m, value, i, v, locals, hidden);
    }
  }

  /** Once the tag is right, the field code pushes the boxed component. */
  lemma {:induction false} FieldYields(m: Module, te: TypeEnv, typeId: nat, variant: nat, i: nat, value: seq<Instr>,
                                       expected: Option<MonoType>, h: Hints, v: Value, w: Val, locals: seq<Val>,
                                       hidden: set<nat>)
    requires RuntimeTypes(m.types) && Yields(m, value, locals, hidden, w) && Truthful(m, te, expected, h, w, v)
    requires i < |Parts(v)| && !v.StepV?
    requires v.SumV? ==> typeId == v.typeId && variant == v.variant
    requires AccessFor(te, typeId, expected, h).RecordAccess? <==> v.TupleV?
    requires v.TupleV? ==> typeId == v.typeId
    ensures Yields(m, FieldCode(te, AccessFor(te, typeId, expected, h), value, expected, variant, i), locals, hidden,
                   Boxed(Parts(v)[i]))
  {
    var a := AccessFor(te, typeId, expected, h);
    if a.IterAccess? {
      TypedFieldYields(m, value, a.sym, i + 1, RefTo(IterItemSym(a.info)), v.args[i], locals, hidden, w);
    } else if a.StepAccess? {
      StepFieldYields(m, te, a.y, a.s, i, value, v, w, locals, hidden);
    } else if a.SumAccess? {
      SumFieldYields(m, te, a.mono, i, value, v, w, locals, hidden);
    } else {
      UntypedFieldYields(m, te, typeId, variant, i, value, expected, h, v, w, locals, hidden);
    }
  }

  // ----- The condition decides the match -----

  /** The verdict on field `i`. */
  function FieldVerdict(te: TypeEnv, a: Access, expected: Option<MonoType>, h: Hints, k: nat, fs: seq<Pattern>,
                        vs: seq<Value>, i: nat): (d: Verdict)
    requires i < |fs| <= |vs|
  {
    VerdictOf(te, fs[i], vs[i], FieldExpected(a, expected, k, i), FieldHints(a, h))
  }

  /** The verdicts on the sub-patterns that are checked, from index `i` on. */
  function InnerVerdicts(te: TypeEnv, a: Access, expected: Option<MonoType>, h: Hints, k: nat, fs: seq<Pattern>,
                         vs: seq<Value>, i: nat): (ds: seq<Verdict>)
    requires i <= |fs| <= |vs|
    decreases |fs| - i
  {
    if i == |fs| then []
    else if IsTrivial(fs[i]) then InnerVerdicts(te, a, expected, h, k, fs, vs, i + 1)
    else [FieldVerdict(te, a, expected, h, k, fs, vs, i)] + InnerVerdicts(te, a, expected, h, k, fs, vs, i + 1)
  }

  /** The verdict on the fields from index `i` on. */
  function FieldsVerdict(te: TypeEnv, a: Access, expected: Option<MonoType>, h: Hints, k: nat, fs: seq<Pattern>,
                         vs: seq<Value>, i: nat): (d: Verdict)
    requires i <= |fs| <= |vs|
  {
    if exists j | i <= j < |fs| :: FieldVerdict(te, a, expected, h, k, fs, vs, j).Stuck? then Stuck
    else Decided(forall j | i <= j < |fs| :: FieldVerdict(te, a, expected, h, k, fs, vs, j) == Decided(true))
  }

  lemma {:induction false} FieldsVerdictStep(te: TypeEnv, a: Access, expected: Option<MonoType>, h: Hints, k: nat,
                                             fs: seq<Pattern>, vs: seq<Value>, i: nat)
    requires i < |fs| <= |vs|
    ensures FieldsVerdict(te, a, expected, h, k, fs, vs, i)
         == Both(FieldVerdict(te, a, expected, h, k, fs, vs, i), FieldsVerdict(te, a, expected, h, k, fs, vs, i + 1))
  {
    var rest := exists j | i + 1 <= j < |fs| :: FieldVerdict(te, a, expected, h, k, fs, vs, j).Stuck?;
    assert (exists j | i <= j < |fs| :: FieldVerdict(te, a, expected, h, k, fs, vs, j).Stuck?)
      <==> FieldVerdict(te, a, expected, h, k, fs, vs, i).Stuck? || rest;
  }

  lemma {:induction false} TrivialField(te: TypeEnv, a: Access, expected: Option<MonoType>, h: Hints, k: nat,
                                        fs: seq<Pattern>, vs: seq<Value>, i: nat)
    requires i < |fs| <= |vs| && IsTrivial(fs[i])
    ensures FieldVerdict(te, a, expected, h, k, fs, vs, i) == Decided(true)
  {
  }

  lemma {:induction false} InnerVerdictsCombine(te: TypeEnv, a: Access, expected: Option<MonoType>, h: Hints, k: nat,
                                                fs: seq<Pattern>, vs: seq<Value>, i: nat)
    requires i <= |fs| <= |vs|
    ensures Conjunction(InnerVerdicts(te, a, expected, h, k, fs, vs, i))
         == FieldsVerdict(te, a, expected, h, k, fs, vs, i)
    decreases |fs| - i
  {
    if i < |fs| {
      InnerVerdictsCombine(te, a, expected, h, k, fs, vs, i + 1);
      FieldsVerdictStep(te, a, expected, h, k, fs, vs, i);
      if IsTrivial(fs[i]) {
        TrivialField(te, a, expected, h, k, fs, vs, i);
      } else {
        ConjunctionCons(FieldVerdict(te, a, expected, h, k, fs, vs, i),
                        InnerVerdicts(te, a, expected, h, k, fs, vs, i + 1));
      }
    }
  }

  lemma {:induction false} FieldVerdictMeaning(te: TypeEnv, a: Access, expected: Option<MonoType>, h: Hints, k: nat,
                                               fs: seq<Pattern>, vs: seq<Value>, i: nat)
    requires i < |fs| <= |vs|
    ensures FieldVerdict(te, a, expected, h, k, fs, vs, i).Stuck?
       <==> Stumbles(te, fs[i], vs[i])
            || ReadsByteAsInt(te, fs[i], vs[i], FieldExpected(a, expected, k, i), FieldHints(a, h))
    ensures var d := FieldVerdict(te, a, expected, h, k, fs, vs, i);
            d.Decided? ==> (d.holds <==> Matches(fs[i], vs[i]) && !MeetsStep(fs[i], vs[i]))
  {
  }

  /** Under matching tags the verdict on the fields is the verdict on the pattern. */
  lemma {:induction false} FieldsDecide(te: TypeEnv, p: Pattern, v: Value, expected: Option<MonoType>, h: Hints)
    requires p.PVariant? && TagFits(p.typeId, p.variant, v) && |p.fields| <= |Parts(v)|
    ensures FieldsVerdict(te, AccessFor(te, p.typeId, expected, h), expected, h, p.variant, p.fields, Parts(v), 0)
         == VerdictOf(te, p, v, expected, h)
  {
    var fs, vs, a := p.fields, Parts(v), AccessFor(te, p.typeId, expected, h);
    forall j | 0 <= j < |fs|
      ensures FieldVerdict(te, a, expected, h, p.variant, fs, vs, j).Stuck?
         <==> Stumbles(te, fs[j], vs[j])
              || ReadsByteAsInt(te, fs[j], vs[j], FieldExpected(a, expected, p.variant, j), FieldHints(a, h))
      ensures var d := FieldVerdict(te, a, expected, h, p.variant, fs, vs, j);
              d.Decided? ==> (d.holds <==> Matches(fs[j], vs[j]) && !MeetsStep(fs[j], vs[j]))
    {
      FieldVerdictMeaning(te, a, expected, h, p.variant, fs, vs, j);
    }
    FieldsStuckIff(te, p, v, expected, h);
    FieldsHoldIff(p, v);
  }

  lemma {:induction false} FieldsHoldIff(p: Pattern, v: Value)
    requires p.PVariant? && TagFits(p.typeId, p.variant, v) && |p.fields| <= |Parts(v)|
    ensures Matches(p, v) && !MeetsStep(p, v)
       <==> forall j | 0 <= j < |p.fields| :: Matches(p.fields[j], Parts(v)[j]) && !MeetsStep(p.fields[j], Parts(v)[j])
  {
    var fs, vs := p.fields, Parts(v);
    assert MeetsStep(p, v) <==> exists j | 0 <= j < |fs| :: MeetsStep(fs[j], vs[j]);
    assert Matches(p, v) <==> forall j | 0 <= j < |fs| :: Matches(fs[j], vs[j]);
  }

  lemma {:induction false} FieldsStuckIff(te: TypeEnv, p: Pattern, v: Value, expected: Option<MonoType>, h: Hints)
    requires p.PVariant? && TagFits(p.typeId, p.variant, v) && |p.fields| <= |Parts(v)|
    ensures var a := AccessFor(te, p.typeId, expected, h);
            Stumbles(te, p, v) || ReadsByteAsInt(te, p, v, expected, h)
            <==> exists j | 0 <= j < |p.fields| ::
                   Stumbles(te, p.fields[j], Parts(v)[j])
                   || ReadsByteAsInt(te, p.fields[j], Parts(v)[j], FieldExpected(a, expected, p.variant, j),
                                     FieldHints(a, h))
  {
    var fs, vs, a := p.fields, Parts(v), AccessFor(te, p.typeId, expected, h);
    assert Stumbles(te, p, v) <==> exists j | 0 <= j < |fs| :: Stumbles(te, fs[j], vs[j]);
    assert ReadsByteAsInt(te, p, v, expected, h)
      <==> exists j | 0 <= j < |fs| ::
             ReadsByteAsInt(te, fs[j], vs[j], FieldExpected(a, expected, p.variant, j), FieldHints(a, h));
  }

  /** Each field code pushes its component, and the sub-patterns are well typed for the components. */
  ghost predicate Projected(m: Module, cx: MatchCtx, a: Access, variant: nat, fs: seq<Pattern>, value: seq<Instr>,
                            expected: Option<MonoType>, h: Hints, vs: seq<Value>, locals: seq<Val>, hidden: set<nat>) {
    |fs| <= |vs|
    && forall i | 0 <= i < |fs| ::
         Yields(m, FieldCode(cx.te, a, value, expected, variant, i), locals, hidden, Boxed(vs[i]))
         && Fits(cx.te, fs[i], vs[i], FieldExpected(a, expected, variant, i), FieldHints(a, h))
         && (IsTrivial(fs[i]) || FieldHints(a, h) == NO_HINTS) && Made(m.types, cx.te, vs[i])
  }

  lemma {:induction false} FieldAnswers(m: Module, cx: MatchCtx, a: Access, variant: nat, fs: seq<Pattern>, i: nat,
                                        value: seq<Instr>, expected: Option<MonoType>, h: Hints, vs: seq<Value>,
                                        locals: seq<Val>, hidden: set<nat>)
    requires Wired(m, cx) && Projected(m, cx, a, variant, fs, value, expected, h, vs, locals, hidden)
    requires i < |fs| && !IsTrivial(fs[i])
    ensures Answers(m, Condition(cx, fs[i], FieldCode(cx.te, a, value, expected, variant, i),
                                 FieldExpected(a, expected, variant, i), FieldHints(a, h)), locals, hidden,
                    FieldVerdict(cx.te, a, expected, h, variant, fs, vs, i))
    decreases fs, 0
  {
    ConditionAnswers(m, cx, fs[i], FieldCode(cx.te, a, value, expected, variant, i),
                     FieldExpected(a, expected, variant, i), NO_HINTS, vs[i], Boxed(vs[i]), locals, hidden);
  }

  lemma {:induction false} InnerAnswers(m: Module, cx: MatchCtx, a: Access, variant: nat, fs: seq<Pattern>, i: nat,
                                        value: seq<Instr>, expected: Option<MonoType>, h: Hints, vs: seq<Value>,
                                        locals: seq<Val>, hidden: set<nat>)
    requires Wired(m, cx) && Projected(m, cx, a, variant, fs, value, expected, h, vs, locals, hidden)
    requires i <= |fs|
    ensures Evaluate(m, InnerChecks(cx, a, value, expected, h, variant, fs, i), locals, hidden,
                     InnerVerdicts(cx.te, a, expected, h, variant, fs, vs, i))
    decreases fs, |fs| - i
  {
    if i < |fs| {
      InnerAnswers(m, cx, a, variant, fs, i + 1, value, expected, h, vs, locals, hidden);
      if !IsTrivial(fs[i]) {
        FieldAnswers(m, cx, a, variant, fs, i, value, expected, h, vs, locals, hidden);
        EvaluateCons(m, Condition(cx, fs[i], FieldCode(cx.te, a, value, expected, variant, i),
                                  FieldExpected(a, expected, variant, i), FieldHints(a, h)),
                     InnerChecks(cx, a, value, expected, h, variant, fs, i + 1), locals, hidden,
                     FieldVerdict(cx.te, a, expected, h, variant, fs, vs, i),
                     InnerVerdicts(cx.te, a, expected, h, variant, fs, vs, i + 1));
      }
    }
  }

  lemma {:induction false} FieldsProject(m: Module, cx: MatchCtx, p: Pattern, value: seq<Instr>,
                                         expected: Option<MonoType>, h: Hints, v: Value, w: Val, locals: seq<Val>,
                                         hidden: set<nat>)
    requires RuntimeTypes(m.types) && Yields(m, value, locals, hidden, w) && Truthful(m, cx.te, expected, h, w, v)
    requires p.PVariant? && Fits(cx.te, p, v, expected, h) && TagFits(p.typeId, p.variant, v)
    ensures Projected(m, cx, AccessFor(cx.te, p.typeId, expected, h), p.variant, p.fields, value, expected, h,
                      Parts(v), locals, hidden)
  {
    var a := AccessFor(cx.te, p.typeId, expected, h);
    forall i | 0 <= i < |p.fields|
      ensures Yields(m, FieldCode(cx.te, a, value, expected, p.variant, i), locals, hidden, Boxed(Parts(v)[i]))
    {
      FieldYields(m, cx.te, p.typeId, p.variant, i, value, expected, h, v, w, locals, hidden);
    }
  }

  lemma {:induction false} IntLiteralCorrect(m: Module, n: int, value: seq<Instr>, v: Value, locals: seq<Val>,
                                             hidden: set<nat>)
    requires RuntimeTypes(m.types) && v.IntV? && Yields(m, value, locals, hidden, Boxed(v))
    ensures Yields(m, value + UnboxCode(I64) + [I64Const(n), I64Eq], locals, hidden, I32Val(BoolInt(v.n == n)))
  {
    UnboxCodeUnboxes(m, I64, I64Val(v.n));
    YieldsMap(m, value, UnboxCode(I64), locals, hidden, Boxed(v), I64Val(v.n));
    MapsEq64(m, n, v.n);
    YieldsMap(m, value + UnboxCode(I64), [I64Const(n), I64Eq], locals, hidden, I64Val(v.n), I32Val(BoolInt(v.n == n)));
  }

  /** Booleans and bytes are both small integers behind an i31 reference. */
  lemma {:induction false} SmallLiteralCorrect(m: Module, n: int, x: int, value: seq<Instr>, locals: seq<Val>,
                                               hidden: set<nat>)
    requires RuntimeTypes(m.types) && 0 <= x < 256 && Yields(m, value, locals, hidden, I31Ref(x))
    ensures Yields(m, value + UnboxCode(I32) + [I32Const(n), I32Eq], locals, hidden, I32Val(BoolInt(x == n)))
  {
    UnboxCodeUnboxes(m, I32, I32Val(x));
    YieldsMap(m, value, UnboxCode(I32), locals, hidden, I31Ref(x), I32Val(x));
    MapsEq32(m, n, x);
    YieldsMap(m, value + UnboxCode(I32), [I32Const(n), I32Eq], locals, hidden, I32Val(x), I32Val(BoolInt(x == n)));
  }

  lemma {:induction false} StringLiteralCorrect(m: Module, getter: seq<int> -> Sym, s: seq<int>, value: seq<Instr>,
                                                v: Value, locals: seq<Val>, hidden: set<nat>)
    requires StringFuncs(m, getter) && v.StrV? && Yields(m, value, locals, hidden, Boxed(v))
    ensures Yields(m, value + UnboxCode(RefTo(T_STRING)) + [Call(getter(s))] + [Call("rt_str__eq")], locals, hidden,
                   I32Val(BoolInt(v.bytes == s)))
  {
    var a, b := Boxed(v), ArrayRef(T_STRING, ByteVals(s));
    var first := value + UnboxCode(RefTo(T_STRING));
    MapsCast(m, true, NamedHeap(T_STRING), a);
    YieldsMap(m, value, UnboxCode(RefTo(T_STRING)), locals, hidden, a, a);
    PushesOne(m, first, locals, hidden, a);
    PushesNone(m, locals, hidden);
    YieldsCall(m, [], getter(s), locals, hidden, [], b);
    assert [] + [Call(getter(s))] == [Call(getter(s))];
    PushesThen(m, first, [Call(getter(s))], locals, hidden, [a], b);
    assert [a] + [b] == [a, b];
    YieldsCall(m, first + [Call(getter(s))], "rt_str__eq", locals, hidden, [a, b], I32Val(BoolInt(v.bytes == s)));
  }

  lemma {:induction false} LiteralCorrect(m: Module, cx: MatchCtx, p: Pattern, value: seq<Instr>,
                                          expected: Option<MonoType>, h: Hints, v: Value, w: Val, locals: seq<Val>,
                                          hidden: set<nat>)
    requires Wired(m, cx) && Yields(m, value, locals, hidden, w) && Truthful(m, cx.te, expected, h, w, v)
    requires (p.LitInt? || p.LitBool? || p.LitStr?) && Fits(cx.te, p, v, expected, h)
    requires !ReadsByteAsInt(cx.te, p, v, expected, h)
    ensures Yields(m, Condition(cx, p, value, expected, h), locals, hidden, I32Val(BoolInt(Matches(p, v))))
  {
    if p.LitInt? {
      if v.IntV? {
        IntLiteralCorrect(m, p.n, value, v, locals, hidden);
      } else {
        SmallLiteralCorrect(m, p.n, v.n, value, locals, hidden);
      }
    } else if p.LitBool? {
      SmallLiteralCorrect(m, BoolInt(p.b), BoolInt(v.b), value, locals, hidden);
    } else {
      StringLiteralCorrect(m, cx.getter, p.bytes, value, v, locals, hidden);
    }
  }

  /** Once the tag is right, the checks of the fields decide. */
  lemma {:induction false} InnerDecides(m: Module, cx: MatchCtx, p: Pattern, value: seq<Instr>,
                                        expected: Option<MonoType>, h: Hints, v: Value, w: Val, locals: seq<Val>,
                                        hidden: set<nat>)
    requires Wired(m, cx) && Yields(m, value, locals, hidden, w) && Truthful(m, cx.te, expected, h, w, v)
    requires p.PVariant? && Fits(cx.te, p, v, expected, h) && TagFits(p.typeId, p.variant, v)
    ensures var inner := InnerChecks(cx, AccessFor(cx.te, p.typeId, expected, h), value, expected, h, p.variant,
                                     p.fields, 0);
            Answers(m, CombineAnds(inner), locals, hidden, VerdictOf(cx.te, p, v, expected, h))
            && (inner == [] ==> VerdictOf(cx.te, p, v, expected, h) == Decided(true))
    decreases p, 0
  {
    var a := AccessFor(cx.te, p.typeId, expected, h);
    FieldsProject(m, cx, p, value, expected, h, v, w, locals, hidden);
    InnerAnswers(m, cx, a, p.variant, p.fields, 0, value, expected, h, Parts(v), locals, hidden);
    CombineAndsAnswers(m, InnerChecks(cx, a, value, expected, h, p.variant, p.fields, 0), locals, hidden,
                       InnerVerdicts(cx.te, a, expected, h, p.variant, p.fields, Parts(v), 0));
    InnerVerdictsCombine(cx.te, a, expected, h, p.variant, p.fields, Parts(v), 0);
    FieldsDecide(cx.te, p, v, expected, h);
  }

  /** The verdict on a sum whose tag is not the pattern's. */
  lemma {:induction false} OtherTagVerdict(te: TypeEnv, p: Pattern, v: Value, expected: Option<MonoType>, h: Hints)
    requires p.PVariant? && v.SumV? && !TagFits(p.typeId, p.variant, v)
    ensures VerdictOf(te, p, v, expected, h) == Decided(false)
  {
  }

  lemma {:induction false} VariantAnswers(m: Module, cx: MatchCtx, p: Pattern, value: seq<Instr>,
                                          expected: Option<MonoType>, h: Hints, v: Value, w: Val, locals: seq<Val>,
                                          hidden: set<nat>)
    requires Wired(m, cx) && Yields(m, value, locals, hidden, w) && Truthful(m, cx.te, expected, h, w, v)
    requires p.PVariant? && !v.StepV? && Fits(cx.te, p, v, expected, h)
    ensures Answers(m, Condition(cx, p, value, expected, h), locals, hidden, VerdictOf(cx.te, p, v, expected, h))
    decreases p, 1
  {
    var PVariant(t, k, fs) := p;
    var a := AccessFor(cx.te, t, expected, h);
    var inner := InnerChecks(cx, a, value, expected, h, k, fs, 0);
    var tagged := TagFits(t, k, v);
    if tagged {
      InnerDecides(m, cx, p, value, expected, h, v, w, locals, hidden);
    } else {
      OtherTagVerdict(cx.te, p, v, expected, h);
    }
    if !a.RecordAccess? {
      OuterYields(m, cx.te, t, k, value, expected, h, v, w, locals, hidden);
      if inner != [] {
        GuardedAnswers(m, CombineAnds(OuterChecks(a, value, t, k)), CombineAnds(inner), locals, hidden, tagged,
                       VerdictOf(cx.te, p, v, expected, h));
      }
    }
  }

  /** The tag checks read a look-alike step as a variant of another type. */
  lemma {:induction false} LookalikeOuterYields(m: Module, te: TypeEnv, k: nat, value: seq<Instr>, v: Value,
                                                locals: seq<Val>, hidden: set<nat>)
    requires RuntimeTypes(m.types) && v.StepV? && Made(m.types, te, v) && Yields(m, value, locals, hidden, v.ref)
    requires LookalikeStep(te, v.yieldTy, v.seedTy)
    ensures Yields(m, CombineAnds(OuterChecks(ErasedAccess, value, UNFOLD_STEP, k)), locals, hidden, I32Val(0))
  {
    LookalikeStepIsVariant(m.types, te, v.yieldTy, v.seedTy);
    var checks := OuterChecks(ErasedAccess, value, UNFOLD_STEP, k);
    var tag := v.ref.fields[1];
    assert HasType(m.types, tag, UnfoldStepDef(te, v.yieldTy, v.seedTy).fields[1].ty);
    TagYields(m, value, T_VARIANT, 0, UNFOLD_STEP, v.variant, locals, hidden, v.ref);
    TagYields(m, value, T_VARIANT, 1, k, tag.n, locals, hidden, v.ref);
    CombineAndsAnswers(m, checks, locals, hidden, [Decided(false), Decided(tag.n == k)]);
    ConjunctionTwo(false, tag.n == k);
  }

  /** The tag checks cannot cast any other step. */
  lemma {:induction false} StepOuterTraps(m: Module, te: TypeEnv, k: nat, value: seq<Instr>, v: Value,
                                          locals: seq<Val>, hidden: set<nat>)
    requires RuntimeTypes(m.types) && v.StepV? && Made(m.types, te, v) && Yields(m, value, locals, hidden, v.ref)
    requires !LookalikeStep(te, v.yieldTy, v.seedTy)
    ensures Traps(m, CombineAnds(OuterChecks(ErasedAccess, value, UNFOLD_STEP, k)), locals, hidden)
  {
    LookalikeStepIsVariant(m.types, te, v.yieldTy, v.seedTy);
    var checks := OuterChecks(ErasedAccess, value, UNFOLD_STEP, k);
    StepTagTraps(m, value, 0, UNFOLD_STEP, v.ref, locals, hidden);
    StepTagTraps(m, value, 1, k, v.ref, locals, hidden);
    CombineAndsAnswers(m, checks, locals, hidden, [Stuck, Stuck]);
    assert [Stuck, Stuck][0].Stuck?;
  }

  lemma {:induction false} StepTagTraps(m: Module, value: seq<Instr>, k: nat, n: nat, w: Val, locals: seq<Val>,
                                        hidden: set<nat>)
    requires Yields(m, value, locals, hidden, w) && !CastSucceeds(m.types, w, true, NamedHeap(T_VARIANT))
    ensures Traps(m, ErasedTag(value, k, n), locals, hidden)
  {
    var cast := value + UnboxCode(RefTo(T_VARIANT));
    TrapsCast(m, value, true, NamedHeap(T_VARIANT), locals, hidden, w);
    TrapsFirst(m, cast, [StructGet(T_VARIANT, k)], locals, hidden);
    TrapsFirst(m, cast + [StructGet(T_VARIANT, k)], [I32Const(n), I32Eq], locals, hidden);
  }

  /** A variant pattern on a typed step. */
  lemma {:induction false} StepAnswers(m: Module, cx: MatchCtx, p: Pattern, value: seq<Instr>,
                                       expected: Option<MonoType>, v: Value, locals: seq<Val>, hidden: set<nat>)
    requires RuntimeTypes(m.types) && v.StepV? && Made(m.types, cx.te, v) && Yields(m, value, locals, hidden, v.ref)
    requires p.PVariant? && Fits(cx.te, p, v, expected, NO_HINTS)
    ensures Answers(m, Condition(cx, p, value, expected, NO_HINTS), locals, hidden,
                    VerdictOf(cx.te, p, v, expected, NO_HINTS))
  {
    var PVariant(t, k, fs) := p;
    var inner := InnerChecks(cx, ErasedAccess, value, expected, NO_HINTS, k, fs, 0);
    var outer := CombineAnds(OuterChecks(ErasedAccess, value, t, k));
    if LookalikeStep(cx.te, v.yieldTy, v.seedTy) {
      LookalikeOuterYields(m, cx.te, k, value, v, locals, hidden);
      if inner != [] {
        GuardedAnswers(m, outer, CombineAnds(inner), locals, hidden, false, Stuck);
      }
    } else {
      StepOuterTraps(m, cx.te, k, value, v, locals, hidden);
      TrapsFirst(m, outer, [If(CombineAnds(inner), [I32Const(0)])], locals, hidden);
    }
  }

  lemma {:induction false} ByteReadAsIntTraps(m: Module, n: int, value: seq<Instr>, x: int, locals: seq<Val>,
                                              hidden: set<nat>)
    requires Yields(m, value, locals, hidden, I31Ref(x))
    ensures Traps(m, value + UnboxCode(I64) + [I64Const(n), I64Eq], locals, hidden)
  {
    forall s: Stack, ls: seq<Val> | AgreeOutside(locals, ls, hidden)
      ensures Exec(m, value + UnboxCode(I64) + [I64Const(n), I64Eq], State(s, ls)) == Trap
    {
      ExecConcat(m, value + UnboxCode(I64), [I64Const(n), I64Eq], State(s, ls));
      ExecConcat(m, value, UnboxCode(I64), State(s, ls));
      ExecTwo(m, RefCast(false, NamedHeap(T_BOXED_INT)), StructGet(T_BOXED_INT, 0), State(Push(I31Ref(x), s), ls));
    }
  }

  lemma {:induction false} PlainVerdict(te: TypeEnv, p: Pattern, v: Value, expected: Option<MonoType>, h: Hints)
    requires !p.PVariant?
    ensures VerdictOf(te, p, v, expected, h)
         == if p.LitInt? && v.ByteV? && expected != Some(Byte) then Stuck else Decided(Matches(p, v))
  {
  }

  lemma {:induction false} PlainAnswers(m: Module, cx: MatchCtx, p: Pattern, value: seq<Instr>,
                                        expected: Option<MonoType>, h: Hints, v: Value, w: Val, locals: seq<Val>,
                                        hidden: set<nat>)
    requires Wired(m, cx) && Yields(m, value, locals, hidden, w) && Truthful(m, cx.te, expected, h, w, v)
    requires !p.PVariant? && Fits(cx.te, p, v, expected, h)
    ensures Answers(m, Condition(cx, p, value, expected, h), locals, hidden, VerdictOf(cx.te, p, v, expected, h))
  {
    PlainVerdict(cx.te, p, v, expected, h);
    if IsTrivial(p) {
      YieldsConst(m, 1, locals, hidden);
    } else if p.LitInt? && v.ByteV? && expected != Some(Byte) {
      ByteReadAsIntTraps(m, p.n, value, v.n, locals, hidden);
    } else {
      LiteralCorrect(m, cx, p, value, expected, h, v, w, locals, hidden);
    }
  }

  /** The emitted condition comes to the verdict: it yields a truth value, or traps on a typed step. */
  lemma {:induction false} ConditionAnswers(m: Module, cx: MatchCtx, p: Pattern, value: seq<Instr>,
                                            expected: Option<MonoType>, h: Hints, v: Value, w: Val, locals: seq<Val>,
                                            hidden: set<nat>)
    requires Wired(m, cx) && Yields(m, value, locals, hidden, w) && Truthful(m, cx.te, expected, h, w, v)
    requires Fits(cx.te, p, v, expected, h)
    ensures Answers(m, Condition(cx, p, value, expected, h), locals, hidden, VerdictOf(cx.te, p, v, expected, h))
    decreases p, 2
  {
    if p.PVariant? {
      if v.StepV? {
        StepAnswers(m, cx, p, value, expected, v, locals, hidden);
      } else {
        VariantAnswers(m, cx, p, value, expected, h, v, w, locals, hidden);
      }
    } else {
      PlainAnswers(m, cx, p, value, expected, h, v, w, locals, hidden);
    }
  }

  /**
    If the pattern meets no typed step and reads no Byte as an Int, the emitted condition never traps and yields 1
    exactly when the pattern matches.
  */
  lemma {:induction false} ConditionCorrect(m: Module, cx: MatchCtx, p: Pattern, value: seq<Instr>,
                                            expected: Option<MonoType>, h: Hints, v: Value, w: Val, locals: seq<Val>,
                                            hidden: set<nat>)
    requires Wired(m, cx) && Yields(m, value, locals, hidden, w) && Truthful(m, cx.te, expected, h, w, v)
    requires Fits(cx.te, p, v, expected, h) && !MeetsStep(p, v) && !ReadsByteAsInt(cx.te, p, v, expected, h)
    ensures Yields(m, Condition(cx, p, value, expected, h), locals, hidden, I32Val(BoolInt(Matches(p, v))))
  {
    if Stumbles(cx.te, p, v) {
      StumblingMeets(cx.te, p, v);
    }
    ConditionAnswers(m, cx, p, value, expected, h, v, w, locals, hidden);
  }
}
