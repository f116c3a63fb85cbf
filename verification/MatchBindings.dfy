/** Pattern variables and whole matches: storing the components, and picking the first matching arm. */
module MatchBindings {
  import opened Base
  import opened Wasm
  import opened Mono
  import opened CodeCalculus
  import opened Coercions
  import opened Values
  import opened Match

  // ----- Emission -----

  /** The layout `emit_pattern_bindings` projects through: chosen by the hints, not by the pattern's type id. */
  function BindAccess(te: TypeEnv, typeId: nat, expected: Option<MonoType>, h: Hints): (a: Access) {
    var iter := IterPattern(te, OPTION, expected, h.iter);
    if IsRecord(te, typeId) then RecordAccess(typeId)
    else if iter.Some? then IterAccess(iter.value.0, h.iter.value, iter.value.1)
    else if IsStepPattern(te, UNFOLD_STEP, expected, h.step) then
      StepAccess(UnfoldStepSym(h.step.value.0, h.step.value.1), h.step.value.0, h.step.value.1)
    else if h.sum.Some? && IsSumPattern(if h.sum.value.Named? then h.sum.value.typeId else OPTION, expected, h.sum) then
      SumAccess(SumSym(h.sum.value), h.sum.value)
    else ErasedAccess
  }

  /** The type `emit_pattern_bindings` passes on with field `i`. */
  function BindExpected(te: TypeEnv, a: Access, typeId: nat, expected: Option<MonoType>, h: Hints, variant: nat,
                        i: nat)
    : (r: Option<MonoType>)
  {
    var iter := IterPattern(te, typeId, expected, h.iter);
    if a.RecordAccess? then TupleFieldMono(expected, a.typeId, i)
    else if iter.Some? && i == 0 then Some(iter.value.1)
    else VariantFieldMono(expected, variant, i)
  }

  /** `emit_variant_field_anyref` for a field of type `mono`. */
  function BindFieldCode(te: TypeEnv, a: Access, value: seq<Instr>, mono: Option<MonoType>, variant: nat, i: nat)
    : (code: seq<Instr>)
  {
    match a
    case IterAccess(sym, info, _) => TypedField(value, sym, i + 1, IterFieldType(te, info, mono))
    case StepAccess(sym, _, _) => TypedField(value, sym, i + 1, ValTypeOr(te, mono, Anyref))
    case SumAccess(sym, t) => TypedField(value, sym, SumFieldOffset(t, variant, i),
                                         ValTypeOr(te, SumFieldMono(t, variant, i), Anyref))
    case RecordAccess(id) => value + UnboxCode(RefTo(RecordSym(id))) + [StructGet(RecordSym(id), i)]
    case ErasedAccess => ErasedField(value, i)
  }

  /** The emitter panics on a variable without a slot. */
  predicate HasSlot(cx: MatchCtx, x: nat) { x in cx.slots && CanUnbox(cx.slots[x].1) }

  /** `emit_pattern_bindings`. */
  function Bindings(cx: MatchCtx, p: Pattern, value: seq<Instr>, expected: Option<MonoType>, h: Hints)
    : (code: seq<Instr>)
    decreases p, 0
  {
    match p
    case PVar(x) =>
      if HasSlot(cx, x) then value + FromAnyCode(cx.slots[x].1) + [LocalSet(cx.slots[x].0)] else [Unreachable]
    case PVariant(t, k, fs) => BindFields(cx, BindAccess(cx.te, t, expected, h), value, expected, h, t, k, fs, 0)
    case _ => []
  }

  function BindFields(cx: MatchCtx, a: Access, value: seq<Instr>, expected: Option<MonoType>, h: Hints, typeId: nat,
                      variant: nat, fs: seq<Pattern>, i: nat): (code: seq<Instr>)
    requires i <= |fs|
    decreases fs, |fs| - i
  {
    if i == |fs| then []
    else
      var mono := BindExpected(cx.te, a, typeId, expected, h, variant, i);
      Bindings(cx, fs[i], BindFieldCode(cx.te, a, value, mono, variant, i), mono,
               if a.RecordAccess? then NO_HINTS else Hints(h.iter, None, None))
      + BindFields(cx, a, value, expected, h, typeId, variant, fs, i + 1)
  }

  // ----- What the bindings should store -----

  /** The variables of a matching pattern with the reference each stands for, in binding order. */
  function Components(p: Pattern, v: Value, w: Val): (cs: seq<(nat, Val)>)
    decreases p, 0
  {
    match p
    case PVar(x) => [(x, w)]
    case PVariant(_, _, fs) => FieldComponents(fs, Parts(v), 0)
    case _ => []
  }

  function FieldComponents(fs: seq<Pattern>, vs: seq<Value>, i: nat): (cs: seq<(nat, Val)>)
    requires i <= |fs|
    decreases fs, |fs| - i
  {
    if i == |fs| || i >= |vs| then [] else Components(fs[i], vs[i], Boxed(vs[i])) + FieldComponents(fs, vs, i + 1)
  }

  /** A local of type `t` can take the reference `w`. */
  predicate Storable(types: map<Sym, StructDef>, t: ValType, w: Val) {
    match t
    case I64 => w.StructRef? && SubType(types, w.sym, T_BOXED_INT) && |w.fields| == 1
    case F64 => w.StructRef? && SubType(types, w.sym, T_BOXED_FLOAT) && |w.fields| == 1
    case I32 => w.I31Ref?
    case Ref(nullable, heap) => CastSucceeds(types, w, nullable, heap)
    case Anyref => true
    case _ => false
  }

  /** What a local of type `t` then holds. */
  function StoredAs(t: ValType, w: Val): (v: Val) {
    if (t == I64 || t == F64) && w.StructRef? && |w.fields| == 1 then w.fields[0]
    else if t == I32 && w.I31Ref? then I32Val(w.n)
    else w
  }

  predicate AllStorable(types: map<Sym, StructDef>, cx: MatchCtx, cs: seq<(nat, Val)>, size: nat, hidden: set<nat>) {
    forall i | 0 <= i < |cs| ::
      HasSlot(cx, cs[i].0)
      && (var slot := cx.slots[cs[i].0]; slot.0 < size && slot.0 in hidden && Storable(types, slot.1, cs[i].1))
  }

  /** Every component has a slot among the first `size` locals. */
  predicate Slotted(cx: MatchCtx, cs: seq<(nat, Val)>, size: nat) {
    forall i | 0 <= i < |cs| :: HasSlot(cx, cs[i].0) && cx.slots[cs[i].0].0 < size
  }

  /** The locals after storing the components in order. */
  function Store(cx: MatchCtx, cs: seq<(nat, Val)>, ls: seq<Val>): (r: seq<Val>)
    requires Slotted(cx, cs, |ls|)
    ensures |r| == |ls|
  {
    if cs == [] then ls
    else
      assert HasSlot(cx, cs[0].0);
      var slot := cx.slots[cs[0].0];
      Store(cx, cs[1..], ls[slot.0 := StoredAs(slot.1, cs[0].1)])
  }

  lemma {:induction false} StoreConcat(cx: MatchCtx, a: seq<(nat, Val)>, b: seq<(nat, Val)>, ls: seq<Val>)
    requires Slotted(cx, a, |ls|)
    requires Slotted(cx, b, |ls|)
    ensures Slotted(cx, a + b, |ls|)
    ensures Store(cx, a + b, ls) == Store(cx, b, Store(cx, a, ls))
  {
    if a == [] {
      assert a + b == b;
    } else {
      var slot := cx.slots[a[0].0];
      assert (a + b)[1..] == a[1..] + b;
      StoreConcat(cx, a[1..], b, ls[slot.0 := StoredAs(slot.1, a[0].1)]);
    }
  }

  /** Storing touches only the variables' slots. */
  lemma {:induction false} StoreFrame(types: map<Sym, StructDef>, cx: MatchCtx, cs: seq<(nat, Val)>, ls: seq<Val>,
                                      hidden: set<nat>)
    requires AllStorable(types, cx, cs, |ls|, hidden)
    ensures AgreeOutside(ls, Store(cx, cs, ls), hidden)
  {
    if cs != [] {
      var slot := cx.slots[cs[0].0];
      StoreFrame(types, cx, cs[1..], ls[slot.0 := StoredAs(slot.1, cs[0].1)], hidden);
    }
  }

  predicate Linear(cs: seq<(nat, Val)>) { forall i, j | 0 <= i < j < |cs| :: cs[i].0 != cs[j].0 }

  predicate DistinctSlots(cx: MatchCtx) {
    forall x, y | x in cx.slots && y in cx.slots && x != y :: cx.slots[x].0 != cx.slots[y].0
  }

  lemma {:induction false} StoreKeeps(cx: MatchCtx, cs: seq<(nat, Val)>, ls: seq<Val>, k: nat)
    requires Slotted(cx, cs, |ls|)
    requires k < |ls| && forall i | 0 <= i < |cs| :: HasSlot(cx, cs[i].0) && cx.slots[cs[i].0].0 != k
    ensures Store(cx, cs, ls)[k] == ls[k]
  {
    if cs != [] {
      var slot := cx.slots[cs[0].0];
      StoreKeeps(cx, cs[1..], ls[slot.0 := StoredAs(slot.1, cs[0].1)], k);
    }
  }

  /** With linear variables and distinct slots, every variable's local ends up holding that variable's component. */
  lemma {:induction false} StoreHolds(cx: MatchCtx, cs: seq<(nat, Val)>, ls: seq<Val>, i: nat)
    requires Slotted(cx, cs, |ls|)
    requires Linear(cs) && DistinctSlots(cx) && i < |cs|
    ensures Store(cx, cs, ls)[cx.slots[cs[i].0].0] == StoredAs(cx.slots[cs[i].0].1, cs[i].1)
  {
    var slot := cx.slots[cs[0].0];
    var ls' := ls[slot.0 := StoredAs(slot.1, cs[0].1)];
    if i == 0 {
      StoreKeeps(cx, cs[1..], ls', slot.0);
    } else {
      assert cs[1..][i - 1] == cs[i];
      StoreHolds(cx, cs[1..], ls', i - 1);
    }
  }

  // ----- Correctness -----

  lemma {:induction false} UnboxMaps(m: Module, t: ValType, w: Val)
    requires RuntimeTypes(m.types) && CanUnbox(t) && Storable(m.types, t, w)
    ensures Maps(m, FromAnyCode(t), w, StoredAs(t, w))
  {
    match t
    case I64 =>
      MapsCast(m, false, NamedHeap(T_BOXED_INT), w);
      MapsGet(m, T_BOXED_INT, 0, w);
      MapsConcat(m, [RefCast(false, NamedHeap(T_BOXED_INT))], [StructGet(T_BOXED_INT, 0)], w, w, w.fields[0]);
      assert FromAnyCode(t) == [RefCast(false, NamedHeap(T_BOXED_INT))] + [StructGet(T_BOXED_INT, 0)];
    case F64 =>
      MapsCast(m, false, NamedHeap(T_BOXED_FLOAT), w);
      MapsGet(m, T_BOXED_FLOAT, 0, w);
      MapsConcat(m, [RefCast(false, NamedHeap(T_BOXED_FLOAT))], [StructGet(T_BOXED_FLOAT, 0)], w, w, w.fields[0]);
      assert FromAnyCode(t) == [RefCast(false, NamedHeap(T_BOXED_FLOAT))] + [StructGet(T_BOXED_FLOAT, 0)];
    case I32 =>
      MapsCast(m, false, I31Heap, w);
      MapsI31Get(m, w.n);
      MapsConcat(m, [RefCast(false, I31Heap)], [I31GetS], w, w, I32Val(w.n));
      assert FromAnyCode(t) == [RefCast(false, I31Heap)] + [I31GetS];
    case Ref(nullable, heap) => MapsCast(m, nullable, heap, w);
    case Anyref => MapsNil(m, w);
  }

  lemma {:induction false} VarCorrect(m: Module, cx: MatchCtx, x: nat, value: seq<Instr>, w: Val, locals: seq<Val>,
                                      hidden: set<nat>, s: Stack, ls: seq<Val>)
    requires RuntimeTypes(m.types) && Yields(m, value, locals, hidden, w) && AgreeOutside(locals, ls, hidden)
    requires HasSlot(cx, x) && cx.slots[x].0 < |ls| && Storable(m.types, cx.slots[x].1, w)
    ensures Exec(m, value + FromAnyCode(cx.slots[x].1) + [LocalSet(cx.slots[x].0)], State(s, ls))
         == Next(State(s, Store(cx, [(x, w)], ls)))
  {
    var (k, t) := cx.slots[x];
    UnboxMaps(m, t, w);
    YieldsMap(m, value, FromAnyCode(t), locals, hidden, w, StoredAs(t, w));
    ExecStore(m, value + FromAnyCode(t), k, locals, hidden, StoredAs(t, w), s, ls);
    assert [(x, w)][1..] == [];
    assert Store(cx, [], ls[k := StoredAs(t, w)]) == ls[k := StoredAs(t, w)];
  }

  /** On a well-typed value both emitters pick the same layout and project the same code. */
  lemma {:induction false} BindFieldAgrees(m: Module, te: TypeEnv, p: Pattern, i: nat, value: seq<Instr>,
                                           expected: Option<MonoType>, h: Hints, v: Value, w: Val)
    requires Truthful(m, te, expected, h, w, v) && p.PVariant? && Fits(te, p, v, expected, h)
    requires TagFits(p.typeId, p.variant, v)
    requires i < |p.fields|
    requires !IsRecord(te, OPTION) && !IsRecord(te, RESULT) && !IsRecord(te, UNFOLD_STEP)
    ensures BindAccess(te, p.typeId, expected, h) == AccessFor(te, p.typeId, expected, h)
    ensures var a := AccessFor(te, p.typeId, expected, h);
            var mono := BindExpected(te, a, p.typeId, expected, h, p.variant, i);
            BindFieldCode(te, a, value, mono, p.variant, i) == FieldCode(te, a, value, expected, p.variant, i)
  {
  }

  lemma {:induction false} SplitStorable(types: map<Sym, StructDef>, cx: MatchCtx, a: seq<(nat, Val)>,
                                         b: seq<(nat, Val)>, size: nat, hidden: set<nat>)
    requires AllStorable(types, cx, a + b, size, hidden)
    ensures AllStorable(types, cx, a, size, hidden) && AllStorable(types, cx, b, size, hidden)
    ensures Slotted(cx, a, size) && Slotted(cx, b, size)
  {
    assert forall i | 0 <= i < |a| :: a[i] == (a + b)[i];
    assert forall i | 0 <= i < |b| :: b[i] == (a + b)[|a| + i];
  }

  lemma {:induction false} BindingsCorrect(m: Module, cx: MatchCtx, p: Pattern, value: seq<Instr>,
                                           expected: Option<MonoType>, h: Hints, v: Value, w: Val, locals: seq<Val>,
                                           hidden: set<nat>, s: Stack, ls: seq<Val>)
    requires RuntimeTypes(m.types) && Yields(m, value, locals, hidden, w) && AgreeOutside(locals, ls, hidden)
    requires !IsRecord(cx.te, OPTION) && !IsRecord(cx.te, RESULT) && !IsRecord(cx.te, UNFOLD_STEP)
    requires Truthful(m, cx.te, expected, h, w, v) && Fits(cx.te, p, v, expected, h)
    requires Matches(p, v) && !MeetsStep(p, v)
    requires AllStorable(m.types, cx, Components(p, v, w), |ls|, hidden)
    ensures Slotted(cx, Components(p, v, w), |ls|)
    ensures Exec(m, Bindings(cx, p, value, expected, h), State(s, ls))
            == Next(State(s, Store(cx, Components(p, v, w), ls)))
    decreases p, 1
  {
    match p
    case PVar(x) =>
      assert Components(p, v, w)[0] == (x, w);
      VarCorrect(m, cx, x, value, w, locals, hidden, s, ls);
    case PVariant(t, k, fs) =>
      var a := AccessFor(cx.te, t, expected, h);
      FieldsProject(m, cx, p, value, expected, h, v, w, locals, hidden);
      if fs != [] {
        BindFieldAgrees(m, cx.te, p, 0, value, expected, h, v, w);
        forall i | 0 <= i < |fs|
          ensures SameProjection(cx.te, a, t, k, value, expected, h, i)
        {
          BindFieldAgrees(m, cx.te, p, i, value, expected, h, v, w);
        }
        BindFieldsCorrect(m, cx, a, t, k, fs, 0, value, expected, h, Parts(v), locals, hidden, s, ls);
      }
    case _ =>
  }

  /** The binding emitter projects field `i` as the condition emitter does. */
  predicate SameProjection(te: TypeEnv, a: Access, typeId: nat, variant: nat, value: seq<Instr>,
                           expected: Option<MonoType>, h: Hints, i: nat) {
    BindFieldCode(te, a, value, BindExpected(te, a, typeId, expected, h, variant, i), variant, i)
    == FieldCode(te, a, value, expected, variant, i)
  }

  /** Below the top of a pattern the bindings depend neither on the hints nor on the types passed on. */
  lemma {:induction false} BindingsIgnoreTypes(cx: MatchCtx, p: Pattern, value: seq<Instr>, e1: Option<MonoType>,
                                               h: Hints, e2: Option<MonoType>)
    requires IsTrivial(p) || h == NO_HINTS
    ensures Bindings(cx, p, value, e1, h) == Bindings(cx, p, value, e2, NO_HINTS)
    decreases p, 0
  {
    if p.PVariant? {
      var a := BindAccess(cx.te, p.typeId, e1, NO_HINTS);
      assert a == BindAccess(cx.te, p.typeId, e2, NO_HINTS);
      BindFieldsIgnoreTypes(cx, a, value, e1, e2, p.typeId, p.variant, p.fields, 0);
    }
  }

  lemma {:induction false} BindFieldsIgnoreTypes(cx: MatchCtx, a: Access, value: seq<Instr>, e1: Option<MonoType>,
                                                 e2: Option<MonoType>, typeId: nat, variant: nat, fs: seq<Pattern>,
                                                 i: nat)
    requires i <= |fs| && (a.RecordAccess? || a.ErasedAccess?)
    ensures BindFields(cx, a, value, e1, NO_HINTS, typeId, variant, fs, i)
         == BindFields(cx, a, value, e2, NO_HINTS, typeId, variant, fs, i)
    decreases fs, |fs| - i
  {
    if i < |fs| {
      var m1, m2 := BindExpected(cx.te, a, typeId, e1, NO_HINTS, variant, i),
                    BindExpected(cx.te, a, typeId, e2, NO_HINTS, variant, i);
      var field := BindFieldCode(cx.te, a, value, m1, variant, i);
      assert field == BindFieldCode(cx.te, a, value, m2, variant, i);
      BindingsIgnoreTypes(cx, fs[i], field, m1, NO_HINTS, m2);
      BindFieldsIgnoreTypes(cx, a, value, e1, e2, typeId, variant, fs, i + 1);
    }
  }

  function FieldBindings(cx: MatchCtx, a: Access, variant: nat, fs: seq<Pattern>, i: nat, value: seq<Instr>,
                         expected: Option<MonoType>): (code: seq<Instr>)
    requires i < |fs|
  {
    Bindings(cx, fs[i], FieldCode(cx.te, a, value, expected, variant, i), FieldExpected(a, expected, variant, i),
             NO_HINTS)
  }

  /** The code of one field comes first; hints do not matter below the top of the pattern. */
  lemma {:induction false} BindFieldsUnfold(cx: MatchCtx, a: Access, typeId: nat, variant: nat, fs: seq<Pattern>,
                                            i: nat, value: seq<Instr>, expected: Option<MonoType>, h: Hints)
    requires i < |fs| && (h.iter.None? || IsTrivial(fs[i]))
    requires SameProjection(cx.te, a, typeId, variant, value, expected, h, i)
    ensures BindFields(cx, a, value, expected, h, typeId, variant, fs, i)
         == FieldBindings(cx, a, variant, fs, i, value, expected)
             + BindFields(cx, a, value, expected, h, typeId, variant, fs, i + 1)
  {
    BindingsIgnoreTypes(cx, fs[i], FieldCode(cx.te, a, value, expected, variant, i),
                        BindExpected(cx.te, a, typeId, expected, h, variant, i),
                        if a.RecordAccess? then NO_HINTS else Hints(h.iter, None, None),
                        FieldExpected(a, expected, variant, i));
  }

  /** The fields of a matching pattern, ready to be stored one after the other. */
  ghost predicate FieldsReady(m: Module, cx: MatchCtx, a: Access, typeId: nat, variant: nat, fs: seq<Pattern>,
                              value: seq<Instr>, expected: Option<MonoType>, h: Hints, vs: seq<Value>,
                              locals: seq<Val>, hidden: set<nat>) {
    RuntimeTypes(m.types) && Projected(m, cx, a, variant, fs, value, expected, h, vs, locals, hidden)
    && !IsRecord(cx.te, OPTION) && !IsRecord(cx.te, RESULT) && !IsRecord(cx.te, UNFOLD_STEP)
    && (forall j | 0 <= j < |fs| :: SameProjection(cx.te, a, typeId, variant, value, expected, h, j))
    && (forall j | 0 <= j < |fs| :: Matches(fs[j], vs[j]) && !MeetsStep(fs[j], vs[j]))
    && (h.iter.None? || forall j | 0 <= j < |fs| :: IsTrivial(fs[j]))
  }

  lemma {:induction false} BindFieldsCorrect(m: Module, cx: MatchCtx, a: Access, typeId: nat, variant: nat,
                                             fs: seq<Pattern>, i: nat, value: seq<Instr>, expected: Option<MonoType>,
                                             h: Hints, vs: seq<Value>, locals: seq<Val>, hidden: set<nat>, s: Stack,
                                             ls: seq<Val>)
    requires FieldsReady(m, cx, a, typeId, variant, fs, value, expected, h, vs, locals, hidden)
    requires AgreeOutside(locals, ls, hidden) && i <= |fs|
    requires AllStorable(m.types, cx, FieldComponents(fs, vs, i), |ls|, hidden)
    ensures Slotted(cx, FieldComponents(fs, vs, i), |ls|)
    ensures Exec(m, BindFields(cx, a, value, expected, h, typeId, variant, fs, i), State(s, ls))
         == Next(State(s, Store(cx, FieldComponents(fs, vs, i), ls)))
    decreases fs, |fs| - i
  {
    if i < |fs| {
      var cs, cs' := Components(fs[i], vs[i], Boxed(vs[i])), FieldComponents(fs, vs, i + 1);
      SplitStorable(m.types, cx, cs, cs', |ls|, hidden);
      BindOneField(m, cx, a, typeId, variant, fs, i, value, expected, h, vs, locals, hidden, s, ls);
      StoreFrame(m.types, cx, cs, ls, hidden);
      BindFieldsCorrect(m, cx, a, typeId, variant, fs, i + 1, value, expected, h, vs, locals, hidden, s,
                        Store(cx, cs, ls));
      BindStep(m, cx, a, typeId, variant, fs, i, value, expected, h, vs, s, ls);
    }
  }

  /** First one field, then the others. */
  lemma {:induction false} BindStep(m: Module, cx: MatchCtx, a: Access, typeId: nat, variant: nat, fs: seq<Pattern>,
                                    i: nat, value: seq<Instr>, expected: Option<MonoType>, h: Hints, vs: seq<Value>,
                                    s: Stack, ls: seq<Val>)
    requires i < |fs| <= |vs| && (h.iter.None? || IsTrivial(fs[i]))
             && SameProjection(cx.te, a, typeId, variant, value, expected, h, i)
    requires Slotted(cx, Components(fs[i], vs[i], Boxed(vs[i])), |ls|)
             && Slotted(cx, FieldComponents(fs, vs, i + 1), |ls|)
    requires var ls' := Store(cx, Components(fs[i], vs[i], Boxed(vs[i])), ls);
             Exec(m, FieldBindings(cx, a, variant, fs, i, value, expected), State(s, ls)) == Next(State(s, ls'))
             && Exec(m, BindFields(cx, a, value, expected, h, typeId, variant, fs, i + 1), State(s, ls'))
                == Next(State(s, Store(cx, FieldComponents(fs, vs, i + 1), ls')))
    ensures Slotted(cx, FieldComponents(fs, vs, i), |ls|)
    ensures Exec(m, BindFields(cx, a, value, expected, h, typeId, variant, fs, i), State(s, ls))
         == Next(State(s, Store(cx, FieldComponents(fs, vs, i), ls)))
  {
    BindFieldsUnfold(cx, a, typeId, variant, fs, i, value, expected, h);
    StoreOneMore(m, cx, FieldBindings(cx, a, variant, fs, i, value, expected),
                 BindFields(cx, a, value, expected, h, typeId, variant, fs, i + 1),
                 Components(fs[i], vs[i], Boxed(vs[i])), FieldComponents(fs, vs, i + 1), s, ls);
  }

  lemma {:induction false} StoreOneMore(m: Module, cx: MatchCtx, code: seq<Instr>, rest: seq<Instr>,
                                        cs: seq<(nat, Val)>, cs': seq<(nat, Val)>, s: Stack, ls: seq<Val>)
    requires Slotted(cx, cs, |ls|) && Slotted(cx, cs', |Store(cx, cs, ls)|)
    requires Exec(m, code, State(s, ls)) == Next(State(s, Store(cx, cs, ls)))
    requires Exec(m, rest, State(s, Store(cx, cs, ls))) == Next(State(s, Store(cx, cs', Store(cx, cs, ls))))
    ensures Slotted(cx, cs + cs', |ls|)
    ensures Exec(m, code + rest, State(s, ls)) == Next(State(s, Store(cx, cs + cs', ls)))
  {
    ExecConcat(m, code, rest, State(s, ls));
    StoreConcat(cx, cs, cs', ls);
  }

  lemma {:induction false} BindOneField(m: Module, cx: MatchCtx, a: Access, typeId: nat, variant: nat,
                                        fs: seq<Pattern>, i: nat, value: seq<Instr>, expected: Option<MonoType>,
                                        h: Hints, vs: seq<Value>, locals: seq<Val>, hidden: set<nat>, s: Stack,
                                        ls: seq<Val>)
    requires FieldsReady(m, cx, a, typeId, variant, fs, value, expected, h, vs, locals, hidden)
    requires AgreeOutside(locals, ls, hidden) && i < |fs|
    requires AllStorable(m.types, cx, Components(fs[i], vs[i], Boxed(vs[i])), |ls|, hidden)
    ensures Slotted(cx, Components(fs[i], vs[i], Boxed(vs[i])), |ls|)
    ensures Exec(m, FieldBindings(cx, a, variant, fs, i, value, expected), State(s, ls))
         == Next(State(s, Store(cx, Components(fs[i], vs[i], Boxed(vs[i])), ls)))
    decreases fs, 0
  {
    BindingsCorrect(m, cx, fs[i], FieldCode(cx.te, a, value, expected, variant, i),
                    FieldExpected(a, expected, variant, i),
                    NO_HINTS, vs[i], Boxed(vs[i]), locals, hidden, s, ls);
  }
}
