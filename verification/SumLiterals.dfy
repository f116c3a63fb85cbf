/** Literals of sums: the structs that the emitter builds are those that matching and conversions take apart. */
module SumLiterals {
  import opened Base
  import opened Wasm
  import opened Mono
  import opened CodeCalculus
  import opened Coercions
  import opened Values
  import opened Sums
  import Iterators

  // ----- Emission -----

  /** `emit_typed_general_option_literal`; `payload` pushes the argument in the type of its slot, if there is one. */
  function SumLiteral(te: TypeEnv, t: MonoType, k: nat, payload: seq<Instr>): (code: seq<Instr>)
    requires IsSumCandidate(t)
  {
    var first := Iterators.DefaultCode(ValTypeOf(te, t.args[0]));
    if t.typeId == OPTION then [I32Const(k)] + (if k == 1 then payload else first) + [StructNew(SumSym(t))]
    else
      var second := Iterators.DefaultCode(ValTypeOf(te, t.args[1]));
      [I32Const(k)] + (if k == 0 then payload else first) + (if k == 0 then second else payload)
      + [StructNew(SumSym(t))]
  }

  /** `emit_default_value`. */
  function PlainDefault(t: ValType): (code: seq<Instr>) {
    match t
    case I32 => [I32Const(0)]
    case I64 => [I64Const(0)]
    case F64 => [F64Const(0.0)]
    case _ => [RefNull(NoneHeap)]
  }

  /** `emit_typed_unfold_step_literal`. */
  function StepLiteral(te: TypeEnv, y: MonoType, s: MonoType, k: nat, value: seq<Instr>, seed: seq<Instr>)
    : (code: seq<Instr>)
  {
    [I32Const(k)] + (if k == 1 then value else PlainDefault(ValTypeOf(te, y)))
    + (if k == 1 then seed else PlainDefault(ValTypeOf(te, s))) + [StructNew(UnfoldStepSym(y, s))]
  }

  function Concat(codes: seq<seq<Instr>>): (code: seq<Instr>) {
    if codes == [] then [] else Concat(codes[..|codes| - 1]) + codes[|codes| - 1]
  }

  /** `emit_variant_literal`, the erased path. */
  function ErasedLiteral(id: nat, k: nat, args: seq<seq<Instr>>): (code: seq<Instr>) {
    [I32Const(id)] + [I32Const(k)] + (Concat(args) + [ArrayNewFixed(T_ARRAY, |args|)]) + [StructNew(T_VARIANT)]
  }

  // ----- Erased literals -----

  /** Each piece of code pushes the boxed argument. */
  ghost predicate ArgsYield(m: Module, codes: seq<seq<Instr>>, args: seq<Value>, locals: seq<Val>, hidden: set<nat>) {
    |codes| == |args| && forall i | 0 <= i < |args| :: Yields(m, codes[i], locals, hidden, Boxed(args[i]))
  }

  lemma {:induction false} BoxedSnoc(args: seq<Value>)
    requires args != []
    ensures BoxedAll(args[..|args| - 1]) + [Boxed(args[|args| - 1])] == BoxedAll(args)
  {
    var n := |args| - 1;
    var front, all := BoxedAll(args[..n]), BoxedAll(args);
    assert |front + [Boxed(args[n])]| == |all|;
    forall i | 0 <= i < |all|
      ensures (front + [Boxed(args[n])])[i] == all[i]
    {
    }
  }

  lemma {:induction false} ArgsPush(m: Module, codes: seq<seq<Instr>>, args: seq<Value>, locals: seq<Val>,
                                    hidden: set<nat>)
    requires ArgsYield(m, codes, args, locals, hidden)
    ensures Pushes(m, Concat(codes), locals, hidden, BoxedAll(args))
    decreases |codes|
  {
    if codes == [] {
      PushesNone(m, locals, hidden);
    } else {
      var n := |codes| - 1;
      ArgsPush(m, codes[..n], args[..n], locals, hidden);
      PushesThen(m, Concat(codes[..n]), codes[n], locals, hidden, BoxedAll(args[..n]), Boxed(args[n]));
      BoxedSnoc(args);
    }
  }

  /** The erased literal is the erased form of the value. */
  lemma {:induction false} ErasedLiteralBuilds(m: Module, id: nat, k: nat, codes: seq<seq<Instr>>, args: seq<Value>,
                                               locals: seq<Val>, hidden: set<nat>)
    requires RuntimeTypes(m.types) && ArgsYield(m, codes, args, locals, hidden)
    ensures Yields(m, ErasedLiteral(id, k, codes), locals, hidden, Boxed(SumV(id, k, args)))
  {
    ArgsPush(m, codes, args, locals, hidden);
    YieldsArray(m, Concat(codes), T_ARRAY, locals, hidden, BoxedAll(args));
    YieldsConst(m, k, locals, hidden);
    VariantYields(m, id, [I32Const(k)], Concat(codes) + [ArrayNewFixed(T_ARRAY, |codes|)], k, args, locals, hidden);
  }

  // ----- Typed literals -----

  lemma {:induction false} DefaultHasType(types: map<Sym, StructDef>, t: ValType)
    requires t.Ref? ==> t.nullable
    ensures HasType(types, Iterators.DefaultVal(t), t)
  {
  }

  /** Slots of fields are nullable. */
  predicate NullableSlots(te: TypeEnv) {
    forall id | id in te.defs && te.defs[id].AliasDef? && te.defs[id].target.Ref? :: te.defs[id].target.nullable
  }

  lemma {:induction false} SlotsNullable(te: TypeEnv, t: MonoType)
    requires NullableSlots(te)
    ensures ValTypeOf(te, t).Ref? ==> ValTypeOf(te, t).nullable
  {
  }

  /** The arguments of variant `k` of an Option or Result: `Some`, `Ok` and `Err` have one, `None` has none. */
  function SumArgs(t: MonoType, k: nat, a: Value): (args: seq<Value>)
    requires t.Named?
  {
    if HasArg(t, k) then [a] else []
  }

  predicate HasArg(t: MonoType, k: nat) { t.Named? && !(t.typeId == OPTION && k == 0) }

  /** The type of that argument. */
  function ArgType(t: MonoType, k: nat): (r: MonoType)
    requires IsSumCandidate(t) && k < 2
  {
    if t.typeId == OPTION then t.args[0] else if k == 0 then t.args[0] else t.args[1]
  }

  /** The fields that the literal puts into the struct. */
  function LiteralFields(te: TypeEnv, t: MonoType, k: nat, w: Val): (fields: seq<Val>)
    requires IsSumCandidate(t) && k < 2
  {
    var first := Iterators.DefaultVal(ValTypeOf(te, t.args[0]));
    if t.typeId == OPTION then [I32Val(k), if k == 1 then w else first]
    else
      var second := Iterators.DefaultVal(ValTypeOf(te, t.args[1]));
      [I32Val(k), if k == 0 then w else first, if k == 0 then second else w]
  }

  /** The argument of the variant, if it has one: its code, and its form in the slot. */
  ghost predicate ArgYields(m: Module, te: TypeEnv, t: MonoType, k: nat, payload: seq<Instr>, a: Value, w: Val,
                            locals: seq<Val>, hidden: set<nat>)
    requires IsSumCandidate(t) && k < 2
  {
    HasArg(t, k) ==>
      Yields(m, payload, locals, hidden, w) && Holds(m.types, w, ValTypeOf(te, ArgType(t, k)), a)
  }

  /** The typed literal is the typed struct of the value, with a default in the slot of the other variant. */
  lemma {:induction false} SumLiteralBuilds(m: Module, te: TypeEnv, t: MonoType, k: nat, payload: seq<Instr>,
                                            a: Value, w: Val, locals: seq<Val>, hidden: set<nat>)
    requires Declared(m, te, t) && k < 2 && NullableSlots(te) && ArgYields(m, te, t, k, payload, a, w, locals, hidden)
    ensures var r := StructRef(SumSym(t), LiteralFields(te, t, k, w));
            Yields(m, SumLiteral(te, t, k, payload), locals, hidden, r)
            && SumRep(m.types, te, t, r, SumV(t.typeId, k, SumArgs(t, k, a)))
            && FieldsTyped(m.types, r, SumDefOf(te, t))
  {
    if t.typeId == OPTION {
      OptionLiteralYields(m, te, t, k, payload, w, locals, hidden);
    } else {
      ResultLiteralYields(m, te, t, k, payload, w, locals, hidden);
    }
    LiteralRep(m.types, te, t, k, a, w);
  }

  lemma {:induction false} LiteralRep(types: map<Sym, StructDef>, te: TypeEnv, t: MonoType, k: nat, a: Value, w: Val)
    requires IsSumCandidate(t) && k < 2 && NullableSlots(te)
    requires HasArg(t, k) ==> Holds(types, w, ValTypeOf(te, ArgType(t, k)), a)
    ensures var r := StructRef(SumSym(t), LiteralFields(te, t, k, w));
            SumRep(types, te, t, r, SumV(t.typeId, k, SumArgs(t, k, a))) && FieldsTyped(types, r, SumDefOf(te, t))
  {
    SlotsNullable(te, t.args[0]);
    DefaultHasType(types, ValTypeOf(te, t.args[0]));
    if t.typeId == RESULT {
      SlotsNullable(te, t.args[1]);
      DefaultHasType(types, ValTypeOf(te, t.args[1]));
    }
  }

  lemma {:induction false} OptionLiteralYields(m: Module, te: TypeEnv, t: MonoType, k: nat, payload: seq<Instr>,
                                               w: Val, locals: seq<Val>, hidden: set<nat>)
    requires Declared(m, te, t) && k < 2 && t.typeId == OPTION && (k == 1 ==> Yields(m, payload, locals, hidden, w))
    ensures Yields(m, SumLiteral(te, t, k, payload), locals, hidden,
                   StructRef(SumSym(t), LiteralFields(te, t, k, w)))
  {
    var u := ValTypeOf(te, t.args[0]);
    var arg := if k == 1 then payload else Iterators.DefaultCode(u);
    Iterators.DefaultYields(m, u, locals, hidden);
    YieldsConst(m, k, locals, hidden);
    Iterators.Struct2Yields(m, [I32Const(k)], arg, SumSym(t), I32Val(k),
                            if k == 1 then w else Iterators.DefaultVal(u), locals, hidden);
  }

  lemma {:induction false} ResultLiteralYields(m: Module, te: TypeEnv, t: MonoType, k: nat, payload: seq<Instr>,
                                               w: Val, locals: seq<Val>, hidden: set<nat>)
    requires Declared(m, te, t) && k < 2 && t.typeId == RESULT && Yields(m, payload, locals, hidden, w)
    ensures Yields(m, SumLiteral(te, t, k, payload), locals, hidden,
                   StructRef(SumSym(t), LiteralFields(te, t, k, w)))
  {
    var u, v := ValTypeOf(te, t.args[0]), ValTypeOf(te, t.args[1]);
    Iterators.DefaultYields(m, u, locals, hidden);
    Iterators.DefaultYields(m, v, locals, hidden);
    var fields := LiteralFields(te, t, k, w);
    Iterators.Struct3Yields(m, k, if k == 0 then payload else Iterators.DefaultCode(u),
                            if k == 0 then Iterators.DefaultCode(v) else payload, SumSym(t), fields[1], fields[2],
                            locals, hidden);
  }

  /** Built typed and converted, or built erased at once: the result is the same. */
  lemma {:induction false} LiteralsAgree(m: Module, te: TypeEnv, t: MonoType, k: nat, payload: seq<Instr>,
                                         codes: seq<seq<Instr>>, a: Value, w: Val, idx: nat, locals: seq<Val>,
                                         hidden: set<nat>)
    requires Declared(m, te, t) && k < 2 && NullableSlots(te) && idx < |locals| && idx !in hidden
    requires ArgYields(m, te, t, k, payload, a, w, locals, hidden)
    requires ArgsYield(m, codes, SumArgs(t, k, a), locals, hidden)
    ensures var r := StructRef(SumSym(t), LiteralFields(te, t, k, w));
            var boxed := Boxed(SumV(t.typeId, k, SumArgs(t, k, a)));
            Yields(m, SumLiteral(te, t, k, payload), locals, hidden, r)
            && Yields(m, ErasedLiteral(t.typeId, k, codes), locals, hidden, boxed)
            && (locals[idx] == r ==> Yields(m, SumToVariant(te, idx, t), locals, hidden, boxed))
  {
    var v := SumV(t.typeId, k, SumArgs(t, k, a));
    SumLiteralBuilds(m, te, t, k, payload, a, w, locals, hidden);
    ErasedLiteralBuilds(m, t.typeId, k, codes, SumArgs(t, k, a), locals, hidden);
    if locals[idx] == StructRef(SumSym(t), LiteralFields(te, t, k, w)) {
      TypedSumErases(m, te, idx, t, v, locals, hidden);
    }
  }

  // ----- Steps -----

  lemma {:induction false} PlainDefaultYields(m: Module, t: ValType, locals: seq<Val>, hidden: set<nat>)
    requires !t.I31ref?
    ensures Yields(m, PlainDefault(t), locals, hidden, Iterators.DefaultVal(t))
  {
    forall s: Stack, ls: seq<Val> | AgreeOutside(locals, ls, hidden)
      ensures Exec(m, PlainDefault(t), State(s, ls)) == Next(State(Push(Iterators.DefaultVal(t), s), ls))
    {
      ExecOne(m, PlainDefault(t)[0], State(s, ls));
    }
  }

  /** The module declares the struct of the step type, and none of its slots is for small integers alone. */
  predicate StepSlots(m: Module, te: TypeEnv, y: MonoType, s: MonoType) {
    UnfoldStepSym(y, s) in m.types && m.types[UnfoldStepSym(y, s)] == UnfoldStepDef(te, y, s)
    && ValTypeOf(te, y) != I31ref && ValTypeOf(te, s) != I31ref
  }

  function StepFields(te: TypeEnv, y: MonoType, s: MonoType, k: nat, a: Val, b: Val): (fields: seq<Val>) {
    if k == 1 then [I32Val(1), a, b]
    else [I32Val(k), Iterators.DefaultVal(ValTypeOf(te, y)), Iterators.DefaultVal(ValTypeOf(te, s))]
  }

  /** The literal of a step is a typed step: `Done`, or `Yield` with the value and the seed in their slots. */
  lemma {:induction false} StepLiteralBuilds(m: Module, te: TypeEnv, y: MonoType, s: MonoType, k: nat,
                                             value: seq<Instr>, seed: seq<Instr>, a: Value, b: Value, wa: Val, wb: Val,
                                             locals: seq<Val>, hidden: set<nat>)
    requires StepSlots(m, te, y, s) && k < 2 && NullableSlots(te)
    requires k == 1 ==> Yields(m, value, locals, hidden, wa) && Holds(m.types, wa, ValTypeOf(te, y), a)
    requires k == 1 ==> Yields(m, seed, locals, hidden, wb) && Holds(m.types, wb, ValTypeOf(te, s), b)
    ensures var r := StructRef(UnfoldStepSym(y, s), StepFields(te, y, s, k, wa, wb));
            Yields(m, StepLiteral(te, y, s, k, value, seed), locals, hidden, r)
            && StepRep(m.types, te, y, s, r, SumV(UNFOLD_STEP, k, if k == 1 then [a, b] else []))
            && FieldsTyped(m.types, r, UnfoldStepDef(te, y, s))
  {
    StepLiteralYields(m, te, y, s, k, value, seed, wa, wb, locals, hidden);
    SlotsNullable(te, y);
    SlotsNullable(te, s);
    DefaultHasType(m.types, ValTypeOf(te, y));
    DefaultHasType(m.types, ValTypeOf(te, s));
  }

  lemma {:induction false} StepLiteralYields(m: Module, te: TypeEnv, y: MonoType, s: MonoType, k: nat,
                                             value: seq<Instr>, seed: seq<Instr>, wa: Val, wb: Val, locals: seq<Val>,
                                             hidden: set<nat>)
    requires StepSlots(m, te, y, s) && k < 2
    requires k == 1 ==> Yields(m, value, locals, hidden, wa) && Yields(m, seed, locals, hidden, wb)
    ensures Yields(m, StepLiteral(te, y, s, k, value, seed), locals, hidden,
                   StructRef(UnfoldStepSym(y, s), StepFields(te, y, s, k, wa, wb)))
  {
    var u, v := ValTypeOf(te, y), ValTypeOf(te, s);
    PlainDefaultYields(m, u, locals, hidden);
    PlainDefaultYields(m, v, locals, hidden);
    var fields := StepFields(te, y, s, k, wa, wb);
    Iterators.Struct3Yields(m, k, if k == 1 then value else PlainDefault(u), if k == 1 then seed else PlainDefault(v),
                            UnfoldStepSym(y, s), fields[1], fields[2], locals, hidden);
  }
}
