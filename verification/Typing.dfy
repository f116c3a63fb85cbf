/**
  Types of values, and patterns that are well typed for them, said without the backend's own bookkeeping: what a
  pattern compiler that tracks types should know at every position.
*/
module Typing {
  import opened Base
  import opened Wasm
  import opened Mono
  import opened Values
  import opened Match
  import opened MatchBindings

  predicate IsBuiltin(id: nat) { id == OPTION || id == RESULT || id == UNFOLD_STEP }

  /** Types that the runtime has its own structs for. */
  predicate IsNative(id: nat) { id == CELL || id == ITERATOR || id == TASK || id == CHANNEL }

  /** A sum type of the program, erased to `$Variant`. */
  predicate IsSum(te: TypeEnv, id: nat) { id in te.defs && te.defs[id].SumDef? && !IsNative(id) }

  /** The built-in sums are sums whose fields are type parameters, and records have no variants. */
  ghost predicate Prelude(te: TypeEnv, decl: Fields) {
    IsSum(te, OPTION) && IsSum(te, RESULT) && IsSum(te, UNFOLD_STEP)
    && (forall id: nat, k: nat, i: nat | IsBuiltin(id) && i < |decl(id, k)| :: decl(id, k)[i] == Void)
    && (forall id: nat, k: nat | IsRecord(te, id) :: decl(id, k) == [])
  }

  // ----- Types of values -----

  /** How many fields a variant has. */
  function Arity(decl: Fields, id: nat, k: nat): (n: nat) {
    if id == OPTION then if k == 1 then 1 else 0
    else if id == RESULT then 1
    else if id == UNFOLD_STEP then if k == 1 then 2 else 0
    else |decl(id, k)|
  }

  /** Some value of the program looks like this, components aside. */
  predicate Shaped(te: TypeEnv, decl: Fields, v: Value) {
    match v
    case SumV(id, k, args) => IsSum(te, id) && |args| == Arity(decl, id, k) && (IsBuiltin(id) ==> k < 2)
    case StepV(_, _, k, args, _) => |args| == Arity(decl, UNFOLD_STEP, k) && k < 2
    case TupleV(id, _) => IsRecord(te, id) && !IsNative(id)
    case ByteV(n) => 0 <= n < 256
    case _ => true
  }

  /** A reference that can be used as one to a struct or array of type `sym`. */
  predicate Refers(types: map<Sym, StructDef>, v: Value, sym: Sym) {
    v.Opaque? && CastSucceeds(types, v.ref, true, NamedHeap(sym))
  }

  /** Values of type `t` that no pattern looks into, by their run-time form. */
  predicate IsOpaque(types: map<Sym, StructDef>, te: TypeEnv, t: MonoType, v: Value) {
    match t
    case Float => v.Opaque? && v.ref.StructRef? && SubType(types, v.ref.sym, T_BOXED_FLOAT) && |v.ref.fields| == 1
    case Vector(_) => Refers(types, v, T_PVEC)
    case Dict(_, _) => Refers(types, v, T_PDICT)
    case Function(ps, r) =>
      Refers(types, v, if IsConcrete(t) && (ps, r) in te.sigs then ClosureStructSym(ps, r) else T_CLOSURE)
    case Named(id, args) =>
      if id == CELL then
        Refers(types, v, if te.sigs != {} && |args| == 1 && IsConcrete(args[0]) then CellSym(args[0]) else T_ARRAY)
      else if id == ITERATOR then Refers(types, v, T_ITER_STATE)
      else if id == TASK then Refers(types, v, T_TASK)
      else if id == CHANNEL then Refers(types, v, T_CHANNEL)
      else if IsRecord(te, id) then Refers(types, v, RecordSym(id))
      else v.Opaque? && id !in te.defs
    case _ => v.Opaque?
  }

  /** `v` is a value of type `t`, components aside. */
  predicate OfType(types: map<Sym, StructDef>, te: TypeEnv, t: MonoType, v: Value) {
    match t
    case Int => v.IntV?
    case Bool => v.BoolV?
    case Byte => v.ByteV?
    case String => v.StrV?
    case Never => false
    case TVar(_) => true
    case MetaVar(_) => true
    case Named(id, args) =>
      (match v
       case SumV(id', _, _) =>
         id == id' && (id == OPTION ==> |args| == 1) && (id == RESULT || id == UNFOLD_STEP ==> |args| == 2)
       case StepV(y, s, _, _, _) => id == UNFOLD_STEP && args == [y, s]
       case TupleV(id', items) => id == id' && |items| == |args|
       case _ => id != UNFOLD_STEP && IsOpaque(types, te, t, v))
    case _ => IsOpaque(types, te, t, v)
  }

  /** The type of component `i` of a value of type `t`; `None` when nothing is known about it. */
  function PartType(decl: Fields, t: Option<MonoType>, v: Value, i: nat): (r: Option<MonoType>)
    requires i < |Parts(v)|
  {
    match v
    case TupleV(_, _) => Argument(t, i)
    case StepV(y, s, _, _, _) => Some(if i == 0 then y else s)
    case SumV(id, k, _) =>
      if id == OPTION then Argument(t, 0)
      else if id == RESULT then Argument(t, if k == 0 then 0 else 1)
      else if id == UNFOLD_STEP then Argument(t, i)
      else if i < |decl(id, k)| && decl(id, k)[i] != Void then Some(decl(id, k)[i])
      else None
  }

  /** Type argument `i`. */
  function Argument(t: Option<MonoType>, i: nat): (r: Option<MonoType>) {
    if t.Some? && t.value.Named? && i < |t.value.args| then Some(t.value.args[i]) else None
  }

  /** `v` is a value of type `t`, with components of the types that follow from it; any value if nothing is known. */
  predicate Typed(types: map<Sym, StructDef>, te: TypeEnv, decl: Fields, t: Option<MonoType>, v: Value)
    decreases v
  {
    Shaped(te, decl, v) && (t.Some? ==> OfType(types, te, t.value, v))
    && forall i | 0 <= i < |Parts(v)| :: Typed(types, te, decl, PartType(decl, t, v, i), Parts(v)[i])
  }

  /** A value of a type is a value. */
  lemma {:induction false} TypedWeaken(types: map<Sym, StructDef>, te: TypeEnv, decl: Fields, t: Option<MonoType>,
                                       v: Value)
    requires Typed(types, te, decl, t, v)
    ensures Typed(types, te, decl, None, v)
    decreases v
  {
    forall i | 0 <= i < |Parts(v)|
      ensures Typed(types, te, decl, PartType(decl, None, v, i), Parts(v)[i])
    {
      if PartType(decl, None, v, i) != PartType(decl, t, v, i) {
        TypedWeaken(types, te, decl, PartType(decl, t, v, i), Parts(v)[i]);
      }
    }
  }

  // ----- Patterns -----

  /** The pattern is well typed for the value. */
  predicate Suits(p: Pattern, v: Value) {
    match p
    case Wildcard => true
    case PVar(_) => true
    case LitInt(n) => v.IntV? || (v.ByteV? && 0 <= n < 256)
    case LitBool(_) => v.BoolV?
    case LitStr(_) => v.StrV?
    case PVariant(t, k, fs) =>
      match v
      case TupleV(t', items) => t == t' && |fs| <= |items| && forall i | 0 <= i < |fs| :: Suits(fs[i], items[i])
      case SumV(t', k', args) =>
        t == t' && (k == k' ==> |fs| <= |args| && forall i | 0 <= i < |fs| :: Suits(fs[i], args[i]))
      case StepV(_, _, _, _, _) => t == UNFOLD_STEP
      case _ => false
  }

  /** Tuples and the built-in sums have the types of their components in their own type. */
  predicate SaysParts(v: Value) { v.TupleV? || (v.SumV? && IsBuiltin(v.typeId)) }

  /**
    Under matching tags, a literal stands at a Byte below a user enum, or `tracked` is false: nothing is known about
    the type of the value to begin with.
  */
  predicate UntrackedByte(p: Pattern, v: Value, tracked: bool) {
    match p
    case LitInt(_) => v.ByteV? && !tracked
    case PVariant(t, k, fs) =>
      TagFits(t, k, v)
      && exists i | 0 <= i < |fs| :: i < |Parts(v)| && UntrackedByte(fs[i], Parts(v)[i], tracked && SaysParts(v))
    case _ => false
  }

  /** Every variant pattern in `p` is one of a tuple or of a built-in sum. */
  predicate NoEnums(te: TypeEnv, p: Pattern) {
    p.PVariant? ==>
      (IsRecord(te, p.typeId) || IsBuiltin(p.typeId)) && forall i | 0 <= i < |p.fields| :: NoEnums(te, p.fields[i])
  }

  /** Below tuples and built-in sums, to any depth, no literal is in an untracked position. */
  lemma {:induction false} NoEnumsTracked(types: map<Sym, StructDef>, te: TypeEnv, decl: Fields, t: Option<MonoType>,
                                          p: Pattern, v: Value)
    requires Typed(types, te, decl, t, v) && NoEnums(te, p)
    ensures !UntrackedByte(p, v, true)
    decreases p
  {
    if p.PVariant? && TagFits(p.typeId, p.variant, v) {
      forall i | 0 <= i < |p.fields| && i < |Parts(v)|
        ensures !UntrackedByte(p.fields[i], Parts(v)[i], SaysParts(v))
      {
        NoEnumsTracked(types, te, decl, PartType(decl, t, v, i), p.fields[i], Parts(v)[i]);
      }
    }
  }

  // ----- What the backend tracks -----

  /** What is known of the type of `v` is a concrete type, and right. */
  predicate Knows(types: map<Sym, StructDef>, te: TypeEnv, decl: Fields, expected: Option<MonoType>, v: Value) {
    (expected.Some? ==> IsConcrete(expected.value)) && Typed(types, te, decl, expected, v)
  }

  /** The flow metadata agrees with the type of the value. */
  predicate Hinted(te: TypeEnv, expected: Option<MonoType>, h: Hints, v: Value) {
    if h.iter.Some? then
      h.step.None? && h.sum.None? && te.sigs != {} && v.SumV? && v.typeId == OPTION
      && forall i | 0 <= i < |v.args| :: v.args[i].Opaque?
    else if h.step.Some? then
      h.sum.None? && te.sigs != {} && v.SumV? && v.typeId == UNFOLD_STEP
      && expected == Some(UnfoldStepType(h.step.value.0, h.step.value.1))
    else if h.sum.Some? then
      IsSumCandidate(h.sum.value) && expected == h.sum && v.SumV? && v.typeId == h.sum.value.typeId
    else true
  }

  lemma {:induction false} TruthfulHinted(m: Module, te: TypeEnv, expected: Option<MonoType>, h: Hints, w: Val,
                                          v: Value)
    requires Truthful(m, te, expected, h, w, v) && (h.sum.Some? ==> expected.Some?)
    ensures Hinted(te, expected, h, v)
  {
  }

  /** The backend knows the type of a field below tuples and built-in sums, and does not below user enums. */
  lemma {:induction false} FieldKnown(types: map<Sym, StructDef>, te: TypeEnv, decl: Fields, t: nat, k: nat,
                                      expected: Option<MonoType>, h: Hints, v: Value, i: nat)
    requires Prelude(te, decl) && Knows(types, te, decl, expected, v) && Hinted(te, expected, h, v) && h.iter.None?
    requires TagFits(t, k, v) && i < |Parts(v)|
    ensures var a := AccessFor(te, t, expected, h);
            (a.RecordAccess? <==> v.TupleV?) && FieldHints(a, h) == NO_HINTS
            && FieldExpected(a, expected, k, i)
               == if SaysParts(v) && expected.Some? then PartType(decl, expected, v, i) else None
    ensures SaysParts(v) && expected.Some? ==> PartType(decl, expected, v, i).Some?
    ensures Knows(types, te, decl, FieldExpected(AccessFor(te, t, expected, h), expected, k, i), Parts(v)[i])
  {
    TypedWeaken(types, te, decl, PartType(decl, expected, v, i), Parts(v)[i]);
  }

  /** A pattern that is well typed for a value is what the emitter is entitled to assume. */
  lemma {:induction false} TypedFits(types: map<Sym, StructDef>, te: TypeEnv, decl: Fields, p: Pattern, v: Value,
                                     expected: Option<MonoType>, h: Hints)
    requires Prelude(te, decl) && Knows(types, te, decl, expected, v) && Hinted(te, expected, h, v) && Suits(p, v)
    ensures Fits(te, p, v, expected, h)
    decreases p, 0
  {
    if p.PVariant? && !v.StepV? {
      var PVariant(t, k, fs) := p;
      var a := AccessFor(te, t, expected, h);
      if TagFits(t, k, v) {
        forall i | 0 <= i < |fs|
          ensures Fits(te, fs[i], Parts(v)[i], FieldExpected(a, expected, k, i), FieldHints(a, h))
        {
          FieldFits(types, te, decl, p, v, expected, h, i);
        }
      }
    }
  }

  lemma {:induction false} FieldFits(types: map<Sym, StructDef>, te: TypeEnv, decl: Fields, p: Pattern, v: Value,
                                     expected: Option<MonoType>, h: Hints, i: nat)
    requires Prelude(te, decl) && Knows(types, te, decl, expected, v) && Hinted(te, expected, h, v) && Suits(p, v)
    requires p.PVariant? && TagFits(p.typeId, p.variant, v) && i < |p.fields|
    ensures var a := AccessFor(te, p.typeId, expected, h);
            i < |Parts(v)| && Fits(te, p.fields[i], Parts(v)[i], FieldExpected(a, expected, p.variant, i),
                                   FieldHints(a, h))
    decreases p.fields[i], 1
  {
    if h.iter.None? {
      FieldKnown(types, te, decl, p.typeId, p.variant, expected, h, v, i);
      TypedFits(types, te, decl, p.fields[i], Parts(v)[i],
                FieldExpected(AccessFor(te, p.typeId, expected, h), expected, p.variant, i), NO_HINTS);
    }
  }

  /** A literal reads a Byte as an Int exactly in the untracked positions. */
  lemma {:induction false} ReadsByteIff(types: map<Sym, StructDef>, te: TypeEnv, decl: Fields, p: Pattern, v: Value,
                                        expected: Option<MonoType>, h: Hints)
    requires Prelude(te, decl) && Knows(types, te, decl, expected, v) && Hinted(te, expected, h, v)
    ensures ReadsByteAsInt(te, p, v, expected, h) <==> UntrackedByte(p, v, expected.Some?)
    decreases p, 0
  {
    if p.PVariant? && TagFits(p.typeId, p.variant, v) {
      var PVariant(t, k, fs) := p;
      var a := AccessFor(te, t, expected, h);
      forall i | 0 <= i < |fs| && i < |Parts(v)|
        ensures ReadsByteAsInt(te, fs[i], Parts(v)[i], FieldExpected(a, expected, k, i), FieldHints(a, h))
           <==> UntrackedByte(fs[i], Parts(v)[i], expected.Some? && SaysParts(v))
      {
        FieldReadsByteIff(types, te, decl, p, v, expected, h, i);
      }
    }
  }

  lemma {:induction false} FieldReadsByteIff(types: map<Sym, StructDef>, te: TypeEnv, decl: Fields, p: Pattern,
                                             v: Value, expected: Option<MonoType>, h: Hints, i: nat)
    requires Prelude(te, decl) && Knows(types, te, decl, expected, v) && Hinted(te, expected, h, v)
    requires p.PVariant? && TagFits(p.typeId, p.variant, v) && i < |p.fields| && i < |Parts(v)|
    ensures var a := AccessFor(te, p.typeId, expected, h);
            ReadsByteAsInt(te, p.fields[i], Parts(v)[i], FieldExpected(a, expected, p.variant, i), FieldHints(a, h))
            <==> UntrackedByte(p.fields[i], Parts(v)[i], expected.Some? && SaysParts(v))
    decreases p.fields[i], 1
  {
    if h.iter.None? {
      FieldKnown(types, te, decl, p.typeId, p.variant, expected, h, v, i);
      ReadsByteIff(types, te, decl, p.fields[i], Parts(v)[i],
                   FieldExpected(AccessFor(te, p.typeId, expected, h), expected, p.variant, i), NO_HINTS);
    }
  }
}
