/** Boxing and unboxing between a concrete value type and `anyref`, as `emit_coerce_stack` emits them. */
module Coercions {
  import opened Wasm
  import opened Mono
  import opened CodeCalculus

  function BoxCode(t: ValType): (code: seq<Instr>) {
    match t
    case I64 => [StructNew(T_BOXED_INT)]
    case F64 => [StructNew(T_BOXED_FLOAT)]
    case I32 => [RefI31]
    case _ => []
  }

  /** The targets `emit_unbox_on_stack` supports; it panics on the others. */
  predicate CanUnbox(t: ValType) { t != I31ref && t != Funcref }

  function UnboxCode(t: ValType): (code: seq<Instr>)
    requires CanUnbox(t)
  {
    match t
    case I64 => [RefCast(false, NamedHeap(T_BOXED_INT)), StructGet(T_BOXED_INT, 0)]
    case F64 => [RefCast(false, NamedHeap(T_BOXED_FLOAT)), StructGet(T_BOXED_FLOAT, 0)]
    case I32 => [RefCast(false, I31Heap), I31GetS]
    case Ref(nullable, heap) => [RefCast(nullable, heap)]
    case Anyref => []
  }

  /** `emit_coerce_stack(from, Anyref)`. */
  function ToAnyCode(from: ValType): (code: seq<Instr>) {
    if from == Anyref then [] else BoxCode(from)
  }

  /** `emit_coerce_stack(Anyref, to)`. */
  function FromAnyCode(to: ValType): (code: seq<Instr>)
    requires CanUnbox(to)
  {
    if to == Anyref then [] else UnboxCode(to)
  }

  /** The reference-to-reference case of `emit_coerce_stack`. */
  function RefCoerceCode(from: ValType, to: ValType): (code: seq<Instr>)
    requires from.Ref? && to.Ref?
  {
    if from == to then []
    else if from.heap == to.heap then if from.nullable then [RefAsNonNull] else []
    else [RefCast(to.nullable, to.heap)]
  }

  predicate IsReference(v: Val) { !v.I32Val? && !v.I64Val? && !v.F64Val? }

  /** `v` is a value that a slot of type `t` can hold; an i32 slot holds a Bool, Byte or Void here. */
  predicate HasType(types: map<Sym, StructDef>, v: Val, t: ValType) {
    match t
    case I64 => v.I64Val?
    case F64 => v.F64Val?
    case I32 => v.I32Val? && -0x4000_0000 <= v.n < 0x4000_0000
    case Anyref => IsReference(v)
    case I31ref => v.I31Ref?
    case Funcref => v.FuncRef? || v == NullRef
    case Ref(nullable, heap) => CastSucceeds(types, v, nullable, heap)
  }

  /** Coercing a reference keeps it if it is of the target type, and traps if it is not. */
  lemma {:induction false} RefCoerces(m: Module, from: ValType, to: ValType, v: Val)
    requires from.Ref? && to.Ref? && HasType(m.types, v, from)
    ensures HasType(m.types, v, to) ==> Maps(m, RefCoerceCode(from, to), v, v)
    ensures !HasType(m.types, v, to) ==>
              forall s: Stack, ls: seq<Val> :: Exec(m, RefCoerceCode(from, to), State(Push(v, s), ls)) == Trap
  {
    forall s: Stack, ls: seq<Val>
      ensures Exec(m, RefCoerceCode(from, to), State(Push(v, s), ls))
           == if HasType(m.types, v, to) then Next(State(Push(v, s), ls)) else Trap
    {
      if RefCoerceCode(from, to) != [] {
        ExecOne(m, RefCoerceCode(from, to)[0], State(Push(v, s), ls));
      }
    }
  }

  /** The `anyref` form of a typed value. */
  function Box(t: ValType, v: Val): (w: Val) {
    match t
    case I64 => StructRef(T_BOXED_INT, [v])
    case F64 => StructRef(T_BOXED_FLOAT, [v])
    case I32 => if v.I32Val? then I31Ref(Wrap31(v.n)) else v
    case _ => v
  }

  lemma {:induction false} BoxCodeBoxes(m: Module, t: ValType, v: Val)
    requires RuntimeTypes(m.types) && HasType(m.types, v, t)
    ensures Maps(m, ToAnyCode(t), v, Box(t, v))
  {
    match t
    case I64 => MapsNew1(m, T_BOXED_INT, v);
    case F64 => MapsNew1(m, T_BOXED_FLOAT, v);
    case I32 => MapsI31New(m, v.n);
    case _ => MapsNil(m, v);
  }

  /** Unboxing takes back exactly the value that was boxed. */
  lemma {:induction false} UnboxCodeUnboxes(m: Module, t: ValType, v: Val)
    requires RuntimeTypes(m.types) && CanUnbox(t) && HasType(m.types, v, t)
    ensures Maps(m, FromAnyCode(t), Box(t, v), v)
  {
    match t
    case I64 =>
      MapsCast(m, false, NamedHeap(T_BOXED_INT), Box(t, v));
      MapsGet(m, T_BOXED_INT, 0, Box(t, v));
      MapsConcat(m, [RefCast(false, NamedHeap(T_BOXED_INT))], [StructGet(T_BOXED_INT, 0)], Box(t, v), Box(t, v), v);
      assert FromAnyCode(t) == [RefCast(false, NamedHeap(T_BOXED_INT))] + [StructGet(T_BOXED_INT, 0)];
    case F64 =>
      MapsCast(m, false, NamedHeap(T_BOXED_FLOAT), Box(t, v));
      MapsGet(m, T_BOXED_FLOAT, 0, Box(t, v));
      MapsConcat(m, [RefCast(false, NamedHeap(T_BOXED_FLOAT))], [StructGet(T_BOXED_FLOAT, 0)], Box(t, v), Box(t, v), v);
      assert FromAnyCode(t) == [RefCast(false, NamedHeap(T_BOXED_FLOAT))] + [StructGet(T_BOXED_FLOAT, 0)];
    case I32 =>
      MapsCast(m, false, I31Heap, Box(t, v));
      MapsI31Get(m, v.n);
      MapsConcat(m, [RefCast(false, I31Heap)], [I31GetS], Box(t, v), Box(t, v), v);
      assert FromAnyCode(t) == [RefCast(false, I31Heap)] + [I31GetS];
    case Ref(nullable, heap) =>
      MapsCast(m, nullable, heap, v);
    case Anyref =>
      MapsNil(m, v);
  }
}
