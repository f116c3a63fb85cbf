/**
  A loop-free fragment of the Wasm GC stack machine: the instructions that the match compiler, the sum and iterator
  conversions and the closure trampolines emit.

  Struct and array references are modelled by value: nothing in the fragment writes through a reference or compares
  references, so sharing cannot be observed.
*/
module Wasm {
  import opened Base

  type Sym = string

  datatype HeapType = NamedHeap(sym: Sym) | AnyHeap | I31Heap | FuncHeap | NoneHeap

  datatype ValType = I32 | I64 | F64 | Anyref | I31ref | Funcref | Ref(nullable: bool, heap: HeapType)

  datatype FieldDef = FieldDef(mutable: bool, ty: ValType)

  /** A struct definition without its name. Wasm identifies struct types by exactly this content. */
  datatype StructDef = StructDef(fields: seq<FieldDef>, supertype: Option<Sym>, nonFinal: bool)

  datatype Val =
    | I32Val(n: int)
    | I64Val(n: int)
    | F64Val(x: real)
    | NullRef
    | I31Ref(n: int)
    | StructRef(sym: Sym, fields: seq<Val>)
    | ArrayRef(sym: Sym, elems: seq<Val>)
    | FuncRef(sym: Sym)

  datatype Instr =
    | LocalGet(index: nat)
    | LocalSet(index: nat)
    | I32Const(n: int)
    | I64Const(n: int)
    | F64Const(x: real)
    | I32Eq
    | I32And
    | I32Eqz
    | I64Eq
    | RefNull(heap: HeapType)
    | RefAsNonNull
    | RefI31
    | I31GetS
    | RefCast(nullable: bool, heap: HeapType)
    | RefTest(nullable: bool, heap: HeapType)
    | StructNew(sym: Sym)
    | StructGet(sym: Sym, field: nat)
    | ArrayNewFixed(sym: Sym, count: nat)
    | ArrayGet(sym: Sym)
    | RefFunc(sym: Sym)
    | Call(sym: Sym)
    | CallRef(sym: Sym)
    | Return
    | Unreachable
    | Br(target: string)
    | If(thenBody: seq<Instr>, elseBody: seq<Instr>)

  /** What calling a function does, seen from the caller. */
  datatype CallResult = Returns(value: Val) | ReturnsNothing | CallTraps

  datatype Func = Func(arity: nat, run: seq<Val> -> CallResult)

  /** The linked module: struct definitions by symbol, and the functions that emitted code may call. */
  datatype Module = Module(types: map<Sym, StructDef>, funcs: Sym -> Option<Func>)

  datatype Stack = Empty | Push(top: Val, rest: Stack)

  datatype State = State(stack: Stack, locals: seq<Val>)

  datatype Outcome = Next(st: State) | Jump(target: string, st: State) | Returned(st: State) | Trap

  // ----- Runtime type tests -----

  /**
    Struct types with equal definitions are one type: the binary writer puts every non-recursive definition in a
    recursion group of its own, so only content tells them apart.
  */
  predicate SubType(types: map<Sym, StructDef>, a: Sym, b: Sym) {
    a == b || (a in types && b in types && (types[a] == types[b] || types[a].supertype == Some(b)))
  }

  /** Does the reference `v` belong to the heap type `heap`? */
  predicate RefMatches(types: map<Sym, StructDef>, v: Val, heap: HeapType) {
    match v
    case I31Ref(_) => heap == I31Heap || heap == AnyHeap
    case StructRef(s, _) => heap == AnyHeap || (heap.NamedHeap? && SubType(types, s, heap.sym))
    case ArrayRef(s, _) => heap == AnyHeap || heap == NamedHeap(s)
    case FuncRef(_) => heap == FuncHeap
    case _ => false
  }

  predicate CastSucceeds(types: map<Sym, StructDef>, v: Val, nullable: bool, heap: HeapType) {
    if v == NullRef then nullable else RefMatches(types, v, heap)
  }

  // ----- Integer operations -----

  function BoolInt(b: bool): (n: int) {
    if b then 1 else 0
  }

  function BitAnd(a: nat, b: nat): (r: nat) {
    if a == 0 || b == 0 then 0 else (a % 2) * (b % 2) + 2 * BitAnd(a / 2, b / 2)
  }

  function Wrap32(n: int): (r: int)
    ensures -0x8000_0000 <= r < 0x8000_0000
    ensures -0x8000_0000 <= n < 0x8000_0000 ==> r == n
  {
    (n + 0x8000_0000) % 0x1_0000_0000 - 0x8000_0000
  }

  function And32(a: int, b: int): (r: int) {
    Wrap32(BitAnd(a % 0x1_0000_0000, b % 0x1_0000_0000))
  }

  /** The 31 low bits of an i32, read back as a signed number. */
  function Wrap31(n: int): (r: int)
    ensures -0x4000_0000 <= n < 0x4000_0000 ==> r == n
  {
    (n + 0x4000_0000) % 0x8000_0000 - 0x4000_0000
  }

  // ----- Execution -----

  /** Take `n` operands off the stack, the deepest first. */
  function Pop(s: Stack, n: nat): (r: Option<(seq<Val>, Stack)>)
    decreases n
  {
    if n == 0 then Some(([], s))
    else if s.Empty? then None
    else match Pop(s.rest, n - 1)
      case None => None
      case Some((vs, rest)) => Some((vs + [s.top], rest))
  }

  function Invoke(m: Module, f: Sym, st: State): (o: Outcome) {
    match m.funcs(f)
    case None => Trap
    case Some(fn) =>
      match Pop(st.stack, fn.arity)
      case None => Trap
      case Some((args, rest)) =>
        match fn.run(args)
        case CallTraps => Trap
        case ReturnsNothing => Next(State(rest, st.locals))
        case Returns(v) => Next(State(Push(v, rest), st.locals))
  }

  /** One instruction without a nested body. An ill-typed operand is treated as a trap. */
  function Simple(m: Module, i: Instr, st: State): (o: Outcome) {
    match (i, st.stack)
    case (LocalGet(k), s) => if k < |st.locals| then Next(State(Push(st.locals[k], s), st.locals)) else Trap
    case (LocalSet(k), Push(v, s)) => if k < |st.locals| then Next(State(s, st.locals[k := v])) else Trap
    case (I32Const(n), s) => Next(State(Push(I32Val(n), s), st.locals))
    case (I64Const(n), s) => Next(State(Push(I64Val(n), s), st.locals))
    case (F64Const(x), s) => Next(State(Push(F64Val(x), s), st.locals))
    case (I32Eq, Push(I32Val(b), Push(I32Val(a), s))) => Next(State(Push(I32Val(BoolInt(a == b)), s), st.locals))
    case (I32And, Push(I32Val(b), Push(I32Val(a), s))) => Next(State(Push(I32Val(And32(a, b)), s), st.locals))
    case (I32Eqz, Push(I32Val(a), s)) => Next(State(Push(I32Val(BoolInt(a == 0)), s), st.locals))
    case (I64Eq, Push(I64Val(b), Push(I64Val(a), s))) => Next(State(Push(I32Val(BoolInt(a == b)), s), st.locals))
    case (RefNull(_), s) => Next(State(Push(NullRef, s), st.locals))
    case (RefAsNonNull, Push(v, s)) => if v == NullRef then Trap else Next(st)
    case (RefI31, Push(I32Val(n), s)) => Next(State(Push(I31Ref(Wrap31(n)), s), st.locals))
    case (I31GetS, Push(I31Ref(n), s)) => Next(State(Push(I32Val(n), s), st.locals))
    case (RefCast(nullable, heap), Push(v, s)) => if CastSucceeds(m.types, v, nullable, heap) then Next(st) else Trap
    case (RefTest(nullable, heap), Push(v, s)) =>
      Next(State(Push(I32Val(BoolInt(CastSucceeds(m.types, v, nullable, heap))), s), st.locals))
    case (StructNew(t), s) =>
      if t !in m.types then Trap else
      (match Pop(s, |m.types[t].fields|)
       case None => Trap
       case Some((vs, rest)) => Next(State(Push(StructRef(t, vs), rest), st.locals)))
    case (StructGet(t, k), Push(v, s)) =>
      if v.StructRef? && SubType(m.types, v.sym, t) && k < |v.fields| then
        Next(State(Push(v.fields[k], s), st.locals))
      else Trap
    case (ArrayNewFixed(t, n), s) =>
      (match Pop(s, n)
       case None => Trap
       case Some((vs, rest)) => Next(State(Push(ArrayRef(t, vs), rest), st.locals)))
    case (ArrayGet(t), Push(I32Val(k), Push(v, s))) =>
      if v.ArrayRef? && v.sym == t && 0 <= k < |v.elems| then Next(State(Push(v.elems[k], s), st.locals)) else Trap
    case (RefFunc(f), s) => Next(State(Push(FuncRef(f), s), st.locals))
    case (Call(f), s) => Invoke(m, f, st)
    case (CallRef(_), Push(FuncRef(f), s)) => Invoke(m, f, State(s, st.locals))
    case (Return, s) => Returned(st)
    case (Br(l), s) => Jump(l, st)
    case _ => Trap
  }

  function Step(m: Module, i: Instr, st: State): (o: Outcome)
    decreases i, 0
  {
    if i.If? then
      if st.stack.Push? && st.stack.top.I32Val? then
        Exec(m, if st.stack.top.n != 0 then i.thenBody else i.elseBody, State(st.stack.rest, st.locals))
      else Trap
    else Simple(m, i, st)
  }

  function Exec(m: Module, code: seq<Instr>, st: State): (o: Outcome)
    decreases code, 1
  {
    if code == [] then Next(st) else AndThen(m, Step(m, code[0], st), code[1..])
  }

  /** Continue with `code` when the preceding code fell through. */
  function AndThen(m: Module, o: Outcome, code: seq<Instr>): (r: Outcome)
    decreases code, 2
  {
    if o.Next? then Exec(m, code, o.st) else o
  }

  lemma {:induction false} ExecConcat(m: Module, a: seq<Instr>, b: seq<Instr>, st: State)
    ensures Exec(m, a + b, st) == AndThen(m, Exec(m, a, st), b)
  {
    if a == [] {
      assert a + b == b;
    } else {
      assert (a + b)[1..] == a[1..] + b;
      var o := Step(m, a[0], st);
      if o.Next? {
        ExecConcat(m, a[1..], b, o.st);
      }
    }
  }
}
