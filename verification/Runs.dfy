/** What an expression does, what emitted code does, and that the second is the first. */
module Runs {
  import opened Base
  import W = Wasm
  import opened Anf
  import opened Values
  import opened Skeletons
  import Match

  type Locals = map<nat, Value>

  /** An operation that was performed, and the locals it was performed with. */
  datatype Event = Event(op: Op, locals: Locals)

  type History = seq<Event>

  /**
    What the model leaves open: the values of constants, the result of an operation after all the operations performed
    so far (`None` is a trap), whether a pattern matches and what it binds, the type of every slot, and the values for
    Void and for a bare `break` in a slot of a given type.
  */
  datatype Meaning = Meaning(
    constant: Atom -> Value,
    result: (Op, Locals, History) -> Option<Value>,
    test: (Match.Pattern, Value) -> Option<bool>,
    bind: (Match.Pattern, Value, Locals) -> Option<Locals>,
    unit: W.ValType -> Value,
    placeholder: W.ValType -> Value)

  function AtomValue(m: Meaning, a: Atom, locals: Locals): (v: Value) {
    if a.ALocal? && a.id in locals then locals[a.id] else m.constant(a)
  }

  predicate IsTrue(v: Value) { v == BoolV(true) }

  // ----- The source -----

  /** How an expression ends: with a value, with a jump of the innermost loop, or for good. */
  datatype Outcome =
    | Yields(v: Value, locals: Locals, history: History)
    | Breaks(v: Value, locals: Locals, history: History)
    | Continues(locals: Locals, history: History)
    | Returns(vs: seq<Value>, history: History)
    | Traps(history: History)
    | Unfinished(history: History)

  /** The slots of the locals, and of the result of the innermost loop. */
  datatype Slots = Slots(types: nat -> W.ValType, loop: Option<W.ValType>)

  /** Run an expression, with at most `n` further iterations of any one loop. */
  function Run(m: Meaning, slots: Slots, e: Expr, locals: Locals, h: History, n: nat): (r: Outcome)
    decreases n, e, 0
  {
    match e
    case Let(local, op, body) =>
      var r := RunOp(m, slots, local, op, locals, h, n);
      if r.Yields? then Run(m, slots, body, r.locals[local := r.v], r.history, n) else r
    case Return(result) => Returns(if result.Some? then [AtomValue(m, result.value, locals)] else [], h)
    case Break(result) => Breaks(BreakValue(m, slots, result, locals), locals, h)
    case Continue => Continues(locals, h)
    case AtomExpr(a) => Yields(AtomValue(m, a, locals), locals, h)
  }

  function BreakValue(m: Meaning, slots: Slots, result: Option<Atom>, locals: Locals): (v: Value) {
    if result.Some? then AtomValue(m, result.value, locals)
    else if slots.loop.Some? then m.placeholder(slots.loop.value)
    else m.constant(ALitVoid)
  }

  function RunOp(m: Meaning, slots: Slots, local: nat, op: Op, locals: Locals, h: History, n: nat): (r: Outcome)
    decreases n, op, 0
  {
    match op
    case AInit(a) => Yields(AtomValue(m, a, locals), locals, h)
    case AAssign(target, a) => Yields(m.unit(slots.types(local)), locals[target := AtomValue(m, a, locals)], h)
    case AIf(c, t, e) =>
      if IsTrue(AtomValue(m, c, locals)) then Run(m, slots, t, locals, h, n) else Run(m, slots, e, locals, h, n)
    case AMatch(scrutinee, arms) => RunArms(m, slots, AtomValue(m, scrutinee, locals), arms, locals, h, n)
    case ALoop(body) => RunLoop(m, slots.(loop := Some(slots.types(local))), body, locals, h, n)
    case ADefer(_) => Traps(h)
    case _ => Perform(m, op, locals, h)
  }

  function Perform(m: Meaning, op: Op, locals: Locals, h: History): (r: Outcome) {
    var v := m.result(op, locals, h);
    if v.Some? then Yields(v.value, locals, h + [Event(op, locals)]) else Traps(h + [Event(op, locals)])
  }

  /** The first arm whose pattern matches. */
  function RunArms(m: Meaning, slots: Slots, v: Value, arms: seq<Arm>, locals: Locals, h: History, n: nat)
    : (r: Outcome)
    decreases n, arms, 0
  {
    if arms == [] then Traps(h)
    else
      var matches := m.test(arms[0].pattern, v);
      if matches.None? then Traps(h)
      else if matches.value then RunArm(m, slots, v, arms[0], locals, h, n)
      else RunArms(m, slots, v, arms[1..], locals, h, n)
  }

  function RunArm(m: Meaning, slots: Slots, v: Value, arm: Arm, locals: Locals, h: History, n: nat): (r: Outcome)
    decreases n, arm, 0
  {
    var bound := m.bind(arm.pattern, v, locals);
    if bound.Some? then Run(m, slots, arm.body, bound.value, h, n) else Traps(h)
  }

  /** Iterate until something other than the end of the body or `continue` happens. */
  function RunLoop(m: Meaning, slots: Slots, body: Expr, locals: Locals, h: History, n: nat): (r: Outcome)
    ensures !r.Breaks? && !r.Continues?
    decreases n, body, 1
  {
    var r := Run(m, slots, body, locals, h, n);
    if r.Breaks? then Yields(r.v, r.locals, r.history)
    else if !r.Yields? && !r.Continues? then r
    else if n == 0 then Unfinished(r.history)
    else RunLoop(m, slots, body, r.locals, r.history, n - 1)
  }

  // ----- The code -----

  /** How control leaves a piece of code: at its end, by a branch, from the function, by a trap, or not in time. */
  datatype Exit =
    | Fell(stack: seq<Value>, locals: Locals, history: History)
    | Jumped(target: Label, args: seq<Value>, locals: Locals, history: History)
    | Ended(results: seq<Value>, history: History)
    | Trapped(history: History)
    | Cut(history: History)

  function Exec(m: Meaning, code: seq<Code>, stack: seq<Value>, locals: Locals, h: History, n: nat): (r: Exit)
    decreases n, code, 1
  {
    if code == [] then Fell(stack, locals, h)
    else
      var r := ExecOne(m, code[0], stack, locals, h, n);
      if r.Fell? then Exec(m, code[1..], r.stack, r.locals, r.history, n) else r
  }

  /** Blocks, loops and branches of a conditional start with an empty stack of their own. */
  function ExecOne(m: Meaning, c: Code, stack: seq<Value>, locals: Locals, h: History, n: nat): (r: Exit)
    decreases n, c, 0
  {
    match c
    case Push(a) => Fell(stack + [AtomValue(m, a, locals)], locals, h)
    case Unit(ty) => Fell(stack + [m.unit(ty)], locals, h)
    case Placeholder(ty) => Fell(stack + [m.placeholder(ty)], locals, h)
    case Do(op) =>
      var r := Perform(m, op, locals, h);
      if r.Yields? then Fell(stack + [r.v], locals, r.history) else Trapped(r.history)
    case Set(local) =>
      if stack == [] then Trapped(h) else Fell(stack[..|stack| - 1], locals[local := Top(stack)], h)
    case Drop => if stack == [] then Trapped(h) else Fell(stack[..|stack| - 1], locals, h)
    case Test(scrutinee, p) =>
      var matches := m.test(p, AtomValue(m, scrutinee, locals));
      if matches.None? then Trapped(h) else Fell(stack + [BoolV(matches.value)], locals, h)
    case Bind(scrutinee, p) =>
      var bound := m.bind(p, AtomValue(m, scrutinee, locals), locals);
      if bound.None? then Trapped(h) else Fell(stack, bound.value, h)
    case Ret => Ended(stack, h)
    case TailCall(op) =>
      var r := Perform(m, op, locals, h);
      if r.Yields? then Ended([r.v], r.history) else Trapped(r.history)
    case Halt => Trapped(h)
    case Br(target) => Jumped(target, if target.BreakLabel? && stack != [] then [Top(stack)] else [], locals, h)
    case Block(name, body) =>
      var r := Exec(m, body, [], locals, h, n);
      if r.Fell? then r.(stack := stack + r.stack)
      else if r.Jumped? && r.target == name then Fell(stack + r.args, r.locals, r.history)
      else r
    case Loop(name, body) =>
      var r := Exec(m, body, [], locals, h, n);
      if r.Fell? then r.(stack := stack + r.stack)
      else if r.Jumped? && r.target == name then
        if n == 0 then Cut(r.history) else ExecOne(m, c, stack, r.locals, r.history, n - 1)
      else r
    case IfElse(t, e) =>
      if stack == [] then Trapped(h)
      else
        var r := if IsTrue(Top(stack)) then Exec(m, t, [], locals, h, n) else Exec(m, e, [], locals, h, n);
        if r.Fell? then r.(stack := stack[..|stack| - 1] + r.stack) else r
  }

  function Top(stack: seq<Value>): (v: Value)
    requires stack != []
  {
    stack[|stack| - 1]
  }

  // ----- Code that does what the source does -----

  /** What becomes of the value of an expression: it stays on the stack, is dropped, or is returned. */
  datatype Use = Kept | Dropped | Returned

  /** The exit of code for an expression, under the labels of the enclosing loops. */
  function Expected(use: Use, labels: LabelStack, o: Outcome): (r: Exit) {
    match o
    case Yields(v, locals, h) =>
      (match use
       case Kept => Fell([v], locals, h)
       case Dropped => Fell([], locals, h)
       case Returned => Ended([v], h))
    case Breaks(v, locals, h) =>
      if labels == [] then Trapped(h) else Jumped(labels[|labels| - 1].0, [v], locals, h)
    case Continues(locals, h) =>
      if labels == [] then Trapped(h) else Jumped(labels[|labels| - 1].1, [], locals, h)
    case Returns(vs, h) => Ended(vs, h)
    case Traps(h) => Trapped(h)
    case Unfinished(h) => Cut(h)
  }

  /** The exit of code for an operation whose value is stored in a local. */
  function Stored(labels: LabelStack, local: nat, o: Outcome): (r: Exit) {
    if o.Yields? then Fell([], o.locals[local := o.v], o.history) else Expected(Kept, labels, o)
  }

  /** At the end of a function without result, a tail call ends it where the source falls off its end. */
  predicate Agree(atEnd: bool, actual: Exit, expected: Exit) {
    actual == expected
    || (atEnd && expected.Fell? && expected.stack == [] && actual.Ended? && actual.history == expected.history)
  }

  /** From whatever state, the code does what the expression does. */
  ghost predicate Implements(code: seq<Code>, use: Use, atEnd: bool, labels: LabelStack, slots: Slots, e: Expr) {
    forall m: Meaning, locals, h: History, n: nat {:trigger Exec(m, code, [], locals, h, n)} ::
      Agree(atEnd, Exec(m, code, [], locals, h, n), Expected(use, labels, Run(m, slots, e, locals, h, n)))
  }

  /** The code leaves the value of the operation on the stack. */
  ghost predicate Computes(code: seq<Code>, labels: LabelStack, slots: Slots, local: nat, op: Op) {
    forall m: Meaning, locals, h: History, n: nat {:trigger Exec(m, code, [], locals, h, n)} ::
      Exec(m, code, [], locals, h, n) == Expected(Kept, labels, RunOp(m, slots, local, op, locals, h, n))
  }

  /** The code stores the value of the operation in the local. */
  ghost predicate Binds(code: seq<Code>, labels: LabelStack, slots: Slots, local: nat, op: Op) {
    forall m: Meaning, locals, h: History, n: nat {:trigger Exec(m, code, [], locals, h, n)} ::
      Exec(m, code, [], locals, h, n) == Stored(labels, local, RunOp(m, slots, local, op, locals, h, n))
  }

  /** The code tries the arms in order. */
  ghost predicate Chains(code: seq<Code>, labels: LabelStack, slots: Slots, scrutinee: Atom, arms: seq<Arm>) {
    forall m: Meaning, locals, h: History, n: nat {:trigger Exec(m, code, [], locals, h, n)} ::
      Exec(m, code, [], locals, h, n)
      == Expected(Kept, labels, RunArms(m, slots, AtomValue(m, scrutinee, locals), arms, locals, h, n))
  }

  /** The code binds the variables of the arm and runs its body. */
  ghost predicate Enters(code: seq<Code>, labels: LabelStack, slots: Slots, scrutinee: Atom, arm: Arm) {
    forall m: Meaning, locals, h: History, n: nat {:trigger Exec(m, code, [], locals, h, n)} ::
      Exec(m, code, [], locals, h, n)
      == Expected(Kept, labels, RunArm(m, slots, AtomValue(m, scrutinee, locals), arm, locals, h, n))
  }

  // ----- Pieces of code -----

  lemma {:induction false} ExecAppend(m: Meaning, a: seq<Code>, b: seq<Code>, stack: seq<Value>, locals: Locals,
                                      h: History, n: nat)
    ensures var r := Exec(m, a, stack, locals, h, n);
            Exec(m, a + b, stack, locals, h, n)
            == (if r.Fell? then Exec(m, b, r.stack, r.locals, r.history, n) else r)
    decreases a
  {
    if a == [] {
      assert a + b == b;
    } else {
      assert (a + b)[0] == a[0] && (a + b)[1..] == a[1..] + b;
      var r := ExecOne(m, a[0], stack, locals, h, n);
      if r.Fell? {
        ExecAppend(m, a[1..], b, r.stack, r.locals, r.history, n);
      }
    }
  }

  lemma {:induction false} ExecSingle(m: Meaning, c: Code, stack: seq<Value>, locals: Locals, h: History, n: nat)
    ensures Exec(m, [c], stack, locals, h, n) == ExecOne(m, c, stack, locals, h, n)
  {
    assert [c][1..] == [];
  }

  lemma {:induction false} ExecCons(m: Meaning, c: Code, rest: seq<Code>, stack: seq<Value>, locals: Locals,
                                    h: History, n: nat)
    ensures var r := ExecOne(m, c, stack, locals, h, n);
            Exec(m, [c] + rest, stack, locals, h, n)
            == (if r.Fell? then Exec(m, rest, r.stack, r.locals, r.history, n) else r)
  {
    assert ([c] + rest)[1..] == rest;
  }

  /** One instruction, then a second one. */
  lemma {:induction false} ExecPair(m: Meaning, c: Code, d: Code, stack: seq<Value>, locals: Locals, h: History,
                                    n: nat)
    ensures var r := ExecOne(m, c, stack, locals, h, n);
            Exec(m, [c, d], stack, locals, h, n)
            == (if r.Fell? then ExecOne(m, d, r.stack, r.locals, r.history, n) else r)
  {
    assert [c, d] == [c] + [d];
    ExecCons(m, c, [d], stack, locals, h, n);
    var r := ExecOne(m, c, stack, locals, h, n);
    if r.Fell? {
      ExecSingle(m, d, r.stack, r.locals, r.history, n);
    }
  }

  // ----- Simple expressions -----

  lemma {:induction false} PushRuns(m: Meaning, a: Atom, locals: Locals, h: History, n: nat)
    ensures Exec(m, [Push(a)], [], locals, h, n) == Fell([AtomValue(m, a, locals)], locals, h)
  {
    ExecSingle(m, Push(a), [], locals, h, n);
  }

  lemma {:induction false} DropRuns(m: Meaning, a: Atom, locals: Locals, h: History, n: nat)
    ensures Exec(m, [Push(a), Drop], [], locals, h, n) == Fell([], locals, h)
  {
    ExecPair(m, Push(a), Drop, [], locals, h, n);
  }

  lemma {:induction false} RetRuns(m: Meaning, a: Atom, locals: Locals, h: History, n: nat)
    ensures Exec(m, [Push(a), Ret], [], locals, h, n) == Ended([AtomValue(m, a, locals)], h)
  {
    ExecPair(m, Push(a), Ret, [], locals, h, n);
  }

  /** An atom, by what becomes of its value. */
  lemma {:induction false} AtomCode(a: Atom, atEnd: bool, labels: LabelStack, slots: Slots)
    ensures Implements([Push(a)], Kept, atEnd, labels, slots, AtomExpr(a))
    ensures Implements([Push(a), Drop], Dropped, atEnd, labels, slots, AtomExpr(a))
    ensures Implements([Push(a), Ret], Returned, atEnd, labels, slots, AtomExpr(a))
  {
    forall m: Meaning, locals, h: History, n: nat
      ensures Exec(m, [Push(a)], [], locals, h, n) == Expected(Kept, labels, Run(m, slots, AtomExpr(a), locals, h, n))
    {
      PushRuns(m, a, locals, h, n);
    }
    forall m: Meaning, locals, h: History, n: nat
      ensures Exec(m, [Push(a), Drop], [], locals, h, n)
              == Expected(Dropped, labels, Run(m, slots, AtomExpr(a), locals, h, n))
    {
      DropRuns(m, a, locals, h, n);
    }
    forall m: Meaning, locals, h: History, n: nat
      ensures Exec(m, [Push(a), Ret], [], locals, h, n)
              == Expected(Returned, labels, Run(m, slots, AtomExpr(a), locals, h, n))
    {
      RetRuns(m, a, locals, h, n);
    }
  }

  lemma {:induction false} ReturnCode(result: Option<Atom>, use: Use, atEnd: bool, labels: LabelStack, slots: Slots)
    ensures Implements(if result.Some? then [Push(result.value), Ret] else [Ret], use, atEnd, labels, slots,
                       Expr.Return(result))
  {
    forall m: Meaning, locals, h: History, n: nat
      ensures Exec(m, if result.Some? then [Push(result.value), Ret] else [Ret], [], locals, h, n)
              == Expected(use, labels, Run(m, slots, Expr.Return(result), locals, h, n))
    {
      if result.Some? {
        RetRuns(m, result.value, locals, h, n);
      } else {
        ExecSingle(m, Ret, [], locals, h, n);
      }
    }
  }

  lemma {:induction false} BreakCode(result: Option<Atom>, use: Use, atEnd: bool, labels: LabelStack, slots: Slots)
    requires labels != [] && labels[|labels| - 1].0.BreakLabel? && slots.loop.Some?
    ensures Implements([if result.Some? then Push(result.value) else Placeholder(slots.loop.value),
                        Br(labels[|labels| - 1].0)], use, atEnd, labels, slots, Break(result))
  {
    var push := if result.Some? then Push(result.value) else Placeholder(slots.loop.value);
    forall m: Meaning, locals, h: History, n: nat
      ensures Exec(m, [push, Br(labels[|labels| - 1].0)], [], locals, h, n)
              == Expected(use, labels, Run(m, slots, Break(result), locals, h, n))
    {
      ExecPair(m, push, Br(labels[|labels| - 1].0), [], locals, h, n);
    }
  }

  lemma {:induction false} ContinueCode(use: Use, atEnd: bool, labels: LabelStack, slots: Slots)
    requires labels != [] && labels[|labels| - 1].1.ContLabel?
    ensures Implements([Br(labels[|labels| - 1].1)], use, atEnd, labels, slots, Continue)
  {
    forall m: Meaning, locals, h: History, n: nat
      ensures Exec(m, [Br(labels[|labels| - 1].1)], [], locals, h, n)
              == Expected(use, labels, Run(m, slots, Continue, locals, h, n))
    {
      ExecSingle(m, Br(labels[|labels| - 1].1), [], locals, h, n);
    }
  }

  /** The expression gives back the local, by whatever way. */
  predicate ReturnsLocal(e: Expr, local: nat) {
    e == Expr.Return(Some(ALocal(local))) || e == AtomExpr(ALocal(local))
  }

  /** At the end of a function, a tail call stands for the call and the return of its result. */
  lemma {:induction false} TailCallCode(local: nat, op: Op, body: Expr, use: Use, labels: LabelStack, slots: Slots)
    requires op.ACall? && ReturnsLocal(body, local) && !use.Kept?
    ensures Implements([TailCall(op)], use, true, labels, slots, Let(local, op, body))
  {
    forall m: Meaning, locals, h: History, n: nat
      ensures Agree(true, Exec(m, [TailCall(op)], [], locals, h, n),
                    Expected(use, labels, Run(m, slots, Let(local, op, body), locals, h, n)))
    {
      ExecSingle(m, TailCall(op), [], locals, h, n);
      var r := Perform(m, op, locals, h);
      assert RunOp(m, slots, local, op, locals, h, n) == r;
    }
  }

  // ----- Let -----

  lemma {:induction false} LetCode(a: seq<Code>, b: seq<Code>, local: nat, op: Op, body: Expr, use: Use, atEnd: bool,
                                   labels: LabelStack, slots: Slots)
    requires Binds(a, labels, slots, local, op) && Implements(b, use, atEnd, labels, slots, body)
    ensures Implements(a + b, use, atEnd, labels, slots, Let(local, op, body))
  {
    forall m: Meaning, locals, h: History, n: nat
      ensures Agree(atEnd, Exec(m, a + b, [], locals, h, n),
                    Expected(use, labels, Run(m, slots, Let(local, op, body), locals, h, n)))
    {
      ExecAppend(m, a, b, [], locals, h, n);
      var r := RunOp(m, slots, local, op, locals, h, n);
      assert Exec(m, a, [], locals, h, n) == Stored(labels, local, r);
    }
  }

  /** The value on the stack is stored. */
  lemma {:induction false} StoreCode(code: seq<Code>, local: nat, op: Op, labels: LabelStack, slots: Slots)
    requires Computes(code, labels, slots, local, op)
    ensures Binds(code + [Set(local)], labels, slots, local, op)
  {
    forall m: Meaning, locals, h: History, n: nat
      ensures Exec(m, code + [Set(local)], [], locals, h, n)
              == Stored(labels, local, RunOp(m, slots, local, op, locals, h, n))
    {
      ExecAppend(m, code, [Set(local)], [], locals, h, n);
      var r := Exec(m, code, [], locals, h, n);
      if r.Fell? {
        ExecSingle(m, Set(local), r.stack, r.locals, r.history, n);
      }
    }
  }

  lemma {:induction false} InitCode(local: nat, value: Atom, labels: LabelStack, slots: Slots)
    ensures Binds([Push(value), Set(local)], labels, slots, local, AInit(value))
  {
    forall m: Meaning, locals, h: History, n: nat
      ensures Exec(m, [Push(value), Set(local)], [], locals, h, n)
              == Stored(labels, local, RunOp(m, slots, local, AInit(value), locals, h, n))
    {
      StoreAtom(m, value, local, locals, h, n);
    }
  }

  lemma {:induction false} AssignCode(local: nat, target: nat, value: Atom, labels: LabelStack, slots: Slots)
    ensures Binds([Push(value), Set(target)] + [Unit(slots.types(local)), Set(local)], labels, slots, local,
                  AAssign(target, value))
  {
    var store, unit := [Push(value), Set(target)], [Unit(slots.types(local)), Set(local)];
    forall m: Meaning, locals, h: History, n: nat
      ensures Exec(m, store + unit, [], locals, h, n)
              == Stored(labels, local, RunOp(m, slots, local, AAssign(target, value), locals, h, n))
    {
      var next := locals[target := AtomValue(m, value, locals)];
      ExecAppend(m, store, unit, [], locals, h, n);
      StoreAtom(m, value, target, locals, h, n);
      StoreUnit(m, slots.types(local), local, next, h, n);
    }
  }

  lemma {:induction false} StoreAtom(m: Meaning, value: Atom, target: nat, locals: Locals, h: History, n: nat)
    ensures Exec(m, [Push(value), Set(target)], [], locals, h, n)
         == Fell([], locals[target := AtomValue(m, value, locals)], h)
  {
    ExecPair(m, Push(value), Set(target), [], locals, h, n);
  }

  lemma {:induction false} StoreUnit(m: Meaning, ty: W.ValType, local: nat, locals: Locals, h: History, n: nat)
    ensures Exec(m, [Unit(ty), Set(local)], [], locals, h, n) == Fell([], locals[local := m.unit(ty)], h)
  {
    ExecPair(m, Unit(ty), Set(local), [], locals, h, n);
  }

  /** Operations without nested expressions that leave one value. */
  predicate IsPlain(op: Op) { op.ACall? || op.AMakeClosure? || op.Leaf? }

  lemma {:induction false} PlainCode(local: nat, op: Op, labels: LabelStack, slots: Slots)
    requires IsPlain(op)
    ensures Binds([Do(op), Set(local)], labels, slots, local, op)
  {
    forall m: Meaning, locals, h: History, n: nat
      ensures Exec(m, [Do(op), Set(local)], [], locals, h, n)
              == Stored(labels, local, RunOp(m, slots, local, op, locals, h, n))
    {
      ExecPair(m, Do(op), Set(local), [], locals, h, n);
      assert RunOp(m, slots, local, op, locals, h, n) == Perform(m, op, locals, h);
    }
  }

  // ----- Conditionals and matches -----

  lemma {:induction false} IfCode(t: seq<Code>, e: seq<Code>, local: nat, op: Op, labels: LabelStack, slots: Slots)
    requires op.AIf?
    requires Implements(t, Kept, false, labels, slots, op.thenBranch)
    requires Implements(e, Kept, false, labels, slots, op.elseBranch)
    ensures Computes([Push(op.cond), IfElse(t, e)], labels, slots, local, op)
  {
    forall m: Meaning, locals, h: History, n: nat
      ensures Exec(m, [Push(op.cond), IfElse(t, e)], [], locals, h, n)
              == Expected(Kept, labels, RunOp(m, slots, local, op, locals, h, n))
    {
      var v := AtomValue(m, op.cond, locals);
      ExecPair(m, Push(op.cond), IfElse(t, e), [], locals, h, n);
      assert ExecOne(m, Push(op.cond), [], locals, h, n) == Fell([v], locals, h);
      BranchRuns(m, v, t, e, locals, h, n);
      assert Agree(false, Exec(m, t, [], locals, h, n),
                   Expected(Kept, labels, Run(m, slots, op.thenBranch, locals, h, n)));
      assert Agree(false, Exec(m, e, [], locals, h, n),
                   Expected(Kept, labels, Run(m, slots, op.elseBranch, locals, h, n)));
    }
  }

  lemma {:induction false} FallbackCode(scrutinee: Atom, labels: LabelStack, slots: Slots)
    ensures Chains([Halt, Halt], labels, slots, scrutinee, [])
  {
    forall m: Meaning, locals, h: History, n: nat
      ensures Exec(m, [Halt, Halt], [], locals, h, n) == Trapped(h)
    {
      ExecPair(m, Halt, Halt, [], locals, h, n);
    }
  }

  lemma {:induction false} ArmCode(code: seq<Code>, scrutinee: Atom, arm: Arm, labels: LabelStack, slots: Slots)
    requires Implements(code, Kept, false, labels, slots, arm.body)
    ensures Enters([Bind(scrutinee, arm.pattern)] + code, labels, slots, scrutinee, arm)
  {
    forall m: Meaning, locals, h: History, n: nat
      ensures Exec(m, [Bind(scrutinee, arm.pattern)] + code, [], locals, h, n)
              == Expected(Kept, labels, RunArm(m, slots, AtomValue(m, scrutinee, locals), arm, locals, h, n))
    {
      ExecCons(m, Bind(scrutinee, arm.pattern), code, [], locals, h, n);
      var bound := m.bind(arm.pattern, AtomValue(m, scrutinee, locals), locals);
      if bound.Some? {
        assert Agree(false, Exec(m, code, [], bound.value, h, n),
                     Expected(Kept, labels, Run(m, slots, arm.body, bound.value, h, n)));
      }
    }
  }

  lemma {:induction false} ChainCode(head: seq<Code>, others: seq<Code>, scrutinee: Atom, arms: seq<Arm>,
                                     labels: LabelStack, slots: Slots)
    requires arms != [] && Enters(head, labels, slots, scrutinee, arms[0])
    requires Chains(others, labels, slots, scrutinee, arms[1..])
    ensures Chains([Test(scrutinee, arms[0].pattern), IfElse(head, others)], labels, slots, scrutinee, arms)
  {
    var test := Test(scrutinee, arms[0].pattern);
    forall m: Meaning, locals, h: History, n: nat
      ensures Exec(m, [test, IfElse(head, others)], [], locals, h, n)
              == Expected(Kept, labels, RunArms(m, slots, AtomValue(m, scrutinee, locals), arms, locals, h, n))
    {
      var v := AtomValue(m, scrutinee, locals);
      assert Exec(m, head, [], locals, h, n)
          == Expected(Kept, labels, RunArm(m, slots, v, arms[0], locals, h, n));
      assert Exec(m, others, [], locals, h, n)
          == Expected(Kept, labels, RunArms(m, slots, v, arms[1..], locals, h, n));
      TestRuns(m, head, others, scrutinee, arms[0].pattern, locals, h, n);
    }
  }

  /** A test and the branches behind it. */
  lemma {:induction false} TestRuns(m: Meaning, t: seq<Code>, e: seq<Code>, scrutinee: Atom, p: Match.Pattern,
                                    locals: Locals, h: History, n: nat)
    ensures var holds := m.test(p, AtomValue(m, scrutinee, locals));
            Exec(m, [Test(scrutinee, p), IfElse(t, e)], [], locals, h, n)
            == if holds.None? then Trapped(h)
               else if holds.value then Exec(m, t, [], locals, h, n) else Exec(m, e, [], locals, h, n)
  {
    ExecPair(m, Test(scrutinee, p), IfElse(t, e), [], locals, h, n);
    var holds := m.test(p, AtomValue(m, scrutinee, locals));
    if holds.Some? {
      BranchRuns(m, BoolV(holds.value), t, e, locals, h, n);
    }
  }

  lemma {:induction false} BranchRuns(m: Meaning, v: Value, t: seq<Code>, e: seq<Code>, locals: Locals, h: History,
                                      n: nat)
    ensures ExecOne(m, IfElse(t, e), [v], locals, h, n)
         == if IsTrue(v) then Exec(m, t, [], locals, h, n) else Exec(m, e, [], locals, h, n)
  {
    assert [v][..|[v]| - 1] == [];
  }

  lemma {:induction false} MatchCode(code: seq<Code>, local: nat, op: Op, labels: LabelStack, slots: Slots)
    requires op.AMatch? && Chains(code, labels, slots, op.scrutinee, op.arms)
    ensures Computes(code, labels, slots, local, op)
  {
  }

  // ----- Loops -----

  /** A loop that iterates at its end and at `continue`, and is left by `break` with a value. */
  lemma {:induction false} LoopCode(body: seq<Code>, id: nat, local: nat, op: Op, labels: LabelStack, slots: Slots)
    requires op.ALoop?
    requires Implements(body, Dropped, false, labels + [(BreakLabel(id), ContLabel(id))],
                        slots.(loop := Some(slots.types(local))), op.body)
    ensures Computes([Block(BreakLabel(id), [Loop(ContLabel(id), body + [Br(ContLabel(id))]), Halt])], labels, slots,
                     local, op)
  {
    var inner := slots.(loop := Some(slots.types(local)));
    var block := Block(BreakLabel(id), [Loop(ContLabel(id), body + [Br(ContLabel(id))]), Halt]);
    forall m: Meaning, locals, h: History, n: nat
      ensures Exec(m, [block], [], locals, h, n)
              == Expected(Kept, labels, RunOp(m, slots, local, op, locals, h, n))
    {
      ExecSingle(m, block, [], locals, h, n);
      ExecPair(m, Loop(ContLabel(id), body + [Br(ContLabel(id))]), Halt, [], locals, h, n);
      Iterations(m, body, id, op.body, labels, inner, locals, h, n);
      assert RunOp(m, slots, local, op, locals, h, n) == RunLoop(m, inner, op.body, locals, h, n);
    }
  }

  /** The exit of the loop inside its block. */
  function LoopExit(labels: LabelStack, id: nat, o: Outcome): (r: Exit) {
    if o.Yields? then Jumped(BreakLabel(id), [o.v], o.locals, o.history) else Expected(Kept, labels, o)
  }

  lemma {:induction false} Iterations(m: Meaning, code: seq<Code>, id: nat, body: Expr, labels: LabelStack,
                                      slots: Slots, locals: Locals, h: History, n: nat)
    requires Implements(code, Dropped, false, labels + [(BreakLabel(id), ContLabel(id))], slots, body)
    ensures ExecOne(m, Loop(ContLabel(id), code + [Br(ContLabel(id))]), [], locals, h, n)
            == LoopExit(labels, id, RunLoop(m, slots, body, locals, h, n))
    decreases n
  {
    var cont := ContLabel(id);
    ExecAppend(m, code, [Br(cont)], [], locals, h, n);
    var x, r := Exec(m, code, [], locals, h, n), Run(m, slots, body, locals, h, n);
    assert Agree(false, x, Expected(Dropped, labels + [(BreakLabel(id), cont)], r));
    if x.Fell? {
      ExecSingle(m, Br(cont), x.stack, x.locals, x.history, n);
    }
    if (r.Yields? || r.Continues?) && n > 0 {
      Iterations(m, code, id, body, labels, slots, r.locals, r.history, n - 1);
    }
  }
}
