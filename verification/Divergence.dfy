/** Expressions that never come to a value, and code that is never left at its end. */
module Divergence {
  import opened Anf
  import opened Skeletons
  import opened Runs
  import Values

  /** `expr_always_diverges`. */
  predicate Diverges(e: Expr)
    decreases e
  {
    match e
    case Let(_, op, body) => OpDiverges(op) || Diverges(body)
    case AtomExpr(_) => false
    case _ => true
  }

  /** `op_always_diverges`. */
  predicate OpDiverges(op: Op)
    decreases op
  {
    match op
    case AIf(_, t, e) => Diverges(t) && Diverges(e)
    case AMatch(_, arms) => ArmsDiverge(arms)
    case _ => false
  }

  predicate ArmsDiverge(arms: seq<Arm>)
    decreases arms
  {
    arms == [] || (ArmDiverges(arms[0]) && ArmsDiverge(arms[1..]))
  }

  predicate ArmDiverges(arm: Arm)
    decreases arm
  {
    Diverges(arm.body)
  }

  // ----- What is said to diverge never yields a value -----

  lemma {:induction false} NeverYields(m: Meaning, slots: Slots, e: Expr, locals: Locals, h: History, n: nat)
    requires Diverges(e)
    ensures !Run(m, slots, e, locals, h, n).Yields?
    decreases e
  {
    if e.Let? {
      var r := RunOp(m, slots, e.local, e.op, locals, h, n);
      if OpDiverges(e.op) {
        OpNeverYields(m, slots, e.local, e.op, locals, h, n);
      } else if r.Yields? {
        NeverYields(m, slots, e.body, r.locals[e.local := r.v], r.history, n);
      }
    }
  }

  lemma {:induction false} OpNeverYields(m: Meaning, slots: Slots, local: nat, op: Op, locals: Locals, h: History,
                                         n: nat)
    requires OpDiverges(op)
    ensures !RunOp(m, slots, local, op, locals, h, n).Yields?
    decreases op
  {
    match op
    case AIf(_, t, e) =>
      NeverYields(m, slots, t, locals, h, n);
      NeverYields(m, slots, e, locals, h, n);
    case AMatch(scrutinee, arms) =>
      ArmsNeverYield(m, slots, AtomValue(m, scrutinee, locals), arms, locals, h, n);
    case _ =>
  }

  lemma {:induction false} ArmsNeverYield(m: Meaning, slots: Slots, v: Values.Value, arms: seq<Arm>, locals: Locals,
                                          h: History, n: nat)
    requires ArmsDiverge(arms)
    ensures !RunArms(m, slots, v, arms, locals, h, n).Yields?
    decreases arms
  {
    if arms != [] {
      ArmNeverYields(m, slots, v, arms[0], locals, h, n);
      ArmsNeverYield(m, slots, v, arms[1..], locals, h, n);
    }
  }

  lemma {:induction false} ArmNeverYields(m: Meaning, slots: Slots, v: Values.Value, arm: Arm, locals: Locals,
                                          h: History, n: nat)
    requires ArmDiverges(arm)
    ensures !RunArm(m, slots, v, arm, locals, h, n).Yields?
    decreases arm
  {
    var bound := m.bind(arm.pattern, v, locals);
    if bound.Some? {
      NeverYields(m, slots, arm.body, bound.value, h, n);
    }
  }

  // ----- Code that is never left at its end -----

  /** No run of the code reaches its end. */
  ghost predicate NeverFalls(code: seq<Code>) {
    forall m: Meaning, locals, h: History, n: nat :: !Exec(m, code, [], locals, h, n).Fell?
  }

  lemma {:induction false} ImplementsNeverFalls(code: seq<Code>, use: Use, atEnd: bool, labels: LabelStack,
                                                slots: Slots, e: Expr)
    requires Implements(code, use, atEnd, labels, slots, e) && (use.Returned? || Diverges(e))
    ensures NeverFalls(code)
  {
    forall m: Meaning, locals, h: History, n: nat
      ensures !Exec(m, code, [], locals, h, n).Fell?
    {
      var r := Run(m, slots, e, locals, h, n);
      assert Agree(atEnd, Exec(m, code, [], locals, h, n), Expected(use, labels, r));
      if Diverges(e) {
        NeverYields(m, slots, e, locals, h, n);
      }
    }
  }

  /** Without a value there is nothing to store. */
  lemma {:induction false} DivergingCode(code: seq<Code>, local: nat, op: Op, labels: LabelStack, slots: Slots)
    requires Computes(code, labels, slots, local, op) && OpDiverges(op)
    ensures Binds(code, labels, slots, local, op) && NeverFalls(code)
  {
    forall m: Meaning, locals, h: History, n: nat
      ensures Exec(m, code, [], locals, h, n)
              == Stored(labels, local, RunOp(m, slots, local, op, locals, h, n))
      ensures !Exec(m, code, [], locals, h, n).Fell?
    {
      OpNeverYields(m, slots, local, op, locals, h, n);
    }
  }

  /** Whatever stands behind a chain of diverging arms is never reached. */
  lemma {:induction false} DivergingChain(code: seq<Code>, dead: seq<Code>, scrutinee: Atom, arms: seq<Arm>,
                                          labels: LabelStack, slots: Slots)
    requires Chains(code, labels, slots, scrutinee, arms) && ArmsDiverge(arms)
    ensures Chains(code + dead, labels, slots, scrutinee, arms) && NeverFalls(code)
  {
    forall m: Meaning, locals, h: History, n: nat
      ensures Exec(m, code + dead, [], locals, h, n)
              == Expected(Kept, labels, RunArms(m, slots, AtomValue(m, scrutinee, locals), arms, locals, h, n))
      ensures !Exec(m, code, [], locals, h, n).Fell?
    {
      ArmsNeverYield(m, slots, AtomValue(m, scrutinee, locals), arms, locals, h, n);
      ExecAppend(m, code, dead, [], locals, h, n);
    }
  }

  /** Control never gets from a loop that ends in a branch to its start to the `unreachable` behind it. */
  lemma {:induction false} LoopNeverFalls(body: seq<Code>, id: nat)
    ensures NeverFalls([Loop(ContLabel(id), body + [Br(ContLabel(id))])])
  {
    var loop := Loop(ContLabel(id), body + [Br(ContLabel(id))]);
    forall m: Meaning, locals, h: History, n: nat
      ensures !Exec(m, [loop], [], locals, h, n).Fell?
    {
      ExecSingle(m, loop, [], locals, h, n);
      IterationNeverFalls(m, body, id, locals, h, n);
    }
  }

  lemma {:induction false} IterationNeverFalls(m: Meaning, body: seq<Code>, id: nat, locals: Locals, h: History,
                                               n: nat)
    ensures !ExecOne(m, Loop(ContLabel(id), body + [Br(ContLabel(id))]), [], locals, h, n).Fell?
    decreases n
  {
    var branch := Br(ContLabel(id));
    ExecAppend(m, body, [branch], [], locals, h, n);
    var x := Exec(m, body, [], locals, h, n);
    if x.Fell? {
      ExecSingle(m, branch, x.stack, x.locals, x.history, n);
    }
    var r := Exec(m, body + [branch], [], locals, h, n);
    if r.Jumped? && n > 0 {
      IterationNeverFalls(m, body, id, r.locals, r.history, n - 1);
    }
  }
}
