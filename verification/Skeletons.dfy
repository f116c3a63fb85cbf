/** The control skeleton of emitted code: labels, branches, and what the source says about both. */
module Skeletons {
  import opened Base
  import W = Wasm
  import opened Sequences
  import opened Mono
  import opened Anf
  import Match
  import Symbols

  /** `break_<id>` and `cont_<id>`. */
  datatype Label = BreakLabel(id: nat) | ContLabel(id: nat)

  function LabelText(l: Label): (s: string) {
    match l
    case BreakLabel(id) => "break_" + Decimal(id)
    case ContLabel(id) => "cont_" + Decimal(id)
  }

  /** Different labels have different names. */
  lemma LabelTextInjective(a: Label, b: Label)
    requires LabelText(a) == LabelText(b)
    ensures a == b
  {
    assert LabelText(a)[0] == if a.BreakLabel? then 'b' else 'c';
    assert LabelText(b)[0] == if b.BreakLabel? then 'b' else 'c';
    Symbols.DecimalDecodes(a.id);
    Symbols.DecimalDecodes(b.id);
    var n := if a.BreakLabel? then 6 else 5;
    assert LabelText(a)[n..] == Decimal(a.id) && LabelText(b)[n..] == Decimal(b.id);
  }

  /**
    Emitted code in terms of the source: atoms and the values for Void and for a bare `break` are pushed, operations
    take their atoms from the locals and push their result, and `Test` and `Bind` stand for the condition and the
    bindings of a pattern. `Halt` is a call of the runtime's trap or `unreachable`.
  */
  datatype Code =
    | Push(atom: Atom)
    | Unit(ty: W.ValType)
    | Placeholder(ty: W.ValType)
    | Do(op: Op)
    | Set(local: nat)
    | Drop
    | Test(scrutinee: Atom, pattern: Match.Pattern)
    | Bind(scrutinee: Atom, pattern: Match.Pattern)
    | Ret
    | TailCall(op: Op)
    | Halt
    | Br(target: Label)
    | Block(name: Label, body: seq<Code>)
    | Loop(name: Label, body: seq<Code>)
    | IfElse(thenBody: seq<Code>, elseBody: seq<Code>)

  /** Code with labels resolved: a jump says how many enclosing blocks and loops it skips. */
  datatype Skeleton =
    | JumpTo(depth: nat)
    | InBlock(body: seq<Skeleton>)
    | InLoop(body: seq<Skeleton>)
    | Branch(left: seq<Skeleton>, right: seq<Skeleton>)

  /** The innermost enclosing block or loop of that name; the innermost comes first in `env`. */
  function Depth(env: seq<Label>, target: Label): (d: nat)
    ensures d <= |env|
  {
    if env == [] || env[0] == target then 0 else 1 + Depth(env[1..], target)
  }

  /** Resolve every branch against the labels that really enclose it. */
  function Resolve(code: seq<Code>, env: seq<Label>): (s: seq<Skeleton>)
    decreases code, 1
  {
    if code == [] then [] else ResolveOne(code[0], env) + Resolve(code[1..], env)
  }

  function ResolveOne(c: Code, env: seq<Label>): (s: seq<Skeleton>)
    decreases c, 0
  {
    match c
    case Br(target) => [JumpTo(Depth(env, target))]
    case Block(name, body) => [InBlock(Resolve(body, [name] + env))]
    case Loop(name, body) => [InLoop(Resolve(body, [name] + env))]
    case IfElse(t, e) => [Branch(Resolve(t, env), Resolve(e, env))]
    case _ => []
  }

  /** The labels that the code defines, in order. */
  function Defined(code: seq<Code>): (ls: seq<Label>)
    decreases code, 1
  {
    if code == [] then [] else DefinedOne(code[0]) + Defined(code[1..])
  }

  function DefinedOne(c: Code): (ls: seq<Label>)
    decreases c, 0
  {
    match c
    case Block(name, body) => [name] + Defined(body)
    case Loop(name, body) => [name] + Defined(body)
    case IfElse(t, e) => Defined(t) + Defined(e)
    case _ => []
  }

  lemma One(c: Code, env: seq<Label>)
    ensures Resolve([c], env) == ResolveOne(c, env)
    ensures Defined([c]) == DefinedOne(c)
  {
    assert [c][1..] == [];
  }

  predicate Inert(c: Code) { !c.Br? && !c.Block? && !c.Loop? && !c.IfElse? }

  /** Code that neither branches nor nests. */
  predicate Straight(code: seq<Code>) { forall c | c in code :: Inert(c) }

  lemma {:induction false} StraightShape(code: seq<Code>, env: seq<Label>)
    requires Straight(code)
    ensures Resolve(code, env) == [] && Defined(code) == []
  {
    if code != [] {
      assert Inert(code[0]) && forall c | c in code[1..] :: c in code;
      StraightShape(code[1..], env);
    }
  }

  /** An instruction without labels, before or behind, changes nothing. */
  lemma WithInert(x: Code, c: Code, env: seq<Label>)
    requires Inert(x)
    ensures Resolve([x, c], env) == ResolveOne(c, env) && Resolve([c, x], env) == ResolveOne(c, env)
    ensures Defined([x, c]) == DefinedOne(c) && Defined([c, x]) == DefinedOne(c)
  {
    One(c, env);
    One(x, env);
    assert [x, c] == [x] + [c] && [c, x] == [c] + [x];
    ResolveAppend([x], [c], env);
    ResolveAppend([c], [x], env);
    DefinedAppend([x], [c]);
    DefinedAppend([c], [x]);
  }

  lemma Assoc<T>(a: seq<T>, b: seq<T>, c: seq<T>)
    ensures a + (b + c) == a + b + c
  {
  }

  lemma ResolveCons(code: seq<Code>, env: seq<Label>)
    requires code != []
    ensures Resolve(code, env) == ResolveOne(code[0], env) + Resolve(code[1..], env)
  {
  }

  lemma {:induction false} ResolveAppend(a: seq<Code>, b: seq<Code>, env: seq<Label>)
    ensures Resolve(a + b, env) == Resolve(a, env) + Resolve(b, env)
  {
    if a == [] {
      assert a + b == b;
    } else {
      ResolveAppend(a[1..], b, env);
      assert (a + b)[1..] == a[1..] + b;
      ResolveCons(a + b, env);
      ResolveCons(a, env);
      Assoc(ResolveOne(a[0], env), Resolve(a[1..], env), Resolve(b, env));
    }
  }

  lemma DefinedCons(code: seq<Code>)
    requires code != []
    ensures Defined(code) == DefinedOne(code[0]) + Defined(code[1..])
  {
  }

  lemma {:induction false} DefinedAppend(a: seq<Code>, b: seq<Code>)
    ensures Defined(a + b) == Defined(a) + Defined(b)
  {
    if a == [] {
      assert a + b == b;
    } else {
      DefinedAppend(a[1..], b);
      assert (a + b)[1..] == a[1..] + b;
      DefinedCons(a + b);
      DefinedCons(a);
      Assoc(DefinedOne(a[0]), Defined(a[1..]), Defined(b));
    }
  }

  // ----- What the source asks for -----

  /**
    The jumps of the source. A loop is a block around a loop, so from anywhere inside its body, outside of inner
    loops, the next iteration is 0 levels out and the end of the loop is 1.
  */
  function Jumps(e: Expr): (s: seq<Skeleton>)
    decreases e
  {
    match e
    case Let(_, op, body) => JumpsOfOp(op) + Jumps(body)
    case Break(_) => [JumpTo(1)]
    case Continue => [JumpTo(0)]
    case Return(_) => []
    case AtomExpr(_) => []
  }

  function JumpsOfOp(op: Op): (s: seq<Skeleton>)
    decreases op
  {
    match op
    case AIf(_, t, e) => [Branch(Jumps(t), Jumps(e))]
    case AMatch(_, arms) => JumpsOfArms(arms)
    case ALoop(b) => [InBlock([InLoop(Jumps(b) + [JumpTo(0)])])]
    case _ => []
  }

  function JumpsOfArms(arms: seq<Arm>): (s: seq<Skeleton>)
    decreases arms
  {
    if arms == [] then [] else [Branch(JumpsOfArm(arms[0]), JumpsOfArms(arms[1..]))]
  }

  function JumpsOfArm(arm: Arm): (s: seq<Skeleton>)
    decreases arm
  {
    Jumps(arm.body)
  }

  /** Every `break` and `continue` lies inside a loop, and no `defer` is left over from lowering. */
  predicate Emittable(e: Expr, inLoop: bool)
    decreases e
  {
    match e
    case Let(_, op, body) => EmittableOp(op, inLoop) && Emittable(body, inLoop)
    case Break(_) => inLoop
    case Continue => inLoop
    case Return(_) => true
    case AtomExpr(_) => true
  }

  predicate EmittableOp(op: Op, inLoop: bool)
    decreases op
  {
    match op
    case AIf(_, t, e) => Emittable(t, inLoop) && Emittable(e, inLoop)
    case AMatch(_, arms) => EmittableArms(arms, inLoop)
    case ALoop(b) => Emittable(b, true)
    case ADefer(_) => false
    case _ => true
  }

  predicate EmittableArms(arms: seq<Arm>, inLoop: bool)
    decreases arms
  {
    arms == [] || (EmittableArm(arms[0], inLoop) && EmittableArms(arms[1..], inLoop))
  }

  predicate EmittableArm(arm: Arm, inLoop: bool)
    decreases arm
  {
    Emittable(arm.body, inLoop)
  }

  // ----- Labels handed out -----

  type LabelStack = seq<(Label, Label)>

  /** The labels in force for a stack of loops, innermost first. */
  function Env(labels: LabelStack): (env: seq<Label>) {
    if labels == [] then []
    else
      var last := labels[|labels| - 1];
      [last.1, last.0] + Env(labels[..|labels| - 1])
  }

  /** The labels of the loops numbered from `n` up to `m`. */
  function Fresh(n: nat, m: nat): (ls: seq<Label>)
    requires n <= m
    decreases m - n
  {
    if n == m then [] else [BreakLabel(n), ContLabel(n)] + Fresh(n + 1, m)
  }

  lemma {:induction false} FreshAppend(a: nat, b: nat, c: nat)
    requires a <= b <= c
    ensures Fresh(a, b) + Fresh(b, c) == Fresh(a, c)
    decreases b - a
  {
    if a < b {
      FreshAppend(a + 1, b, c);
      assert Fresh(a, b) + Fresh(b, c) == [BreakLabel(a), ContLabel(a)] + (Fresh(a + 1, b) + Fresh(b, c));
    }
  }

  /** No label is handed out twice. */
  lemma {:induction false} FreshAreDistinct(n: nat, m: nat)
    requires n <= m
    ensures NoDup(Fresh(n, m))
    ensures forall l | l in Fresh(n, m) :: n <= l.id < m
    decreases m - n
  {
    if n < m {
      FreshAreDistinct(n + 1, m);
      var first, rest := [BreakLabel(n), ContLabel(n)], Fresh(n + 1, m);
      assert forall i | 0 <= i < |rest| :: rest[i] in rest;
    }
  }

  /** Code emitted under `labels` with the loop numbers from `n` to `m`, for source that jumps as `jumps` says. */
  ghost predicate Emitted(code: seq<Code>, labels: LabelStack, n: nat, m: nat, jumps: seq<Skeleton>) {
    n <= m && Resolve(code, Env(labels)) == jumps && Defined(code) == Fresh(n, m)
  }

  lemma EmittedAppend(a: seq<Code>, b: seq<Code>, labels: LabelStack, n: nat, k: nat, m: nat, s: seq<Skeleton>,
                      t: seq<Skeleton>)
    requires Emitted(a, labels, n, k, s) && Emitted(b, labels, k, m, t)
    ensures Emitted(a + b, labels, n, m, s + t)
  {
    ResolveAppend(a, b, Env(labels));
    DefinedAppend(a, b);
    FreshAppend(n, k, m);
  }

  lemma EmittedStraight(code: seq<Code>, labels: LabelStack, n: nat)
    requires Straight(code)
    ensures Emitted(code, labels, n, n, [])
  {
    StraightShape(code, Env(labels));
  }

  /** Straight code in front or behind makes no difference. */
  lemma EmittedAround(pre: seq<Code>, code: seq<Code>, post: seq<Code>, labels: LabelStack, n: nat, m: nat,
                      jumps: seq<Skeleton>)
    requires Straight(pre) && Straight(post) && Emitted(code, labels, n, m, jumps)
    ensures Emitted(pre + code, labels, n, m, jumps) && Emitted(code + post, labels, n, m, jumps)
  {
    EmittedStraight(pre, labels, n);
    EmittedStraight(post, labels, m);
    EmittedAppend(pre, code, labels, n, n, m, [], jumps);
    EmittedAppend(code, post, labels, n, m, m, jumps, []);
    assert [] + jumps == jumps && jumps + [] == jumps;
  }

  lemma EmittedIf(x: Code, t: seq<Code>, e: seq<Code>, labels: LabelStack, n: nat, k: nat, m: nat, s: seq<Skeleton>,
                  u: seq<Skeleton>)
    requires Inert(x) && Emitted(t, labels, n, k, s) && Emitted(e, labels, k, m, u)
    ensures Emitted([x, IfElse(t, e)], labels, n, m, [Branch(s, u)])
  {
    FreshAppend(n, k, m);
    WithInert(x, IfElse(t, e), Env(labels));
  }

  lemma EmittedJumps(x: Code, labels: LabelStack, n: nat)
    requires labels != [] && Inert(x)
    requires labels[|labels| - 1].0 != labels[|labels| - 1].1
    ensures Emitted([x, Br(labels[|labels| - 1].0)], labels, n, n, [JumpTo(1)])
    ensures Emitted([Br(labels[|labels| - 1].1)], labels, n, n, [JumpTo(0)])
  {
    var last := labels[|labels| - 1];
    WithInert(x, Br(last.0), Env(labels));
    One(Br(last.1), Env(labels));
    var rest := [last.0] + Env(labels[..|labels| - 1]);
    assert Env(labels) == [last.1] + rest && Env(labels)[1..] == rest;
    assert Depth(rest, last.0) == 0;
  }

  /** A loop: its own two labels, and its body under them. */
  lemma EmittedLoop(body: seq<Code>, labels: LabelStack, n: nat, m: nat, jumps: seq<Skeleton>)
    requires Emitted(body, labels + [(BreakLabel(n), ContLabel(n))], n + 1, m, jumps)
    ensures Emitted([Block(BreakLabel(n), [Loop(ContLabel(n), body + [Br(ContLabel(n))]), Halt])], labels, n, m,
                    [InBlock([InLoop(jumps + [JumpTo(0)])])])
  {
    var inner := labels + [(BreakLabel(n), ContLabel(n))];
    assert inner[..|inner| - 1] == labels;
    EmittedJumps(Drop, inner, m);
    EmittedAppend(body, [Br(ContLabel(n))], inner, n + 1, m, m, jumps, [JumpTo(0)]);
    LoopShape(body + [Br(ContLabel(n))], Env(labels), BreakLabel(n), ContLabel(n));
    assert [ContLabel(n)] + ([BreakLabel(n)] + Env(labels)) == Env(inner);
    assert [BreakLabel(n)] + ([ContLabel(n)] + Fresh(n + 1, m)) == Fresh(n, m);
  }

  lemma LoopShape(body: seq<Code>, env: seq<Label>, b: Label, c: Label)
    ensures Resolve([Block(b, [Loop(c, body), Halt])], env) == [InBlock([InLoop(Resolve(body, [c] + ([b] + env)))])]
    ensures Defined([Block(b, [Loop(c, body), Halt])]) == [b] + ([c] + Defined(body))
  {
    var inner := [Loop(c, body), Halt];
    WithInert(Halt, Loop(c, body), [b] + env);
    One(Block(b, inner), env);
  }
}
