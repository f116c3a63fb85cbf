/**
  Emission of an expression as far as it touches the emission context: flow metadata, label stacks and loop numbers.
*/
module Emission {
  import opened Base
  import opened Wasm
  import opened Mono
  import opened Anf
  import opened FlowContext
  import opened Sequences
  import S = Skeletons
  import R = Runs
  import D = Divergence
  import P = Match

  /** What inference says about the value that a local is about to hold. */
  datatype Facts = Facts(
    mono: Option<MonoType>,
    repr: Option<ValueRepr>,
    builderElem: Option<MonoType>,
    iterState: Option<IterInfo>,
    sumRepr: Option<SumRepr>)

  /**
    The type environment, and every inference and lowering decision of the backend. The first argument counts the
    questions asked, so that answers may depend on anything else the context holds, and on the order of events.
    `hasResult` says whether the function at hand returns a value.
  */
  datatype Oracle = Oracle(
    te: TypeEnv,
    letFacts: (nat, Flow, nat, Op) -> Facts,
    mutation: (nat, Flow, Op) -> Option<(nat, Option<MonoType>)>,
    valueFacts: (nat, Flow, nat, Atom) -> Facts,
    scrutinee: (nat, Flow, Atom) -> (Option<MonoType>, Option<IterInfo>),
    bindType: nat -> ValType,
    tailCall: (nat, Flow, Op) -> bool,
    hasResult: bool)

  /** The three emitters of expressions: at the end of a function, in a loop body, and for a value. */
  datatype Mode = Tail | LoopBody | Value

  // ----- What is known behind a binding -----

  /** `l` is about to hold a value with these facts; other locals, and the remaining metadata of `l`, are as before. */
  function BindFirst(f: Flow, l: nat, facts: Facts): (r: Flow) {
    Flow(PutMono(f.monos, l, facts.mono), WithBuilder(WithRepr(f.backend, l, facts.repr), l, facts.builderElem))
  }

  function BindRest(f: Flow, l: nat, facts: Facts): (r: Flow) {
    f.(backend := WithSum(WithIter(f.backend, l, facts.iterState), l, facts.sumRepr))
  }

  function AfterAssign(oracle: Oracle, asked: nat, f: Flow, target: nat, value: Atom): (r: Flow) {
    var facts := oracle.valueFacts(asked, f, target, value);
    BindRest(BindFirst(f, target, facts), target, facts)
  }

  /** The bindings of a let itself: its local, and the element type that a builder operation finds out. */
  function AfterBinding(oracle: Oracle, asked: nat, f: Flow, local: nat, op: Op): (r: Flow) {
    var facts := oracle.letFacts(asked, f, local, op);
    var first := BindFirst(f, local, facts);
    var mutated := oracle.mutation(asked, first, op);
    var second :=
      if mutated.Some? then first.(backend := WithBuilder(first.backend, mutated.value.0, mutated.value.1)) else first;
    BindRest(second, local, facts)
  }

  /** The metadata that the operation and the body of a let are emitted with. */
  function AfterLet(oracle: Oracle, asked: nat, f: Flow, local: nat, op: Op): (r: Flow) {
    var bound := AfterBinding(oracle, asked, f, local, op);
    if op.AAssign? then AfterAssign(oracle, asked, bound, op.target, op.value) else bound
  }

  function SetFacts(info: BackendInfo, facts: Facts): (r: BackendInfo) {
    info.(repr := facts.repr, builderElem := facts.builderElem, iterState := facts.iterState, sumRepr := facts.sumRepr)
  }

  /**
    A let without an assignment, seen from its body. What a builder operation finds out overrides the inferred element
    type.
  */
  lemma BindingBinds(oracle: Oracle, asked: nat, f: Flow, local: nat, op: Op, l: nat)
    ensures var facts, r := oracle.letFacts(asked, f, local, op), AfterBinding(oracle, asked, f, local, op);
            var mutated := oracle.mutation(asked, BindFirst(f, local, facts), op);
            var own := if l == local then SetFacts(InfoAt(f.backend, l), facts) else InfoAt(f.backend, l);
            MonoAt(r.monos, l) == (if l == local then facts.mono else MonoAt(f.monos, l))
            && InfoAt(r.backend, l)
               == (if mutated.Some? && mutated.value.0 == l then own.(builderElem := mutated.value.1) else own)
  {
  }

  /**
    Any let, seen from its body, local by local: an assignment comes last, and what none of the three writes to is as
    before.
  */
  lemma LetBinds(oracle: Oracle, asked: nat, f: Flow, local: nat, op: Op, l: nat)
    ensures var bound, r := AfterBinding(oracle, asked, f, local, op), AfterLet(oracle, asked, f, local, op);
            if op.AAssign? && l == op.target then
              var facts := oracle.valueFacts(asked, bound, op.target, op.value);
              MonoAt(r.monos, l) == facts.mono && InfoAt(r.backend, l) == SetFacts(InfoAt(bound.backend, l), facts)
            else
              MonoAt(r.monos, l) == MonoAt(bound.monos, l) && InfoAt(r.backend, l) == InfoAt(bound.backend, l)
    ensures var r := AfterLet(oracle, asked, f, local, op);
            var mutated := oracle.mutation(asked, BindFirst(f, local, oracle.letFacts(asked, f, local, op)), op);
            l != local && (op.AAssign? ==> l != op.target) && (mutated.Some? ==> l != mutated.value.0) ==>
              MonoAt(r.monos, l) == MonoAt(f.monos, l) && InfoAt(r.backend, l) == InfoAt(f.backend, l)
  {
    BindingBinds(oracle, asked, f, local, op, l);
    if op.AAssign? {
      AssignBinds(oracle, asked, AfterBinding(oracle, asked, f, local, op), op.target, op.value, l);
    }
  }

  /** An assignment gives its target the facts of the assigned value. */
  lemma AssignBinds(oracle: Oracle, asked: nat, f: Flow, target: nat, value: Atom, l: nat)
    ensures var facts, r := oracle.valueFacts(asked, f, target, value), AfterAssign(oracle, asked, f, target, value);
            MonoAt(r.monos, l) == (if l == target then facts.mono else MonoAt(f.monos, l))
            && InfoAt(r.backend, l) == (if l == target then SetFacts(InfoAt(f.backend, l), facts)
                                        else InfoAt(f.backend, l))
  {
  }

  // ----- What is known in an arm -----

  /** The type of field `i` that the emitter assumes in an arm. */
  function ArmFieldMono(te: TypeEnv, typeId: nat, variant: nat, expected: Option<MonoType>, iter: Option<IterInfo>,
                        i: nat)
    : (r: Option<MonoType>)
  {
    var typed := P.IterPattern(te, typeId, expected, iter);
    if typed.Some? && i == 0 then Some(typed.value.1) else P.VariantFieldMono(expected, variant, i)
  }

  /** The variables of a pattern with the types they are bound to, in order. */
  function PatternMonos(te: TypeEnv, p: P.Pattern, expected: Option<MonoType>, iter: Option<IterInfo>)
    : (r: Restores<MonoType>)
    decreases p, 0
  {
    match p
    case PVar(l) => [(l, expected)]
    case PVariant(t, k, fs) => FieldsMonos(te, t, k, fs, expected, iter, 0)
    case _ => []
  }

  function FieldsMonos(te: TypeEnv, t: nat, k: nat, fs: seq<P.Pattern>, expected: Option<MonoType>,
                       iter: Option<IterInfo>, i: nat)
    : (r: Restores<MonoType>)
    requires i <= |fs|
    decreases fs, |fs| - i
  {
    if i == |fs| then []
    else
      PatternMonos(te, fs[i], ArmFieldMono(te, t, k, expected, iter, i), iter)
      + FieldsMonos(te, t, k, fs, expected, iter, i + 1)
  }

  function PutAll(m: Monos, bs: Restores<MonoType>): (r: Monos)
    decreases |bs|
  {
    if bs == [] then m else PutAll(PutMono(m, bs[0].0, bs[0].1), bs[1..])
  }

  lemma {:induction false} PutAllAppend(m: Monos, a: Restores<MonoType>, b: Restores<MonoType>)
    ensures PutAll(m, a + b) == PutAll(PutAll(m, a), b)
    decreases |a|
  {
    if a == [] {
      assert a + b == b;
    } else {
      PutAllAppend(PutMono(m, a[0].0, a[0].1), a[1..], b);
      assert (a + b)[1..] == a[1..] + b;
    }
  }

  /** In the arm every variable has the type of its last occurrence; all other locals are as before. */
  lemma {:induction false} PutAllBinds(m: Monos, bs: Restores<MonoType>, l: nat)
    ensures l !in LoggedLocals(bs) ==> MonoAt(PutAll(m, bs), l) == MonoAt(m, l)
    ensures forall i | 0 <= i < |bs| && bs[i].0 == l && (forall j | i < j < |bs| :: bs[j].0 != l) ::
            MonoAt(PutAll(m, bs), l) == bs[i].1
    decreases |bs|
  {
    if bs != [] {
      var rest := bs[1..];
      PutAllBinds(PutMono(m, bs[0].0, bs[0].1), rest, l);
      assert forall i | 0 <= i < |rest| :: rest[i] == bs[i + 1];
      assert l in LoggedLocals(rest) ==> l in LoggedLocals(bs) by {
        if l in LoggedLocals(rest) {
          var i :| 0 <= i < |rest| && rest[i].0 == l;
          assert bs[i + 1].0 == l;
        }
      }
      forall i | 0 <= i < |bs| && bs[i].0 == l && (forall j | i < j < |bs| :: bs[j].0 != l)
        ensures MonoAt(PutAll(m, bs), l) == bs[i].1
      {
        if i == 0 {
          assert l !in LoggedLocals(rest);
        } else {
          assert rest[i - 1] == bs[i];
        }
      }
    }
  }

  /** The locals of a restore stack. */
  function LoggedLocals(log: Restores<MonoType>): (r: set<nat>) { set i | 0 <= i < |log| :: log[i].0 }

  /** The two stacks describe the same loops. */
  predicate ProperStacks(labels: S.LabelStack, results: seq<Option<ValType>>) {
    |labels| == |results|
    && forall i | 0 <= i < |labels| :: labels[i].0.BreakLabel? && labels[i].1.ContLabel? && results[i].Some?
  }

  /** The code of an operation, then the code of the body. */
  lemma {:induction false} LetEmitted(a: seq<S.Code>, b: seq<S.Code>, labels: S.LabelStack, n: nat, k: nat, m: nat,
                                      local: nat, op: Op, body: Expr, use: R.Use, atEnd: bool, slots: R.Slots)
    requires S.Emitted(a, labels, n, k, S.JumpsOfOp(op)) && S.Emitted(b, labels, k, m, S.Jumps(body))
    requires R.Binds(a, labels, slots, local, op) && R.Implements(b, use, atEnd, labels, slots, body)
    ensures S.Emitted(a + b, labels, n, m, S.Jumps(Let(local, op, body)))
    ensures R.Implements(a + b, use, atEnd, labels, slots, Let(local, op, body))
  {
    S.EmittedAppend(a, b, labels, n, k, m, S.JumpsOfOp(op), S.Jumps(body));
    R.LetCode(a, b, local, op, body, use, atEnd, labels, slots);
  }

  class Emitter {
    const oracle: Oracle
    var monos: Monos
    var backend: Backend
    var labels: S.LabelStack
    var loopResults: seq<Option<ValType>>
    var nextLabel: nat
    var asked: nat

    constructor (oracle: Oracle)
      ensures this.oracle == oracle
      ensures monos == map[] && backend == map[] && labels == [] && loopResults == [] && nextLabel == 0
    {
      this.oracle := oracle;
      monos, backend, labels, loopResults, nextLabel, asked := map[], map[], [], [], 0, 0;
    }

    function Current(): (f: Flow)
      reads this
    {
      Flow(monos, backend)
    }

    // ----- Setters -----

    method SetRepr(l: nat, x: Option<ValueRepr>)
      requires NoEmptyEntry(backend)
      modifies this`backend
      ensures NoEmptyEntry(backend) && backend == WithRepr(old(backend), l, x)
    {
      var entry := if l in backend then backend[l] else EMPTY;
      entry := entry.(repr := x);
      backend := backend[l := entry];
      if entry == EMPTY { backend := backend - {l}; }
      assert backend == WithRepr(old(backend), l, x);
    }

    method SetBuilder(l: nat, x: Option<MonoType>)
      requires NoEmptyEntry(backend)
      modifies this`backend
      ensures NoEmptyEntry(backend) && backend == WithBuilder(old(backend), l, x)
    {
      var entry := if l in backend then backend[l] else EMPTY;
      entry := entry.(builderElem := x);
      backend := backend[l := entry];
      if entry == EMPTY { backend := backend - {l}; }
      assert backend == WithBuilder(old(backend), l, x);
    }

    method SetIter(l: nat, x: Option<IterInfo>)
      requires NoEmptyEntry(backend)
      modifies this`backend
      ensures NoEmptyEntry(backend) && backend == WithIter(old(backend), l, x)
    {
      var entry := if l in backend then backend[l] else EMPTY;
      entry := entry.(iterState := x);
      backend := backend[l := entry];
      if entry == EMPTY { backend := backend - {l}; }
      assert backend == WithIter(old(backend), l, x);
    }

    method SetSum(l: nat, x: Option<SumRepr>)
      requires NoEmptyEntry(backend)
      modifies this`backend
      ensures NoEmptyEntry(backend) && backend == WithSum(old(backend), l, x)
    {
      var entry := if l in backend then backend[l] else EMPTY;
      entry := entry.(sumRepr := x);
      backend := backend[l := entry];
      if entry == EMPTY { backend := backend - {l}; }
      assert backend == WithSum(old(backend), l, x);
    }

    // ----- Scoped bindings -----

    method PushMonoBinding(l: nat, t: Option<MonoType>, log: Log, ghost base: Flow) returns (r: Log)
      requires LeadsBack(base, Current(), log)
      modifies this`monos
      ensures LeadsBack(base, Current(), r)
      ensures monos == PutMono(old(monos), l, t)
      ensures r == log.(monos := log.monos + [(l, MonoAt(old(monos), l))])
    {
      ghost var cur := Current();
      r := log.(monos := log.monos + [(l, MonoAt(monos, l))]);
      monos := PutMono(monos, l, t);
      assert Current() == cur.(monos := PutMono(cur.monos, l, t));
      PushMono(base, cur, log, l, t);
    }

    method PushBuilderBinding(l: nat, x: Option<MonoType>, log: Log, ghost base: Flow) returns (r: Log)
      requires LeadsBack(base, Current(), log)
      modifies this`backend
      ensures LeadsBack(base, Current(), r)
      ensures backend == WithBuilder(old(backend), l, x)
    {
      PushBuilder(base, Current(), log, l, x);
      r := log.(builder := log.builder + [(l, InfoAt(backend, l).builderElem)]);
      SetBuilder(l, x);
    }

    method PushReprBinding(l: nat, x: Option<ValueRepr>, log: Log, ghost base: Flow) returns (r: Log)
      requires LeadsBack(base, Current(), log)
      modifies this`backend
      ensures LeadsBack(base, Current(), r)
      ensures backend == WithRepr(old(backend), l, x)
    {
      PushRepr(base, Current(), log, l, x);
      r := log.(repr := log.repr + [(l, InfoAt(backend, l).repr)]);
      SetRepr(l, x);
    }

    method PushIterBinding(l: nat, x: Option<IterInfo>, log: Log, ghost base: Flow) returns (r: Log)
      requires LeadsBack(base, Current(), log)
      modifies this`backend
      ensures LeadsBack(base, Current(), r)
      ensures backend == WithIter(old(backend), l, x)
    {
      PushIter(base, Current(), log, l, x);
      r := log.(iter := log.iter + [(l, InfoAt(backend, l).iterState)]);
      SetIter(l, x);
    }

    method PushSumBinding(l: nat, x: Option<SumRepr>, log: Log, ghost base: Flow) returns (r: Log)
      requires LeadsBack(base, Current(), log)
      modifies this`backend
      ensures LeadsBack(base, Current(), r)
      ensures backend == WithSum(old(backend), l, x)
    {
      PushSum(base, Current(), log, l, x);
      r := log.(sum := log.sum + [(l, InfoAt(backend, l).sumRepr)]);
      SetSum(l, x);
    }

    method PushFirst(l: nat, facts: Facts, log: Log, ghost base: Flow) returns (r: Log)
      requires LeadsBack(base, Current(), log)
      modifies this`monos, this`backend
      ensures LeadsBack(base, Current(), r)
      ensures Current() == BindFirst(old(Current()), l, facts)
    {
      r := PushMonoBinding(l, facts.mono, log, base);
      r := PushReprBinding(l, facts.repr, r, base);
      r := PushBuilderBinding(l, facts.builderElem, r, base);
    }

    method PushRest(l: nat, facts: Facts, log: Log, ghost base: Flow) returns (r: Log)
      requires LeadsBack(base, Current(), log)
      modifies this`backend
      ensures LeadsBack(base, Current(), r)
      ensures Current() == BindRest(old(Current()), l, facts)
    {
      r := PushIterBinding(l, facts.iterState, log, base);
      r := PushSumBinding(l, facts.sumRepr, r, base);
    }

    /** The bindings at the start of `emit_let_expr`; an assignment also rebinds its target. */
    method PushLet(local: nat, op: Op) returns (log: Log)
      requires NoEmptyEntry(backend)
      modifies this`monos, this`backend, this`asked
      ensures LeadsBack(old(Current()), Current(), log)
      ensures Current() == AfterLet(oracle, old(asked), old(Current()), local, op)
    {
      ghost var base := Current();
      StartLog(base);
      var facts := oracle.letFacts(asked, Current(), local, op);
      log := PushFirst(local, facts, NO_LOG, base);
      var mutated := oracle.mutation(asked, Current(), op);
      if mutated.Some? {
        log := PushBuilderBinding(mutated.value.0, mutated.value.1, log, base);
      }
      log := PushRest(local, facts, log, base);
      if op.AAssign? {
        log := PushAssign(op.target, op.value, log, base);
      }
      asked := asked + 1;
    }

    method PushAssign(target: nat, value: Atom, log: Log, ghost base: Flow) returns (r: Log)
      requires LeadsBack(base, Current(), log)
      modifies this`monos, this`backend
      ensures LeadsBack(base, Current(), r)
      ensures Current() == AfterAssign(oracle, asked, old(Current()), target, value)
    {
      var facts := oracle.valueFacts(asked, Current(), target, value);
      r := PushFirst(target, facts, log, base);
      r := PushRest(target, facts, r, base);
    }

    // ----- Restoring -----

    method RestoreMonos(log: Log, ghost base: Flow) returns (r: Log)
      requires LeadsBack(base, Current(), log)
      modifies this`monos
      ensures LeadsBack(base, Current(), r) && r == log.(monos := [])
    {
      r := log;
      while r.monos != []
        invariant LeadsBack(base, Current(), r) && r == log.(monos := r.monos)
        decreases |r.monos|
      {
        PopMono(base, Current(), r);
        var last := r.monos[|r.monos| - 1];
        r := r.(monos := r.monos[..|r.monos| - 1]);
        monos := PutMono(monos, last.0, last.1);
      }
    }

    method RestoreReprs(log: Log, ghost base: Flow) returns (r: Log)
      requires LeadsBack(base, Current(), log)
      modifies this`backend
      ensures LeadsBack(base, Current(), r) && r == log.(repr := [])
    {
      r := log;
      while r.repr != []
        invariant LeadsBack(base, Current(), r) && r == log.(repr := r.repr)
        decreases |r.repr|
      {
        PopRepr(base, Current(), r);
        var last := r.repr[|r.repr| - 1];
        r := r.(repr := r.repr[..|r.repr| - 1]);
        SetRepr(last.0, last.1);
      }
    }

    method RestoreBuilders(log: Log, ghost base: Flow) returns (r: Log)
      requires LeadsBack(base, Current(), log)
      modifies this`backend
      ensures LeadsBack(base, Current(), r) && r == log.(builder := [])
    {
      r := log;
      while r.builder != []
        invariant LeadsBack(base, Current(), r) && r == log.(builder := r.builder)
        decreases |r.builder|
      {
        PopBuilder(base, Current(), r);
        var last := r.builder[|r.builder| - 1];
        r := r.(builder := r.builder[..|r.builder| - 1]);
        SetBuilder(last.0, last.1);
      }
    }

    method RestoreIters(log: Log, ghost base: Flow) returns (r: Log)
      requires LeadsBack(base, Current(), log)
      modifies this`backend
      ensures LeadsBack(base, Current(), r) && r == log.(iter := [])
    {
      r := log;
      while r.iter != []
        invariant LeadsBack(base, Current(), r) && r == log.(iter := r.iter)
        decreases |r.iter|
      {
        PopIter(base, Current(), r);
        var last := r.iter[|r.iter| - 1];
        r := r.(iter := r.iter[..|r.iter| - 1]);
        SetIter(last.0, last.1);
      }
    }

    method RestoreSums(log: Log, ghost base: Flow) returns (r: Log)
      requires LeadsBack(base, Current(), log)
      modifies this`backend
      ensures LeadsBack(base, Current(), r) && r == log.(sum := [])
    {
      r := log;
      while r.sum != []
        invariant LeadsBack(base, Current(), r) && r == log.(sum := r.sum)
        decreases |r.sum|
      {
        PopSum(base, Current(), r);
        var last := r.sum[|r.sum| - 1];
        r := r.(sum := r.sum[..|r.sum| - 1]);
        SetSum(last.0, last.1);
      }
    }

    /** The five loops at the end of `emit_let_expr`. */
    method Restore(log: Log, ghost base: Flow)
      requires LeadsBack(base, Current(), log)
      modifies this`monos, this`backend
      ensures Current() == base
    {
      var left := RestoreIters(log, base);
      left := RestoreSums(left, base);
      left := RestoreBuilders(left, base);
      left := RestoreReprs(left, base);
      left := RestoreMonos(left, base);
      EndOfLog(base, Current());
    }

    /** `push_pattern_mono_bindings`: every variable of the pattern, in order. */
    method PushPattern(p: P.Pattern, expected: Option<MonoType>, iter: Option<IterInfo>, log: Log, ghost base: Flow)
      returns (r: Log)
      requires LeadsBack(base, Current(), log)
      modifies this`monos
      ensures LeadsBack(base, Current(), r) && r == log.(monos := r.monos)
      ensures monos == PutAll(old(monos), PatternMonos(oracle.te, p, expected, iter))
      decreases p
    {
      r := log;
      match p
      case PVar(l) =>
        r := PushMonoBinding(l, expected, log, base);
        assert [(l, expected)][1..] == [];
      case PVariant(t, k, fields) =>
        for i := 0 to |fields|
          invariant LeadsBack(base, Current(), r) && r == log.(monos := r.monos)
          invariant PutAll(monos, FieldsMonos(oracle.te, t, k, fields, expected, iter, i))
                 == PutAll(old(monos), FieldsMonos(oracle.te, t, k, fields, expected, iter, 0))
        {
          var field := ArmFieldMono(oracle.te, t, k, expected, iter, i);
          PutAllAppend(monos, PatternMonos(oracle.te, fields[i], field, iter),
                       FieldsMonos(oracle.te, t, k, fields, expected, iter, i + 1));
          r := PushPattern(fields[i], field, iter, r, base);
        }
      case _ =>
    }

    // ----- Expressions -----

    /** What becomes of the value of an expression; at the end of a function with a result, it is returned. */
    function UseOf(mode: Mode): (use: R.Use) {
      match mode
      case Value => R.Kept
      case LoopBody => R.Dropped
      case Tail => if oracle.hasResult then R.Returned else R.Dropped
    }

    /** The slots of the locals, and of the result of the innermost loop. */
    function Slots(): (s: R.Slots)
      reads this`loopResults
    {
      R.Slots(oracle.bindType, if loopResults == [] then None else loopResults[|loopResults| - 1])
    }

    /**
      Emit an expression. `Aborted` is a panic: a `break` or `continue` outside of every loop, or an operation that
      cannot be emitted. Otherwise the context is as before, except for the loop numbers used up, and the code does
      what the expression does.
    */
    method EmitExpr(mode: Mode, e: Expr) returns (r: Checked<seq<S.Code>>)
      requires NoEmptyEntry(backend) && ProperStacks(labels, loopResults)
      modifies this
      ensures r.Ok? <==> S.Emittable(e, old(labels) != [])
      ensures r.Ok? ==> Current() == old(Current()) && labels == old(labels) && loopResults == old(loopResults)
      ensures r.Ok? ==> S.Emitted(r.value, old(labels), old(nextLabel), nextLabel, S.Jumps(e))
      ensures r.Ok? ==> R.Implements(r.value, UseOf(mode), mode == Tail, labels, Slots(), e)
      ensures r.Ok? && (UseOf(mode) == R.Returned || D.Diverges(e)) ==> D.NeverFalls(r.value)
      decreases e, 2
    {
      if e.Let? {
        r := EmitLetOrCall(mode, e.local, e.op, e.body);
      } else {
        r := EmitLast(mode, e);
      }
      if r.Ok? && (UseOf(mode) == R.Returned || D.Diverges(e)) {
        D.ImplementsNeverFalls(r.value, UseOf(mode), mode == Tail, labels, Slots(), e);
      }
    }

    /** The expressions at the end of a chain of lets. */
    method EmitLast(mode: Mode, e: Expr) returns (r: Checked<seq<S.Code>>)
      requires !e.Let? && ProperStacks(labels, loopResults)
      ensures r.Ok? <==> S.Emittable(e, labels != [])
      ensures r.Ok? ==> S.Emitted(r.value, labels, nextLabel, nextLabel, S.Jumps(e))
      ensures r.Ok? ==> R.Implements(r.value, UseOf(mode), mode == Tail, labels, Slots(), e)
    {
      match e
      case Return(result) =>
        var code := if result.Some? then [S.Push(result.value), S.Ret] else [S.Ret];
        S.EmittedStraight(code, labels, nextLabel);
        R.ReturnCode(result, UseOf(mode), mode == Tail, labels, Slots());
        r := Ok(code);
      case AtomExpr(a) =>
        r := EmitAtom(mode, a);
      case Break(result) =>
        r := EmitBreak(mode, result);
      case Continue =>
        r := EmitContinue(mode);
    }

    method EmitAtom(mode: Mode, a: Atom) returns (r: Checked<seq<S.Code>>)
      ensures r.Ok? && S.Emitted(r.value, labels, nextLabel, nextLabel, [])
      ensures R.Implements(r.value, UseOf(mode), mode == Tail, labels, Slots(), AtomExpr(a))
    {
      var code := [S.Push(a)];
      if mode == Tail && oracle.hasResult {
        code := code + [S.Ret];
        assert code == [S.Push(a), S.Ret];
      } else if mode != Value {
        code := code + [S.Drop];
        assert code == [S.Push(a), S.Drop];
      }
      S.EmittedStraight(code, labels, nextLabel);
      R.AtomCode(a, mode == Tail, labels, Slots());
      r := Ok(code);
    }

    /** `emit_break`. */
    method EmitBreak(mode: Mode, result: Option<Atom>) returns (r: Checked<seq<S.Code>>)
      requires ProperStacks(labels, loopResults)
      ensures r.Ok? <==> labels != []
      ensures r.Ok? ==> S.Emitted(r.value, labels, nextLabel, nextLabel, [S.JumpTo(1)])
      ensures r.Ok? ==> R.Implements(r.value, UseOf(mode), mode == Tail, labels, Slots(), Break(result))
    {
      if labels == [] { return Aborted; }
      var expected := loopResults[|loopResults| - 1];
      var value := if result.Some? then S.Push(result.value) else S.Placeholder(expected.value);
      S.EmittedJumps(value, labels, nextLabel);
      R.BreakCode(result, UseOf(mode), mode == Tail, labels, Slots());
      r := Ok([value, S.Br(labels[|labels| - 1].0)]);
    }

    /** `emit_continue`. */
    method EmitContinue(mode: Mode) returns (r: Checked<seq<S.Code>>)
      requires ProperStacks(labels, loopResults)
      ensures r.Ok? <==> labels != []
      ensures r.Ok? ==> S.Emitted(r.value, labels, nextLabel, nextLabel, [S.JumpTo(0)])
      ensures r.Ok? ==> R.Implements(r.value, UseOf(mode), mode == Tail, labels, Slots(), Continue)
    {
      if labels == [] { return Aborted; }
      S.EmittedJumps(S.Drop, labels, nextLabel);
      R.ContinueCode(UseOf(mode), mode == Tail, labels, Slots());
      r := Ok([S.Br(labels[|labels| - 1].1)]);
    }

    /** A let, or a call in tail position whose result is what the function returns (`emit_tail_let_call`). */
    method EmitLetOrCall(mode: Mode, local: nat, op: Op, body: Expr) returns (r: Checked<seq<S.Code>>)
      requires NoEmptyEntry(backend) && ProperStacks(labels, loopResults)
      modifies this
      ensures r.Ok? <==> S.Emittable(Let(local, op, body), old(labels) != [])
      ensures r.Ok? ==> Current() == old(Current()) && labels == old(labels) && loopResults == old(loopResults)
      ensures r.Ok? ==> S.Emitted(r.value, old(labels), old(nextLabel), nextLabel, S.Jumps(Let(local, op, body)))
      ensures r.Ok? ==> R.Implements(r.value, UseOf(mode), mode == Tail, labels, Slots(), Let(local, op, body))
      decreases Let(local, op, body), 1
    {
      if mode == Tail && op.ACall? && R.ReturnsLocal(body, local) {
        asked := asked + 1;
        if oracle.tailCall(asked, Current(), op) {
          S.EmittedStraight([S.TailCall(op)], labels, nextLabel);
          R.TailCallCode(local, op, body, UseOf(mode), labels, Slots());
          return Ok([S.TailCall(op)]);
        }
      }
      r := EmitLet(mode, local, op, body);
    }

    /** `emit_let_expr`. */
    method EmitLet(mode: Mode, local: nat, op: Op, body: Expr) returns (r: Checked<seq<S.Code>>)
      requires NoEmptyEntry(backend) && ProperStacks(labels, loopResults)
      modifies this
      ensures r.Ok? <==> S.Emittable(Let(local, op, body), old(labels) != [])
      ensures r.Ok? ==> Current() == old(Current()) && labels == old(labels) && loopResults == old(loopResults)
      ensures r.Ok? ==> S.Emitted(r.value, old(labels), old(nextLabel), nextLabel, S.Jumps(Let(local, op, body)))
      ensures r.Ok? ==> R.Implements(r.value, UseOf(mode), mode == Tail, labels, Slots(), Let(local, op, body))
      decreases Let(local, op, body), 0, 1
    {
      ghost var base := Current();
      var log := PushLet(local, op);
      r := EmitBound(mode, local, op, body);
      if r.Aborted? { return Aborted; }
      Restore(log, base);
    }

    /** The operation and the body of a let, with the local bound. */
    method EmitBound(mode: Mode, local: nat, op: Op, body: Expr) returns (r: Checked<seq<S.Code>>)
      requires NoEmptyEntry(backend) && ProperStacks(labels, loopResults)
      modifies this
      ensures r.Ok? <==> S.Emittable(Let(local, op, body), old(labels) != [])
      ensures r.Ok? ==> Current() == old(Current()) && labels == old(labels) && loopResults == old(loopResults)
      ensures r.Ok? ==> S.Emitted(r.value, old(labels), old(nextLabel), nextLabel, S.Jumps(Let(local, op, body)))
      ensures r.Ok? ==> R.Implements(r.value, UseOf(mode), mode == Tail, labels, Slots(), Let(local, op, body))
      decreases Let(local, op, body), 0, 0
    {
      var binding := EmitOp(local, op);
      if binding.Aborted? { return Aborted; }
      ghost var middle := nextLabel;
      var rest := EmitExpr(mode, body);
      if rest.Aborted? { return Aborted; }
      LetEmitted(binding.value, rest.value, labels, old(nextLabel), middle, nextLabel, local, op, body, UseOf(mode),
                 mode == Tail, Slots());
      r := Ok(binding.value + rest.value);
    }

    /** `emit_let_binding`. */
    method EmitOp(local: nat, op: Op) returns (r: Checked<seq<S.Code>>)
      requires NoEmptyEntry(backend) && ProperStacks(labels, loopResults)
      modifies this
      ensures r.Ok? <==> S.EmittableOp(op, old(labels) != [])
      ensures r.Ok? ==> Current() == old(Current()) && labels == old(labels) && loopResults == old(loopResults)
      ensures r.Ok? ==> S.Emitted(r.value, old(labels), old(nextLabel), nextLabel, S.JumpsOfOp(op))
      ensures r.Ok? ==> R.Binds(r.value, labels, Slots(), local, op)
      ensures r.Ok? && D.OpDiverges(op) ==> D.NeverFalls(r.value)
      decreases op, 2
    {
      match op
      case ADefer(_) =>
        return Aborted;
      case AIf(_, _, _) =>
        r := EmitNested(local, op);
      case AMatch(_, _) =>
        r := EmitNested(local, op);
      case ALoop(_) =>
        r := EmitNested(local, op);
      case _ =>
        r := EmitSimple(local, op);
    }

    /** Operations without a nested expression. */
    method EmitSimple(local: nat, op: Op) returns (r: Checked<seq<S.Code>>)
      requires R.IsPlain(op) || op.AInit? || op.AAssign?
      ensures r.Ok? && S.Emitted(r.value, labels, nextLabel, nextLabel, S.JumpsOfOp(op))
      ensures R.Binds(r.value, labels, Slots(), local, op)
    {
      var code;
      match op {
        case AInit(value) =>
          code := [S.Push(value), S.Set(local)];
          R.InitCode(local, value, labels, Slots());
        case AAssign(target, value) =>
          code := [S.Push(value), S.Set(target)] + [S.Unit(oracle.bindType(local)), S.Set(local)];
          R.AssignCode(local, target, value, labels, Slots());
        case _ =>
          code := [S.Do(op), S.Set(local)];
          R.PlainCode(local, op, labels, Slots());
      }
      S.EmittedStraight(code, labels, nextLabel);
      r := Ok(code);
    }

    /** The result of a nested operation is stored unless its code never falls through. */
    method EmitNested(local: nat, op: Op) returns (r: Checked<seq<S.Code>>)
      requires (op.AIf? || op.AMatch? || op.ALoop?) && NoEmptyEntry(backend) && ProperStacks(labels, loopResults)
      modifies this
      ensures r.Ok? <==> S.EmittableOp(op, old(labels) != [])
      ensures r.Ok? ==> Current() == old(Current()) && labels == old(labels) && loopResults == old(loopResults)
      ensures r.Ok? ==> S.Emitted(r.value, old(labels), old(nextLabel), nextLabel, S.JumpsOfOp(op))
      ensures r.Ok? ==> R.Binds(r.value, labels, Slots(), local, op)
      ensures r.Ok? && D.OpDiverges(op) ==> D.NeverFalls(r.value)
      decreases op, 1
    {
      r := EmitValue(local, op);
      if r.Aborted? { return Aborted; }
      if D.OpDiverges(op) {
        D.DivergingCode(r.value, local, op, labels, Slots());
        return r;
      }
      S.EmittedAround([], r.value, [S.Set(local)], labels, old(nextLabel), nextLabel, S.JumpsOfOp(op));
      R.StoreCode(r.value, local, op, labels, Slots());
      r := Ok(r.value + [S.Set(local)]);
    }

    method EmitValue(local: nat, op: Op) returns (r: Checked<seq<S.Code>>)
      requires (op.AIf? || op.AMatch? || op.ALoop?) && NoEmptyEntry(backend) && ProperStacks(labels, loopResults)
      modifies this
      ensures r.Ok? <==> S.EmittableOp(op, old(labels) != [])
      ensures r.Ok? ==> Current() == old(Current()) && labels == old(labels) && loopResults == old(loopResults)
      ensures r.Ok? ==> S.Emitted(r.value, old(labels), old(nextLabel), nextLabel, S.JumpsOfOp(op))
      ensures r.Ok? ==> R.Computes(r.value, labels, Slots(), local, op)
      decreases op, 0, |if op.AMatch? then op.arms else []| + 1
    {
      if op.AIf? {
        r := EmitIf(local, op);
      } else if op.AMatch? {
        var (mono, iter) := oracle.scrutinee(asked, Current(), op.scrutinee);
        asked := asked + 1;
        assert op.arms[0..] == op.arms;
        r := EmitArms(op, 0, mono, iter);
        if r.Ok? {
          R.MatchCode(r.value, local, op, labels, Slots());
        }
      } else {
        r := EmitLoop(local, op);
      }
    }

    method EmitIf(local: nat, op: Op) returns (r: Checked<seq<S.Code>>)
      requires op.AIf? && NoEmptyEntry(backend) && ProperStacks(labels, loopResults)
      modifies this
      ensures r.Ok? <==> S.EmittableOp(op, old(labels) != [])
      ensures r.Ok? ==> Current() == old(Current()) && labels == old(labels) && loopResults == old(loopResults)
      ensures r.Ok? ==> S.Emitted(r.value, old(labels), old(nextLabel), nextLabel, S.JumpsOfOp(op))
      ensures r.Ok? ==> R.Computes(r.value, labels, Slots(), local, op)
      decreases op, 0, 0
    {
      var thenBody := EmitExpr(Value, op.thenBranch);
      if thenBody.Aborted? { return Aborted; }
      ghost var middle := nextLabel;
      var elseBody := EmitExpr(Value, op.elseBranch);
      if elseBody.Aborted? { return Aborted; }
      S.EmittedIf(S.Push(op.cond), thenBody.value, elseBody.value, labels, old(nextLabel), middle, nextLabel,
                  S.Jumps(op.thenBranch), S.Jumps(op.elseBranch));
      R.IfCode(thenBody.value, elseBody.value, local, op, labels, Slots());
      r := Ok([S.Push(op.cond), S.IfElse(thenBody.value, elseBody.value)]);
    }

    /**
      `emit_loop_op`: fresh labels, both stacks one deeper while the body is emitted. Control never gets to the
      `unreachable` behind the loop.
    */
    method EmitLoop(local: nat, op: Op) returns (r: Checked<seq<S.Code>>)
      requires op.ALoop? && NoEmptyEntry(backend) && ProperStacks(labels, loopResults)
      modifies this
      ensures r.Ok? <==> S.EmittableOp(op, old(labels) != [])
      ensures r.Ok? ==> Current() == old(Current()) && labels == old(labels) && loopResults == old(loopResults)
      ensures r.Ok? ==> S.Emitted(r.value, old(labels), old(nextLabel), nextLabel, S.JumpsOfOp(op))
      ensures r.Ok? ==> R.Computes(r.value, labels, Slots(), local, op)
      ensures r.Ok? ==> exists breakLabel, loopCode :: r.value == [S.Block(breakLabel, [loopCode, S.Halt])]
                                                       && D.NeverFalls([loopCode])
      decreases op, 0, 0
    {
      var id := nextLabel;
      nextLabel := nextLabel + 1;
      var breakLabel, contLabel := S.BreakLabel(id), S.ContLabel(id);
      labels := labels + [(breakLabel, contLabel)];
      loopResults := loopResults + [Some(oracle.bindType(local))];
      var body := EmitExpr(LoopBody, op.body);
      if body.Aborted? { return Aborted; }
      loopResults := loopResults[..|loopResults| - 1];
      labels := labels[..|labels| - 1];
      S.EmittedLoop(body.value, labels, id, nextLabel, S.Jumps(op.body));
      R.LoopCode(body.value, id, local, op, labels, Slots());
      D.LoopNeverFalls(body.value, id);
      r := Ok([S.Block(breakLabel, [S.Loop(contLabel, body.value + [S.Br(contLabel)]), S.Halt])]);
    }

    /** `emit_match_arm_chain` from arm `i` on. */
    method EmitArms(op: Op, i: nat, expected: Option<MonoType>, iter: Option<IterInfo>)
      returns (r: Checked<seq<S.Code>>)
      requires op.AMatch? && i <= |op.arms| && NoEmptyEntry(backend) && ProperStacks(labels, loopResults)
      modifies this
      ensures r.Ok? <==> S.EmittableArms(op.arms[i..], old(labels) != [])
      ensures r.Ok? ==> Current() == old(Current()) && labels == old(labels) && loopResults == old(loopResults)
      ensures r.Ok? ==> S.Emitted(r.value, old(labels), old(nextLabel), nextLabel, S.JumpsOfArms(op.arms[i..]))
      ensures r.Ok? ==> R.Chains(r.value, labels, Slots(), op.scrutinee, op.arms[i..])
      decreases op, 0, |op.arms| - i
    {
      if i == |op.arms| {
        S.EmittedStraight([S.Halt, S.Halt], labels, nextLabel);
        R.FallbackCode(op.scrutinee, labels, Slots());
        return Ok([S.Halt, S.Halt]);
      }
      var arm := op.arms[i];
      var body := EmitArm(op, i, expected, iter);
      if body.Aborted? { return Aborted; }
      ghost var middle := nextLabel;
      assert op.arms[i..][0] == arm && op.arms[i..][1..] == op.arms[i + 1..];
      var elseBody := EmitArms(op, i + 1, expected, iter);
      if elseBody.Aborted? { return Aborted; }
      var others := Padded(elseBody.value, op.scrutinee, op.arms[i + 1..], middle, nextLabel);
      S.EmittedIf(S.Test(op.scrutinee, arm.pattern), body.value, others, labels, old(nextLabel), middle, nextLabel,
                  S.Jumps(arm.body), S.JumpsOfArms(op.arms[i + 1..]));
      R.ChainCode(body.value, others, op.scrutinee, op.arms[i..], labels, Slots());
      r := Ok([S.Test(op.scrutinee, arm.pattern), S.IfElse(body.value, others)]);
    }

    /** The `unreachable` behind a chain of diverging arms, where control never gets. */
    method Padded(code: seq<S.Code>, scrutinee: Atom, arms: seq<Arm>, ghost n: nat, ghost m: nat)
      returns (r: seq<S.Code>)
      requires S.Emitted(code, labels, n, m, S.JumpsOfArms(arms))
      requires R.Chains(code, labels, Slots(), scrutinee, arms)
      ensures r == code || (r == code + [S.Halt] && D.NeverFalls(code))
      ensures S.Emitted(r, labels, n, m, S.JumpsOfArms(arms)) && R.Chains(r, labels, Slots(), scrutinee, arms)
    {
      if !D.ArmsDiverge(arms) { return code; }
      S.EmittedAround([], code, [S.Halt], labels, n, m, S.JumpsOfArms(arms));
      D.DivergingChain(code, [S.Halt], scrutinee, arms, labels, Slots());
      r := code + [S.Halt];
    }

    /** The bindings and the body of one arm, with the variables of its pattern bound. */
    method EmitArm(op: Op, i: nat, expected: Option<MonoType>, iter: Option<IterInfo>)
      returns (r: Checked<seq<S.Code>>)
      requires op.AMatch? && i < |op.arms| && NoEmptyEntry(backend) && ProperStacks(labels, loopResults)
      modifies this
      ensures r.Ok? <==> S.Emittable(op.arms[i].body, old(labels) != [])
      ensures r.Ok? ==> Current() == old(Current()) && labels == old(labels) && loopResults == old(loopResults)
      ensures r.Ok? ==> S.Emitted(r.value, old(labels), old(nextLabel), nextLabel, S.Jumps(op.arms[i].body))
      ensures r.Ok? ==> R.Enters(r.value, labels, Slots(), op.scrutinee, op.arms[i])
      decreases op, 0, 0
    {
      ghost var base := Current();
      var arm := op.arms[i];
      StartLog(base);
      var log := PushPattern(arm.pattern, expected, iter, NO_LOG, base);
      var body := EmitExpr(Value, arm.body);
      if body.Aborted? { return Aborted; }
      var left := RestoreMonos(log, base);
      EndOfLog(base, Current());
      S.EmittedAround([S.Bind(op.scrutinee, arm.pattern)], body.value, [], labels, old(nextLabel), nextLabel,
                      S.Jumps(arm.body));
      R.ArmCode(body.value, op.scrutinee, arm, labels, Slots());
      r := Ok([S.Bind(op.scrutinee, arm.pattern)] + body.value);
    }
  }

  /**
    A whole function body: every label is defined once, every branch goes where the source says, control never falls
    off the end of a function with a result, and the code does what the body does.
  */
  method EmitFunction(oracle: Oracle, body: Expr) returns (r: Checked<seq<S.Code>>)
    ensures r.Ok? <==> S.Emittable(body, false)
    ensures r.Ok? ==> S.Resolve(r.value, []) == S.Jumps(body)
    ensures r.Ok? ==> NoDup(S.Defined(r.value))
    ensures r.Ok? && (oracle.hasResult || D.Diverges(body)) ==> D.NeverFalls(r.value)
    ensures r.Ok? ==> R.Implements(r.value, if oracle.hasResult then R.Returned else R.Dropped, true, [],
                                   R.Slots(oracle.bindType, None), body)
  {
    var emitter := new Emitter(oracle);
    r := emitter.EmitExpr(Tail, body);
    S.FreshAreDistinct(0, emitter.nextLabel);
  }
}
