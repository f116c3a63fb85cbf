/** What the backend knows about each local while it emits code, and the logs that take it back to an earlier state. */
module FlowContext {
  import opened Base
  import opened Mono

  datatype ValueRepr = TypedClosure(params: seq<MonoType>, ret: MonoType) | TypedCell(elem: MonoType)

  datatype SumRepr = ErasedVariant | TypedOption(mono: MonoType) | TypedResult(mono: MonoType)

  datatype BackendInfo = BackendInfo(
    repr: Option<ValueRepr>,
    builderElem: Option<MonoType>,
    iterState: Option<IterInfo>,
    iterNext: Option<IterInfo>,
    iterItem: Option<IterInfo>,
    sumRepr: Option<SumRepr>)

  const EMPTY := BackendInfo(None, None, None, None, None, None)

  type Monos = map<nat, MonoType>
  type Backend = map<nat, BackendInfo>

  datatype Flow = Flow(monos: Monos, backend: Backend)

  // ----- Maps without empty entries -----

  function MonoAt(m: Monos, l: nat): (r: Option<MonoType>) { if l in m then Some(m[l]) else None }

  function InfoAt(b: Backend, l: nat): (r: BackendInfo) { if l in b then b[l] else EMPTY }

  /** The invariant of the metadata: a local about which nothing is known has no entry. */
  predicate NoEmptyEntry(b: Backend) { forall l | l in b :: b[l] != EMPTY }

  function PutMono(m: Monos, l: nat, t: Option<MonoType>): (r: Monos)
    ensures MonoAt(r, l) == t && forall k: nat | k != l :: MonoAt(r, k) == MonoAt(m, k)
  {
    if t.Some? then m[l := t.value] else m - {l}
  }

  /** Write back an entry, or drop it when it has become empty. */
  function PutInfo(b: Backend, l: nat, info: BackendInfo): (r: Backend)
    ensures NoEmptyEntry(b) ==> NoEmptyEntry(r)
    ensures InfoAt(r, l) == info && forall k: nat | k != l :: InfoAt(r, k) == InfoAt(b, k)
  {
    if info == EMPTY then b - {l} else b[l := info]
  }

  /** Maps are equal when they say the same about every local. */
  lemma SameMonos(a: Monos, b: Monos)
    requires forall l: nat :: MonoAt(a, l) == MonoAt(b, l)
    ensures a == b
  {
    assert forall l: nat :: l in a <==> MonoAt(a, l).Some?;
    assert forall l: nat :: l in b <==> MonoAt(b, l).Some?;
    assert forall l: nat | l in a :: MonoAt(a, l) == Some(a[l]) && MonoAt(b, l) == Some(b[l]);
  }

  lemma SameBackend(a: Backend, b: Backend)
    requires NoEmptyEntry(a) && NoEmptyEntry(b)
    requires forall l: nat :: InfoAt(a, l) == InfoAt(b, l)
    ensures a == b
  {
    assert forall l: nat :: l in a <==> InfoAt(a, l) != EMPTY;
    assert forall l: nat :: l in b <==> InfoAt(b, l) != EMPTY;
    assert forall l: nat | l in a :: InfoAt(a, l) == a[l] && InfoAt(b, l) == b[l];
  }

  // ----- Restore logs -----

  type Restores<T> = seq<(nat, Option<T>)>

  /** What undoing the log, last entry first, makes of the value `cur` of local `l`. */
  function Undone<T>(log: Restores<T>, l: nat, cur: Option<T>): (r: Option<T>) {
    if log == [] then cur
    else var last := log[|log| - 1]; Undone(log[..|log| - 1], l, if last.0 == l then last.1 else cur)
  }

  lemma UndonePush<T>(log: Restores<T>, k: nat, prev: Option<T>, l: nat, cur: Option<T>)
    ensures Undone(log + [(k, prev)], l, cur) == Undone(log, l, if k == l then prev else cur)
  {
    var next := log + [(k, prev)];
    assert next[..|next| - 1] == log && next[|next| - 1] == (k, prev);
  }

  /** The five restore stacks of a let. */
  datatype Log = Log(
    monos: Restores<MonoType>,
    repr: Restores<ValueRepr>,
    builder: Restores<MonoType>,
    iter: Restores<IterInfo>,
    sum: Restores<SumRepr>)

  const NO_LOG := Log([], [], [], [], [])

  /** Undoing `log` takes what is known about local `l` from `cur` back to `base`. */
  predicate LeadsBackAt(base: BackendInfo, cur: BackendInfo, log: Log, l: nat) {
    Undone(log.repr, l, cur.repr) == base.repr
    && Undone(log.builder, l, cur.builderElem) == base.builderElem
    && Undone(log.iter, l, cur.iterState) == base.iterState
    && Undone(log.sum, l, cur.sumRepr) == base.sumRepr
    && cur.iterNext == base.iterNext && cur.iterItem == base.iterItem
  }

  ghost predicate LeadsBack(base: Flow, cur: Flow, log: Log) {
    NoEmptyEntry(base.backend) && NoEmptyEntry(cur.backend)
    && (forall l: nat :: Undone(log.monos, l, MonoAt(cur.monos, l)) == MonoAt(base.monos, l))
    && (forall l: nat :: LeadsBackAt(InfoAt(base.backend, l), InfoAt(cur.backend, l), log, l))
  }

  lemma StartLog(base: Flow)
    requires NoEmptyEntry(base.backend)
    ensures LeadsBack(base, base, NO_LOG)
  {
  }

  /** With nothing left in the log, the state is the old one. */
  lemma EndOfLog(base: Flow, cur: Flow)
    requires LeadsBack(base, cur, NO_LOG)
    ensures cur == base
  {
    forall l: nat
      ensures MonoAt(cur.monos, l) == MonoAt(base.monos, l) && InfoAt(cur.backend, l) == InfoAt(base.backend, l)
    {
      assert LeadsBackAt(InfoAt(base.backend, l), InfoAt(cur.backend, l), NO_LOG, l);
      assert Undone(NO_LOG.monos, l, MonoAt(cur.monos, l)) == MonoAt(base.monos, l);
    }
    SameMonos(cur.monos, base.monos);
    SameBackend(cur.backend, base.backend);
  }

  // One pair of lemmas for each stack: a push logs what it overwrites, and a pop writes it back.

  lemma PushMono(base: Flow, cur: Flow, log: Log, k: nat, t: Option<MonoType>)
    requires LeadsBack(base, cur, log)
    ensures LeadsBack(base, cur.(monos := PutMono(cur.monos, k, t)),
                      log.(monos := log.monos + [(k, MonoAt(cur.monos, k))]))
  {
    var next := PutMono(cur.monos, k, t);
    forall l: nat
      ensures Undone(log.monos + [(k, MonoAt(cur.monos, k))], l, MonoAt(next, l)) == MonoAt(base.monos, l)
    {
      UndonePush(log.monos, k, MonoAt(cur.monos, k), l, MonoAt(next, l));
    }
    SameLog(base, cur, log, log.(monos := log.monos + [(k, MonoAt(cur.monos, k))]));
  }

  /** The mono stack has no bearing on the other metadata. */
  lemma SameLog(base: Flow, cur: Flow, log: Log, log': Log)
    requires LeadsBack(base, cur, log) && log' == log.(monos := log'.monos)
    ensures forall l: nat :: LeadsBackAt(InfoAt(base.backend, l), InfoAt(cur.backend, l), log', l)
  {
    forall l: nat
      ensures LeadsBackAt(InfoAt(base.backend, l), InfoAt(cur.backend, l), log', l)
    {
      assert LeadsBackAt(InfoAt(base.backend, l), InfoAt(cur.backend, l), log, l);
    }
  }

  lemma PopMono(base: Flow, cur: Flow, log: Log)
    requires LeadsBack(base, cur, log) && log.monos != []
    ensures var last := log.monos[|log.monos| - 1];
            LeadsBack(base, cur.(monos := PutMono(cur.monos, last.0, last.1)),
                      log.(monos := log.monos[..|log.monos| - 1]))
  {
    var last, front := log.monos[|log.monos| - 1], log.monos[..|log.monos| - 1];
    var next := PutMono(cur.monos, last.0, last.1);
    forall l: nat
      ensures Undone(front, l, MonoAt(next, l)) == MonoAt(base.monos, l)
    {
      assert Undone(log.monos, l, MonoAt(cur.monos, l)) == MonoAt(base.monos, l);
    }
    SameLog(base, cur, log, log.(monos := front));
  }

  function WithRepr(b: Backend, k: nat, x: Option<ValueRepr>): (r: Backend)
    ensures NoEmptyEntry(b) ==> NoEmptyEntry(r)
    ensures InfoAt(r, k) == InfoAt(b, k).(repr := x) && forall l: nat | l != k :: InfoAt(r, l) == InfoAt(b, l)
  {
    PutInfo(b, k, InfoAt(b, k).(repr := x))
  }

  lemma PushRepr(base: Flow, cur: Flow, log: Log, k: nat, x: Option<ValueRepr>)
    requires LeadsBack(base, cur, log)
    ensures LeadsBack(base, cur.(backend := WithRepr(cur.backend, k, x)),
                      log.(repr := log.repr + [(k, InfoAt(cur.backend, k).repr)]))
  {
    var next, prev := WithRepr(cur.backend, k, x), InfoAt(cur.backend, k).repr;
    forall l: nat
      ensures LeadsBackAt(InfoAt(base.backend, l), InfoAt(next, l), log.(repr := log.repr + [(k, prev)]), l)
    {
      assert LeadsBackAt(InfoAt(base.backend, l), InfoAt(cur.backend, l), log, l);
      UndonePush(log.repr, k, prev, l, InfoAt(next, l).repr);
    }
  }

  lemma PopRepr(base: Flow, cur: Flow, log: Log)
    requires LeadsBack(base, cur, log) && log.repr != []
    ensures var last := log.repr[|log.repr| - 1];
            LeadsBack(base, cur.(backend := WithRepr(cur.backend, last.0, last.1)),
                      log.(repr := log.repr[..|log.repr| - 1]))
  {
    var last := log.repr[|log.repr| - 1];
    var next := WithRepr(cur.backend, last.0, last.1);
    forall l: nat
      ensures LeadsBackAt(InfoAt(base.backend, l), InfoAt(next, l), log.(repr := log.repr[..|log.repr| - 1]), l)
    {
      assert LeadsBackAt(InfoAt(base.backend, l), InfoAt(cur.backend, l), log, l);
    }
  }

  function WithBuilder(b: Backend, k: nat, x: Option<MonoType>): (r: Backend)
    ensures NoEmptyEntry(b) ==> NoEmptyEntry(r)
    ensures InfoAt(r, k) == InfoAt(b, k).(builderElem := x) && forall l: nat | l != k :: InfoAt(r, l) == InfoAt(b, l)
  {
    PutInfo(b, k, InfoAt(b, k).(builderElem := x))
  }

  lemma PushBuilder(base: Flow, cur: Flow, log: Log, k: nat, x: Option<MonoType>)
    requires LeadsBack(base, cur, log)
    ensures LeadsBack(base, cur.(backend := WithBuilder(cur.backend, k, x)),
                      log.(builder := log.builder + [(k, InfoAt(cur.backend, k).builderElem)]))
  {
    var next, prev := WithBuilder(cur.backend, k, x), InfoAt(cur.backend, k).builderElem;
    forall l: nat
      ensures LeadsBackAt(InfoAt(base.backend, l), InfoAt(next, l), log.(builder := log.builder + [(k, prev)]), l)
    {
      assert LeadsBackAt(InfoAt(base.backend, l), InfoAt(cur.backend, l), log, l);
      UndonePush(log.builder, k, prev, l, InfoAt(next, l).builderElem);
    }
  }

  lemma PopBuilder(base: Flow, cur: Flow, log: Log)
    requires LeadsBack(base, cur, log) && log.builder != []
    ensures var last := log.builder[|log.builder| - 1];
            LeadsBack(base, cur.(backend := WithBuilder(cur.backend, last.0, last.1)),
                      log.(builder := log.builder[..|log.builder| - 1]))
  {
    var last := log.builder[|log.builder| - 1];
    var next := WithBuilder(cur.backend, last.0, last.1);
    forall l: nat
      ensures LeadsBackAt(InfoAt(base.backend, l), InfoAt(next, l), log.(builder := log.builder[..|log.builder| - 1]),
                          l)
    {
      assert LeadsBackAt(InfoAt(base.backend, l), InfoAt(cur.backend, l), log, l);
    }
  }

  function WithIter(b: Backend, k: nat, x: Option<IterInfo>): (r: Backend)
    ensures NoEmptyEntry(b) ==> NoEmptyEntry(r)
    ensures InfoAt(r, k) == InfoAt(b, k).(iterState := x) && forall l: nat | l != k :: InfoAt(r, l) == InfoAt(b, l)
  {
    PutInfo(b, k, InfoAt(b, k).(iterState := x))
  }

  lemma PushIter(base: Flow, cur: Flow, log: Log, k: nat, x: Option<IterInfo>)
    requires LeadsBack(base, cur, log)
    ensures LeadsBack(base, cur.(backend := WithIter(cur.backend, k, x)),
                      log.(iter := log.iter + [(k, InfoAt(cur.backend, k).iterState)]))
  {
    var next, prev := WithIter(cur.backend, k, x), InfoAt(cur.backend, k).iterState;
    forall l: nat
      ensures LeadsBackAt(InfoAt(base.backend, l), InfoAt(next, l), log.(iter := log.iter + [(k, prev)]), l)
    {
      assert LeadsBackAt(InfoAt(base.backend, l), InfoAt(cur.backend, l), log, l);
      UndonePush(log.iter, k, prev, l, InfoAt(next, l).iterState);
    }
  }

  lemma PopIter(base: Flow, cur: Flow, log: Log)
    requires LeadsBack(base, cur, log) && log.iter != []
    ensures var last := log.iter[|log.iter| - 1];
            LeadsBack(base, cur.(backend := WithIter(cur.backend, last.0, last.1)),
                      log.(iter := log.iter[..|log.iter| - 1]))
  {
    var last := log.iter[|log.iter| - 1];
    var next := WithIter(cur.backend, last.0, last.1);
    forall l: nat
      ensures LeadsBackAt(InfoAt(base.backend, l), InfoAt(next, l), log.(iter := log.iter[..|log.iter| - 1]), l)
    {
      assert LeadsBackAt(InfoAt(base.backend, l), InfoAt(cur.backend, l), log, l);
    }
  }

  function WithSum(b: Backend, k: nat, x: Option<SumRepr>): (r: Backend)
    ensures NoEmptyEntry(b) ==> NoEmptyEntry(r)
    ensures InfoAt(r, k) == InfoAt(b, k).(sumRepr := x) && forall l: nat | l != k :: InfoAt(r, l) == InfoAt(b, l)
  {
    PutInfo(b, k, InfoAt(b, k).(sumRepr := x))
  }

  lemma PushSum(base: Flow, cur: Flow, log: Log, k: nat, x: Option<SumRepr>)
    requires LeadsBack(base, cur, log)
    ensures LeadsBack(base, cur.(backend := WithSum(cur.backend, k, x)),
                      log.(sum := log.sum + [(k, InfoAt(cur.backend, k).sumRepr)]))
  {
    var next, prev := WithSum(cur.backend, k, x), InfoAt(cur.backend, k).sumRepr;
    forall l: nat
      ensures LeadsBackAt(InfoAt(base.backend, l), InfoAt(next, l), log.(sum := log.sum + [(k, prev)]), l)
    {
      assert LeadsBackAt(InfoAt(base.backend, l), InfoAt(cur.backend, l), log, l);
      UndonePush(log.sum, k, prev, l, InfoAt(next, l).sumRepr);
    }
  }

  lemma PopSum(base: Flow, cur: Flow, log: Log)
    requires LeadsBack(base, cur, log) && log.sum != []
    ensures var last := log.sum[|log.sum| - 1];
            LeadsBack(base, cur.(backend := WithSum(cur.backend, last.0, last.1)),
                      log.(sum := log.sum[..|log.sum| - 1]))
  {
    var last := log.sum[|log.sum| - 1];
    var next := WithSum(cur.backend, last.0, last.1);
    forall l: nat
      ensures LeadsBackAt(InfoAt(base.backend, l), InfoAt(next, l), log.(sum := log.sum[..|log.sum| - 1]), l)
    {
      assert LeadsBackAt(InfoAt(base.backend, l), InfoAt(cur.backend, l), log, l);
    }
  }
}
