/** Exactly which sequences of heads can be read as a type in more than one way. */
module Ambiguity {
  import opened Base
  import opened Mono
  import opened Readings

  function Heads(ts: seq<Tok>): (hs: seq<Head>)
    ensures |hs| == |ts|
  {
    if ts == [] then [] else [ts[0].head] + Heads(ts[1..])
  }

  /** The position of the first function with parameters. */
  function FirstFn(ts: seq<Tok>): (i: nat)
    ensures i <= |ts|
  {
    if ts == [] || ts[0].head.FnHead? then 0 else 1 + FirstFn(ts[1..])
  }

  predicate NoFn(ts: seq<Tok>) { forall i | 0 <= i < |ts| :: !ts[i].head.FnHead? }

  /** Every function with parameters has one of them. */
  predicate OneParamEach(ts: seq<Tok>) { forall i | 0 <= i < |ts| :: ts[i].head.FnHead? ==> ts[i].n == 2 }

  /**
    The first function of a type has `n - 1` parameters, and `tail` follows. Its number of parameters is the only one
    possible if no function follows; or if all that follow have one parameter, so that none can give any up, and the
    first cannot either: because it has only one itself, or because at some place not behind the second function a
    single type is left to read, so that one type less would leave nothing.
  */
  predicate Pinned(n: nat, tail: seq<Tok>) {
    NoFn(tail)
    || (OneParamEach(tail) && (n == 2 || exists p :: 0 <= p <= FirstFn(tail) && Covers(tail[p..], 1)))
  }

  /** The heads of `ts` allow no other numbers of parameters. */
  predicate OneReading(ts: seq<Tok>) {
    ts == [] || if ts[0].head.FnHead? then Pinned(ts[0].n, ts[1..]) else OneReading(ts[1..])
  }

  // ----- No second reading -----

  lemma {:induction false} CoversUnique(ts: seq<Tok>, j: nat, k: nat)
    requires Covers(ts, j) && Covers(ts, k)
    ensures j == k
  {
    if ts != [] {
      CoversUnique(ts[1..], j - 1 + ts[0].n, k - 1 + ts[0].n);
    }
  }

  lemma FixedCount(arity: nat -> nat, t: Tok, u: Tok)
    requires Allowed(arity, t) && Allowed(arity, u) && t.head == u.head
    ensures !t.head.FnHead? ==> t == u
    ensures t.head.FnHead? && t.n == 2 ==> t.n <= u.n
  {
  }

  /** Functions of one parameter each owe the least to what follows. */
  lemma {:induction false} OneParamOwesMost(arity: nat -> nat, ts: seq<Tok>, us: seq<Tok>, j: nat, k: nat)
    requires AllAllowed(arity, ts) && AllAllowed(arity, us) && Heads(ts) == Heads(us)
    requires OneParamEach(ts) && Covers(ts, j) && Covers(us, k)
    ensures k <= j && (k == j ==> ts == us)
  {
    assert |ts| == |Heads(ts)| == |us|;
    if ts != [] {
      HeadsCons(ts);
      HeadsCons(us);
      FixedCount(arity, ts[0], us[0]);
      OneParamOwesMost(arity, ts[1..], us[1..], j - 1 + ts[0].n, k - 1 + us[0].n);
      assert ts == [ts[0]] + ts[1..] && us == [us[0]] + us[1..];
    }
  }

  lemma HeadsCons(ts: seq<Tok>)
    requires ts != []
    ensures Heads(ts)[0] == ts[0].head && Heads(ts)[1..] == Heads(ts[1..])
  {
  }

  /** Where a single type is left to read, nothing can be taken away before the next function. */
  lemma {:induction false} LastTypeBounds(arity: nat -> nat, ts: seq<Tok>, us: seq<Tok>, p: nat, j: nat, k: nat)
    requires AllAllowed(arity, ts) && AllAllowed(arity, us) && Heads(ts) == Heads(us)
    requires Covers(ts, j) && Covers(us, k) && p <= FirstFn(ts) < |ts| && Covers(ts[p..], 1)
    ensures j <= k
  {
    assert |ts| == |Heads(ts)| == |us|;
    if p == 0 {
      assert ts[0..] == ts;
      CoversUnique(ts, j, 1);
    } else {
      HeadsCons(ts);
      HeadsCons(us);
      FixedCount(arity, ts[0], us[0]);
      assert ts[1..][p - 1..] == ts[p..];
      LastTypeBounds(arity, ts[1..], us[1..], p - 1, j - 1 + ts[0].n, k - 1 + us[0].n);
    }
  }

  lemma {:induction false} FirstFnExists(ts: seq<Tok>)
    ensures NoFn(ts) <==> FirstFn(ts) == |ts|
    ensures FirstFn(ts) < |ts| ==> ts[FirstFn(ts)].head.FnHead?
  {
    if ts != [] && !ts[0].head.FnHead? {
      FirstFnExists(ts[1..]);
      assert NoFn(ts) <==> NoFn(ts[1..]) by {
        assert forall i | 0 <= i < |ts[1..]| :: ts[1..][i] == ts[i + 1];
        assert forall i | 1 <= i < |ts| :: ts[i] == ts[1..][i - 1];
      }
    }
  }

  lemma PinnedUnique(arity: nat -> nat, t: Tok, u: Tok, ts: seq<Tok>, us: seq<Tok>, k: nat)
    requires Allowed(arity, t) && Allowed(arity, u) && t.head == u.head == FnHead && Pinned(t.n, ts)
    requires AllAllowed(arity, ts) && AllAllowed(arity, us) && Heads(ts) == Heads(us) && k > 0
    requires Covers(ts, k - 1 + t.n) && Covers(us, k - 1 + u.n)
    ensures t == u && ts == us
  {
    FirstFnExists(ts);
    if NoFn(ts) {
      OneParamOwesMost(arity, ts, us, k - 1 + t.n, k - 1 + u.n);
      SameWithoutFn(arity, ts, us);
      CoversUnique(ts, k - 1 + t.n, k - 1 + u.n);
    } else {
      OneParamOwesMost(arity, ts, us, k - 1 + t.n, k - 1 + u.n);
      if t.n != 2 {
        var p :| 0 <= p <= FirstFn(ts) && Covers(ts[p..], 1);
        LastTypeBounds(arity, ts, us, p, k - 1 + t.n, k - 1 + u.n);
      }
    }
  }

  lemma {:induction false} SameWithoutFn(arity: nat -> nat, ts: seq<Tok>, us: seq<Tok>)
    requires AllAllowed(arity, ts) && AllAllowed(arity, us) && Heads(ts) == Heads(us) && NoFn(ts)
    ensures ts == us
  {
    assert |ts| == |Heads(ts)| == |us|;
    if ts != [] {
      HeadsCons(ts);
      HeadsCons(us);
      FixedCount(arity, ts[0], us[0]);
      SameWithoutFn(arity, ts[1..], us[1..]);
      assert ts == [ts[0]] + ts[1..] && us == [us[0]] + us[1..];
    }
  }

  lemma {:induction false} ReadingUnique(arity: nat -> nat, ts: seq<Tok>, us: seq<Tok>, k: nat)
    requires AllAllowed(arity, ts) && AllAllowed(arity, us) && Heads(ts) == Heads(us)
    requires Covers(ts, k) && Covers(us, k) && OneReading(ts)
    ensures ts == us
  {
    assert |ts| == |Heads(ts)| == |us|;
    if ts != [] {
      HeadsCons(ts);
      HeadsCons(us);
      if ts[0].head.FnHead? {
        PinnedUnique(arity, ts[0], us[0], ts[1..], us[1..], k);
      } else {
        FixedCount(arity, ts[0], us[0]);
        ReadingUnique(arity, ts[1..], us[1..], k - 1 + ts[0].n);
      }
      assert ts == [ts[0]] + ts[1..] && us == [us[0]] + us[1..];
    }
  }

  // ----- A second reading -----

  /** `us` is another reading of the heads of `ts`. */
  predicate IsOther(arity: nat -> nat, ts: seq<Tok>, us: seq<Tok>, k: nat) {
    us != ts && AllAllowed(arity, us) && Heads(us) == Heads(ts) && Covers(us, k)
  }

  function WithCount(ts: seq<Tok>, q: nat, n: nat): (us: seq<Tok>)
    requires q < |ts|
    ensures |us| == |ts|
  {
    ts[q := Tok(ts[q].head, n)]
  }

  lemma {:induction false} WithCountHeads(ts: seq<Tok>, q: nat, n: nat)
    requires q < |ts|
    ensures Heads(WithCount(ts, q, n)) == Heads(ts)
  {
    var us := WithCount(ts, q, n);
    if q == 0 {
      assert us[1..] == ts[1..];
    } else {
      WithCountHeads(ts[1..], q - 1, n);
      assert us[1..] == WithCount(ts[1..], q - 1, n);
    }
  }

  /** A function with one parameter less owes one type less to what precedes it. */
  lemma {:induction false} OneLess(ts: seq<Tok>, q: nat, k: nat)
    requires q < |ts| && ts[q].n > 0 && Covers(ts, k)
    ensures Covers(WithCount(ts, q, ts[q].n - 1), k + 1)
  {
    var us := WithCount(ts, q, ts[q].n - 1);
    if q == 0 {
      assert us[1..] == ts[1..];
    } else {
      OneLess(ts[1..], q - 1, k - 1 + ts[0].n);
      assert us[1..] == WithCount(ts[1..], q - 1, ts[q].n - 1);
    }
  }

  /** With two types owed all the way, a function can have one parameter more. */
  lemma {:induction false} OneMore(ts: seq<Tok>, q: nat, k: nat)
    requires q < |ts| && Covers(ts, k) && forall p | 0 <= p <= q :: !Covers(ts[p..], 1)
    ensures k > 1 && Covers(WithCount(ts, q, ts[q].n + 1), k - 1)
  {
    var us := WithCount(ts, q, ts[q].n + 1);
    assert !Covers(ts[0..], 1) && ts[0..] == ts;
    if q == 0 {
      assert us[1..] == ts[1..];
    } else {
      forall p | 0 <= p <= q - 1
        ensures !Covers(ts[1..][p..], 1)
      {
        assert ts[1..][p..] == ts[p + 1..];
      }
      OneMore(ts[1..], q - 1, k - 1 + ts[0].n);
      assert us[1..] == WithCount(ts[1..], q - 1, ts[q].n + 1);
    }
  }

  lemma HeadsOfCons(t: Tok, ts: seq<Tok>)
    ensures Heads([t] + ts) == [t.head] + Heads(ts)
  {
    assert ([t] + ts)[1..] == ts;
  }

  /** Give the first function a parameter of the function at `q`, or the other way round. */
  lemma Moved(arity: nat -> nat, ts: seq<Tok>, n: nat, us: seq<Tok>, k: nat)
    requires ts != [] && AllAllowed(arity, ts) && ts[0].head.FnHead? && n >= 2 && n != ts[0].n && k > 0
    requires AllAllowed(arity, us) && Heads(us) == Heads(ts[1..]) && Covers(us, k - 1 + n)
    ensures IsOther(arity, ts, [Tok(FnHead, n)] + us, k)
  {
    var other := [Tok(FnHead, n)] + us;
    assert other[1..] == us && other[0].n == n;
    HeadsOfCons(Tok(FnHead, n), us);
    assert ts == [ts[0]] + ts[1..];
    HeadsOfCons(ts[0], ts[1..]);
  }

  lemma MovedFromFirst(arity: nat -> nat, ts: seq<Tok>, k: nat) returns (us: seq<Tok>)
    requires ts != [] && AllAllowed(arity, ts) && Covers(ts, k) && ts[0].head.FnHead?
    requires !Pinned(ts[0].n, ts[1..]) && OneParamEach(ts[1..])
    ensures IsOther(arity, ts, us, k)
  {
    var tail := ts[1..];
    FirstFnExists(tail);
    var q := FirstFn(tail);
    assert AllAllowed(arity, tail) && Allowed(arity, ts[0]);
    OneMore(tail, q, k - 1 + ts[0].n);
    WithCountHeads(tail, q, tail[q].n + 1);
    us := [Tok(FnHead, ts[0].n - 1)] + WithCount(tail, q, tail[q].n + 1);
    Moved(arity, ts, ts[0].n - 1, WithCount(tail, q, tail[q].n + 1), k);
  }

  lemma MovedToFirst(arity: nat -> nat, ts: seq<Tok>, k: nat) returns (us: seq<Tok>)
    requires ts != [] && AllAllowed(arity, ts) && Covers(ts, k) && ts[0].head.FnHead? && !OneParamEach(ts[1..])
    ensures IsOther(arity, ts, us, k)
  {
    var tail := ts[1..];
    var q :| 0 <= q < |tail| && tail[q].head.FnHead? && tail[q].n != 2;
    assert AllAllowed(arity, tail) && Allowed(arity, tail[q]) && Allowed(arity, ts[0]);
    OneLess(tail, q, k - 1 + ts[0].n);
    WithCountHeads(tail, q, tail[q].n - 1);
    us := [Tok(FnHead, ts[0].n + 1)] + WithCount(tail, q, tail[q].n - 1);
    Moved(arity, ts, ts[0].n + 1, WithCount(tail, q, tail[q].n - 1), k);
  }

  lemma {:induction false} OtherReading(arity: nat -> nat, ts: seq<Tok>, k: nat) returns (us: seq<Tok>)
    requires AllAllowed(arity, ts) && Covers(ts, k) && !OneReading(ts)
    ensures IsOther(arity, ts, us, k)
  {
    if !ts[0].head.FnHead? {
      var rest := OtherReading(arity, ts[1..], k - 1 + ts[0].n);
      us := [ts[0]] + rest;
      assert us[1..] == rest;
      HeadsOfCons(ts[0], rest);
      assert ts == [ts[0]] + ts[1..];
      HeadsOfCons(ts[0], ts[1..]);
    } else if OneParamEach(ts[1..]) {
      us := MovedFromFirst(arity, ts, k);
    } else {
      us := MovedToFirst(arity, ts, k);
    }
  }

  // ----- A decoder -----

  function LeastCount(arity: nat -> nat, h: Head): (n: nat) {
    match h
    case VectorHead => 1
    case DictHead => 2
    case NamedTypeHead(id) => arity(id)
    case NullaryHead => 1
    case FnHead => 2
    case _ => 0
  }

  /** The heads with the fewest parameters possible. */
  function Least(arity: nat -> nat, hs: seq<Head>): (ts: seq<Tok>)
    ensures |ts| == |hs|
  {
    if hs == [] then [] else [Tok(hs[0], LeastCount(arity, hs[0]))] + Least(arity, hs[1..])
  }

  function Sum(ts: seq<Tok>): (n: nat) { if ts == [] then 0 else ts[0].n + Sum(ts[1..]) }

  /** Let the first function have `extra` parameters more. */
  function GiveFirst(ts: seq<Tok>, extra: nat): (us: seq<Tok>) {
    if ts == [] then []
    else if ts[0].head.FnHead? then [Tok(FnHead, ts[0].n + extra)] + ts[1..]
    else [ts[0]] + GiveFirst(ts[1..], extra)
  }

  lemma {:induction false} CoversSum(ts: seq<Tok>, k: nat)
    requires Covers(ts, k)
    ensures Sum(ts) + k == |ts|
  {
    if ts != [] {
      CoversSum(ts[1..], k - 1 + ts[0].n);
    }
  }

  lemma LeastIsLeast(arity: nat -> nat, t: Tok)
    requires Allowed(arity, t)
    ensures LeastCount(arity, t.head) <= t.n && (!t.head.FnHead? ==> LeastCount(arity, t.head) == t.n)
    ensures Allowed(arity, Tok(t.head, LeastCount(arity, t.head)))
  {
  }

  lemma {:induction false} LeastCovers(arity: nat -> nat, ts: seq<Tok>, k: nat)
    requires AllAllowed(arity, ts) && Covers(ts, k)
    ensures var l := Least(arity, Heads(ts));
            Sum(l) <= Sum(ts) && Covers(l, k + (Sum(ts) - Sum(l))) && AllAllowed(arity, l) && Heads(l) == Heads(ts)
  {
    if ts != [] {
      LeastIsLeast(arity, ts[0]);
      LeastCovers(arity, ts[1..], k - 1 + ts[0].n);
      HeadsCons(ts);
      var l := Least(arity, Heads(ts));
      assert l[1..] == Least(arity, Heads(ts[1..]));
    }
  }

  /** The tokens `us` have the heads of `ts` and cover as many types. */
  predicate Rebalanced(arity: nat -> nat, ts: seq<Tok>, us: seq<Tok>, k: nat) {
    Covers(us, k) && AllAllowed(arity, us) && Heads(us) == Heads(ts)
  }

  /** The first token is a function: it takes all the parameters that the others can spare. */
  lemma {:induction false} GiveHere(arity: nat -> nat, ts: seq<Tok>, k: nat)
    requires AllAllowed(arity, ts) && Covers(ts, k) && ts != [] && ts[0].head.FnHead?
    ensures var l := Least(arity, Heads(ts));
            Sum(l) <= Sum(ts) && Rebalanced(arity, ts, GiveFirst(l, Sum(ts) - Sum(l)), k)
  {
    LeastCovers(arity, ts, k);
    HeadsCons(ts);
    LeastIsLeast(arity, ts[0]);
    LeastCovers(arity, ts[1..], k - 1 + ts[0].n);
    var l := Least(arity, Heads(ts));
    var us := [Tok(FnHead, l[0].n + (Sum(ts) - Sum(l)))] + l[1..];
    assert l[1..] == Least(arity, Heads(ts[1..])) && us[1..] == l[1..];
    HeadsOfCons(us[0], l[1..]);
  }

  /** All parameters beyond the first of each function can go to the first function. */
  lemma {:induction false} GiveFirstCovers(arity: nat -> nat, ts: seq<Tok>, k: nat)
    requires AllAllowed(arity, ts) && Covers(ts, k)
    ensures var l := Least(arity, Heads(ts));
            Sum(l) <= Sum(ts) && Rebalanced(arity, ts, GiveFirst(l, Sum(ts) - Sum(l)), k)
  {
    LeastCovers(arity, ts, k);
    if ts != [] {
      if ts[0].head.FnHead? {
        GiveHere(arity, ts, k);
      } else {
        HeadsCons(ts);
        LeastIsLeast(arity, ts[0]);
        var l := Least(arity, Heads(ts));
        assert l[1..] == Least(arity, Heads(ts[1..]));
        GiveFirstCovers(arity, ts[1..], k - 1 + ts[0].n);
        var rest := GiveFirst(l[1..], Sum(ts) - Sum(l));
        assert ([l[0]] + rest)[1..] == rest;
        HeadsOfCons(l[0], rest);
      }
    }
  }

  /** The reading of a sequence of heads in which the first function takes as many parameters as possible. */
  function DecodeHeads(arity: nat -> nat, hs: seq<Head>): (r: Option<MonoType>) {
    var l := Least(arity, hs);
    if Sum(l) + 1 > |hs| then None
    else
      var ts := GiveFirst(l, |hs| - 1 - Sum(l));
      if AllAllowed(arity, ts) && Covers(ts, 1) then Some(Read(arity, ts, 1)[0]) else None
  }

  /** Tokens of one type are read as a concrete type with exactly these tokens. */
  lemma OneRead(arity: nat -> nat, us: seq<Tok>)
    requires AllAllowed(arity, us) && Covers(us, 1)
    ensures var x := Read(arity, us, 1)[0]; Concrete(arity, x) && Tokens(x) == us
  {
    ReadHasTokens(arity, us, 1);
    ReadIsConcrete(arity, us, 1);
    var x := Read(arity, us, 1)[0];
    assert Read(arity, us, 1) == [x];
    TokensOfOne(x);
  }

  /** The tokens that the decoder settles on. */
  lemma DecoderTokens(arity: nat -> nat, t: MonoType) returns (us: seq<Tok>)
    requires Concrete(arity, t)
    ensures Rebalanced(arity, Tokens(t), us, 1)
    ensures DecodeHeads(arity, Heads(Tokens(t))) == Some(Read(arity, us, 1)[0])
  {
    var ts := Tokens(t);
    TokensDetermine(arity, t);
    CoversSum(ts, 1);
    GiveFirstCovers(arity, ts, 1);
    var l := Least(arity, Heads(ts));
    us := GiveFirst(l, Sum(ts) - Sum(l));
  }

  /** The decoder finds a type with the same heads, and the type itself if its heads have no other reading. */
  lemma DecodeHeadsReads(arity: nat -> nat, t: MonoType)
    requires Concrete(arity, t)
    ensures var r := DecodeHeads(arity, Heads(Tokens(t)));
            r.Some? && Concrete(arity, r.value) && Heads(Tokens(r.value)) == Heads(Tokens(t))
    ensures OneReading(Tokens(t)) ==> DecodeHeads(arity, Heads(Tokens(t))) == Some(t)
  {
    var us := DecoderTokens(arity, t);
    OneRead(arity, us);
    if OneReading(Tokens(t)) {
      TokensDetermine(arity, t);
      ReadingUnique(arity, Tokens(t), us, 1);
    }
  }

  /** On types: no other concrete type has the same heads if and only if `OneReading` says so. */
  lemma OneReadingIff(arity: nat -> nat, t: MonoType)
    requires Concrete(arity, t)
    ensures OneReading(Tokens(t))
       <==> forall u: MonoType | Concrete(arity, u) && Heads(Tokens(u)) == Heads(Tokens(t)) :: u == t
  {
    var ts := Tokens(t);
    TokensDetermine(arity, t);
    if OneReading(ts) {
      forall u: MonoType | Concrete(arity, u) && Heads(Tokens(u)) == Heads(ts)
        ensures u == t
      {
        TokensDetermine(arity, u);
        ReadingUnique(arity, ts, Tokens(u), 1);
        assert [t][0] == [u][0];
      }
    } else {
      var us := OtherReading(arity, ts, 1);
      OneRead(arity, us);
      var u := Read(arity, us, 1)[0];
      assert Concrete(arity, u) && Tokens(u) == us && u != t;
    }
  }

  lemma SameHeadsSameType(arity: nat -> nat, t: MonoType, u: MonoType)
    requires Concrete(arity, t) && Concrete(arity, u) && OneReading(Tokens(t)) && Heads(Tokens(u)) == Heads(Tokens(t))
    ensures u == t
  {
    OneReadingIff(arity, t);
  }
}
