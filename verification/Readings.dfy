/**
  How many types a symbol key can be read as. A key fixes the heads of a type in preorder, but not how many parameters
  a function has, so a reading is a choice of those numbers.
*/
module Readings {
  import opened Mono

  /**
    What stands at a node of a type. Functions without parameters have a mark of their own in the key, and scalars
    have one in the signature of a closure.
  */
  datatype Head =
    | Simple(t: MonoType)
    | VectorHead
    | DictHead
    | NamedTypeHead(id: nat)
    | NullaryHead
    | FnHead
    | TagHead(tag: string)
    | NoHead

  /** A node with its number of children. */
  datatype Tok = Tok(head: Head, n: nat)

  predicate IsSimple(t: MonoType) { t in {Int, Float, Bool, Byte, String, Void, Never} || t.ExternRef? }

  /** Numbers of children that a head can have, given the number of arguments of every named type. */
  predicate Allowed(arity: nat -> nat, tok: Tok) {
    match tok.head
    case Simple(t) => IsSimple(t) && tok.n == 0
    case VectorHead => tok.n == 1
    case DictHead => tok.n == 2
    case NamedTypeHead(id) => tok.n == arity(id)
    case NullaryHead => tok.n == 1
    case FnHead => tok.n >= 2
    case _ => false
  }

  predicate AllAllowed(arity: nat -> nat, ts: seq<Tok>) { forall i | 0 <= i < |ts| :: Allowed(arity, ts[i]) }

  // ----- Types as tokens -----

  /** Types without variables in which every named type has its number of arguments. */
  predicate Concrete(arity: nat -> nat, t: MonoType) {
    match t
    case TVar(_) => false
    case MetaVar(_) => false
    case Vector(e) => Concrete(arity, e)
    case Dict(k, v) => Concrete(arity, k) && Concrete(arity, v)
    case Named(id, args) => |args| == arity(id) && forall a | a in args :: Concrete(arity, a)
    case Function(ps, r) => (forall p | p in ps :: Concrete(arity, p)) && Concrete(arity, r)
    case _ => true
  }

  function Tokens(t: MonoType): (ts: seq<Tok>)
    ensures ts != []
    decreases t, 1
  {
    match t
    case TVar(_) => [Tok(NoHead, 0)]
    case MetaVar(_) => [Tok(NoHead, 0)]
    case Vector(e) => [Tok(VectorHead, 1)] + Tokens(e)
    case Dict(k, v) => [Tok(DictHead, 2)] + (Tokens(k) + Tokens(v))
    case Named(id, args) => [Tok(NamedTypeHead(id), |args|)] + TokensOfAll(args)
    case Function(ps, r) =>
      if ps == [] then [Tok(NullaryHead, 1)] + Tokens(r)
      else [Tok(FnHead, |ps| + 1)] + (TokensOfAll(ps) + Tokens(r))
    case _ => [Tok(Simple(t), 0)]
  }

  function TokensOfAll(xs: seq<MonoType>): (ts: seq<Tok>)
    decreases xs, 0
  {
    if xs == [] then [] else Tokens(xs[0]) + TokensOfAll(xs[1..])
  }

  predicate HasVariable(ts: seq<Tok>) { exists i :: 0 <= i < |ts| && ts[i].head == NoHead }

  lemma {:induction false} HasVariableAppend(a: seq<Tok>, b: seq<Tok>)
    ensures HasVariable(a + b) <==> HasVariable(a) || HasVariable(b)
  {
    if i :| 0 <= i < |b| && b[i].head == NoHead {
      assert (a + b)[|a| + i].head == NoHead;
    }
    if i :| 0 <= i < |a| && a[i].head == NoHead {
      assert (a + b)[i].head == NoHead;
    }
  }

  lemma {:induction false} HasVariableCons(tok: Tok, ts: seq<Tok>)
    ensures HasVariable([tok] + ts) <==> tok.head == NoHead || HasVariable(ts)
  {
    HasVariableAppend([tok], ts);
    assert HasVariable([tok]) <==> [tok][0].head == NoHead;
  }

  /** A type counts as concrete exactly when no variable stands at any of its nodes. */
  lemma {:induction false} ConcreteIffNoVariable(t: MonoType)
    ensures IsConcrete(t) <==> !HasVariable(Tokens(t))
    decreases t, 1
  {
    match t
    case Vector(e) =>
      ConcreteIffNoVariable(e);
      HasVariableCons(Tok(VectorHead, 1), Tokens(e));
    case Dict(k, v) =>
      ConcreteIffNoVariable(k);
      ConcreteIffNoVariable(v);
      HasVariableAppend(Tokens(k), Tokens(v));
      HasVariableCons(Tok(DictHead, 2), Tokens(k) + Tokens(v));
    case Named(id, args) =>
      AllConcreteIffNoVariable(args);
      HasVariableCons(Tok(NamedTypeHead(id), |args|), TokensOfAll(args));
    case Function(ps, r) =>
      AllConcreteIffNoVariable(ps);
      ConcreteIffNoVariable(r);
      HasVariableCons(Tok(NullaryHead, 1), Tokens(r));
      HasVariableAppend(TokensOfAll(ps), Tokens(r));
      HasVariableCons(Tok(FnHead, |ps| + 1), TokensOfAll(ps) + Tokens(r));
    case _ =>
      assert Tokens(t)[0].head == NoHead <==> t.TVar? || t.MetaVar?;
  }

  lemma {:induction false} AllConcreteIffNoVariable(xs: seq<MonoType>)
    ensures (forall x | x in xs :: IsConcrete(x)) <==> !HasVariable(TokensOfAll(xs))
    decreases xs, 0
  {
    if xs != [] {
      ConcreteIffNoVariable(xs[0]);
      AllConcreteIffNoVariable(xs[1..]);
      HasVariableAppend(Tokens(xs[0]), TokensOfAll(xs[1..]));
      assert xs == [xs[0]] + xs[1..];
    }
  }

  /** `ts` are the tokens of exactly `k` types, one after the other: `k` is the number of types still owed. */
  predicate Covers(ts: seq<Tok>, k: nat) {
    if ts == [] then k == 0 else k > 0 && Covers(ts[1..], k - 1 + ts[0].n)
  }

  function Node(arity: nat -> nat, tok: Tok, args: seq<MonoType>): (t: MonoType)
    requires Allowed(arity, tok) && |args| == tok.n
  {
    match tok.head
    case Simple(s) => s
    case VectorHead => Vector(args[0])
    case DictHead => Dict(args[0], args[1])
    case NamedTypeHead(id) => Named(id, args)
    case NullaryHead => Function([], args[0])
    case FnHead => Function(args[..tok.n - 1], args[tok.n - 1])
  }

  /** The types that the tokens stand for, read from the right. */
  function Read(arity: nat -> nat, ts: seq<Tok>, k: nat): (xs: seq<MonoType>)
    requires AllAllowed(arity, ts) && Covers(ts, k)
    ensures |xs| == k
  {
    if ts == [] then []
    else
      var n := ts[0].n;
      var rest := Read(arity, ts[1..], k - 1 + n);
      [Node(arity, ts[0], rest[..n])] + rest[n..]
  }

  // ----- Tokens determine types, and types tokens -----

  lemma {:induction false} TokensAppend(xs: seq<MonoType>, ys: seq<MonoType>)
    ensures TokensOfAll(xs + ys) == TokensOfAll(xs) + TokensOfAll(ys)
  {
    if xs == [] {
      assert xs + ys == ys;
    } else {
      TokensAppend(xs[1..], ys);
      assert (xs + ys)[1..] == xs[1..] + ys;
      Assoc(Tokens(xs[0]), TokensOfAll(xs[1..]), TokensOfAll(ys));
    }
  }

  lemma Assoc(a: seq<Tok>, b: seq<Tok>, c: seq<Tok>)
    ensures a + (b + c) == a + b + c
  {
  }

  lemma TokensOfOne(t: MonoType)
    ensures TokensOfAll([t]) == Tokens(t)
  {
    assert [t][1..] == [];
  }

  lemma NodeTokens(arity: nat -> nat, tok: Tok, args: seq<MonoType>)
    requires Allowed(arity, tok) && |args| == tok.n
    ensures Tokens(Node(arity, tok, args)) == [tok] + TokensOfAll(args)
  {
    if tok.head.VectorHead? || tok.head.NullaryHead? {
      assert args == [args[0]];
      TokensOfOne(args[0]);
    } else if tok.head.DictHead? {
      assert args == [args[0]] + [args[1]];
      TokensAppend([args[0]], [args[1]]);
      TokensOfOne(args[0]);
      TokensOfOne(args[1]);
    } else if tok.head.FnHead? {
      var ps, r := args[..tok.n - 1], args[tok.n - 1];
      assert args == ps + [r];
      TokensAppend(ps, [r]);
      TokensOfOne(r);
    }
  }

  lemma NodeConcrete(arity: nat -> nat, tok: Tok, args: seq<MonoType>)
    requires Allowed(arity, tok) && |args| == tok.n && AllConcrete(arity, args)
    ensures Concrete(arity, Node(arity, tok, args))
  {
  }

  /** Reading gives concrete types with exactly these tokens. */
  lemma {:induction false} ReadHasTokens(arity: nat -> nat, ts: seq<Tok>, k: nat)
    requires AllAllowed(arity, ts) && Covers(ts, k)
    ensures TokensOfAll(Read(arity, ts, k)) == ts
  {
    if ts != [] {
      var n := ts[0].n;
      var rest := Read(arity, ts[1..], k - 1 + n);
      ReadHasTokens(arity, ts[1..], k - 1 + n);
      assert rest == rest[..n] + rest[n..];
      NodeAndOthers(arity, ts[0], rest[..n], rest[n..]);
      assert ts == [ts[0]] + ts[1..];
    }
  }

  predicate AllConcrete(arity: nat -> nat, xs: seq<MonoType>) { forall i | 0 <= i < |xs| :: Concrete(arity, xs[i]) }

  lemma {:induction false} ReadIsConcrete(arity: nat -> nat, ts: seq<Tok>, k: nat)
    requires AllAllowed(arity, ts) && Covers(ts, k)
    ensures AllConcrete(arity, Read(arity, ts, k))
  {
    if ts != [] {
      var n := ts[0].n;
      var rest := Read(arity, ts[1..], k - 1 + n);
      ReadIsConcrete(arity, ts[1..], k - 1 + n);
      NodeConcrete(arity, ts[0], rest[..n]);
    }
  }

  lemma NodeAndOthers(arity: nat -> nat, tok: Tok, args: seq<MonoType>, others: seq<MonoType>)
    requires Allowed(arity, tok) && |args| == tok.n
    ensures TokensOfAll([Node(arity, tok, args)] + others) == [tok] + TokensOfAll(args + others)
  {
    var x := Node(arity, tok, args);
    NodeTokens(arity, tok, args);
    TokensAppend([x], others);
    TokensOfOne(x);
    TokensAppend(args, others);
    Assoc([tok], TokensOfAll(args), TokensOfAll(others));
  }

  /** One node on top of its children. */
  lemma ReadStep(arity: nat -> nat, tok: Tok, tail: seq<Tok>, k: nat, args: seq<MonoType>, others: seq<MonoType>)
    requires Allowed(arity, tok) && AllAllowed(arity, tail) && Covers(tail, k + tok.n)
    requires |args| == tok.n && Read(arity, tail, k + tok.n) == args + others
    ensures AllAllowed(arity, [tok] + tail) && Covers([tok] + tail, k + 1)
    ensures Read(arity, [tok] + tail, k + 1) == [Node(arity, tok, args)] + others
  {
    var ts, rest := [tok] + tail, Read(arity, tail, k + tok.n);
    assert ts[1..] == tail && ts[0] == tok;
    assert rest[..tok.n] == args && rest[tok.n..] == others;
    assert Read(arity, ts, k + 1) == [Node(arity, tok, rest[..tok.n])] + rest[tok.n..];
  }

  /** `xs` can be read off the front of the tokens. */
  ghost predicate ReadsBack(arity: nat -> nat, xs: seq<MonoType>, ts: seq<Tok>, rest: seq<Tok>, k: nat)
    requires AllAllowed(arity, rest) && Covers(rest, k)
  {
    AllAllowed(arity, ts) && Covers(ts, k + |xs|) && Read(arity, ts, k + |xs|) == xs + Read(arity, rest, k)
  }

  lemma JoinedRead(arity: nat -> nat, xs: seq<MonoType>, ys: seq<MonoType>, ts: seq<Tok>, mid: seq<Tok>,
                   rest: seq<Tok>, k: nat)
    requires AllAllowed(arity, rest) && Covers(rest, k) && ReadsBack(arity, ys, mid, rest, k)
    requires ReadsBack(arity, xs, ts, mid, k + |ys|)
    ensures Read(arity, ts, k + |ys| + |xs|) == xs + ys + Read(arity, rest, k)
  {
    JoinAssoc(xs, ys, Read(arity, rest, k));
  }

  lemma ReadsBackMore(arity: nat -> nat, xs: seq<MonoType>, ys: seq<MonoType>, ts: seq<Tok>, mid: seq<Tok>,
                      rest: seq<Tok>, k: nat)
    requires AllAllowed(arity, rest) && Covers(rest, k) && ReadsBack(arity, ys, mid, rest, k)
    requires ReadsBack(arity, xs, ts, mid, k + |ys|)
    ensures ReadsBack(arity, xs + ys, ts, rest, k)
  {
    JoinedRead(arity, xs, ys, ts, mid, rest, k);
    assert k + |ys| + |xs| == k + |xs + ys|;
  }

  lemma JoinAssoc(xs: seq<MonoType>, ys: seq<MonoType>, zs: seq<MonoType>)
    ensures xs + (ys + zs) == xs + ys + zs
  {
  }

  lemma ReadsBackNode(arity: nat -> nat, tok: Tok, args: seq<MonoType>, tail: seq<Tok>, rest: seq<Tok>, k: nat)
    requires AllAllowed(arity, rest) && Covers(rest, k) && ReadsBack(arity, args, tail, rest, k)
    requires Allowed(arity, tok) && |args| == tok.n
    ensures ReadsBack(arity, [Node(arity, tok, args)], [tok] + tail, rest, k)
  {
    var node := [Node(arity, tok, args)];
    assert k + |args| == k + tok.n && k + |node| == k + 1;
    ReadStep(arity, tok, tail, k, args, Read(arity, rest, k));
    assert AllAllowed(arity, [tok] + tail) && Covers([tok] + tail, k + |node|);
    assert Read(arity, [tok] + tail, k + |node|) == node + Read(arity, rest, k);
  }

  /** One node, with the tokens of its children behind it. */
  lemma ReadUnder(arity: nat -> nat, tok: Tok, args: seq<MonoType>, inner: seq<Tok>, rest: seq<Tok>, k: nat)
    requires AllAllowed(arity, rest) && Covers(rest, k) && ReadsBack(arity, args, inner + rest, rest, k)
    requires Allowed(arity, tok) && |args| == tok.n
    ensures ReadsBack(arity, [Node(arity, tok, args)], [tok] + inner + rest, rest, k)
  {
    ReadsBackNode(arity, tok, args, inner + rest, rest, k);
    Assoc([tok], inner, rest);
  }

  lemma ReadNone(arity: nat -> nat, rest: seq<Tok>, k: nat)
    requires AllAllowed(arity, rest) && Covers(rest, k)
    ensures ReadsBack(arity, [], rest, rest, k)
  {
    assert [] + Read(arity, rest, k) == Read(arity, rest, k);
  }

  lemma ReadLeaf(arity: nat -> nat, t: MonoType, rest: seq<Tok>, k: nat)
    requires IsSimple(t) && AllAllowed(arity, rest) && Covers(rest, k)
    ensures ReadsBack(arity, [t], [Tok(Simple(t), 0)] + rest, rest, k)
  {
    ReadNone(arity, rest, k);
    ReadsBackNode(arity, Tok(Simple(t), 0), [], rest, rest, k);
  }

  lemma {:induction false} ReadOne(arity: nat -> nat, t: MonoType, rest: seq<Tok>, k: nat)
    requires Concrete(arity, t) && AllAllowed(arity, rest) && Covers(rest, k)
    ensures ReadsBack(arity, [t], Tokens(t) + rest, rest, k)
    decreases t, 1
  {
    if t.Vector? {
      ReadOne(arity, t.elem, rest, k);
      ReadUnder(arity, Tok(VectorHead, 1), [t.elem], Tokens(t.elem), rest, k);
    } else if t.Dict? {
      ReadOne(arity, t.val, rest, k);
      ReadOne(arity, t.key, Tokens(t.val) + rest, k + 1);
      ReadDict(arity, t.key, t.val, Tokens(t.key), Tokens(t.val), rest, k);
    } else if t.Named? {
      ReadAll(arity, t.args, rest, k);
      ReadUnder(arity, Tok(NamedTypeHead(t.typeId), |t.args|), t.args, TokensOfAll(t.args), rest, k);
    } else if t.Function? {
      ReadOneFunction(arity, t, rest, k);
    } else {
      ReadLeaf(arity, t, rest, k);
    }
  }

  lemma {:induction false} ReadOneFunction(arity: nat -> nat, t: MonoType, rest: seq<Tok>, k: nat)
    requires t.Function? && Concrete(arity, t) && AllAllowed(arity, rest) && Covers(rest, k)
    ensures ReadsBack(arity, [t], Tokens(t) + rest, rest, k)
    decreases t, 0
  {
    ReadOne(arity, t.ret, rest, k);
    if t.params == [] {
      ReadUnder(arity, Tok(NullaryHead, 1), [t.ret], Tokens(t.ret), rest, k);
    } else {
      ReadAll(arity, t.params, Tokens(t.ret) + rest, k + 1);
      ReadFunction(arity, t.params, t.ret, TokensOfAll(t.params), Tokens(t.ret), rest, k);
    }
  }

  lemma ReadDict(arity: nat -> nat, x: MonoType, y: MonoType, a: seq<Tok>, b: seq<Tok>, rest: seq<Tok>, k: nat)
    requires AllAllowed(arity, rest) && Covers(rest, k) && ReadsBack(arity, [y], b + rest, rest, k)
    requires ReadsBack(arity, [x], a + (b + rest), b + rest, k + 1)
    ensures ReadsBack(arity, [Dict(x, y)], [Tok(DictHead, 2)] + (a + b) + rest, rest, k)
  {
    ReadsBackMore(arity, [x], [y], a + (b + rest), b + rest, rest, k);
    ReadsBackNode(arity, Tok(DictHead, 2), [x] + [y], a + (b + rest), rest, k);
    Regroup(Tok(DictHead, 2), a, b, rest);
  }

  lemma ReadFunction(arity: nat -> nat, ps: seq<MonoType>, r: MonoType, a: seq<Tok>, b: seq<Tok>, rest: seq<Tok>,
                     k: nat)
    requires ps != [] && AllAllowed(arity, rest) && Covers(rest, k) && ReadsBack(arity, [r], b + rest, rest, k)
    requires ReadsBack(arity, ps, a + (b + rest), b + rest, k + 1)
    ensures ReadsBack(arity, [Function(ps, r)], [Tok(FnHead, |ps| + 1)] + (a + b) + rest, rest, k)
  {
    ReadsBackMore(arity, ps, [r], a + (b + rest), b + rest, rest, k);
    ReadsBackNode(arity, Tok(FnHead, |ps| + 1), ps + [r], a + (b + rest), rest, k);
    NodeOfFunction(arity, ps, r);
    Regroup(Tok(FnHead, |ps| + 1), a, b, rest);
  }

  lemma NodeOfFunction(arity: nat -> nat, ps: seq<MonoType>, r: MonoType)
    requires ps != []
    ensures Node(arity, Tok(FnHead, |ps| + 1), ps + [r]) == Function(ps, r)
  {
    assert (ps + [r])[..|ps|] == ps;
  }

  lemma Regroup(tok: Tok, a: seq<Tok>, b: seq<Tok>, rest: seq<Tok>)
    ensures [tok] + (a + (b + rest)) == [tok] + (a + b) + rest
  {
  }

  lemma {:induction false} ReadAll(arity: nat -> nat, xs: seq<MonoType>, rest: seq<Tok>, k: nat)
    requires (forall x | x in xs :: Concrete(arity, x)) && AllAllowed(arity, rest) && Covers(rest, k)
    ensures ReadsBack(arity, xs, TokensOfAll(xs) + rest, rest, k)
    decreases xs, 0
  {
    if xs == [] {
      ReadNone(arity, rest, k);
      assert TokensOfAll(xs) + rest == rest;
    } else {
      ReadAll(arity, xs[1..], rest, k);
      ReadOne(arity, xs[0], TokensOfAll(xs[1..]) + rest, k + |xs[1..]|);
      ReadFirst(arity, xs[0], xs[1..], Tokens(xs[0]), TokensOfAll(xs[1..]), rest, k);
      assert [xs[0]] + xs[1..] == xs;
    }
  }

  lemma ReadFirst(arity: nat -> nat, x: MonoType, xs: seq<MonoType>, a: seq<Tok>, b: seq<Tok>, rest: seq<Tok>, k: nat)
    requires AllAllowed(arity, rest) && Covers(rest, k) && ReadsBack(arity, xs, b + rest, rest, k)
    requires ReadsBack(arity, [x], a + (b + rest), b + rest, k + |xs|)
    ensures ReadsBack(arity, [x] + xs, a + b + rest, rest, k)
  {
    ReadsBackMore(arity, [x], xs, a + (b + rest), b + rest, rest, k);
    Assoc(a, b, rest);
  }

  /** A type has the tokens of one type, and no other concrete type has the same. */
  lemma TokensDetermine(arity: nat -> nat, t: MonoType)
    requires Concrete(arity, t)
    ensures AllAllowed(arity, Tokens(t)) && Covers(Tokens(t), 1) && Read(arity, Tokens(t), 1) == [t]
  {
    ReadOne(arity, t, [], 0);
    assert Tokens(t) + [] == Tokens(t) && [t] + [] == [t];
  }
}
