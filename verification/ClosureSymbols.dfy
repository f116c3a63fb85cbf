/** Symbols of typed closures: which signatures share one. */
module ClosureSymbols {
  import opened Mono
  import opened Readings
  import opened Ambiguity
  import opened Symbols

  predicate IsScalar(t: MonoType) { t in {Int, Float, Bool, Byte, String, Void, Never} }

  /** What a symbol fixes of a type in a signature: of a scalar only the tag. */
  function TagHeads(t: MonoType): (hs: seq<Head>) {
    if IsScalar(t) then [TagHead(TypeTag(t))] else TypeHeads(t)
  }

  function SignatureHeads(ts: seq<MonoType>): (hs: seq<Head>) {
    if ts == [] then [] else TagHeads(ts[0]) + SignatureHeads(ts[1..])
  }

  /** The words of a symbol behind the first. */
  function SignatureWords(ps: seq<MonoType>, r: MonoType): (ws: seq<string>) {
    (if ps == [] then ["nil", ""] else []) + WordsOfHeads(SignatureHeads(ps + [r]))
  }

  /** Heads that can stand in a row: nonempty, without separators, and not ending in a function. */
  predicate Stands(hs: seq<Head>) {
    hs != [] && Separated(hs) && (forall i | 0 <= i < |hs| :: !hs[i].NoHead?) && !hs[|hs| - 1].FnHead?
  }

  lemma {:induction false} TagStands(arity: nat -> nat, t: MonoType)
    requires Concrete(arity, t)
    ensures Stands(TagHeads(t)) && ClosureTag(t) == Join(WordsOfHeads(TagHeads(t)))
  {
    if IsScalar(t) {
      var tag := TypeTag(t);
      assert [TagHead(tag)][1..] == [];
      assert WordsOfHeads([TagHead(tag)]) == [tag];
    } else {
      TypeHeadsSeparated(arity, t);
      KeyHeads(arity, t);
    }
  }

  lemma {:induction false} StandsAppend(a: seq<Head>, b: seq<Head>)
    requires Stands(a) && Stands(b)
    ensures Stands(a + b)
    ensures Join(WordsOfHeads(a + b)) == Join(WordsOfHeads(a)) + "_" + Join(WordsOfHeads(b))
  {
    var hs := a + b;
    assert forall i | 0 <= i < |a| :: hs[i] == a[i];
    assert forall i | 0 <= i < |b| :: hs[|a| + i] == b[i];
    WordsOfHeadsAppend(a, b);
    JoinAppend(WordsOfHeads(a), WordsOfHeads(b));
  }

  lemma {:induction false} TagsStand(arity: nat -> nat, ts: seq<MonoType>)
    requires ts != [] && AllConcrete(arity, ts)
    ensures Stands(SignatureHeads(ts)) && Join(ClosureTags(ts)) == Join(WordsOfHeads(SignatureHeads(ts)))
  {
    TagStands(arity, ts[0]);
    if |ts| > 1 {
      TagsStand(arity, ts[1..]);
      StandsAppend(TagHeads(ts[0]), SignatureHeads(ts[1..]));
      assert ClosureTags(ts)[1..] == ClosureTags(ts[1..]);
    } else {
      assert ts[1..] == [];
      assert SignatureHeads(ts) == TagHeads(ts[0]) + [] == TagHeads(ts[0]);
      assert ClosureTags(ts) == [ClosureTag(ts[0])];
    }
  }

  lemma {:induction false} TagsAppend(ts: seq<MonoType>, t: MonoType)
    ensures SignatureHeads(ts + [t]) == SignatureHeads(ts) + TagHeads(t)
  {
    if ts == [] {
      assert [t][1..] == [];
    } else {
      TagsAppend(ts[1..], t);
      assert (ts + [t])[1..] == ts[1..] + [t];
      Regrouped(TagHeads(ts[0]), SignatureHeads(ts[1..]), TagHeads(t));
    }
  }

  lemma Regrouped(a: seq<Head>, b: seq<Head>, c: seq<Head>)
    ensures a + (b + c) == a + b + c
  {
  }

  /** Parameters and result in one row. */
  lemma {:induction false} SignatureStands(arity: nat -> nat, ps: seq<MonoType>, r: MonoType)
    requires AllConcrete(arity, ps + [r])
    ensures Stands(SignatureHeads(ps + [r]))
    ensures var text := Join(WordsOfHeads(SignatureHeads(ps + [r])));
            text == if ps == [] then ClosureTag(r) else Join(ClosureTags(ps)) + "_" + ClosureTag(r)
  {
    assert (ps + [r])[|ps|] == r && forall i | 0 <= i < |ps| :: (ps + [r])[i] == ps[i];
    TagStands(arity, r);
    TagsAppend(ps, r);
    if ps == [] {
      assert SignatureHeads(ps) + TagHeads(r) == TagHeads(r);
    } else {
      TagsStand(arity, ps);
      StandsAppend(SignatureHeads(ps), TagHeads(r));
    }
  }

  /** A symbol that starts with `front`, as its words. */
  lemma {:induction false} TextIsWords(arity: nat -> nat, front: string, ps: seq<MonoType>, r: MonoType)
    requires AllConcrete(arity, ps + [r])
    ensures Join([front] + SignatureWords(ps, r))
         == if ps == [] then front + "_nil__" + ClosureTag(r)
            else front + "_" + Join(ClosureTags(ps)) + "_" + ClosureTag(r)
  {
    SignatureStands(arity, ps, r);
    var ws := WordsOfHeads(SignatureHeads(ps + [r]));
    if ps == [] {
      Nullary(front, ws);
    } else {
      assert SignatureWords(ps, r) == ws;
      JoinAppend([front], ws);
      Texts(front, Join(ClosureTags(ps)), ClosureTag(r));
    }
  }

  lemma {:induction false} SymsAreWords(arity: nat -> nat, ps: seq<MonoType>, r: MonoType)
    requires AllConcrete(arity, ps + [r])
    ensures ClosureStructSym(ps, r) == Join(["closure"] + SignatureWords(ps, r))
    ensures ClosureFuncSym(ps, r) == Join(["closurefunc"] + SignatureWords(ps, r))
  {
    TextIsWords(arity, "closure", ps, r);
    TextIsWords(arity, "closurefunc", ps, r);
    StructPrefix();
    FuncPrefix();
  }

  lemma StructPrefix()
    ensures "closure" + "_nil__" == "closure_nil__" && "closure" + "_" == "closure_"
  {
  }

  lemma FuncPrefix()
    ensures "closurefunc" + "_nil__" == "closurefunc_nil__" && "closurefunc" + "_" == "closurefunc_"
  {
  }

  lemma {:induction false} Nullary(front: string, ws: seq<string>)
    requires ws != []
    ensures Join([front] + (["nil", ""] + ws)) == front + "_nil__" + Join(ws)
  {
    assert [front] + (["nil", ""] + ws) == [front, "nil", ""] + ws;
    JoinAppend([front, "nil", ""], ws);
    assert [front, "nil", ""][1..] == ["nil", ""] && ["nil", ""][1..] == [""];
    assert Join(["nil", ""]) == "nil" + "_" + "" == "nil_";
    assert Join([front, "nil", ""]) == front + "_" + "nil_";
    assert front + "_" + "nil_" + "_" == front + "_nil__";
  }

  lemma Texts(front: string, a: string, b: string)
    ensures front + "_" + (a + "_" + b) == front + "_" + a + "_" + b
  {
  }

  /** No signature begins with the word that marks an empty parameter list. */
  lemma {:induction false} NotNilWord(hs: seq<Head>)
    requires Stands(hs)
    ensures WordsOfHeads(hs) != [] && WordsOfHeads(hs)[0] != "nil"
  {
    var h := hs[0];
    assert Proper(h) && !h.NoHead?;
    assert WordsOfHeads(hs)[0] == HeadWords(h)[0];
    if h.NamedTypeHead? {
      assert ("T" + Decimal(h.id))[0] == 'T' && "nil"[0] == 'n';
    } else if h.Simple? && h.t.ExternRef? {
      assert ("Extern" + Decimal(h.t.typeId))[0] == 'E' && "nil"[0] == 'n';
    }
  }

  /** The words of a symbol give back the heads. */
  lemma {:induction false} SignatureRead(arity: nat -> nat, front: string, ps: seq<MonoType>, r: MonoType)
    requires AllConcrete(arity, ps + [r]) && IsWord(front)
    ensures Split(Join([front] + SignatureWords(ps, r))) == [front] + SignatureWords(ps, r)
    ensures ReadHeads(ParseHead, WordsOfHeads(SignatureHeads(ps + [r]))) == SignatureHeads(ps + [r])
  {
    SignatureStands(arity, ps, r);
    HeadsOfText(SignatureHeads(ps + [r]));
    SplitJoin([front] + SignatureWords(ps, r));
  }

  lemma {:induction false} SameWordsIff(arity: nat -> nat, ps: seq<MonoType>, r: MonoType, qs: seq<MonoType>,
                                        s: MonoType)
    requires AllConcrete(arity, ps + [r]) && AllConcrete(arity, qs + [s])
    ensures SignatureWords(ps, r) == SignatureWords(qs, s)
       <==> (ps == [] <==> qs == []) && SignatureHeads(ps + [r]) == SignatureHeads(qs + [s])
  {
    var a, b := WordsOfHeads(SignatureHeads(ps + [r])), WordsOfHeads(SignatureHeads(qs + [s]));
    SignatureRead(arity, "closure", ps, r);
    SignatureRead(arity, "closure", qs, s);
    SignatureStands(arity, ps, r);
    SignatureStands(arity, qs, s);
    NotNilWord(SignatureHeads(ps + [r]));
    NotNilWord(SignatureHeads(qs + [s]));
    if SignatureWords(ps, r) == SignatureWords(qs, s) {
      SameFront(ps == [], a, qs == [], b);
    }
  }

  lemma {:induction false} SameFront(x: bool, a: seq<string>, y: bool, b: seq<string>)
    requires a != [] && b != [] && a[0] != "nil" && b[0] != "nil"
    requires (if x then ["nil", ""] else []) + a == (if y then ["nil", ""] else []) + b
    ensures x == y && a == b
  {
    var u, v := (if x then ["nil", ""] else []) + a, (if y then ["nil", ""] else []) + b;
    assert u[0] == (if x then "nil" else a[0]) && v[0] == (if y then "nil" else b[0]);
    assert u[if x then 2 else 0..] == a && v[if y then 2 else 0..] == b;
  }

  /**
    Two signatures share the symbols of their closure struct and function type if and only if both or neither have
    parameters and the heads of parameters and result are the same in one row, where scalars count by their tag.
  */
  lemma {:induction false} SameClosureSymIff(arity: nat -> nat, ps: seq<MonoType>, r: MonoType, qs: seq<MonoType>,
                                             s: MonoType)
    requires AllConcrete(arity, ps + [r]) && AllConcrete(arity, qs + [s])
    ensures ClosureStructSym(ps, r) == ClosureStructSym(qs, s)
       <==> (ps == [] <==> qs == []) && SignatureHeads(ps + [r]) == SignatureHeads(qs + [s])
    ensures ClosureFuncSym(ps, r) == ClosureFuncSym(qs, s) <==> ClosureStructSym(ps, r) == ClosureStructSym(qs, s)
  {
    SymsAreWords(arity, ps, r);
    SymsAreWords(arity, qs, s);
    SameWordsIff(arity, ps, r, qs, s);
    SameTextIff(arity, "closure", ps, r, qs, s);
    SameTextIff(arity, "closurefunc", ps, r, qs, s);
  }

  lemma {:induction false} SameTextIff(arity: nat -> nat, front: string, ps: seq<MonoType>, r: MonoType,
                                       qs: seq<MonoType>, s: MonoType)
    requires AllConcrete(arity, ps + [r]) && AllConcrete(arity, qs + [s]) && IsWord(front)
    ensures Join([front] + SignatureWords(ps, r)) == Join([front] + SignatureWords(qs, s))
       <==> SignatureWords(ps, r) == SignatureWords(qs, s)
  {
    SignatureRead(arity, front, ps, r);
    SignatureRead(arity, front, qs, s);
    SameTail(front, SignatureWords(ps, r), SignatureWords(qs, s));
  }

  lemma SameTail(front: string, a: seq<string>, b: seq<string>)
    ensures [front] + a == [front] + b <==> a == b
  {
    assert ([front] + a)[1..] == a && ([front] + b)[1..] == b;
  }

  // ----- Signatures without functions -----

  /** The scalar types that have one tag. */
  predicate SameTag(t: MonoType, u: MonoType) {
    t == u || (t in {Bool, Byte} && u in {Bool, Byte}) || (t in {Void, Never} && u in {Void, Never})
  }

  predicate SameTags(ts: seq<MonoType>, us: seq<MonoType>) {
    |ts| == |us| && forall i | 0 <= i < |ts| :: SameTag(ts[i], us[i])
  }

  predicate AllFlat(ts: seq<MonoType>) { forall i | 0 <= i < |ts| :: NoFn(Tokens(ts[i])) }

  /** Without functions the heads of a type tell where it ends. */
  lemma {:induction false} SamePrefix(arity: nat -> nat, ts: seq<Tok>, us: seq<Tok>, k: nat, a: seq<Head>, b: seq<Head>)
    requires AllAllowed(arity, ts) && AllAllowed(arity, us) && NoFn(ts) && NoFn(us) && Covers(ts, k) && Covers(us, k)
    requires Heads(ts) + a == Heads(us) + b
    ensures ts == us
  {
    if ts != [] {
      assert (Heads(ts) + a)[0] == ts[0].head && (Heads(us) + b)[0] == us[0].head;
      FixedCount(arity, ts[0], us[0]);
      assert (Heads(ts) + a)[1..] == Heads(ts[1..]) + a && (Heads(us) + b)[1..] == Heads(us[1..]) + b;
      SamePrefix(arity, ts[1..], us[1..], k - 1 + ts[0].n, a, b);
      assert ts == [ts[0]] + ts[1..] && us == [us[0]] + us[1..];
    }
  }

  lemma {:induction false} SameFirst(arity: nat -> nat, t: MonoType, u: MonoType, a: seq<Head>, b: seq<Head>)
    requires Concrete(arity, t) && Concrete(arity, u) && NoFn(Tokens(t)) && NoFn(Tokens(u))
    requires TagHeads(t) + a == TagHeads(u) + b
    ensures SameTag(t, u) && a == b
  {
    TokensDetermine(arity, t);
    TokensDetermine(arity, u);
    assert (TagHeads(t) + a)[0] == TagHeads(t)[0] && (TagHeads(u) + b)[0] == TagHeads(u)[0];
    if !IsScalar(t) && !IsScalar(u) {
      SamePrefix(arity, Tokens(t), Tokens(u), 1, a, b);
      assert [t][0] == [u][0];
    } else {
      FirstHead(t);
      FirstHead(u);
    }
    assert (TagHeads(t) + a)[|TagHeads(t)|..] == a && (TagHeads(u) + b)[|TagHeads(u)|..] == b;
  }

  lemma {:induction false} FirstHead(t: MonoType)
    ensures TagHeads(t) != [] && (TagHeads(t)[0].TagHead? <==> IsScalar(t))
  {
    HeadAt(Tokens(t), 0);
  }

  lemma {:induction false} SameRow(arity: nat -> nat, ts: seq<MonoType>, us: seq<MonoType>)
    requires AllConcrete(arity, ts) && AllConcrete(arity, us) && AllFlat(ts) && AllFlat(us)
    ensures SignatureHeads(ts) == SignatureHeads(us) <==> SameTags(ts, us)
  {
    if ts != [] {
      FirstHead(ts[0]);
    }
    if us != [] {
      FirstHead(us[0]);
    }
    if ts != [] && us != [] {
      SameRow(arity, ts[1..], us[1..]);
      if SignatureHeads(ts) == SignatureHeads(us) {
        SameFirst(arity, ts[0], us[0], SignatureHeads(ts[1..]), SignatureHeads(us[1..]));
      }
      SameTagsStep(ts, us);
    }
  }

  lemma SameTagsStep(ts: seq<MonoType>, us: seq<MonoType>)
    requires ts != [] && us != []
    ensures SameTags(ts, us) <==> SameTag(ts[0], us[0]) && SameTags(ts[1..], us[1..])
    ensures SameTag(ts[0], us[0]) ==> TagHeads(ts[0]) == TagHeads(us[0])
  {
    if SameTag(ts[0], us[0]) && SameTags(ts[1..], us[1..]) {
      forall i | 0 <= i < |ts|
        ensures SameTag(ts[i], us[i])
      {
        if i > 0 {
          assert SameTag(ts[1..][i - 1], us[1..][i - 1]);
        }
      }
    }
  }

  /**
    Signatures in which no function with parameters occurs share their symbols if and only if they differ at most in
    Bool for Byte and in Void for Never.
  */
  lemma {:induction false} FlatClosureSymIff(arity: nat -> nat, ps: seq<MonoType>, r: MonoType, qs: seq<MonoType>,
                                             s: MonoType)
    requires AllConcrete(arity, ps + [r]) && AllConcrete(arity, qs + [s]) && AllFlat(ps + [r]) && AllFlat(qs + [s])
    ensures ClosureStructSym(ps, r) == ClosureStructSym(qs, s) <==> SameTags(ps, qs) && SameTag(r, s)
  {
    SameClosureSymIff(arity, ps, r, qs, s);
    SameRow(arity, ps + [r], qs + [s]);
    SameTagsSnoc(ps, r, qs, s);
  }

  lemma SameTagsSnoc(ps: seq<MonoType>, r: MonoType, qs: seq<MonoType>, s: MonoType)
    ensures SameTags(ps + [r], qs + [s]) <==> SameTags(ps, qs) && SameTag(r, s)
  {
    var ts, us := ps + [r], qs + [s];
    assert ts[|ps|] == r && us[|qs|] == s;
    assert forall i | 0 <= i < |ps| :: ts[i] == ps[i];
    assert forall i | 0 <= i < |qs| :: us[i] == qs[i];
  }

  /**
    A function among the parameters can take the next one over, so that signatures with different numbers of
    parameters share their symbols.
  */
  lemma {:induction false} ClosureSymsCollide(arity: nat -> nat, a: MonoType, b: MonoType, x: MonoType, r: MonoType)
    requires Concrete(arity, a) && Concrete(arity, b) && Concrete(arity, x) && Concrete(arity, r) && !IsScalar(x)
    ensures ClosureStructSym([Function([a], b), x], r) == ClosureStructSym([Function([a, b], x)], r)
  {
    var f, g := Function([a], b), Function([a, b], x);
    OneParameter(g, r);
    TwoParameters(f, x, r);
    FunctionHeads(a, b, x);
    AllThree(arity, f, x, r);
    AllThree(arity, g, g, r);
    SameClosureSymIff(arity, [f, x], r, [g], r);
  }

  lemma AllThree(arity: nat -> nat, f: MonoType, x: MonoType, r: MonoType)
    requires Concrete(arity, f) && Concrete(arity, x) && Concrete(arity, r)
    ensures AllConcrete(arity, [f, x] + [r]) && AllConcrete(arity, [f] + [r])
  {
  }

  lemma {:induction false} OneParameter(f: MonoType, r: MonoType)
    ensures SignatureHeads([f] + [r]) == TagHeads(f) + TagHeads(r)
  {
    TagsAppend([f], r);
    TagsAppend([], f);
    assert [] + [f] == [f] && SignatureHeads([]) + TagHeads(f) == TagHeads(f);
  }

  lemma {:induction false} TwoParameters(f: MonoType, x: MonoType, r: MonoType)
    ensures SignatureHeads([f, x] + [r]) == TagHeads(f) + TagHeads(x) + TagHeads(r)
  {
    OneParameter(f, x);
    assert [f] + [x] == [f, x];
    TagsAppend([f, x], r);
  }

  lemma {:induction false} FunctionHeads(a: MonoType, b: MonoType, x: MonoType)
    ensures TypeHeads(Function([a], b)) + TypeHeads(x) == TypeHeads(Function([a, b], x))
  {
    var fn := Tok(FnHead, 2);
    TokensOfOne(a);
    TokensAppend([a], [b]);
    TokensOfOne(b);
    assert [a] + [b] == [a, b];
    var rest := Tokens(a) + Tokens(b);
    HeadsAppend([fn], rest);
    HeadsAppend([Tok(FnHead, 3)], rest + Tokens(x));
    HeadsAppend(rest, Tokens(x));
    assert Heads([fn]) == Heads([Tok(FnHead, 3)]) by {
      assert [fn][1..] == [] && [Tok(FnHead, 3)][1..] == [];
    }
    Regrouped(Heads([fn]), Heads(rest), Heads(Tokens(x)));
  }
}
