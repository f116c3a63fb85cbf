/** Mangled type keys: a decoder, and exactly which keys stand for one type only. */
module Symbols {
  import opened Base
  import opened Mono
  import opened Readings
  import opened Ambiguity

  // ----- Words -----

  predicate IsWord(w: string) { '_' !in w }

  predicate AllWords(ws: seq<string>) { forall i | 0 <= i < |ws| :: IsWord(ws[i]) }

  /** Divide a text at every underscore. */
  function Split(s: string): (ws: seq<string>)
    ensures ws != []
  {
    if s == "" then [""]
    else
      var rest := Split(s[1..]);
      if s[0] == '_' then [""] + rest else [[s[0]] + rest[0]] + rest[1..]
  }

  lemma {:induction false} SplitWord(w: string, s: string)
    requires IsWord(w)
    ensures Split(w + "_" + s) == [w] + Split(s)
  {
    var t := w + "_" + s;
    if w == "" {
      assert t[1..] == s;
    } else {
      SplitWord(w[1..], s);
      assert t[1..] == w[1..] + "_" + s;
      assert w == [w[0]] + w[1..];
    }
  }

  lemma {:induction false} SplitOneWord(w: string)
    requires IsWord(w)
    ensures Split(w) == [w]
  {
    if w != "" {
      SplitOneWord(w[1..]);
      assert w == [w[0]] + w[1..];
    }
  }

  /** Joining with underscores is undone by splitting at them. */
  lemma {:induction false} SplitJoin(ws: seq<string>)
    requires ws != [] && AllWords(ws)
    ensures Split(Join(ws)) == ws
  {
    if |ws| == 1 {
      SplitOneWord(ws[0]);
    } else {
      SplitJoin(ws[1..]);
      SplitWord(ws[0], Join(ws[1..]));
      assert ws == [ws[0]] + ws[1..];
    }
  }

  lemma {:induction false} JoinAppend(a: seq<string>, b: seq<string>)
    requires a != [] && b != []
    ensures Join(a + b) == Join(a) + "_" + Join(b)
  {
    if |a| == 1 {
      assert (a + b)[1..] == b;
    } else {
      JoinAppend(a[1..], b);
      assert (a + b)[1..] == a[1..] + b;
    }
  }

  // ----- Keys as words -----

  function Words(t: MonoType): (ws: seq<string>)
    ensures ws != []
    decreases t, 1
  {
    match t
    case TVar(name) => [name]
    case MetaVar(id) => ["M" + Decimal(id)]
    case Int => ["Int"]
    case Float => ["Float"]
    case Bool => ["Bool"]
    case Byte => ["Byte"]
    case String => ["String"]
    case Void => ["Void"]
    case Never => ["Never"]
    case Vector(e) => ["Vec"] + Words(e)
    case Dict(k, v) => ["Dict"] + Words(k) + Words(v)
    case Named(id, args) => ["T" + Decimal(id)] + WordsOfAll(args)
    case ExternRef(id) => ["Extern" + Decimal(id)]
    case Function(ps, r) => ["Fn"] + (if ps == [] then [""] else WordsOfAll(ps)) + Words(r)
  }

  function WordsOfAll(ts: seq<MonoType>): (ws: seq<string>)
    ensures ts != [] ==> ws != []
    decreases ts, 0
  {
    if ts == [] then [] else Words(ts[0]) + WordsOfAll(ts[1..])
  }

  lemma {:induction false} KeyIsWords(t: MonoType)
    ensures SymbolKey(t) == Join(Words(t))
    decreases t, 1
  {
    match t
    case Vector(e) =>
      KeyIsWords(e);
      JoinAppend(["Vec"], Words(e));
    case Dict(k, v) =>
      KeyIsWords(k);
      KeyIsWords(v);
      DictKey(k, v);
    case Named(id, args) =>
      if args != [] {
        KeysAreWords(args);
        JoinAppend(["T" + Decimal(id)], WordsOfAll(args));
      }
    case Function(ps, r) =>
      KeyIsWords(r);
      if ps != [] {
        KeysAreWords(ps);
      }
      FunctionKey(ps, r);
    case _ =>
  }

  lemma DictKey(k: MonoType, v: MonoType)
    requires SymbolKey(k) == Join(Words(k)) && SymbolKey(v) == Join(Words(v))
    ensures SymbolKey(Dict(k, v)) == Join(Words(Dict(k, v)))
  {
    assert "Dict" + "_" == "Dict_";
    DictWords("Dict", Words(k), Words(v));
  }

  lemma DictWords(w: string, a: seq<string>, b: seq<string>)
    requires a != [] && b != []
    ensures Join([w] + a + b) == w + "_" + Join(a) + "_" + Join(b)
  {
    JoinAppend([w], a);
    JoinAppend([w] + a, b);
  }

  lemma FunctionKey(ps: seq<MonoType>, r: MonoType)
    requires SymbolKey(r) == Join(Words(r))
    requires ps != [] ==> Join(SymbolKeys(ps)) == Join(WordsOfAll(ps))
    ensures SymbolKey(Function(ps, r)) == Join(Words(Function(ps, r)))
  {
    var front := if ps == [] then [""] else WordsOfAll(ps);
    JoinAppend(["Fn"], front);
    JoinAppend(["Fn"] + front, Words(r));
  }

  lemma {:induction false} KeysAreWords(ts: seq<MonoType>)
    requires ts != []
    ensures Join(SymbolKeys(ts)) == Join(WordsOfAll(ts))
    decreases ts, 0
  {
    KeyIsWords(ts[0]);
    if |ts| > 1 {
      KeysAreWords(ts[1..]);
      JoinAppend(Words(ts[0]), WordsOfAll(ts[1..]));
      assert SymbolKeys(ts)[1..] == SymbolKeys(ts[1..]);
    } else {
      assert SymbolKeys(ts) == [SymbolKey(ts[0])];
      assert WordsOfAll(ts) == Words(ts[0]) + WordsOfAll(ts[1..]) == Words(ts[0]);
    }
  }

  // ----- Heads as words -----

  /** The value of a run of decimal digits. */
  function DecimalValue(s: string): (r: Option<nat>) {
    if s == "" then Some(0)
    else
      var front, last := DecimalValue(s[..|s| - 1]), s[|s| - 1];
      if front.Some? && '0' <= last <= '9' then Some(front.value * 10 + (last as nat - 48)) else None
  }

  lemma {:induction false} DecimalSnoc(s: string, v: nat, d: nat)
    requires DecimalValue(s) == Some(v) && d < 10
    ensures DecimalValue(s + [Digit(d)]) == Some(v * 10 + d)
  {
    var t := s + [Digit(d)];
    assert t[..|t| - 1] == s && t[|t| - 1] == Digit(d);
  }

  lemma {:induction false} DecimalDecodes(n: nat)
    ensures DecimalValue(Decimal(n)) == Some(n) && IsWord(Decimal(n))
  {
    if n < 10 {
      DecimalSnoc("", 0, n);
      assert "" + [Digit(n)] == Decimal(n);
    } else {
      DecimalDecodes(n / 10);
      DecimalSnoc(Decimal(n / 10), n / 10, n % 10);
      assert Decimal(n) == Decimal(n / 10) + [Digit(n % 10)];
      assert n / 10 * 10 + n % 10 == n;
    }
  }

  /** Different record types have different structs. */
  lemma RecordSymInjective(a: nat, b: nat)
    requires RecordSym(a) == RecordSym(b)
    ensures a == b
  {
    assert RecordSym(a)[11..] == Decimal(a) && RecordSym(b)[11..] == Decimal(b);
    DecimalDecodes(a);
    DecimalDecodes(b);
  }

  /** `mono_to_type_tag` for the scalar types. */
  predicate IsTag(w: string) { w in ["i64", "f64", "i32", "str", "void"] }

  function KeywordHead(w: string): (h: Head) {
    if IsTag(w) then TagHead(w)
    else if w == "Int" then Simple(Int)
    else if w == "Float" then Simple(Float)
    else if w == "Bool" then Simple(Bool)
    else if w == "Byte" then Simple(Byte)
    else if w == "String" then Simple(String)
    else if w == "Void" then Simple(Void)
    else if w == "Never" then Simple(Never)
    else if w == "Vec" then VectorHead
    else if w == "Dict" then DictHead
    else NoHead
  }

  function ParseHead(w: string): (h: Head) {
    if w != "" && w[0] == 'T' then
      var id := DecimalValue(w[1..]);
      if id.Some? then NamedTypeHead(id.value) else NoHead
    else if |w| >= 6 && w[..6] == "Extern" then
      var id := DecimalValue(w[6..]);
      if id.Some? then Simple(ExternRef(id.value)) else NoHead
    else KeywordHead(w)
  }

  lemma HeadOfNamed(id: nat)
    ensures ParseHead("T" + Decimal(id)) == NamedTypeHead(id) && IsWord("T" + Decimal(id))
  {
    DecimalDecodes(id);
    assert ("T" + Decimal(id))[1..] == Decimal(id);
  }

  lemma HeadOfExtern(id: nat)
    ensures ParseHead("Extern" + Decimal(id)) == Simple(ExternRef(id)) && IsWord("Extern" + Decimal(id))
  {
    DecimalDecodes(id);
    assert ("Extern" + Decimal(id))[6..] == Decimal(id) && ("Extern" + Decimal(id))[..6] == "Extern";
  }

  /** The words of one head; a double underscore between two types counts as a head of its own. */
  function HeadWords(h: Head): (ws: seq<string>)
    ensures ws != []
  {
    match h
    case Simple(t) => Words(t)
    case VectorHead => ["Vec"]
    case DictHead => ["Dict"]
    case NamedTypeHead(id) => ["T" + Decimal(id)]
    case NullaryHead => ["Fn", ""]
    case FnHead => ["Fn"]
    case TagHead(tag) => [tag]
    case NoHead => [""]
  }

  function WordsOfHeads(hs: seq<Head>): (ws: seq<string>) {
    if hs == [] then [] else HeadWords(hs[0]) + WordsOfHeads(hs[1..])
  }

  /** Heads that occur in types and signatures, and the separator. */
  predicate Proper(h: Head) { (h.Simple? ==> IsSimple(h.t)) && (h.TagHead? ==> IsTag(h.tag)) }

  /** A separator never comes straight after a function, whose parameters it would seem to deny. */
  predicate Separated(hs: seq<Head>) {
    (forall i | 0 <= i < |hs| :: Proper(hs[i]))
    && forall i | 0 < i < |hs| :: hs[i].NoHead? ==> !hs[i - 1].FnHead?
  }

  /** A reader of single words that undoes `HeadWords` where one word decides. */
  predicate Understands(head: string -> Head, h: Head) {
    Proper(h) && !h.NullaryHead? && !h.FnHead? ==>
      (var ws := HeadWords(h);
       |ws| == 1 && head(ws[0]) == h && ws[0] != "Fn" && (ws[0] == "" <==> h.NoHead?) && IsWord(ws[0]))
  }

  lemma NamedUnderstood(id: nat)
    ensures Understands(ParseHead, NamedTypeHead(id))
  {
    HeadOfNamed(id);
    assert ("T" + Decimal(id))[0] == 'T' && "Fn"[0] == 'F';
  }

  lemma ExternUnderstood(id: nat)
    ensures Understands(ParseHead, Simple(ExternRef(id)))
  {
    HeadOfExtern(id);
    assert ("Extern" + Decimal(id))[0] == 'E' && "Fn"[0] == 'F';
  }

  lemma TagUnderstood(tag: string)
    ensures Understands(ParseHead, TagHead(tag))
  {
    if IsTag(tag) {
      assert tag[0] != 'T' && tag[0] != 'E' && tag[0] != 'F' && "Extern"[0] == 'E';
    }
  }

  lemma KeywordUnderstood(h: Head)
    requires !h.NamedTypeHead? && !h.TagHead? && !(h.Simple? && h.t.ExternRef?)
    ensures Understands(ParseHead, h)
  {
  }

  lemma ParseHeadUnderstands(h: Head)
    ensures Understands(ParseHead, h)
  {
    if h.NamedTypeHead? {
      NamedUnderstood(h.id);
    } else if h.TagHead? {
      TagUnderstood(h.tag);
    } else if h.Simple? && h.t.ExternRef? {
      ExternUnderstood(h.t.typeId);
    } else {
      KeywordUnderstood(h);
    }
  }

  /** Divide words into heads: the empty word behind `Fn` belongs to it. */
  function ReadHeads(head: string -> Head, ws: seq<string>): (hs: seq<Head>) {
    if ws == [] then []
    else if ws[0] == "Fn" then
      if |ws| > 1 && ws[1] == "" then [NullaryHead] + ReadHeads(head, ws[2..]) else [FnHead] + ReadHeads(head, ws[1..])
    else [head(ws[0])] + ReadHeads(head, ws[1..])
  }

  lemma FirstWord(head: string -> Head, hs: seq<Head>)
    requires hs != [] && Separated(hs) && Understands(head, hs[0])
    ensures WordsOfHeads(hs) != [] && WordsOfHeads(hs)[0] == HeadWords(hs[0])[0]
    ensures WordsOfHeads(hs)[0] == "" <==> hs[0].NoHead?
  {
    if hs[0].FnHead? || hs[0].NullaryHead? {
      assert HeadWords(hs[0])[0] == "Fn";
    }
  }

  lemma ReadOneHead(head: string -> Head, h: Head, ws: seq<string>)
    requires Proper(h) && Understands(head, h) && (h.FnHead? && ws != [] ==> ws[0] != "")
    ensures ReadHeads(head, HeadWords(h) + ws) == [h] + ReadHeads(head, ws)
  {
    var all := HeadWords(h) + ws;
    if h.NullaryHead? {
      assert all[2..] == ws;
    } else {
      assert all[1..] == ws;
    }
  }

  /** The words of heads are divided into the same heads again. */
  lemma {:induction false} ReadHeadsInverts(head: string -> Head, hs: seq<Head>)
    requires Separated(hs) && forall h: Head :: Understands(head, h)
    ensures ReadHeads(head, WordsOfHeads(hs)) == hs
  {
    if hs != [] {
      var rest := hs[1..];
      assert Separated(rest) by {
        assert forall i | 0 <= i < |rest| :: rest[i] == hs[i + 1];
      }
      ReadHeadsInverts(head, rest);
      if rest != [] {
        FirstWord(head, rest);
        assert rest[0] == hs[1];
      }
      ReadOneHead(head, hs[0], WordsOfHeads(rest));
      assert hs == [hs[0]] + rest;
    }
  }

  // ----- Types as heads -----

  /** What a key fixes of a type. */
  function TypeHeads(t: MonoType): (hs: seq<Head>) { Heads(Tokens(t)) }

  lemma ConsAssoc(h: Head, a: seq<Head>, b: seq<Head>)
    ensures [h] + (a + b) == [h] + a + b
  {
  }

  lemma {:induction false} HeadsAppend(a: seq<Tok>, b: seq<Tok>)
    ensures Heads(a + b) == Heads(a) + Heads(b)
  {
    if a == [] {
      assert a + b == b;
    } else {
      HeadsAppend(a[1..], b);
      assert a + b == [a[0]] + (a[1..] + b) && a == [a[0]] + a[1..];
      HeadsOfCons(a[0], a[1..] + b);
      HeadsOfCons(a[0], a[1..]);
      ConsAssoc(a[0].head, Heads(a[1..]), Heads(b));
    }
  }

  lemma WordsOfHeadsStep(hs: seq<Head>)
    requires hs != []
    ensures WordsOfHeads(hs) == HeadWords(hs[0]) + WordsOfHeads(hs[1..])
  {
  }

  lemma {:induction false} WordsOfHeadsAppend(a: seq<Head>, b: seq<Head>)
    ensures WordsOfHeads(a + b) == WordsOfHeads(a) + WordsOfHeads(b)
  {
    if a == [] {
      assert a + b == b;
    } else {
      WordsOfHeadsAppend(a[1..], b);
      assert (a + b)[1..] == a[1..] + b;
      WordsOfHeadsStep(a + b);
      WordsOfHeadsStep(a);
      Assoc(HeadWords(a[0]), WordsOfHeads(a[1..]), WordsOfHeads(b));
    }
  }

  lemma Assoc(a: seq<string>, b: seq<string>, c: seq<string>)
    ensures a + (b + c) == a + b + c
  {
  }

  function TokWords(ts: seq<Tok>): (ws: seq<string>) { WordsOfHeads(Heads(ts)) }

  lemma TokWordsAppend(a: seq<Tok>, b: seq<Tok>)
    ensures TokWords(a + b) == TokWords(a) + TokWords(b)
  {
    HeadsAppend(a, b);
    WordsOfHeadsAppend(Heads(a), Heads(b));
  }

  lemma TokWordsOne(tok: Tok)
    ensures TokWords([tok]) == HeadWords(tok.head)
  {
    assert [tok][1..] == [] && [tok.head][1..] == [];
    assert Heads([tok]) == [tok.head];
    assert WordsOfHeads([tok.head]) == HeadWords(tok.head) + [];
  }

  /** A key spells out the heads of its type and nothing else. */
  lemma {:induction false} WordsAreHeads(arity: nat -> nat, t: MonoType)
    requires Concrete(arity, t)
    ensures Words(t) == TokWords(Tokens(t))
    decreases t, 1
  {
    if t.Vector? {
      WordsAreHeads(arity, t.elem);
      OnePart(Tok(VectorHead, 1), Tokens(t.elem));
    } else if t.Dict? {
      WordsAreHeads(arity, t.key);
      WordsAreHeads(arity, t.val);
      TwoParts(Tok(DictHead, 2), Tokens(t.key), Tokens(t.val));
    } else if t.Named? {
      WordsOfAllAreHeads(arity, t.args);
      OnePart(Tok(NamedTypeHead(t.typeId), |t.args|), TokensOfAll(t.args));
    } else if t.Function? {
      WordsAreHeads(arity, t.ret);
      FunctionWordsAreHeads(arity, t);
    } else {
      TokWordsOne(Tok(Simple(t), 0));
    }
  }

  lemma {:induction false} FunctionWordsAreHeads(arity: nat -> nat, t: MonoType)
    requires t.Function? && Concrete(arity, t) && Words(t.ret) == TokWords(Tokens(t.ret))
    ensures Words(t) == TokWords(Tokens(t))
    decreases t, 0
  {
    if t.params == [] {
      NullaryWords(t.ret);
      OnePart(Tok(NullaryHead, 1), Tokens(t.ret));
    } else {
      WordsOfAllAreHeads(arity, t.params);
      ParamWords(t.params, t.ret);
      TwoParts(Tok(FnHead, |t.params| + 1), TokensOfAll(t.params), Tokens(t.ret));
    }
  }

  lemma NullaryWords(r: MonoType)
    ensures Words(Function([], r)) == HeadWords(NullaryHead) + Words(r)
    ensures Tokens(Function([], r)) == [Tok(NullaryHead, 1)] + Tokens(r)
  {
    assert ["Fn"] + [""] == HeadWords(NullaryHead);
  }

  lemma ParamWords(ps: seq<MonoType>, r: MonoType)
    requires ps != []
    ensures Words(Function(ps, r)) == HeadWords(FnHead) + WordsOfAll(ps) + Words(r)
    ensures Tokens(Function(ps, r)) == [Tok(FnHead, |ps| + 1)] + (TokensOfAll(ps) + Tokens(r))
  {
  }

  lemma OnePart(tok: Tok, a: seq<Tok>)
    ensures TokWords([tok] + a) == HeadWords(tok.head) + TokWords(a)
  {
    TokWordsOne(tok);
    TokWordsAppend([tok], a);
  }

  lemma TwoParts(tok: Tok, a: seq<Tok>, b: seq<Tok>)
    ensures TokWords([tok] + (a + b)) == HeadWords(tok.head) + TokWords(a) + TokWords(b)
  {
    TokWordsOne(tok);
    TokWordsAppend([tok], a + b);
    TokWordsAppend(a, b);
    Assoc(HeadWords(tok.head), TokWords(a), TokWords(b));
  }

  lemma {:induction false} WordsOfAllAreHeads(arity: nat -> nat, xs: seq<MonoType>)
    requires forall x | x in xs :: Concrete(arity, x)
    ensures WordsOfAll(xs) == TokWords(TokensOfAll(xs))
    decreases xs, 0
  {
    if xs != [] {
      WordsAreHeads(arity, xs[0]);
      WordsOfAllAreHeads(arity, xs[1..]);
      TokWordsAppend(Tokens(xs[0]), TokensOfAll(xs[1..]));
    }
  }

  lemma {:induction false} HeadAt(ts: seq<Tok>, i: nat)
    requires i < |ts|
    ensures Heads(ts)[i] == ts[i].head
  {
    if i > 0 {
      HeadAt(ts[1..], i - 1);
    }
  }

  lemma {:induction false} LastIsLeaf(ts: seq<Tok>, k: nat)
    requires ts != [] && Covers(ts, k)
    ensures ts[|ts| - 1].n == 0
  {
    if |ts| > 1 {
      LastIsLeaf(ts[1..], k - 1 + ts[0].n);
    }
  }

  /** Heads of a type need no separator and do not end in a function. */
  lemma {:induction false} TypeHeadsSeparated(arity: nat -> nat, t: MonoType)
    requires Concrete(arity, t)
    ensures var hs := TypeHeads(t);
            hs != [] && Separated(hs) && (forall i | 0 <= i < |hs| :: !hs[i].NoHead?) && !hs[|hs| - 1].FnHead?
  {
    var ts := Tokens(t);
    TokensDetermine(arity, t);
    LastIsLeaf(ts, 1);
    forall i | 0 <= i < |ts|
      ensures Proper(Heads(ts)[i]) && !Heads(ts)[i].NoHead? && (ts[i].n == 0 ==> !Heads(ts)[i].FnHead?)
    {
      HeadAt(ts, i);
      assert Allowed(arity, ts[i]);
    }
  }

  lemma {:induction false} HeadsAreWords(hs: seq<Head>)
    requires forall i | 0 <= i < |hs| :: Proper(hs[i])
    ensures AllWords(WordsOfHeads(hs))
  {
    if hs != [] {
      assert forall i | 0 <= i < |hs[1..]| :: hs[1..][i] == hs[i + 1];
      HeadsAreWords(hs[1..]);
      ParseHeadUnderstands(hs[0]);
    }
  }

  /** From words joined with underscores back to heads. */
  lemma HeadsOfText(hs: seq<Head>)
    requires hs != [] && Separated(hs)
    ensures WordsOfHeads(hs) != [] && AllWords(WordsOfHeads(hs)) && Split(Join(WordsOfHeads(hs))) == WordsOfHeads(hs)
    ensures ReadHeads(ParseHead, Split(Join(WordsOfHeads(hs)))) == hs
  {
    HeadsAreWords(hs);
    SplitJoin(WordsOfHeads(hs));
    forall h: Head
      ensures Understands(ParseHead, h)
    {
      ParseHeadUnderstands(h);
    }
    ReadHeadsInverts(ParseHead, hs);
  }

  // ----- Keys -----

  lemma {:induction false} KeyHeads(arity: nat -> nat, t: MonoType)
    requires Concrete(arity, t)
    ensures SymbolKey(t) == Join(WordsOfHeads(TypeHeads(t)))
    ensures ReadHeads(ParseHead, Split(SymbolKey(t))) == TypeHeads(t)
  {
    KeyIsWords(t);
    WordsAreHeads(arity, t);
    TypeHeadsSeparated(arity, t);
    HeadsOfText(TypeHeads(t));
  }

  /** The key of a type has no other reading if and only if the numbers of parameters in it are pinned down. */
  lemma KeyHasOneReadingIff(arity: nat -> nat, t: MonoType)
    requires Concrete(arity, t)
    ensures OneReading(Tokens(t)) <==> forall u: MonoType | Concrete(arity, u) && SymbolKey(u) == SymbolKey(t) :: u == t
  {
    OneReadingIff(arity, t);
    forall u: MonoType | Concrete(arity, u)
      ensures SymbolKey(u) == SymbolKey(t) <==> TypeHeads(u) == TypeHeads(t)
    {
      KeyHeads(arity, t);
      KeyHeads(arity, u);
    }
  }

  /** A type that a key stands for. */
  function DecodeKey(arity: nat -> nat, key: string): (r: Option<MonoType>) {
    DecodeHeads(arity, ReadHeads(ParseHead, Split(key)))
  }

  /** The decoder finds a type with the given key: the only one, if there is only one. */
  lemma {:induction false} DecodeKeyInverts(arity: nat -> nat, t: MonoType)
    requires Concrete(arity, t)
    ensures var r := DecodeKey(arity, SymbolKey(t));
            r.Some? && Concrete(arity, r.value) && SymbolKey(r.value) == SymbolKey(t)
    ensures OneReading(Tokens(t)) ==> DecodeKey(arity, SymbolKey(t)) == Some(t)
  {
    KeyHeads(arity, t);
    DecodeHeadsReads(arity, t);
    KeyHeads(arity, DecodeKey(arity, SymbolKey(t)).value);
  }

  /** With at most one function that has parameters, every key is unambiguous. */
  lemma {:induction false} FewFunctionsHaveOneReading(ts: seq<Tok>)
    requires FirstFn(ts) == |ts| || NoFn(ts[FirstFn(ts) + 1..])
    ensures OneReading(ts)
  {
    if ts != [] && !ts[0].head.FnHead? {
      assert FirstFn(ts) == 1 + FirstFn(ts[1..]);
      assert ts[1..][FirstFn(ts[1..])..] == ts[FirstFn(ts)..];
      assert FirstFn(ts) < |ts| ==> ts[1..][FirstFn(ts[1..]) + 1..] == ts[FirstFn(ts) + 1..];
      FewFunctionsHaveOneReading(ts[1..]);
    }
  }

  /** Such a type, a function between function-free types for one, shares its key with no other type. */
  lemma FlatFunctionKeysDiffer(arity: nat -> nat, t: MonoType, u: MonoType)
    requires Concrete(arity, t) && Concrete(arity, u) && SymbolKey(t) == SymbolKey(u)
    requires var ts := Tokens(t); FirstFn(ts) == |ts| || NoFn(ts[FirstFn(ts) + 1..])
    ensures t == u
  {
    FewFunctionsHaveOneReading(Tokens(t));
    KeyHasOneReadingIff(arity, t);
  }

  /**
    Nested function types read two ways: the last parameter type of an inner function can move out as long as the
    outer and the inner function have parameters.
  */
  lemma FunctionKeysCollide(ps: seq<MonoType>, qs: seq<MonoType>, r: MonoType, s: MonoType)
    requires ps != [] && qs != []
    ensures var a, b := Function(ps, Function(qs + [r], s)), Function(ps + [Function(qs, r)], s);
            a != b && SymbolKey(a) == SymbolKey(b)
  {
    var a, b := Function(ps, Function(qs + [r], s)), Function(ps + [Function(qs, r)], s);
    KeyIsWords(a);
    KeyIsWords(b);
    WordsAppend(qs, r);
    WordsAppend(ps, Function(qs, r));
    var p, q := WordsOfAll(ps), WordsOfAll(qs);
    assert Words(a) == ["Fn"] + p + (["Fn"] + (q + Words(r)) + Words(s));
    assert Words(b) == ["Fn"] + (p + (["Fn"] + q + Words(r))) + Words(s);
    Shuffle("Fn", p, q, Words(r), Words(s));
    assert |ps| != |ps + [Function(qs, r)]|;
  }

  lemma Shuffle(w: string, p: seq<string>, q: seq<string>, r: seq<string>, s: seq<string>)
    ensures [w] + p + ([w] + (q + r) + s) == [w] + (p + ([w] + q + r)) + s
  {
  }

  lemma {:induction false} WordsAppend(ts: seq<MonoType>, t: MonoType)
    ensures WordsOfAll(ts + [t]) == WordsOfAll(ts) + Words(t)
  {
    if ts == [] {
      assert [t][1..] == [];
    } else {
      WordsAppend(ts[1..], t);
      assert (ts + [t])[1..] == ts[1..] + [t];
      var first, more := Words(ts[0]), WordsOfAll(ts[1..]);
      assert first + (more + Words(t)) == first + more + Words(t);
    }
  }

  /** Two functions side by side can trade a parameter as well. */
  lemma DictKeysCollide()
    ensures var f, g := Function([Int], Int), Function([Int, Int], Int);
            SymbolKey(Dict(f, g)) == SymbolKey(Dict(Function([Int, Int], f), Int))
                && Dict(f, g) != Dict(Function([Int, Int], f), Int)
  {
    var f, g := Function([Int], Int), Function([Int, Int], Int);
    KeyIsWords(Dict(f, g));
    KeyIsWords(Dict(Function([Int, Int], f), Int));
    assert WordsOfAll([Int]) == ["Int"] && WordsOfAll([Int, Int]) == ["Int", "Int"] by {
      assert [Int][1..] == [] && [Int, Int][1..] == [Int];
    }
    assert Words(f) == ["Fn", "Int", "Int"] && Words(g) == ["Fn", "Int", "Int", "Int"];
    assert Words(Function([Int, Int], f)) == ["Fn", "Int", "Int", "Fn", "Int", "Int"];
    assert Words(Dict(f, g)) == Words(Dict(Function([Int, Int], f), Int));
  }
}
