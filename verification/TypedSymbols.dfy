/** Symbols of typed structs: which shapes a symbol can stand for, and the tables that are keyed by symbol. */
module TypedSymbols {
  import opened Base
  import opened Wasm
  import opened Mono
  import opened Readings
  import opened Ambiguity
  import opened Symbols

  /** The shapes that get a struct type of their own. */
  datatype Shape =
    | CellShape(elem: MonoType)
    | OptionShape(elem: MonoType)
    | ResultShape(ok: MonoType, err: MonoType)
    | UnfoldStepShape(yieldTy: MonoType, seedTy: MonoType)
    | IterStateShape(info: IterInfo)
    | IterItemShape(info: IterInfo)
    | IterOptionShape(info: IterInfo)

  function ShapeSym(shape: Shape): (sym: Sym) {
    match shape
    case CellShape(e) => CellSym(e)
    case OptionShape(e) => SumSym(Named(OPTION, [e]))
    case ResultShape(t, e) => SumSym(Named(RESULT, [t, e]))
    case UnfoldStepShape(y, s) => UnfoldStepSym(y, s)
    case IterStateShape(info) => IterStateSym(info)
    case IterItemShape(info) => IterItemSym(info)
    case IterOptionShape(info) => IterOptionSym(info)
  }

  datatype Kind = CellKind | OptionKind | ResultKind | UnfoldStepKind | IterStateKind | IterItemKind | IterOptionKind

  function KindFor(shape: Shape): (k: Kind) {
    match shape
    case CellShape(_) => CellKind
    case OptionShape(_) => OptionKind
    case ResultShape(_, _) => ResultKind
    case UnfoldStepShape(_, _) => UnfoldStepKind
    case IterStateShape(_) => IterStateKind
    case IterItemShape(_) => IterItemKind
    case IterOptionShape(_) => IterOptionKind
  }

  function Front(kind: Kind): (ws: seq<string>)
    ensures AllWords(ws)
  {
    match kind
    case CellKind => ["cell"]
    case OptionKind => ["option", ""]
    case ResultKind => ["result", ""]
    case UnfoldStepKind => ["unfold", "step", ""]
    case IterStateKind => ["iter", "state", ""]
    case IterItemKind => ["iter", "item", ""]
    case IterOptionKind => ["option", "", "iter", "item", ""]
  }

  predicate IsPair(kind: Kind) { !kind.CellKind? && !kind.OptionKind? }

  /** The one or two types in a shape. */
  function FirstPart(shape: Shape): (t: MonoType) {
    match shape
    case CellShape(e) => e
    case OptionShape(e) => e
    case ResultShape(t, _) => t
    case UnfoldStepShape(y, _) => y
    case IterStateShape(i) => i.yieldTy
    case IterItemShape(i) => i.yieldTy
    case IterOptionShape(i) => i.yieldTy
  }

  function SecondPart(shape: Shape): (t: MonoType) {
    match shape
    case CellShape(e) => e
    case OptionShape(e) => e
    case ResultShape(_, e) => e
    case UnfoldStepShape(_, s) => s
    case IterStateShape(i) => i.seedTy
    case IterItemShape(i) => i.seedTy
    case IterOptionShape(i) => i.seedTy
  }

  function MakeShape(kind: Kind, a: MonoType, b: MonoType): (shape: Shape) {
    match kind
    case CellKind => CellShape(a)
    case OptionKind => OptionShape(a)
    case ResultKind => ResultShape(a, b)
    case UnfoldStepKind => UnfoldStepShape(a, b)
    case IterStateKind => IterStateShape(IterInfo(a, b))
    case IterItemKind => IterItemShape(IterInfo(a, b))
    case IterOptionKind => IterOptionShape(IterInfo(a, b))
  }

  lemma ShapeParts(shape: Shape)
    ensures MakeShape(KindFor(shape), FirstPart(shape), SecondPart(shape)) == shape
  {
  }

  lemma MadeParts(kind: Kind, a: MonoType, b: MonoType)
    requires IsPair(kind) || a == b
    ensures var s := MakeShape(kind, a, b); KindFor(s) == kind && FirstPart(s) == a && SecondPart(s) == b
  {
  }

  predicate ConcreteShape(arity: nat -> nat, shape: Shape) {
    Concrete(arity, FirstPart(shape)) && Concrete(arity, SecondPart(shape))
  }

  /** Each type in the shape has a key with one reading. */
  predicate OneReadingShape(shape: Shape) {
    OneReading(Tokens(FirstPart(shape))) && OneReading(Tokens(SecondPart(shape)))
  }

  // ----- Symbols as words -----

  /** The words of two types; a double underscore is an empty word. */
  function Pair(a: MonoType, b: MonoType): (ws: seq<string>) { Words(a) + ([""] + Words(b)) }

  function Payload(shape: Shape): (ws: seq<string>)
    ensures ws != []
  {
    if IsPair(KindFor(shape)) then Pair(FirstPart(shape), SecondPart(shape)) else Words(FirstPart(shape))
  }

  function ShapeWords(shape: Shape): (ws: seq<string>) { Front(KindFor(shape)) + Payload(shape) }

  lemma PairKey(a: MonoType, b: MonoType)
    ensures Join(Pair(a, b)) == SymbolKey(a) + "__" + SymbolKey(b)
  {
    KeyIsWords(a);
    KeyIsWords(b);
    JoinAppend([""], Words(b));
    JoinAppend(Words(a), [""] + Words(b));
    assert Join([""]) == "";
    assert SymbolKey(a) + "_" + ("" + "_" + SymbolKey(b)) == SymbolKey(a) + "__" + SymbolKey(b);
  }

  /** A fixed beginning of a symbol, and the words behind it. */
  lemma PrefixKey(front: seq<string>, text: string, ws: seq<string>)
    requires front != [] && ws != [] && Join(front) + "_" == text
    ensures text + Join(ws) == Join(front + ws)
  {
    JoinAppend(front, ws);
  }

  lemma PairSym(text: string, a: MonoType, b: MonoType)
    ensures text + SymbolKey(a) + "__" + SymbolKey(b) == text + Join(Pair(a, b))
  {
    PairKey(a, b);
    assert text + (SymbolKey(a) + "__" + SymbolKey(b)) == text + SymbolKey(a) + "__" + SymbolKey(b);
  }

  function Prefix(kind: Kind): (text: string) {
    match kind
    case CellKind => "cell_"
    case OptionKind => "option__"
    case ResultKind => "result__"
    case UnfoldStepKind => "unfold_step__"
    case IterStateKind => "iter_state__"
    case IterItemKind => "iter_item__"
    case IterOptionKind => "option__iter_item__"
  }

  lemma PrefixIsFront(kind: Kind)
    ensures Front(kind) != [] && Join(Front(kind)) + "_" == Prefix(kind)
  {
    Fronts();
  }

  lemma {:induction false} Fronts()
    ensures Join(["cell"]) + "_" == "cell_"
    ensures Join(["option", ""]) + "_" == "option__"
    ensures Join(["result", ""]) + "_" == "result__"
    ensures Join(["unfold", "step", ""]) + "_" == "unfold_step__"
    ensures Join(["iter", "state", ""]) + "_" == "iter_state__"
    ensures Join(["iter", "item", ""]) + "_" == "iter_item__"
    ensures Join(["option", "", "iter", "item", ""]) + "_" == "option__iter_item__"
  {
    ThreeWords("unfold", "step");
    ThreeWords("iter", "state");
    ThreeWords("iter", "item");
    JoinAppend(["option", ""], ["iter", "item", ""]);
    assert ["option", ""] + ["iter", "item", ""] == ["option", "", "iter", "item", ""];
    assert ["option", ""][1..] == [""] && ["result", ""][1..] == [""];
  }

  lemma ThreeWords(a: string, b: string)
    ensures Join([a, b, ""]) == a + "_" + b + "_"
  {
    assert [a, b, ""][1..] == [b, ""] && [b, ""][1..] == [""];
    assert Join([b, ""]) == b + "_" + "";
    assert a + "_" + (b + "_" + "") == a + "_" + b + "_";
  }

  lemma SymIsPrefix(shape: Shape)
    ensures ShapeSym(shape) == Prefix(KindFor(shape)) + Join(Payload(shape))
  {
    if IsPair(KindFor(shape)) {
      PairSym(Prefix(KindFor(shape)), FirstPart(shape), SecondPart(shape));
    } else {
      KeyIsWords(FirstPart(shape));
    }
  }

  lemma ShapeSymIsWords(shape: Shape)
    ensures ShapeSym(shape) == Join(ShapeWords(shape))
  {
    SymIsPrefix(shape);
    PrefixIsFront(KindFor(shape));
    PrefixKey(Front(KindFor(shape)), Prefix(KindFor(shape)), Payload(shape));
  }

  // ----- Symbols as heads -----

  function PairHeads(a: seq<Head>, b: seq<Head>): (hs: seq<Head>) { a + ([NoHead] + b) }

  /** What a symbol fixes of a shape besides its kind. */
  function PayloadHeads(shape: Shape): (hs: seq<Head>) {
    if IsPair(KindFor(shape)) then PairHeads(TypeHeads(FirstPart(shape)), TypeHeads(SecondPart(shape)))
    else TypeHeads(FirstPart(shape))
  }

  predicate NoSeparator(hs: seq<Head>) { forall i | 0 <= i < |hs| :: !hs[i].NoHead? }

  lemma PairHeadsSeparated(a: seq<Head>, b: seq<Head>)
    requires a != [] && Separated(a) && Separated(b) && NoSeparator(b) && !a[|a| - 1].FnHead?
    ensures Separated(PairHeads(a, b))
  {
    var hs := PairHeads(a, b);
    assert forall i | 0 <= i < |a| :: hs[i] == a[i];
    assert hs[|a|] == NoHead;
    assert forall i | |a| < i < |hs| :: hs[i] == b[i - |a| - 1];
  }

  lemma PairHeadsWords(a: seq<Head>, b: seq<Head>)
    ensures WordsOfHeads(PairHeads(a, b)) == WordsOfHeads(a) + ([""] + WordsOfHeads(b))
  {
    WordsOfHeadsAppend(a, [NoHead] + b);
    WordsOfHeadsAppend([NoHead], b);
    assert [NoHead][1..] == [];
    assert WordsOfHeads([NoHead]) == [""] + [];
  }

  lemma {:induction false} PayloadIsHeads(arity: nat -> nat, shape: Shape)
    requires ConcreteShape(arity, shape)
    ensures PayloadHeads(shape) != [] && Separated(PayloadHeads(shape))
            && Payload(shape) == WordsOfHeads(PayloadHeads(shape))
    ensures NoSeparator(TypeHeads(FirstPart(shape))) && NoSeparator(TypeHeads(SecondPart(shape)))
  {
    var a, b := FirstPart(shape), SecondPart(shape);
    WordsAreHeads(arity, a);
    WordsAreHeads(arity, b);
    TypeHeadsSeparated(arity, a);
    TypeHeadsSeparated(arity, b);
    PairHeadsSeparated(TypeHeads(a), TypeHeads(b));
    PairHeadsWords(TypeHeads(a), TypeHeads(b));
  }

  /** The position of the separator. */
  function Separator(hs: seq<Head>): (i: nat)
    ensures i <= |hs|
  {
    if hs == [] || hs[0].NoHead? then 0 else 1 + Separator(hs[1..])
  }

  lemma {:induction false} SeparatorFound(a: seq<Head>, b: seq<Head>)
    requires NoSeparator(a)
    ensures var hs := PairHeads(a, b); var i := Separator(hs); i == |a| < |hs| && hs[..i] == a && hs[i + 1..] == b
  {
    var hs := PairHeads(a, b);
    if a != [] {
      SeparatorFound(a[1..], b);
      assert hs[1..] == PairHeads(a[1..], b);
    }
  }

  /** The kind that the first words announce, and how many words that takes. */
  function KindOf(ws: seq<string>): (r: Option<(Kind, nat)>)
    ensures r.Some? ==> r.value.1 <= |ws|
  {
    if |ws| > 0 && ws[0] == "cell" then Some((CellKind, 1))
    else if |ws| < 3 then None
    else if ws[0] == "option" then
      (if ws[2] == "iter" then (if |ws| < 5 then None else Some((IterOptionKind, 5))) else Some((OptionKind, 2)))
    else if ws[0] == "result" then Some((ResultKind, 2))
    else if ws[0] == "unfold" then Some((UnfoldStepKind, 3))
    else if ws[0] == "iter" then (if ws[1] == "state" then Some((IterStateKind, 3)) else Some((IterItemKind, 3)))
    else None
  }

  lemma KindIsRead(kind: Kind, payload: seq<string>)
    requires payload != [] && (kind == OptionKind ==> payload[0] != "iter")
    ensures KindOf(Front(kind) + payload) == Some((kind, |Front(kind)|))
  {
    var ws := Front(kind) + payload;
    assert ws[0] == Front(kind)[0];
    assert |Front(kind)| > 1 ==> ws[1] == Front(kind)[1];
    assert kind == OptionKind ==> ws[2] == payload[0];
  }

  /** No type begins with the word that marks iterator items. */
  lemma NotIterWord(arity: nat -> nat, t: MonoType)
    requires Concrete(arity, t)
    ensures Words(t)[0] != "iter"
  {
    if t.Named? {
      assert ("T" + Decimal(t.typeId))[0] == 'T' && "iter"[0] == 'i';
    } else if t.ExternRef? {
      assert ("Extern" + Decimal(t.typeId))[0] == 'E' && "iter"[0] == 'i';
    }
  }

  /** A symbol spells out the kind and the heads of its shape. */
  lemma {:induction false} SymHeads(arity: nat -> nat, shape: Shape)
    requires ConcreteShape(arity, shape)
    ensures var ws := Split(ShapeSym(shape));
            KindOf(ws) == Some((KindFor(shape), |Front(KindFor(shape))|)) && |Front(KindFor(shape))| <= |ws|
            && ReadHeads(ParseHead, ws[|Front(KindFor(shape))|..]) == PayloadHeads(shape)
  {
    var front, payload, hs := Front(KindFor(shape)), Payload(shape), PayloadHeads(shape);
    ShapeSymIsWords(shape);
    PayloadIsHeads(arity, shape);
    HeadsOfText(hs);
    SplitJoin(front + payload);
    NotIterWord(arity, FirstPart(shape));
    KindIsRead(KindFor(shape), payload);
    assert (front + payload)[|front|..] == payload;
  }

  predicate SamePartHeads(a: Shape, b: Shape) {
    TypeHeads(FirstPart(a)) == TypeHeads(FirstPart(b)) && TypeHeads(SecondPart(a)) == TypeHeads(SecondPart(b))
  }

  lemma SamePairIff(a: seq<Head>, b: seq<Head>, c: seq<Head>, d: seq<Head>)
    requires NoSeparator(a) && NoSeparator(c)
    ensures PairHeads(a, b) == PairHeads(c, d) <==> a == c && b == d
  {
    SeparatorFound(a, b);
    SeparatorFound(c, d);
  }

  lemma SamePayloadIff(arity: nat -> nat, a: Shape, b: Shape)
    requires ConcreteShape(arity, a) && ConcreteShape(arity, b) && KindFor(a) == KindFor(b)
    ensures PayloadHeads(a) == PayloadHeads(b) <==> SamePartHeads(a, b)
  {
    PayloadIsHeads(arity, a);
    PayloadIsHeads(arity, b);
    SamePairIff(TypeHeads(FirstPart(a)), TypeHeads(SecondPart(a)), TypeHeads(FirstPart(b)), TypeHeads(SecondPart(b)));
  }

  /** Two shapes have one symbol exactly when they agree in kind and heads. */
  lemma SameSymIff(arity: nat -> nat, a: Shape, b: Shape)
    requires ConcreteShape(arity, a) && ConcreteShape(arity, b)
    ensures ShapeSym(a) == ShapeSym(b) <==> KindFor(a) == KindFor(b) && SamePartHeads(a, b)
  {
    if ShapeSym(a) == ShapeSym(b) {
      SymHeads(arity, a);
      SymHeads(arity, b);
      SamePayloadIff(arity, a, b);
    } else if KindFor(a) == KindFor(b) && SamePartHeads(a, b) {
      SamePayloadIff(arity, a, b);
      SameSym(arity, a, b);
    }
  }

  lemma SameSym(arity: nat -> nat, a: Shape, b: Shape)
    requires ConcreteShape(arity, a) && ConcreteShape(arity, b) && KindFor(a) == KindFor(b)
             && PayloadHeads(a) == PayloadHeads(b)
    ensures ShapeSym(a) == ShapeSym(b)
  {
    PayloadIsHeads(arity, a);
    PayloadIsHeads(arity, b);
    ShapeSymIsWords(a);
    ShapeSymIsWords(b);
  }

  /** No other shape of any kind has the symbol if and only if every type in the shape has a key with one reading. */
  lemma SymHasOneReadingIff(arity: nat -> nat, shape: Shape)
    requires ConcreteShape(arity, shape)
    ensures OneReadingShape(shape) <==>
              forall other: Shape | ConcreteShape(arity, other) && ShapeSym(other) == ShapeSym(shape) :: other == shape
  {
    var a, b := FirstPart(shape), SecondPart(shape);
    if OneReadingShape(shape) {
      forall other: Shape | ConcreteShape(arity, other) && ShapeSym(other) == ShapeSym(shape)
        ensures other == shape
      {
        SameSymIff(arity, other, shape);
        SameHeadsSameType(arity, a, FirstPart(other));
        SameHeadsSameType(arity, b, SecondPart(other));
        ShapeParts(other);
        ShapeParts(shape);
      }
    } else {
      var other := OtherShape(arity, shape);
      SameSymIff(arity, other, shape);
    }
  }

  lemma OtherShape(arity: nat -> nat, shape: Shape) returns (other: Shape)
    requires ConcreteShape(arity, shape) && !OneReadingShape(shape)
    ensures ConcreteShape(arity, other) && other != shape && KindFor(other) == KindFor(shape)
            && SamePartHeads(other, shape)
  {
    var a, b := FirstPart(shape), SecondPart(shape);
    OneReadingIff(arity, a);
    OneReadingIff(arity, b);
    var x, y := a, b;
    if !OneReading(Tokens(a)) {
      x :| Concrete(arity, x) && Heads(Tokens(x)) == Heads(Tokens(a)) && x != a;
      if !IsPair(KindFor(shape)) { y := x; }
    } else {
      y :| Concrete(arity, y) && Heads(Tokens(y)) == Heads(Tokens(b)) && y != b;
    }
    other := MakeShape(KindFor(shape), x, y);
    MadeParts(KindFor(shape), x, y);
  }

  // ----- The decoder -----

  /** A shape that a typed symbol stands for. */
  function DecodeSym(arity: nat -> nat, sym: Sym): (r: Option<Shape>) {
    var ws := Split(sym);
    var kind := KindOf(ws);
    if kind.None? then None else DecodePayload(arity, kind.value.0, ReadHeads(ParseHead, ws[kind.value.1..]))
  }

  function DecodePayload(arity: nat -> nat, kind: Kind, hs: seq<Head>): (r: Option<Shape>) {
    if !IsPair(kind) then
      var t := DecodeHeads(arity, hs);
      if t.None? then None else Some(MakeShape(kind, t.value, t.value))
    else
      var i := Separator(hs);
      if i == |hs| then None
      else
        var a, b := DecodeHeads(arity, hs[..i]), DecodeHeads(arity, hs[i + 1..]);
        if a.None? || b.None? then None else Some(MakeShape(kind, a.value, b.value))
  }

  lemma PayloadDecodes(arity: nat -> nat, shape: Shape)
    requires ConcreteShape(arity, shape) && OneReadingShape(shape)
    ensures DecodePayload(arity, KindFor(shape), PayloadHeads(shape)) == Some(shape)
  {
    PayloadIsHeads(arity, shape);
    ShapeParts(shape);
    DecodeHeadsReads(arity, FirstPart(shape));
    DecodeHeadsReads(arity, SecondPart(shape));
    if IsPair(KindFor(shape)) {
      SeparatorFound(TypeHeads(FirstPart(shape)), TypeHeads(SecondPart(shape)));
    }
  }

  /** The decoder inverts the symbols of shapes whose types have one reading each. */
  lemma DecodeSymInverts(arity: nat -> nat, shape: Shape)
    requires ConcreteShape(arity, shape) && OneReadingShape(shape)
    ensures DecodeSym(arity, ShapeSym(shape)) == Some(shape)
  {
    SymHeads(arity, shape);
    PayloadDecodes(arity, shape);
  }

  // ----- The tables of requested types -----

  /** A request never replaces an entry. */
  function Inserted(entries: map<Sym, Shape>, shape: Shape): (r: map<Sym, Shape>) {
    if ShapeSym(shape) in entries then entries else entries[ShapeSym(shape) := shape]
  }

  /** The table after a row of requests. */
  function EntriesAfter(log: seq<Shape>): (r: map<Sym, Shape>) {
    if log == [] then map[] else Inserted(EntriesAfter(log[..|log| - 1]), log[|log| - 1])
  }

  lemma {:induction false} EntriesSnoc(log: seq<Shape>, sym: Sym, shape: Shape)
    requires sym == ShapeSym(shape)
    ensures EntriesAfter(log + [shape])
         == if sym in EntriesAfter(log) then EntriesAfter(log) else EntriesAfter(log)[sym := shape]
  {
    assert (log + [shape])[..|log|] == log;
  }

  /** `typed_..._info_for_valtype`: the shape behind a reference type, if it has been requested. */
  function Lookup(entries: map<Sym, Shape>, ty: ValType): (r: Option<Shape>) {
    if ty.Ref? && ty.heap.NamedHeap? && ty.heap.sym in entries then Some(entries[ty.heap.sym]) else None
  }

  /** One of the tables of requested types, keyed by symbol. */
  class TypeTable {
    var entries: map<Sym, Shape>
    ghost var log: seq<Shape>

    ghost predicate Valid()
      reads this
    {
      entries == EntriesAfter(log)
    }

    constructor ()
      ensures Valid() && log == []
    {
      entries, log := map[], [];
    }

    method Request(sym: Sym, shape: Shape)
      requires Valid() && sym == ShapeSym(shape)
      modifies this
      ensures Valid() && log == old(log) + [shape]
    {
      EntriesSnoc(log, sym, shape);
      if sym !in entries {
        entries := entries[sym := shape];
      }
      log := log + [shape];
    }

    method InfoForValType(ty: ValType) returns (r: Option<Shape>)
      requires Valid()
      ensures r == Lookup(EntriesAfter(log), ty)
    {
      r := Lookup(entries, ty);
    }
  }

  predicate Requested(log: seq<Shape>, sym: Sym) { exists i :: 0 <= i < |log| && ShapeSym(log[i]) == sym }

  lemma {:induction false} RequestedSnoc(log: seq<Shape>, shape: Shape, sym: Sym)
    ensures Requested(log + [shape], sym) <==> Requested(log, sym) || ShapeSym(shape) == sym
  {
    var all := log + [shape];
    assert all[|log|] == shape && forall i | 0 <= i < |log| :: all[i] == log[i];
    if Requested(log, sym) {
      var i :| 0 <= i < |log| && ShapeSym(log[i]) == sym;
      assert ShapeSym(all[i]) == sym;
    }
  }

  lemma InLogIsRequested(log: seq<Shape>, shape: Shape)
    ensures shape in log ==> Requested(log, ShapeSym(shape))
  {
    if shape in log {
      var i :| 0 <= i < |log| && log[i] == shape;
      assert ShapeSym(log[i]) == ShapeSym(shape);
    }
  }

  /** Every entry is a request, filed under its own symbol, and every requested symbol has an entry. */
  lemma {:induction false} EntriesAreRequests(log: seq<Shape>, sym: Sym)
    ensures sym in EntriesAfter(log) <==> Requested(log, sym)
    ensures sym in EntriesAfter(log) ==> EntriesAfter(log)[sym] in log && ShapeSym(EntriesAfter(log)[sym]) == sym
  {
    if log != [] {
      var front, last := log[..|log| - 1], log[|log| - 1];
      EntriesAreRequests(front, sym);
      EntriesSnoc(front, ShapeSym(last), last);
      RequestedSnoc(front, last, sym);
      assert log == front + [last];
    }
  }

  /** Later requests replace nothing. */
  lemma {:induction false} EntriesKept(a: seq<Shape>, b: seq<Shape>, sym: Sym)
    requires sym in EntriesAfter(a)
    ensures sym in EntriesAfter(a + b) && EntriesAfter(a + b)[sym] == EntriesAfter(a)[sym]
  {
    if b == [] {
      assert a + b == a;
    } else {
      var front, last := b[..|b| - 1], b[|b| - 1];
      EntriesKept(a, front, sym);
      EntriesSnoc(a + front, ShapeSym(last), last);
      assert a + b == a + front + [last];
    }
  }

  predicate AllConcreteShapes(arity: nat -> nat, log: seq<Shape>) {
    forall i | 0 <= i < |log| :: ConcreteShape(arity, log[i])
  }

  /**
    A lookup gives back exactly the shape that was asked for, and nothing for a shape that was not, if the shape has a
    symbol of its own.
  */
  lemma {:induction false} LookupReturnsRequested(arity: nat -> nat, log: seq<Shape>, shape: Shape)
    requires AllConcreteShapes(arity, log) && ConcreteShape(arity, shape) && OneReadingShape(shape)
    ensures Lookup(EntriesAfter(log), RefTo(ShapeSym(shape))) == if shape in log then Some(shape) else None
  {
    SymHasOneReadingIff(arity, shape);
    var sym := ShapeSym(shape);
    EntriesAreRequests(log, sym);
    if sym in EntriesAfter(log) {
      assert ConcreteShape(arity, EntriesAfter(log)[sym]);
    }
    InLogIsRequested(log, shape);
  }

  /** If a type in the shape has a second reading, a table can answer with a shape that was not asked for. */
  lemma {:induction false} LookupConfuses(arity: nat -> nat, shape: Shape) returns (other: Shape)
    requires ConcreteShape(arity, shape) && !OneReadingShape(shape)
    ensures ConcreteShape(arity, other) && other != shape
    ensures Lookup(EntriesAfter([other] + [shape]), RefTo(ShapeSym(shape))) == Some(other)
  {
    other := OtherShape(arity, shape);
    SameSymIff(arity, other, shape);
    assert ([other] + [shape])[..1] == [other] && [other][..0] == [];
    assert EntriesAfter([other]) == Inserted(EntriesAfter([]), other);
    assert EntriesAfter([other] + [shape]) == Inserted(EntriesAfter([other]), shape);
  }

  /** After a request the lookup is right in every history if and only if the shape has a symbol of its own. */
  lemma {:induction false} LookupReliableIff(arity: nat -> nat, shape: Shape)
    requires ConcreteShape(arity, shape)
    ensures OneReadingShape(shape) <==>
              forall log: seq<Shape> | AllConcreteShapes(arity, log) ::
                Lookup(EntriesAfter(log + [shape]), RefTo(ShapeSym(shape))) == Some(shape)
  {
    if OneReadingShape(shape) {
      forall log: seq<Shape> | AllConcreteShapes(arity, log)
        ensures Lookup(EntriesAfter(log + [shape]), RefTo(ShapeSym(shape))) == Some(shape)
      {
        LookupReturnsRequested(arity, log + [shape], shape);
      }
    } else {
      var other := LookupConfuses(arity, shape);
      assert AllConcreteShapes(arity, [other]);
    }
  }
}
