/** Typed iteration and universal iteration produce the same items, however far the iterator is driven. */
module IteratorStream {
  import opened Base
  import opened Wasm
  import opened Mono
  import opened CodeCalculus
  import opened Coercions
  import opened Iterators
  import opened IteratorNext

  /** Boxing the typed result with the emitted conversion gives what the universal helper returns on the boxed state. */
  lemma {:induction false} NextRefines(m: Module, te: TypeEnv, info: IterInfo, seed: Val, c: Val, f: Val -> StepResult)
    returns (o: Val, b: Val)
    requires IterTypes(m.types, te, info) && StepClosure(m, te, info, c, f)
             && HasType(m.types, seed, SeedType(te, info))
    ensures ReturnValue(Exec(m, TypedNext(te, info), State(Empty, TypedFrame(TypedState(info, seed, c))))) == Some(o)
    ensures ReturnValue(Exec(m, UniversalNext(), State(Empty, UniversalFrame(BoxedState(te, info, seed, c)))))
            == Some(b)
    ensures Yields(m, BoxOptionCode(te, info, 0), [o], {}, b)
    ensures Yields(m, UnboxOptionCode(te, info, 0), [b], {}, o)
  {
    o, b := TypedOption(info, c, f(seed)), BoxedOption(te, info, c, f(seed));
    TypedNextReturns(m, te, info, seed, c, f);
    UniversalNextReturns(m, te, info, seed, c, f);
    BoxOptionYields(m, te, info, 0, c, f(seed), [o], {});
    UnboxOptionYields(m, te, info, 0, c, f(seed), [b], {});
  }

  /** What a loop over an iterator sees of one option: nothing more, or an item and the rest. */
  datatype Seen = End | Item(value: Val, rest: Val)

  /** Read an erased iterator option; `None` when the value is not one. */
  function SeeErased(o: Val): (r: Option<Seen>) {
    if o.StructRef? && o.sym == T_VARIANT && |o.fields| == 3 && o.fields[1].I32Val? && o.fields[2].ArrayRef? then
      if o.fields[1].n == 0 then Some(End)
      else if |o.fields[2].elems| == 1 then
        var item := o.fields[2].elems[0];
        if item.StructRef? && item.sym == ITEM_RECORD && |item.fields| == 2
        then Some(Item(item.fields[0], item.fields[1])) else None
      else None
    else None
  }

  /** Read a typed iterator option. */
  function SeeTyped(info: IterInfo, o: Val): (r: Option<Seen>) {
    if o.StructRef? && o.sym == IterOptionSym(info) && |o.fields| == 2 && o.fields[0].I32Val? then
      if o.fields[0].n == 0 then Some(End)
      else
        var item := o.fields[1];
        if item.StructRef? && item.sym == IterItemSym(info) && |item.fields| == 2
        then Some(Item(item.fields[0], item.fields[1])) else None
    else None
  }

  /** One call of the universal helper, as the loop sees it. */
  function UniversalSee(m: Module, it: Val): (r: Option<Seen>) {
    var o := ReturnValue(Exec(m, UniversalNext(), State(Empty, UniversalFrame(it))));
    if o.None? then None else SeeErased(o.value)
  }

  /** One call of the typed helper, as the loop sees it. */
  function TypedSee(m: Module, te: TypeEnv, info: IterInfo, it: Val): (r: Option<Seen>)
    requires CanUnbox(YieldType(te, info)) && CanUnbox(SeedType(te, info))
  {
    var o := ReturnValue(Exec(m, TypedNext(te, info), State(Empty, TypedFrame(it))));
    if o.None? then None else SeeTyped(info, o.value)
  }

  function Prepend(v: Val, rest: Option<seq<Val>>): (r: Option<seq<Val>>) {
    if rest.None? then None else Some([v] + rest.value)
  }

  /** The first `n` items of an iterator that is driven by `see`; `None` if a call ever fails. */
  function Items(see: Val -> Option<Seen>, it: Val, n: nat): (r: Option<seq<Val>>)
    decreases n
  {
    if n == 0 then Some([])
    else match see(it)
      case None => None
      case Some(End) => Some([])
      case Some(Item(v, rest)) => Prepend(v, Items(see, rest, n - 1))
  }

  function UniversalSeer(m: Module): (see: Val -> Option<Seen>) { (it: Val) => UniversalSee(m, it) }

  function TypedSeer(m: Module, te: TypeEnv, info: IterInfo): (see: Val -> Option<Seen>)
    requires CanUnbox(YieldType(te, info)) && CanUnbox(SeedType(te, info))
  {
    (it: Val) => TypedSee(m, te, info, it)
  }

  /** The first `n` items the universal helper delivers. */
  function UniversalItems(m: Module, it: Val, n: nat): (r: Option<seq<Val>>) { Items(UniversalSeer(m), it, n) }

  /** The first `n` items the typed helper delivers. */
  function TypedItems(m: Module, te: TypeEnv, info: IterInfo, it: Val, n: nat): (r: Option<seq<Val>>)
    requires CanUnbox(YieldType(te, info)) && CanUnbox(SeedType(te, info))
  {
    Items(TypedSeer(m, te, info), it, n)
  }

  /** The meaning of `Iterator.unfold`: apply the step function until it is done. */
  function Unfold(f: Val -> StepResult, seed: Val, n: nat): (vs: seq<Val>)
    decreases n
  {
    if n == 0 then []
    else match f(seed)
      case Done => []
      case Yield(y, s) => [y] + Unfold(f, s, n - 1)
  }

  function BoxAll(t: ValType, vs: seq<Val>): (ws: seq<Val>)
    ensures |ws| == |vs| && forall i :: 0 <= i < |vs| ==> ws[i] == Box(t, vs[i])
  {
    if vs == [] then [] else [Box(t, vs[0])] + BoxAll(t, vs[1..])
  }

  /**
    From any seed that is `ok`, one call on the state of that seed shows what the step function does, and the seed that
    follows is `ok` again.
  */
  ghost predicate Follows(see: Val -> Option<Seen>, state: Val -> Val, show: Val -> Val, f: Val -> StepResult,
                          ok: Val -> bool) {
    forall s: Val | ok(s) ::
      see(state(s)) == Some(if f(s).Done? then End else Item(show(f(s).value), state(f(s).seed)))
      && (f(s).Yield? ==> ok(f(s).seed))
  }

  function Shown(show: Val -> Val, vs: seq<Val>): (ws: seq<Val>) {
    seq(|vs|, i requires 0 <= i < |vs| => show(vs[i]))
  }

  lemma {:induction false} ItemsMore(see: Val -> Option<Seen>, it: Val, v: Val, rest: Val, n: nat, vs: seq<Val>)
    requires n > 0 && see(it) == Some(Item(v, rest)) && Items(see, rest, n - 1) == Some(vs)
    ensures Items(see, it, n) == Some([v] + vs)
  {
  }

  lemma {:induction false} UnfoldMore(show: Val -> Val, f: Val -> StepResult, seed: Val, n: nat)
    requires n > 0 && f(seed).Yield?
    ensures Shown(show, Unfold(f, seed, n)) == [show(f(seed).value)] + Shown(show, Unfold(f, f(seed).seed, n - 1))
  {
    assert Unfold(f, seed, n) == [f(seed).value] + Unfold(f, f(seed).seed, n - 1);
  }

  lemma {:induction false} UnfoldEnds(show: Val -> Val, f: Val -> StepResult, seed: Val, n: nat)
    requires n == 0 || f(seed).Done?
    ensures Shown(show, Unfold(f, seed, n)) == []
  {
  }

  lemma {:induction false} ItemsFollow(see: Val -> Option<Seen>, state: Val -> Val, show: Val -> Val,
                                       f: Val -> StepResult, ok: Val -> bool, seed: Val, n: nat)
    requires Follows(see, state, show, f, ok) && ok(seed)
    ensures Items(see, state(seed), n) == Some(Shown(show, Unfold(f, seed, n)))
    decreases n
  {
    if n == 0 || f(seed).Done? {
      UnfoldEnds(show, f, seed, n);
    } else {
      var next := f(seed).seed;
      ItemsFollow(see, state, show, f, ok, next, n - 1);
      ItemsMore(see, state(seed), show(f(seed).value), state(next), n, Shown(show, Unfold(f, next, n - 1)));
      UnfoldMore(show, f, seed, n);
    }
  }

  lemma {:induction false} UniversalSees(m: Module, te: TypeEnv, info: IterInfo, seed: Val, c: Val,
                                         f: Val -> StepResult)
    requires IterTypes(m.types, te, info) && StepClosure(m, te, info, c, f)
             && HasType(m.types, seed, SeedType(te, info))
    ensures UniversalSee(m, BoxedState(te, info, seed, c))
         == Some(if f(seed).Done? then End
                 else Item(Box(YieldType(te, info), f(seed).value), BoxedState(te, info, f(seed).seed, c)))
  {
    UniversalNextReturns(m, te, info, seed, c, f);
  }

  lemma {:induction false} TypedSees(m: Module, te: TypeEnv, info: IterInfo, seed: Val, c: Val, f: Val -> StepResult)
    requires IterTypes(m.types, te, info) && StepClosure(m, te, info, c, f)
             && HasType(m.types, seed, SeedType(te, info))
    ensures TypedSee(m, te, info, TypedState(info, seed, c))
         == Some(if f(seed).Done? then End else Item(f(seed).value, TypedState(info, f(seed).seed, c)))
  {
    TypedNextReturns(m, te, info, seed, c, f);
  }

  lemma {:induction false} TypedItemsAreUnfold(m: Module, te: TypeEnv, info: IterInfo, seed: Val, c: Val,
                                               f: Val -> StepResult, n: nat)
    requires IterTypes(m.types, te, info) && StepClosure(m, te, info, c, f)
             && HasType(m.types, seed, SeedType(te, info))
    ensures TypedItems(m, te, info, TypedState(info, seed, c), n) == Some(Unfold(f, seed, n))
  {
    var see, state, show := TypedSeer(m, te, info), (s: Val) => TypedState(info, s, c), (v: Val) => v;
    var ok := (s: Val) => HasType(m.types, s, SeedType(te, info));
    forall s: Val | ok(s)
      ensures see(state(s)) == Some(if f(s).Done? then End else Item(show(f(s).value), state(f(s).seed)))
      ensures f(s).Yield? ==> ok(f(s).seed)
    {
      TypedSees(m, te, info, s, c, f);
    }
    ItemsFollow(see, state, show, f, ok, seed, n);
    assert Shown(show, Unfold(f, seed, n)) == Unfold(f, seed, n);
  }

  lemma {:induction false} UniversalItemsAreUnfold(m: Module, te: TypeEnv, info: IterInfo, seed: Val, c: Val,
                                                   f: Val -> StepResult, n: nat)
    requires IterTypes(m.types, te, info) && StepClosure(m, te, info, c, f)
             && HasType(m.types, seed, SeedType(te, info))
    ensures UniversalItems(m, BoxedState(te, info, seed, c), n) == Some(BoxAll(YieldType(te, info), Unfold(f, seed, n)))
  {
    var see, state := UniversalSeer(m), (s: Val) => BoxedState(te, info, s, c);
    var show, ok := (v: Val) => Box(YieldType(te, info), v), (s: Val) => HasType(m.types, s, SeedType(te, info));
    forall s: Val | ok(s)
      ensures see(state(s)) == Some(if f(s).Done? then End else Item(show(f(s).value), state(f(s).seed)))
      ensures f(s).Yield? ==> ok(f(s).seed)
    {
      UniversalSees(m, te, info, s, c, f);
    }
    ItemsFollow(see, state, show, f, ok, seed, n);
    assert Shown(show, Unfold(f, seed, n)) == BoxAll(YieldType(te, info), Unfold(f, seed, n));
  }

  /** Driven `n` times, the universal iterator delivers the boxed items of the typed one. */
  lemma {:induction false} TypedIterationRefinesUniversal(m: Module, te: TypeEnv, info: IterInfo, seed: Val, c: Val,
                                                          f: Val -> StepResult, n: nat)
    requires IterTypes(m.types, te, info) && StepClosure(m, te, info, c, f)
             && HasType(m.types, seed, SeedType(te, info))
    ensures TypedItems(m, te, info, TypedState(info, seed, c), n).Some?
    ensures UniversalItems(m, BoxedState(te, info, seed, c), n)
         == Some(BoxAll(YieldType(te, info), TypedItems(m, te, info, TypedState(info, seed, c), n).value))
  {
    TypedItemsAreUnfold(m, te, info, seed, c, f, n);
    UniversalItemsAreUnfold(m, te, info, seed, c, f, n);
  }
}
