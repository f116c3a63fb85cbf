/** Captured variables from closure creation to the slots of the function that reads them. */
module CalleeFrames {
  import opened Wasm
  import opened Mono
  import opened CodeCalculus
  import opened Coercions
  import opened Anf
  import opened Sequences
  import opened Closures
  import opened LocalSlots

  /** The layout of a function as the extra parameters of `setup_locals_with_extra`. */
  function ExtraParams(layout: seq<nat>): (r: seq<(nat, ValType)>) {
    seq(|layout|, i requires 0 <= i < |layout| => (layout[i], Anyref))
  }

  /** What a call puts into the slots of parameters and captured variables. */
  lemma {:induction false} SlotsOfCall(slots: SlotMap, entries: seq<(nat, ValType)>, layout: seq<nat>,
                                       value: nat -> Val, args: seq<Val>)
    requires |args| == |entries| && Placed(slots, 0, entries) && Placed(slots, |entries|, ExtraParams(layout))
    ensures forall j | 0 <= j < |entries| ::
              entries[j].0 in slots && (args + ValuesOf(value, layout))[slots[entries[j].0].0] == args[j]
    ensures forall x | x in layout ::
              x in slots && slots[x].0 < |args| + |layout| && (args + ValuesOf(value, layout))[slots[x].0] == value(x)
  {
    forall x | x in layout
      ensures x in slots && slots[x].0 < |args| + |layout| && (args + ValuesOf(value, layout))[slots[x].0] == value(x)
    {
      var i :| 0 <= i < |layout| && layout[i] == x;
      assert ExtraParams(layout)[i] == (x, Anyref);
    }
  }

  /**
    A closure made at any site of `f`, called through either trampoline: the function is called once, and in its frame
    the slot of every captured variable holds the value the variable had when the closure was made, and the slot of
    every parameter its argument.
  */
  lemma {:induction false} CaptureReachesCallee(m: Module, sites: seq<Site>, i: nat, capture: nat -> seq<Instr>,
                                                value: nat -> Val, locals: seq<Val>, universal: Sym, typed: Sym,
                                                sym: Sym, user: Sym, tys: seq<ValType>, result: UserResult,
                                                args: seq<Val>, shown: Val, slots: SlotMap,
                                                entries: seq<(nat, ValType)>)
    returns (c: Val, frame: seq<Val>)
    requires i < |sites| && SameCaptures(sites, sites[i].func)
    requires CapturesYield(m, capture, value, sites[i].freeVars, locals)
    requires RuntimeTypes(m.types) && sym in m.types && |m.types[sym].fields| == 3
    requires (forall t | t in tys :: CanUnbox(t)) && ArgsTyped(m.types, args, tys) && |args| == |entries|
    requires Placed(slots, 0, entries) && Placed(slots, |entries|, ExtraParams(Layout(sites, sites[i].func)))
    requires var received := args + ValuesOf(value, Layout(sites, sites[i].func));
             Callable(m, user, |received|) && ShownAs(m.types, result, m.funcs(user).value.run(received), shown)
    ensures frame == args + ValuesOf(value, Layout(sites, sites[i].func))
    ensures Yields(m, MakeTyped(capture, sites[i].freeVars, universal, typed, sym), locals, {}, c)
    ensures c.StructRef? && |c.fields| == 3 && c.fields[0] == FuncRef(universal) && c.fields[2] == FuncRef(typed)
    ensures EndsWith(m, Trampoline(user, tys, |frame| - |args|, result),
                     TrampolineFrame(result, c.fields[1], ArrayRef(T_ARRAY, BoxArgs(tys, args))), shown)
    ensures PassesOn(m, TypedTrampoline(user, |args|, |frame| - |args|), [c.fields[1]] + args,
                     m.funcs(user).value.run(frame))
    ensures forall x | x in sites[i].freeVars :: x in slots && slots[x].0 < |frame| && frame[slots[x].0] == value(x)
    ensures forall j | 0 <= j < |entries| ::
              entries[j].0 in slots && slots[entries[j].0].0 < |frame| && frame[slots[entries[j].0].0] == args[j]
  {
    var layout;
    c, layout := CaptureRoundTrip(m, sites, i, capture, value, locals, universal, typed, sym, user, tys, result, args,
                                  shown);
    frame := args + ValuesOf(value, layout);
    SlotsOfCall(slots, entries, layout, value, args);
    CapturedBySite(sites, i);
    forall x | x in sites[i].freeVars
      ensures x in layout
    {
      assert x in Elems(sites[i].freeVars) && x in Elems(layout);
    }
  }
}
