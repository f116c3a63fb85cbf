/**
  Reasoning about emitted code by what it leaves on the operand stack.

  The backend re-emits the code of a value wherever it needs that value again, also after it has stored pattern
  variables. The predicates below therefore speak of every stack and of every assignment to a set of `hidden` locals
  that the code does not read.
*/
module CodeCalculus {
  import opened Base
  import opened Wasm

  /** `a` and `b` give the same value to every local that is not hidden. */
  predicate AgreeOutside(a: seq<Val>, b: seq<Val>, hidden: set<nat>) {
    |a| == |b| && forall k :: 0 <= k < |a| && k !in hidden ==> a[k] == b[k]
  }

  /** `code` pushes `v` and has no other effect. */
  ghost predicate Yields(m: Module, code: seq<Instr>, locals: seq<Val>, hidden: set<nat>, v: Val) {
    forall s: Stack, ls: seq<Val> | AgreeOutside(locals, ls, hidden) ::
      Exec(m, code, State(s, ls)) == Next(State(Push(v, s), ls))
  }

  /** `code` traps on every stack. */
  ghost predicate Traps(m: Module, code: seq<Instr>, locals: seq<Val>, hidden: set<nat>) {
    forall s: Stack, ls: seq<Val> | AgreeOutside(locals, ls, hidden) :: Exec(m, code, State(s, ls)) == Trap
  }

  /** `code` replaces the operand `v` by `w` and has no other effect. */
  ghost predicate Maps(m: Module, code: seq<Instr>, v: Val, w: Val) {
    forall s: Stack, ls: seq<Val> :: Exec(m, code, State(Push(v, s), ls)) == Next(State(Push(w, s), ls))
  }

  function PushAll(vs: seq<Val>, s: Stack): (r: Stack) {
    if vs == [] then s else Push(vs[|vs| - 1], PushAll(vs[..|vs| - 1], s))
  }

  /** `code` pushes the operands `vs` in order and has no other effect. */
  ghost predicate Pushes(m: Module, code: seq<Instr>, locals: seq<Val>, hidden: set<nat>, vs: seq<Val>) {
    forall s: Stack, ls: seq<Val> | AgreeOutside(locals, ls, hidden) ::
      Exec(m, code, State(s, ls)) == Next(State(PushAll(vs, s), ls))
  }

  // ----- Single instructions -----

  lemma {:induction false} ExecOne(m: Module, i: Instr, st: State)
    ensures Exec(m, [i], st) == Step(m, i, st)
  {
    assert [i][1..] == [];
    var o := Step(m, i, st);
    assert Exec(m, [i], st) == AndThen(m, o, []);
    if o.Next? {
      assert Exec(m, [], o.st) == o;
    }
  }

  lemma {:induction false} ExecTwo(m: Module, i: Instr, j: Instr, st: State)
    ensures Exec(m, [i, j], st) == (var o := Step(m, i, st); if o.Next? then Step(m, j, o.st) else o)
  {
    assert [i, j] == [i] + [j];
    ExecConcat(m, [i], [j], st);
    ExecOne(m, i, st);
    var o := Step(m, i, st);
    if o.Next? {
      ExecOne(m, j, o.st);
    }
  }

  lemma {:induction false} MapsCast(m: Module, nullable: bool, heap: HeapType, v: Val)
    requires CastSucceeds(m.types, v, nullable, heap)
    ensures Maps(m, [RefCast(nullable, heap)], v, v)
  {
    forall s: Stack, ls: seq<Val>
      ensures Exec(m, [RefCast(nullable, heap)], State(Push(v, s), ls)) == Next(State(Push(v, s), ls))
    {
      ExecOne(m, RefCast(nullable, heap), State(Push(v, s), ls));
    }
  }

  lemma {:induction false} MapsTest(m: Module, nullable: bool, heap: HeapType, v: Val)
    ensures Maps(m, [RefTest(nullable, heap)], v, I32Val(BoolInt(CastSucceeds(m.types, v, nullable, heap))))
  {
    forall s: Stack, ls: seq<Val>
      ensures Exec(m, [RefTest(nullable, heap)], State(Push(v, s), ls))
           == Next(State(Push(I32Val(BoolInt(CastSucceeds(m.types, v, nullable, heap))), s), ls))
    {
      ExecOne(m, RefTest(nullable, heap), State(Push(v, s), ls));
    }
  }

  lemma {:induction false} MapsGet(m: Module, t: Sym, k: nat, v: Val)
    requires v.StructRef? && SubType(m.types, v.sym, t) && k < |v.fields|
    ensures Maps(m, [StructGet(t, k)], v, v.fields[k])
  {
    forall s: Stack, ls: seq<Val>
      ensures Exec(m, [StructGet(t, k)], State(Push(v, s), ls)) == Next(State(Push(v.fields[k], s), ls))
    {
      ExecOne(m, StructGet(t, k), State(Push(v, s), ls));
    }
  }

  lemma {:induction false} MapsElem(m: Module, t: Sym, k: nat, v: Val)
    requires v.ArrayRef? && v.sym == t && k < |v.elems|
    ensures Maps(m, [I32Const(k), ArrayGet(t)], v, v.elems[k])
  {
    forall s: Stack, ls: seq<Val>
      ensures Exec(m, [I32Const(k), ArrayGet(t)], State(Push(v, s), ls)) == Next(State(Push(v.elems[k], s), ls))
    {
      ExecTwo(m, I32Const(k), ArrayGet(t), State(Push(v, s), ls));
    }
  }

  lemma {:induction false} MapsEq32(m: Module, n: int, x: int)
    ensures Maps(m, [I32Const(n), I32Eq], I32Val(x), I32Val(BoolInt(x == n)))
  {
    forall s: Stack, ls: seq<Val>
      ensures Exec(m, [I32Const(n), I32Eq], State(Push(I32Val(x), s), ls))
           == Next(State(Push(I32Val(BoolInt(x == n)), s), ls))
    {
      ExecTwo(m, I32Const(n), I32Eq, State(Push(I32Val(x), s), ls));
    }
  }

  lemma {:induction false} MapsEq64(m: Module, n: int, x: int)
    ensures Maps(m, [I64Const(n), I64Eq], I64Val(x), I32Val(BoolInt(x == n)))
  {
    forall s: Stack, ls: seq<Val>
      ensures Exec(m, [I64Const(n), I64Eq], State(Push(I64Val(x), s), ls))
           == Next(State(Push(I32Val(BoolInt(x == n)), s), ls))
    {
      ExecTwo(m, I64Const(n), I64Eq, State(Push(I64Val(x), s), ls));
    }
  }

  lemma {:induction false} MapsEqz(m: Module, x: int)
    ensures Maps(m, [I32Eqz], I32Val(x), I32Val(BoolInt(x == 0)))
  {
    forall s: Stack, ls: seq<Val>
      ensures Exec(m, [I32Eqz], State(Push(I32Val(x), s), ls)) == Next(State(Push(I32Val(BoolInt(x == 0)), s), ls))
    {
      ExecOne(m, I32Eqz, State(Push(I32Val(x), s), ls));
    }
  }

  lemma {:induction false} MapsI31Get(m: Module, n: int)
    ensures Maps(m, [I31GetS], I31Ref(n), I32Val(n))
  {
    forall s: Stack, ls: seq<Val>
      ensures Exec(m, [I31GetS], State(Push(I31Ref(n), s), ls)) == Next(State(Push(I32Val(n), s), ls))
    {
      ExecOne(m, I31GetS, State(Push(I31Ref(n), s), ls));
    }
  }

  lemma {:induction false} MapsI31New(m: Module, n: int)
    ensures Maps(m, [RefI31], I32Val(n), I31Ref(Wrap31(n)))
  {
    forall s: Stack, ls: seq<Val>
      ensures Exec(m, [RefI31], State(Push(I32Val(n), s), ls)) == Next(State(Push(I31Ref(Wrap31(n)), s), ls))
    {
      ExecOne(m, RefI31, State(Push(I32Val(n), s), ls));
    }
  }

  lemma {:induction false} MapsNonNull(m: Module, v: Val)
    requires v != NullRef
    ensures Maps(m, [RefAsNonNull], v, v)
  {
    forall s: Stack, ls: seq<Val>
      ensures Exec(m, [RefAsNonNull], State(Push(v, s), ls)) == Next(State(Push(v, s), ls))
    {
      ExecOne(m, RefAsNonNull, State(Push(v, s), ls));
    }
  }

  /** A struct with one field, such as a boxed number. */
  lemma {:induction false} MapsNew1(m: Module, t: Sym, v: Val)
    requires t in m.types && |m.types[t].fields| == 1
    ensures Maps(m, [StructNew(t)], v, StructRef(t, [v]))
  {
    forall s: Stack, ls: seq<Val>
      ensures Exec(m, [StructNew(t)], State(Push(v, s), ls)) == Next(State(Push(StructRef(t, [v]), s), ls))
    {
      ExecOne(m, StructNew(t), State(Push(v, s), ls));
      assert Pop(s, 0) == Some(([], s));
      assert [] + [v] == [v];
    }
  }

  lemma {:induction false} MapsNil(m: Module, v: Val)
    ensures Maps(m, [], v, v)
  {
  }

  lemma {:induction false} MapsConcat(m: Module, a: seq<Instr>, b: seq<Instr>, v: Val, w: Val, x: Val)
    requires Maps(m, a, v, w) && Maps(m, b, w, x)
    ensures Maps(m, a + b, v, x)
  {
    forall s: Stack, ls: seq<Val>
      ensures Exec(m, a + b, State(Push(v, s), ls)) == Next(State(Push(x, s), ls))
    {
      ExecConcat(m, a, b, State(Push(v, s), ls));
    }
  }

  // ----- Code that pushes one value -----

  lemma {:induction false} YieldsLocal(m: Module, k: nat, locals: seq<Val>, hidden: set<nat>)
    requires k < |locals| && k !in hidden
    ensures Yields(m, [LocalGet(k)], locals, hidden, locals[k])
  {
    forall s: Stack, ls: seq<Val> | AgreeOutside(locals, ls, hidden)
      ensures Exec(m, [LocalGet(k)], State(s, ls)) == Next(State(Push(locals[k], s), ls))
    {
      ExecOne(m, LocalGet(k), State(s, ls));
    }
  }

  lemma {:induction false} YieldsConst(m: Module, n: int, locals: seq<Val>, hidden: set<nat>)
    ensures Yields(m, [I32Const(n)], locals, hidden, I32Val(n))
  {
    forall s: Stack, ls: seq<Val> | AgreeOutside(locals, ls, hidden)
      ensures Exec(m, [I32Const(n)], State(s, ls)) == Next(State(Push(I32Val(n), s), ls))
    {
      ExecOne(m, I32Const(n), State(s, ls));
    }
  }

  /** Code yields at most one value. */
  lemma {:induction false} YieldsUnique(m: Module, code: seq<Instr>, locals: seq<Val>, hidden: set<nat>, v: Val, w: Val)
    requires Yields(m, code, locals, hidden, v) && Yields(m, code, locals, hidden, w)
    ensures v == w
  {
    assert AgreeOutside(locals, locals, hidden);
    assert Exec(m, code, State(Empty, locals)) == Next(State(Push(v, Empty), locals));
  }

  lemma {:induction false} YieldsMap(m: Module, a: seq<Instr>, b: seq<Instr>, locals: seq<Val>, hidden: set<nat>,
                                     v: Val, w: Val)
    requires Yields(m, a, locals, hidden, v) && Maps(m, b, v, w)
    ensures Yields(m, a + b, locals, hidden, w)
  {
    forall s: Stack, ls: seq<Val> | AgreeOutside(locals, ls, hidden)
      ensures Exec(m, a + b, State(s, ls)) == Next(State(Push(w, s), ls))
    {
      ExecConcat(m, a, b, State(s, ls));
    }
  }

  lemma {:induction false} AndOfBools(a: bool, b: bool)
    ensures And32(BoolInt(a), BoolInt(b)) == BoolInt(a && b)
  {
    assert BitAnd(1, 1) == 1 + 2 * BitAnd(0, 0);
  }

  /** Three pieces of code, one after the other. */
  lemma {:induction false} ExecThree(m: Module, a: seq<Instr>, b: seq<Instr>, c: seq<Instr>, st: State, st1: State,
                                     st2: State)
    requires Exec(m, a, st) == Next(st1) && Exec(m, b, st1) == Next(st2)
    ensures Exec(m, a + b + c, st) == Exec(m, c, st2)
  {
    ExecConcat(m, a + b, c, st);
    ExecConcat(m, a, b, st);
  }

  lemma {:induction false} ExecAndOf(m: Module, a: int, b: int, s: Stack, ls: seq<Val>)
    ensures Exec(m, [I32And], State(Push(I32Val(b), Push(I32Val(a), s)), ls))
            == Next(State(Push(I32Val(And32(a, b)), s), ls))
  {
    ExecOne(m, I32And, State(Push(I32Val(b), Push(I32Val(a), s)), ls));
  }

  lemma {:induction false} ExecAnd(m: Module, x: bool, y: bool, s: Stack, ls: seq<Val>)
    ensures Exec(m, [I32And], State(Push(I32Val(BoolInt(y)), Push(I32Val(BoolInt(x)), s)), ls))
         == Next(State(Push(I32Val(BoolInt(x && y)), s), ls))
  {
    ExecAndOf(m, BoolInt(x), BoolInt(y), s, ls);
    AndOfBools(x, y);
  }

  lemma {:induction false} YieldsAnd(m: Module, a: seq<Instr>, b: seq<Instr>, locals: seq<Val>, hidden: set<nat>,
                                     x: bool, y: bool)
    requires Yields(m, a, locals, hidden, I32Val(BoolInt(x))) && Yields(m, b, locals, hidden, I32Val(BoolInt(y)))
    ensures Yields(m, a + b + [I32And], locals, hidden, I32Val(BoolInt(x && y)))
  {
    forall s: Stack, ls: seq<Val> | AgreeOutside(locals, ls, hidden)
      ensures Exec(m, a + b + [I32And], State(s, ls)) == Next(State(Push(I32Val(BoolInt(x && y)), s), ls))
    {
      var s1 := Push(I32Val(BoolInt(x)), s);
      ExecThree(m, a, b, [I32And], State(s, ls), State(s1, ls), State(Push(I32Val(BoolInt(y)), s1), ls));
      ExecAnd(m, x, y, s, ls);
    }
  }

  lemma {:induction false} YieldsIf(m: Module, c: seq<Instr>, t: seq<Instr>, e: seq<Instr>, locals: seq<Val>,
                                    hidden: set<nat>, n: int, v: Val)
    requires Yields(m, c, locals, hidden, I32Val(n))
    requires n != 0 ==> Yields(m, t, locals, hidden, v)
    requires n == 0 ==> Yields(m, e, locals, hidden, v)
    ensures Yields(m, c + [If(t, e)], locals, hidden, v)
  {
    forall s: Stack, ls: seq<Val> | AgreeOutside(locals, ls, hidden)
      ensures Exec(m, c + [If(t, e)], State(s, ls)) == Next(State(Push(v, s), ls))
    {
      ExecConcat(m, c, [If(t, e)], State(s, ls));
      ExecOne(m, If(t, e), State(Push(I32Val(n), s), ls));
    }
  }

  // ----- Code that pushes several operands -----

  lemma {:induction false} PushAllConcat(a: seq<Val>, b: seq<Val>, s: Stack)
    ensures PushAll(a + b, s) == PushAll(b, PushAll(a, s))
  {
    if b == [] {
      assert a + b == a;
    } else {
      assert (a + b)[..|a + b| - 1] == a + b[..|b| - 1];
      PushAllConcat(a, b[..|b| - 1], s);
    }
  }

  lemma {:induction false} PopPushed(vs: seq<Val>, s: Stack)
    ensures Pop(PushAll(vs, s), |vs|) == Some((vs, s))
  {
    if vs != [] {
      PopPushed(vs[..|vs| - 1], s);
      assert vs[..|vs| - 1] + [vs[|vs| - 1]] == vs;
    }
  }

  lemma {:induction false} PushesNone(m: Module, locals: seq<Val>, hidden: set<nat>)
    ensures Pushes(m, [], locals, hidden, [])
  {
  }

  lemma {:induction false} PushesOne(m: Module, a: seq<Instr>, locals: seq<Val>, hidden: set<nat>, v: Val)
    requires Yields(m, a, locals, hidden, v)
    ensures Pushes(m, a, locals, hidden, [v])
  {
    forall s: Stack, ls: seq<Val> | AgreeOutside(locals, ls, hidden)
      ensures Exec(m, a, State(s, ls)) == Next(State(PushAll([v], s), ls))
    {
      assert PushAll([], s) == s && [v][..0] == [];
      assert PushAll([v], s) == Push(v, s);
    }
  }

  lemma {:induction false} PushesConcat(m: Module, a: seq<Instr>, b: seq<Instr>, locals: seq<Val>, hidden: set<nat>,
                                        vs: seq<Val>, ws: seq<Val>)
    requires Pushes(m, a, locals, hidden, vs) && Pushes(m, b, locals, hidden, ws)
    ensures Pushes(m, a + b, locals, hidden, vs + ws)
  {
    forall s: Stack, ls: seq<Val> | AgreeOutside(locals, ls, hidden)
      ensures Exec(m, a + b, State(s, ls)) == Next(State(PushAll(vs + ws, s), ls))
    {
      ExecConcat(m, a, b, State(s, ls));
      PushAllConcat(vs, ws, s);
    }
  }

  lemma {:induction false} PushesThen(m: Module, a: seq<Instr>, b: seq<Instr>, locals: seq<Val>, hidden: set<nat>,
                                      vs: seq<Val>, w: Val)
    requires Pushes(m, a, locals, hidden, vs) && Yields(m, b, locals, hidden, w)
    ensures Pushes(m, a + b, locals, hidden, vs + [w])
  {
    PushesOne(m, b, locals, hidden, w);
    PushesConcat(m, a, b, locals, hidden, vs, [w]);
  }

  lemma {:induction false} YieldsStruct(m: Module, a: seq<Instr>, t: Sym, locals: seq<Val>, hidden: set<nat>,
                                        vs: seq<Val>)
    requires Pushes(m, a, locals, hidden, vs)
    requires t in m.types && |m.types[t].fields| == |vs|
    ensures Yields(m, a + [StructNew(t)], locals, hidden, StructRef(t, vs))
  {
    forall s: Stack, ls: seq<Val> | AgreeOutside(locals, ls, hidden)
      ensures Exec(m, a + [StructNew(t)], State(s, ls)) == Next(State(Push(StructRef(t, vs), s), ls))
    {
      ExecConcat(m, a, [StructNew(t)], State(s, ls));
      ExecOne(m, StructNew(t), State(PushAll(vs, s), ls));
      PopPushed(vs, s);
    }
  }

  lemma {:induction false} YieldsArray(m: Module, a: seq<Instr>, t: Sym, locals: seq<Val>, hidden: set<nat>,
                                       vs: seq<Val>)
    requires Pushes(m, a, locals, hidden, vs)
    ensures Yields(m, a + [ArrayNewFixed(t, |vs|)], locals, hidden, ArrayRef(t, vs))
  {
    forall s: Stack, ls: seq<Val> | AgreeOutside(locals, ls, hidden)
      ensures Exec(m, a + [ArrayNewFixed(t, |vs|)], State(s, ls)) == Next(State(Push(ArrayRef(t, vs), s), ls))
    {
      ExecConcat(m, a, [ArrayNewFixed(t, |vs|)], State(s, ls));
      ExecOne(m, ArrayNewFixed(t, |vs|), State(PushAll(vs, s), ls));
      PopPushed(vs, s);
    }
  }

  lemma {:induction false} YieldsCall(m: Module, a: seq<Instr>, f: Sym, locals: seq<Val>, hidden: set<nat>,
                                      vs: seq<Val>, r: Val)
    requires Pushes(m, a, locals, hidden, vs)
    requires m.funcs(f).Some? && m.funcs(f).value.arity == |vs| && m.funcs(f).value.run(vs) == Returns(r)
    ensures Yields(m, a + [Call(f)], locals, hidden, r)
  {
    forall s: Stack, ls: seq<Val> | AgreeOutside(locals, ls, hidden)
      ensures Exec(m, a + [Call(f)], State(s, ls)) == Next(State(Push(r, s), ls))
    {
      ExecConcat(m, a, [Call(f)], State(s, ls));
      ExecOne(m, Call(f), State(PushAll(vs, s), ls));
      PopPushed(vs, s);
    }
  }

  lemma {:induction false} ExecCallRef(m: Module, t: Sym, f: Sym, vs: seq<Val>, r: Val, s: Stack, ls: seq<Val>)
    requires m.funcs(f).Some? && m.funcs(f).value.arity == |vs| && m.funcs(f).value.run(vs) == Returns(r)
    ensures Exec(m, [CallRef(t)], State(Push(FuncRef(f), PushAll(vs, s)), ls)) == Next(State(Push(r, s), ls))
  {
    ExecOne(m, CallRef(t), State(Push(FuncRef(f), PushAll(vs, s)), ls));
    PopPushed(vs, s);
  }

  lemma {:induction false} YieldsCallRef(m: Module, a: seq<Instr>, b: seq<Instr>, t: Sym, f: Sym, locals: seq<Val>,
                                         hidden: set<nat>, vs: seq<Val>, r: Val)
    requires Pushes(m, a, locals, hidden, vs) && Yields(m, b, locals, hidden, FuncRef(f))
    requires m.funcs(f).Some? && m.funcs(f).value.arity == |vs| && m.funcs(f).value.run(vs) == Returns(r)
    ensures Yields(m, a + b + [CallRef(t)], locals, hidden, r)
  {
    forall s: Stack, ls: seq<Val> | AgreeOutside(locals, ls, hidden)
      ensures Exec(m, a + b + [CallRef(t)], State(s, ls)) == Next(State(Push(r, s), ls))
    {
      var s1 := PushAll(vs, s);
      ExecThree(m, a, b, [CallRef(t)], State(s, ls), State(s1, ls), State(Push(FuncRef(f), s1), ls));
      ExecCallRef(m, t, f, vs, r, s, ls);
    }
  }

  /** Storing a value in a local. */
  lemma {:induction false} ExecStore(m: Module, a: seq<Instr>, k: nat, locals: seq<Val>, hidden: set<nat>, v: Val,
                                     s: Stack, ls: seq<Val>)
    requires Yields(m, a, locals, hidden, v) && AgreeOutside(locals, ls, hidden) && k < |ls|
    ensures Exec(m, a + [LocalSet(k)], State(s, ls)) == Next(State(s, ls[k := v]))
  {
    ExecConcat(m, a, [LocalSet(k)], State(s, ls));
    ExecOne(m, LocalSet(k), State(Push(v, s), ls));
  }

  // ----- Code that traps -----

  lemma {:induction false} TrapsFirst(m: Module, a: seq<Instr>, b: seq<Instr>, locals: seq<Val>, hidden: set<nat>)
    requires Traps(m, a, locals, hidden)
    ensures Traps(m, a + b, locals, hidden)
  {
    forall s: Stack, ls: seq<Val> | AgreeOutside(locals, ls, hidden)
      ensures Exec(m, a + b, State(s, ls)) == Trap
    {
      ExecConcat(m, a, b, State(s, ls));
    }
  }

  lemma {:induction false} TrapsAfter(m: Module, a: seq<Instr>, b: seq<Instr>, locals: seq<Val>, hidden: set<nat>,
                                      v: Val)
    requires Yields(m, a, locals, hidden, v) && Traps(m, b, locals, hidden)
    ensures Traps(m, a + b, locals, hidden)
  {
    forall s: Stack, ls: seq<Val> | AgreeOutside(locals, ls, hidden)
      ensures Exec(m, a + b, State(s, ls)) == Trap
    {
      ExecConcat(m, a, b, State(s, ls));
      assert Exec(m, b, State(Push(v, s), ls)) == Trap;
    }
  }

  lemma {:induction false} TrapsCast(m: Module, a: seq<Instr>, nullable: bool, heap: HeapType, locals: seq<Val>,
                                     hidden: set<nat>, v: Val)
    requires Yields(m, a, locals, hidden, v) && !CastSucceeds(m.types, v, nullable, heap)
    ensures Traps(m, a + [RefCast(nullable, heap)], locals, hidden)
  {
    forall s: Stack, ls: seq<Val> | AgreeOutside(locals, ls, hidden)
      ensures Exec(m, a + [RefCast(nullable, heap)], State(s, ls)) == Trap
    {
      ExecConcat(m, a, [RefCast(nullable, heap)], State(s, ls));
      ExecOne(m, RefCast(nullable, heap), State(Push(v, s), ls));
    }
  }

  lemma {:induction false} TrapsIf(m: Module, c: seq<Instr>, t: seq<Instr>, e: seq<Instr>, locals: seq<Val>,
                                   hidden: set<nat>, n: int)
    requires Yields(m, c, locals, hidden, I32Val(n)) && n != 0 && Traps(m, t, locals, hidden)
    ensures Traps(m, c + [If(t, e)], locals, hidden)
  {
    forall s: Stack, ls: seq<Val> | AgreeOutside(locals, ls, hidden)
      ensures Exec(m, c + [If(t, e)], State(s, ls)) == Trap
    {
      ExecConcat(m, c, [If(t, e)], State(s, ls));
      ExecOne(m, If(t, e), State(Push(I32Val(n), s), ls));
    }
  }

  /** Code that yields a value does not trap. */
  lemma {:induction false} YieldsOrTraps(m: Module, code: seq<Instr>, locals: seq<Val>, hidden: set<nat>, v: Val)
    requires Traps(m, code, locals, hidden)
    ensures !Yields(m, code, locals, hidden, v)
  {
    assert AgreeOutside(locals, locals, hidden);
    assert Exec(m, code, State(Empty, locals)) == Trap;
  }
}
