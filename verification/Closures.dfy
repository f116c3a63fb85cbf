/** Closure environments: capture layouts, closure creation, and the two trampolines that reach the function. */
module Closures {
  import opened Wasm
  import opened Mono
  import opened CodeCalculus
  import opened Coercions
  import opened Iterators
  import opened Anf
  import opened Sequences
  import opened Sorting

  // ----- Capture layouts -----

  /** Every variable some site captures for `f`. */
  function CapturedBy(sites: seq<Site>, f: nat): (r: set<nat>) {
    if sites == [] then {}
    else (if sites[0].func == f then Elems(sites[0].freeVars) else {}) + CapturedBy(sites[1..], f)
  }

  /** `collect_closure_capture_layouts`: the captured variables of `f`, ascending. */
  function Layout(sites: seq<Site>, f: nat): (r: seq<nat>)
    ensures Ascending(r) && Elems(r) == CapturedBy(sites, f)
  {
    if sites == [] then []
    else
      var rest := Layout(sites[1..], f);
      if sites[0].func == f then
        var all := SortDedup(sites[0].freeVars + rest);
        assert Elems(sites[0].freeVars + rest) == Elems(sites[0].freeVars) + Elems(rest);
        all
      else rest
  }

  /** All sites that create a closure of `f` capture the same variables. */
  predicate SameCaptures(sites: seq<Site>, f: nat) {
    forall i, j | 0 <= i < |sites| && 0 <= j < |sites| && sites[i].func == f && sites[j].func == f ::
      Elems(sites[i].freeVars) == Elems(sites[j].freeVars)
  }

  lemma {:induction false} CapturedBySite(sites: seq<Site>, i: nat)
    requires i < |sites|
    ensures Elems(sites[i].freeVars) <= CapturedBy(sites, sites[i].func)
  {
    if i > 0 {
      CapturedBySite(sites[1..], i - 1);
      assert sites[1..][i - 1] == sites[i];
    }
  }

  lemma {:induction false} CapturedOnly(sites: seq<Site>, f: nat, s: set<nat>)
    requires forall i | 0 <= i < |sites| && sites[i].func == f :: Elems(sites[i].freeVars) <= s
    ensures CapturedBy(sites, f) <= s
  {
    if sites != [] {
      CapturedOnly(sites[1..], f, s);
    }
  }

  /** The environment a site builds has the callee's layout exactly when the site captures all of `f`'s variables. */
  lemma {:induction false} SiteMatchesLayoutIff(sites: seq<Site>, i: nat)
    requires i < |sites|
    ensures SortDedup(sites[i].freeVars) == Layout(sites, sites[i].func)
       <==> Elems(sites[i].freeVars) == CapturedBy(sites, sites[i].func)
  {
    if Elems(sites[i].freeVars) == CapturedBy(sites, sites[i].func) {
      AscendingUnique(SortDedup(sites[i].freeVars), Layout(sites, sites[i].func));
    }
  }

  /** Every environment of `f` has the callee's layout exactly when all of its sites capture the same variables. */
  lemma {:induction false} LayoutsAgreeIff(sites: seq<Site>, f: nat)
    ensures SameCaptures(sites, f)
       <==> forall i | 0 <= i < |sites| && sites[i].func == f :: SortDedup(sites[i].freeVars) == Layout(sites, f)
  {
    if SameCaptures(sites, f) {
      forall i | 0 <= i < |sites| && sites[i].func == f
        ensures SortDedup(sites[i].freeVars) == Layout(sites, f)
      {
        CapturedBySite(sites, i);
        CapturedOnly(sites, f, Elems(sites[i].freeVars));
        SiteMatchesLayoutIff(sites, i);
      }
    }
    if forall i | 0 <= i < |sites| && sites[i].func == f :: SortDedup(sites[i].freeVars) == Layout(sites, f) {
      forall i, j | 0 <= i < |sites| && 0 <= j < |sites| && sites[i].func == f && sites[j].func == f
        ensures Elems(sites[i].freeVars) == Elems(sites[j].freeVars)
      {
        assert Elems(sites[i].freeVars) == Elems(SortDedup(sites[i].freeVars));
        assert Elems(sites[j].freeVars) == Elems(SortDedup(sites[j].freeVars));
      }
    }
  }

  // ----- Closure creation -----

  /** Code that pushes each captured local as `anyref`, given the code of one. */
  function CaptureCode(capture: nat -> seq<Instr>, vars: seq<nat>): (code: seq<Instr>) {
    if vars == [] then [] else CaptureCode(capture, vars[..|vars| - 1]) + capture(vars[|vars| - 1])
  }

  function EnvCode(capture: nat -> seq<Instr>, vars: seq<nat>): (code: seq<Instr>) {
    CaptureCode(capture, SortDedup(vars)) + [ArrayNewFixed(T_CLOSURE_ENV, |SortDedup(vars)|)]
  }

  /** `emit_make_closure` for a function with a concrete signature. */
  function MakeTyped(capture: nat -> seq<Instr>, vars: seq<nat>, universal: Sym, typed: Sym, sym: Sym)
    : (code: seq<Instr>) {
    [RefFunc(universal)] + EnvCode(capture, vars) + [RefFunc(typed)] + [StructNew(sym)]
  }

  /** `emit_make_closure` without one. */
  function MakeUniversal(capture: nat -> seq<Instr>, vars: seq<nat>, universal: Sym): (code: seq<Instr>) {
    [RefFunc(universal)] + EnvCode(capture, vars) + [StructNew(T_CLOSURE)]
  }

  /** The values of `vars`, in order. */
  function ValuesOf(value: nat -> Val, vars: seq<nat>): (vs: seq<Val>)
    ensures |vs| == |vars| && forall i :: 0 <= i < |vars| ==> vs[i] == value(vars[i])
  {
    seq(|vars|, i requires 0 <= i < |vars| => value(vars[i]))
  }

  ghost predicate CapturesYield(m: Module, capture: nat -> seq<Instr>, value: nat -> Val, vars: seq<nat>,
                                locals: seq<Val>) {
    forall x | x in vars :: Yields(m, capture(x), locals, {}, value(x))
  }

  lemma {:induction false} CapturesPush(m: Module, capture: nat -> seq<Instr>, value: nat -> Val, vars: seq<nat>,
                                        locals: seq<Val>)
    requires CapturesYield(m, capture, value, vars, locals)
    ensures Pushes(m, CaptureCode(capture, vars), locals, {}, ValuesOf(value, vars))
  {
    if vars == [] {
      PushesNone(m, locals, {});
      assert ValuesOf(value, vars) == [];
    } else {
      var init, last := vars[..|vars| - 1], vars[|vars| - 1];
      CapturesPush(m, capture, value, init, locals);
      PushesThen(m, CaptureCode(capture, init), capture(last), locals, {}, ValuesOf(value, init), value(last));
      assert ValuesOf(value, vars) == ValuesOf(value, init) + [value(last)];
    }
  }

  lemma {:induction false} EnvYields(m: Module, capture: nat -> seq<Instr>, value: nat -> Val, vars: seq<nat>,
                                     locals: seq<Val>)
    requires CapturesYield(m, capture, value, vars, locals)
    ensures Yields(m, EnvCode(capture, vars), locals, {}, ArrayRef(T_CLOSURE_ENV, ValuesOf(value, SortDedup(vars))))
  {
    var sorted := SortDedup(vars);
    assert CapturesYield(m, capture, value, sorted, locals) by {
      forall x | x in sorted ensures Yields(m, capture(x), locals, {}, value(x)) {
        assert x in Elems(sorted);
      }
    }
    CapturesPush(m, capture, value, sorted, locals);
    YieldsArray(m, CaptureCode(capture, sorted), T_CLOSURE_ENV, locals, {}, ValuesOf(value, sorted));
  }

  lemma {:induction false} FuncYields(m: Module, f: Sym, locals: seq<Val>)
    ensures Yields(m, [RefFunc(f)], locals, {}, FuncRef(f))
  {
    forall s: Stack, ls: seq<Val> | AgreeOutside(locals, ls, {})
      ensures Exec(m, [RefFunc(f)], State(s, ls)) == Next(State(Push(FuncRef(f), s), ls))
    {
      ExecOne(m, RefFunc(f), State(s, ls));
    }
  }

  /** A typed closure: both entry points, and the captured values in ascending order of their locals. */
  lemma {:induction false} MakeTypedYields(m: Module, capture: nat -> seq<Instr>, value: nat -> Val, vars: seq<nat>,
                                           universal: Sym, typed: Sym, sym: Sym, locals: seq<Val>)
    requires CapturesYield(m, capture, value, vars, locals) && sym in m.types && |m.types[sym].fields| == 3
    ensures Yields(m, MakeTyped(capture, vars, universal, typed, sym), locals, {},
                   StructRef(sym, [FuncRef(universal), ArrayRef(T_CLOSURE_ENV, ValuesOf(value, SortDedup(vars))),
                                   FuncRef(typed)]))
  {
    var env := ArrayRef(T_CLOSURE_ENV, ValuesOf(value, SortDedup(vars)));
    FuncYields(m, universal, locals);
    EnvYields(m, capture, value, vars, locals);
    FuncYields(m, typed, locals);
    PushesOne(m, [RefFunc(universal)], locals, {}, FuncRef(universal));
    PushesThen(m, [RefFunc(universal)], EnvCode(capture, vars), locals, {}, [FuncRef(universal)], env);
    PushesThen(m, [RefFunc(universal)] + EnvCode(capture, vars), [RefFunc(typed)], locals, {},
               [FuncRef(universal)] + [env], FuncRef(typed));
    assert [FuncRef(universal)] + [env] + [FuncRef(typed)] == [FuncRef(universal), env, FuncRef(typed)];
    YieldsStruct(m, [RefFunc(universal)] + EnvCode(capture, vars) + [RefFunc(typed)], sym, locals, {},
                 [FuncRef(universal), env, FuncRef(typed)]);
  }

  lemma {:induction false} MakeUniversalYields(m: Module, capture: nat -> seq<Instr>, value: nat -> Val,
                                               vars: seq<nat>, universal: Sym, locals: seq<Val>)
    requires RuntimeTypes(m.types) && CapturesYield(m, capture, value, vars, locals)
    ensures Yields(m, MakeUniversal(capture, vars, universal), locals, {},
                   StructRef(T_CLOSURE, [FuncRef(universal),
                                         ArrayRef(T_CLOSURE_ENV, ValuesOf(value, SortDedup(vars)))]))
  {
    FuncYields(m, universal, locals);
    EnvYields(m, capture, value, vars, locals);
    Struct2Yields(m, [RefFunc(universal)], EnvCode(capture, vars), T_CLOSURE, FuncRef(universal),
                  ArrayRef(T_CLOSURE_ENV, ValuesOf(value, SortDedup(vars))), locals, {});
  }

  // ----- Trampolines -----

  /** Element `i` of the array in local `k`. */
  function Elem(k: nat, sym: Sym, i: nat): (code: seq<Instr>) {
    [LocalGet(k)] + [RefCast(true, NamedHeap(sym))] + [I32Const(i), ArrayGet(sym)]
  }

  /** Load the captures `0 .. n` from the environment, which is parameter 0. */
  function LoadCaptures(n: nat): (code: seq<Instr>) {
    if n == 0 then [] else LoadCaptures(n - 1) + Elem(0, T_CLOSURE_ENV, n - 1)
  }

  /** Load and unbox the arguments from the array in parameter 1. */
  function LoadBoxedArgs(tys: seq<ValType>): (code: seq<Instr>)
    requires forall t | t in tys :: CanUnbox(t)
  {
    if tys == [] then []
    else LoadBoxedArgs(tys[..|tys| - 1]) + (Elem(1, T_ARRAY, |tys| - 1) + UnboxCode(tys[|tys| - 1]))
  }

  /** Pass on the parameters `1 .. n`. */
  function LoadTypedArgs(n: nat): (code: seq<Instr>) {
    if n == 0 then [] else LoadTypedArgs(n - 1) + [LocalGet(n)]
  }

  /** `emit_user_closure_trampoline` for a function with a result of type `ret`. */
  function UniversalTrampoline(user: Sym, tys: seq<ValType>, captures: nat, ret: ValType): (code: seq<Instr>)
    requires forall t | t in tys :: CanUnbox(t)
  {
    LoadBoxedArgs(tys) + LoadCaptures(captures) + [Call(user)] + ToAnyCode(ret)
  }

  /** The same for a function without a result: `Void` is a small integer. */
  function VoidTrampoline(user: Sym, tys: seq<ValType>, captures: nat): (code: seq<Instr>)
    requires forall t | t in tys :: CanUnbox(t)
  {
    LoadBoxedArgs(tys) + LoadCaptures(captures) + [Call(user)] + [I32Const(0), RefI31]
  }

  /** The same for a function whose result is a typed unfold step, which goes through local 2. */
  function StepTrampoline(te: TypeEnv, info: IterInfo, user: Sym, tys: seq<ValType>, captures: nat): (code: seq<Instr>)
    requires forall t | t in tys :: CanUnbox(t)
  {
    LoadBoxedArgs(tys) + LoadCaptures(captures) + [Call(user)] + [LocalSet(2)] + BoxStepCode(te, info, 2)
  }

  /** `emit_typed_closure_trampoline`. */
  function TypedTrampoline(user: Sym, arity: nat, captures: nat): (code: seq<Instr>) {
    LoadTypedArgs(arity) + LoadCaptures(captures) + [Call(user)]
  }

  lemma {:induction false} ElemYields(m: Module, k: nat, sym: Sym, i: nat, elems: seq<Val>, locals: seq<Val>)
    requires k < |locals| && locals[k] == ArrayRef(sym, elems) && i < |elems|
    ensures Yields(m, Elem(k, sym, i), locals, {}, elems[i])
  {
    YieldsLocal(m, k, locals, {});
    MapsCast(m, true, NamedHeap(sym), locals[k]);
    YieldsMap(m, [LocalGet(k)], [RefCast(true, NamedHeap(sym))], locals, {}, locals[k], locals[k]);
    MapsElem(m, sym, i, locals[k]);
    YieldsMap(m, [LocalGet(k)] + [RefCast(true, NamedHeap(sym))], [I32Const(i), ArrayGet(sym)], locals, {}, locals[k],
              elems[i]);
  }

  lemma {:induction false} LoadCapturesPush(m: Module, n: nat, env: seq<Val>, locals: seq<Val>)
    requires |locals| > 0 && locals[0] == ArrayRef(T_CLOSURE_ENV, env) && n <= |env|
    ensures Pushes(m, LoadCaptures(n), locals, {}, env[..n])
  {
    if n == 0 {
      PushesNone(m, locals, {});
    } else {
      LoadCapturesPush(m, n - 1, env, locals);
      ElemYields(m, 0, T_CLOSURE_ENV, n - 1, env, locals);
      PushesThen(m, LoadCaptures(n - 1), Elem(0, T_CLOSURE_ENV, n - 1), locals, {}, env[..n - 1], env[n - 1]);
      assert env[..n] == env[..n - 1] + [env[n - 1]];
    }
  }

  predicate ArgsTyped(types: map<Sym, StructDef>, args: seq<Val>, tys: seq<ValType>) {
    |args| == |tys| && forall i | 0 <= i < |args| :: HasType(types, args[i], tys[i])
  }

  function BoxArgs(tys: seq<ValType>, args: seq<Val>): (r: seq<Val>)
    requires |args| == |tys|
    ensures |r| == |args| && forall i :: 0 <= i < |args| ==> r[i] == Box(tys[i], args[i])
  {
    seq(|args|, i requires 0 <= i < |args| => Box(tys[i], args[i]))
  }

  lemma {:induction false} LoadBoxedArgsPush(m: Module, tys: seq<ValType>, args: seq<Val>, all: seq<Val>,
                                             locals: seq<Val>)
    requires RuntimeTypes(m.types) && (forall t | t in tys :: CanUnbox(t)) && ArgsTyped(m.types, args, tys)
    requires |locals| >= 2 && locals[1] == ArrayRef(T_ARRAY, all) && BoxArgs(tys, args) <= all
    ensures Pushes(m, LoadBoxedArgs(tys), locals, {}, args)
  {
    if tys == [] {
      PushesNone(m, locals, {});
    } else {
      var n := |tys| - 1;
      LoadBoxedArgsPush(m, tys[..n], args[..n], all, locals);
      assert all[n] == BoxArgs(tys, args)[n];
      ElemYields(m, 1, T_ARRAY, n, all, locals);
      UnboxCodeUnboxes(m, tys[n], args[n]);
      YieldsMap(m, Elem(1, T_ARRAY, n), UnboxCode(tys[n]), locals, {}, Box(tys[n], args[n]), args[n]);
      PushesThen(m, LoadBoxedArgs(tys[..n]), Elem(1, T_ARRAY, n) + UnboxCode(tys[n]), locals, {}, args[..n], args[n]);
      assert args == args[..n] + [args[n]];
    }
  }

  lemma {:induction false} LoadTypedArgsPush(m: Module, n: nat, locals: seq<Val>)
    requires n < |locals|
    ensures Pushes(m, LoadTypedArgs(n), locals, {}, locals[1..n + 1])
  {
    if n == 0 {
      PushesNone(m, locals, {});
      assert locals[1..1] == [];
    } else {
      LoadTypedArgsPush(m, n - 1, locals);
      YieldsLocal(m, n, locals, {});
      PushesThen(m, LoadTypedArgs(n - 1), [LocalGet(n)], locals, {}, locals[1..n], locals[n]);
      assert locals[1..n + 1] == locals[1..n] + [locals[n]];
    }
  }

  /** The user function `user` takes `arity` arguments followed by `captures` captured values. */
  predicate Callable(m: Module, user: Sym, arity: nat) { m.funcs(user).Some? && m.funcs(user).value.arity == arity }

  /** Through the universal entry the function receives the unboxed arguments and then the captured values. */
  lemma {:induction false} UniversalTrampolineCalls(m: Module, user: Sym, tys: seq<ValType>, ret: ValType,
                                                    args: seq<Val>, env: seq<Val>, r: Val)
    requires RuntimeTypes(m.types) && (forall t | t in tys :: CanUnbox(t)) && ArgsTyped(m.types, args, tys)
    requires Callable(m, user, |args| + |env|) && m.funcs(user).value.run(args + env) == Returns(r)
             && HasType(m.types, r, ret)
    ensures Yields(m, UniversalTrampoline(user, tys, |env|, ret),
                   [ArrayRef(T_CLOSURE_ENV, env), ArrayRef(T_ARRAY, BoxArgs(tys, args))], {}, Box(ret, r))
  {
    var locals := [ArrayRef(T_CLOSURE_ENV, env), ArrayRef(T_ARRAY, BoxArgs(tys, args))];
    TrampolineArgsPush(m, tys, args, env, locals);
    YieldsCall(m, LoadBoxedArgs(tys) + LoadCaptures(|env|), user, locals, {}, args + env, r);
    BoxCodeBoxes(m, ret, r);
    YieldsMap(m, LoadBoxedArgs(tys) + LoadCaptures(|env|) + [Call(user)], ToAnyCode(ret), locals, {}, r, Box(ret, r));
  }

  lemma {:induction false} TrampolineArgsPush(m: Module, tys: seq<ValType>, args: seq<Val>, env: seq<Val>,
                                              locals: seq<Val>)
    requires RuntimeTypes(m.types) && (forall t | t in tys :: CanUnbox(t)) && ArgsTyped(m.types, args, tys)
             && |locals| >= 2
    requires locals[0] == ArrayRef(T_CLOSURE_ENV, env) && locals[1] == ArrayRef(T_ARRAY, BoxArgs(tys, args))
    ensures Pushes(m, LoadBoxedArgs(tys) + LoadCaptures(|env|), locals, {}, args + env)
  {
    LoadBoxedArgsPush(m, tys, args, BoxArgs(tys, args), locals);
    LoadCapturesPush(m, |env|, env, locals);
    assert env[..|env|] == env;
    PushesConcat(m, LoadBoxedArgs(tys), LoadCaptures(|env|), locals, {}, args, env);
  }

  /** A function without a result is called the same way, and the trampoline returns `Void`. */
  lemma {:induction false} VoidTrampolineCalls(m: Module, user: Sym, tys: seq<ValType>, args: seq<Val>, env: seq<Val>)
    requires RuntimeTypes(m.types) && (forall t | t in tys :: CanUnbox(t)) && ArgsTyped(m.types, args, tys)
    requires Callable(m, user, |args| + |env|) && m.funcs(user).value.run(args + env) == ReturnsNothing
    ensures Yields(m, VoidTrampoline(user, tys, |env|), [ArrayRef(T_CLOSURE_ENV, env),
                                                         ArrayRef(T_ARRAY, BoxArgs(tys, args))], {},
                   I31Ref(0))
  {
    var locals := [ArrayRef(T_CLOSURE_ENV, env), ArrayRef(T_ARRAY, BoxArgs(tys, args))];
    var load := LoadBoxedArgs(tys) + LoadCaptures(|env|);
    TrampolineArgsPush(m, tys, args, env, locals);
    forall s: Stack, ls: seq<Val> | AgreeOutside(locals, ls, {})
      ensures Exec(m, VoidTrampoline(user, tys, |env|), State(s, ls)) == Next(State(Push(I31Ref(0), s), ls))
    {
      CallNothing(m, user, args + env, s, ls);
      ExecThree(m, load, [Call(user)], [I32Const(0), RefI31], State(s, ls), State(PushAll(args + env, s), ls),
                State(s, ls));
      VoidValue(m, s, ls);
    }
  }

  lemma {:induction false} VoidValue(m: Module, s: Stack, ls: seq<Val>)
    ensures Exec(m, [I32Const(0), RefI31], State(s, ls)) == Next(State(Push(I31Ref(0), s), ls))
  {
    ExecTwo(m, I32Const(0), RefI31, State(s, ls));
  }

  lemma {:induction false} CallNothing(m: Module, user: Sym, vs: seq<Val>, s: Stack, ls: seq<Val>)
    requires Callable(m, user, |vs|) && m.funcs(user).value.run(vs) == ReturnsNothing
    ensures Exec(m, [Call(user)], State(PushAll(vs, s), ls)) == Next(State(s, ls))
  {
    ExecOne(m, Call(user), State(PushAll(vs, s), ls));
    PopPushed(vs, s);
  }

  /** A typed unfold step is boxed on the way out. */
  lemma {:induction false} StepTrampolineCalls(m: Module, te: TypeEnv, info: IterInfo, user: Sym, tys: seq<ValType>,
                                               args: seq<Val>, env: seq<Val>, r: StepResult, s: Stack)
    requires IterTypes(m.types, te, info) && ResultTyped(m.types, te, info, r)
    requires (forall t | t in tys :: CanUnbox(t)) && ArgsTyped(m.types, args, tys)
    requires Callable(m, user, |args| + |env|) && m.funcs(user).value.run(args + env) == Returns(TypedStep(te, info, r))
    ensures var frame := [ArrayRef(T_CLOSURE_ENV, env), ArrayRef(T_ARRAY, BoxArgs(tys, args)), NullRef];
            Exec(m, StepTrampoline(te, info, user, tys, |env|), State(s, frame))
            == Next(State(Push(BoxedStep(te, info, r), s), frame[2 := TypedStep(te, info, r)]))
  {
    var frame := [ArrayRef(T_CLOSURE_ENV, env), ArrayRef(T_ARRAY, BoxArgs(tys, args)), NullRef];
    var load, after := LoadBoxedArgs(tys) + LoadCaptures(|env|), frame[2 := TypedStep(te, info, r)];
    TrampolineArgsPush(m, tys, args, env, frame);
    YieldsCall(m, load, user, frame, {}, args + env, TypedStep(te, info, r));
    ExecStore(m, load + [Call(user)], 2, frame, {}, TypedStep(te, info, r), s, frame);
    BoxStepYields(m, te, info, 2, r, after, {});
    ExecConcat(m, load + [Call(user)] + [LocalSet(2)], BoxStepCode(te, info, 2), State(s, frame));
  }

  /** Through the typed entry it receives the same. */
  lemma {:induction false} TypedTrampolineCalls(m: Module, user: Sym, args: seq<Val>, env: seq<Val>, r: Val)
    requires Callable(m, user, |args| + |env|) && m.funcs(user).value.run(args + env) == Returns(r)
    ensures Yields(m, TypedTrampoline(user, |args|, |env|), [ArrayRef(T_CLOSURE_ENV, env)] + args, {}, r)
  {
    var locals := [ArrayRef(T_CLOSURE_ENV, env)] + args;
    TypedArgsPush(m, args, env);
    YieldsCall(m, LoadTypedArgs(|args|) + LoadCaptures(|env|), user, locals, {}, args + env, r);
  }

  /** What a function returns: a value of some type, nothing, or a typed unfold step. */
  datatype UserResult = OfType(ty: ValType) | NoResult | StepOf(te: TypeEnv, info: IterInfo)

  function Trampoline(user: Sym, tys: seq<ValType>, captures: nat, result: UserResult): (code: seq<Instr>)
    requires forall t | t in tys :: CanUnbox(t)
  {
    match result
    case OfType(t) => UniversalTrampoline(user, tys, captures, t)
    case NoResult => VoidTrampoline(user, tys, captures)
    case StepOf(te, info) => StepTrampoline(te, info, user, tys, captures)
  }

  /** The locals of the universal trampoline when it is entered. */
  function TrampolineFrame(result: UserResult, env: Val, args: Val): (frame: seq<Val>) {
    if result.StepOf? then [env, args, NullRef] else [env, args]
  }

  /** `o` is a result of that kind, and `shown` its `anyref` form. */
  ghost predicate ShownAs(types: map<Sym, StructDef>, result: UserResult, o: CallResult, shown: Val) {
    match result
    case OfType(t) => o.Returns? && HasType(types, o.value, t) && shown == Box(t, o.value)
    case NoResult => o == ReturnsNothing && shown == I31Ref(0)
    case StepOf(te, info) =>
      IterTypes(types, te, info)
      && exists r: StepResult ::
           ResultTyped(types, te, info, r) && o == Returns(TypedStep(te, info, r)) && shown == BoxedStep(te, info, r)
  }

  /** Run on an empty stack, the code ends with just `v` on it. */
  predicate EndsWith(m: Module, code: seq<Instr>, frame: seq<Val>, v: Val) {
    var o := Exec(m, code, State(Empty, frame));
    o.Next? && o.st.stack == Push(v, Empty)
  }

  /** Run on an empty stack, the code leaves there what the call returned. */
  predicate PassesOn(m: Module, code: seq<Instr>, frame: seq<Val>, r: CallResult) {
    var o := Exec(m, code, State(Empty, frame));
    match r
    case Returns(v) => o == Next(State(Push(v, Empty), frame))
    case ReturnsNothing => o == Next(State(Empty, frame))
    case CallTraps => o == Trap
  }

  /** Through the universal entry, whatever the function returns. */
  lemma {:induction false} TrampolineShows(m: Module, user: Sym, tys: seq<ValType>, result: UserResult,
                                           args: seq<Val>, env: seq<Val>, shown: Val)
    requires RuntimeTypes(m.types) && (forall t | t in tys :: CanUnbox(t)) && ArgsTyped(m.types, args, tys)
    requires Callable(m, user, |args| + |env|)
             && ShownAs(m.types, result, m.funcs(user).value.run(args + env), shown)
    ensures EndsWith(m, Trampoline(user, tys, |env|, result),
                     TrampolineFrame(result, ArrayRef(T_CLOSURE_ENV, env), ArrayRef(T_ARRAY, BoxArgs(tys, args))),
                     shown)
  {
    var frame := [ArrayRef(T_CLOSURE_ENV, env), ArrayRef(T_ARRAY, BoxArgs(tys, args))];
    assert AgreeOutside(frame, frame, {});
    var o := m.funcs(user).value.run(args + env);
    match result
    case OfType(t) => UniversalTrampolineCalls(m, user, tys, t, args, env, o.value);
    case NoResult => VoidTrampolineCalls(m, user, tys, args, env);
    case StepOf(te, info) =>
      var r: StepResult :| ResultTyped(m.types, te, info, r) && o == Returns(TypedStep(te, info, r))
                           && shown == BoxedStep(te, info, r);
      StepTrampolineCalls(m, te, info, user, tys, args, env, r, Empty);
  }

  /** Through the typed entry, whatever the function returns. */
  lemma {:induction false} TypedTrampolinePasses(m: Module, user: Sym, args: seq<Val>, env: seq<Val>)
    requires Callable(m, user, |args| + |env|)
    ensures PassesOn(m, TypedTrampoline(user, |args|, |env|), [ArrayRef(T_CLOSURE_ENV, env)] + args,
                     m.funcs(user).value.run(args + env))
  {
    var locals, load := [ArrayRef(T_CLOSURE_ENV, env)] + args, LoadTypedArgs(|args|) + LoadCaptures(|env|);
    TypedArgsPush(m, args, env);
    assert AgreeOutside(locals, locals, {});
    ExecConcat(m, load, [Call(user)], State(Empty, locals));
    ExecOne(m, Call(user), State(PushAll(args + env, Empty), locals));
    PopPushed(args + env, Empty);
  }

  lemma {:induction false} TypedArgsPush(m: Module, args: seq<Val>, env: seq<Val>)
    ensures Pushes(m, LoadTypedArgs(|args|) + LoadCaptures(|env|), [ArrayRef(T_CLOSURE_ENV, env)] + args, {},
                   args + env)
  {
    var locals := [ArrayRef(T_CLOSURE_ENV, env)] + args;
    LoadTypedArgsPush(m, |args|, locals);
    assert locals[1..|args| + 1] == args;
    LoadCapturesPush(m, |env|, env, locals);
    assert env[..|env|] == env;
    PushesConcat(m, LoadTypedArgs(|args|), LoadCaptures(|env|), locals, {}, args, env);
  }

  // ----- Round trip -----

  /**
    Whatever order and repetition the free variables have at a creation site, and whatever the function returns, both
    entry points call it with its arguments followed by the value each captured local had when the closure was made,
    in the order of the layout that fixes the callee's extra parameters.
  */
  lemma {:induction false} CaptureRoundTrip(m: Module, sites: seq<Site>, i: nat, capture: nat -> seq<Instr>,
                                            value: nat -> Val, locals: seq<Val>, universal: Sym, typed: Sym, sym: Sym,
                                            user: Sym, tys: seq<ValType>, result: UserResult, args: seq<Val>,
                                            shown: Val)
    returns (c: Val, layout: seq<nat>)
    requires i < |sites| && SameCaptures(sites, sites[i].func)
    requires CapturesYield(m, capture, value, sites[i].freeVars, locals)
    requires RuntimeTypes(m.types) && sym in m.types && |m.types[sym].fields| == 3
    requires (forall t | t in tys :: CanUnbox(t)) && ArgsTyped(m.types, args, tys)
    requires var received := args + ValuesOf(value, Layout(sites, sites[i].func));
             Callable(m, user, |received|) && ShownAs(m.types, result, m.funcs(user).value.run(received), shown)
    ensures layout == Layout(sites, sites[i].func)
    ensures Yields(m, MakeTyped(capture, sites[i].freeVars, universal, typed, sym), locals, {}, c)
    ensures c.StructRef? && |c.fields| == 3 && c.fields[0] == FuncRef(universal) && c.fields[2] == FuncRef(typed)
    ensures EndsWith(m, Trampoline(user, tys, |layout|, result),
                     TrampolineFrame(result, c.fields[1], ArrayRef(T_ARRAY, BoxArgs(tys, args))), shown)
    ensures PassesOn(m, TypedTrampoline(user, |args|, |layout|), [c.fields[1]] + args,
                     m.funcs(user).value.run(args + ValuesOf(value, layout)))
  {
    layout := Layout(sites, sites[i].func);
    LayoutsAgreeIff(sites, sites[i].func);
    var env := ValuesOf(value, layout);
    c := StructRef(sym, [FuncRef(universal), ArrayRef(T_CLOSURE_ENV, env), FuncRef(typed)]);
    MakeTypedYields(m, capture, value, sites[i].freeVars, universal, typed, sym, locals);
    TrampolineShows(m, user, tys, result, args, env, shown);
    TypedTrampolinePasses(m, user, args, env);
  }

  /** Without that condition a site that captures too little leaves the environment short of the callee's layout. */
  lemma {:induction false} ShortEnvironment(sites: seq<Site>, i: nat, value: nat -> Val)
    requires i < |sites| && Elems(sites[i].freeVars) < CapturedBy(sites, sites[i].func)
    ensures |ValuesOf(value, SortDedup(sites[i].freeVars))| < |Layout(sites, sites[i].func)|
  {
    var a, b := SortDedup(sites[i].freeVars), Layout(sites, sites[i].func);
    LengthIsCard(a);
    LengthIsCard(b);
    SubsetCard(Elems(a), Elems(b));
  }

  lemma {:induction false} LengthIsCard(s: seq<nat>)
    requires Ascending(s)
    ensures |s| == |Elems(s)|
  {
    if s != [] {
      ElemsTail(s);
      assert s[0] in Elems(s);
      LengthIsCard(s[1..]);
    }
  }

  // ----- Closures as step functions of iterators -----

  /** The linked module runs the trampolines' bodies for their symbols. */
  ghost predicate RunsBody(m: Module, f: Sym, arity: nat, body: seq<Instr>) {
    m.funcs(f).Some? && m.funcs(f).value.arity == arity
    && forall args: seq<Val>, r: Val | |args| == arity && Yields(m, body, args, {}, r) :: m.funcs(f).value.run(args)
        == Returns(r)
  }

  /** On one seed, both entry points of a typed closure return what the function returns. */
  lemma {:induction false} StepEntries(m: Module, t: ValType, user: Sym, universal: Sym, typed: Sym, env: seq<Val>,
                                       s: Val, r: Val)
    requires RuntimeTypes(m.types) && CanUnbox(t) && HasType(m.types, s, t) && HasType(m.types, r, RefTo(T_VARIANT))
    requires Callable(m, user, 1 + |env|) && m.funcs(user).value.run([s] + env) == Returns(r)
    requires RunsBody(m, universal, 2, UniversalTrampoline(user, [t], |env|, RefTo(T_VARIANT)))
    requires RunsBody(m, typed, 2, TypedTrampoline(user, 1, |env|))
    ensures var e := ArrayRef(T_CLOSURE_ENV, env);
            m.funcs(universal).value.run([e, ArrayRef(T_ARRAY, [Box(t, s)])]) == Returns(r)
            && m.funcs(typed).value.run([e, s]) == Returns(r)
  {
    var e := ArrayRef(T_CLOSURE_ENV, env);
    UniversalTrampolineCalls(m, user, [t], RefTo(T_VARIANT), [s], env, r);
    assert BoxArgs([t], [s]) == [Box(t, s)];
    TypedTrampolineCalls(m, user, [s], env, r);
    assert [e] + [s] == [e, s];
  }

  /**
    A typed closure over a step function, built at run time with any environment, is what the iterator helpers
    require: its two entry points agree.
  */
  lemma {:induction false} ClosureIsStep(m: Module, te: TypeEnv, info: IterInfo, user: Sym, universal: Sym,
                                         typed: Sym, env: seq<Val>, f: Val -> StepResult)
    requires IterTypes(m.types, te, info) && Callable(m, user, 1 + |env|)
    requires RunsBody(m, universal, 2, UniversalTrampoline(user, [SeedType(te, info)], |env|, RefTo(T_VARIANT)))
    requires RunsBody(m, typed, 2, TypedTrampoline(user, 1, |env|))
    requires forall s: Val | HasType(m.types, s, SeedType(te, info)) ::
               ResultTyped(m.types, te, info, f(s)) && m.funcs(user).value.run([s] + env)
                   == Returns(BoxedStep(te, info, f(s)))
    ensures StepClosure(m, te, info,
                        StructRef(StepClosureSym(info), [FuncRef(universal), ArrayRef(T_CLOSURE_ENV, env),
                                                         FuncRef(typed)]), f)
  {
    forall s: Val | HasType(m.types, s, SeedType(te, info))
      ensures var e := ArrayRef(T_CLOSURE_ENV, env);
              m.funcs(universal).value.run([e, ArrayRef(T_ARRAY, [Box(SeedType(te, info), s)])])
                  == Returns(BoxedStep(te, info, f(s)))
              && m.funcs(typed).value.run([e, s]) == Returns(BoxedStep(te, info, f(s)))
    {
      StepEntries(m, SeedType(te, info), user, universal, typed, env, s, BoxedStep(te, info, f(s)));
    }
  }
}
