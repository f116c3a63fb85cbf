/** A-normal form, the input of the backend. */
module Anf {
  import opened Base
  import opened Mono
  import Match

  datatype Atom =
    | ALocal(id: nat)
    | AGlobalFunc(func: nat)
    | ALitInt(n: int)
    | ALitFloat(x: real)
    | ALitBool(b: bool)
    | ALitStr(s: string)
    | ALitVoid

  datatype Expr =
    | Let(local: nat, op: Op, body: Expr)
    | Return(result: Option<Atom>)
    | Break(result: Option<Atom>)
    | Continue
    | AtomExpr(atom: Atom)

  /**
    `Leaf` stands for the operations without a nested expression or a special role in the modelled passes: binary and
    unary operators, records, variants, array literals and indexing.
  */
  datatype Op =
    | ACall(callee: Atom, args: seq<Atom>)
    | AIf(cond: Atom, thenBranch: Expr, elseBranch: Expr)
    | AMatch(scrutinee: Atom, arms: seq<Arm>)
    | ALoop(body: Expr)
    | AMakeClosure(func: nat, freeVars: seq<nat>)
    | AInit(value: Atom)
    | AAssign(target: nat, value: Atom)
    | ADefer(body: Expr)
    | Leaf(args: seq<Atom>)

  datatype Arm = Arm(pattern: Match.Pattern, body: Expr)

  datatype Function = Function(id: nat, params: seq<nat>, paramTypes: seq<MonoType>, opResult: map<nat, MonoType>,
                               body: Expr)

  // ----- Closure creation sites -----

  datatype Site = Site(func: nat, freeVars: seq<nat>)

  /** The closure creation sites of an expression, in source order. */
  function SitesOf(e: Expr): (sites: seq<Site>)
    decreases e
  {
    if e.Let? then SitesOfOp(e.op) + SitesOf(e.body) else []
  }

  function SitesOfOp(op: Op): (sites: seq<Site>)
    decreases op
  {
    match op
    case AMakeClosure(f, vars) => [Site(f, vars)]
    case AIf(_, t, e) => SitesOf(t) + SitesOf(e)
    case AMatch(_, arms) => SitesOfArms(arms)
    case ALoop(b) => SitesOf(b)
    case ADefer(b) => SitesOf(b)
    case _ => []
  }

  function SitesOfArms(arms: seq<Arm>): (sites: seq<Site>)
    decreases arms
  {
    if arms == [] then [] else SitesOfArm(arms[0]) + SitesOfArms(arms[1..])
  }

  function SitesOfArm(arm: Arm): (sites: seq<Site>)
    decreases arm
  {
    SitesOf(arm.body)
  }
}
