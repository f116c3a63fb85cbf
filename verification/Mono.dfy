/** Monomorphic types, their Wasm value types and the runtime type symbols. */
module Mono {
  import opened Base
  import opened Wasm

  datatype MonoType =
    | TVar(name: string)
    | MetaVar(id: nat)
    | Int
    | Float
    | Bool
    | Byte
    | String
    | Void
    | Never
    | Vector(elem: MonoType)
    | Dict(key: MonoType, val: MonoType)
    | Named(typeId: nat, args: seq<MonoType>)
    | Function(params: seq<MonoType>, ret: MonoType)
    | ExternRef(typeId: nat)

  const OPTION: nat := 0
  const RESULT: nat := 1
  const CELL: nat := 2
  const ITERATOR: nat := 4
  const ITER_ITEM: nat := 5
  const UNFOLD_STEP: nat := 6
  const TASK: nat := 8
  const CHANNEL: nat := 10

  const T_ARRAY: Sym := "rt_types__Array"
  const T_STRING: Sym := "rt_types__String"
  const T_PDICT: Sym := "rt_types__PDict"
  const T_PVEC: Sym := "rt_types__PVec"
  const T_CLOSURE_ENV: Sym := "rt_types__ClosureEnv"
  const T_CLOSURE_FUNC: Sym := "rt_types__ClosureFunc"
  const T_CLOSURE: Sym := "rt_types__Closure"
  const T_VARIANT: Sym := "rt_types__Variant"
  const T_BOXED_INT: Sym := "rt_types__BoxedInt"
  const T_BOXED_FLOAT: Sym := "rt_types__BoxedFloat"
  const T_ITER_STATE: Sym := "rt_types__IterState"
  const T_TASK: Sym := "rt_types__Task"
  const T_CHANNEL: Sym := "rt_types__Channel"

  /** A fully instantiated type: no generic variable in it. */
  predicate IsConcrete(t: MonoType) {
    match t
    case TVar(_) => false
    case MetaVar(_) => false
    case Vector(e) => IsConcrete(e)
    case Dict(k, v) => IsConcrete(k) && IsConcrete(v)
    case Function(ps, r) => (forall p | p in ps :: IsConcrete(p)) && IsConcrete(r)
    case Named(_, args) => forall a | a in args :: IsConcrete(a)
    case _ => true
  }

  // ----- Symbols -----

  function Digit(d: nat): (c: char)
    requires d < 10
    ensures '0' <= c <= '9' && c as int == 48 + d
  {
    (48 + d) as char
  }

  function Decimal(n: nat): (s: string)
    ensures s != []
  {
    if n < 10 then [Digit(n)] else Decimal(n / 10) + [Digit(n % 10)]
  }

  function Join(parts: seq<string>): (s: string) {
    if parts == [] then ""
    else if |parts| == 1 then parts[0]
    else parts[0] + "_" + Join(parts[1..])
  }

  function SymbolKey(t: MonoType): (s: string)
    decreases t, 1
  {
    match t
    case TVar(name) => name
    case MetaVar(id) => "M" + Decimal(id)
    case Int => "Int"
    case Float => "Float"
    case Bool => "Bool"
    case Byte => "Byte"
    case String => "String"
    case Void => "Void"
    case Never => "Never"
    case Vector(e) => "Vec_" + SymbolKey(e)
    case Dict(k, v) => "Dict_" + SymbolKey(k) + "_" + SymbolKey(v)
    case Named(id, args) =>
      if args == [] then "T" + Decimal(id) else "T" + Decimal(id) + "_" + Join(SymbolKeys(args))
    case ExternRef(id) => "Extern" + Decimal(id)
    case Function(ps, r) => "Fn_" + Join(SymbolKeys(ps)) + "_" + SymbolKey(r)
  }

  function SymbolKeys(ts: seq<MonoType>): (keys: seq<string>)
    ensures |keys| == |ts|
    decreases ts, 0
  {
    if ts == [] then [] else [SymbolKey(ts[0])] + SymbolKeys(ts[1..])
  }

  /** The yield and seed types of an iterator built by `Iterator.unfold`. */
  datatype IterInfo = IterInfo(yieldTy: MonoType, seedTy: MonoType)

  function CellSym(elem: MonoType): (s: Sym) { "cell_" + SymbolKey(elem) }

  function UnfoldStepSym(y: MonoType, s: MonoType): (sym: Sym) {
    "unfold_step__" + SymbolKey(y) + "__" + SymbolKey(s)
  }

  function IterStateSym(info: IterInfo): (sym: Sym) {
    "iter_state__" + SymbolKey(info.yieldTy) + "__" + SymbolKey(info.seedTy)
  }

  function IterItemSym(info: IterInfo): (sym: Sym) {
    "iter_item__" + SymbolKey(info.yieldTy) + "__" + SymbolKey(info.seedTy)
  }

  function IterOptionSym(info: IterInfo): (sym: Sym) {
    "option__iter_item__" + SymbolKey(info.yieldTy) + "__" + SymbolKey(info.seedTy)
  }

  function SumSym(t: MonoType): (sym: Sym) {
    if t.Named? && t.typeId == OPTION && |t.args| == 1 then "option__" + SymbolKey(t.args[0])
    else if t.Named? && t.typeId == RESULT && |t.args| == 2 then
      "result__" + SymbolKey(t.args[0]) + "__" + SymbolKey(t.args[1])
    else "typed_variant__" + SymbolKey(t)
  }

  function RecordSym(typeId: nat): (sym: Sym) { "UserRecord_" + Decimal(typeId) }

  function TypeTag(t: MonoType): (s: string) {
    match t
    case Int => "i64"
    case Float => "f64"
    case Bool => "i32"
    case Byte => "i32"
    case String => "str"
    case Void => "void"
    case Never => "void"
    case Vector(_) => "arr"
    case Dict(_, _) => "dict"
    case Function(_, _) => "cls"
    case Named(_, _) => "ref"
    case ExternRef(_) => "extern"
    case TVar(_) => "any"
    case MetaVar(_) => "any"
  }

  function ClosureTag(t: MonoType): (s: string) {
    if t in {Int, Float, Bool, Byte, String, Void, Never} then TypeTag(t) else SymbolKey(t)
  }

  function ClosureTags(ts: seq<MonoType>): (s: seq<string>) {
    if ts == [] then [] else [ClosureTag(ts[0])] + ClosureTags(ts[1..])
  }

  function ClosureStructSym(params: seq<MonoType>, ret: MonoType): (s: Sym) {
    if params == [] then "closure_nil__" + ClosureTag(ret)
    else "closure_" + Join(ClosureTags(params)) + "_" + ClosureTag(ret)
  }

  function ClosureFuncSym(params: seq<MonoType>, ret: MonoType): (s: Sym) {
    if params == [] then "closurefunc_nil__" + ClosureTag(ret)
    else "closurefunc_" + Join(ClosureTags(params)) + "_" + ClosureTag(ret)
  }

  // ----- Value types -----

  /** A user type definition; an alias carries the value type of its resolved target. */
  datatype LangDef = SumDef | RecordDef | AliasDef(target: ValType)

  /** What the backend knows of the program's types: definitions, and the concrete closure signatures. */
  datatype TypeEnv = TypeEnv(defs: map<nat, LangDef>, sigs: set<(seq<MonoType>, MonoType)>)

  /** The field types that type definitions declare, by type and variant; `Void` stands for a type parameter. */
  type Fields = (nat, nat) -> seq<MonoType>

  function RefTo(sym: Sym): (t: ValType) { Ref(true, NamedHeap(sym)) }

  function NamedValType(te: TypeEnv, id: nat): (t: ValType) {
    if id == CELL then RefTo(T_ARRAY)
    else if id == ITERATOR then RefTo(T_ITER_STATE)
    else if id == TASK then RefTo(T_TASK)
    else if id == CHANNEL then RefTo(T_CHANNEL)
    else if id !in te.defs then Anyref
    else match te.defs[id]
      case SumDef => RefTo(T_VARIANT)
      case RecordDef => RefTo(RecordSym(id))
      case AliasDef(target) => target
  }

  /** `mono_to_valtype`. Host handles (`ExternRef`) are treated as opaque references. */
  function BaseValType(te: TypeEnv, t: MonoType): (v: ValType) {
    match t
    case Int => I64
    case Float => F64
    case Bool => I32
    case Byte => I32
    case String => RefTo(T_STRING)
    case Void => I32
    case Never => I32
    case Vector(_) => RefTo(T_PVEC)
    case Dict(_, _) => RefTo(T_PDICT)
    case Function(_, _) => RefTo(T_CLOSURE)
    case TVar(_) => Anyref
    case MetaVar(_) => Anyref
    case Named(id, _) => NamedValType(te, id)
    case ExternRef(_) => Anyref
  }

  /** `mono_to_valtype_specialized`: typed closures, unfold steps and cells once a concrete signature exists. */
  function ValTypeOf(te: TypeEnv, t: MonoType): (v: ValType) {
    if te.sigs == {} then BaseValType(te, t)
    else if t.Function? && IsConcrete(t) && (t.params, t.ret) in te.sigs then RefTo(ClosureStructSym(t.params, t.ret))
    else if t.Named? && t.typeId == UNFOLD_STEP && |t.args| == 2 && IsConcrete(t.args[0]) && IsConcrete(t.args[1]) then
      RefTo(UnfoldStepSym(t.args[0], t.args[1]))
    else if t.Named? && t.typeId == CELL && |t.args| == 1 && IsConcrete(t.args[0]) then RefTo(CellSym(t.args[0]))
    else BaseValType(te, t)
  }

  predicate IsOptionCandidate(t: MonoType) {
    t.Named? && t.typeId == OPTION && |t.args| == 1
    && !(t.args[0].Named? && t.args[0].typeId == ITER_ITEM)
    && IsConcrete(t.args[0])
  }

  predicate IsResultCandidate(t: MonoType) {
    t.Named? && t.typeId == RESULT && |t.args| == 2 && IsConcrete(t.args[0]) && IsConcrete(t.args[1])
  }

  predicate IsSumCandidate(t: MonoType) { IsOptionCandidate(t) || IsResultCandidate(t) }

  // ----- Struct definitions the runtime and the backend declare -----

  function Field(t: ValType): (f: FieldDef) { FieldDef(false, t) }

  const VARIANT_DEF := StructDef([Field(I32), Field(I32), Field(RefTo(T_ARRAY))], None, false)
  const BOXED_INT_DEF := StructDef([Field(I64)], None, false)
  const BOXED_FLOAT_DEF := StructDef([Field(F64)], None, false)
  const CLOSURE_DEF := StructDef([Field(RefTo(T_CLOSURE_FUNC)), Field(RefTo(T_CLOSURE_ENV))], None, true)
  const ITER_STATE_DEF := StructDef([Field(Anyref), Field(Anyref)], None, true)

  function OptionDef(te: TypeEnv, t: MonoType): (d: StructDef)
    requires t.Named? && |t.args| == 1
  {
    StructDef([Field(I32), Field(ValTypeOf(te, t.args[0]))], None, false)
  }

  function ResultDef(te: TypeEnv, t: MonoType): (d: StructDef)
    requires t.Named? && |t.args| == 2
  {
    StructDef([Field(I32), Field(ValTypeOf(te, t.args[0])), Field(ValTypeOf(te, t.args[1]))], None, false)
  }

  /** `emit_typed_general_option_struct_def`. */
  function SumDefOf(te: TypeEnv, t: MonoType): (d: StructDef)
    requires IsSumCandidate(t)
  {
    if t.typeId == OPTION then OptionDef(te, t) else ResultDef(te, t)
  }

  function UnfoldStepDef(te: TypeEnv, y: MonoType, s: MonoType): (d: StructDef) {
    StructDef([Field(I32), Field(ValTypeOf(te, y)), Field(ValTypeOf(te, s))], None, false)
  }

  function UnfoldStepType(y: MonoType, s: MonoType): (t: MonoType) { Named(UNFOLD_STEP, [y, s]) }

  /** The typed closure struct of an iterator's step function. */
  function StepClosureSym(info: IterInfo): (s: Sym) {
    ClosureStructSym([info.seedTy], UnfoldStepType(info.yieldTy, info.seedTy))
  }

  function ClosureStructDef(params: seq<MonoType>, ret: MonoType): (d: StructDef) {
    StructDef([Field(RefTo(T_CLOSURE_FUNC)), Field(RefTo(T_CLOSURE_ENV)), Field(RefTo(ClosureFuncSym(params, ret)))],
              Some(T_CLOSURE), false)
  }

  function IterStateDef(te: TypeEnv, info: IterInfo): (d: StructDef) {
    StructDef([Field(ValTypeOf(te, info.seedTy)), Field(RefTo(StepClosureSym(info)))], None, false)
  }

  function IterItemDef(te: TypeEnv, info: IterInfo): (d: StructDef) {
    StructDef([FieldDef(true, ValTypeOf(te, info.yieldTy)), FieldDef(true, RefTo(IterStateSym(info)))], None, false)
  }

  function IterOptionDef(info: IterInfo): (d: StructDef) {
    StructDef([Field(I32), Field(RefTo(IterItemSym(info)))], None, false)
  }

  /** The runtime types every linked module declares. */
  predicate RuntimeTypes(types: map<Sym, StructDef>) {
    T_VARIANT in types && types[T_VARIANT] == VARIANT_DEF
    && T_BOXED_INT in types && types[T_BOXED_INT] == BOXED_INT_DEF
    && T_BOXED_FLOAT in types && types[T_BOXED_FLOAT] == BOXED_FLOAT_DEF
    && T_CLOSURE in types && types[T_CLOSURE] == CLOSURE_DEF
    && T_ITER_STATE in types && types[T_ITER_STATE] == ITER_STATE_DEF
  }
}
