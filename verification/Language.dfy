/** The part of the language that the compiler model covers: syntax trees, types and values. */
module Language {
  import opened Bytes

  datatype Option<+T> = None | Some(value: T)

  datatype Ty = Bool | Char | Int | Long | Double | String

  // Slots of a variable in the VM's storages (DataTypeSize).
  function SlotSize(t: Ty): nat {
    if t == Long || t == Double then 2 else 1
  }

  function Slots(ts: seq<Ty>): nat {
    if ts == [] then 0 else Slots(ts[..|ts| - 1]) + SlotSize(ts[|ts| - 1])
  }

  // A value is a type and an uninterpreted payload: arithmetic is a parameter of the semantics.
  type Raw = seq<byte>
  datatype Value = Val(ty: Ty, raw: Raw)

  function Truth(r: Raw): bool { r != [0] }
  function BoolRaw(b: bool): Raw { if b then [1] else [0] }

  function Zeros(n: nat): Raw { seq(n, _ => 0) }

  function Width(t: Ty): nat {
    match t
    case Bool => 1
    case Char => 1
    case Int => 4
    case Long => 8
    case Double => 8
    case String => 0
  }

  function Default(t: Ty): Value { Val(t, Zeros(Width(t))) }

  datatype BinOp = Mul | Div | Sum | Sub | Equal | NotEqual | Greater | GreaterOrEqual | Less | LessOrEqual
  datatype UnOp = Not | Negative

  datatype Expr =
    | Lit(v: Value)
    | Id(name: string)
    | Assign(left: Expr, right: Expr)
    | PreStep(inc: bool, operand: Expr)
    | Unary(uop: UnOp, operand: Expr)
    | Binary(bop: BinOp, left: Expr, right: Expr)
    | And(left: Expr, right: Expr)
    | Or(left: Expr, right: Expr)
    | Call(callee: Expr, args: seq<Expr>)

  datatype Branch = Branch(cond: Expr, body: seq<Stmt>)

  datatype Else = NoElse | Else(body: seq<Stmt>)

  datatype Stmt =
    | ExprStmt(e: Expr)
    | VarDef(ty: Ty, name: string, init: Option<Expr>)
    | If(branches: seq<Branch>, els: Else)
    | While(cond: Expr, body: seq<Stmt>)
    | Break
    | Continue
    | Return(value: Option<Expr>)

  datatype Arg = Arg(ty: Ty, name: string)
  datatype Func = Func(args: seq<Arg>, ret: Option<Ty>, body: seq<Stmt>)
  datatype Sig = Sig(args: seq<Ty>, ret: Option<Ty>, native: bool)

  function ArgTypes(args: seq<Arg>): seq<Ty> { seq(|args|, i requires 0 <= i < |args| => args[i].ty) }

  // The casts that exist: char to int, long and string; int to long and double; long to double.
  predicate Castable(src: Ty, dst: Ty) {
    match src
    case Char => dst == Int || dst == Long || dst == String
    case Int => dst == Long || dst == Double
    case Long => dst == Double
    case _ => false
  }

  predicate IsComparison(op: BinOp) {
    op == Equal || op == NotEqual || op == Greater || op == GreaterOrEqual || op == Less || op == LessOrEqual
  }

  predicate SupportsBin(op: BinOp, t: Ty) {
    match op
    case Sum => t != Bool
    case Equal => true
    case NotEqual => true
    case _ => t == Int || t == Long || t == Double || t == Char
  }

  function BinType(op: BinOp, t: Ty): Ty { if IsComparison(op) then Bool else t }

  predicate SupportsUn(op: UnOp, t: Ty) {
    match op
    case Not => t == Bool
    case Negative => t == Int || t == Long || t == Double
  }

  predicate SupportsStep(t: Ty) { t == Int || t == Long || t == Double || t == Char }

  // The type two operands meet at, if any: one of them is cast to the other's type.
  function Meet(a: Ty, b: Ty): Option<Ty> {
    if a == b then Some(a)
    else if Castable(a, b) then Some(b)
    else if Castable(b, a) then Some(a)
    else None
  }

  // Observable state outside the variables: anything a native function can read or change.
  type World = seq<int>

  // What each command computes, left open.
  datatype Prims = Prims(
    bin: (BinOp, Ty, Raw, Raw) -> Raw,
    un: (UnOp, Ty, Raw) -> Raw,
    step: (bool, Ty, Raw) -> Raw,
    cast: (Ty, Ty, Raw) -> Raw,
    native: (string, seq<Value>, World) -> (Raw, World))

  // The least number of a type, and minus one, as the bytes of a value.
  function Least(t: Ty): Raw { if Width(t) == 0 then [] else Zeros(Width(t) - 1) + [0x80] }
  function MinusOne(t: Ty): Raw { seq(Width(t), _ => 0xFF) }

  // The divisions that have no result: of an integer or a char by zero, and of the least int or long,
  // which has no opposite, by minus one.
  predicate NoResult(op: BinOp, t: Ty, a: Raw, b: Raw) {
    op == Div && match t
      case Char => b == Zeros(Width(t))
      case Int => b == Zeros(Width(t)) || (a == Least(t) && b == MinusOne(t))
      case Long => b == Zeros(Width(t)) || (a == Least(t) && b == MinusOne(t))
      case _ => false
  }

  function Apply(prims: Prims, op: BinOp, t: Ty, a: Raw, b: Raw): Option<Raw> {
    if NoResult(op, t, a, b) then None else Some(prims.bin(op, t, a, b))
  }
}
