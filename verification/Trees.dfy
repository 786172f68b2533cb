/** Expressions as the parser reads them: tokens, concrete trees (parentheses kept as nodes), the
    tokens a tree stands for, and the grammar of priorities and associativity the operator table
    describes. */
module Trees {

  datatype Assoc = LeftToRight | RightToLeft

  datatype Operator =
    | Assign | Or | And | Equal | NotEqual | Less | LessOrEqual | Greater | GreaterOrEqual
    | Sum | Sub | Mul | Div | Not | PreInc | PreDec

  datatype ElementType = IntType | LongType | CharType | DoubleType | BoolType | StringType | VoidType

  datatype LitKind = IntLit | LongLit | DoubleLit | CharLit | StringLit | BoolLit

  datatype Token =
    | Name(text: string)
    | Literal(kind: LitKind, value: string)
    | New
    | Type(ty: ElementType)
    | Op(op: Operator)
    | GroupStart | GroupEnd
    | SubscriptStart | SubscriptEnd
    | ScopeStart | ScopeEnd
    | Separator
    | StmtEnd
    | Keyword(word: string)
    | FileEnd

  datatype Tree =
    | Leaf(token: Token)
    | Group(inner: Tree)
    | Sized(ty: ElementType, sizes: seq<Tree>)
    | Filled(ty: ElementType, depth: nat, values: seq<Tree>)
    | Unary(op: Operator, operand: Tree)
    | Binary(op: Operator, left: Tree, right: Tree)
    | Call(callee: Tree, args: seq<Tree>)
    | Index(base: Tree, index: Tree)

  const POSTFIX: nat := 9
  const PREFIX: nat := 8
  const ATOM: nat := 10

  predicate IsPrefix(op: Operator) { op in {Sub, Not, PreInc, PreDec} }

  predicate IsInfix(op: Operator) { op !in {Not, PreInc, PreDec} }

  // The operator table for operators between two operands.
  function InfixPrio(op: Operator): nat
    requires IsInfix(op)
  {
    match op
    case Mul | Div => 7
    case Sum | Sub => 6
    case GreaterOrEqual | LessOrEqual | Less | Greater => 5
    case Equal | NotEqual => 4
    case And => 3
    case Or => 2
    case Assign => 1
  }

  function InfixAssoc(op: Operator): Assoc { if op.Assign? then RightToLeft else LeftToRight }

  // The tokens of a tree, left to right.
  function Yield(t: Tree): seq<Token> {
    match t
    case Leaf(tok) => [tok]
    case Group(e) => [GroupStart] + Yield(e) + [GroupEnd]
    case Sized(ty, sizes) => [New, Type(ty)] + YieldSizes(sizes)
    case Filled(ty, depth, values) =>
      [New, Type(ty)] + YieldEmpties(depth) + [ScopeStart] + YieldList(values) + [ScopeEnd]
    case Unary(op, e) => [Op(op)] + Yield(e)
    case Binary(op, l, r) => Yield(l) + [Op(op)] + Yield(r)
    case Call(f, args) => Yield(f) + [GroupStart] + YieldList(args) + [GroupEnd]
    case Index(e, i) => Yield(e) + [SubscriptStart] + Yield(i) + [SubscriptEnd]
  }

  function YieldList(es: seq<Tree>): seq<Token> {
    if es == [] then []
    else if |es| == 1 then Yield(es[0])
    else Yield(es[0]) + [Separator] + YieldList(es[1..])
  }

  function YieldSizes(es: seq<Tree>): seq<Token> {
    if es == [] then [] else [SubscriptStart] + Yield(es[0]) + [SubscriptEnd] + YieldSizes(es[1..])
  }

  function YieldEmpties(n: nat): seq<Token> {
    if n == 0 then [] else [SubscriptStart, SubscriptEnd] + YieldEmpties(n - 1)
  }

  // How tightly the outermost construct of a tree binds.
  function Prio(t: Tree): nat
    requires t.Binary? ==> IsInfix(t.op)
  {
    match t
    case Binary(op, _, _) => InfixPrio(op)
    case Unary(_, _) => PREFIX
    case Call(_, _) => POSTFIX
    case Index(_, _) => POSTFIX
    case _ => ATOM
  }

  // The grammar: an operand may be any tree that binds tightly enough for its place. An operator
  // that groups left to right takes its own level on its left only, assignment on its right only;
  // a subscript cannot follow an array allocation by sizes, which would take it for a size.
  predicate Grammatical(t: Tree) {
    match t
    case Leaf(tok) => tok.Name? || tok.Literal?
    case Group(e) => Grammatical(e)
    case Sized(_, sizes) => sizes != [] && forall e <- sizes :: Grammatical(e)
    case Filled(_, depth, values) => depth > 0 && forall e <- values :: Grammatical(e)
    case Unary(op, e) => IsPrefix(op) && Grammatical(e) && Prio(e) >= PREFIX
    case Binary(op, l, r) =>
      && IsInfix(op) && Grammatical(l) && Grammatical(r)
      && (if op.Assign? then Prio(l) > InfixPrio(op) && Prio(r) >= InfixPrio(op)
          else Prio(l) >= InfixPrio(op) && Prio(r) > InfixPrio(op))
    case Call(f, args) => Grammatical(f) && Prio(f) >= POSTFIX && forall e <- args :: Grammatical(e)
    case Index(e, i) => Grammatical(e) && Prio(e) >= POSTFIX && !e.Sized? && Grammatical(i)
  }

  // What the parser returns: the tree without the parentheses.
  function Strip(t: Tree): Tree {
    match t
    case Leaf(_) => t
    case Group(e) => Strip(e)
    case Sized(ty, sizes) => Sized(ty, StripAll(sizes))
    case Filled(ty, depth, values) => Filled(ty, depth, StripAll(values))
    case Unary(op, e) => Unary(op, Strip(e))
    case Binary(op, l, r) => Binary(op, Strip(l), Strip(r))
    case Call(f, args) => Call(Strip(f), StripAll(args))
    case Index(e, i) => Index(Strip(e), Strip(i))
  }

  function StripAll(es: seq<Tree>): seq<Tree> {
    if es == [] then [] else [Strip(es[0])] + StripAll(es[1..])
  }

  function Peek(ts: seq<Token>, i: nat): Token { if i < |ts| then ts[i] else FileEnd }

  predicate At(ts: seq<Token>, i: nat, ys: seq<Token>) { i + |ys| <= |ts| && ts[i..i + |ys|] == ys }

  // The tokens that continue an expression once an operand is complete.
  predicate Continues(tok: Token) {
    tok.GroupStart? || tok.SubscriptStart? || (tok.Op? && IsInfix(tok.op))
  }

  // t is a grammatical expression whose tokens are those from i up to j, where no expression goes on.
  predicate IsExpr(ts: seq<Token>, i: nat, t: Tree, j: nat) {
    Grammatical(t) && At(ts, i, Yield(t)) && j == i + |Yield(t)| && !Continues(Peek(ts, j))
  }

  lemma AtSplits(ts: seq<Token>, i: nat, a: seq<Token>, b: seq<Token>)
    ensures At(ts, i, a + b) <==> At(ts, i, a) && At(ts, i + |a|, b)
  {
    if i + |a| + |b| <= |ts| {
      assert ts[i..i + |a| + |b|] == ts[i..i + |a|] + ts[i + |a|..i + |a| + |b|];
      if At(ts, i, a + b) {
        assert (a + b)[..|a|] == a && (a + b)[|a|..] == b;
      }
    }
  }

  lemma AtOne(ts: seq<Token>, i: nat, tok: Token)
    requires tok != FileEnd
    ensures At(ts, i, [tok]) <==> Peek(ts, i) == tok
  {
    if i < |ts| {
      assert ts[i..i + 1] == [ts[i]];
    }
  }
}
