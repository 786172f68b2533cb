/** The code of every construct, as a list of commands. Names of globals and functions are still
    symbols, and jumps out of the enclosing loop are still holes that the loop fills. */
module Codegen {
  import opened Bytes
  import opened Language
  import opened Analysis
  import opened Commands

  // Casts exist between values only.
  function CastCmds(te: TExpr): seq<Cmd> {
    if te.cast.None? then []
    else if te.ty.Prim? then [Cast(te.ty.t, te.cast.value)]
    else [NoCmd]
  }

  // The type an expression's value has after its cast; none if it has no value.
  function FinalTy(te: TExpr): Option<Ty> {
    if te.cast.Some? then te.cast else if te.ty.Prim? then Some(te.ty.t) else None
  }

  // The commands looked up by an operand's type, which visit no type but those of values.
  function StoreOf(t: Option<Ty>): Cmd { if t.Some? then Store(t.value) else NoCmd }

  function StepOf(inc: bool, t: Option<Ty>): Cmd { if t.Some? then StepCmd(inc, t.value) else NoCmd }

  function UnOf(op: UnOp, t: Option<Ty>): Cmd { if t.Some? then UnCmd(op, t.value) else NoCmd }

  function BinOf(op: BinOp, t: Option<Ty>): Cmd { if t.Some? then BinCmd(op, t.value) else NoCmd }

  function GenExpr(te: TExpr): seq<Cmd>
    decreases te
  {
    match te.node
    case TLit(v) => [LoadValue(v)] + CastCmds(te)
    case TLocal(t, flow, assignee) =>
      [if assignee then LoadLocalAddress(Slots(flow)) else LoadLocal(t, Slots(flow))] + CastCmds(te)
    case TGlobal(x, t, assignee) =>
      [if assignee then LoadGlobalAddress(Sym(x)) else LoadGlobal(t, Sym(x))] + CastCmds(te)
    case TFunc(f, native) => [if native then LoadNative(Sym(f)) else LoadFunc(Sym(f))] + CastCmds(te)
    case TAssign(l, r) => GenExpr(r) + (GenExpr(l) + ([StoreOf(FinalTy(l))] + CastCmds(te)))
    case TPreStep(inc, o) => GenExpr(o) + ([StepOf(inc, FinalTy(o))] + CastCmds(te))
    case TUnary(op, o) => GenExpr(o) + ([UnOf(op, FinalTy(o))] + CastCmds(te))
    case TBinary(op, l, r) => GenExpr(l) + (GenExpr(r) + ([BinOf(op, FinalTy(l))] + CastCmds(te)))
    case TAnd(l, r) => GenLogic(ImplicitIfNot, GenExpr(l), GenExpr(r) + ([AndCmd] + CastCmds(te)))
    case TOr(l, r) => GenLogic(ImplicitIf, GenExpr(l), GenExpr(r) + ([OrCmd] + CastCmds(te)))
    case TCall(c, args) => GenArgs(args) + (GenExpr(c) + ([GenCall(c)] + CastCmds(te)))
  }

  // The jump over the right operand lands behind its operator and its cast.
  function GenLogic(kind: JumpKind, left: seq<Cmd>, rest: seq<Cmd>): seq<Cmd> {
    left + ([Jump(kind, Off(Size(rest)))] + rest)
  }

  // CallCmdGenerator visits no type but a function's.
  function GenCall(c: TExpr): Cmd {
    if !c.ty.FuncT? then NoCmd else if c.ty.sig.native then CallNative else CallFunc
  }

  // Arguments are evaluated from the last to the first.
  function GenArgs(args: seq<TExpr>): seq<Cmd>
    decreases args
  {
    if args == [] then [] else GenExpr(args[|args| - 1]) + GenArgs(args[..|args| - 1])
  }

  // The variables of a scope are destroyed from the last to the first.
  function Destroy(ts: seq<Ty>): seq<Cmd> {
    if ts == [] then [] else [DestroyLocal(ts[|ts| - 1])] + Destroy(ts[..|ts| - 1])
  }

  function FillCmd(c: Cmd, toStart: int, toEnd: int): Cmd {
    if c.Jump? && c.target == ToBreak then Jump(c.kind, Off(toEnd - CmdSize(c)))
    else if c.Jump? && c.target == ToContinue then Jump(c.kind, Off(toStart - CmdSize(c)))
    else c
  }

  // The holes of a loop's body filled: the loop starts toStart and ends toEnd bytes from here.
  function Fill(cs: seq<Cmd>, toStart: int, toEnd: int): seq<Cmd> {
    if cs == [] then []
    else [FillCmd(cs[0], toStart, toEnd)] + Fill(cs[1..], toStart - CmdSize(cs[0]), toEnd - CmdSize(cs[0]))
  }

  lemma FillCmdSize(c: Cmd, toStart: int, toEnd: int)
    ensures CmdSize(FillCmd(c, toStart, toEnd)) == CmdSize(c)
  {
  }

  lemma {:induction false} FillSize(cs: seq<Cmd>, toStart: int, toEnd: int)
    ensures Size(Fill(cs, toStart, toEnd)) == Size(cs)
  {
    if cs != [] {
      var k := CmdSize(cs[0]);
      FillCmdSize(cs[0], toStart, toEnd);
      FillSize(cs[1..], toStart - k, toEnd - k);
    }
  }

  // UnloadCmdGenerator: nothing for no value, and no visit of a function.
  function GenUnload(ty: ETy): seq<Cmd> {
    match ty
    case Prim(t) => [Unload(t)]
    case Void => []
    case FuncT(_) => [NoCmd]
  }

  function GenWhile(cond: seq<Cmd>, body: seq<Cmd>): seq<Cmd> {
    var start := Size(cond) + 5;
    cond + ([Jump(IfNot, Off(Size(body) + 5))] +
      (Fill(body, -start, Size(body) + 5) + [Jump(Direct, Off(-(start + Size(body) + 5)))]))
  }

  function GenStmt(s: TStmt): seq<Cmd>
    decreases s, 2, 0
  {
    match s
    case TExprStmt(e) => GenExpr(e) + GenUnload(e.ty)
    case TLocalDef(t, init) => (match init case None => [CreateLocal(t)] case Some(e) => GenExpr(e) + [InitLocal(t)])
    case TGlobalDef(x, t, init) =>
      (match init case None => [CreateGlobal(t, Sym(x))] case Some(e) => GenExpr(e) + [InitGlobal(t, Sym(x))])
    case TIf(bs, els) => GenBranches(s, 0)
    case TWhile(c, b, defs) => GenWhile(GenExpr(c), GenStmts(b) + Destroy(defs))
    case TBreak(flow) => Destroy(flow) + [Jump(Direct, ToBreak)]
    case TContinue(flow) => Destroy(flow) + [Jump(Direct, ToContinue)]
    case TReturn(value, flow) =>
      (match value case None => [] case Some(e) => GenExpr(e)) + (Destroy(flow) + [Ret])
  }

  function GenStmts(ss: seq<TStmt>): seq<Cmd>
    decreases ss, 1
  {
    if ss == [] then [] else GenStmt(ss[0]) + GenStmts(ss[1..])
  }

  // One branch: over the body if the condition fails; behind the body, a jump over the remaining
  // branches unless it is the last one.
  function GenBranch(cond: seq<Cmd>, body: seq<Cmd>, last: bool, rest: seq<Cmd>): seq<Cmd> {
    var exit := if last then [] else [Jump(Direct, Off(Size(rest)))];
    cond + ([Jump(IfNot, Off(Size(body + exit)))] + (body + (exit + rest)))
  }

  // The branches of s from the i-th on, then its else body.
  function GenBranches(s: TStmt, i: nat): seq<Cmd>
    requires s.TIf? && i <= |s.branches|
    decreases s, 1, |s.branches| - i
  {
    if i == |s.branches| then
      match s.els
      case TNoElse => []
      case TElse(ss, defs) => GenStmts(ss) + Destroy(defs)
    else
      var b := s.branches[i];
      GenBranch(GenExpr(b.cond), GenStmts(b.body) + Destroy(b.defs),
        i + 1 == |s.branches| && s.els.TNoElse?, GenBranches(s, i + 1))
  }

  function GenParams(ts: seq<Ty>): seq<Cmd> {
    if ts == [] then [] else [InitLocal(ts[0])] + GenParams(ts[1..])
  }

  function GenFunc(f: TFuncDef): seq<Cmd> {
    GenParams(f.args) + (GenStmts(f.body) + (if f.trailingReturn then Destroy(f.defs) + [Ret] else []))
  }
}
