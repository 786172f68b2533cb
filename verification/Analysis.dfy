/** What the semantic analyzer decides about a program, as functions over its scope stack: resolved
    identifiers, casts, and for every local, jump and return the definitions alive at that point. */
module Analysis {
  import opened Bytes
  import opened Language

  datatype ETy = Void | Prim(t: Ty) | FuncT(sig: Sig)

  function OfRet(ret: Option<Ty>): ETy { if ret.None? then Void else Prim(ret.value) }

  // An expression with the analyzer's record: its type, the cast its parent asked for, and for a
  // local variable the types of the locals alive when it was defined.
  datatype TExpr = TExpr(node: TNode, ty: ETy, cast: Option<Ty>)
  datatype TNode =
    | TLit(v: Value)
    | TLocal(t: Ty, flow: seq<Ty>, assignee: bool)
    | TGlobal(name: string, t: Ty, assignee: bool)
    | TFunc(name: string, native: bool)
    | TAssign(left: TExpr, right: TExpr)
    | TPreStep(inc: bool, operand: TExpr)
    | TUnary(uop: UnOp, operand: TExpr)
    | TBinary(bop: BinOp, left: TExpr, right: TExpr)
    | TAnd(left: TExpr, right: TExpr)
    | TOr(left: TExpr, right: TExpr)
    | TCall(callee: TExpr, args: seq<TExpr>)

  datatype TBranch = TBranch(cond: TExpr, body: seq<TStmt>, defs: seq<Ty>)
  datatype TElse = TNoElse | TElse(body: seq<TStmt>, defs: seq<Ty>)
  datatype TStmt =
    | TExprStmt(e: TExpr)
    | TLocalDef(t: Ty, init: Option<TExpr>)
    | TGlobalDef(name: string, t: Ty, init: Option<TExpr>)
    | TIf(branches: seq<TBranch>, els: TElse)
    | TWhile(cond: TExpr, body: seq<TStmt>, defs: seq<Ty>)
    | TBreak(flow: seq<Ty>)
    | TContinue(flow: seq<Ty>)
    | TReturn(value: Option<TExpr>, flow: seq<Ty>)

  datatype TFuncDef = TFuncDef(args: seq<Ty>, body: seq<TStmt>, defs: seq<Ty>, trailingReturn: bool)

  datatype GDef = GVar(t: Ty) | GFunc(sig: Sig)
  datatype LocalDef = LocalDef(name: string, t: Ty, flow: seq<Ty>)
  datatype ScopeKind = Common | Loop | FuncScope
  datatype Scope = Scope(kind: ScopeKind, defs: seq<LocalDef>)

  // The global scope's definitions, the local scopes from the outermost to the innermost, and the
  // return type of the enclosing function.
  datatype Ctx = Ctx(globals: map<string, GDef>, scopes: seq<Scope>, ret: Option<Option<Ty>>)

  function DefTypes(ds: seq<LocalDef>): seq<Ty> { seq(|ds|, i requires 0 <= i < |ds| => ds[i].t) }

  // GetLocalVarDefsUpToScope: the definitions of the scopes from the innermost one out to the nearest
  // scope of the kind, an outer scope's before an inner one's; all of them if there is none.
  function FlowUpTo(scopes: seq<Scope>, kind: ScopeKind): seq<LocalDef> {
    if scopes == [] then []
    else
      var s := scopes[|scopes| - 1];
      (if s.kind == kind then [] else FlowUpTo(scopes[..|scopes| - 1], kind)) + s.defs
  }

  predicate Within(scopes: seq<Scope>, kind: ScopeKind) {
    scopes != [] && (scopes[|scopes| - 1].kind == kind || Within(scopes[..|scopes| - 1], kind))
  }

  function FindDef(ds: seq<LocalDef>, x: string): (k: int)
    ensures -1 <= k < |ds|
    ensures k >= 0 ==> ds[k].name == x
  {
    if ds == [] then -1
    else if ds[|ds| - 1].name == x then |ds| - 1
    else FindDef(ds[..|ds| - 1], x)
  }

  // The definition an identifier resolves to: the innermost scope that has the name.
  function Resolve(scopes: seq<Scope>, x: string): Option<LocalDef> {
    if scopes == [] then None
    else
      var ds := scopes[|scopes| - 1].defs;
      var k := FindDef(ds, x);
      if k >= 0 then Some(ds[k]) else Resolve(scopes[..|scopes| - 1], x)
  }

  function Plain(node: TNode, ty: ETy): TExpr { TExpr(node, ty, None) }

  // The parent's demand for type t: no cast, a cast, or an error.
  function Coerce(te: TExpr, t: Ty): Option<TExpr> {
    if !te.ty.Prim? then None
    else if te.ty.t == t then Some(te)
    else if Castable(te.ty.t, t) then Some(te.(cast := Some(t)))
    else None
  }

  // Whether an expression's value is a left value: only identifiers of variables are.
  predicate IsLeft(te: TExpr) { te.node.TLocal? || te.node.TGlobal? }

  function AnalyzeId(cx: Ctx, x: string, assignee: bool): Option<TExpr> {
    match Resolve(cx.scopes, x)
    case Some(d) => Some(Plain(TLocal(d.t, d.flow, assignee), Prim(d.t)))
    case None =>
      if x !in cx.globals then None
      else
        match cx.globals[x]
        case GVar(t) => Some(Plain(TGlobal(x, t, assignee), Prim(t)))
        case GFunc(sig) => Some(Plain(TFunc(x, sig.native), FuncT(sig)))
  }

  // `assignee` is the top of the analyzer's stack of assignee contexts.
  function AnalyzeExpr(cx: Ctx, e: Expr, assignee: bool): (r: Option<TExpr>)
    ensures r.Some? ==> r.value.cast.None?
    ensures r.Some? && (r.value.node.TAnd? || r.value.node.TOr?) ==> r.value.ty == Prim(Bool)
    decreases e, 0
  {
    match e
    case Lit(v) => Some(Plain(TLit(v), Prim(v.ty)))
    case Id(x) => AnalyzeId(cx, x, assignee)
    case Assign(l, r) =>
      (match AnalyzeExpr(cx, l, true)
       case None => None
       case Some(tl) =>
         if !IsLeft(tl) || !tl.ty.Prim? then None else
         match AnalyzeTo(cx, r, tl.ty.t, assignee)
         case None => None
         case Some(tr) => Some(Plain(TAssign(tl, tr), Void)))
    case PreStep(inc, o) =>
      (match AnalyzeExpr(cx, o, true)
       case None => None
       case Some(to) =>
         if !IsLeft(to) || !to.ty.Prim? || !SupportsStep(to.ty.t) then None
         else Some(Plain(TPreStep(inc, to), Void)))
    case Unary(op, o) =>
      (match AnalyzeExpr(cx, o, assignee)
       case None => None
       case Some(to) =>
         if !to.ty.Prim? || !SupportsUn(op, to.ty.t) then None
         else Some(Plain(TUnary(op, to), Prim(to.ty.t))))
    case Binary(op, l, r) =>
      (match AnalyzeOperands(cx, l, r, assignee, e)
       case None => None
       case Some((tl, tr, t)) =>
         if !SupportsBin(op, t) then None
         else Some(Plain(TBinary(op, tl, tr), Prim(BinType(op, t)))))
    case And(l, r) =>
      (match AnalyzeOperands(cx, l, r, assignee, e)
       case None => None
       case Some((tl, tr, t)) => if t != Bool then None else Some(Plain(TAnd(tl, tr), Prim(Bool))))
    case Or(l, r) =>
      (match AnalyzeOperands(cx, l, r, assignee, e)
       case None => None
       case Some((tl, tr, t)) => if t != Bool then None else Some(Plain(TOr(tl, tr), Prim(Bool))))
    case Call(callee, args) =>
      match AnalyzeExpr(cx, callee, assignee)
      case None => None
      case Some(tc) =>
        if !tc.ty.FuncT? then None else
        match AnalyzeArgs(cx, args, tc.ty.sig.args, assignee)
        case None => None
        case Some(targs) => Some(Plain(TCall(tc, targs), OfRet(tc.ty.sig.ret)))
  }

  // Two operands cast to the type they meet at, with that type.
  function AnalyzeOperands(cx: Ctx, l: Expr, r: Expr, assignee: bool, e: Expr): Option<(TExpr, TExpr, Ty)>
    requires l < e && r < e
    decreases e, 0, 0
  {
    match AnalyzeExpr(cx, l, assignee)
    case None => None
    case Some(tl) =>
      match AnalyzeExpr(cx, r, assignee)
      case None => None
      case Some(tr) =>
        if !tl.ty.Prim? || !tr.ty.Prim? then None else
        match Meet(tl.ty.t, tr.ty.t)
        case None => None
        case Some(t) => Some((Coerce(tl, t).value, Coerce(tr, t).value, t))
  }

  function AnalyzeTo(cx: Ctx, e: Expr, t: Ty, assignee: bool): Option<TExpr>
    decreases e, 1
  {
    match AnalyzeExpr(cx, e, assignee)
    case None => None
    case Some(te) => Coerce(te, t)
  }

  function AnalyzeArgs(cx: Ctx, es: seq<Expr>, ts: seq<Ty>, assignee: bool): (r: Option<seq<TExpr>>)
    ensures r.Some? ==> |r.value| == |es| == |ts|
    decreases es
  {
    if |es| != |ts| then None
    else if es == [] then Some([])
    else
      var k := |es| - 1;
      match AnalyzeArgs(cx, es[..k], ts[..k], assignee)
      case None => None
      case Some(init) =>
        match AnalyzeTo(cx, es[k], ts[k], assignee)
        case None => None
        case Some(te) => Some(init + [te])
  }

  function Push(cx: Ctx, kind: ScopeKind): Ctx { cx.(scopes := cx.scopes + [Scope(kind, [])]) }

  function TopDefs(cx: Ctx): seq<Ty>
    requires cx.scopes != []
  {
    DefTypes(cx.scopes[|cx.scopes| - 1].defs)
  }

  // VisitVarDef within a function or block: the definition records the locals alive before it.
  function AddLocal(cx: Ctx, t: Ty, x: string): Option<Ctx>
    requires cx.scopes != []
  {
    var top := cx.scopes[|cx.scopes| - 1];
    if FindDef(top.defs, x) >= 0 then None
    else
      var d := LocalDef(x, t, DefTypes(FlowUpTo(cx.scopes, FuncScope)));
      Some(cx.(scopes := cx.scopes[..|cx.scopes| - 1] + [top.(defs := top.defs + [d])]))
  }

  function AnalyzeInit(cx: Ctx, init: Option<Expr>, t: Ty): Option<Option<TExpr>> {
    match init
    case None => Some(None)
    case Some(e) =>
      match AnalyzeTo(cx, e, t, false)
      case None => None
      case Some(te) => Some(Some(te))
  }

  function AnalyzeVarDef(cx: Ctx, t: Ty, x: string, init: Option<Expr>): Option<(TStmt, Ctx)> {
    if cx.scopes == [] then
      if x in cx.globals then None
      else
        var cx1 := cx.(globals := cx.globals[x := GVar(t)]);
        match AnalyzeInit(cx1, init, t)
        case None => None
        case Some(ti) => Some((TGlobalDef(x, t, ti), cx1))
    else
      match AddLocal(cx, t, x)
      case None => None
      case Some(cx1) =>
        match AnalyzeInit(cx1, init, t)
        case None => None
        case Some(ti) => Some((TLocalDef(t, ti), cx1))
  }

  function AnalyzeReturn(cx: Ctx, value: Option<Expr>): Option<TStmt> {
    if cx.ret.None? then None
    else
      var flow := DefTypes(FlowUpTo(cx.scopes, FuncScope));
      match value
      case None => if cx.ret.value.None? then Some(TReturn(None, flow)) else None
      case Some(e) =>
        if cx.ret.value.None? then None else
        match AnalyzeTo(cx, e, cx.ret.value.value, false)
        case None => None
        case Some(te) => Some(TReturn(Some(te), flow))
  }

  function AnalyzeStmt(cx: Ctx, s: Stmt): (r: Option<(TStmt, Ctx)>)
    decreases s, 2
  {
    match s
    case ExprStmt(e) =>
      (match AnalyzeExpr(cx, e, false)
       case None => None
       case Some(te) => Some((TExprStmt(te), cx)))
    case VarDef(t, x, init) => AnalyzeVarDef(cx, t, x, init)
    case If(bs, els) =>
      (match AnalyzeBranches(cx, bs)
       case None => None
       case Some(tbs) =>
         match els
         case NoElse => Some((TIf(tbs, TNoElse), cx))
         case Else(ss) =>
           match AnalyzeBlock(cx, Common, ss)
           case None => None
           case Some((ts, defs)) => Some((TIf(tbs, TElse(ts, defs)), cx)))
    case While(c, b) =>
      (match AnalyzeTo(cx, c, Bool, false)
       case None => None
       case Some(tc) =>
         match AnalyzeBlock(cx, Loop, b)
         case None => None
         case Some((ts, defs)) => Some((TWhile(tc, ts, defs), cx)))
    case Break =>
      if Within(cx.scopes, Loop) then Some((TBreak(DefTypes(FlowUpTo(cx.scopes, Loop))), cx)) else None
    case Continue =>
      if Within(cx.scopes, Loop) then Some((TContinue(DefTypes(FlowUpTo(cx.scopes, Loop))), cx)) else None
    case Return(value) =>
      match AnalyzeReturn(cx, value)
      case None => None
      case Some(ts) => Some((ts, cx))
  }

  function AnalyzeStmts(cx: Ctx, ss: seq<Stmt>): (r: Option<(seq<TStmt>, Ctx)>)
    ensures r.Some? ==> |r.value.0| == |ss|
    decreases ss, 0
  {
    if ss == [] then Some(([], cx))
    else
      match AnalyzeStmt(cx, ss[0])
      case None => None
      case Some((t, cx1)) =>
        match AnalyzeStmts(cx1, ss[1..])
        case None => None
        case Some((ts, cx2)) => Some(([t] + ts, cx2))
  }

  // A body in a fresh scope: its statements and the definitions the scope has at its end.
  function AnalyzeBlock(cx: Ctx, kind: ScopeKind, ss: seq<Stmt>): Option<(seq<TStmt>, seq<Ty>)>
    decreases ss, 1
  {
    match AnalyzeStmts(Push(cx, kind), ss)
    case None => None
    case Some((ts, cx1)) => if cx1.scopes == [] then None else Some((ts, TopDefs(cx1)))
  }

  function AnalyzeBranches(cx: Ctx, bs: seq<Branch>): (r: Option<seq<TBranch>>)
    ensures r.Some? ==> |r.value| == |bs|
    decreases bs
  {
    if bs == [] then Some([])
    else
      match AnalyzeTo(cx, bs[0].cond, Bool, false)
      case None => None
      case Some(tc) =>
        match AnalyzeBlock(cx, Common, bs[0].body)
        case None => None
        case Some((ts, defs)) =>
          match AnalyzeBranches(cx, bs[1..])
          case None => None
          case Some(rest) => Some([TBranch(tc, ts, defs)] + rest)
  }

  function AddArgs(cx: Ctx, args: seq<Arg>): Option<Ctx>
    requires cx.scopes != []
    decreases args
  {
    if args == [] then Some(cx)
    else
      match AddLocal(cx, args[0].ty, args[0].name)
      case None => None
      case Some(cx1) => AddArgs(cx1, args[1..])
  }

  // The scope's return flag: only a return that stands directly in the function's scope sets it.
  predicate HasReturn(ss: seq<Stmt>) { exists i :: 0 <= i < |ss| && ss[i].Return? }

  function SigOf(f: Func): Sig { Sig(ArgTypes(f.args), f.ret, false) }

  function AnalyzeFunc(globals: map<string, GDef>, f: Func): Option<TFuncDef> {
    match AddArgs(Ctx(globals, [Scope(FuncScope, [])], Some(f.ret)), f.args)
    case None => None
    case Some(cx) =>
      match AnalyzeStmts(cx, f.body)
      case None => None
      case Some((ts, cx1)) =>
        if cx1.scopes == [] || (f.ret.Some? && !HasReturn(f.body)) then None
        else Some(TFuncDef(ArgTypes(f.args), ts, TopDefs(cx1), f.ret.None? && !HasReturn(f.body)))
  }
}
