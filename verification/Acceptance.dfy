/** What the analyzer accepts, the generator has commands for; and it leaves no jump without a loop. */
module Acceptance {
  import opened Bytes
  import opened Language
  import opened Analysis
  import opened Commands
  import opened Codegen
  import opened Relation
  import opened Scoping
  import opened Emission
  import opened Generator

  predicate AllExist(cs: seq<Cmd>) { forall i :: 0 <= i < |cs| ==> Exists(cs[i]) }

  predicate AllFit(cs: seq<Cmd>) { forall i :: 0 <= i < |cs| ==> OperandFits(cs[i]) }

  lemma WritableIf(cs: seq<Cmd>)
    requires AllFit(cs)
    ensures AllWritable(cs) <==> AllExist(cs)
  {
  }

  predicate IsDef(c: Cmd) { c.CreateGlobal? || c.InitGlobal? }

  // No command that defines a global.
  predicate NoDefs(cs: seq<Cmd>) { forall i :: 0 <= i < |cs| ==> !IsDef(cs[i]) }

  lemma NoDefsAppend(a: seq<Cmd>, b: seq<Cmd>)
    ensures NoDefs(a + b) <==> NoDefs(a) && NoDefs(b)
  {
    if NoDefs(a + b) {
      assert forall i :: 0 <= i < |a| ==> a[i] == (a + b)[i];
      assert forall i :: 0 <= i < |b| ==> b[i] == (a + b)[|a| + i];
    }
  }

  // Commands of an expression: existing, without jumps out of a loop and without definitions.
  predicate Sound(cs: seq<Cmd>) { AllExist(cs) && NoJumps(cs) && NoDefs(cs) }

  lemma SoundAppend(a: seq<Cmd>, b: seq<Cmd>)
    ensures Sound(a + b) <==> Sound(a) && Sound(b)
    ensures AllExist(a + b) <==> AllExist(a) && AllExist(b)
  {
    NoJumpsAppend(a, b);
    NoDefsAppend(a, b);
    if AllExist(a + b) {
      assert forall i :: 0 <= i < |a| ==> a[i] == (a + b)[i];
      assert forall i :: 0 <= i < |b| ==> b[i] == (a + b)[|a| + i];
    }
  }

  lemma SoundOne(c: Cmd)
    requires Exists(c) && (c.Jump? ==> c.target.Off?) && !IsDef(c)
    ensures Sound([c])
  {
  }

  lemma SoundNone()
    ensures Sound([])
  {
  }

  // An expression with the cast its parent asked for, if any.
  lemma CastSound(te: TExpr)
    requires te.cast.Some? ==> te.ty.Prim? && Castable(te.ty.t, te.cast.value)
    ensures Sound(CastCmds(te))
  {
  }

  // An analyzed expression with any existing cast.
  lemma {:induction false} ExprSound(cx: Ctx, e: Expr, assignee: bool, te: TExpr, cast: Option<Ty>)
    requires AnalyzeExpr(cx, e, assignee) == Some(te)
    requires cast.Some? ==> te.ty.Prim? && Castable(te.ty.t, cast.value)
    ensures Sound(GenExpr(te.(cast := cast)))
    decreases e, 0
  {
    hide Sound, GenExpr, GenLogic, GenArgs, CastCmds, Castable, SupportsBin, SupportsUn, SupportsStep, Resolve, Slots;
    var tc := te.(cast := cast);
    GenShape(tc);
    CastSound(tc);
    match e
    case Lit(v) => Tail0(LoadValue(v), tc);
    case Id(x) => IdSound(cx, x, assignee, te, tc);
    case Assign(l, r) =>
      ExprSound(cx, l, true, te.node.left, None);
      ToSound(cx, r, te.node.left.ty.t, assignee, te.node.right);
      Tail2(te.node.right, te.node.left, StoreOf(FinalTy(te.node.left)), tc);
    case PreStep(inc, o) =>
      ExprSound(cx, o, true, te.node.operand, None);
      Uncast(te.node.operand);
      Tail1(te.node.operand, StepOf(inc, FinalTy(te.node.operand)), tc);
    case Unary(op, o) =>
      ExprSound(cx, o, assignee, te.node.operand, None);
      Uncast(te.node.operand);
      Tail1(te.node.operand, UnOf(op, FinalTy(te.node.operand)), tc);
    case Binary(op, l, r) =>
      OperandsSound(cx, l, r, assignee, e);
      Tail2(te.node.left, te.node.right, BinOf(op, FinalTy(te.node.left)), tc);
    case And(l, r) =>
      OperandsSound(cx, l, r, assignee, e);
      LogicSound(ImplicitIfNot, te.node.left, te.node.right, AndCmd, tc);
    case Or(l, r) =>
      OperandsSound(cx, l, r, assignee, e);
      LogicSound(ImplicitIf, te.node.left, te.node.right, OrCmd, tc);
    case Call(f, args) =>
      ExprSound(cx, f, assignee, te.node.callee, None);
      ArgsSound(cx, args, te.node.callee.ty.sig.args, assignee, te.node.args);
      CallSound(te.node.args, te.node.callee, tc);
  }

  lemma Uncast(te: TExpr)
    requires te.cast.None? && te.ty.Prim?
    ensures FinalTy(te) == Some(te.ty.t) && te.(cast := None) == te
  {
  }

  lemma IdSound(cx: Ctx, x: string, assignee: bool, te: TExpr, tc: TExpr)
    requires AnalyzeId(cx, x, assignee) == Some(te) && tc == te.(cast := tc.cast) && Sound(CastCmds(tc))
    ensures Sound(GenExpr(tc))
  {
    hide Sound, GenExpr, CastCmds, Resolve, Slots;
    GenShape(tc);
    match te.node
    case TLocal(t, flow, a) => Tail0(if a then LoadLocalAddress(Slots(flow)) else LoadLocal(t, Slots(flow)), tc);
    case TGlobal(y, t, a) => Tail0(if a then LoadGlobalAddress(Sym(y)) else LoadGlobal(t, Sym(y)), tc);
    case TFunc(f, native) => Tail0(if native then LoadNative(Sym(f)) else LoadFunc(Sym(f)), tc);
  }

  lemma Tail0(c: Cmd, tc: TExpr)
    requires Exists(c) && !c.Jump? && !IsDef(c) && Sound(CastCmds(tc))
    ensures Sound([c] + CastCmds(tc))
  {
    hide Sound, CastCmds;
    SoundOne(c);
    SoundAppend([c], CastCmds(tc));
  }

  lemma Tail1(a: TExpr, c: Cmd, tc: TExpr)
    requires Sound(GenExpr(a)) && Exists(c) && !c.Jump? && !IsDef(c) && Sound(CastCmds(tc))
    ensures Sound(GenExpr(a) + ([c] + CastCmds(tc)))
  {
    hide Sound, CastCmds, GenExpr;
    Tail0(c, tc);
    SoundAppend(GenExpr(a), [c] + CastCmds(tc));
  }

  lemma Tail2(a: TExpr, b: TExpr, c: Cmd, tc: TExpr)
    requires Sound(GenExpr(a)) && Sound(GenExpr(b)) && Exists(c) && !c.Jump? && !IsDef(c) && Sound(CastCmds(tc))
    ensures Sound(GenExpr(a) + (GenExpr(b) + ([c] + CastCmds(tc))))
  {
    hide Sound, CastCmds, GenExpr;
    Tail1(b, c, tc);
    SoundAppend(GenExpr(a), GenExpr(b) + ([c] + CastCmds(tc)));
  }

  lemma LogicSound(kind: JumpKind, a: TExpr, b: TExpr, c: Cmd, tc: TExpr)
    requires Sound(GenExpr(a)) && Sound(GenExpr(b)) && Exists(c) && !c.Jump? && !IsDef(c) && Sound(CastCmds(tc))
    ensures Sound(GenLogic(kind, GenExpr(a), GenExpr(b) + ([c] + CastCmds(tc))))
  {
    hide Sound, CastCmds, GenExpr, Size;
    var rest := GenExpr(b) + ([c] + CastCmds(tc));
    var j := Jump(kind, Off(Size(rest)));
    Tail1(b, c, tc);
    SoundOne(j);
    SoundAppend([j], rest);
    SoundAppend(GenExpr(a), [j] + rest);
  }

  lemma CallSound(args: seq<TExpr>, f: TExpr, tc: TExpr)
    requires f.ty.FuncT? && Sound(GenArgs(args)) && Sound(GenExpr(f)) && Sound(CastCmds(tc))
    ensures Sound(GenArgs(args) + (GenExpr(f) + ([GenCall(f)] + CastCmds(tc))))
  {
    hide Sound, CastCmds, GenExpr, GenArgs;
    Tail1(f, GenCall(f), tc);
    SoundAppend(GenArgs(args), GenExpr(f) + ([GenCall(f)] + CastCmds(tc)));
  }

  lemma {:induction false} ToSound(cx: Ctx, e: Expr, t: Ty, assignee: bool, te: TExpr)
    requires AnalyzeTo(cx, e, t, assignee) == Some(te)
    ensures Sound(GenExpr(te)) && FinalTy(te) == Some(t)
    decreases e, 1
  {
    hide Sound, GenExpr, AnalyzeExpr;
    var te0 := AnalyzeExpr(cx, e, assignee).value;
    ExprSound(cx, e, assignee, te0, te.cast);
  }

  lemma {:induction false} OperandsSound(cx: Ctx, l: Expr, r: Expr, assignee: bool, e: Expr)
    requires l < e && r < e && AnalyzeOperands(cx, l, r, assignee, e).Some?
    ensures var a := AnalyzeOperands(cx, l, r, assignee, e).value;
      Sound(GenExpr(a.0)) && Sound(GenExpr(a.1)) && FinalTy(a.0) == Some(a.2) && FinalTy(a.1) == Some(a.2)
    decreases e, 0, 0
  {
    hide Sound, GenExpr, AnalyzeExpr, Castable;
    var (tl, tr, t) := AnalyzeOperands(cx, l, r, assignee, e).value;
    ExprSound(cx, l, assignee, AnalyzeExpr(cx, l, assignee).value, tl.cast);
    ExprSound(cx, r, assignee, AnalyzeExpr(cx, r, assignee).value, tr.cast);
  }

  lemma {:induction false} ArgsSound(cx: Ctx, es: seq<Expr>, ts: seq<Ty>, assignee: bool, tes: seq<TExpr>)
    requires AnalyzeArgs(cx, es, ts, assignee) == Some(tes)
    ensures Sound(GenArgs(tes))
    decreases es
  {
    hide Sound, GenExpr, AnalyzeTo;
    if es == [] {
      SoundNone();
    } else {
      var k := |es| - 1;
      ToSound(cx, es[k], ts[k], assignee, tes[k]);
      ArgsSound(cx, es[..k], ts[..k], assignee, tes[..k]);
      SoundAppend(GenExpr(tes[k]), GenArgs(tes[..k]));
    }
  }

  // ----- statements -----

  // Every command exists if and only if `ok`. Within a loop the code may break and continue; outside it
  // does not. At the top level it may define globals; elsewhere it does not.
  predicate SoundIn(cs: seq<Cmd>, ok: bool, inLoop: bool, top: bool) {
    (AllExist(cs) <==> ok) && (!inLoop ==> NoJumps(cs)) && (!top ==> NoDefs(cs))
  }

  lemma SoundInAppend(a: seq<Cmd>, b: seq<Cmd>, p: bool, q: bool, inLoop: bool, top: bool)
    requires SoundIn(a, p, inLoop, top) && SoundIn(b, q, inLoop, top)
    ensures SoundIn(a + b, p && q, inLoop, top)
  {
    hide AllExist, NoJumps, NoDefs;
    SoundAppend(a, b);
    NoJumpsAppend(a, b);
    NoDefsAppend(a, b);
  }

  lemma SoundInside(cs: seq<Cmd>, inLoop: bool, top: bool)
    requires Sound(cs)
    ensures SoundIn(cs, true, inLoop, top)
  {
  }

  lemma JumpSound(t: Target)
    requires !t.Off?
    ensures SoundIn([Jump(Direct, t)], true, true, false)
  {
  }

  lemma {:induction false} DestroySound(ts: seq<Ty>)
    ensures Sound(Destroy(ts))
  {
    hide Sound;
    if ts == [] {
      SoundNone();
    } else {
      var k := |ts| - 1;
      DestroySound(ts[..k]);
      SoundOne(DestroyLocal(ts[k]));
      SoundAppend([DestroyLocal(ts[k])], Destroy(ts[..k]));
    }
  }

  // The generator has code for an accepted statement list exactly if no statement in it is a function's name.
  lemma {:induction false} StmtsSound(cx: Ctx, ss: seq<Stmt>)
    requires AnalyzeStmts(cx, ss).Some?
    ensures var ts := AnalyzeStmts(cx, ss).value.0;
      SoundIn(GenStmts(ts), GenerableAll(ts), Within(cx.scopes, Loop), cx.scopes == [])
    decreases ss, 0
  {
    hide SoundIn, AnalyzeStmt, GenStmt, Within, Generable;
    var inLoop := Within(cx.scopes, Loop);
    if ss == [] {
      SoundNone();
      SoundInside([], inLoop, cx.scopes == []);
    } else {
      var (t, cx1) := AnalyzeStmt(cx, ss[0]).value;
      var ts := AnalyzeStmts(cx1, ss[1..]).value.0;
      StmtSound(cx, ss[0]);
      StmtGrows(cx, ss[0]);
      LoopDepthGrown(cx, cx1);
      StmtsSound(cx1, ss[1..]);
      StmtsShape([t] + ts);
      assert ([t] + ts)[1..] == ts;
      GenerableCons(t, ts);
      SoundAnywhere(GenStmt(t), Generable(t), inLoop, cx.scopes == [] && ss[0].VarDef?, cx.scopes == []);
      SoundInAppend(GenStmt(t), GenStmts(ts), Generable(t), GenerableAll(ts), inLoop, cx.scopes == []);
    }
  }

  lemma GenerableCons(t: TStmt, ts: seq<TStmt>)
    ensures GenerableAll([t] + ts) <==> Generable(t) && GenerableAll(ts)
  {
    hide Generable;
    var all := [t] + ts;
    assert all[0] == t && forall i :: 0 <= i < |ts| ==> all[i + 1] == ts[i];
    if Generable(t) && GenerableAll(ts) {
      assert forall i :: 0 <= i < |all| ==> all[i] == if i == 0 then t else ts[i - 1];
    }
  }

  lemma SoundAnywhere(cs: seq<Cmd>, ok: bool, inLoop: bool, top: bool, outer: bool)
    requires SoundIn(cs, ok, inLoop, top) && (top ==> outer)
    ensures SoundIn(cs, ok, inLoop, outer)
  {
  }

  lemma {:induction false} InitSound(cx: Ctx, init: Option<Expr>, t: Ty, ti: TExpr, c: Cmd, inLoop: bool)
    requires AnalyzeInit(cx, init, t) == Some(Some(ti)) && Exists(c) && !c.Jump?
    ensures SoundIn(GenExpr(ti) + [c], true, inLoop, IsDef(c))
  {
    hide Sound, SoundIn, GenExpr;
    ToSound(cx, init.value, t, false, ti);
    SoundInside(GenExpr(ti), inLoop, IsDef(c));
    DefCmdSound(c, inLoop);
    SoundInAppend(GenExpr(ti), [c], true, true, inLoop, IsDef(c));
  }

  lemma DefCmdSound(c: Cmd, inLoop: bool)
    requires Exists(c) && !c.Jump?
    ensures SoundIn([c], true, inLoop, IsDef(c))
  {
  }

  lemma {:induction false} DefSound(cx: Ctx, s: Stmt)
    requires s.VarDef? && AnalyzeStmt(cx, s).Some?
    ensures var t := AnalyzeStmt(cx, s).value.0;
      SoundIn(GenStmt(t), Generable(t), Within(cx.scopes, Loop), cx.scopes == [] && s.VarDef?)
  {
    hide SoundIn, AnalyzeInit, AddLocal, Within, Sound, GenExpr;
    var t, inLoop := AnalyzeStmt(cx, s).value.0, Within(cx.scopes, Loop);
    StmtShape(t);
    var c := if t.TLocalDef? then (if t.init.None? then CreateLocal(t.t) else InitLocal(t.t))
      else (if t.init.None? then CreateGlobal(t.t, Sym(t.name)) else InitGlobal(t.t, Sym(t.name)));
    if t.init.None? {
      DefCmdSound(c, inLoop);
    } else {
      var cx1 :=
        if cx.scopes == [] then cx.(globals := cx.globals[s.name := GVar(s.ty)])
        else AddLocal(cx, s.ty, s.name).value;
      InitSound(cx1, s.init, s.ty, t.init.value, c, inLoop);
    }
  }

  lemma LeaveSound(cx: Ctx, s: Stmt)
    requires (s.Break? || s.Continue?) && AnalyzeStmt(cx, s).Some?
    ensures var t := AnalyzeStmt(cx, s).value.0;
      SoundIn(GenStmt(t), Generable(t), Within(cx.scopes, Loop), cx.scopes == [] && s.VarDef?)
  {
    hide SoundIn, Sound, Destroy, FlowUpTo;
    var t := AnalyzeStmt(cx, s).value.0;
    StmtShape(t);
    DestroySound(t.flow);
    SoundInside(Destroy(t.flow), true, false);
    var target := if s.Break? then ToBreak else ToContinue;
    JumpSound(target);
    SoundInAppend(Destroy(t.flow), [Jump(Direct, target)], true, true, true, false);
  }

  lemma ReturnSound(cx: Ctx, s: Stmt)
    requires s.Return? && AnalyzeStmt(cx, s).Some?
    ensures var t := AnalyzeStmt(cx, s).value.0;
      SoundIn(GenStmt(t), Generable(t), Within(cx.scopes, Loop), cx.scopes == [] && s.VarDef?)
  {
    hide SoundIn, Sound, Destroy, FlowUpTo, AnalyzeTo, GenExpr, GenStmt, Within;
    var t, inLoop := AnalyzeStmt(cx, s).value.0, Within(cx.scopes, Loop);
    var flow := DefTypes(FlowUpTo(cx.scopes, FuncScope));
    ReturnShape(t.value, flow);
    DestroySound(flow);
    SoundOne(Ret);
    SoundAppend(Destroy(flow), [Ret]);
    if t.value.Some? {
      ToSound(cx, s.value.value, cx.ret.value.value, false, t.value.value);
      SoundAppend(GenExpr(t.value.value), Destroy(flow) + [Ret]);
    }
    SoundInside(GenStmt(t), inLoop, false);
  }

  lemma {:induction false} StmtSound(cx: Ctx, s: Stmt)
    requires AnalyzeStmt(cx, s).Some?
    ensures var t := AnalyzeStmt(cx, s).value.0;
      SoundIn(GenStmt(t), Generable(t), Within(cx.scopes, Loop), cx.scopes == [] && s.VarDef?)
    decreases s, 2
  {
    hide SoundIn, AnalyzeStmt, GenStmt, Within, Sound;
    match s
    case ExprStmt(e) => ExprStmtSound(cx, s);
    case VarDef(_, _, _) => DefSound(cx, s);
    case If(_, _) => IfSound(cx, s);
    case While(_, _) => WhileSound(cx, s);
    case Break => LeaveSound(cx, s);
    case Continue => LeaveSound(cx, s);
    case Return(_) => ReturnSound(cx, s);
  }

  lemma ExprStmtSound(cx: Ctx, s: Stmt)
    requires s.ExprStmt? && AnalyzeStmt(cx, s).Some?
    ensures var t := AnalyzeStmt(cx, s).value.0;
      SoundIn(GenStmt(t), Generable(t), Within(cx.scopes, Loop), cx.scopes == [] && s.VarDef?)
  {
    hide SoundIn, Sound, AnalyzeExpr, GenExpr, Within;
    var te := AnalyzeExpr(cx, s.e, false).value;
    StmtShape(TExprStmt(te));
    UnloadShape(te.ty);
    ExprSound(cx, s.e, false, te, None);
    var inLoop := Within(cx.scopes, Loop);
    if te.ty.Prim? {
      SoundOne(Unload(te.ty.t));
      SoundInside([Unload(te.ty.t)], inLoop, false);
    } else if te.ty.Void? {
      SoundNone();
      SoundInside([], inLoop, false);
    } else {
      NoCmdSound(inLoop);
    }
    SoundInside(GenExpr(te), inLoop, false);
    SoundInAppend(GenExpr(te), GenUnload(te.ty), true, !te.ty.FuncT?, inLoop, false);
  }

  lemma NoCmdSound(inLoop: bool)
    ensures SoundIn([NoCmd], false, inLoop, false)
  {
    assert !Exists([NoCmd][0]);
  }

  // A body with the destruction of its definitions.
  lemma {:induction false} BlockSound(cx: Ctx, kind: ScopeKind, ss: seq<Stmt>)
    requires AnalyzeBlock(cx, kind, ss).Some?
    ensures var a := AnalyzeBlock(cx, kind, ss).value;
      SoundIn(GenStmts(a.0) + Destroy(a.1), GenerableAll(a.0), kind == Loop || Within(cx.scopes, Loop), false)
    decreases ss, 1
  {
    hide SoundIn, AnalyzeStmts, GenStmts, Destroy, Within, Sound;
    var (ts, defs) := AnalyzeBlock(cx, kind, ss).value;
    var inLoop := kind == Loop || Within(cx.scopes, Loop);
    LoopDepthPush(cx, kind);
    StmtsSound(Push(cx, kind), ss);
    DestroySound(defs);
    SoundInside(Destroy(defs), inLoop, false);
    SoundInAppend(GenStmts(ts), Destroy(defs), GenerableAll(ts), true, inLoop, false);
  }

  lemma {:induction false} FillExists(cs: seq<Cmd>, toStart: int, toEnd: int)
    requires NoDefs(cs)
    ensures SoundIn(Fill(cs, toStart, toEnd), AllExist(cs), false, false)
    decreases |cs|
  {
    hide *;
    FillShape(cs, toStart, toEnd);
    if cs == [] {
      SoundNone();
      SoundInside([], false, false);
    } else {
      var c, rest, k := cs[0], cs[1..], CmdSize(cs[0]);
      HeadExists(cs);
      FillCmdExists(c, toStart, toEnd);
      OneFilled(FillCmd(c, toStart, toEnd), Exists(c));
      FillExists(rest, toStart - k, toEnd - k);
      SoundInAppend([FillCmd(c, toStart, toEnd)], Fill(rest, toStart - k, toEnd - k), Exists(c), AllExist(rest),
        false, false);
    }
  }

  lemma OneFilled(c: Cmd, ok: bool)
    requires (Exists(c) <==> ok) && !IsDef(c) && (c.Jump? ==> c.target.Off?)
    ensures SoundIn([c], ok, false, false)
  {
    hide Exists;
    assert [c][0] == c;
  }

  lemma HeadExists(cs: seq<Cmd>)
    requires NoDefs(cs) && cs != []
    ensures (AllExist(cs) <==> Exists(cs[0]) && AllExist(cs[1..])) && !IsDef(cs[0]) && NoDefs(cs[1..])
  {
    hide Exists, IsDef, NoJumps;
    assert [cs[0]] + cs[1..] == cs && [cs[0]][0] == cs[0];
    SoundAppend([cs[0]], cs[1..]);
    NoDefsAppend([cs[0]], cs[1..]);
  }

  lemma FillShape(cs: seq<Cmd>, toStart: int, toEnd: int)
    ensures cs == [] ==> Fill(cs, toStart, toEnd) == [] && AllExist([])
    ensures cs != [] ==>
      var k := CmdSize(cs[0]);
      Fill(cs, toStart, toEnd) == [FillCmd(cs[0], toStart, toEnd)] + Fill(cs[1..], toStart - k, toEnd - k)
  {
    hide CmdSize, FillCmd;
  }

  lemma FillCmdExists(c: Cmd, toStart: int, toEnd: int)
    requires !IsDef(c)
    ensures (Exists(FillCmd(c, toStart, toEnd)) <==> Exists(c)) && !IsDef(FillCmd(c, toStart, toEnd))
    ensures var r := FillCmd(c, toStart, toEnd); r.Jump? ==> r.target.Off?
  {
  }

  lemma {:induction false} WhileSound(cx: Ctx, s: Stmt)
    requires s.While? && AnalyzeStmt(cx, s).Some?
    ensures var t := AnalyzeStmt(cx, s).value.0;
      SoundIn(GenStmt(t), Generable(t), Within(cx.scopes, Loop), cx.scopes == [] && s.VarDef?)
    decreases s, 1
  {
    hide SoundIn, Sound, AnalyzeTo, GenExpr, Within, AnalyzeBlock, GenStmts, Destroy, GenStmt, GenerableAll,
      LoopExit, LoopBody, LoopBack;
    var t, inLoop := AnalyzeStmt(cx, s).value.0, Within(cx.scopes, Loop);
    var C, B, ok := GenExpr(t.cond), GenStmts(t.body) + Destroy(t.defs), GenerableAll(t.body);
    WhileShape(t);
    ToSound(cx, s.cond, Bool, false, t.cond);
    BlockSound(cx, Loop, s.body);
    LoopSound(C, B, ok, inLoop);
    SoundInside(C, inLoop, false);
    SoundInAppend(LoopBody(C, B), LoopBack(C, B), ok, true, inLoop, false);
    SoundInAppend(LoopExit(B), LoopBody(C, B) + LoopBack(C, B), true, ok, inLoop, false);
    SoundInAppend(C, LoopExit(B) + (LoopBody(C, B) + LoopBack(C, B)), true, ok, inLoop, false);
  }

  lemma LoopSound(C: seq<Cmd>, B: seq<Cmd>, ok: bool, inLoop: bool)
    requires SoundIn(B, ok, true, false)
    ensures SoundIn(LoopExit(B), true, inLoop, false) && SoundIn(LoopBody(C, B), ok, inLoop, false)
    ensures SoundIn(LoopBack(C, B), true, inLoop, false)
  {
    hide Sound, Size, Fill, AllExist, NoDefs, NoJumps;
    SoundOne(LoopExit(B)[0]);
    SoundOne(LoopBack(C, B)[0]);
    SoundInside(LoopExit(B), inLoop, false);
    SoundInside(LoopBack(C, B), inLoop, false);
    FillExists(B, -(Size(C) + 5), Size(B) + 5);
  }

  lemma {:induction false} IfSound(cx: Ctx, s: Stmt)
    requires s.If? && AnalyzeStmt(cx, s).Some?
    ensures var t := AnalyzeStmt(cx, s).value.0;
      SoundIn(GenStmt(t), Generable(t), Within(cx.scopes, Loop), cx.scopes == [] && s.VarDef?)
    decreases s, 1
  {
    hide SoundIn, GenStmt, AnalyzeBranches, AnalyzeBlock, GenBranches, Within, GenerableAll;
    var t := AnalyzeStmt(cx, s).value.0;
    IfShape(t);
    BranchesSound(cx, s, t, 0);
  }

  // The branches from the i-th on, and the else body, have code.
  predicate GenerableFrom(t: TStmt, i: nat)
    requires t.TIf?
  {
    (forall k :: i <= k < |t.branches| ==> GenerableAll(t.branches[k].body)) &&
    (t.els.TElse? ==> GenerableAll(t.els.body))
  }

  lemma BranchAnalyzed(cx: Ctx, bs: seq<Branch>, i: nat)
    requires AnalyzeBranches(cx, bs).Some? && i < |bs|
    ensures var b := AnalyzeBranches(cx, bs).value[i];
      AnalyzeTo(cx, bs[i].cond, Bool, false) == Some(b.cond) &&
        AnalyzeBlock(cx, Common, bs[i].body) == Some((b.body, b.defs))
    decreases i
  {
    hide AnalyzeTo, AnalyzeBlock;
    if i > 0 {
      BranchAnalyzed(cx, bs[1..], i - 1);
    }
  }

  lemma {:induction false} BranchesSound(cx: Ctx, s: Stmt, t: TStmt, i: nat)
    requires s.If? && AnalyzeStmt(cx, s).Some? && t == AnalyzeStmt(cx, s).value.0 && i <= |s.branches| == |t.branches|
    ensures SoundIn(GenBranches(t, i), GenerableFrom(t, i), Within(cx.scopes, Loop), false)
    decreases s, 0, |s.branches| - i
  {
    hide SoundIn, Sound, GenBranches, AnalyzeBlock, AnalyzeBranches, Within, BranchHead, GenStmts, Destroy,
      GenerableAll;
    var inLoop := Within(cx.scopes, Loop);
    ElseShape(t);
    if i == |s.branches| {
      if s.els.Else? {
        BlockSound(cx, Common, s.els.body);
      } else {
        SoundNone();
        SoundInside([], inLoop, false);
      }
    } else {
      BranchesShape(t, i);
      BranchesSound(cx, s, t, i + 1);
      BranchAnalyzed(cx, s.branches, i);
      var last := i + 1 == |t.branches| && t.els.TNoElse?;
      var b, rest := t.branches[i], GenBranches(t, i + 1);
      BlockSound(cx, Common, s.branches[i].body);
      ToSound(cx, s.branches[i].cond, Bool, false, b.cond);
      HeadSound(b, last, rest, GenerableAll(b.body), inLoop);
      SoundInAppend(BranchHead(b, last, rest), rest, GenerableAll(b.body), GenerableFrom(t, i + 1), inLoop, false);
    }
  }

  lemma HeadSound(b: TBranch, last: bool, rest: seq<Cmd>, ok: bool, inLoop: bool)
    requires Sound(GenExpr(b.cond)) && SoundIn(GenStmts(b.body) + Destroy(b.defs), ok, inLoop, false)
    ensures SoundIn(BranchHead(b, last, rest), ok, inLoop, false)
  {
    hide Sound, SoundIn, GenExpr, GenStmts, Destroy, Size, BranchHead, BranchExit;
    var B, X := GenStmts(b.body) + Destroy(b.defs), BranchExit(last, rest);
    var J := Jump(IfNot, Off(Size(B + X)));
    HeadIs(b, last, rest);
    ExitIs(last, rest);
    if last {
      SoundNone();
    } else {
      SoundOne(X[0]);
    }
    SoundOne(J);
    SoundInside(X, inLoop, false);
    SoundInside([J], inLoop, false);
    SoundInside(GenExpr(b.cond), inLoop, false);
    SoundInAppend(B, X, ok, true, inLoop, false);
    SoundInAppend([J], B + X, true, ok, inLoop, false);
    SoundInAppend(GenExpr(b.cond), [J] + (B + X), true, ok, inLoop, false);
  }

  // ----- functions -----

  lemma {:induction false} ParamsSound(ts: seq<Ty>)
    ensures Sound(GenParams(ts))
  {
    hide Sound;
    if ts == [] {
      SoundNone();
    } else {
      ParamsSound(ts[1..]);
      SoundOne(InitLocal(ts[0]));
      SoundAppend([InitLocal(ts[0])], GenParams(ts[1..]));
    }
  }

  lemma {:induction false} ArgsOutside(cx: Ctx, args: seq<Arg>)
    requires cx.scopes != [] && AddArgs(cx, args).Some?
    ensures Grown(cx, AddArgs(cx, args).value)
    decreases args
  {
    hide FlowUpTo, FindDef;
    if args != [] {
      var cx1 := AddLocal(cx, args[0].ty, args[0].name).value;
      ArgsOutside(cx1, args[1..]);
    }
  }

  // An accepted function's code exists exactly if its body has code, and has no open jumps in any case.
  lemma FuncSound(globals: map<string, GDef>, f: Func, d: TFuncDef)
    requires AnalyzeFunc(globals, f) == Some(d)
    ensures SoundIn(GenFunc(d), GenerableAll(d.body), false, false) && NoJumps(GenStmts(d.body))
  {
    var cx0 := Ctx(globals, [Scope(FuncScope, [])], Some(f.ret));
    assert !Within(cx0.scopes, Loop);
    hide AnalyzeStmts, AddArgs, AllExist, NoJumps, NoDefs, GenStmts, GenParams, Destroy, TopDefs, HasReturn, Within,
      GenerableAll;
    var cx, ok := AddArgs(cx0, f.args).value, GenerableAll(d.body);
    ArgsOutside(cx0, f.args);
    LoopDepthGrown(cx0, cx);
    StmtsSound(cx, f.body);
    assert NoJumps(GenStmts(d.body));
    hide Sound, SoundIn;
    ParamsSound(d.args);
    DestroySound(d.defs);
    SoundOne(Ret);
    SoundNone();
    SoundAppend(Destroy(d.defs), [Ret]);
    FuncShape(d);
    SoundInside(FuncTail(d), false, false);
    SoundInside(GenParams(d.args), false, false);
    SoundInAppend(GenStmts(d.body), FuncTail(d), ok, true, false, false);
    SoundInAppend(GenParams(d.args), GenStmts(d.body) + FuncTail(d), true, ok, false, false);
  }
}
