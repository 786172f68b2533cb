/** The globals that a module's table defines are the variables its top-level statements declare. */
module Definitions {
  import opened Bytes
  import opened Language
  import opened Analysis
  import opened Commands
  import opened Codegen
  import opened Relation
  import opened Scoping
  import opened Containers
  import opened Emission
  import opened Generator
  import opened Acceptance

  function DefOf(c: Cmd): seq<IdSize> {
    match c
    case CreateGlobal(t, Sym(x)) => [IdSize(x, SlotSize(t))]
    case InitGlobal(t, Sym(x)) => [IdSize(x, SlotSize(t))]
    case _ => []
  }

  function DefsOf(cs: seq<Cmd>): seq<IdSize> { if cs == [] then [] else DefOf(cs[0]) + DefsOf(cs[1..]) }

  lemma {:induction false} NotedDefs(n: Notes, cs: seq<Cmd>, pos: nat)
    ensures Note(n, cs, pos).defs == n.defs + DefsOf(cs)
    decreases |cs|
  {
    hide CmdSize, Encode;
    if cs != [] {
      NotedDefs(NoteCmd(n, cs[0], pos), cs[1..], pos + CmdSize(cs[0]));
      assert NoteCmd(n, cs[0], pos).defs == n.defs + DefOf(cs[0]);
    }
  }

  lemma {:induction false} DefsAppend(a: seq<Cmd>, b: seq<Cmd>)
    ensures DefsOf(a + b) == DefsOf(a) + DefsOf(b)
    decreases |a|
  {
    hide DefOf;
    if a == [] {
      assert a + b == b;
    } else {
      assert (a + b)[1..] == a[1..] + b;
      DefsAppend(a[1..], b);
    }
  }

  lemma {:induction false} NoDefsNone(cs: seq<Cmd>)
    requires NoDefs(cs)
    ensures DefsOf(cs) == []
  {
    if cs != [] {
      assert !IsDef(cs[0]);
      assert forall i :: 0 <= i < |cs[1..]| ==> cs[1..][i] == cs[i + 1];
      NoDefsNone(cs[1..]);
    }
  }

  function DeclaredBy(s: Stmt): seq<IdSize> { if s.VarDef? then [IdSize(s.name, SlotSize(s.ty))] else [] }

  // The variables that stand directly among the statements.
  function Declared(ss: seq<Stmt>): seq<IdSize> { if ss == [] then [] else DeclaredBy(ss[0]) + Declared(ss[1..]) }

  lemma StmtDeclares(cx: Ctx, s: Stmt)
    requires cx.scopes == [] && AnalyzeStmt(cx, s).Some?
    ensures DefsOf(GenStmt(AnalyzeStmt(cx, s).value.0)) == DeclaredBy(s)
    ensures s.VarDef? ==> var g := AnalyzeStmt(cx, s).value.1.globals; s.name in g && g[s.name] == GVar(s.ty)
  {
    var t := AnalyzeStmt(cx, s).value.0;
    if s.VarDef? {
      DefDeclares(cx, s);
    } else {
      hide AnalyzeStmt, GenStmt, Within;
      StmtSound(cx, s);
      NoDefsNone(GenStmt(t));
    }
  }

  lemma DefDeclares(cx: Ctx, s: Stmt)
    requires cx.scopes == [] && s.VarDef? && AnalyzeStmt(cx, s).Some?
    ensures DefsOf(GenStmt(AnalyzeStmt(cx, s).value.0)) == DeclaredBy(s)
  {
    hide AnalyzeInit, GenExpr, Sound;
    var t := AnalyzeStmt(cx, s).value.0;
    StmtShape(t);
    if t.init.None? {
      OneDef(CreateGlobal(t.t, Sym(t.name)));
    } else {
      var cx1 := cx.(globals := cx.globals[s.name := GVar(s.ty)]);
      InitNoDefs(cx1, s.init, s.ty, t.init.value);
      OneDef(InitGlobal(t.t, Sym(t.name)));
      DefsAppend(GenExpr(t.init.value), [InitGlobal(t.t, Sym(t.name))]);
    }
  }

  lemma OneDef(c: Cmd)
    ensures DefsOf([c]) == DefOf(c)
  {
    assert [c][1..] == [];
  }

  lemma InitNoDefs(cx: Ctx, init: Option<Expr>, t: Ty, ti: TExpr)
    requires AnalyzeInit(cx, init, t) == Some(Some(ti))
    ensures DefsOf(GenExpr(ti)) == []
  {
    hide GenExpr, AnalyzeTo;
    ToSound(cx, init.value, t, false, ti);
    NoDefsNone(GenExpr(ti));
  }

  lemma {:induction false} StmtsDeclare(cx: Ctx, ss: seq<Stmt>)
    requires cx.scopes == [] && AnalyzeStmts(cx, ss).Some?
    ensures DefsOf(GenStmts(AnalyzeStmts(cx, ss).value.0)) == Declared(ss)
    decreases |ss|
  {
    hide AnalyzeStmt, GenStmt, DefsOf, DeclaredBy;
    if ss == [] {
      assert DefsOf([]) == [] by { NothingDefined(); }
    } else {
      var (t, cx1) := AnalyzeStmt(cx, ss[0]).value;
      var ts := AnalyzeStmts(cx1, ss[1..]).value.0;
      StmtDeclares(cx, ss[0]);
      StmtGrows(cx, ss[0]);
      StmtsDeclare(cx1, ss[1..]);
      StmtsShape([t] + ts);
      assert ([t] + ts)[1..] == ts;
      DefsAppend(GenStmt(t), GenStmts(ts));
    }
  }

  lemma NothingDefined()
    ensures DefsOf([]) == []
  {
  }

  // And their types are what the declarations after them see.
  lemma {:induction false} DeclaredTyped(cx: Ctx, ss: seq<Stmt>, i: nat)
    requires cx.scopes == [] && AnalyzeStmts(cx, ss).Some? && i < |ss| && ss[i].VarDef?
    ensures var g := AnalyzeStmts(cx, ss).value.1.globals; ss[i].name in g && g[ss[i].name] == GVar(ss[i].ty)
    decreases i
  {
    hide AnalyzeStmt;
    var cx1 := AnalyzeStmt(cx, ss[0]).value.1;
    StmtGrows(cx, ss[0]);
    StmtsGrow(cx1, ss[1..]);
    if i == 0 {
      StmtDeclares(cx, ss[0]);
    } else {
      DeclaredTyped(cx1, ss[1..], i - 1);
    }
  }

  lemma {:induction false} DeclaredAt(ss: seq<Stmt>, d: IdSize)
    ensures d in Declared(ss) <==>
      exists i :: 0 <= i < |ss| && ss[i].VarDef? && d == IdSize(ss[i].name, SlotSize(ss[i].ty))
  {
    if ss != [] {
      DeclaredAt(ss[1..], d);
      if i :| 0 <= i < |ss| && ss[i].VarDef? && d == IdSize(ss[i].name, SlotSize(ss[i].ty)) {
        assert i > 0 ==> ss[1..][i - 1] == ss[i];
      }
      if i :| 0 <= i < |ss[1..]| && ss[1..][i].VarDef? && d == IdSize(ss[1..][i].name, SlotSize(ss[1..][i].ty)) {
        assert ss[i + 1] == ss[1..][i];
      }
    }
  }
}
