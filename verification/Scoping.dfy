/** How analysis moves the scope stack: statements only add definitions to the innermost scope, and the
    definitions a jump or a block's end must destroy are exactly the tail of the live ones. */
module Scoping {
  import opened Bytes
  import opened Language
  import opened Semantics
  import opened Analysis
  import opened Commands
  import opened Codegen
  import opened Machine
  import opened Relation

  // The statement has code: it is not, and does not contain, a function's name as a statement.
  predicate Generable(s: TStmt) {
    match s
    case TExprStmt(e) => !e.ty.FuncT?
    case TIf(bs, els) =>
      (forall i :: 0 <= i < |bs| ==> GenerableAll(bs[i].body)) &&
      (els.TElse? ==> GenerableAll(els.body))
    case TWhile(_, b, _) => GenerableAll(b)
    case _ => true
  }

  predicate GenerableAll(ss: seq<TStmt>) { forall i :: 0 <= i < |ss| ==> Generable(ss[i]) }

  // The innermost scope has gained definitions, and nothing else has changed.
  predicate Grown(a: Ctx, b: Ctx) {
    b.ret == a.ret && |b.scopes| == |a.scopes| &&
    (a.scopes == [] ==> Extends(a.globals, b.globals)) &&
    (a.scopes != [] ==>
      b.globals == a.globals &&
      var k := |a.scopes| - 1;
      b.scopes[..k] == a.scopes[..k] && b.scopes[k].kind == a.scopes[k].kind && a.scopes[k].defs <= b.scopes[k].defs)
  }

  // Where the walk of GetLocalVarDefsUpToScope ends.
  function WalkStart(scopes: seq<Scope>, kind: ScopeKind): (n: nat)
    ensures n <= |scopes|
  {
    if scopes == [] then 0
    else if scopes[|scopes| - 1].kind == kind then |scopes| - 1
    else WalkStart(scopes[..|scopes| - 1], kind)
  }

  // The definitions in the order of the walk, had every scope's been put behind the ones before.
  function FlowInnerFirst(scopes: seq<Scope>, kind: ScopeKind): seq<LocalDef> {
    if scopes == [] then []
    else
      var s := scopes[|scopes| - 1];
      s.defs + (if s.kind == kind then [] else FlowInnerFirst(scopes[..|scopes| - 1], kind))
  }

  lemma WalkStep(scopes: seq<Scope>, kind: ScopeKind)
    ensures scopes == [] ==> FlowInnerFirst(scopes, kind) == [] && FlowUpTo(scopes, kind) == []
    ensures scopes != [] ==>
      var k := |scopes| - 1;
      var d, ends := scopes[k].defs, scopes[k].kind == kind;
      WalkStart(scopes, kind) == (if ends then k else WalkStart(scopes[..k], kind)) &&
      FlowInnerFirst(scopes, kind) == d + (if ends then [] else FlowInnerFirst(scopes[..k], kind)) &&
      FlowUpTo(scopes, kind) == (if ends then [] else FlowUpTo(scopes[..k], kind)) + d
  {
  }

  // Where scopes are put does not matter if at most one of those walked has definitions.
  lemma {:induction false} OrderFree(scopes: seq<Scope>, kind: ScopeKind)
    requires forall i, j :: WalkStart(scopes, kind) <= i < j < |scopes| ==> scopes[i].defs == [] || scopes[j].defs == []
    ensures FlowInnerFirst(scopes, kind) == FlowUpTo(scopes, kind)
  {
    hide WalkStart, FlowUpTo, FlowInnerFirst;
    WalkStep(scopes, kind);
    if scopes != [] && scopes[|scopes| - 1].kind != kind {
      var k := |scopes| - 1;
      var before := scopes[..k];
      assert forall i :: 0 <= i < k ==> before[i] == scopes[i];
      OrderFree(before, kind);
      if scopes[k].defs != [] {
        NothingWalked(before, kind);
      }
    }
  }

  lemma {:induction false} NothingWalked(scopes: seq<Scope>, kind: ScopeKind)
    requires forall i :: WalkStart(scopes, kind) <= i < |scopes| ==> scopes[i].defs == []
    ensures FlowUpTo(scopes, kind) == []
  {
    if scopes != [] && scopes[|scopes| - 1].kind != kind {
      NothingWalked(scopes[..|scopes| - 1], kind);
    }
  }

  lemma StmtGrows(cx: Ctx, s: Stmt)
    requires AnalyzeStmt(cx, s).Some?
    ensures Grown(cx, AnalyzeStmt(cx, s).value.1)
  {
    hide AnalyzeExpr, AnalyzeBlock, AnalyzeBranches, AnalyzeTo, FlowUpTo, Within, AnalyzeInit, AnalyzeReturn, FindDef;
  }

  lemma {:induction false} StmtsGrow(cx: Ctx, ss: seq<Stmt>)
    requires AnalyzeStmts(cx, ss).Some?
    ensures Grown(cx, AnalyzeStmts(cx, ss).value.1)
    decreases |ss|
  {
    if ss != [] {
      hide AnalyzeStmt;
      StmtGrows(cx, ss[0]);
      var cx1 := AnalyzeStmt(cx, ss[0]).value.1;
      StmtsGrow(cx1, ss[1..]);
    }
  }

  // ----- loops -----

  // How many live definitions stand outside the innermost loop.
  function LoopDepth(scopes: seq<Scope>): nat {
    if scopes == [] then 0
    else if scopes[|scopes| - 1].kind == Loop then |Flat(scopes[..|scopes| - 1])|
    else LoopDepth(scopes[..|scopes| - 1])
  }

  lemma {:induction false} LoopFlow(scopes: seq<Scope>)
    requires Within(scopes, Loop)
    ensures LoopDepth(scopes) <= |Flat(scopes)|
    ensures FlowUpTo(scopes, Loop) == Flat(scopes)[LoopDepth(scopes)..]
    decreases |scopes|
  {
    var k := |scopes| - 1;
    var outer, own := Flat(scopes[..k]), scopes[k].defs;
    if scopes[k].kind == Loop {
      assert (outer + own)[|outer|..] == own == [] + own;
    } else {
      LoopFlow(scopes[..k]);
      var d := LoopDepth(scopes[..k]);
      assert (outer + own)[d..] == outer[d..] + own;
    }
  }

  lemma LoopDepthGrown(a: Ctx, b: Ctx)
    requires Grown(a, b)
    ensures LoopDepth(b.scopes) == LoopDepth(a.scopes)
    ensures Within(b.scopes, Loop) == Within(a.scopes, Loop)
  {
  }

  lemma LoopDepthPush(cx: Ctx, kind: ScopeKind)
    ensures Push(cx, kind).scopes[..|cx.scopes|] == cx.scopes
    ensures Flat(Push(cx, kind).scopes) == Flat(cx.scopes)
    ensures LoopDepth(Push(cx, kind).scopes) == if kind == Loop then |Flat(cx.scopes)| else LoopDepth(cx.scopes)
    ensures Within(Push(cx, kind).scopes, Loop) == (kind == Loop || Within(cx.scopes, Loop))
  {
    var p := Push(cx, kind).scopes;
    assert p[..|p| - 1] == cx.scopes;
  }

  // A finished block: what it defined is what stands beyond the outer scopes.
  lemma BlockDefs(cx: Ctx, kind: ScopeKind, ss: seq<Stmt>, cx1: Ctx)
    requires AnalyzeStmts(Push(cx, kind), ss).Some? && AnalyzeStmts(Push(cx, kind), ss).value.1 == cx1
    ensures cx1.scopes != [] && cx1.ret == cx.ret && cx1.globals == cx.globals
    ensures |Flat(cx.scopes)| <= |Flat(cx1.scopes)|
    ensures Flat(cx1.scopes)[..|Flat(cx.scopes)|] == Flat(cx.scopes)
    ensures TopDefs(cx1) == DefTypes(Flat(cx1.scopes)[|Flat(cx.scopes)|..])
  {
    hide AnalyzeStmts;
    StmtsGrow(Push(cx, kind), ss);
    LoopDepthPush(cx, kind);
    var k := |cx.scopes|;
    assert cx1.scopes[..k] == cx.scopes;
  }

  // ----- the environment -----

  predicate Whole(env: seq<Var>) { forall i :: 0 <= i < |env| ==> env[i].raw.Some? }

  // The first bindings of b are those of a, with their types.
  predicate Kept(a: seq<Var>, b: seq<Var>) {
    |a| <= |b| && forall i :: 0 <= i < |a| ==> b[i].name == a[i].name && b[i].ty == a[i].ty
  }

  lemma KeptMatch(scopes: seq<Scope>, env: seq<Var>, env1: seq<Var>)
    requires EnvMatch(scopes, env) && Kept(env, env1)
    ensures EnvMatch(scopes, env1[..|env|])
  {
  }

  lemma MatchPrefix(scopes: seq<Scope>, env: seq<Var>, scopes1: seq<Scope>, env1: seq<Var>)
    requires EnvMatch(scopes, env) && EnvMatch(scopes1, env1)
    requires |Flat(scopes)| <= |Flat(scopes1)| && Flat(scopes1)[..|Flat(scopes)|] == Flat(scopes)
    ensures Kept(env, env1)
  {
    forall i | 0 <= i < |env|
      ensures env1[i].name == env[i].name && env1[i].ty == env[i].ty
    {
      assert Flat(scopes1)[i] == Flat(scopes1)[..|Flat(scopes)|][i];
    }
  }

  // A new local: the definition records the types of the bindings before it.
  lemma DefinedLocal(cx: Ctx, t: Ty, x: string, cx1: Ctx, env: seq<Var>, v: Var)
    requires cx.scopes != [] && AddLocal(cx, t, x) == Some(cx1)
    requires EnvMatch(cx.scopes, env) && Nested(cx.scopes)
    requires v.name == x && v.ty == t
    ensures EnvMatch(cx1.scopes, env + [v]) && Nested(cx1.scopes)
    ensures Grown(cx, cx1)
    ensures Flat(cx1.scopes) == Flat(cx.scopes) + [LocalDef(x, t, DefTypes(Flat(cx.scopes)))]
  {
    FlowAll(cx.scopes);
    var k := |cx.scopes| - 1;
    var d := LocalDef(x, t, DefTypes(Flat(cx.scopes)));
    assert cx1.scopes[..k] == cx.scopes[..k];
    assert Flat(cx1.scopes) == Flat(cx.scopes[..k]) + (cx.scopes[k].defs + [d]);
    var fl := Flat(cx.scopes) + [d];
    assert Flat(cx1.scopes) == fl;
    assert forall i :: 0 <= i < |fl| ==> fl[..i] == Flat(cx.scopes)[..i];
  }
}
