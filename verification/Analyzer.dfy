/** SimpleSemanticAnalyzer: the stack of scopes and the stack of assignee contexts it changes as it goes,
    and the visitors, each proved against what Analysis says. A semantic error ends a visitor; the scopes
    and contexts opened since are closed again, as their destructors do. */
module Analyzer {
  import opened Language
  import opened Analysis

  // A scope with its return flag.
  datatype LiveScope = LiveScope(kind: ScopeKind, defs: seq<LocalDef>, hasReturn: bool)

  function Plains(ss: seq<LiveScope>): (r: seq<Scope>)
    ensures |r| == |ss|
  {
    seq(|ss|, i requires 0 <= i < |ss| => Scope(ss[i].kind, ss[i].defs))
  }

  // What a visitor reports: its result, or an error when there is none.
  predicate Answers<T(==)>(r: Option<T>, ok: bool, value: T) { if ok then r == Some(value) else r == None }

  function Kinds(ss: seq<LiveScope>): (r: seq<ScopeKind>)
    ensures |r| == |ss|
  {
    seq(|ss|, i requires 0 <= i < |ss| => ss[i].kind)
  }

  // Only the kinds of the scopes decide what one is within.
  lemma {:induction false} SameKinds(a: seq<LiveScope>, b: seq<LiveScope>, kind: ScopeKind)
    requires Kinds(a) == Kinds(b)
    ensures Within(Plains(a), kind) == Within(Plains(b), kind)
    decreases |a|
  {
    if a != [] {
      var k := |a| - 1;
      assert Kinds(a)[k] == Kinds(b)[k];
      assert Kinds(a[..k]) == Kinds(a)[..k] && Kinds(b[..k]) == Kinds(b)[..k];
      SameKinds(a[..k], b[..k], kind);
      PlainsTake(a, k);
      PlainsTake(b, k);
    } else {
      assert |Kinds(b)| == 0;
    }
  }

  lemma WithinPush(ss: seq<LiveScope>, s: LiveScope, kind: ScopeKind)
    ensures Plains(ss + [s]) == Plains(ss) + [Scope(s.kind, s.defs)]
    ensures Within(Plains(ss + [s]), kind) <==> s.kind == kind || Within(Plains(ss), kind)
  {
    assert Plains(ss + [s]) == Plains(ss) + [Scope(s.kind, s.defs)];
    assert Plains(ss + [s])[..|ss|] == Plains(ss);
  }

  // Everything but the innermost scope is as it was.
  predicate Around(a: seq<LiveScope>, b: seq<LiveScope>) {
    Kinds(a) == Kinds(b) && (a != [] ==> a[..|a| - 1] == b[..|b| - 1])
  }

  predicate Flagged(ss: seq<LiveScope>) { ss != [] && ss[|ss| - 1].hasReturn }

  // Statements already analyzed, before what the rest comes to.
  function Prefixed(ts: seq<TStmt>, r: Option<(seq<TStmt>, Ctx)>): Option<(seq<TStmt>, Ctx)> {
    if r.None? then None else Some((ts + r.value.0, r.value.1))
  }

  function PrefixedBranches(ts: seq<TBranch>, r: Option<seq<TBranch>>): Option<seq<TBranch>> {
    if r.None? then None else Some(ts + r.value)
  }

  lemma PlainAt(ss: seq<LiveScope>, i: nat)
    requires i < |ss|
    ensures Plains(ss)[i] == Scope(ss[i].kind, ss[i].defs)
  {
  }

  lemma FlowNone(ss: seq<Scope>, kind: ScopeKind)
    ensures ss[..|ss|] == ss && FlowUpTo(ss, kind) == FlowUpTo(ss, kind) + []
    ensures FlowUpTo(ss[..0], kind) == [] && !Within(ss[..0], kind)
  {
    hide FlowUpTo, Within;
    assert ss[..|ss|] == ss;
    FlowEmpty(kind);
  }

  lemma FlowEmpty(kind: ScopeKind)
    ensures FlowUpTo([], kind) == [] && !Within([], kind)
  {
  }

  // One scope further in.
  lemma FlowStep(ss: seq<Scope>, i: nat, kind: ScopeKind, defs: seq<LocalDef>)
    requires i < |ss|
    ensures Within(ss[..i + 1], kind) <==> ss[i].kind == kind || Within(ss[..i], kind)
    ensures FlowUpTo(ss[..i + 1], kind) + defs ==
      (if ss[i].kind == kind then [] else FlowUpTo(ss[..i], kind)) + (ss[i].defs + defs)
  {
    var t := ss[..i + 1];
    assert t[..i] == ss[..i] && t[|t| - 1] == ss[i];
    var outer := if ss[i].kind == kind then [] else FlowUpTo(ss[..i], kind);
    assert FlowUpTo(t, kind) == outer + ss[i].defs;
    assert (outer + ss[i].defs) + defs == outer + (ss[i].defs + defs);
  }

  lemma PlainsTake(ss: seq<LiveScope>, k: nat)
    requires k <= |ss|
    ensures Plains(ss[..k]) == Plains(ss)[..k]
  {
  }

  class Analyzer {
    var globals: map<string, GDef>
    var scopes: seq<LiveScope>
    var assignees: seq<bool>
    var ret: Option<Option<Ty>>

    constructor (globals: map<string, GDef>)
      ensures this.globals == globals && scopes == [] && assignees == [] && ret == None
    {
      this.globals := globals;
      scopes, assignees, ret := [], [], None;
    }

    function Cx(): Ctx
      reads this`globals, this`scopes, this`ret
    {
      Ctx(globals, Plains(scopes), ret)
    }

    predicate IsAssigneeContext()
      reads this`assignees
    {
      assignees != [] && assignees[|assignees| - 1]
    }

    // GetLocalVarDefsUpToScope.
    method GetLocalVarDefsUpToScope(kind: ScopeKind) returns (found: bool, defs: seq<LocalDef>)
      ensures found == Within(Cx().scopes, kind) && defs == FlowUpTo(Cx().scopes, kind)
    {
      ghost var ss := Plains(scopes);
      defs := [];
      var i := |scopes|;
      hide FlowUpTo, Within;
      FlowNone(ss, kind);
      while i > 0
        invariant 0 <= i <= |scopes| && |ss| == |scopes|
        invariant Within(ss, kind) == Within(ss[..i], kind)
        invariant FlowUpTo(ss, kind) == FlowUpTo(ss[..i], kind) + defs
      {
        i := i - 1;
        FlowStep(ss, i, kind, defs);
        PlainAt(scopes, i);
        defs := scopes[i].defs + defs;
        if scopes[i].kind == kind {
          return true, defs;
        }
      }
      found := false;
    }

    // VisitId: the innermost scope that defines the name, the global one last.
    method VisitId(x: string) returns (ok: bool, te: TExpr)
      ensures Answers(AnalyzeId(Cx(), x, IsAssigneeContext()), ok, te)
    {
      var i := |scopes|;
      assert Cx().scopes[..i] == Cx().scopes;
      te := Plain(TFunc(x, false), Void);
      while i > 0
        invariant i <= |scopes|
        invariant Resolve(Cx().scopes, x) == Resolve(Cx().scopes[..i], x)
      {
        i := i - 1;
        assert Cx().scopes[..i + 1][..i] == Cx().scopes[..i];
        var k := FindDef(scopes[i].defs, x);
        if k >= 0 {
          var d := scopes[i].defs[k];
          return true, Plain(TLocal(d.t, d.flow, IsAssigneeContext()), Prim(d.t));
        }
      }
      if x !in globals {
        return false, te;
      }
      match globals[x] {
        case GVar(t) => return true, Plain(TGlobal(x, t, IsAssigneeContext()), Prim(t));
        case GFunc(sig) => return true, Plain(TFunc(x, sig.native), FuncT(sig));
      }
    }

    // The cast a parent asks of a child's recorded analysis.
    method SetCastedDataType(te: TExpr, t: Ty) returns (ok: bool, casted: TExpr)
      ensures Answers(Coerce(te, t), ok, casted)
    {
      casted := te;
      if !te.ty.Prim? {
        return false, te;
      }
      if te.ty.t != t {
        if !Castable(te.ty.t, t) {
          return false, te;
        }
        casted := te.(cast := Some(t));
      }
      ok := true;
    }

    method VisitExpr(e: Expr) returns (ok: bool, te: TExpr)
      modifies this`assignees
      ensures assignees == old(assignees)
      ensures Answers(AnalyzeExpr(Cx(), e, IsAssigneeContext()), ok, te)
      decreases e, 2
    {
      hide AnalyzeOperands, AnalyzeTo, AnalyzeArgs, Plains;
      match e
      case Lit(v) => ok, te := true, Plain(TLit(v), Prim(v.ty));
      case Id(x) => ok, te := VisitId(x);
      case Assign(_, _) => ok, te := VisitAssign(e);
      case PreStep(_, _) => ok, te := VisitPreExpr(e);
      case Unary(_, _) => ok, te := VisitUnaryExpr(e);
      case Binary(_, _, _) => ok, te := VisitBinaryExpr(e);
      case And(_, _) => ok, te := VisitBinaryExpr(e);
      case Or(_, _) => ok, te := VisitBinaryExpr(e);
      case Call(_, _) => ok, te := VisitCall(e);
    }

    // An expression and the conversion its parent demands.
    method VisitTo(e: Expr, t: Ty) returns (ok: bool, te: TExpr)
      modifies this`assignees
      ensures assignees == old(assignees)
      ensures Answers(AnalyzeTo(Cx(), e, t, IsAssigneeContext()), ok, te)
      decreases e, 3
    {
      hide AnalyzeExpr, Coerce, Plains;
      ok, te := VisitExpr(e);
      if ok {
        ok, te := SetCastedDataType(te, t);
      }
    }

    method VisitAssign(e: Expr) returns (ok: bool, te: TExpr)
      requires e.Assign?
      modifies this`assignees
      ensures assignees == old(assignees)
      ensures Answers(AnalyzeExpr(Cx(), e, IsAssigneeContext()), ok, te)
      decreases e, 1
    {
      hide AnalyzeTo, AnalyzeOperands, AnalyzeArgs, Plains, IsLeft;
      te := Plain(TFunc("", false), Void);
      assignees := assignees + [true];
      var left;
      ok, left := VisitExpr(e.left);
      assignees := assignees[..|assignees| - 1];
      if !ok || !IsLeft(left) {
        return false, te;
      }
      if !left.ty.Prim? {
        return false, te;
      }
      var right;
      ok, right := VisitTo(e.right, left.ty.t);
      te := Plain(TAssign(left, right), Void);
    }

    method VisitPreExpr(e: Expr) returns (ok: bool, te: TExpr)
      requires e.PreStep?
      modifies this`assignees
      ensures assignees == old(assignees)
      ensures Answers(AnalyzeExpr(Cx(), e, IsAssigneeContext()), ok, te)
      decreases e, 1
    {
      hide AnalyzeTo, AnalyzeOperands, AnalyzeArgs, Plains, IsLeft, SupportsStep;
      te := Plain(TFunc("", false), Void);
      assignees := assignees + [true];
      var operand;
      ok, operand := VisitExpr(e.operand);
      assignees := assignees[..|assignees| - 1];
      if !ok || !IsLeft(operand) {
        return false, te;
      }
      if !operand.ty.Prim? || !SupportsStep(operand.ty.t) {
        return false, te;
      }
      te := Plain(TPreStep(e.inc, operand), Void);
    }

    method VisitUnaryExpr(e: Expr) returns (ok: bool, te: TExpr)
      requires e.Unary?
      modifies this`assignees
      ensures assignees == old(assignees)
      ensures Answers(AnalyzeExpr(Cx(), e, IsAssigneeContext()), ok, te)
      decreases e, 1
    {
      hide AnalyzeTo, AnalyzeOperands, AnalyzeArgs, Plains, SupportsUn;
      te := Plain(TFunc("", false), Void);
      var operand;
      ok, operand := VisitExpr(e.operand);
      if !ok || !operand.ty.Prim? || !SupportsUn(e.uop, operand.ty.t) {
        return false, te;
      }
      te := Plain(TUnary(e.uop, operand), Prim(operand.ty.t));
    }

    // CastResolver: one operand is cast to the other's type when only that cast exists.
    method ResolveCast(left: TExpr, right: TExpr) returns (ok: bool, l: TExpr, r: TExpr, t: Ty)
      ensures ok <==> left.ty.Prim? && right.ty.Prim? && Meet(left.ty.t, right.ty.t).Some?
      ensures ok ==> Meet(left.ty.t, right.ty.t) == Some(t) && Coerce(left, t) == Some(l) && Coerce(right, t) == Some(r)
    {
      l, r, t := left, right, Bool;
      if !left.ty.Prim? || !right.ty.Prim? {
        return false, l, r, t;
      }
      t := left.ty.t;
      if left.ty.t != right.ty.t {
        if Castable(left.ty.t, right.ty.t) {
          t := right.ty.t;
          l := left.(cast := Some(t));
        } else if Castable(right.ty.t, left.ty.t) {
          r := right.(cast := Some(t));
        } else {
          return false, l, r, t;
        }
      }
      ok := true;
    }

    // VisitBinaryExpr, for arithmetic and comparisons and for the logical operators.
    method VisitBinaryExpr(e: Expr) returns (ok: bool, te: TExpr)
      requires e.Binary? || e.And? || e.Or?
      modifies this`assignees
      ensures assignees == old(assignees)
      ensures Answers(AnalyzeExpr(Cx(), e, IsAssigneeContext()), ok, te)
      decreases e, 1
    {
      hide AnalyzeExpr, Coerce, Plains, Meet, SupportsBin;
      te := Plain(TFunc("", false), Void);
      ghost var cx, a := Cx(), IsAssigneeContext();
      BinaryCases(cx, e, a);
      var left, right, t;
      ok, left := VisitExpr(e.left);
      if !ok {
        return;
      }
      ok, right := VisitExpr(e.right);
      if !ok {
        return;
      }
      ok, left, right, t := ResolveCast(left, right);
      if !ok {
        return;
      }
      if !(if e.Binary? then SupportsBin(e.bop, t) else t == Bool) {
        return false, te;
      }
      te := Combined(e, left, right, t);
    }

    // VisitCall: the callee, then the arguments one by one.
    method VisitCall(e: Expr) returns (ok: bool, te: TExpr)
      requires e.Call?
      modifies this`assignees
      ensures assignees == old(assignees)
      ensures Answers(AnalyzeExpr(Cx(), e, IsAssigneeContext()), ok, te)
      decreases e, 1
    {
      hide AnalyzeTo, AnalyzeOperands, AnalyzeArgs, Plains;
      te := Plain(TFunc("", false), Void);
      var callee;
      ok, callee := VisitExpr(e.callee);
      if !ok || !callee.ty.FuncT? {
        return false, te;
      }
      var args;
      ok, args := VisitArgs(e, callee.ty.sig.args);
      te := Plain(TCall(callee, args), OfRet(callee.ty.sig.ret));
    }

    method VisitArgs(e: Expr, types: seq<Ty>) returns (ok: bool, targs: seq<TExpr>)
      requires e.Call?
      modifies this`assignees
      ensures assignees == old(assignees)
      ensures Answers(AnalyzeArgs(Cx(), e.args, types, IsAssigneeContext()), ok, targs)
      decreases e, 0
    {
      hide AnalyzeTo, Plains;
      targs := [];
      var es := e.args;
      if |es| != |types| {
        return false, targs;
      }
      ghost var cx, a := Cx(), IsAssigneeContext();
      var i := 0;
      while i < |es|
        invariant i <= |es| && Cx() == cx && IsAssigneeContext() == a && assignees == old(assignees)
        invariant AnalyzeArgs(cx, es[..i], types[..i], a) == Some(targs)
      {
        var arg;
        ok, arg := VisitTo(es[i], types[i]);
        ArgsStep(cx, es, types, i, a);
        if !ok {
          ArgsStop(cx, es, types, i + 1, a);
          return;
        }
        targs := targs + [arg];
        i := i + 1;
      }
      assert es[..i] == es && types[..i] == types;
      ok := true;
    }

    // Whether one is within a function is what its return type being there says.
    predicate Nested()
      reads this`scopes, this`ret
    {
      ret.Some? <==> Within(Plains(scopes), FuncScope)
    }

    // VisitVarDef: a global, or a local that records the locals alive before it.
    method VisitVarDef(t: Ty, x: string) returns (ok: bool)
      modifies this`globals, this`scopes
      ensures old(scopes) == [] ==> scopes == [] && ok == (x !in old(globals))
      ensures old(scopes) == [] ==> globals == if ok then old(globals)[x := GVar(t)] else old(globals)
      ensures old(scopes) != [] ==>
        globals == old(globals) && Around(old(scopes), scopes) && Flagged(scopes) == old(Flagged(scopes))
      ensures old(scopes) != [] ==> Answers(AddLocal(old(Cx()), t, x), ok, Cx())
    {
      if scopes == [] {
        if x in globals {
          return false;
        }
        globals := globals[x := GVar(t)];
        return true;
      }
      hide FlowUpTo, FindDef, Within;
      var found, flow := GetLocalVarDefsUpToScope(FuncScope);
      var k := |scopes| - 1;
      assert Plains(scopes)[..k] == Plains(scopes[..k]);
      if FindDef(scopes[k].defs, x) >= 0 {
        return false;
      }
      var top := scopes[k].(defs := scopes[k].defs + [LocalDef(x, t, DefTypes(flow))]);
      ghost var was := scopes;
      scopes := scopes[..k] + [top];
      Replaced(was, top);
      ok := true;
    }

    // VisitVarDefWithInit and VisitVarDefWithoutInit: the initializer sees the variable.
    method VisitDef(s: Stmt) returns (ok: bool, t: TStmt)
      requires s.VarDef?
      modifies this
      ensures assignees == old(assignees) && ret == old(ret) && Around(old(scopes), scopes)
      ensures scopes != [] ==> globals == old(globals)
      ensures Flagged(scopes) == old(Flagged(scopes))
      ensures old(assignees) == [] ==> Answers(AnalyzeStmt(old(Cx()), s), ok, (t, Cx()))
    {
      hide AnalyzeTo, AddLocal, Plains, Around, Flagged, Kinds;
      AroundSame(scopes);
      t := TExprStmt(Plain(TFunc("", false), Void));
      var global := scopes == [];
      ok := VisitVarDef(s.ty, s.name);
      if !ok {
        return;
      }
      var init: Option<TExpr> := None;
      if s.init.Some? {
        var te;
        ok, te := VisitTo(s.init.value, s.ty);
        init := Some(te);
      }
      t := if global then TGlobalDef(s.name, s.ty, init) else TLocalDef(s.ty, init);
    }

    // VisitReturn, with and without a value: the current scope is marked, and everything alive is recorded.
    method VisitReturn(s: Stmt) returns (ok: bool, t: TStmt)
      requires s.Return? && Nested() && assignees == []
      modifies this
      ensures assignees == old(assignees) && ret == old(ret) && globals == old(globals) && Around(old(scopes), scopes)
      ensures ok ==> Flagged(scopes)
      ensures Answers(AnalyzeStmt(old(Cx()), s), ok, (t, Cx()))
    {
      hide AnalyzeTo, FlowUpTo, Within, Around, Flagged;
      AroundSame(scopes);
      t := TExprStmt(Plain(TFunc("", false), Void));
      var found, flow := GetLocalVarDefsUpToScope(FuncScope);
      if !found {
        return false, t;
      }
      InScope(Plains(scopes), FuncScope);
      var k := |scopes| - 1;
      ghost var was := scopes;
      scopes := scopes[..k] + [scopes[k].(hasReturn := true)];
      Marked(was);
      assert Cx() == old(Cx());
      if s.value.None? {
        t := TReturn(None, DefTypes(flow));
        return ret.value.None?, t;
      }
      if ret.value.None? {
        return false, t;
      }
      var te;
      ok, te := VisitTo(s.value.value, ret.value.value);
      t := TReturn(Some(te), DefTypes(flow));
    }

    // VisitControlFlowTransfer, for break and continue.
    method VisitControlFlowTransfer(s: Stmt) returns (ok: bool, t: TStmt)
      requires s.Break? || s.Continue?
      ensures Answers(AnalyzeStmt(Cx(), s), ok, (t, Cx()))
    {
      hide FlowUpTo, Within, Plains;
      var found, flow := GetLocalVarDefsUpToScope(Loop);
      ok, t := found, if s.Break? then TBreak(DefTypes(flow)) else TContinue(DefTypes(flow));
    }

    method VisitStmt(s: Stmt) returns (ok: bool, t: TStmt)
      requires Nested() && assignees == []
      modifies this
      ensures assignees == old(assignees) && ret == old(ret) && Around(old(scopes), scopes) && Nested()
      ensures scopes != [] ==> globals == old(globals)
      ensures ok ==> Flagged(scopes) == (old(Flagged(scopes)) || s.Return?)
      ensures Answers(AnalyzeStmt(old(Cx()), s), ok, (t, Cx()))
      decreases s, 2
    {
      hide AnalyzeTo, AnalyzeExpr, AnalyzeVarDef, AnalyzeReturn, AnalyzeBlock, AnalyzeBranches, Plains, Around,
        Flagged, Kinds, FlowUpTo, Within;
      AroundSame(scopes);
      ghost var was := scopes;
      match s {
        case ExprStmt(e) =>
          var te;
          ok, te := VisitExpr(e);
          t := TExprStmt(te);
        case VarDef(_, _, _) => ok, t := VisitDef(s);
        case If(_, _) => ok, t := VisitIf(s);
        case While(_, _) => ok, t := VisitPreTestLoop(s);
        case Break => ok, t := VisitControlFlowTransfer(s);
        case Continue => ok, t := VisitControlFlowTransfer(s);
        case Return(_) => ok, t := VisitReturn(s);
      }
      StillNested(was, scopes);
    }

    // VisitScope: the statements of a body one by one.
    method VisitScope(ss: seq<Stmt>) returns (ok: bool, ts: seq<TStmt>)
      requires Nested() && assignees == []
      modifies this
      ensures assignees == old(assignees) && ret == old(ret) && Around(old(scopes), scopes) && Nested()
      ensures scopes != [] ==> globals == old(globals)
      ensures ok ==> Flagged(scopes) == (old(Flagged(scopes)) || HasReturn(ss))
      ensures Answers(AnalyzeStmts(old(Cx()), ss), ok, (ts, Cx()))
      decreases ss, 0
    {
      hide AnalyzeStmts, AnalyzeStmt, Plains, Around, Flagged, Kinds, Nested;
      ghost var cx, was := Cx(), scopes;
      AroundSame(scopes);
      ts := [];
      var i := 0;
      NothingPrefixed(cx, ss);
      while i < |ss|
        invariant i <= |ss| && Nested() && assignees == [] && ret == old(ret) && Around(was, scopes)
        invariant scopes != [] ==> globals == old(globals)
        invariant Flagged(scopes) == (old(Flagged(scopes)) || HasReturn(ss[..i]))
        invariant AnalyzeStmts(cx, ss) == Prefixed(ts, AnalyzeStmts(Cx(), ss[i..]))
      {
        ghost var before, now := Cx(), scopes;
        var t;
        ok, t := VisitStmt(ss[i]);
        StmtsStep(cx, ss, i, ts, before);
        AroundTwice(was, now, scopes);
        AroundLength(now, scopes);
        if !ok {
          return;
        }
        ReturnsSnoc(ss, i);
        ts := ts + [t];
        i := i + 1;
      }
      AllPrefixed(cx, ss, ts, Cx());
      assert ss[..i] == ss;
      ok := true;
    }

    // A body in a scope of its own, which is closed behind it; its definitions are recorded.
    method VisitBlock(kind: ScopeKind, ss: seq<Stmt>) returns (ok: bool, ts: seq<TStmt>, defs: seq<Ty>)
      requires kind != FuncScope && Nested() && assignees == []
      modifies this
      ensures assignees == old(assignees) && ret == old(ret) && scopes == old(scopes)
      ensures globals == old(globals)
      ensures Answers(AnalyzeBlock(old(Cx()), kind, ss), ok, (ts, defs))
      decreases ss, 1
    {
      hide AnalyzeStmts, Around, Flagged;
      ghost var was := scopes;
      WithinPush(scopes, LiveScope(kind, [], false), FuncScope);
      scopes := scopes + [LiveScope(kind, [], false)];
      assert Cx() == Push(old(Cx()), kind);
      ghost var pushed := scopes;
      ok, ts := VisitScope(ss);
      AroundPop(pushed, scopes);
      assert pushed[..|pushed| - 1] == was;
      var k := |scopes| - 1;
      defs := DefTypes(scopes[k].defs);
      scopes := scopes[..k];
    }

    // VisitPreTestLoop.
    method VisitPreTestLoop(s: Stmt) returns (ok: bool, t: TStmt)
      requires s.While? && Nested() && assignees == []
      modifies this
      ensures assignees == old(assignees) && ret == old(ret) && scopes == old(scopes) && globals == old(globals)
      ensures Answers(AnalyzeStmt(old(Cx()), s), ok, (t, Cx()))
      decreases s, 1
    {
      hide AnalyzeTo, AnalyzeBlock, Plains, Nested;
      t := TExprStmt(Plain(TFunc("", false), Void));
      var cond, body, defs;
      ok, cond := VisitTo(s.cond, Bool);
      if !ok {
        return;
      }
      ok, body, defs := VisitBlock(Loop, s.body);
      t := TWhile(cond, body, defs);
    }

    // VisitIfElseIf and VisitIfElseIfElse.
    method VisitIf(s: Stmt) returns (ok: bool, t: TStmt)
      requires s.If? && Nested() && assignees == []
      modifies this
      ensures assignees == old(assignees) && ret == old(ret) && scopes == old(scopes) && globals == old(globals)
      ensures Answers(AnalyzeStmt(old(Cx()), s), ok, (t, Cx()))
      decreases s, 1
    {
      hide AnalyzeBranches, AnalyzeBlock, Plains, Nested;
      t := TExprStmt(Plain(TFunc("", false), Void));
      var branches;
      ok, branches := VisitBranch(s);
      if !ok {
        return;
      }
      match s.els {
        case NoElse => t := TIf(branches, TNoElse);
        case Else(body) =>
          var ts, defs;
          ok, ts, defs := VisitBlock(Common, body);
          t := TIf(branches, TElse(ts, defs));
      }
    }

    // VisitBranch: the if and every else-if, each condition and then its body.
    method VisitBranch(s: Stmt) returns (ok: bool, ts: seq<TBranch>)
      requires s.If? && Nested() && assignees == []
      modifies this
      ensures assignees == old(assignees) && ret == old(ret) && scopes == old(scopes) && globals == old(globals)
      ensures Answers(AnalyzeBranches(old(Cx()), s.branches), ok, ts)
      decreases s, 0
    {
      hide AnalyzeTo, AnalyzeBlock, AnalyzeBranches, Plains, Nested;
      ts := [];
      var i := 0;
      var bs := s.branches;
      ghost var cx := Cx();
      NoBranches(cx, bs);
      while i < |bs|
        invariant i <= |bs| && assignees == [] && ret == old(ret) && scopes == old(scopes) && globals == old(globals)
        invariant AnalyzeBranches(cx, bs) == PrefixedBranches(ts, AnalyzeBranches(cx, bs[i..]))
      {
        BranchesStep(cx, bs, i, ts);
        var cond, body, defs;
        ok, cond := VisitTo(bs[i].cond, Bool);
        if !ok {
          return;
        }
        ok, body, defs := VisitBlock(Common, bs[i].body);
        if !ok {
          return;
        }
        ts := ts + [TBranch(cond, body, defs)];
        i := i + 1;
      }
      BranchesEnd(cx, bs, ts);
      ok := true;
    }

    // VisitFuncDefWithBody, behind the registration of the function: its arguments and body in a function
    // scope. A function that returns a value must have a return directly in that scope.
    method VisitFuncDefWithBody(f: Func) returns (ok: bool, t: TFuncDef)
      requires scopes == [] && ret == None && assignees == []
      modifies this
      ensures scopes == [] && ret == None && assignees == [] && globals == old(globals)
      ensures Answers(AnalyzeFunc(old(globals), f), ok, t)
    {
      hide AnalyzeStmts, AddArgs, AddLocal, Around, Flagged;
      t := TFuncDef([], [], [], false);
      ret := Some(f.ret);
      scopes := [LiveScope(FuncScope, [], false)];
      assert Cx() == Ctx(globals, [Scope(FuncScope, [])], Some(f.ret));
      ghost var cx, was := Cx(), scopes;
      AroundSame(scopes);
      OneFlag(scopes);
      ok := true;
      var i := 0;
      assert f.args[0..] == f.args;
      while i < |f.args| && ok
        invariant i <= |f.args| && ret == Some(f.ret) && assignees == [] && globals == old(globals) && |scopes| == 1
        invariant Around(was, scopes) && !Flagged(scopes)
        invariant ok ==> AddArgs(cx, f.args) == AddArgs(Cx(), f.args[i..])
        invariant !ok ==> AddArgs(cx, f.args) == None
        decreases |f.args| - i, if ok then 1 else 0
      {
        ghost var before, now := Cx(), scopes;
        ok := VisitVarDef(f.args[i].ty, f.args[i].name);
        ArgStep(before, f.args[i..]);
        AroundTwice(was, now, scopes);
        AroundLength(now, scopes);
        if ok {
          i := i + 1;
        }
      }
      if ok {
        AllArgs(Cx());
        assert f.args[i..] == [];
        StillNested(was, scopes);
        assert Within(Plains(was), FuncScope);
        var ts;
        ghost var now := scopes;
        ok, ts := VisitScope(f.body);
        AroundLength(now, scopes);
        OneFlag(scopes);
        var scope := scopes[0];
        if ok && f.ret.Some? && !scope.hasReturn {
          ok := false;
        }
        t := TFuncDef(ArgTypes(f.args), ts, DefTypes(scope.defs), f.ret.None? && !scope.hasReturn);
      }
      scopes, ret := [], None;
    }
  }

  function Combined(e: Expr, left: TExpr, right: TExpr, t: Ty): TExpr {
    if e.And? then Plain(TAnd(left, right), Prim(Bool))
    else if e.Or? then Plain(TOr(left, right), Prim(Bool))
    else if e.Binary? then Plain(TBinary(e.bop, left, right), Prim(BinType(e.bop, t)))
    else left
  }

  // The analysis of a binary expression from that of its operands.
  lemma BinaryCases(cx: Ctx, e: Expr, a: bool)
    requires e.Binary? || e.And? || e.Or?
    ensures var l, r := AnalyzeExpr(cx, e.left, a), AnalyzeExpr(cx, e.right, a);
      AnalyzeExpr(cx, e, a) ==
        if l.None? || r.None? || !l.value.ty.Prim? || !r.value.ty.Prim? then None
        else
          var m := Meet(l.value.ty.t, r.value.ty.t);
          if m.None? || !(if e.Binary? then SupportsBin(e.bop, m.value) else m.value == Bool) then None
          else Some(Combined(e, Coerce(l.value, m.value).value, Coerce(r.value, m.value).value, m.value))
  {
    hide SupportsBin;
  }

  lemma ArgsStep(cx: Ctx, es: seq<Expr>, ts: seq<Ty>, i: nat, a: bool)
    requires i < |es| == |ts| && AnalyzeArgs(cx, es[..i], ts[..i], a).Some?
    ensures var r := AnalyzeTo(cx, es[i], ts[i], a);
      AnalyzeArgs(cx, es[..i + 1], ts[..i + 1], a) ==
        if r.None? then None else Some(AnalyzeArgs(cx, es[..i], ts[..i], a).value + [r.value])
  {
    hide AnalyzeTo;
    assert es[..i + 1][..i] == es[..i] && ts[..i + 1][..i] == ts[..i];
  }

  // An argument that fails fails the call.
  lemma {:induction false} ArgsStop(cx: Ctx, es: seq<Expr>, ts: seq<Ty>, i: nat, a: bool)
    requires i <= |es| == |ts| && AnalyzeArgs(cx, es[..i], ts[..i], a).None?
    ensures AnalyzeArgs(cx, es, ts, a).None?
    decreases |es| - i
  {
    hide AnalyzeTo;
    if i == |es| {
      assert es[..i] == es && ts[..i] == ts;
    } else {
      assert es[..i + 1][..i] == es[..i] && ts[..i + 1][..i] == ts[..i];
      ArgsStop(cx, es, ts, i + 1, a);
    }
  }

  lemma AroundSame(a: seq<LiveScope>)
    ensures Around(a, a)
  {
  }

  lemma AroundTwice(a: seq<LiveScope>, b: seq<LiveScope>, c: seq<LiveScope>)
    requires Around(a, b) && Around(b, c)
    ensures Around(a, c)
  {
    assert |Kinds(a)| == |Kinds(b)| == |Kinds(c)|;
  }

  lemma AroundLength(a: seq<LiveScope>, b: seq<LiveScope>)
    requires Around(a, b)
    ensures |a| == |b|
  {
    assert |Kinds(a)| == |Kinds(b)|;
  }

  lemma AroundPop(a: seq<LiveScope>, b: seq<LiveScope>)
    requires Around(a, b) && a != []
    ensures |a| == |b| && b[..|b| - 1] == a[..|a| - 1]
  {
    AroundLength(a, b);
  }

  lemma StillNested(a: seq<LiveScope>, b: seq<LiveScope>)
    requires Around(a, b)
    ensures Within(Plains(a), FuncScope) == Within(Plains(b), FuncScope)
  {
    SameKinds(a, b, FuncScope);
  }

  lemma OneFlag(ss: seq<LiveScope>)
    requires |ss| == 1
    ensures Flagged(ss) == ss[0].hasReturn
  {
  }

  // Another innermost scope of the same kind.
  lemma Replaced(was: seq<LiveScope>, top: LiveScope)
    requires was != [] && top.kind == was[|was| - 1].kind
    ensures var k := |was| - 1;
      var now := was[..k] + [top];
      && Around(was, now) && Flagged(now) == top.hasReturn
      && Plains(now) == Plains(was)[..k] + [Scope(top.kind, top.defs)]
  {
    var k := |was| - 1;
    var now := was[..k] + [top];
    assert Kinds(now) == Kinds(was);
    assert now[..k] == was[..k];
    PlainsTake(was, k);
    assert Plains(now) == Plains(was[..k]) + [Scope(top.kind, top.defs)];
  }

  lemma Marked(was: seq<LiveScope>)
    requires was != []
    ensures var k := |was| - 1;
      var now := was[..k] + [was[k].(hasReturn := true)];
      Around(was, now) && Flagged(now) && Plains(now) == Plains(was)
  {
    var k := |was| - 1;
    Replaced(was, was[k].(hasReturn := true));
    assert Plains(was) == Plains(was)[..k] + [Plains(was)[k]];
  }

  lemma InScope(ss: seq<Scope>, kind: ScopeKind)
    requires Within(ss, kind)
    ensures ss != []
  {
  }

  lemma NothingPrefixed(cx: Ctx, ss: seq<Stmt>)
    ensures AnalyzeStmts(cx, ss) == Prefixed([], AnalyzeStmts(cx, ss[0..])) && !HasReturn(ss[..0])
  {
    hide AnalyzeStmts;
    assert ss[0..] == ss;
    var r := AnalyzeStmts(cx, ss);
    if r.Some? {
      assert [] + r.value.0 == r.value.0;
    }
  }

  lemma StmtsStep(cx: Ctx, ss: seq<Stmt>, i: nat, ts: seq<TStmt>, before: Ctx)
    requires i < |ss| && AnalyzeStmts(cx, ss) == Prefixed(ts, AnalyzeStmts(before, ss[i..]))
    ensures var r := AnalyzeStmt(before, ss[i]);
      && (r.None? ==> AnalyzeStmts(cx, ss).None?)
      && (r.Some? ==> AnalyzeStmts(cx, ss) == Prefixed(ts + [r.value.0], AnalyzeStmts(r.value.1, ss[i + 1..])))
  {
    assert ss[i..][0] == ss[i] && ss[i..][1..] == ss[i + 1..];
    var r := AnalyzeStmt(before, ss[i]);
    hide AnalyzeStmt;
    if r.Some? {
      var q := AnalyzeStmts(r.value.1, ss[i + 1..]);
      if q.Some? {
        assert ts + ([r.value.0] + q.value.0) == ts + [r.value.0] + q.value.0;
      }
    }
  }

  lemma AllPrefixed(cx: Ctx, ss: seq<Stmt>, ts: seq<TStmt>, now: Ctx)
    requires AnalyzeStmts(cx, ss) == Prefixed(ts, AnalyzeStmts(now, ss[|ss|..]))
    ensures AnalyzeStmts(cx, ss) == Some((ts, now))
  {
    assert ss[|ss|..] == [];
    assert AnalyzeStmts(now, []) == Some(([], now));
    assert ts + [] == ts;
  }

  lemma ReturnsSnoc(ss: seq<Stmt>, i: nat)
    requires i < |ss|
    ensures HasReturn(ss[..i + 1]) <==> HasReturn(ss[..i]) || ss[i].Return?
  {
    var a, b := ss[..i], ss[..i + 1];
    if HasReturn(a) {
      var j :| 0 <= j < |a| && a[j].Return?;
      assert b[j].Return?;
    }
    if HasReturn(b) && !ss[i].Return? {
      var j :| 0 <= j < |b| && b[j].Return?;
      assert a[j].Return?;
    }
    if ss[i].Return? {
      assert b[i].Return?;
    }
  }

  lemma NoBranches(cx: Ctx, bs: seq<Branch>)
    ensures AnalyzeBranches(cx, bs) == PrefixedBranches([], AnalyzeBranches(cx, bs[0..]))
  {
    hide AnalyzeBranches;
    assert bs[0..] == bs;
    var r := AnalyzeBranches(cx, bs);
    if r.Some? {
      assert [] + r.value == r.value;
    }
  }

  lemma BranchesStep(cx: Ctx, bs: seq<Branch>, i: nat, ts: seq<TBranch>)
    requires i < |bs| && AnalyzeBranches(cx, bs) == PrefixedBranches(ts, AnalyzeBranches(cx, bs[i..]))
    ensures var c, b := AnalyzeTo(cx, bs[i].cond, Bool, false), AnalyzeBlock(cx, Common, bs[i].body);
      && (c.None? || b.None? ==> AnalyzeBranches(cx, bs).None?)
      && (c.Some? && b.Some? ==>
            AnalyzeBranches(cx, bs) ==
              PrefixedBranches(ts + [TBranch(c.value, b.value.0, b.value.1)], AnalyzeBranches(cx, bs[i + 1..])))
  {
    hide AnalyzeTo, AnalyzeBlock;
    assert bs[i..][0] == bs[i] && bs[i..][1..] == bs[i + 1..];
    var c, b := AnalyzeTo(cx, bs[i].cond, Bool, false), AnalyzeBlock(cx, Common, bs[i].body);
    if c.Some? && b.Some? {
      var t, q := TBranch(c.value, b.value.0, b.value.1), AnalyzeBranches(cx, bs[i + 1..]);
      if q.Some? {
        assert ts + ([t] + q.value) == ts + [t] + q.value;
      }
    }
  }

  lemma BranchesEnd(cx: Ctx, bs: seq<Branch>, ts: seq<TBranch>)
    requires AnalyzeBranches(cx, bs) == PrefixedBranches(ts, AnalyzeBranches(cx, bs[|bs|..]))
    ensures AnalyzeBranches(cx, bs) == Some(ts)
  {
    assert bs[|bs|..] == [];
    assert AnalyzeBranches(cx, []) == Some([]);
    assert ts + [] == ts;
  }

  lemma ArgStep(cx: Ctx, args: seq<Arg>)
    requires args != [] && cx.scopes != []
    ensures var r := AddLocal(cx, args[0].ty, args[0].name);
      AddArgs(cx, args) == if r.None? then None else AddArgs(r.value, args[1..])
  {
    hide AddLocal;
  }

  lemma AllArgs(cx: Ctx)
    requires cx.scopes != []
    ensures AddArgs(cx, []) == Some(cx)
  {
  }
}
