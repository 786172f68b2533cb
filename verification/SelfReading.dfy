/** When no initializer mentions the variable it initializes, no run reads a variable before it has a
    value. */
module SelfReading {
  import opened Bytes
  import opened Language
  import opened Semantics
  import opened Scoping

  predicate Mentions(e: Expr, x: string)
    decreases e
  {
    match e
    case Lit(_) => false
    case Id(y) => y == x
    case Assign(l, r) => Mentions(l, x) || Mentions(r, x)
    case PreStep(_, o) => Mentions(o, x)
    case Unary(_, o) => Mentions(o, x)
    case Binary(_, l, r) => Mentions(l, x) || Mentions(r, x)
    case And(l, r) => Mentions(l, x) || Mentions(r, x)
    case Or(l, r) => Mentions(l, x) || Mentions(r, x)
    case Call(f, args) => Mentions(f, x) || exists i :: 0 <= i < |args| && Mentions(args[i], x)
  }

  predicate SelfFree(s: Stmt) {
    match s
    case VarDef(_, x, init) => init.Some? ==> !Mentions(init.value, x)
    case If(bs, els) =>
      (forall i :: 0 <= i < |bs| ==> AllSelfFree(bs[i].body)) && (els.Else? ==> AllSelfFree(els.body))
    case While(_, b) => AllSelfFree(b)
    case _ => true
  }

  predicate AllSelfFree(ss: seq<Stmt>) { forall i :: 0 <= i < |ss| ==> SelfFree(ss[i]) }

  ghost predicate FuncsSelfFree(P: Prog) { forall f :: f in P.funcs ==> AllSelfFree(P.funcs[f].body) }

  // The expression mentions no binding that has no value yet.
  predicate Clean(env: seq<Var>, e: Expr) {
    forall i :: 0 <= i < |env| && env[i].raw.None? ==> !Mentions(e, env[i].name)
  }

  predicate CleanAll(env: seq<Var>, es: seq<Expr>) { forall k :: 0 <= k < |es| ==> Clean(env, es[k]) }

  // The same bindings, none of which has lost its value.
  predicate Shape(a: seq<Var>, b: seq<Var>) {
    |a| == |b| && forall i :: 0 <= i < |a| ==> b[i].name == a[i].name && (b[i].raw.None? ==> a[i].raw.None?)
  }

  ghost predicate Calm(r: ERes, env: seq<Var>) {
    match r case EErr(x) => x != SelfRead case EOk(_, st1) => Shape(env, st1.env)
  }

  ghost predicate CalmArgs(r: ARes, env: seq<Var>) {
    match r case AErr(x) => x != SelfRead case AOk(_, st1) => Shape(env, st1.env)
  }

  ghost predicate CalmStmt(r: SRes) {
    match r
    case SErr(x) => x != SelfRead
    case Returned(_, _) => true
    case _ => Whole(r.st.env)
  }

  lemma {:induction false} CleanRead(P: Prog, st: SState, x: string)
    requires Clean(st.env, Id(x))
    ensures ReadVar(P, st, x).None? ==> ReadErr(P, st, x) != SelfRead
    ensures forall raw :: WriteVar(P, st, x, raw).None? ==> WriteErr(st, x) == Wrong
    ensures forall raw :: WriteVar(P, st, x, raw).Some? ==> Shape(st.env, WriteVar(P, st, x, raw).value.env)
  {
    hide Find;
    assert forall i :: 0 <= i < |st.env| && st.env[i].raw.None? ==> !Mentions(Id(x), st.env[i].name);
  }

  lemma CleanShape(a: seq<Var>, b: seq<Var>, e: Expr)
    requires Shape(a, b) && Clean(a, e)
    ensures Clean(b, e)
  {
    hide Mentions;
  }

  lemma {:induction false} CalmExpr(P: Prog, fuel: nat, st: SState, e: Expr)
    requires FuncsSelfFree(P) && Clean(st.env, e)
    ensures Calm(EvalExpr(P, fuel, st, e), st.env)
    decreases fuel, e, 0
  {
    hide ReadVar, WriteVar, VarType, Find, Castable, SupportsUn, SupportsStep, ReadErr, WriteErr, Apply,
      FuncsSelfFree;
    match e
    case Lit(_) =>
    case Id(x) => CleanRead(P, st, x);
    case Assign(l, r) =>
      if l.Id? && VarType(P, st, l.name).Some? {
        assert Clean(st.env, l) && Clean(st.env, r);
        CalmTo(P, fuel, st, r, VarType(P, st, l.name).value);
        var q := EvalTo(P, fuel, st, r, VarType(P, st, l.name).value);
        if q.EOk? {
          CleanShape(st.env, q.st.env, l);
          CleanRead(P, q.st, l.name);
        }
      }
    case PreStep(inc, o) =>
      if o.Id? {
        assert Clean(st.env, o);
        CleanRead(P, st, o.name);
      }
    case Unary(op, o) =>
      assert Clean(st.env, o);
      CalmExpr(P, fuel, st, o);
    case Binary(op, l, r) =>
      assert Clean(st.env, l) && Clean(st.env, r);
      CalmExpr(P, fuel, st, l);
      var q := EvalExpr(P, fuel, st, l);
      if q.EOk? {
        CleanShape(st.env, q.st.env, r);
        CalmExpr(P, fuel, q.st, r);
      }
    case And(l, r) => CalmLogic(P, fuel, st, l, r, e);
    case Or(l, r) => CalmLogic(P, fuel, st, l, r, e);
    case Call(f, args) => CalmCall(P, fuel, st, f, args, e);
  }

  lemma {:induction false} CalmLogic(P: Prog, fuel: nat, st: SState, l: Expr, r: Expr, e: Expr)
    requires FuncsSelfFree(P) && Clean(st.env, e) && (e == And(l, r) || e == Or(l, r))
    ensures Calm(EvalLogic(P, fuel, st, l, r, e), st.env)
    decreases fuel, e, 0, 0
  {
    hide EvalExpr, Truth, FuncsSelfFree;
    assert Clean(st.env, l) && Clean(st.env, r);
    CalmExpr(P, fuel, st, l);
    var q := EvalExpr(P, fuel, st, l);
    if q.EOk? {
      CleanShape(st.env, q.st.env, r);
      CalmExpr(P, fuel, q.st, r);
    }
  }

  lemma {:induction false} CalmTo(P: Prog, fuel: nat, st: SState, e: Expr, t: Ty)
    requires FuncsSelfFree(P) && Clean(st.env, e)
    ensures Calm(EvalTo(P, fuel, st, e, t), st.env)
    decreases fuel, e, 1
  {
    hide EvalExpr, Castable, Clean, Shape, FuncsSelfFree;
    CalmExpr(P, fuel, st, e);
  }

  lemma {:induction false} CalmArgList(P: Prog, fuel: nat, st: SState, es: seq<Expr>, ts: seq<Ty>)
    requires FuncsSelfFree(P) && CleanAll(st.env, es)
    ensures CalmArgs(EvalArgs(P, fuel, st, es, ts), st.env)
    decreases fuel, es
  {
    hide EvalTo, Clean, FuncsSelfFree;
    if |es| == |ts| && es != [] {
      var k := |es| - 1;
      CalmTo(P, fuel, st, es[k], ts[k]);
      var q := EvalTo(P, fuel, st, es[k], ts[k]);
      if q.EOk? && q.val.Some? {
        forall i | 0 <= i < k
          ensures Clean(q.st.env, es[..k][i])
        {
          CleanShape(st.env, q.st.env, es[i]);
        }
        CalmArgList(P, fuel, q.st, es[..k], ts[..k]);
      }
    }
  }

  lemma {:induction false} CalmCall(P: Prog, fuel: nat, st: SState, f: Expr, args: seq<Expr>, e: Expr)
    requires FuncsSelfFree(P) && Clean(st.env, e) && e == Call(f, args)
    ensures Calm(EvalExpr(P, fuel, st, e), st.env)
    decreases fuel, e, 0, 0
  {
    hide EvalArgs, Find, FuncsSelfFree, RunFunc;
    forall k | 0 <= k < |args|
      ensures Clean(st.env, args[k])
    {
    }
    hide Clean, Mentions;
    if f.Id? && f.name in P.natives {
      CalmArgList(P, fuel, st, args, P.natives[f.name].args);
    } else if f.Id? && f.name in P.funcs {
      var ts := ArgTypes(P.funcs[f.name].args);
      CalmArgList(P, fuel, st, args, ts);
      var q := EvalArgs(P, fuel, st, args, ts);
      if q.AOk? && fuel > 0 {
        assert AllSelfFree(P.funcs[f.name].body) by { BodySelfFree(P, f.name); }
        CalmFunc(P, fuel - 1, q.st, P.funcs[f.name], q.vals);
      }
    }
  }

  lemma BodySelfFree(P: Prog, f: string)
    requires FuncsSelfFree(P) && f in P.funcs
    ensures AllSelfFree(P.funcs[f].body)
  {
  }

  lemma {:induction false} CalmFunc(P: Prog, fuel: nat, st: SState, f: Func, vs: seq<Value>)
    requires FuncsSelfFree(P) && AllSelfFree(f.body)
    ensures Calm(RunFunc(P, fuel, st, f, vs), st.env)
    decreases fuel, f
  {
    hide ExecStmts, FuncsSelfFree;
    if |vs| == |f.args| {
      CalmStmts(P, fuel, Place(false, Some(f.ret)), st.(env := Bind(f.args, vs)), f.body);
    }
  }

  lemma {:induction false} CalmStmts(P: Prog, fuel: nat, pl: Place, st: SState, ss: seq<Stmt>)
    requires FuncsSelfFree(P) && AllSelfFree(ss) && Whole(st.env)
    ensures CalmStmt(ExecStmts(P, fuel, pl, st, ss))
    decreases fuel, ss, 0
  {
    hide ExecStmt, FuncsSelfFree, Whole, SelfFree;
    if ss != [] {
      CalmStmt1(P, fuel, pl, st, ss[0]);
      var r := ExecStmt(P, fuel, pl, st, ss[0]);
      if r.Normal? {
        CalmStmts(P, fuel, pl, r.st, ss[1..]);
      }
    }
  }

  lemma WholeClean(env: seq<Var>, e: Expr)
    requires Whole(env)
    ensures Clean(env, e)
    ensures forall env1 :: Shape(env, env1) ==> Whole(env1)
  {
  }

  lemma {:induction false} CalmStmt1(P: Prog, fuel: nat, pl: Place, st: SState, s: Stmt)
    requires FuncsSelfFree(P) && SelfFree(s) && Whole(st.env)
    ensures CalmStmt(ExecStmt(P, fuel, pl, st, s))
    decreases fuel, s, 2
  {
    hide EvalExpr, EvalTo, ExecWhile, ExecBranches, FuncsSelfFree, Whole, Clean, Shape, Mentions;
    match s
    case ExprStmt(e) =>
      WholeClean(st.env, e);
      CalmExpr(P, fuel, st, e);
    case VarDef(t, x, init) => CalmDef(P, fuel, pl, st, t, x, init);
    case If(_, _) => CalmBranches(P, fuel, pl, st, s, 0);
    case While(_, _) => CalmLoop(P, fuel, pl, st, s);
    case Return(value) =>
      if value.Some? && pl.ret.Some? && pl.ret.value.Some? {
        WholeClean(st.env, value.value);
        CalmTo(P, fuel, st, value.value, pl.ret.value.value);
      }
    case _ =>
  }

  lemma {:induction false} CalmDef(P: Prog, fuel: nat, pl: Place, st: SState, t: Ty, x: string, init: Option<Expr>)
    requires FuncsSelfFree(P) && Whole(st.env) && (init.Some? ==> !Mentions(init.value, x))
    ensures CalmStmt(ExecStmt(P, fuel, pl, st, VarDef(t, x, init)))
    decreases fuel, VarDef(t, x, init), 1
  {
    hide EvalTo, FuncsSelfFree, Mentions;
    if init.Some? {
      var e := init.value;
      if pl.top {
        WholeClean(st.env, e);
        CalmTo(P, fuel, st, e, t);
      } else {
        CalmTo(P, fuel, st.(env := st.env + [Var(x, t, None)]), e, t);
      }
    }
  }

  lemma {:induction false} CalmBlock(P: Prog, fuel: nat, pl: Place, st: SState, ss: seq<Stmt>)
    requires FuncsSelfFree(P) && AllSelfFree(ss) && Whole(st.env)
    ensures CalmStmt(ExecBlock(P, fuel, pl, st, ss))
    decreases fuel, ss, 1
  {
    hide ExecStmts, FuncsSelfFree, SelfFree;
    CalmStmts(P, fuel, pl.(top := false), st, ss);
  }

  lemma {:induction false} CalmBranches(P: Prog, fuel: nat, pl: Place, st: SState, s: Stmt, i: nat)
    requires FuncsSelfFree(P) && s.If? && SelfFree(s) && i <= |s.branches| && Whole(st.env)
    ensures CalmStmt(ExecBranches(P, fuel, pl, st, s, i))
    decreases fuel, s, 1, |s.branches| - i
  {
    hide EvalExpr, ExecBlock, FuncsSelfFree, Whole, Truth, AllSelfFree;
    if i == |s.branches| {
      if s.els.Else? {
        CalmBlock(P, fuel, pl, st, s.els.body);
      }
    } else {
      WholeClean(st.env, s.branches[i].cond);
      CalmExpr(P, fuel, st, s.branches[i].cond);
      var r := EvalExpr(P, fuel, st, s.branches[i].cond);
      if r.EOk? {
        CalmBlock(P, fuel, pl, r.st, s.branches[i].body);
        CalmBranches(P, fuel, pl, r.st, s, i + 1);
      }
    }
  }

  lemma {:induction false} CalmLoop(P: Prog, fuel: nat, pl: Place, st: SState, s: Stmt)
    requires FuncsSelfFree(P) && s.While? && SelfFree(s) && Whole(st.env)
    ensures CalmStmt(ExecWhile(P, fuel, pl, st, s))
    decreases fuel, s, 1
  {
    hide EvalExpr, ExecBlock, FuncsSelfFree, Whole, Truth, AllSelfFree;
    if fuel > 0 {
      WholeClean(st.env, s.cond);
      CalmExpr(P, fuel, st, s.cond);
      var r := EvalExpr(P, fuel, st, s.cond);
      if r.EOk? {
        CalmBlock(P, fuel, pl, r.st, s.body);
        var b := ExecBlock(P, fuel, pl, r.st, s.body);
        if b.Normal? || b.Continued? {
          CalmLoop(P, fuel - 1, pl, b.st, s);
        }
      }
    }
  }
}
