/** When every global string is defined before it can be read, and every divisor is a literal that divides
    everything, no run reads a string that is not there or divides without a result. */
module Readiness {
  import opened Bytes
  import opened Language
  import opened Semantics

  // For each function, the global strings that must be defined when it is called.
  type Needs = map<string, set<string>>

  predicate Divides(t: Ty, raw: Raw) {
    (t == Char || t == Int || t == Long) ==> raw != Zeros(Width(t)) && raw != MinusOne(t)
  }

  // The literal, and whatever it is converted to, divides every number.
  predicate SafeDivisor(P: Prog, v: Value) {
    Divides(v.ty, v.raw) && forall t :: Castable(v.ty, t) ==> Divides(t, P.prims.cast(v.ty, t, v.raw))
  }

  // The expression reads no global string outside D, not even through the functions it calls, and
  // divides by safe literals only.
  predicate Ready(P: Prog, needs: Needs, D: set<string>, e: Expr)
    decreases e
  {
    match e
    case Lit(_) => true
    case Id(x) => x in P.globals && P.globals[x] == String ==> x in D
    case Assign(_, r) => Ready(P, needs, D, r)
    case PreStep(_, o) => Ready(P, needs, D, o)
    case Unary(_, o) => Ready(P, needs, D, o)
    case Binary(op, l, r) =>
      Ready(P, needs, D, l) && Ready(P, needs, D, r) && (op == Div ==> r.Lit? && SafeDivisor(P, r.v))
    case And(l, r) => Ready(P, needs, D, l) && Ready(P, needs, D, r)
    case Or(l, r) => Ready(P, needs, D, l) && Ready(P, needs, D, r)
    case Call(f, args) =>
      (f.Id? && f.name in P.funcs ==> f.name in needs && needs[f.name] <= D) &&
      forall i :: 0 <= i < |args| ==> Ready(P, needs, D, args[i])
  }

  predicate StmtReady(P: Prog, needs: Needs, D: set<string>, s: Stmt) {
    match s
    case ExprStmt(e) => Ready(P, needs, D, e)
    case VarDef(_, _, init) => init.Some? ==> Ready(P, needs, D, init.value)
    case If(bs, els) =>
      (forall i :: 0 <= i < |bs| ==> Ready(P, needs, D, bs[i].cond) && StmtsReady(P, needs, D, bs[i].body)) &&
      (els.Else? ==> StmtsReady(P, needs, D, els.body))
    case While(c, b) => Ready(P, needs, D, c) && StmtsReady(P, needs, D, b)
    case Return(value) => value.Some? ==> Ready(P, needs, D, value.value)
    case _ => true
  }

  predicate StmtsReady(P: Prog, needs: Needs, D: set<string>, ss: seq<Stmt>) {
    forall i :: 0 <= i < |ss| ==> StmtReady(P, needs, D, ss[i])
  }

  // A function needs what its own statements read and what the functions it calls need.
  ghost predicate FuncsReady(P: Prog, needs: Needs) {
    forall f :: f in P.funcs ==> f in needs && StmtsReady(P, needs, needs[f], P.funcs[f].body)
  }

  function Defines(s: Stmt): set<string> { if s.VarDef? then {s.name} else {} }

  function Defined(ss: seq<Stmt>): set<string> { if ss == [] then {} else Defines(ss[0]) + Defined(ss[1..]) }

  // Top-level statements in order: each may read what those before it have defined.
  predicate TopReady(P: Prog, needs: Needs, D: set<string>, ss: seq<Stmt>)
    decreases |ss|
  {
    ss == [] || (StmtReady(P, needs, D, ss[0]) && TopReady(P, needs, D + Defines(ss[0]), ss[1..]))
  }

  // ----- no such error, and no global is undefined again -----

  predicate Lasting(x: Err) { x != Unset && x != NoQuotient }

  ghost predicate Steady(r: ERes, st: SState) {
    match r case EErr(x) => Lasting(x) case EOk(_, st1) => st.globals.Keys <= st1.globals.Keys
  }

  ghost predicate SteadyArgs(r: ARes, st: SState) {
    match r case AErr(x) => Lasting(x) case AOk(_, st1) => st.globals.Keys <= st1.globals.Keys
  }

  ghost predicate SteadyStmt(r: SRes, st: SState) {
    match r
    case SErr(x) => Lasting(x)
    case _ => st.globals.Keys <= r.st.globals.Keys
  }

  lemma SteadyRead(P: Prog, needs: Needs, D: set<string>, st: SState, x: string)
    requires Ready(P, needs, D, Id(x)) && D <= st.globals.Keys
    ensures ReadVar(P, st, x).None? ==> Lasting(ReadErr(P, st, x))
  {
    hide Find;
  }

  lemma SteadyWrite(P: Prog, st: SState, x: string)
    ensures Lasting(WriteErr(st, x))
    ensures forall raw :: WriteVar(P, st, x, raw).Some? ==>
      st.globals.Keys <= WriteVar(P, st, x, raw).value.globals.Keys
  {
    hide Find;
  }

  lemma SteadyOperate(P: Prog, op: BinOp, v: Value, w: Value, st: SState)
    requires op == Div ==> SafeDivisor(P, w)
    ensures Steady(Operate(P, op, v, w, st), st)
  {
    hide Castable, SupportsBin;
  }

  lemma {:induction false} SteadyExpr(P: Prog, needs: Needs, D: set<string>, fuel: nat, st: SState, e: Expr)
    requires FuncsReady(P, needs) && Ready(P, needs, D, e) && D <= st.globals.Keys
    ensures Steady(EvalExpr(P, fuel, st, e), st)
    decreases fuel, e, 0
  {
    hide ReadVar, WriteVar, VarType, Find, SupportsUn, SupportsStep, ReadErr, WriteErr, Operate, FuncsReady,
      SafeDivisor;
    match e
    case Lit(_) =>
    case Id(x) => SteadyRead(P, needs, D, st, x);
    case Assign(l, r) =>
      if l.Id? && VarType(P, st, l.name).Some? {
        SteadyTo(P, needs, D, fuel, st, r, VarType(P, st, l.name).value);
        var q := EvalTo(P, fuel, st, r, VarType(P, st, l.name).value);
        if q.EOk? {
          SteadyWrite(P, q.st, l.name);
        }
      }
    case PreStep(inc, o) =>
      if o.Id? {
        SteadyRead(P, needs, D, st, o.name);
        SteadyWrite(P, st, o.name);
      }
    case Unary(op, o) => SteadyExpr(P, needs, D, fuel, st, o);
    case Binary(op, l, r) => SteadyBinary(P, needs, D, fuel, st, op, l, r, e);
    case And(l, r) => SteadyLogic(P, needs, D, fuel, st, l, r, e);
    case Or(l, r) => SteadyLogic(P, needs, D, fuel, st, l, r, e);
    case Call(f, args) => SteadyCall(P, needs, D, fuel, st, f, args, e);
  }

  lemma {:induction false} SteadyBinary(P: Prog, needs: Needs, D: set<string>, fuel: nat, st: SState, op: BinOp,
                                        l: Expr, r: Expr, e: Expr)
    requires FuncsReady(P, needs) && Ready(P, needs, D, e) && D <= st.globals.Keys && e == Binary(op, l, r)
    ensures Steady(EvalExpr(P, fuel, st, e), st)
    decreases fuel, e, 0, 0
  {
    hide FuncsReady, Operate, SafeDivisor;
    SteadyExpr(P, needs, D, fuel, st, l);
    var q := EvalExpr(P, fuel, st, l);
    if q.EOk? {
      SteadyExpr(P, needs, D, fuel, q.st, r);
      var p := EvalExpr(P, fuel, q.st, r);
      if p.EOk? && p.val.Some? && q.val.Some? {
        SteadyOperate(P, op, q.val.value, p.val.value, p.st);
      }
    }
  }

  lemma {:induction false} SteadyLogic(P: Prog, needs: Needs, D: set<string>, fuel: nat, st: SState, l: Expr, r: Expr,
                                       e: Expr)
    requires FuncsReady(P, needs) && Ready(P, needs, D, e) && D <= st.globals.Keys && (e == And(l, r) || e == Or(l, r))
    ensures Steady(EvalLogic(P, fuel, st, l, r, e), st)
    decreases fuel, e, 0, 0
  {
    hide EvalExpr, Truth, FuncsReady;
    SteadyExpr(P, needs, D, fuel, st, l);
    var q := EvalExpr(P, fuel, st, l);
    if q.EOk? {
      SteadyExpr(P, needs, D, fuel, q.st, r);
    }
  }

  lemma {:induction false} SteadyTo(P: Prog, needs: Needs, D: set<string>, fuel: nat, st: SState, e: Expr, t: Ty)
    requires FuncsReady(P, needs) && Ready(P, needs, D, e) && D <= st.globals.Keys
    ensures Steady(EvalTo(P, fuel, st, e, t), st)
    decreases fuel, e, 1
  {
    hide EvalExpr, Castable, FuncsReady, Ready;
    SteadyExpr(P, needs, D, fuel, st, e);
  }

  lemma {:induction false} SteadyArgList(P: Prog, needs: Needs, D: set<string>, fuel: nat, st: SState, es: seq<Expr>,
                                         ts: seq<Ty>)
    requires FuncsReady(P, needs) && D <= st.globals.Keys && forall i :: 0 <= i < |es| ==> Ready(P, needs, D, es[i])
    ensures SteadyArgs(EvalArgs(P, fuel, st, es, ts), st)
    decreases fuel, es
  {
    hide EvalTo, FuncsReady, Ready;
    if |es| == |ts| && es != [] {
      var k := |es| - 1;
      SteadyTo(P, needs, D, fuel, st, es[k], ts[k]);
      var q := EvalTo(P, fuel, st, es[k], ts[k]);
      if q.EOk? && q.val.Some? {
        SteadyArgList(P, needs, D, fuel, q.st, es[..k], ts[..k]);
      }
    }
  }

  lemma BodyReady(P: Prog, needs: Needs, f: string)
    requires FuncsReady(P, needs) && f in P.funcs
    ensures f in needs && StmtsReady(P, needs, needs[f], P.funcs[f].body)
  {
  }

  lemma {:induction false} SteadyCall(P: Prog, needs: Needs, D: set<string>, fuel: nat, st: SState, f: Expr,
                                      args: seq<Expr>, e: Expr)
    requires FuncsReady(P, needs) && Ready(P, needs, D, e) && D <= st.globals.Keys && e == Call(f, args)
    ensures Steady(EvalExpr(P, fuel, st, e), st)
    decreases fuel, e, 0, 0
  {
    hide EvalArgs, Find, FuncsReady, RunFunc;
    if f.Id? && f.name in P.natives {
      SteadyArgList(P, needs, D, fuel, st, args, P.natives[f.name].args);
    } else if f.Id? && f.name in P.funcs {
      var ts := ArgTypes(P.funcs[f.name].args);
      SteadyArgList(P, needs, D, fuel, st, args, ts);
      var q := EvalArgs(P, fuel, st, args, ts);
      if q.AOk? && fuel > 0 {
        BodyReady(P, needs, f.name);
        SteadyFunc(P, needs, needs[f.name], fuel - 1, q.st, P.funcs[f.name], q.vals);
      }
    }
  }

  lemma {:induction false} SteadyFunc(P: Prog, needs: Needs, D: set<string>, fuel: nat, st: SState, f: Func,
                                      vs: seq<Value>)
    requires FuncsReady(P, needs) && StmtsReady(P, needs, D, f.body) && D <= st.globals.Keys
    ensures Steady(RunFunc(P, fuel, st, f, vs), st)
    decreases fuel, f
  {
    hide ExecStmts, FuncsReady, StmtsReady;
    if |vs| == |f.args| {
      SteadyStmts(P, needs, D, fuel, Place(false, Some(f.ret)), st.(env := Bind(f.args, vs)), f.body);
    }
  }

  lemma {:induction false} SteadyStmts(P: Prog, needs: Needs, D: set<string>, fuel: nat, pl: Place, st: SState,
                                       ss: seq<Stmt>)
    requires FuncsReady(P, needs) && StmtsReady(P, needs, D, ss) && D <= st.globals.Keys
    ensures SteadyStmt(ExecStmts(P, fuel, pl, st, ss), st)
    decreases fuel, ss, 0
  {
    hide ExecStmt, FuncsReady, StmtReady;
    if ss != [] {
      SteadyStmt1(P, needs, D, fuel, pl, st, ss[0]);
      var r := ExecStmt(P, fuel, pl, st, ss[0]);
      if r.Normal? {
        SteadyStmts(P, needs, D, fuel, pl, r.st, ss[1..]);
      }
    }
  }

  lemma {:induction false} SteadyStmt1(P: Prog, needs: Needs, D: set<string>, fuel: nat, pl: Place, st: SState, s: Stmt)
    requires FuncsReady(P, needs) && StmtReady(P, needs, D, s) && D <= st.globals.Keys
    ensures SteadyStmt(ExecStmt(P, fuel, pl, st, s), st)
    ensures ExecStmt(P, fuel, pl, st, s).Normal? && pl.top ==>
      Defines(s) <= ExecStmt(P, fuel, pl, st, s).st.globals.Keys
    decreases fuel, s, 2
  {
    hide EvalExpr, EvalTo, ExecWhile, ExecBranches, FuncsReady, Ready;
    match s
    case ExprStmt(e) => SteadyExpr(P, needs, D, fuel, st, e);
    case VarDef(t, x, init) =>
      if init.Some? {
        SteadyTo(P, needs, D, fuel, if pl.top then st else st.(env := st.env + [Var(x, t, None)]), init.value, t);
      }
    case If(_, _) => SteadyBranches(P, needs, D, fuel, pl, st, s, 0);
    case While(_, _) => SteadyLoop(P, needs, D, fuel, pl, st, s);
    case Return(value) =>
      if value.Some? && pl.ret.Some? && pl.ret.value.Some? {
        SteadyTo(P, needs, D, fuel, st, value.value, pl.ret.value.value);
      }
    case _ =>
  }

  lemma {:induction false} SteadyBlock(P: Prog, needs: Needs, D: set<string>, fuel: nat, pl: Place, st: SState,
                                       ss: seq<Stmt>)
    requires FuncsReady(P, needs) && StmtsReady(P, needs, D, ss) && D <= st.globals.Keys
    ensures SteadyStmt(ExecBlock(P, fuel, pl, st, ss), st)
    decreases fuel, ss, 1
  {
    hide ExecStmts, FuncsReady, StmtsReady;
    SteadyStmts(P, needs, D, fuel, pl.(top := false), st, ss);
  }

  lemma {:induction false} SteadyBranches(P: Prog, needs: Needs, D: set<string>, fuel: nat, pl: Place, st: SState,
                                          s: Stmt, i: nat)
    requires FuncsReady(P, needs) && s.If? && StmtReady(P, needs, D, s) && i <= |s.branches| && D <= st.globals.Keys
    ensures SteadyStmt(ExecBranches(P, fuel, pl, st, s, i), st)
    decreases fuel, s, 1, |s.branches| - i
  {
    hide EvalExpr, ExecBlock, FuncsReady, Truth, StmtsReady, Ready;
    if i == |s.branches| {
      if s.els.Else? {
        SteadyBlock(P, needs, D, fuel, pl, st, s.els.body);
      }
    } else {
      SteadyExpr(P, needs, D, fuel, st, s.branches[i].cond);
      var r := EvalExpr(P, fuel, st, s.branches[i].cond);
      if r.EOk? {
        SteadyBlock(P, needs, D, fuel, pl, r.st, s.branches[i].body);
        SteadyBranches(P, needs, D, fuel, pl, r.st, s, i + 1);
      }
    }
  }

  lemma {:induction false} SteadyLoop(P: Prog, needs: Needs, D: set<string>, fuel: nat, pl: Place, st: SState, s: Stmt)
    requires FuncsReady(P, needs) && s.While? && StmtReady(P, needs, D, s) && D <= st.globals.Keys
    ensures SteadyStmt(ExecWhile(P, fuel, pl, st, s), st)
    decreases fuel, s, 1
  {
    hide EvalExpr, ExecBlock, FuncsReady, Truth, StmtsReady, Ready;
    if fuel > 0 {
      SteadyExpr(P, needs, D, fuel, st, s.cond);
      var r := EvalExpr(P, fuel, st, s.cond);
      if r.EOk? {
        SteadyBlock(P, needs, D, fuel, pl, r.st, s.body);
        var b := ExecBlock(P, fuel, pl, r.st, s.body);
        if b.Normal? || b.Continued? {
          SteadyLoop(P, needs, D, fuel - 1, pl, b.st, s);
        }
      }
    }
  }

  // Top-level statements define their globals as they go.
  lemma {:induction false} SteadyTop(P: Prog, needs: Needs, D: set<string>, fuel: nat, pl: Place, st: SState,
                                     ss: seq<Stmt>)
    requires FuncsReady(P, needs) && TopReady(P, needs, D, ss) && D <= st.globals.Keys && pl.top
    ensures SteadyStmt(ExecStmts(P, fuel, pl, st, ss), st)
    ensures ExecStmts(P, fuel, pl, st, ss).Normal? ==>
      D + Defined(ss) <= ExecStmts(P, fuel, pl, st, ss).st.globals.Keys
    decreases |ss|
  {
    hide ExecStmt, FuncsReady, StmtReady;
    if ss != [] {
      SteadyStmt1(P, needs, D, fuel, pl, st, ss[0]);
      var r := ExecStmt(P, fuel, pl, st, ss[0]);
      if r.Normal? {
        SteadyTop(P, needs, D + Defines(ss[0]), fuel, pl, r.st, ss[1..]);
      }
    }
  }
}
