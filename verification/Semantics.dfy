/** A reference semantics of the language, by evaluation of the syntax tree: names are looked up in the
    list of live bindings (the latest wins), conversions are decided by the values' own types, and
    nothing in it knows about slots, scopes to destroy, addresses or jumps. The fuel bounds the nesting
    of calls and of loop iterations. */
module Semantics {
  import opened Bytes
  import opened Language

  // A binding whose initializer is still being evaluated has no payload yet.
  datatype Var = Var(name: string, ty: Ty, raw: Option<Raw>)

  datatype SState = SState(env: seq<Var>, globals: map<string, Value>, world: World)

  datatype Prog = Prog(globals: map<string, Ty>, funcs: map<string, Func>, natives: map<string, Sig>, prims: Prims)

  // Why there is no outcome: an ill-typed program; a variable used within its own initializer; a
  // global string read before its definition has been executed; a division without a result; or not
  // enough fuel.
  datatype Err = Wrong | SelfRead | Unset | NoQuotient | Timeout

  // The program is broken off at this point.
  predicate Fatal(x: Err) { x == SelfRead || x == Unset || x == NoQuotient }

  datatype ERes = EOk(val: Option<Value>, st: SState) | EErr(err: Err)
  datatype ARes = AOk(vals: seq<Value>, st: SState) | AErr(err: Err)
  datatype SRes =
    | Normal(st: SState)
    | Broke(st: SState)
    | Continued(st: SState)
    | Returned(val: Option<Value>, st: SState)
    | SErr(err: Err)

  // Where a statement stands: at the top level of the program or not, and the enclosing function's
  // return type if there is one.
  datatype Place = Place(top: bool, ret: Option<Option<Ty>>)

  // The index of the latest binding of x, or -1.
  function Find(env: seq<Var>, x: string): (k: int)
    ensures -1 <= k < |env|
    ensures k >= 0 ==> env[k].name == x
  {
    if env == [] then -1
    else if env[|env| - 1].name == x then |env| - 1
    else Find(env[..|env| - 1], x)
  }

  // Before its definition has been executed, a global has its type's default; only a string has none.
  function ReadVar(P: Prog, st: SState, x: string): Option<Value> {
    var k := Find(st.env, x);
    if k >= 0 then
      if st.env[k].raw.Some? then Some(Val(st.env[k].ty, st.env[k].raw.value)) else None
    else if x in P.globals then
      if x in st.globals then Some(st.globals[x])
      else if P.globals[x] == String then None
      else Some(Default(P.globals[x]))
    else None
  }

  function VarType(P: Prog, st: SState, x: string): Option<Ty> {
    var k := Find(st.env, x);
    if k >= 0 then Some(st.env[k].ty)
    else if x in P.globals then Some(P.globals[x])
    else None
  }

  function WriteVar(P: Prog, st: SState, x: string, raw: Raw): Option<SState> {
    var k := Find(st.env, x);
    if k >= 0 then
      if st.env[k].raw.Some? then Some(st.(env := st.env[k := st.env[k].(raw := Some(raw))])) else None
    else if x in P.globals then Some(st.(globals := st.globals[x := Val(P.globals[x], raw)]))
    else None
  }

  // Not writable: bound without a value yet, or not a variable at all.
  function WriteErr(st: SState, x: string): Err { if Find(st.env, x) >= 0 then SelfRead else Wrong }

  function ReadErr(P: Prog, st: SState, x: string): Err {
    if Find(st.env, x) >= 0 then SelfRead else if x in P.globals then Unset else Wrong
  }

  function Convert(P: Prog, v: Value, t: Ty): Option<Value> {
    if v.ty == t then Some(v)
    else if Castable(v.ty, t) then Some(Val(t, P.prims.cast(v.ty, t, v.raw)))
    else None
  }

  function EvalExpr(P: Prog, fuel: nat, st: SState, e: Expr): ERes
    decreases fuel, e, 0
  {
    match e
    case Lit(v) => EOk(Some(v), st)
    case Id(x) =>
      (match ReadVar(P, st, x)
       case None => EErr(ReadErr(P, st, x))
       case Some(v) => EOk(Some(v), st))
    case Assign(l, r) =>
      if !l.Id? then EErr(Wrong) else
      (match VarType(P, st, l.name)
       case None => EErr(Wrong)
       case Some(t) =>
         match EvalTo(P, fuel, st, r, t)
         case EErr(x) => EErr(x)
         case EOk(v, st1) =>
           if v.None? then EErr(Wrong) else
           match WriteVar(P, st1, l.name, v.value.raw)
           case None => EErr(WriteErr(st1, l.name))
           case Some(st2) => EOk(None, st2))
    case PreStep(inc, o) =>
      if !o.Id? then EErr(Wrong) else
      (match ReadVar(P, st, o.name)
       case None => EErr(ReadErr(P, st, o.name))
       case Some(v) =>
         if !SupportsStep(v.ty) then EErr(Wrong) else
         match WriteVar(P, st, o.name, P.prims.step(inc, v.ty, v.raw))
         case None => EErr(WriteErr(st, o.name))
         case Some(st2) => EOk(None, st2))
    case Unary(op, o) =>
      (match EvalExpr(P, fuel, st, o)
       case EErr(x) => EErr(x)
       case EOk(v, st1) =>
         if v.None? || !SupportsUn(op, v.value.ty) then EErr(Wrong)
         else EOk(Some(Val(v.value.ty, P.prims.un(op, v.value.ty, v.value.raw))), st1))
    case Binary(op, l, r) =>
      (match EvalExpr(P, fuel, st, l)
       case EErr(x) => EErr(x)
       case EOk(v, st1) =>
         match EvalExpr(P, fuel, st1, r)
         case EErr(x) => EErr(x)
         case EOk(w, st2) =>
           if v.None? || w.None? then EErr(Wrong) else Operate(P, op, v.value, w.value, st2))
    case And(l, r) => EvalLogic(P, fuel, st, l, r, e)
    case Or(l, r) => EvalLogic(P, fuel, st, l, r, e)
    case Call(callee, args) =>
      if !callee.Id? || Find(st.env, callee.name) >= 0 || callee.name in P.globals then EErr(Wrong)
      else if callee.name in P.natives then
        match EvalArgs(P, fuel, st, args, P.natives[callee.name].args)
        case AErr(x) => EErr(x)
        case AOk(vs, st1) => RunNative(P, callee.name, P.natives[callee.name].ret, vs, st1)
      else if callee.name in P.funcs then
        match EvalArgs(P, fuel, st, args, ArgTypes(P.funcs[callee.name].args))
        case AErr(x) => EErr(x)
        case AOk(vs, st1) =>
          if fuel == 0 then EErr(Timeout) else RunFunc(P, fuel - 1, st1, P.funcs[callee.name], vs)
      else EErr(Wrong)
  }

  // Both operands converted to the type they meet at, then the operator.
  function Operate(P: Prog, op: BinOp, v: Value, w: Value, st: SState): ERes {
    match Meet(v.ty, w.ty)
    case None => EErr(Wrong)
    case Some(t) =>
      if !SupportsBin(op, t) then EErr(Wrong)
      else Applied(P, op, t, Convert(P, v, t).value.raw, Convert(P, w, t).value.raw, st)
  }

  function Applied(P: Prog, op: BinOp, t: Ty, a: Raw, b: Raw, st: SState): ERes {
    match Apply(P.prims, op, t, a, b)
    case None => EErr(NoQuotient)
    case Some(raw) => EOk(Some(Val(BinType(op, t), raw)), st)
  }

  // The right operand is evaluated only when the left one does not decide.
  function EvalLogic(P: Prog, fuel: nat, st: SState, l: Expr, r: Expr, e: Expr): ERes
    requires e == And(l, r) || e == Or(l, r)
    decreases fuel, e, 0, 0
  {
    match EvalExpr(P, fuel, st, l)
    case EErr(x) => EErr(x)
    case EOk(v, st1) =>
      if v.None? || v.value.ty != Bool then EErr(Wrong)
      else if Truth(v.value.raw) == e.Or? then EOk(v, st1)
      else
        match EvalExpr(P, fuel, st1, r)
        case EErr(x) => EErr(x)
        case EOk(w, st2) =>
          if w.None? || w.value.ty != Bool then EErr(Wrong)
          else EOk(Some(Val(Bool, BoolRaw(Truth(w.value.raw)))), st2)
  }

  // The value of e converted to t.
  function EvalTo(P: Prog, fuel: nat, st: SState, e: Expr, t: Ty): ERes
    decreases fuel, e, 1
  {
    match EvalExpr(P, fuel, st, e)
    case EErr(x) => EErr(x)
    case EOk(v, st1) =>
      if v.None? then EErr(Wrong) else
      match Convert(P, v.value, t)
      case None => EErr(Wrong)
      case Some(w) => EOk(Some(w), st1)
  }

  // Arguments are evaluated from the last to the first and delivered in parameter order.
  function EvalArgs(P: Prog, fuel: nat, st: SState, es: seq<Expr>, ts: seq<Ty>): (r: ARes)
    ensures r.AOk? ==> |r.vals| == |es|
    decreases fuel, es
  {
    if |es| != |ts| then AErr(Wrong)
    else if es == [] then AOk([], st)
    else
      var k := |es| - 1;
      match EvalTo(P, fuel, st, es[k], ts[k])
      case EErr(x) => AErr(x)
      case EOk(v, st1) =>
        if v.None? then AErr(Wrong) else
        match EvalArgs(P, fuel, st1, es[..k], ts[..k])
        case AErr(x) => AErr(x)
        case AOk(vs, st2) => AOk(vs + [v.value], st2)
  }

  function RunNative(P: Prog, f: string, ret: Option<Ty>, vs: seq<Value>, st: SState): ERes {
    var (raw, w) := P.prims.native(f, vs, st.world);
    EOk(if ret.None? then None else Some(Val(ret.value, raw)), st.(world := w))
  }

  function Bind(args: seq<Arg>, vs: seq<Value>): seq<Var>
    requires |args| == |vs|
  {
    seq(|args|, i requires 0 <= i < |args| => Var(args[i].name, args[i].ty, Some(vs[i].raw)))
  }

  function RunFunc(P: Prog, fuel: nat, st: SState, f: Func, vs: seq<Value>): ERes
    decreases fuel, f
  {
    if |vs| != |f.args| then EErr(Wrong) else
    match ExecStmts(P, fuel, Place(false, Some(f.ret)), st.(env := Bind(f.args, vs)), f.body)
    case Normal(st1) => if f.ret.None? then EOk(None, st1.(env := st.env)) else EErr(Wrong)
    case Returned(v, st1) => EOk(v, st1.(env := st.env))
    case Broke(_) => EErr(Wrong)
    case Continued(_) => EErr(Wrong)
    case SErr(x) => EErr(x)
  }

  function ExecStmts(P: Prog, fuel: nat, pl: Place, st: SState, ss: seq<Stmt>): SRes
    decreases fuel, ss, 0
  {
    if ss == [] then Normal(st)
    else
      match ExecStmt(P, fuel, pl, st, ss[0])
      case Normal(st1) => ExecStmts(P, fuel, pl, st1, ss[1..])
      case Broke(st1) => Broke(st1)
      case Continued(st1) => Continued(st1)
      case Returned(v, st1) => Returned(v, st1)
      case SErr(x) => SErr(x)
  }

  // A block's own bindings die with it.
  function Leave(r: SRes, depth: nat): SRes {
    match r
    case Normal(st) => if depth <= |st.env| then Normal(st.(env := st.env[..depth])) else SErr(Wrong)
    case Broke(st) => if depth <= |st.env| then Broke(st.(env := st.env[..depth])) else SErr(Wrong)
    case Continued(st) => if depth <= |st.env| then Continued(st.(env := st.env[..depth])) else SErr(Wrong)
    case _ => r
  }

  function ExecStmt(P: Prog, fuel: nat, pl: Place, st: SState, s: Stmt): SRes
    decreases fuel, s, 2
  {
    match s
    case ExprStmt(e) =>
      (match EvalExpr(P, fuel, st, e)
       case EErr(x) => SErr(x)
       case EOk(_, st1) => Normal(st1))
    case VarDef(t, x, init) =>
      if pl.top then
        (match init
         case None => DefineGlobal(st, x, Default(t))
         case Some(e) =>
           match EvalTo(P, fuel, st, e, t)
           case EErr(x) => SErr(x)
           case EOk(v, st1) => if v.None? then SErr(Wrong) else DefineGlobal(st1, x, v.value))
      else
        (match init
         case None => Normal(st.(env := st.env + [Var(x, t, Some(Default(t).raw))]))
         case Some(e) =>
           // the new name is visible, but has no value, while its initializer is evaluated
           match EvalTo(P, fuel, st.(env := st.env + [Var(x, t, None)]), e, t)
           case EErr(x) => SErr(x)
           case EOk(v, st1) =>
             if v.None? || st1.env == [] then SErr(Wrong)
             else Normal(st1.(env := st1.env[..|st1.env| - 1] + [Var(x, t, Some(v.value.raw))])))
    case If(bs, els) => ExecBranches(P, fuel, pl, st, s, 0)
    case While(c, b) => ExecWhile(P, fuel, pl, st, s)
    case Break => Broke(st)
    case Continue => Continued(st)
    case Return(value) =>
      if pl.ret.None? then SErr(Wrong) else
      match value
      case None => if pl.ret.value.None? then Returned(None, st) else SErr(Wrong)
      case Some(e) =>
        if pl.ret.value.None? then SErr(Wrong) else
        match EvalTo(P, fuel, st, e, pl.ret.value.value)
        case EErr(x) => SErr(x)
        case EOk(v, st1) => Returned(v, st1)
  }

  function DefineGlobal(st: SState, x: string, v: Value): SRes {
    Normal(st.(globals := st.globals[x := v]))
  }

  function ExecBlock(P: Prog, fuel: nat, pl: Place, st: SState, ss: seq<Stmt>): SRes
    decreases fuel, ss, 1
  {
    Leave(ExecStmts(P, fuel, pl.(top := false), st, ss), |st.env|)
  }

  // The branches of s from the i-th on, then its else body.
  function ExecBranches(P: Prog, fuel: nat, pl: Place, st: SState, s: Stmt, i: nat): SRes
    requires s.If? && i <= |s.branches|
    decreases fuel, s, 1, |s.branches| - i
  {
    if i == |s.branches| then
      match s.els
      case NoElse => Normal(st)
      case Else(ss) => ExecBlock(P, fuel, pl, st, ss)
    else
      match EvalExpr(P, fuel, st, s.branches[i].cond)
      case EErr(x) => SErr(x)
      case EOk(v, st1) =>
        if v.None? || v.value.ty != Bool then SErr(Wrong)
        else if Truth(v.value.raw) then ExecBlock(P, fuel, pl, st1, s.branches[i].body)
        else ExecBranches(P, fuel, pl, st1, s, i + 1)
  }

  function ExecWhile(P: Prog, fuel: nat, pl: Place, st: SState, s: Stmt): SRes
    requires s.While?
    decreases fuel, s, 1
  {
    if fuel == 0 then SErr(Timeout) else
    match EvalExpr(P, fuel, st, s.cond)
    case EErr(x) => SErr(x)
    case EOk(v, st1) =>
      if v.None? || v.value.ty != Bool then SErr(Wrong)
      else if !Truth(v.value.raw) then Normal(st1)
      else
        match ExecBlock(P, fuel, pl, st1, s.body)
        case Normal(st2) => ExecWhile(P, fuel - 1, pl, st2, s)
        case Continued(st2) => ExecWhile(P, fuel - 1, pl, st2, s)
        case Broke(st2) => Normal(st2)
        case Returned(v2, st2) => Returned(v2, st2)
        case SErr(x) => SErr(x)
  }
}
