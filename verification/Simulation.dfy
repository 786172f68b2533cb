/** The generated code, run by the machine, does what the reference semantics says: it arrives with the
    same values, it keeps running as long as the source program does, and it is stuck exactly where the
    source program is broken off. */
module Simulation {
  import opened Bytes
  import opened Language
  import opened Semantics
  import opened Analysis
  import opened Commands
  import opened Codegen
  import opened CodeShape
  import opened Machine
  import opened Relation
  import opened Variables
  import opened Steps
  import opened Assigning
  import opened Scoping

  function Items(v: Option<Value>): seq<Item> { if v.None? then [] else [V(v.value)] }

  predicate Typed(v: Option<Value>, ty: ETy) {
    match ty
    case Void => v.None?
    case Prim(t) => v.Some? && v.value.ty == t
    case FuncT(_) => false
  }

  // No outcome: never because the program is ill-typed; the machine is stuck where the program is
  // broken off; or it keeps running for fuel steps at least.
  ghost predicate Failed(K: Setup, x: Err, fuel: nat, m: MState, n: nat) {
    if Fatal(x) then Stuck(K.img, n, m) else x == Timeout && n >= fuel && Run(K.img, n, m).Some?
  }

  lemma RunOut(K: Setup, m: MState, n: nat, m1: MState)
    requires Run(K.img, n, m) == Some(m1)
    ensures Failed(K, Timeout, 0, m, n)
  {
    hide Run;
  }

  lemma StuckFails(K: Setup, fuel: nat, m: MState, n: nat)
    ensures Stuck(K.img, n, m) ==> forall x :: Fatal(x) ==> Failed(K, x, fuel, m, n)
  {
  }

  lemma FailedLater(K: Setup, fuel: nat, m: MState, n1: nat, m1: MState, n2: nat)
    requires Run(K.img, n1, m) == Some(m1)
    ensures forall x :: Failed(K, x, fuel, m1, n2) ==> Failed(K, x, fuel + (if n1 > 0 then 1 else 0), m, n1 + n2)
    ensures forall x :: Failed(K, x, fuel, m1, n2) ==> Failed(K, x, fuel, m, n1 + n2)
  {
    hide Run, Step;
    Chain(K.img, n1, m, m1, n2);
  }

  // The outcome r of a piece of source and of running its code for n steps from m, to m1: the value on
  // top of ops, at address end, in a corresponding state; or stuck; or running for fuel steps at least.
  ghost predicate Done(K: Setup, cx: Ctx, r: ERes, ty: ETy, end: nat, ops: seq<Item>, fuel: nat, live: nat,
                       base: seq<Value>, frames: seq<Frame>, m: MState, n: nat, m1: MState)
  {
    match r
    case EOk(v, st1) =>
      (Run(K.img, n, m) == Some(m1) && m1.pc == end && m1.operands == ops + Items(v) &&
       m1.frames == frames && Rel(K, cx, st1, base, m1) && LiveLen(st1.env) == live && Typed(v, ty))
    case EErr(x) => Failed(K, x, fuel, m, n)
  }

  ghost predicate ExprDone(K: Setup, cx: Ctx, r: ERes, ty: ETy, size: nat, fuel: nat, st: SState,
                           base: seq<Value>, m: MState, n: nat, m1: MState)
  {
    Done(K, cx, r, ty, m.pc + size, m.operands, fuel, LiveLen(st.env), base, m.frames, m, n, m1)
  }

  lemma Prefix(K: Setup, cx: Ctx, r: ERes, ty: ETy, end: nat, ops: seq<Item>, fuel: nat, live: nat,
               base: seq<Value>, frames: seq<Frame>, m: MState, n1: nat, m1: MState, n2: nat, m2: MState)
    requires Run(K.img, n1, m) == Some(m1)
    requires Done(K, cx, r, ty, end, ops, fuel, live, base, frames, m1, n2, m2)
    ensures Done(K, cx, r, ty, end, ops, fuel, live, base, frames, m, n1 + n2, m2)
  {
    hide Run, Rel;
    Chain(K.img, n1, m, m1, n2);
  }

  // Code that has come to m1, and one more step from there that leaves a value on top.
  lemma OneMore(K: Setup, cx: Ctx, st1: SState, v: Value, end: nat, ops: seq<Item>, fuel: nat, live: nat,
                base: seq<Value>, frames: seq<Frame>, m: MState, n: nat, m1: MState, m2: MState)
    requires Run(K.img, n, m) == Some(m1) && Run(K.img, 1, m1) == Some(m2)
    requires Rel(K, cx, st1, base, m1) && LiveLen(st1.env) == live && m1.frames == frames
    requires m2 == m1.(pc := end, operands := ops + [V(v)])
    ensures Done(K, cx, EOk(Some(v), st1), Prim(v.ty), end, ops, fuel, live, base, frames, m, n + 1, m2)
  {
    hide Run, Rel, LiveLen;
    Chain(K.img, n, m, m1, 1);
    RelOperands(K, cx, st1, base, m1, m2);
  }

  // A failure is the outcome of any code that starts the same way.
  lemma FailDone(K: Setup, cx: Ctx, r: ERes, ty: ETy, size: nat, fuel: nat, st: SState, base: seq<Value>, m: MState,
                 n: nat, m1: MState, ty2: ETy, end: nat, ops: seq<Item>, live: nat, frames: seq<Frame>)
    requires ExprDone(K, cx, r, ty, size, fuel, st, base, m, n, m1) && r.EErr?
    ensures Done(K, cx, r, ty2, end, ops, fuel, live, base, frames, m, n, m1)
  {
    hide Run, Rel, LiveLen, Failed;
  }

  lemma AsExpr(K: Setup, cx: Ctx, r: ERes, ty: ETy, size: nat, fuel: nat, st: SState, base: seq<Value>, m: MState,
               n: nat, m1: MState)
    requires Done(K, cx, r, ty, m.pc + size, m.operands, fuel, LiveLen(st.env), base, m.frames, m, n, m1)
    ensures ExprDone(K, cx, r, ty, size, fuel, st, base, m, n, m1)
  {
    hide Done, LiveLen;
  }

  lemma PastIs(m: MState, c: Cmd)
    ensures Past(m, c) == m.(pc := m.pc + CmdSize(c))
  {
    hide CmdSize;
  }

  // The code of cs follows at m.
  ghost predicate Ahead(K: Setup, m: MState, cs: seq<Cmd>, cont: int, brk: int, inFunc: bool) {
    Framed(m, inFunc) && At(K, m.pc, cs, cont, brk, inFunc)
  }

  lemma AheadSplit(K: Setup, m: MState, a: seq<Cmd>, b: seq<Cmd>, cont: int, brk: int, inFunc: bool)
    requires Ahead(K, m, a + b, cont, brk, inFunc)
    ensures Ahead(K, m, a, cont, brk, inFunc)
    ensures Size(a + b) == Size(a) + Size(b)
    ensures forall s: MState :: s.pc == m.pc + Size(a) && s.frames == m.frames ==> Ahead(K, s, b, cont, brk, inFunc)
  {
    hide At, Size;
    AtSplit(K, m.pc, a, b, cont, brk, inFunc);
    SizeAppend(a, b);
  }

  lemma AheadOne(K: Setup, m: MState, c: Cmd, cont: int, brk: int, inFunc: bool)
    requires Ahead(K, m, [c], cont, brk, inFunc)
    ensures Next(K, m, c, cont, brk, inFunc)
    ensures Size([c]) == CmdSize(c)
  {
    hide At, CmdSize;
  }

  lemma SimExpr(K: Setup, cx: Ctx, fuel: nat, e: Expr, te: TExpr, st: SState, base: seq<Value>, m: MState,
                cont: int, brk: int, inFunc: bool) returns (n: nat, m1: MState)
    requires Linked(K) && Rel(K, cx, st, base, m)
    requires AnalyzeExpr(cx, e, false) == Some(te) && !te.ty.FuncT?
    requires Ahead(K, m, GenExpr(te), cont, brk, inFunc)
    ensures ExprDone(K, cx, EvalExpr(K.P, fuel, st, e), te.ty, Size(GenExpr(te)), fuel, st, base, m, n, m1)
    decreases fuel, e, 0
  {
    hide Rel, Linked, Ahead, Run, Size, GenExpr;
    match e
    case Lit(v) =>
      GenFresh(te);
      AheadOne(K, m, LoadValue(v), cont, brk, inFunc);
      StepValue(K, m, v, cont, brk, inFunc);
      n, m1 := 1, PushItem(Past(m, LoadValue(v)), V(v));
      RelOperands(K, cx, st, base, m, m1);
    case Id(x) =>
      n, m1 := SimId(K, cx, fuel, x, te, st, base, m, cont, brk, inFunc);
    case Unary(op, o) =>
      n, m1 := SimUnary(K, cx, fuel, e, te, st, base, m, cont, brk, inFunc);
    case Binary(op, l, r) =>
      n, m1 := SimBinary(K, cx, fuel, e, te, st, base, m, cont, brk, inFunc);
    case Assign(l, r) =>
      n, m1 := SimAssign(K, cx, fuel, e, te, st, base, m, cont, brk, inFunc);
    case PreStep(inc, o) =>
      n, m1 := SimPreStep(K, cx, fuel, e, te, st, base, m, cont, brk, inFunc);
    case And(l, r) =>
      n, m1 := SimLogic(K, cx, fuel, e, te, st, base, m, cont, brk, inFunc);
    case Or(l, r) =>
      n, m1 := SimLogic(K, cx, fuel, e, te, st, base, m, cont, brk, inFunc);
    case Call(_, _) =>
      n, m1 := SimCall(K, cx, fuel, e, te, st, base, m, cont, brk, inFunc);
  }

  lemma SimId(K: Setup, cx: Ctx, fuel: nat, x: string, te: TExpr, st: SState, base: seq<Value>, m: MState,
              cont: int, brk: int, inFunc: bool) returns (n: nat, m1: MState)
    requires Linked(K) && Rel(K, cx, st, base, m)
    requires AnalyzeId(cx, x, false) == Some(te) && te.ty.Prim?
    requires Ahead(K, m, GenExpr(te), cont, brk, inFunc)
    ensures ExprDone(K, cx, EvalExpr(K.P, fuel, st, Id(x)), te.ty, Size(GenExpr(te)), fuel, st, base, m, n, m1)
  {
    hide Rel, Linked, Run, Size, GenExpr, Ahead, ReadVar, CmdSize, Resolve;
    GenFresh(te);
    var c := GenExpr(te)[0];
    assert GenExpr(te) == [c];
    AheadOne(K, m, c, cont, brk, inFunc);
    StepRead(K, cx, x, te, st, base, m, cont, brk, inFunc);
    BoundId(K, cx, x, false, te, st, base, m);
    n, m1 := 0, m;
    if ReadVar(K.P, st, x).Some? {
      n, m1 := 1, PushItem(Past(m, c), V(ReadVar(K.P, st, x).value));
      RelOperands(K, cx, st, base, m, m1);
    }
  }

  // An identifier that the analyzer accepts as a variable is one.
  lemma BoundId(K: Setup, cx: Ctx, x: string, assignee: bool, te: TExpr, st: SState, base: seq<Value>, m: MState)
    requires Linked(K) && Rel(K, cx, st, base, m)
    requires AnalyzeId(cx, x, assignee) == Some(te) && te.ty.Prim?
    ensures ReadVar(K.P, st, x).None? ==> Fatal(ReadErr(K.P, st, x))
    ensures WriteErr(st, x) == SelfRead || forall raw :: WriteVar(K.P, st, x, raw).Some?
  {
    hide EnvMatch, GlobalsMatch, NativesLinked, FuncsLinked, Vals, Extent, Resolve, Find;
    IdAgrees(K, cx, st, base, m, x);
  }

  lemma ToAnalysis(cx: Ctx, e: Expr, t: Ty, te: TExpr)
    requires AnalyzeTo(cx, e, t, false) == Some(te)
    ensures AnalyzeExpr(cx, e, false).Some? && FinalTy(te) == Some(t)
    ensures var te0 := AnalyzeExpr(cx, e, false).value;
      te0.ty.Prim? &&
      if te0.ty.t == t then te == te0
      else Castable(te0.ty.t, t) && GenExpr(te) == GenExpr(te0) + [Cast(te0.ty.t, t)]
  {
    hide GenExpr, AnalyzeExpr;
    var te0 := AnalyzeExpr(cx, e, false).value;
    if te0.ty.t != t {
      GenCast(te0, t);
    }
  }

  // An expression and the conversion its parent asks for.
  lemma SimTo(K: Setup, cx: Ctx, fuel: nat, e: Expr, t: Ty, te: TExpr, st: SState, base: seq<Value>, m: MState,
              cont: int, brk: int, inFunc: bool) returns (n: nat, m1: MState)
    requires Linked(K) && Rel(K, cx, st, base, m)
    requires AnalyzeTo(cx, e, t, false) == Some(te)
    requires Ahead(K, m, GenExpr(te), cont, brk, inFunc)
    ensures ExprDone(K, cx, EvalTo(K.P, fuel, st, e, t), Prim(t), Size(GenExpr(te)), fuel, st, base, m, n, m1)
    ensures FinalTy(te) == Some(t)
    ensures var te0 := AnalyzeExpr(cx, e, false).value;
      te0.ty.Prim? && (EvalExpr(K.P, fuel, st, e).EOk? ==> Typed(EvalExpr(K.P, fuel, st, e).val, te0.ty))
    decreases fuel, e, 1
  {
    hide Rel, Linked, Run, Size, GenExpr, Ahead, EvalExpr, AnalyzeExpr, Castable, LiveLen, Failed, AnalyzeTo, FinalTy,
      EvalTo;
    ToAnalysis(cx, e, t, te);
    var te0 := AnalyzeExpr(cx, e, false).value;
    var r := EvalExpr(K.P, fuel, st, e);
    EvalConverts(K.P, fuel, st, e, te0.ty.t, t);
    if te0.ty.t == t {
      n, m1 := SimExpr(K, cx, fuel, e, te0, st, base, m, cont, brk, inFunc);
    } else {
      AheadSplit(K, m, GenExpr(te0), [Cast(te0.ty.t, t)], cont, brk, inFunc);
      n, m1 := SimExpr(K, cx, fuel, e, te0, st, base, m, cont, brk, inFunc);
      n, m1 := SimCast(K, cx, r, te0.ty.t, t, m.pc + Size(GenExpr(te0)), m.operands, fuel, LiveLen(st.env), base,
        m.frames, m, n, m1, cont, brk, inFunc);
    }
  }

  // An expression's outcome converted from type s to type t.
  function Converted(P: Prog, r: ERes, s: Ty, t: Ty): ERes {
    if r.EOk? && r.val.Some? && s != t then EOk(Some(Val(t, P.prims.cast(s, t, r.val.value.raw))), r.st) else r
  }

  lemma EvalConverts(P: Prog, fuel: nat, st: SState, e: Expr, s: Ty, t: Ty)
    requires s == t || Castable(s, t)
    ensures var r := EvalExpr(P, fuel, st, e);
      (r.EOk? ==> Typed(r.val, Prim(s))) ==> EvalTo(P, fuel, st, e, t) == Converted(P, r, s, t)
  {
    hide EvalExpr, Castable;
  }

  // A cast behind an expression's code.
  lemma SimCast(K: Setup, cx: Ctx, r: ERes, s: Ty, t: Ty, end: nat, ops: seq<Item>, fuel: nat, live: nat,
                base: seq<Value>, frames: seq<Frame>, m: MState, n: nat, m1: MState, cont: int, brk: int, inFunc: bool)
      returns (n2: nat, m2: MState)
    requires Linked(K) && s != t && Done(K, cx, r, Prim(s), end, ops, fuel, live, base, frames, m, n, m1)
    requires forall m: MState :: m.pc == end && m.frames == frames ==> Ahead(K, m, [Cast(s, t)], cont, brk, inFunc)
    ensures Done(K, cx, Converted(K.P, r, s, t), Prim(t), end + Size([Cast(s, t)]), ops, fuel, live, base, frames, m,
      n2, m2)
  {
    hide Rel, Linked, Run, Ahead, Size, Failed;
    n2, m2 := n, m1;
    if r.EOk? {
      var c := Cast(s, t);
      AheadOne(K, m1, c, cont, brk, inFunc);
      StepCast(K, m1, ops, r.val.value, t, cont, brk, inFunc);
      PrimsAgree(K);
      Chain(K.img, n, m, m1, 1);
      n2, m2 := n + 1, Past(m1, c).(operands := ops + [V(Val(t, K.img.prims.cast(s, t, r.val.value.raw)))]);
      RelOperands(K, cx, r.st, base, m1, m2);
    }
  }

  lemma PrimsAgree(K: Setup)
    requires Linked(K)
    ensures K.img.prims == K.P.prims
  {
    hide GlobalsLinked, NativesLinked, FuncsLinked;
  }

  lemma UnaryPlan(cx: Ctx, e: Expr, te: TExpr)
    requires e.Unary? && AnalyzeExpr(cx, e, false) == Some(te)
    ensures te.node.TUnary? && te.node.operand.ty.Prim? && te.ty == te.node.operand.ty
    ensures AnalyzeExpr(cx, e.operand, false) == Some(te.node.operand) && SupportsUn(e.uop, te.ty.t)
    ensures GenExpr(te) == GenExpr(te.node.operand) + [UnCmd(e.uop, te.ty.t)]
  {
    hide GenExpr, SupportsUn;
    GenFresh(te);
  }

  lemma UnaryByParts(P: Prog, fuel: nat, st: SState, e: Expr, t: Ty)
    requires e.Unary? && SupportsUn(e.uop, t)
    requires var r := EvalExpr(P, fuel, st, e.operand); r.EOk? ==> r.val.Some? && r.val.value.ty == t
    ensures var r := EvalExpr(P, fuel, st, e.operand);
      EvalExpr(P, fuel, st, e) ==
        if r.EErr? then r else EOk(Some(Val(t, P.prims.un(e.uop, t, r.val.value.raw))), r.st)
  {
    hide SupportsUn;
  }

  lemma SimUnary(K: Setup, cx: Ctx, fuel: nat, e: Expr, te: TExpr, st: SState, base: seq<Value>, m: MState,
                 cont: int, brk: int, inFunc: bool) returns (n: nat, m1: MState)
    requires Linked(K) && Rel(K, cx, st, base, m)
    requires e.Unary? && AnalyzeExpr(cx, e, false) == Some(te)
    requires Ahead(K, m, GenExpr(te), cont, brk, inFunc)
    ensures ExprDone(K, cx, EvalExpr(K.P, fuel, st, e), te.ty, Size(GenExpr(te)), fuel, st, base, m, n, m1)
    decreases fuel, e, 0, 0
  {
    hide *;
    UnaryPlan(cx, e, te);
    var to, t := te.node.operand, te.ty.t;
    var c, size := UnCmd(e.uop, t), Size(GenExpr(to));
    AheadSplit(K, m, GenExpr(to), [c], cont, brk, inFunc);
    n, m1 := SimExpr(K, cx, fuel, e.operand, to, st, base, m, cont, brk, inFunc);
    var r := EvalExpr(K.P, fuel, st, e.operand);
    if r.EOk? {
      DoneValue(K, cx, r, t, size, fuel, st, base, m, n, m1);
      UnaryByParts(K.P, fuel, st, e, t);
      AheadOne(K, m1, c, cont, brk, inFunc);
      StepUnary(K, m1, m.operands, e.uop, r.val.value, cont, brk, inFunc);
      PrimsAgree(K);
      PastIs(m1, c);
      var v := Val(t, K.P.prims.un(e.uop, t, r.val.value.raw));
      var m2 := m1.(pc := m1.pc + Size([c]), operands := m.operands + [V(v)]);
      OneMore(K, cx, r.st, v, m2.pc, m.operands, fuel, LiveLen(st.env), base, m.frames, m, n, m1, m2);
      n, m1 := n + 1, m2;
    } else {
      UnaryByParts(K.P, fuel, st, e, t);
      FailDone(K, cx, r, te.ty, size, fuel, st, base, m, n, m1, te.ty, m.pc + Size(GenExpr(te)), m.operands,
        LiveLen(st.env), m.frames);
    }
    AsExpr(K, cx, EvalExpr(K.P, fuel, st, e), te.ty, Size(GenExpr(te)), fuel, st, base, m, n, m1);
  }

  // What a binary expression yields once its left operand is evaluated.
  function Combined(P: Prog, fuel: nat, e: Expr, t: Ty, left: ERes): ERes
    requires e.Binary?
  {
    match left
    case EErr(x) => EErr(x)
    case EOk(v, st1) =>
      if v.None? then EErr(Wrong) else Operated(P, e.bop, t, v.value, EvalTo(P, fuel, st1, e.right, t))
  }

  // A binary expression, given its operands' types: both operands converted, then the operator.
  lemma BinaryByParts(P: Prog, fuel: nat, st: SState, e: Expr, a: Ty, b: Ty, t: Ty)
    requires e.Binary? && Meet(a, b) == Some(t) && SupportsBin(e.bop, t)
    requires EvalExpr(P, fuel, st, e.left).EOk? ==> Typed(EvalExpr(P, fuel, st, e.left).val, Prim(a))
    requires EvalTo(P, fuel, st, e.left, t).EOk? ==>
      var st1 := EvalTo(P, fuel, st, e.left, t).st;
      EvalExpr(P, fuel, st1, e.right).EOk? ==> Typed(EvalExpr(P, fuel, st1, e.right).val, Prim(b))
    ensures EvalExpr(P, fuel, st, e) == Combined(P, fuel, e, t, EvalTo(P, fuel, st, e.left, t))
  {
    hide SupportsBin, BinType;
    MeetCoerces(a, b);
    hide Castable;
  }

  lemma SimBinary(K: Setup, cx: Ctx, fuel: nat, e: Expr, te: TExpr, st: SState, base: seq<Value>, m: MState,
                  cont: int, brk: int, inFunc: bool) returns (n: nat, m1: MState)
    requires Linked(K) && Rel(K, cx, st, base, m)
    requires e.Binary? && AnalyzeExpr(cx, e, false) == Some(te)
    requires Ahead(K, m, GenExpr(te), cont, brk, inFunc)
    ensures ExprDone(K, cx, EvalExpr(K.P, fuel, st, e), te.ty, Size(GenExpr(te)), fuel, st, base, m, n, m1)
    decreases fuel, e, 0, 0
  {
    hide Rel, Linked, Run, Size, GenExpr, Ahead, CmdSize, EvalExpr, EvalTo, Failed, LiveLen;
    BinaryAnalysis(cx, e, te);
    var tl, tr, t := te.node.left, te.node.right, FinalTy(te.node.left).value;
    var a, b := AnalyzeExpr(cx, e.left, false).value.ty.t, AnalyzeExpr(cx, e.right, false).value.ty.t;
    hide AnalyzeExpr, AnalyzeTo, Meet;
    GenFresh(te);
    AheadSplit(K, m, GenExpr(tl), GenExpr(tr) + [BinCmd(e.bop, t)], cont, brk, inFunc);
    n, m1 := SimTo(K, cx, fuel, e.left, t, tl, st, base, m, cont, brk, inFunc);
    var r1 := EvalTo(K.P, fuel, st, e.left, t);
    if r1.EOk? {
      var n2, m2 := SimRight(K, cx, fuel, e, t, tr, r1.val.value, m.operands, r1.st, base, m1, cont, brk, inFunc);
      BinaryByParts(K.P, fuel, st, e, a, b, t);
      Prefix(K, cx, EvalExpr(K.P, fuel, st, e), te.ty, m.pc + Size(GenExpr(te)), m.operands, fuel, LiveLen(st.env),
        base, m.frames, m, n, m1, n2, m2);
      n, m1 := n + n2, m2;
    } else {
      BinaryByParts(K.P, fuel, st, e, a, b, t);
    }
  }

  lemma OperatedIs(P: Prog, op: BinOp, t: Ty, v: Value, r: ERes)
    ensures r.EErr? ==> Operated(P, op, t, v, r) == r
    ensures r.EOk? && r.val.Some? ==> Operated(P, op, t, v, r) == Applied(P, op, t, v.raw, r.val.value.raw, r.st)
  {
    hide Applied;
  }

  // The right operand and the operator, with the left operand's value v on the stack.
  lemma SimRight(K: Setup, cx: Ctx, fuel: nat, e: Expr, t: Ty, tr: TExpr, v: Value, ops: seq<Item>, st: SState,
                 base: seq<Value>, m: MState, cont: int, brk: int, inFunc: bool) returns (n: nat, m1: MState)
    requires Linked(K) && Rel(K, cx, st, base, m)
    requires e.Binary? && AnalyzeTo(cx, e.right, t, false) == Some(tr)
    requires v.ty == t && m.operands == ops + [V(v)]
    requires Ahead(K, m, GenExpr(tr) + [BinCmd(e.bop, t)], cont, brk, inFunc)
    ensures AnalyzeExpr(cx, e.right, false).Some? && AnalyzeExpr(cx, e.right, false).value.ty.Prim?
    ensures EvalExpr(K.P, fuel, st, e.right).EOk? ==>
      Typed(EvalExpr(K.P, fuel, st, e.right).val, AnalyzeExpr(cx, e.right, false).value.ty)
    ensures Done(K, cx, Operated(K.P, e.bop, t, v, EvalTo(K.P, fuel, st, e.right, t)), Prim(BinType(e.bop, t)),
      m.pc + Size(GenExpr(tr) + [BinCmd(e.bop, t)]), ops, fuel, LiveLen(st.env), base, m.frames, m, n, m1)
    decreases fuel, e.right, 2
  {
    hide *;
    var c, size := BinCmd(e.bop, t), Size(GenExpr(tr));
    ToAnalysis(cx, e.right, t, tr);
    AheadSplit(K, m, GenExpr(tr), [c], cont, brk, inFunc);
    n, m1 := SimTo(K, cx, fuel, e.right, t, tr, st, base, m, cont, brk, inFunc);
    var r2 := EvalTo(K.P, fuel, st, e.right, t);
    OperatedIs(K.P, e.bop, t, v, r2);
    if r2.EOk? {
      DoneValue(K, cx, r2, t, size, fuel, st, base, m, n, m1);
      var raw := r2.val.value.raw;
      var n2, m2 := SimOperator(K, cx, e.bop, t, v, raw, ops, fuel, r2.st, base, m1, cont, brk, inFunc);
      Prefix(K, cx, Applied(K.P, e.bop, t, v.raw, raw, r2.st), Prim(BinType(e.bop, t)), m1.pc + Size([c]),
        ops, fuel, LiveLen(r2.st.env), base, m1.frames, m, n, m1, n2, m2);
      n, m1 := n + n2, m2;
    } else {
      FailDone(K, cx, r2, Prim(t), size, fuel, st, base, m, n, m1, Prim(BinType(e.bop, t)),
        m.pc + Size(GenExpr(tr) + [c]), ops, LiveLen(st.env), m.frames);
    }
  }

  // The operator over two values on the stack.
  lemma SimOperator(K: Setup, cx: Ctx, op: BinOp, t: Ty, v: Value, raw: Raw, ops: seq<Item>, fuel: nat, st: SState,
                    base: seq<Value>, m: MState, cont: int, brk: int, inFunc: bool) returns (n: nat, m1: MState)
    requires Linked(K) && Rel(K, cx, st, base, m)
    requires v.ty == t && m.operands == ops + [V(v)] + [V(Val(t, raw))]
    requires Ahead(K, m, [BinCmd(op, t)], cont, brk, inFunc)
    ensures Done(K, cx, Applied(K.P, op, t, v.raw, raw, st), Prim(BinType(op, t)), m.pc + Size([BinCmd(op, t)]), ops,
      fuel, LiveLen(st.env), base, m.frames, m, n, m1)
  {
    hide Rel, Linked, Run, Ahead, Size, Apply, Stuck, LiveLen, CmdSize;
    var c := BinCmd(op, t);
    AheadOne(K, m, c, cont, brk, inFunc);
    StepBinary(K, m, ops, op, v, Val(t, raw), cont, brk, inFunc);
    PrimsAgree(K);
    var u := Apply(K.P.prims, op, t, v.raw, raw);
    if u.None? {
      n, m1 := 0, m;
    } else {
      n, m1 := 1, Past(m, c).(operands := ops + [V(Val(BinType(op, t), u.value))]);
      RelOperands(K, cx, st, base, m, m1);
    }
  }

  // The operator applied to a left value and the right operand's outcome.
  function Operated(P: Prog, op: BinOp, t: Ty, v: Value, r: ERes): ERes {
    if r.EOk? && r.val.Some? then Applied(P, op, t, v.raw, r.val.value.raw, r.st)
    else if r.EOk? then EErr(Wrong)
    else r
  }

  lemma BinaryAnalysis(cx: Ctx, e: Expr, te: TExpr)
    requires e.Binary? && AnalyzeExpr(cx, e, false) == Some(te)
    ensures te.node.TBinary? && te.cast.None?
    ensures FinalTy(te.node.left).Some?
    ensures var tl, tr, t := te.node.left, te.node.right, FinalTy(te.node.left).value;
      te.node.bop == e.bop && te.ty == Prim(BinType(e.bop, t)) && SupportsBin(e.bop, t) &&
      AnalyzeTo(cx, e.left, t, false) == Some(tl) && AnalyzeTo(cx, e.right, t, false) == Some(tr)
    ensures AnalyzeExpr(cx, e.left, false).Some? && AnalyzeExpr(cx, e.left, false).value.ty.Prim?
    ensures AnalyzeExpr(cx, e.right, false).Some? && AnalyzeExpr(cx, e.right, false).value.ty.Prim?
    ensures Meet(AnalyzeExpr(cx, e.left, false).value.ty.t, AnalyzeExpr(cx, e.right, false).value.ty.t)
      == FinalTy(te.node.left)
  {
    hide SupportsBin, BinType;
    OperandsCoerced(cx, e.left, e.right, e);
    hide Coerce;
  }

  lemma OperandsCoerced(cx: Ctx, l: Expr, r: Expr, e: Expr)
    requires l < e && r < e && AnalyzeOperands(cx, l, r, false, e).Some?
    ensures var a := AnalyzeOperands(cx, l, r, false, e).value;
      AnalyzeTo(cx, l, a.2, false) == Some(a.0) && AnalyzeTo(cx, r, a.2, false) == Some(a.1) &&
      FinalTy(a.0) == Some(a.2) && FinalTy(a.1) == Some(a.2)
  {
    hide AnalyzeExpr;
  }

  // ----- && and || -----

  lemma LogicAnalysis(cx: Ctx, e: Expr, te: TExpr)
    requires (e.And? || e.Or?) && AnalyzeExpr(cx, e, false) == Some(te)
    ensures te.cast.None? && te.ty == Prim(Bool)
    ensures if e.And? then te.node.TAnd? else te.node.TOr?
    ensures AnalyzeExpr(cx, e.left, false) == Some(te.node.left) && te.node.left.ty == Prim(Bool)
    ensures AnalyzeExpr(cx, e.right, false) == Some(te.node.right) && te.node.right.ty == Prim(Bool)
  {
  }

  lemma SimLogic(K: Setup, cx: Ctx, fuel: nat, e: Expr, te: TExpr, st: SState, base: seq<Value>, m: MState,
                 cont: int, brk: int, inFunc: bool) returns (n: nat, m1: MState)
    requires Linked(K) && Rel(K, cx, st, base, m)
    requires (e.And? || e.Or?) && AnalyzeExpr(cx, e, false) == Some(te)
    requires Ahead(K, m, GenExpr(te), cont, brk, inFunc)
    ensures ExprDone(K, cx, EvalExpr(K.P, fuel, st, e), te.ty, Size(GenExpr(te)), fuel, st, base, m, n, m1)
    decreases fuel, e, 0, 0
  {
    hide Rel, Linked, Run, Size, GenExpr, Ahead, CmdSize, EvalExpr, Truth;
    LogicAnalysis(cx, e, te);
    hide AnalyzeExpr;
    var tl, tr := te.node.left, te.node.right;
    var kind := if e.And? then ImplicitIfNot else ImplicitIf;
    var rest := GenExpr(tr) + [if e.And? then AndCmd else OrCmd];
    var jump := Jump(kind, Off(Size(rest)));
    GenFresh(te);
    assert EvalExpr(K.P, fuel, st, e) == EvalLogic(K.P, fuel, st, e.left, e.right, e) by {
      EvalIsLogic(K.P, fuel, st, e);
    }
    AheadSplit(K, m, GenExpr(tl), [jump] + rest, cont, brk, inFunc);
    n, m1 := SimExpr(K, cx, fuel, e.left, tl, st, base, m, cont, brk, inFunc);
    var r1 := EvalExpr(K.P, fuel, st, e.left);
    if r1.EOk? {
      var n2, m2 := SimLogicRight(K, cx, fuel, e, tr, r1.val.value.raw, m.operands, r1.st, base, m1, cont, brk, inFunc);
      Prefix(K, cx, EvalExpr(K.P, fuel, st, e), te.ty, m.pc + Size(GenExpr(te)), m.operands, fuel, LiveLen(st.env),
        base, m.frames, m, n, m1, n2, m2);
      n, m1 := n + n2, m2;
    }
  }

  lemma EvalIsLogic(P: Prog, fuel: nat, st: SState, e: Expr)
    requires e.And? || e.Or?
    ensures EvalExpr(P, fuel, st, e) == EvalLogic(P, fuel, st, e.left, e.right, e)
  {
    hide EvalLogic;
  }

  // What && or || yields when its left operand was raw: decided, or the right operand's truth.
  function Decided(P: Prog, fuel: nat, st: SState, e: Expr, raw: Raw): ERes
    requires e.And? || e.Or?
  {
    if Truth(raw) == e.Or? then EOk(Some(Val(Bool, raw)), st)
    else
      match EvalExpr(P, fuel, st, e.right)
      case EErr(x) => EErr(x)
      case EOk(w, st2) =>
        if w.None? || w.value.ty != Bool then EErr(Wrong) else EOk(Some(Val(Bool, BoolRaw(Truth(w.value.raw)))), st2)
  }

  // The right operand when the left one, on the stack, has not decided.
  lemma SimUndecided(K: Setup, cx: Ctx, fuel: nat, e: Expr, tr: TExpr, raw: Raw, ops: seq<Item>, st: SState,
                     base: seq<Value>, m: MState, cont: int, brk: int, inFunc: bool) returns (n: nat, m1: MState)
    requires Linked(K) && Rel(K, cx, st, base, m)
    requires (e.And? || e.Or?) && AnalyzeExpr(cx, e.right, false) == Some(tr) && tr.ty == Prim(Bool)
    requires m.operands == ops + [V(Val(Bool, raw))] && Truth(raw) == e.And?
    requires Ahead(K, m, GenExpr(tr) + [if e.And? then AndCmd else OrCmd], cont, brk, inFunc)
    ensures Done(K, cx, Decided(K.P, fuel, st, e, raw), Prim(Bool),
      m.pc + Size(GenExpr(tr) + [if e.And? then AndCmd else OrCmd]), ops, fuel, LiveLen(st.env), base, m.frames,
      m, n, m1)
    decreases fuel, e.right, 2
  {
    hide Rel, Linked, Run, Size, GenExpr, Ahead, EvalExpr, AnalyzeExpr, BoolRaw, CmdSize, Failed, LiveLen;
    var c := if e.And? then AndCmd else OrCmd;
    AheadSplit(K, m, GenExpr(tr), [c], cont, brk, inFunc);
    n, m1 := SimExpr(K, cx, fuel, e.right, tr, st, base, m, cont, brk, inFunc);
    var r := EvalExpr(K.P, fuel, st, e.right);
    if r.EOk? {
      AheadOne(K, m1, c, cont, brk, inFunc);
      StepLogic(K, m1, ops, c, raw, r.val.value.raw, cont, brk, inFunc);
      Chain(K.img, n, m, m1, 1);
      var m2 := Past(m1, c).(operands := ops + [V(Val(Bool, BoolRaw(Truth(r.val.value.raw))))]);
      RelOperands(K, cx, r.st, base, m1, m2);
      n, m1 := n + 1, m2;
    }
  }

  lemma DecidedNow(P: Prog, fuel: nat, st: SState, e: Expr, raw: Raw)
    requires (e.And? || e.Or?) && Truth(raw) == e.Or?
    ensures Decided(P, fuel, st, e, raw) == EOk(Some(Val(Bool, raw)), st)
  {
    hide Truth;
  }

  lemma SimLogicRight(K: Setup, cx: Ctx, fuel: nat, e: Expr, tr: TExpr, raw: Raw, ops: seq<Item>, st: SState,
                      base: seq<Value>, m: MState, cont: int, brk: int, inFunc: bool) returns (n: nat, m1: MState)
    requires Linked(K) && Rel(K, cx, st, base, m)
    requires (e.And? || e.Or?) && AnalyzeExpr(cx, e.right, false) == Some(tr) && tr.ty == Prim(Bool)
    requires m.operands == ops + [V(Val(Bool, raw))]
    requires var rest := GenExpr(tr) + [if e.And? then AndCmd else OrCmd];
      Ahead(K, m, [Jump(if e.And? then ImplicitIfNot else ImplicitIf, Off(Size(rest)))] + rest, cont, brk, inFunc)
    ensures Done(K, cx, Decided(K.P, fuel, st, e, raw), Prim(Bool),
      m.pc + 5 + Size(GenExpr(tr) + [if e.And? then AndCmd else OrCmd]), ops, fuel, LiveLen(st.env), base, m.frames,
      m, n, m1)
    ensures var rest := GenExpr(tr) + [if e.And? then AndCmd else OrCmd];
      Size([Jump(if e.And? then ImplicitIfNot else ImplicitIf, Off(Size(rest)))] + rest) == 5 + Size(rest)
    decreases fuel, e.right, 3
  {
    hide *;
    var rest := GenExpr(tr) + [if e.And? then AndCmd else OrCmd];
    var jump := Jump(if e.And? then ImplicitIfNot else ImplicitIf, Off(Size(rest)));
    AheadSplit(K, m, [jump], rest, cont, brk, inFunc);
    AheadOne(K, m, jump, cont, brk, inFunc);
    JumpSize(jump);
    StepCond(K, m, ops, jump.kind, Size(rest), raw, cont, brk, inFunc);
    NoSteps(K.img, m);
    if Truth(raw) == e.Or? {
      n, m1 := 1, m.(pc := m.pc + 5 + Size(rest));
      DecidedNow(K.P, fuel, st, e, raw);
      OneMore(K, cx, st, Val(Bool, raw), m1.pc, ops, fuel, LiveLen(st.env), base, m.frames, m, 0, m, m1);
    } else {
      var s := m.(pc := m.pc + 5);
      RelOperands(K, cx, st, base, m, s);
      n, m1 := SimUndecided(K, cx, fuel, e, tr, raw, ops, st, base, s, cont, brk, inFunc);
      Prefix(K, cx, Decided(K.P, fuel, st, e, raw), Prim(Bool), s.pc + Size(rest), ops, fuel, LiveLen(st.env),
        base, m.frames, m, 1, s, n, m1);
      n := 1 + n;
    }
  }

  // ----- assignments -----

  lemma LeftIsId(cx: Ctx, l: Expr, tl: TExpr)
    requires AnalyzeExpr(cx, l, true) == Some(tl) && IsLeft(tl)
    ensures l.Id? && AnalyzeId(cx, l.name, true) == Some(tl)
    ensures |GenExpr(tl)| == 1
  {
    hide AnalyzeOperands, AnalyzeTo, AnalyzeArgs;
    GenFresh(tl);
  }

  lemma AssignAnalysis(cx: Ctx, e: Expr, te: TExpr)
    requires e.Assign? && AnalyzeExpr(cx, e, false) == Some(te)
    ensures te.node.TAssign? && te.cast.None? && te.ty == Void
    ensures var tl, tr := te.node.left, te.node.right;
      tl.ty.Prim? && IsLeft(tl) && FinalTy(tl) == Some(tl.ty.t) && e.left.Id? && |GenExpr(tl)| == 1 &&
      AnalyzeId(cx, e.left.name, true) == Some(tl) && AnalyzeTo(cx, e.right, tl.ty.t, false) == Some(tr)
  {
    hide AnalyzeTo, AnalyzeId, GenExpr;
    LeftIsId(cx, e.left, te.node.left);
  }

  // What an assignment yields once its right operand is evaluated.
  function Assigned(P: Prog, x: string, r: ERes): ERes {
    match r
    case EErr(err) => EErr(err)
    case EOk(v, st1) =>
      if v.None? then EErr(Wrong) else
      match WriteVar(P, st1, x, v.value.raw) case None => EErr(WriteErr(st1, x)) case Some(st2) => EOk(None, st2)
  }

  lemma AssignByParts(P: Prog, fuel: nat, st: SState, e: Expr, t: Ty)
    requires e.Assign? && e.left.Id? && VarType(P, st, e.left.name) == Some(t)
    ensures EvalExpr(P, fuel, st, e) == Assigned(P, e.left.name, EvalTo(P, fuel, st, e.right, t))
  {
    hide EvalTo, WriteVar, VarType;
  }

  function Stepped(P: Prog, inc: bool, x: string, st: SState): ERes {
    match ReadVar(P, st, x)
    case None => EErr(ReadErr(P, st, x))
    case Some(v) =>
      match WriteVar(P, st, x, P.prims.step(inc, v.ty, v.raw))
      case None => EErr(WriteErr(st, x))
      case Some(st2) => EOk(None, st2)
  }

  lemma StepByParts(P: Prog, fuel: nat, st: SState, e: Expr, t: Ty)
    requires e.PreStep? && e.operand.Id? && SupportsStep(t)
    requires ReadVar(P, st, e.operand.name).Some? ==> ReadVar(P, st, e.operand.name).value.ty == t
    ensures EvalExpr(P, fuel, st, e) == Stepped(P, e.inc, e.operand.name, st)
  {
    hide WriteVar, ReadVar;
  }

  // An outcome taken apart: a value of a primitive type on top of the operands, or a failure, which is
  // the outcome of any code that starts the same way.
  lemma DoneValue(K: Setup, cx: Ctx, r: ERes, t: Ty, size: nat, fuel: nat, st: SState, base: seq<Value>, m: MState,
                  n: nat, m1: MState)
    requires ExprDone(K, cx, r, Prim(t), size, fuel, st, base, m, n, m1) && r.EOk?
    ensures r.val.Some? && r.val.value.ty == t && m1.operands == m.operands + [V(r.val.value)]
    ensures Run(K.img, n, m) == Some(m1) && m1.pc == m.pc + size && m1.frames == m.frames
    ensures Rel(K, cx, r.st, base, m1) && LiveLen(r.st.env) == LiveLen(st.env)
  {
    hide Run, Rel, LiveLen, Failed;
  }

  lemma DoneErr(K: Setup, cx: Ctx, r: ERes, t: ETy, size: nat, t2: ETy, size2: nat, fuel: nat, st: SState,
                base: seq<Value>, m: MState, n: nat, m1: MState)
    requires ExprDone(K, cx, r, t, size, fuel, st, base, m, n, m1) && r.EErr?
    ensures ExprDone(K, cx, r, t2, size2, fuel, st, base, m, n, m1)
  {
    hide Run, Rel, LiveLen, Failed;
  }

  lemma AssignPlan(cx: Ctx, e: Expr, te: TExpr)
    requires e.Assign? && AnalyzeExpr(cx, e, false) == Some(te)
    ensures te.node.TAssign? && te.ty == Void && e.left.Id?
    ensures var tl, tr := te.node.left, te.node.right;
      && tl.ty.Prim? && |GenExpr(tl)| == 1 && AnalyzeId(cx, e.left.name, true) == Some(tl)
      && AnalyzeTo(cx, e.right, tl.ty.t, false) == Some(tr)
      && GenExpr(te) == GenExpr(tr) + [GenExpr(tl)[0], Store(tl.ty.t)]
  {
    AssignAnalysis(cx, e, te);
    hide AnalyzeExpr, AnalyzeTo, AnalyzeId, GenExpr, IsLeft;
    var tl := te.node.left;
    GenFresh(te);
    assert GenExpr(tl) + [Store(tl.ty.t)] == [GenExpr(tl)[0], Store(tl.ty.t)];
  }

  lemma LeftType(K: Setup, cx: Ctx, x: string, te: TExpr, st: SState, base: seq<Value>, m: MState)
    requires Linked(K) && Rel(K, cx, st, base, m)
    requires AnalyzeId(cx, x, true) == Some(te) && te.ty.Prim?
    ensures VarType(K.P, st, x) == Some(te.ty.t)
  {
    hide Linked, Rel, AnalyzeId, VarType, Pending, Reads, Writes, IsLeft;
    Lvalue(K, cx, x, te, st, base, m, []);
  }

  // The value of the right operand, stored: the outcome of the assignment.
  lemma AssignDone(K: Setup, cx: Ctx, x: string, r: ERes, size: nat, fuel: nat, st: SState, base: seq<Value>, m: MState,
                   n: nat, m1: MState, more: nat, n2: nat, m2: MState)
    requires r.EOk? && r.val.Some?
    requires WriteErr(r.st, x) == SelfRead || WriteVar(K.P, r.st, x, r.val.value.raw).Some?
    requires Run(K.img, n, m) == Some(m1) && m1.pc == m.pc + size && m1.frames == m.frames
    requires LiveLen(r.st.env) == LiveLen(st.env)
    requires Written(K, cx, r.st, WriteVar(K.P, r.st, x, r.val.value.raw), base, m1, more, m.operands, n2, m2)
    ensures ExprDone(K, cx, Assigned(K.P, x, r), Void, size + more, fuel, st, base, m, n + n2, m2)
  {
    hide Run, Rel, LiveLen, Failed, WriteVar, WriteErr, Stuck;
    Chain(K.img, n, m, m1, n2);
    StuckFails(K, fuel, m1, n2);
    WriteFatal(r.st, x);
    FailedLater(K, fuel, m, n, m1, n2);
  }

  lemma WriteFatal(st: SState, x: string)
    ensures WriteErr(st, x) == SelfRead ==> Fatal(WriteErr(st, x))
  {
  }

  lemma SimAssign(K: Setup, cx: Ctx, fuel: nat, e: Expr, te: TExpr, st: SState, base: seq<Value>, m: MState,
                  cont: int, brk: int, inFunc: bool) returns (n: nat, m1: MState)
    requires Linked(K) && Rel(K, cx, st, base, m)
    requires e.Assign? && AnalyzeExpr(cx, e, false) == Some(te)
    requires Ahead(K, m, GenExpr(te), cont, brk, inFunc)
    ensures ExprDone(K, cx, EvalExpr(K.P, fuel, st, e), te.ty, Size(GenExpr(te)), fuel, st, base, m, n, m1)
    decreases fuel, e, 0, 0
  {
    hide *;
    AssignPlan(cx, e, te);
    var tl, tr := te.node.left, te.node.right;
    var t, x, addr := tl.ty.t, e.left.name, GenExpr(tl)[0];
    LeftType(K, cx, x, tl, st, base, m);
    AheadSplit(K, m, GenExpr(tr), [addr, Store(t)], cont, brk, inFunc);
    n, m1 := SimTo(K, cx, fuel, e.right, t, tr, st, base, m, cont, brk, inFunc);
    var r := EvalTo(K.P, fuel, st, e.right, t);
    AssignByParts(K.P, fuel, st, e, t);
    if r.EOk? {
      DoneValue(K, cx, r, t, Size(GenExpr(tr)), fuel, st, base, m, n, m1);
      AheadTwo(K, m1, addr, Store(t), cont, brk, inFunc);
      StoreSize(t);
      BoundId(K, cx, x, true, tl, r.st, base, m1);
      var n2, m2 := SimStore(K, cx, x, tl, r.val.value, r.st, base, m1, m.operands, cont, brk, inFunc);
      AssignDone(K, cx, x, r, Size(GenExpr(tr)), fuel, st, base, m, n, m1, CmdSize(addr) + 1, n2, m2);
      n, m1 := n + n2, m2;
    } else {
      AssignErr(K.P, x, r);
      DoneErr(K, cx, r, Prim(t), Size(GenExpr(tr)), Void, Size(GenExpr(te)), fuel, st, base, m, n, m1);
    }
  }

  lemma AssignErr(P: Prog, x: string, r: ERes)
    requires r.EErr?
    ensures Assigned(P, x, r) == r
  {
  }

  lemma StoreSize(t: Ty)
    ensures CmdSize(Store(t)) == 1
  {
  }

  lemma AheadTwo(K: Setup, m: MState, c: Cmd, d: Cmd, cont: int, brk: int, inFunc: bool)
    requires Ahead(K, m, [c, d], cont, brk, inFunc)
    ensures NextTwo(K, m, c, d, cont, brk, inFunc)
    ensures Size([c, d]) == CmdSize(c) + CmdSize(d)
  {
    hide At, CmdSize;
    assert [c, d][1..] == [d];
    assert Size([d]) == CmdSize(d);
  }

  lemma PreStepPlan(cx: Ctx, e: Expr, te: TExpr)
    requires e.PreStep? && AnalyzeExpr(cx, e, false) == Some(te)
    ensures te.node.TPreStep? && te.ty == Void && e.operand.Id?
    ensures var to := te.node.operand;
      && to.ty.Prim? && to.ty.t != String && SupportsStep(to.ty.t) && |GenExpr(to)| == 1
      && AnalyzeId(cx, e.operand.name, true) == Some(to)
      && GenExpr(te) == [GenExpr(to)[0], StepCmd(e.inc, to.ty.t)]
  {
    hide AnalyzeId, GenExpr;
    var to := te.node.operand;
    LeftIsId(cx, e.operand, to);
    hide AnalyzeExpr;
    GenFresh(te);
    LeftUncast(cx, e.operand.name, to);
  }

  lemma PreStepDone(K: Setup, cx: Ctx, inc: bool, x: string, fuel: nat, st: SState, base: seq<Value>, m: MState,
                    size: nat, n: nat, m1: MState)
    requires ReadVar(K.P, st, x).None? ==> Fatal(ReadErr(K.P, st, x))
    requires WriteErr(st, x) == SelfRead || forall raw :: WriteVar(K.P, st, x, raw).Some?
    requires ReadVar(K.P, st, x).None? ==> Stuck(K.img, n, m)
    requires ReadVar(K.P, st, x).Some? ==>
      var v := ReadVar(K.P, st, x).value;
      Written(K, cx, st, WriteVar(K.P, st, x, K.P.prims.step(inc, v.ty, v.raw)), base, m, size, m.operands, n, m1)
    ensures ExprDone(K, cx, Stepped(K.P, inc, x, st), Void, size, fuel, st, base, m, n, m1)
  {
    hide Run, Rel, LiveLen, Failed, WriteVar, ReadVar, ReadErr, WriteErr, Stuck, Fatal;
    StuckFails(K, fuel, m, n);
    WriteFatal(st, x);
  }

  lemma SimPreStep(K: Setup, cx: Ctx, fuel: nat, e: Expr, te: TExpr, st: SState, base: seq<Value>, m: MState,
                   cont: int, brk: int, inFunc: bool) returns (n: nat, m1: MState)
    requires Linked(K) && Rel(K, cx, st, base, m)
    requires e.PreStep? && AnalyzeExpr(cx, e, false) == Some(te)
    requires Ahead(K, m, GenExpr(te), cont, brk, inFunc)
    ensures ExprDone(K, cx, EvalExpr(K.P, fuel, st, e), te.ty, Size(GenExpr(te)), fuel, st, base, m, n, m1)
    decreases fuel, e, 0, 0
  {
    hide *;
    PreStepPlan(cx, e, te);
    var to, x := te.node.operand, e.operand.name;
    var addr, step := GenExpr(to)[0], StepCmd(e.inc, to.ty.t);
    BoundId(K, cx, x, true, to, st, base, m);
    AheadTwo(K, m, addr, step, cont, brk, inFunc);
    StepSize(e.inc, to.ty.t);
    n, m1 := Assigning.SimStep(K, cx, x, to, e.inc, st, base, m, cont, brk, inFunc);
    StepByParts(K.P, fuel, st, e, to.ty.t);
    PreStepDone(K, cx, e.inc, x, fuel, st, base, m, CmdSize(addr) + 1, n, m1);
  }

  lemma StepSize(inc: bool, t: Ty)
    ensures CmdSize(StepCmd(inc, t)) == 1
  {
  }

  lemma LeftUncast(cx: Ctx, x: string, te: TExpr)
    requires AnalyzeId(cx, x, true) == Some(te) && te.ty.Prim?
    ensures FinalTy(te) == Some(te.ty.t)
  {
  }

  // ----- statements -----

  // A jump out of the statement has arrived at its target: the bindings of the loop and inside it are
  // destroyed, those outside are untouched.
  ghost predicate Left(K: Setup, st1: SState, target: int, ops: seq<Item>, frames: seq<Frame>, env0: seq<Var>,
                       depth: nat, base: seq<Value>, m: MState, n: nat, m1: MState)
  {
    Run(K.img, n, m) == Some(m1) && m1.pc == target && m1.operands == ops && m1.frames == frames &&
    Kept(env0, st1.env) && Whole(st1.env) && depth <= |env0| &&
    m1.locals == base + Vals(st1.env[..depth]) &&
    GlobalsMatch(K, st1.globals, m1.globals) && m1.world == st1.world
  }

  // The outcome of statements and of running their code for n steps from m, to m1.
  ghost predicate Ended(K: Setup, cx1: Ctx, r: SRes, end: nat, ops: seq<Item>, frames: seq<Frame>, fuel: nat,
                        env0: seq<Var>, cont: int, brk: int, depth: nat, base: seq<Value>, m: MState, n: nat,
                        m1: MState)
  {
    match r
    case Normal(st1) =>
      (Run(K.img, n, m) == Some(m1) && m1.pc == end && m1.operands == ops && m1.frames == frames &&
       Rel(K, cx1, st1, base, m1) && Whole(st1.env))
    case Broke(st1) => Left(K, st1, brk, ops, frames, env0, depth, base, m, n, m1)
    case Continued(st1) => Left(K, st1, cont, ops, frames, env0, depth, base, m, n, m1)
    case Returned(v, st1) =>
      (|frames| >= 2 && Run(K.img, n, m) == Some(m1) && m1.pc == frames[|frames| - 1].ret &&
       m1.frames == frames[..|frames| - 1] && m1.operands == ops + Items(v) && m1.locals == base &&
       GlobalsMatch(K, st1.globals, m1.globals) && m1.world == st1.world &&
       cx1.ret.Some? && Typed(v, OfRet(cx1.ret.value)))
    case SErr(x) => Failed(K, x, fuel, m, n)
  }

  lemma SPrefix(K: Setup, cx1: Ctx, r: SRes, end: nat, ops: seq<Item>, frames: seq<Frame>, fuel: nat,
                env0: seq<Var>, env1: seq<Var>, cont: int, brk: int, depth: nat, base: seq<Value>,
                m: MState, n1: nat, m1: MState, n2: nat, m2: MState)
    requires Run(K.img, n1, m) == Some(m1)
    requires Ended(K, cx1, r, end, ops, frames, fuel, env1, cont, brk, depth, base, m1, n2, m2)
    requires Kept(env0, env1) && depth <= |env0|
    ensures Ended(K, cx1, r, end, ops, frames, fuel, env0, cont, brk, depth, base, m, n1 + n2, m2)
  {
    hide Run, Rel, Vals, GlobalsMatch;
    Chain(K.img, n1, m, m1, n2);
  }

  // What every statement finds: corresponding states with no binding pending.
  ghost predicate Start(K: Setup, cx: Ctx, pl: Place, st: SState, base: seq<Value>, m: MState, inFunc: bool) {
    Linked(K) && Rel(K, cx, st, base, m) && Whole(st.env) &&
    pl == Place(cx.scopes == [], cx.ret) && (inFunc <==> cx.ret.Some?)
  }

  lemma {:induction false} LoopDepthBound(scopes: seq<Scope>)
    ensures LoopDepth(scopes) <= |Flat(scopes)|
    decreases |scopes|
  {
    if scopes != [] {
      LoopDepthBound(scopes[..|scopes| - 1]);
    }
  }

  lemma StartFacts(K: Setup, cx: Ctx, pl: Place, st: SState, base: seq<Value>, m: MState, inFunc: bool)
    requires Start(K, cx, pl, st, base, m, inFunc)
    ensures |Flat(cx.scopes)| == |st.env| && LiveLen(st.env) == |st.env|
    ensures LoopDepth(cx.scopes) <= |st.env|
    ensures m.locals == base + Vals(st.env)
    ensures FrameStart(m) == Extent(base) && m.world == st.world && GlobalsMatch(K, st.globals, m.globals)
  {
    hide Linked, GlobalsMatch, Extends, Nested, Extent;
    LoopDepthBound(cx.scopes);
    assert st.env[..|st.env|] == st.env;
  }

  // Destroying the last variable.
  lemma DestroyStep(K: Setup, t: Ty, v: Value, rest: seq<Value>, m: MState, cont: int, brk: int, inFunc: bool)
    requires Next(K, m, DestroyLocal(t), cont, brk, inFunc) && v.ty == t && m.locals == rest + [v]
    ensures Run(K.img, 1, m) == Some(m.(pc := m.pc + CmdSize(DestroyLocal(t)), locals := rest))
  {
    hide At, Run, CmdSize;
    Fetch(K, m, DestroyLocal(t), cont, brk, inFunc);
    assert m.locals[..|m.locals| - 1] == rest;
  }

  lemma DestroyCode(ts: seq<Ty>)
    ensures ts == [] ==> Destroy(ts) == [] && Size(Destroy(ts)) == 0
    ensures ts != [] ==> Destroy(ts) == [DestroyLocal(ts[|ts| - 1])] + Destroy(ts[..|ts| - 1])
  {
  }

  // Destroying variables of the types on top of the storage, last first.
  lemma {:induction false} SimDestroy(K: Setup, ts: seq<Ty>, vs: seq<Value>, rest: seq<Value>, m: MState,
                                      cont: int, brk: int, inFunc: bool)
    requires |vs| == |ts| && forall i :: 0 <= i < |ts| ==> vs[i].ty == ts[i]
    requires m.locals == rest + vs
    requires Ahead(K, m, Destroy(ts), cont, brk, inFunc)
    ensures Run(K.img, |ts|, m) == Some(m.(pc := m.pc + Size(Destroy(ts)), locals := rest))
    decreases |ts|
  {
    hide *;
    DestroyCode(ts);
    if ts == [] {
      assert rest + vs == rest;
      NoSteps(K.img, m);
    } else {
      var k := |ts| - 1;
      var c := DestroyLocal(ts[k]);
      AheadSplit(K, m, [c], Destroy(ts[..k]), cont, brk, inFunc);
      AheadOne(K, m, c, cont, brk, inFunc);
      assert m.locals == (rest + vs[..k]) + [vs[k]];
      DestroyStep(K, ts[k], vs[k], rest + vs[..k], m, cont, brk, inFunc);
      var m1 := m.(pc := m.pc + Size([c]), locals := rest + vs[..k]);
      SimDestroy(K, ts[..k], vs[..k], rest, m1, cont, brk, inFunc);
      Chain(K.img, 1, m, m1, k);
    }
  }

  lemma NoSteps(img: Image, m: MState)
    ensures Run(img, 0, m) == Some(m)
    ensures Size([]) == 0
  {
  }

  // Behind the destruction of everything beyond depth, the state corresponds to the shorter environment.
  lemma Unwound(K: Setup, cx: Ctx, cx1: Ctx, st: SState, base: seq<Value>, m: MState, depth: nat)
    requires Rel(K, cx1, st, base, m) && Whole(st.env)
    requires depth <= |st.env| && EnvMatch(cx.scopes, st.env[..depth]) && Nested(cx.scopes)
    requires Extends(cx.globals, K.G)
    ensures Rel(K, cx, st.(env := st.env[..depth]), base, m.(locals := base + Vals(st.env[..depth])))
    ensures Whole(st.env[..depth])
  {
    hide EnvMatch, GlobalsMatch, Nested, Extends, Vals, Extent;
    assert st.env[..depth][..depth] == st.env[..depth];
  }

  lemma RelBase(K: Setup, cx: Ctx, st: SState, base: seq<Value>, m: MState, m1: MState)
    requires Rel(K, cx, st, base, m)
    requires m1 == m.(pc := m1.pc, operands := m1.operands)
    ensures Rel(K, cx, st, base, m1)
  {
    hide Rel;
    RelOperands(K, cx, st, base, m, m1);
  }

  lemma SimStmts(K: Setup, cx: Ctx, fuel: nat, pl: Place, ss: seq<Stmt>, ts: seq<TStmt>, cx1: Ctx, st: SState,
                 base: seq<Value>, m: MState, cont: int, brk: int, inFunc: bool) returns (n: nat, m1: MState)
    requires Start(K, cx, pl, st, base, m, inFunc)
    requires AnalyzeStmts(cx, ss) == Some((ts, cx1)) && GenerableAll(ts) && Extends(cx1.globals, K.G)
    requires cont >= 0 && brk >= 0
    requires Ahead(K, m, GenStmts(ts), cont, brk, inFunc)
    ensures Ended(K, cx1, ExecStmts(K.P, fuel, pl, st, ss), m.pc + Size(GenStmts(ts)), m.operands, m.frames, fuel,
      st.env, cont, brk, LoopDepth(cx.scopes), base, m, n, m1)
    decreases fuel, ss, 0
  {
    hide Rel, Linked, Run, Size, Ahead, AnalyzeStmt, ExecStmt, GenStmt, Left, Failed;
    StartFacts(K, cx, pl, st, base, m, inFunc);
    if ss == [] {
      NoSteps(K.img, m);
      return 0, m;
    }
    StmtsGrow(cx, ss);
    var (t, cx2) := AnalyzeStmt(cx, ss[0]).value;
    StmtGrows(cx, ss[0]);
    assert ts[0] == t && ts[1..] == AnalyzeStmts(cx2, ss[1..]).value.0;
    RestGlobals(K, cx2, ss[1..], cx1);
    AheadSplit(K, m, GenStmt(t), GenStmts(ts[1..]), cont, brk, inFunc);
    n, m1 := SimStmt(K, cx, fuel, pl, ss[0], t, cx2, st, base, m, cont, brk, inFunc);
    var r := ExecStmt(K.P, fuel, pl, st, ss[0]);
    if r.Normal? {
      LoopDepthGrown(cx, cx2);
      StartNext(K, cx, pl, st, base, m, cx2, r.st, m1, inFunc);
      var n2, m2 := SimStmts(K, cx2, fuel, pl, ss[1..], ts[1..], cx1, r.st, base, m1, cont, brk, inFunc);
      SPrefix(K, cx1, ExecStmts(K.P, fuel, pl, st, ss), m.pc + Size(GenStmts(ts)), m.operands, m.frames, fuel,
        st.env, r.st.env, cont, brk, LoopDepth(cx.scopes), base, m, n, m1, n2, m2);
      n, m1 := n + n2, m2;
    }
  }

  lemma RestGlobals(K: Setup, cx: Ctx, ss: seq<Stmt>, cx1: Ctx)
    requires AnalyzeStmts(cx, ss).Some? && AnalyzeStmts(cx, ss).value.1 == cx1
    requires Extends(cx1.globals, K.G)
    ensures Extends(cx.globals, K.G) && cx1.ret == cx.ret && (cx.scopes == [] <==> cx1.scopes == [])
  {
    hide AnalyzeStmts;
    StmtsGrow(cx, ss);
  }

  // After a statement that ended normally, the next one can start.
  lemma StartNext(K: Setup, cx: Ctx, pl: Place, st: SState, base: seq<Value>, m: MState,
                  cx2: Ctx, st2: SState, m2: MState, inFunc: bool)
    requires Start(K, cx, pl, st, base, m, inFunc)
    requires Grown(cx, cx2) && Rel(K, cx2, st2, base, m2) && Whole(st2.env)
    ensures Start(K, cx2, pl, st2, base, m2, inFunc)
    ensures Kept(st.env, st2.env)
  {
    hide Linked, GlobalsMatch, Extends, EnvOk, Vals, Extent, EnvMatch, Nested;
    GrownFlat(cx, cx2);
    MatchPrefix(cx.scopes, st.env, cx2.scopes, st2.env);
  }

  lemma GrownFlat(a: Ctx, b: Ctx)
    requires Grown(a, b)
    ensures |Flat(a.scopes)| <= |Flat(b.scopes)| && Flat(b.scopes)[..|Flat(a.scopes)|] == Flat(a.scopes)
  {
    if a.scopes != [] {
      var k := |a.scopes| - 1;
      assert Flat(b.scopes) == Flat(a.scopes[..k]) + b.scopes[k].defs;
    }
  }

  lemma SimStmt(K: Setup, cx: Ctx, fuel: nat, pl: Place, s: Stmt, t: TStmt, cx1: Ctx, st: SState,
                base: seq<Value>, m: MState, cont: int, brk: int, inFunc: bool) returns (n: nat, m1: MState)
    requires Start(K, cx, pl, st, base, m, inFunc)
    requires AnalyzeStmt(cx, s) == Some((t, cx1)) && Generable(t) && Extends(cx1.globals, K.G)
    requires cont >= 0 && brk >= 0
    requires Ahead(K, m, GenStmt(t), cont, brk, inFunc)
    ensures Ended(K, cx1, ExecStmt(K.P, fuel, pl, st, s), m.pc + Size(GenStmt(t)), m.operands, m.frames, fuel,
      st.env, cont, brk, LoopDepth(cx.scopes), base, m, n, m1)
    decreases fuel, s, 4
  {
    hide Rel, Run, Size, Ahead, GenStmt, Ended, ExecStmt, AnalyzeStmt, Generable, Start;
    match s
    case ExprStmt(e) => n, m1 := SimExprStmt(K, cx, fuel, pl, s, t, cx1, st, base, m, cont, brk, inFunc);
    case VarDef(ty, x, init) =>
      if cx.scopes == [] {
        n, m1 := SimGlobalDef(K, cx, fuel, pl, s, t, cx1, st, base, m, cont, brk, inFunc);
      } else {
        n, m1 := SimLocalDef(K, cx, fuel, pl, s, t, cx1, st, base, m, cont, brk, inFunc);
      }
    case Break => n, m1 := SimJump(K, cx, fuel, pl, s, t, cx1, st, base, m, cont, brk, inFunc);
    case Continue => n, m1 := SimJump(K, cx, fuel, pl, s, t, cx1, st, base, m, cont, brk, inFunc);
    case Return(value) => n, m1 := SimReturn(K, cx, fuel, pl, s, t, cx1, st, base, m, cont, brk, inFunc);
    case While(c, b) => n, m1 := SimWhile(K, cx, fuel, pl, s, t, cx1, st, base, m, cont, brk, inFunc);
    case If(bs, els) => n, m1 := SimIf(K, cx, fuel, pl, s, t, cx1, st, base, m, cont, brk, inFunc);
  }

  lemma UnloadStep(K: Setup, m: MState, ops: seq<Item>, v: Value, cont: int, brk: int, inFunc: bool)
    requires m.operands == ops + [V(v)] && Next(K, m, Unload(v.ty), cont, brk, inFunc)
    ensures Run(K.img, 1, m) == Some(Past(m, Unload(v.ty)).(operands := ops))
  {
    hide At, Run, CmdSize;
    var c := Unload(v.ty);
    Fetch(K, m, c, cont, brk, inFunc);
    assert m.operands[..|m.operands| - 1] == ops;
    assert Exec(K.img, Past(m, c), c) == Some(Past(m, c).(operands := ops));
  }

  lemma NormalEnded(K: Setup, cx1: Ctx, st1: SState, end: nat, ops: seq<Item>, frames: seq<Frame>, fuel: nat,
                    env0: seq<Var>, cont: int, brk: int, depth: nat, base: seq<Value>, m: MState, n: nat, m1: MState)
    requires Run(K.img, n, m) == Some(m1) && m1.pc == end && m1.operands == ops && m1.frames == frames
    requires Rel(K, cx1, st1, base, m1) && Whole(st1.env)
    ensures Ended(K, cx1, Normal(st1), end, ops, frames, fuel, env0, cont, brk, depth, base, m, n, m1)
  {
    hide Run, Rel, Whole;
  }

  lemma FailEnded(K: Setup, cx: Ctx, r: ERes, ty: ETy, size: nat, fuel: nat, st: SState, base: seq<Value>, m: MState,
                  n: nat, m1: MState, cx1: Ctx, end: nat, ops: seq<Item>, frames: seq<Frame>, env0: seq<Var>,
                  cont: int, brk: int, depth: nat)
    requires ExprDone(K, cx, r, ty, size, fuel, st, base, m, n, m1) && r.EErr?
    ensures Ended(K, cx1, SErr(r.err), end, ops, frames, fuel, env0, cont, brk, depth, base, m, n, m1)
  {
    hide Run, Rel, Failed, LiveLen;
  }

  lemma SimExprStmt(K: Setup, cx: Ctx, fuel: nat, pl: Place, s: Stmt, t: TStmt, cx1: Ctx, st: SState,
                    base: seq<Value>, m: MState, cont: int, brk: int, inFunc: bool) returns (n: nat, m1: MState)
    requires Start(K, cx, pl, st, base, m, inFunc)
    requires s.ExprStmt? && AnalyzeStmt(cx, s) == Some((t, cx1)) && Generable(t)
    requires Ahead(K, m, GenStmt(t), cont, brk, inFunc)
    ensures Ended(K, cx1, ExecStmt(K.P, fuel, pl, st, s), m.pc + Size(GenStmt(t)), m.operands, m.frames, fuel,
      st.env, cont, brk, LoopDepth(cx.scopes), base, m, n, m1)
    decreases fuel, s, 3
  {
    hide Rel, Linked, Run, Size, Ahead, GenExpr, EvalExpr, AnalyzeExpr, CmdSize, LiveLen, Whole, Failed, Kept,
      LoopDepth, Flat;
    StartFacts(K, cx, pl, st, base, m, inFunc);
    AheadSplit(K, m, GenExpr(t.e), GenUnload(t.e.ty), cont, brk, inFunc);
    n, m1 := SimExpr(K, cx, fuel, s.e, t.e, st, base, m, cont, brk, inFunc);
    var r := EvalExpr(K.P, fuel, st, s.e);
    if r.EOk? {
      WholeAfter(K, cx, st, base, m, r.st, m1);
      if t.e.ty.Prim? {
        var c := Unload(t.e.ty.t);
        AheadOne(K, m1, c, cont, brk, inFunc);
        UnloadStep(K, m1, m.operands, r.val.value, cont, brk, inFunc);
        var m2 := Past(m1, c).(operands := m.operands);
        RelOperands(K, cx, r.st, base, m1, m2);
        Chain(K.img, n, m, m1, 1);
        n, m1 := n + 1, m2;
      } else {
        NoSteps(K.img, m1);
      }
    }
  }

  // Evaluating an expression keeps the environment's length, so nothing becomes pending.
  lemma WholeAfter(K: Setup, cx: Ctx, st: SState, base: seq<Value>, m: MState, st1: SState, m1: MState)
    requires Rel(K, cx, st, base, m) && Rel(K, cx, st1, base, m1)
    requires Whole(st.env) && LiveLen(st1.env) == LiveLen(st.env)
    ensures Whole(st1.env) && |st1.env| == |st.env| && Kept(st.env, st1.env)
  {
    hide GlobalsMatch, Extends, Nested, Vals;
    assert |st1.env| == |Flat(cx.scopes)| == |st.env|;
  }

  // ----- definitions -----

  lemma RelParts(K: Setup, cx: Ctx, st: SState, base: seq<Value>, m: MState)
    requires Rel(K, cx, st, base, m)
    ensures EnvMatch(cx.scopes, st.env) && EnvOk(st.env) && Nested(cx.scopes) && Extends(cx.globals, K.G)
    ensures m.locals == base + Vals(st.env[..LiveLen(st.env)])
    ensures m.frames != [] && FrameStart(m) == Extent(base)
    ensures GlobalsMatch(K, st.globals, m.globals) && m.world == st.world
  {
    hide EnvMatch, EnvOk, Nested, Extends, Vals, LiveLen, FrameStart, Extent, GlobalsMatch;
  }

  // Other bindings and declarations, the same live part.
  lemma RelView(K: Setup, cx: Ctx, st: SState, base: seq<Value>, m: MState, cx1: Ctx, env1: seq<Var>)
    requires Rel(K, cx, st, base, m)
    requires EnvMatch(cx1.scopes, env1) && EnvOk(env1) && Nested(cx1.scopes) && Extends(cx1.globals, K.G)
    requires Vals(env1[..LiveLen(env1)]) == Vals(st.env[..LiveLen(st.env)])
    ensures Rel(K, cx1, st.(env := env1), base, m)
  {
    hide EnvMatch, EnvOk, Nested, Extends, Vals, LiveLen, FrameStart, Extent, GlobalsMatch;
  }

  lemma PendingBinding(env: seq<Var>, x: string, t: Ty)
    requires Whole(env)
    ensures var env1 := env + [Var(x, t, None)];
      EnvOk(env1) && env1[..LiveLen(env1)] == env == env[..LiveLen(env)]
  {
    hide Vals;
    PendingLen(env, x, t);
  }

  lemma StartPlace(K: Setup, cx: Ctx, pl: Place, st: SState, base: seq<Value>, m: MState, inFunc: bool)
    requires Start(K, cx, pl, st, base, m, inFunc)
    ensures pl == Place(cx.scopes == [], cx.ret) && (inFunc <==> cx.ret.Some?)
  {
    hide Linked, Rel, Whole;
  }

  lemma GrownGlobals(a: Ctx, b: Ctx)
    requires Grown(a, b) && a.scopes != []
    ensures b.globals == a.globals && b.scopes != []
  {
  }

  lemma Declared(K: Setup, cx: Ctx, t: Ty, x: string, cx1: Ctx, pl: Place, st: SState, base: seq<Value>, m: MState,
                 inFunc: bool)
    requires Start(K, cx, pl, st, base, m, inFunc)
    requires cx.scopes != [] && AddLocal(cx, t, x) == Some(cx1)
    ensures Rel(K, cx1, st.(env := st.env + [Var(x, t, None)]), base, m)
    ensures Flat(cx1.scopes) == Flat(cx.scopes) + [LocalDef(x, t, DefTypes(Flat(cx.scopes)))]
    ensures Grown(cx, cx1)
  {
    hide *;
    var env := st.env + [Var(x, t, None)];
    StartWhole(K, cx, pl, st, base, m, inFunc);
    RelParts(K, cx, st, base, m);
    DefinedLocal(cx, t, x, cx1, st.env, Var(x, t, None));
    GrownGlobals(cx, cx1);
    PendingBinding(st.env, x, t);
    RelView(K, cx, st, base, m, cx1, env);
  }

  // The pending binding gets its value when the machine creates the variable.
  lemma Initialized(K: Setup, cx1: Ctx, t: Ty, x: string, st: SState, base: seq<Value>, m: MState, raw: Raw)
    requires Rel(K, cx1, st, base, m)
    requires st.env != [] && LiveLen(st.env) == |st.env| - 1
    requires st.env[|st.env| - 1].name == x && st.env[|st.env| - 1].ty == t
    ensures var env1 := st.env[..|st.env| - 1] + [Var(x, t, Some(raw))];
      Whole(env1) && Rel(K, cx1, st.(env := env1), base, m.(locals := m.locals + [Val(t, raw)]))
  {
    hide GlobalsMatch, Extent, Nested, Extends, Flat;
    var k := |st.env| - 1;
    var env1 := st.env[..k] + [Var(x, t, Some(raw))];
    assert Whole(env1);
    assert env1[..k + 1] == env1;
    assert Vals(env1) == Vals(st.env[..k]) + [Val(t, raw)];
  }

  lemma LastBinding(K: Setup, cx1: Ctx, t: Ty, x: string, st: SState, base: seq<Value>, m: MState)
    requires Rel(K, cx1, st, base, m)
    requires Flat(cx1.scopes) != [] && var d := Flat(cx1.scopes)[|Flat(cx1.scopes)| - 1]; d.name == x && d.t == t
    ensures st.env != [] && st.env[|st.env| - 1].name == x && st.env[|st.env| - 1].ty == t
  {
    hide GlobalsMatch, Extent, Nested, Extends, Flat, Vals;
  }

  lemma CreateStep(K: Setup, m: MState, ty: Ty, cont: int, brk: int, inFunc: bool)
    requires Next(K, m, CreateLocal(ty), cont, brk, inFunc)
    ensures Run(K.img, 1, m) == Some(Past(m, CreateLocal(ty)).(locals := m.locals + [Default(ty)]))
  {
    hide At, Run, CmdSize;
    Fetch(K, m, CreateLocal(ty), cont, brk, inFunc);
  }

  // The pending variable gets the value on top of the operands.
  lemma InitValue(K: Setup, cx1: Ctx, ty: Ty, x: string, v: Value, ops: seq<Item>, st0: SState, st1: SState,
                  base: seq<Value>, m: MState, n: nat, m1: MState, cont: int, brk: int, inFunc: bool)
      returns (n2: nat, m2: MState)
    requires Rel(K, cx1, st0, base, m) && Run(K.img, n, m) == Some(m1) && Rel(K, cx1, st1, base, m1)
    requires LiveLen(st1.env) == LiveLen(st0.env) == |st0.env| - 1
    requires Flat(cx1.scopes) != [] && var d := Flat(cx1.scopes)[|Flat(cx1.scopes)| - 1]; d.name == x && d.t == ty
    requires v.ty == ty && m1.operands == ops + [V(v)] && Next(K, m1, InitLocal(ty), cont, brk, inFunc)
    ensures |st1.env| == |st0.env| && n2 == n + 1 && Run(K.img, n2, m) == Some(m2)
    ensures var st2 := st1.(env := st1.env[..|st1.env| - 1] + [Var(x, ty, Some(v.raw))]);
      && Rel(K, cx1, st2, base, m2) && Whole(st2.env)
      && m2.pc == m1.pc + CmdSize(InitLocal(ty)) && m2.operands == ops && m2.frames == m1.frames
  {
    hide Rel, Run, CmdSize, LiveLen, Whole, Flat;
    LastBinding(K, cx1, ty, x, st1, base, m1);
    InitStep(K, m1, ops, v, cont, brk, inFunc);
    Chain(K.img, n, m, m1, 1);
    SameLen(K, cx1, st0, base, m, st1, m1);
    Initialized(K, cx1, ty, x, st1, base, m1, v.raw);
    n2, m2 := n + 1, Past(m1, InitLocal(ty)).(operands := ops, locals := m1.locals + [v]);
    RelBase(K, cx1, st1.(env := st1.env[..|st1.env| - 1] + [Var(x, ty, Some(v.raw))]), base,
      m1.(locals := m1.locals + [v]), m2);
  }

  lemma SimLocalPlain(K: Setup, cx: Ctx, fuel: nat, pl: Place, s: Stmt, t: TStmt, cx1: Ctx, st: SState,
                      base: seq<Value>, m: MState, cont: int, brk: int, inFunc: bool) returns (n: nat, m1: MState)
    requires Start(K, cx, pl, st, base, m, inFunc)
    requires cx.scopes != [] && s.VarDef? && s.init.None? && AnalyzeStmt(cx, s) == Some((t, cx1))
    requires Ahead(K, m, GenStmt(t), cont, brk, inFunc)
    ensures Ended(K, cx1, ExecStmt(K.P, fuel, pl, st, s), m.pc + Size(GenStmt(t)), m.operands, m.frames, fuel,
      st.env, cont, brk, LoopDepth(cx.scopes), base, m, n, m1)
    decreases fuel, s, 2
  {
    hide Rel, Linked, Run, Size, Ahead, GenExpr, EvalTo, AnalyzeTo, CmdSize, AddLocal, LiveLen, Whole, Failed;
    var ty, x := s.ty, s.name;
    Declared(K, cx, ty, x, cx1, pl, st, base, m, inFunc);
    var st0 := st.(env := st.env + [Var(x, ty, None)]);
    PendingLen(st.env, x, ty);
    var c := CreateLocal(ty);
    AheadOne(K, m, c, cont, brk, inFunc);
    CreateStep(K, m, ty, cont, brk, inFunc);
    m1 := Past(m, c).(locals := m.locals + [Default(ty)]);
    n := 1;
    Initialized(K, cx1, ty, x, st0, base, m, Default(ty).raw);
    assert st0.env[..|st0.env| - 1] == st.env;
    RelBase(K, cx1, st.(env := st.env + [Var(x, ty, Some(Default(ty).raw))]), base,
      m.(locals := m.locals + [Default(ty)]), m1);
  }

  lemma LocalInitPlan(cx: Ctx, s: Stmt, t: TStmt, cx1: Ctx)
    requires cx.scopes != [] && s.VarDef? && s.init.Some? && AnalyzeStmt(cx, s) == Some((t, cx1))
    ensures t.TLocalDef? && t.init.Some? && AddLocal(cx, s.ty, s.name) == Some(cx1)
    ensures AnalyzeTo(cx1, s.init.value, s.ty, false) == Some(t.init.value)
    ensures GenStmt(t) == GenExpr(t.init.value) + [InitLocal(s.ty)]
  {
    hide AnalyzeTo, AddLocal, GenExpr;
  }

  // What a local definition yields once its initializer is evaluated.
  function LocalDefined(t: Ty, x: string, r: ERes): SRes {
    match r
    case EErr(err) => SErr(err)
    case EOk(v, st1) =>
      if v.None? || st1.env == [] then SErr(Wrong)
      else Normal(st1.(env := st1.env[..|st1.env| - 1] + [Var(x, t, Some(v.value.raw))]))
  }

  lemma LocalByParts(P: Prog, fuel: nat, pl: Place, st: SState, s: Stmt)
    requires s.VarDef? && s.init.Some? && !pl.top
    ensures ExecStmt(P, fuel, pl, st, s) == LocalDefined(s.ty, s.name,
      EvalTo(P, fuel, st.(env := st.env + [Var(s.name, s.ty, None)]), s.init.value, s.ty))
  {
    hide EvalTo;
  }

  lemma LocalDefinedIs(t: Ty, x: string, r: ERes)
    ensures r.EErr? ==> LocalDefined(t, x, r) == SErr(r.err)
    ensures r.EOk? && r.val.Some? && r.st.env != [] ==>
      LocalDefined(t, x, r) == Normal(r.st.(env := r.st.env[..|r.st.env| - 1] + [Var(x, t, Some(r.val.value.raw))]))
  {
  }

  lemma SimLocalInit(K: Setup, cx: Ctx, fuel: nat, pl: Place, s: Stmt, t: TStmt, cx1: Ctx, st: SState,
                     base: seq<Value>, m: MState, cont: int, brk: int, inFunc: bool) returns (n: nat, m1: MState)
    requires Start(K, cx, pl, st, base, m, inFunc)
    requires cx.scopes != [] && s.VarDef? && s.init.Some? && AnalyzeStmt(cx, s) == Some((t, cx1))
    requires Ahead(K, m, GenStmt(t), cont, brk, inFunc)
    ensures Ended(K, cx1, ExecStmt(K.P, fuel, pl, st, s), m.pc + Size(GenStmt(t)), m.operands, m.frames, fuel,
      st.env, cont, brk, LoopDepth(cx.scopes), base, m, n, m1)
    decreases fuel, s, 2
  {
    hide *;
    LocalInitPlan(cx, s, t, cx1);
    StartPlace(K, cx, pl, st, base, m, inFunc);
    StartWhole(K, cx, pl, st, base, m, inFunc);
    var ty, x, e, te := s.ty, s.name, s.init.value, t.init.value;
    Declared(K, cx, ty, x, cx1, pl, st, base, m, inFunc);
    var st0 := st.(env := st.env + [Var(x, ty, None)]);
    PendingLen(st.env, x, ty);
    LocalByParts(K.P, fuel, pl, st, s);
    var c, size, end, depth := InitLocal(ty), Size(GenExpr(te)), m.pc + Size(GenStmt(t)), LoopDepth(cx.scopes);
    AheadSplit(K, m, GenExpr(te), [c], cont, brk, inFunc);
    n, m1 := SimTo(K, cx1, fuel, e, ty, te, st0, base, m, cont, brk, inFunc);
    var r := EvalTo(K.P, fuel, st0, e, ty);
    LocalDefinedIs(ty, x, r);
    if r.EOk? {
      DoneValue(K, cx1, r, ty, size, fuel, st0, base, m, n, m1);
      AheadOne(K, m1, c, cont, brk, inFunc);
      n, m1 := InitValue(K, cx1, ty, x, r.val.value, m.operands, st0, r.st, base, m, n, m1, cont, brk, inFunc);
      NormalEnded(K, cx1, r.st.(env := r.st.env[..|r.st.env| - 1] + [Var(x, ty, Some(r.val.value.raw))]), end,
        m.operands, m.frames, fuel, st.env, cont, brk, depth, base, m, n, m1);
    } else {
      FailEnded(K, cx1, r, Prim(ty), size, fuel, st0, base, m, n, m1, cx1, end, m.operands, m.frames, st.env, cont,
        brk, depth);
    }
  }

  lemma SimLocalDef(K: Setup, cx: Ctx, fuel: nat, pl: Place, s: Stmt, t: TStmt, cx1: Ctx, st: SState,
                    base: seq<Value>, m: MState, cont: int, brk: int, inFunc: bool) returns (n: nat, m1: MState)
    requires Start(K, cx, pl, st, base, m, inFunc)
    requires cx.scopes != [] && s.VarDef? && AnalyzeStmt(cx, s) == Some((t, cx1))
    requires Ahead(K, m, GenStmt(t), cont, brk, inFunc)
    ensures Ended(K, cx1, ExecStmt(K.P, fuel, pl, st, s), m.pc + Size(GenStmt(t)), m.operands, m.frames, fuel,
      st.env, cont, brk, LoopDepth(cx.scopes), base, m, n, m1)
    decreases fuel, s, 3
  {
    hide *;
    if s.init.None? {
      n, m1 := SimLocalPlain(K, cx, fuel, pl, s, t, cx1, st, base, m, cont, brk, inFunc);
    } else {
      n, m1 := SimLocalInit(K, cx, fuel, pl, s, t, cx1, st, base, m, cont, brk, inFunc);
    }
  }

  lemma PendingLen(env: seq<Var>, x: string, t: Ty)
    ensures LiveLen(env + [Var(x, t, None)]) == |env|
  {
  }

  lemma SameLen(K: Setup, cx: Ctx, st: SState, base: seq<Value>, m: MState, st1: SState, m1: MState)
    requires Rel(K, cx, st, base, m) && Rel(K, cx, st1, base, m1)
    ensures |st1.env| == |st.env|
  {
    hide GlobalsMatch, Extends, Nested, Vals, EnvOk, LiveLen, Extent;
  }

  lemma InitStep(K: Setup, m: MState, ops: seq<Item>, v: Value, cont: int, brk: int, inFunc: bool)
    requires Next(K, m, InitLocal(v.ty), cont, brk, inFunc)
    requires m.operands == ops + [V(v)]
    ensures Run(K.img, 1, m) == Some(Past(m, InitLocal(v.ty)).(operands := ops, locals := m.locals + [v]))
  {
    hide At, Run;
    Fetch(K, m, InitLocal(v.ty), cont, brk, inFunc);
    assert m.operands[..|m.operands| - 1] == ops;
  }

  // CREATE GLOBAL and INIT GLOBAL define the variable in its slot.
  lemma GlobalDefStep(K: Setup, g: map<string, Value>, x: string, c: Cmd, ops: seq<Item>, v: Value, m: MState,
                      cont: int, brk: int, inFunc: bool)
    requires GlobalsLinked(K) && GlobalsMatch(K, g, m.globals)
    requires x in K.P.globals && v.ty == K.P.globals[x]
    requires (c == InitGlobal(v.ty, Sym(x)) && m.operands == ops + [V(v)])
      || (c == CreateGlobal(v.ty, Sym(x)) && m.operands == ops && v == Default(v.ty))
    requires Next(K, m, c, cont, brk, inFunc)
    ensures var mg := m.globals[K.link.slots[x] := v];
      Run(K.img, 1, m) == Some(Past(m, c).(operands := ops, globals := mg)) && GlobalsMatch(K, g[x := v], mg)
  {
    hide At, Run, GlobalsMatch, WriteGlobal, Zeros;
    GlobalWrite(K, g, m.globals, x, v);
    Fetch(K, m, c, cont, brk, inFunc);
    if c.InitGlobal? {
      assert m.operands[..|m.operands| - 1] == ops;
    }
  }

  lemma GlobalDefRel(K: Setup, cx: Ctx, x: string, t: Ty, st: SState, base: seq<Value>, m: MState, m1: MState, v: Value)
    requires Rel(K, cx, st, base, m) && cx.scopes == [] && Whole(st.env)
    requires Extends(cx.globals[x := GVar(t)], K.G)
    requires GlobalsMatch(K, st.globals[x := v], m1.globals)
    requires m1 == m.(pc := m1.pc, operands := m1.operands, globals := m1.globals)
    ensures Rel(K, cx.(globals := cx.globals[x := GVar(t)]), st.(globals := st.globals[x := v]), base, m1)
  {
    hide GlobalsMatch, EnvMatch, Vals, Extent;
  }

  lemma GlobalPlan(K: Setup, cx: Ctx, s: Stmt, t: TStmt, cx1: Ctx)
    requires cx.scopes == [] && s.VarDef? && AnalyzeStmt(cx, s) == Some((t, cx1)) && Extends(cx1.globals, K.G)
    requires Linked(K)
    ensures cx1 == cx.(globals := cx.globals[s.name := GVar(s.ty)])
    ensures s.name in K.P.globals && K.P.globals[s.name] == s.ty
    ensures t.TGlobalDef? && t.init.Some? == s.init.Some?
    ensures s.init.None? ==> GenStmt(t) == [CreateGlobal(s.ty, Sym(s.name))]
    ensures s.init.Some? ==> AnalyzeTo(cx1, s.init.value, s.ty, false) == Some(t.init.value)
    ensures s.init.Some? ==> GenStmt(t) == GenExpr(t.init.value) + [InitGlobal(s.ty, Sym(s.name))]
  {
    hide AnalyzeTo, GenExpr, NativesLinked, FuncsLinked;
    assert s.name in cx1.globals && cx1.globals[s.name] == GVar(s.ty);
  }

  lemma GlobalDefault(P: Prog, fuel: nat, pl: Place, st: SState, s: Stmt)
    requires s.VarDef? && s.init.None? && pl.top
    ensures ExecStmt(P, fuel, pl, st, s) == Normal(st.(globals := st.globals[s.name := Default(s.ty)]))
  {
  }

  lemma DefaultTyped(t: Ty)
    ensures Default(t).ty == t
  {
  }

  lemma SimGlobalDef(K: Setup, cx: Ctx, fuel: nat, pl: Place, s: Stmt, t: TStmt, cx1: Ctx, st: SState,
                     base: seq<Value>, m: MState, cont: int, brk: int, inFunc: bool) returns (n: nat, m1: MState)
    requires Start(K, cx, pl, st, base, m, inFunc)
    requires cx.scopes == [] && s.VarDef? && AnalyzeStmt(cx, s) == Some((t, cx1)) && Extends(cx1.globals, K.G)
    requires Ahead(K, m, GenStmt(t), cont, brk, inFunc)
    ensures Ended(K, cx1, ExecStmt(K.P, fuel, pl, st, s), m.pc + Size(GenStmt(t)), m.operands, m.frames, fuel,
      st.env, cont, brk, LoopDepth(cx.scopes), base, m, n, m1)
    decreases fuel, s, 3
  {
    hide *;
    var ty, x := s.ty, s.name;
    StartWhole(K, cx, pl, st, base, m, inFunc);
    StartPlace(K, cx, pl, st, base, m, inFunc);
    GlobalPlan(K, cx, s, t, cx1);
    if s.init.Some? {
      n, m1 := SimGlobalInit(K, cx, fuel, pl, s, t.init.value, cx1, st, base, m, cont, brk, inFunc);
    } else {
      var c, v := CreateGlobal(ty, Sym(x)), Default(ty);
      LinkedGlobals(K);
      GlobalDefault(K.P, fuel, pl, st, s);
      AheadOne(K, m, c, cont, brk, inFunc);
      RelGlobals(K, cx, st, base, m);
      DefaultTyped(ty);
      GlobalDefStep(K, st.globals, x, c, m.operands, v, m, cont, brk, inFunc);
      PastIs(m, c);
      n, m1 := 1, Past(m, c).(globals := m.globals[K.link.slots[x] := v]);
      GlobalDefRel(K, cx, x, ty, st, base, m, m1, v);
      NormalEnded(K, cx1, st.(globals := st.globals[x := v]), m.pc + Size([c]), m.operands, m.frames, fuel, st.env,
        cont, brk, LoopDepth(cx.scopes), base, m, n, m1);
    }
  }

  // What a global definition yields once its initializer is evaluated.
  function GlobalDefined(x: string, r: ERes): SRes {
    match r
    case EErr(err) => SErr(err)
    case EOk(v, st1) =>
      if v.None? then SErr(Wrong) else Normal(st1.(globals := st1.globals[x := v.value]))
  }

  lemma GlobalByParts(P: Prog, fuel: nat, pl: Place, st: SState, s: Stmt)
    requires s.VarDef? && s.init.Some? && pl.top
    ensures ExecStmt(P, fuel, pl, st, s) == GlobalDefined(s.name, EvalTo(P, fuel, st, s.init.value, s.ty))
  {
    hide EvalTo;
  }

  lemma GlobalDefinedIs(x: string, r: ERes)
    ensures r.EErr? ==> GlobalDefined(x, r) == SErr(r.err)
    ensures r.EOk? && r.val.Some? ==> GlobalDefined(x, r) == Normal(r.st.(globals := r.st.globals[x := r.val.value]))
  {
  }

  lemma LinkedGlobals(K: Setup)
    requires Linked(K)
    ensures GlobalsLinked(K)
    ensures forall x :: x in K.P.globals ==> x in K.link.slots
  {
    hide NativesLinked, FuncsLinked;
  }

  lemma SimGlobalInit(K: Setup, cx: Ctx, fuel: nat, pl: Place, s: Stmt, te: TExpr, cx1: Ctx, st: SState,
                      base: seq<Value>, m: MState, cont: int, brk: int, inFunc: bool) returns (n: nat, m1: MState)
    requires Linked(K) && Rel(K, cx, st, base, m) && Whole(st.env) && pl.top
    requires cx.scopes == [] && s.VarDef? && s.init.Some?
    requires cx1 == cx.(globals := cx.globals[s.name := GVar(s.ty)]) && Extends(cx1.globals, K.G)
    requires AnalyzeTo(cx1, s.init.value, s.ty, false) == Some(te)
    requires s.name in K.P.globals && K.P.globals[s.name] == s.ty
    requires Ahead(K, m, GenExpr(te) + [InitGlobal(s.ty, Sym(s.name))], cont, brk, inFunc)
    ensures Ended(K, cx1, ExecStmt(K.P, fuel, pl, st, s), m.pc + Size(GenExpr(te) + [InitGlobal(s.ty, Sym(s.name))]),
      m.operands, m.frames, fuel, st.env, cont, brk, LoopDepth(cx.scopes), base, m, n, m1)
    decreases fuel, s.init, 3
  {
    hide *;
    var ty, x := s.ty, s.name;
    var c, size, depth := InitGlobal(ty, Sym(x)), Size(GenExpr(te)), LoopDepth(cx.scopes);
    var end := m.pc + Size(GenExpr(te) + [c]);
    LinkedGlobals(K);
    AheadSplit(K, m, GenExpr(te), [c], cont, brk, inFunc);
    RelGlobalView(K, cx, cx1, st, base, m);
    n, m1 := SimTo(K, cx1, fuel, s.init.value, ty, te, st, base, m, cont, brk, inFunc);
    var r := EvalTo(K.P, fuel, st, s.init.value, ty);
    GlobalByParts(K.P, fuel, pl, st, s);
    GlobalDefinedIs(x, r);
    if r.EOk? {
      DoneValue(K, cx1, r, ty, size, fuel, st, base, m, n, m1);
      var v := r.val.value;
      RelGlobals(K, cx, st, base, m);
      RelGlobals(K, cx1, r.st, base, m1);
      AheadOne(K, m1, c, cont, brk, inFunc);
      GlobalDefStep(K, r.st.globals, x, c, m.operands, v, m1, cont, brk, inFunc);
      Chain(K.img, n, m, m1, 1);
      PastIs(m1, c);
      var m2 := Past(m1, c).(operands := m.operands, globals := m1.globals[K.link.slots[x] := v]);
      WholeAfter(K, cx1, st, base, m, r.st, m1);
      RelGlobalView(K, cx1, cx, r.st, base, m1);
      GlobalDefRel(K, cx, x, ty, r.st, base, m1, m2, v);
      n, m1 := n + 1, m2;
      NormalEnded(K, cx1, r.st.(globals := r.st.globals[x := v]), end, m.operands, m.frames, fuel, st.env, cont, brk,
        depth, base, m, n, m1);
    } else {
      FailEnded(K, cx1, r, Prim(ty), size, fuel, st, base, m, n, m1, cx1, end, m.operands, m.frames, st.env, cont, brk,
        depth);
    }
  }

  // The correspondence depends on the visible globals only through their declarations.
  lemma RelGlobalView(K: Setup, cx: Ctx, cx1: Ctx, st: SState, base: seq<Value>, m: MState)
    requires Rel(K, cx, st, base, m) && cx1.scopes == cx.scopes && Extends(cx1.globals, K.G)
    ensures Rel(K, cx1, st, base, m)
  {
    hide GlobalsMatch, EnvMatch, Vals, Extent, Extends, Nested;
  }

  lemma RelGlobals(K: Setup, cx: Ctx, st: SState, base: seq<Value>, m: MState)
    requires Rel(K, cx, st, base, m)
    ensures GlobalsMatch(K, st.globals, m.globals) && m.world == st.world
    ensures Extends(cx.globals, K.G)
  {
    hide GlobalsMatch, EnvMatch, Vals, Extent, Extends, Nested;
  }

  // ----- jumps and returns -----

  // Destroying the last bindings of the environment.
  lemma SimUnwind(K: Setup, env: seq<Var>, d: nat, ts: seq<Ty>, base: seq<Value>, m: MState, cont: int, brk: int,
                  inFunc: bool)
    requires d <= |env| && |ts| == |env| - d
    requires forall i :: 0 <= i < |ts| ==> env[d + i].ty == ts[i]
    requires m.locals == base + Vals(env)
    requires Ahead(K, m, Destroy(ts), cont, brk, inFunc)
    ensures Run(K.img, |ts|, m) == Some(m.(pc := m.pc + Size(Destroy(ts)), locals := base + Vals(env[..d])))
  {
    hide Ahead, Run, Size, Destroy;
    var vs := Vals(env)[d..];
    assert m.locals == base + Vals(env[..d]) + vs;
    SimDestroy(K, ts, vs, base + Vals(env[..d]), m, cont, brk, inFunc);
  }

  lemma FlowTypes(K: Setup, cx: Ctx, st: SState, base: seq<Value>, m: MState, d: nat)
    requires Rel(K, cx, st, base, m) && d <= |st.env|
    ensures |Flat(cx.scopes)| == |st.env|
    ensures var ts := DefTypes(Flat(cx.scopes)[d..]);
      |ts| == |st.env| - d && forall i :: 0 <= i < |ts| ==> st.env[d + i].ty == ts[i]
  {
    hide GlobalsMatch, Vals, Extent, Extends, Nested, EnvOk;
  }

  lemma JumpAnalysis(cx: Ctx, s: Stmt, t: TStmt, cx1: Ctx)
    requires (s.Break? || s.Continue?) && AnalyzeStmt(cx, s) == Some((t, cx1))
    ensures cx1 == cx && Within(cx.scopes, Loop)
    ensures t == (if s.Break? then TBreak(DefTypes(FlowUpTo(cx.scopes, Loop)))
                  else TContinue(DefTypes(FlowUpTo(cx.scopes, Loop))))
  {
  }

  lemma KeptSelf(env: seq<Var>)
    ensures Kept(env, env)
  {
  }

  lemma SimJump(K: Setup, cx: Ctx, fuel: nat, pl: Place, s: Stmt, t: TStmt, cx1: Ctx, st: SState,
                base: seq<Value>, m: MState, cont: int, brk: int, inFunc: bool) returns (n: nat, m1: MState)
    requires Start(K, cx, pl, st, base, m, inFunc)
    requires (s.Break? || s.Continue?) && AnalyzeStmt(cx, s) == Some((t, cx1))
    requires cont >= 0 && brk >= 0
    requires Ahead(K, m, GenStmt(t), cont, brk, inFunc)
    ensures Ended(K, cx1, ExecStmt(K.P, fuel, pl, st, s), m.pc + Size(GenStmt(t)), m.operands, m.frames, fuel,
      st.env, cont, brk, LoopDepth(cx.scopes), base, m, n, m1)
    decreases fuel, s, 3
  {
    hide Start, Rel, Run, Size, Ahead, Destroy, LoopDepth, FlowUpTo, Within, GlobalsMatch, Vals, CmdSize, Flat,
      DefTypes, AnalyzeStmt, Kept, Whole, Extent, FrameStart, Stuck, Step;
    KeptSelf(st.env);
    StartFacts(K, cx, pl, st, base, m, inFunc);
    StartWhole(K, cx, pl, st, base, m, inFunc);
    JumpAnalysis(cx, s, t, cx1);
    LoopFlow(cx.scopes);
    var d := LoopDepth(cx.scopes);
    FlowTypes(K, cx, st, base, m, d);
    var target := if s.Break? then ToBreak else ToContinue;
    var c := Jump(Direct, target);
    m1 := m.(pc := if s.Break? then brk else cont, locals := base + Vals(st.env[..d]));
    n := |t.flow| + 1;
    assert Run(K.img, n, m) == Some(m1) by {
      RunJump(K, st.env, d, t.flow, target, base, m, cont, brk, inFunc);
    }
  }

  // The unwinding and the jump behind it.
  lemma RunJump(K: Setup, env: seq<Var>, d: nat, flow: seq<Ty>, target: Target, base: seq<Value>, m: MState,
                cont: int, brk: int, inFunc: bool)
    requires d <= |env| && m.locals == base + Vals(env)
    requires |flow| == |env| - d && forall i :: 0 <= i < |flow| ==> env[d + i].ty == flow[i]
    requires target == ToBreak || target == ToContinue
    requires cont >= 0 && brk >= 0
    requires Ahead(K, m, Destroy(flow) + [Jump(Direct, target)], cont, brk, inFunc)
    ensures Run(K.img, |flow| + 1, m) ==
      Some(m.(pc := if target == ToBreak then brk else cont, locals := base + Vals(env[..d])))
  {
    hide Run, Size, Ahead, Destroy, Vals, CmdSize, Extent, FrameStart, Step, Ready;
    var c := Jump(Direct, target);
    AheadSplit(K, m, Destroy(flow), [c], cont, brk, inFunc);
    SimUnwind(K, env, d, flow, base, m, cont, brk, inFunc);
    var m2 := m.(pc := m.pc + Size(Destroy(flow)), locals := base + Vals(env[..d]));
    AheadOne(K, m2, c, cont, brk, inFunc);
    StepDirect(K, m2, target, cont, brk, inFunc);
    Chain(K.img, |flow|, m, m2, 1);
  }

  lemma WholeLocals(K: Setup, cx: Ctx, st: SState, base: seq<Value>, m: MState)
    requires Rel(K, cx, st, base, m) && Whole(st.env)
    ensures m.locals == base + Vals(st.env)
    ensures FlowUpTo(cx.scopes, FuncScope) == Flat(cx.scopes)
  {
    hide GlobalsMatch, EnvMatch, Vals, Extent, Extends;
    FlowAll(cx.scopes);
    assert st.env[..|st.env|] == st.env;
  }

  // Behind the return value: everything local is destroyed and the frame left.
  lemma SimLeave(K: Setup, cx: Ctx, st: SState, flow: seq<Ty>, base: seq<Value>, m: MState, cont: int, brk: int)
      returns (n: nat, m1: MState)
    requires Rel(K, cx, st, base, m) && Whole(st.env)
    requires flow == DefTypes(FlowUpTo(cx.scopes, FuncScope))
    requires Ahead(K, m, Destroy(flow) + [Ret], cont, brk, true)
    ensures var k := |m.frames| - 1;
      k >= 1 && Run(K.img, n, m) == Some(m1) &&
      m1 == m.(pc := m.frames[k].ret, frames := m.frames[..k], locals := base)
  {
    hide Rel, Run, Size, Destroy, FlowUpTo, GlobalsMatch, Vals, CmdSize, Flat, Ahead, Whole;
    WholeLocals(K, cx, st, base, m);
    FlowTypes(K, cx, st, base, m, 0);
    assert Flat(cx.scopes)[0..] == Flat(cx.scopes);
    AheadSplit(K, m, Destroy(flow), [Ret], cont, brk, true);
    SimUnwind(K, st.env, 0, flow, base, m, cont, brk, true);
    assert Vals(st.env[..0]) == [] && base + [] == base;
    var m2 := m.(pc := m.pc + Size(Destroy(flow)), locals := base);
    AheadOne(K, m2, Ret, cont, brk, true);
    ReturnStep(K, m2, cont, brk);
    Chain(K.img, |flow|, m, m2, 1);
    n, m1 := |flow| + 1, m2.(pc := m2.frames[|m2.frames| - 1].ret, frames := m2.frames[..|m2.frames| - 1]);
  }

  lemma ReturnStep(K: Setup, m: MState, cont: int, brk: int)
    requires Next(K, m, Ret, cont, brk, true)
    ensures Run(K.img, 1, m) == Some(m.(pc := m.frames[|m.frames| - 1].ret, frames := m.frames[..|m.frames| - 1]))
  {
    hide At, Run, CmdSize;
    Fetch(K, m, Ret, cont, brk, true);
  }

  lemma SimReturn(K: Setup, cx: Ctx, fuel: nat, pl: Place, s: Stmt, t: TStmt, cx1: Ctx, st: SState,
                  base: seq<Value>, m: MState, cont: int, brk: int, inFunc: bool) returns (n: nat, m1: MState)
    requires Start(K, cx, pl, st, base, m, inFunc)
    requires s.Return? && AnalyzeStmt(cx, s) == Some((t, cx1))
    requires Ahead(K, m, GenStmt(t), cont, brk, inFunc)
    ensures Ended(K, cx1, ExecStmt(K.P, fuel, pl, st, s), m.pc + Size(GenStmt(t)), m.operands, m.frames, fuel,
      st.env, cont, brk, LoopDepth(cx.scopes), base, m, n, m1)
    decreases fuel, s, 3
  {
    hide Rel, Linked, Run, Size, Ahead, Destroy, LoopDepth, FlowUpTo, GlobalsMatch, Vals, Extent, GenExpr, EvalTo,
      AnalyzeTo, Failed;
    StartFacts(K, cx, pl, st, base, m, inFunc);
    match s.value
    case None =>
      assert [] + (Destroy(t.flow) + [Ret]) == Destroy(t.flow) + [Ret];
      n, m1 := SimLeave(K, cx, st, t.flow, base, m, cont, brk);
    case Some(e) =>
      var te := t.value.value;
      AheadSplit(K, m, GenExpr(te), Destroy(t.flow) + [Ret], cont, brk, inFunc);
      n, m1 := SimTo(K, cx, fuel, e, cx.ret.value.value, te, st, base, m, cont, brk, inFunc);
      var r := EvalTo(K.P, fuel, st, e, cx.ret.value.value);
      if r.EOk? {
        WholeAfter(K, cx, st, base, m, r.st, m1);
        RelGlobals(K, cx, r.st, base, m1);
        var n2, m2 := SimLeave(K, cx, r.st, t.flow, base, m1, cont, brk);
        Chain(K.img, n, m, m1, n2);
        n, m1 := n + n2, m2;
      }
  }

  // ----- blocks -----

  // Entering a scope changes nothing yet.
  lemma EnterBlock(K: Setup, cx: Ctx, kind: ScopeKind, pl: Place, st: SState, base: seq<Value>, m: MState, inFunc: bool)
    requires Start(K, cx, pl, st, base, m, inFunc) && kind != FuncScope
    ensures Start(K, Push(cx, kind), pl.(top := false), st, base, m, inFunc)
    ensures LoopDepth(Push(cx, kind).scopes) <= |st.env|
  {
    hide Linked, GlobalsMatch, Extends, Extent, Vals, EnvOk;
    LoopDepthPush(cx, kind);
    LoopDepthBound(Push(cx, kind).scopes);
  }

  // A block that ended normally: its variables are destroyed.
  lemma ExitBlock(K: Setup, cx: Ctx, cx2: Ctx, defs: seq<Ty>, st: SState, base: seq<Value>, m: MState, st2: SState,
                  m2: MState, cont: int, brk: int, inFunc: bool) returns (m3: MState)
    requires Rel(K, cx, st, base, m) && Rel(K, cx2, st2, base, m2) && Whole(st2.env)
    requires |Flat(cx.scopes)| <= |Flat(cx2.scopes)| && Flat(cx2.scopes)[..|Flat(cx.scopes)|] == Flat(cx.scopes)
    requires defs == DefTypes(Flat(cx2.scopes)[|Flat(cx.scopes)|..])
    requires Ahead(K, m2, Destroy(defs), cont, brk, inFunc)
    ensures |st.env| <= |st2.env| && Whole(st2.env[..|st.env|])
    ensures Run(K.img, |defs|, m2) == Some(m3)
    ensures m3 == m2.(pc := m2.pc + Size(Destroy(defs)), locals := m3.locals)
    ensures Rel(K, cx, st2.(env := st2.env[..|st.env|]), base, m3)
  {
    hide Run, Size, Ahead, Destroy, GlobalsMatch, Extent, Flat, Vals, Extends, Nested;
    var d := |st.env|;
    FlowTypes(K, cx2, st2, base, m2, d);
    MatchPrefix(cx.scopes, st.env, cx2.scopes, st2.env);
    KeptMatch(cx.scopes, st.env, st2.env);
    assert st2.env[..|st2.env|] == st2.env;
    SimUnwind(K, st2.env, d, defs, base, m2, cont, brk, inFunc);
    m3 := m2.(pc := m2.pc + Size(Destroy(defs)), locals := base + Vals(st2.env[..d]));
    Unwound(K, cx, cx2, st2, base, m2, d);
    RelBase(K, cx, st2.(env := st2.env[..d]), base, m2.(locals := base + Vals(st2.env[..d])), m3);
  }

  // Leaving a block with a jump under way.
  lemma LeaveLeft(K: Setup, st1: SState, target: int, ops: seq<Item>, frames: seq<Frame>, env0: seq<Var>,
                  depth: nat, base: seq<Value>, m: MState, n: nat, m1: MState)
    requires Left(K, st1, target, ops, frames, env0, depth, base, m, n, m1)
    ensures Left(K, st1.(env := st1.env[..|env0|]), target, ops, frames, env0, depth, base, m, n, m1)
  {
    hide Run, GlobalsMatch;
    assert st1.env[..|env0|][..depth] == st1.env[..depth];
  }

  lemma SimBlock(K: Setup, cx: Ctx, kind: ScopeKind, fuel: nat, pl: Place, ss: seq<Stmt>, ts: seq<TStmt>, defs: seq<Ty>,
                 st: SState, base: seq<Value>, m: MState, cont: int, brk: int, inFunc: bool)
      returns (n: nat, m1: MState)
    requires Start(K, cx, pl, st, base, m, inFunc) && kind != FuncScope
    requires AnalyzeBlock(cx, kind, ss) == Some((ts, defs)) && GenerableAll(ts)
    requires cont >= 0 && brk >= 0
    requires Ahead(K, m, GenStmts(ts) + Destroy(defs), cont, brk, inFunc)
    ensures Ended(K, cx, ExecBlock(K.P, fuel, pl, st, ss), m.pc + Size(GenStmts(ts) + Destroy(defs)), m.operands,
      m.frames, fuel, st.env, cont, brk, LoopDepth(Push(cx, kind).scopes), base, m, n, m1)
    decreases fuel, ss, 1
  {
    hide Rel, Linked, Run, Size, Ahead, GenStmts, Destroy, AnalyzeStmts, ExecStmts, LoopDepth, GlobalsMatch, Flat, Left,
      Generable, Push;
    var cxb := Push(cx, kind);
    var plb := pl.(top := false);
    EnterBlock(K, cx, kind, pl, st, base, m, inFunc);
    var cx2 := AnalyzeStmts(cxb, ss).value.1;
    BlockDefs(cx, kind, ss, cx2);
    AheadSplit(K, m, GenStmts(ts), Destroy(defs), cont, brk, inFunc);
    RelGlobals(K, cx, st, base, m);
    n, m1 := SimStmts(K, cxb, fuel, plb, ss, ts, cx2, st, base, m, cont, brk, inFunc);
    var r := ExecStmts(K.P, fuel, plb, st, ss);
    var depth := LoopDepth(cxb.scopes);
    match r
    case Normal(st2) =>
      var m3 := ExitBlock(K, cx, cx2, defs, st, base, m, st2, m1, cont, brk, inFunc);
      Chain(K.img, n, m, m1, |defs|);
      n, m1 := n + |defs|, m3;
    case Broke(st2) =>
      LeaveLeft(K, st2, brk, m.operands, m.frames, st.env, depth, base, m, n, m1);
      KeptLen(K, st2, brk, m.operands, m.frames, st.env, depth, base, m, n, m1);
    case Continued(st2) =>
      LeaveLeft(K, st2, cont, m.operands, m.frames, st.env, depth, base, m, n, m1);
      KeptLen(K, st2, cont, m.operands, m.frames, st.env, depth, base, m, n, m1);
    case _ =>
  }

  lemma KeptLen(K: Setup, st1: SState, target: int, ops: seq<Item>, frames: seq<Frame>, env0: seq<Var>,
                depth: nat, base: seq<Value>, m: MState, n: nat, m1: MState)
    requires Left(K, st1, target, ops, frames, env0, depth, base, m, n, m1)
    ensures |env0| <= |st1.env|
  {
    hide Run, GlobalsMatch, Vals;
  }

  // A jump that has arrived in front of, or behind, the loop: the states correspond again.
  lemma Arrived(K: Setup, cx: Ctx, pl: Place, st: SState, base: seq<Value>, m0: MState, inFunc: bool,
                st1: SState, target: int, m: MState, n: nat, m1: MState)
    requires Start(K, cx, pl, st, base, m0, inFunc)
    requires |st1.env| == |st.env|
    requires Left(K, st1, target, m0.operands, m0.frames, st.env, |st.env|, base, m, n, m1)
    ensures Run(K.img, n, m) == Some(m1) && m1.pc == target && m1.operands == m0.operands && m1.frames == m0.frames
    ensures Rel(K, cx, st1, base, m1) && Whole(st1.env) && Kept(st.env, st1.env)
    ensures Start(K, cx, pl, st1, base, m1, inFunc)
  {
    hide Run, Linked, GlobalsMatch, Vals, Extent, Nested, Extends;
    KeptMatch(cx.scopes, st.env, st1.env);
    assert st1.env[..|st.env|] == st1.env;
  }

  lemma BlockLen(P: Prog, fuel: nat, pl: Place, st: SState, ss: seq<Stmt>)
    ensures var r := ExecBlock(P, fuel, pl, st, ss);
      (r.Broke? || r.Continued? ==> |r.st.env| == |st.env|)
  {
    hide ExecStmts;
  }

  // ----- loops -----

  lemma CondAnalysis(cx: Ctx, c: Expr, tc: TExpr)
    requires AnalyzeTo(cx, c, Bool, false) == Some(tc)
    ensures AnalyzeExpr(cx, c, false) == Some(tc) && tc.ty == Prim(Bool)
  {
    hide AnalyzeExpr;
  }

  ghost predicate CondDone(K: Setup, cx: Ctx, r: ERes, end: nat, off: nat, fuel: nat, st: SState,
                           base: seq<Value>, m: MState, n: nat, m1: MState)
  {
    match r
    case EOk(v, st1) =>
      (n >= 1 && Run(K.img, n, m) == Some(m1) && v.Some? && v.value.ty == Bool &&
       m1 == m1.(operands := m.operands, frames := m.frames) &&
       m1.pc == end + (if Truth(v.value.raw) then 0 else off) &&
       Rel(K, cx, st1, base, m1) && LiveLen(st1.env) == LiveLen(st.env))
    case EErr(x) => Failed(K, x, fuel, m, n)
  }

  lemma CondTested(K: Setup, cx: Ctx, v: Value, st1: SState, end: nat, off: nat, fuel: nat, st: SState,
                   base: seq<Value>, m: MState, n: nat, m1: MState, cont: int, brk: int, inFunc: bool)
      returns (m2: MState)
    requires Run(K.img, n, m) == Some(m1) && m1.pc + 5 == end && m1.frames == m.frames
    requires m1.operands == m.operands + [V(v)] && v.ty == Bool
    requires Rel(K, cx, st1, base, m1) && LiveLen(st1.env) == LiveLen(st.env)
    requires Next(K, m1, Jump(IfNot, Off(off)), cont, brk, inFunc)
    ensures CondDone(K, cx, EOk(Some(v), st1), end, off, fuel, st, base, m, n + 1, m2)
  {
    hide Rel, Run, Truth, LiveLen, At, Framed;
    StepCond(K, m1, m.operands, IfNot, off, v.raw, cont, brk, inFunc);
    Chain(K.img, n, m, m1, 1);
    m2 := m1.(pc := m1.pc + 5 + (if Truth(v.raw) then 0 else off), operands := m.operands);
    RelOperands(K, cx, st1, base, m1, m2);
  }

  lemma CondFails(K: Setup, cx: Ctx, r: ERes, ty: ETy, size: nat, end: nat, off: nat, fuel: nat, st: SState,
                  base: seq<Value>, m: MState, n: nat, m1: MState)
    requires ExprDone(K, cx, r, ty, size, fuel, st, base, m, n, m1) && r.EErr?
    ensures CondDone(K, cx, r, end, off, fuel, st, base, m, n, m1)
  {
    hide Run, Rel, Failed, LiveLen, Truth;
  }

  // A condition and the jump taken when it fails.
  lemma SimCond(K: Setup, cx: Ctx, fuel: nat, c: Expr, tc: TExpr, off: nat, st: SState, base: seq<Value>, m: MState,
                cont: int, brk: int, inFunc: bool) returns (n: nat, m1: MState)
    requires Linked(K) && Rel(K, cx, st, base, m)
    requires AnalyzeTo(cx, c, Bool, false) == Some(tc)
    requires Ahead(K, m, GenExpr(tc) + [Jump(IfNot, Off(off))], cont, brk, inFunc)
    ensures CondDone(K, cx, EvalExpr(K.P, fuel, st, c), m.pc + Size(GenExpr(tc)) + 5, off, fuel, st, base, m, n, m1)
    decreases fuel, c, 2
  {
    hide *;
    CondAnalysis(cx, c, tc);
    var j, size := Jump(IfNot, Off(off)), Size(GenExpr(tc));
    AheadSplit(K, m, GenExpr(tc), [j], cont, brk, inFunc);
    n, m1 := SimExpr(K, cx, fuel, c, tc, st, base, m, cont, brk, inFunc);
    var r := EvalExpr(K.P, fuel, st, c);
    if r.EOk? {
      DoneValue(K, cx, r, Bool, size, fuel, st, base, m, n, m1);
      AheadOne(K, m1, j, cont, brk, inFunc);
      m1 := CondTested(K, cx, r.val.value, r.st, m.pc + size + 5, off, fuel, st, base, m, n, m1, cont, brk, inFunc);
      n := n + 1;
    } else {
      CondFails(K, cx, r, Prim(Bool), size, m.pc + size + 5, off, fuel, st, base, m, n, m1);
    }
  }

  // One more step taken, one more unit of fuel.
  lemma STick(K: Setup, cx1: Ctx, r: SRes, end: nat, ops: seq<Item>, frames: seq<Frame>, fuel: nat,
              env0: seq<Var>, env1: seq<Var>, cont: int, brk: int, depth: nat, base: seq<Value>,
              m: MState, n1: nat, m1: MState, n2: nat, m2: MState)
    requires Run(K.img, n1, m) == Some(m1) && n1 >= 1
    requires Ended(K, cx1, r, end, ops, frames, fuel, env1, cont, brk, depth, base, m1, n2, m2)
    requires Kept(env0, env1) && depth <= |env0|
    ensures Ended(K, cx1, r, end, ops, frames, fuel + 1, env0, cont, brk, depth, base, m, n1 + n2, m2)
  {
    hide Run, Rel, Vals, GlobalsMatch;
    Chain(K.img, n1, m, m1, n2);
  }

  lemma StartAfter(K: Setup, cx: Ctx, pl: Place, st: SState, base: seq<Value>, m: MState, st1: SState, m1: MState,
                   inFunc: bool)
    requires Start(K, cx, pl, st, base, m, inFunc)
    requires Rel(K, cx, st1, base, m1) && LiveLen(st1.env) == LiveLen(st.env)
    ensures Start(K, cx, pl, st1, base, m1, inFunc)
    ensures Kept(st.env, st1.env)
  {
    hide Rel, Linked;
    WholeAfter(K, cx, st, base, m, st1, m1);
    StartFacts(K, cx, pl, st, base, m, inFunc);
    RelShape(K, cx, st, base, m);
    RelShape(K, cx, st1, base, m1);
    KeptRefl(cx.scopes, st.env, st1.env);
  }

  lemma RelShape(K: Setup, cx: Ctx, st: SState, base: seq<Value>, m: MState)
    requires Rel(K, cx, st, base, m)
    ensures EnvMatch(cx.scopes, st.env)
  {
    hide GlobalsMatch, Vals, Extent, Extends, Nested, EnvMatch;
  }

  lemma KeptRefl(scopes: seq<Scope>, env: seq<Var>, env1: seq<Var>)
    requires EnvMatch(scopes, env) && EnvMatch(scopes, env1)
    ensures Kept(env, env1)
  {
  }

  ghost predicate LoopBodyDone(K: Setup, cx: Ctx, fuel: nat, pl: Place, r: SRes, st: SState, base: seq<Value>,
                               m: MState, head: nat, end: nat, cont: int, brk: int, inFunc: bool, n: nat, m1: MState)
  {
    match r
    case Returned(_, _) => Ended(K, cx, r, end, m.operands, m.frames, fuel, st.env, cont, brk, |st.env|, base, m, n, m1)
    case SErr(x) => Failed(K, x, fuel, m, n)
    case _ =>
      (Run(K.img, n, m) == Some(m1) && m1.pc == (if r.Broke? then end else head) &&
       m1.operands == m.operands && m1.frames == m.frames &&
       Rel(K, cx, r.st, base, m1) && Whole(r.st.env) && Start(K, cx, pl, r.st, base, m1, inFunc) &&
       Kept(st.env, r.st.env))
  }

  // A filled body with the jump back behind it: the body with its holes aimed at the loop's two ends.
  lemma AheadFill(K: Setup, m: MState, B: seq<Cmd>, jb: Cmd, head: nat, end: nat, cont: int, brk: int, inFunc: bool)
    requires end == m.pc + Size(B) + 5
    requires Ahead(K, m, Fill(B, head - m.pc, end - m.pc) + [jb], cont, brk, inFunc)
    ensures Ahead(K, m, B, head, end, inFunc)
    ensures forall s: MState :: s.pc == m.pc + Size(B) && s.frames == m.frames ==> Next(K, s, jb, cont, brk, inFunc)
  {
    hide At, Size, Fill, CmdSize;
    var F := Fill(B, head - m.pc, end - m.pc);
    FillSize(B, head - m.pc, end - m.pc);
    AheadSplit(K, m, F, [jb], cont, brk, inFunc);
    AtFill(K, m.pc, B, head - m.pc, end - m.pc, cont, brk, inFunc);
  }

  // The body has run through: back to the start.
  lemma BodyAgain(K: Setup, cx: Ctx, fuel: nat, pl: Place, st2: SState, st: SState, base: seq<Value>, m: MState,
                  jb: Cmd, head: nat, end: nat, depth: nat, cont: int, brk: int, inFunc: bool, n: nat, m1: MState)
      returns (m2: MState)
    requires Start(K, cx, pl, st, base, m, inFunc) && end >= 5 && jb == Jump(Direct, Off(head - end))
    requires Ended(K, cx, Normal(st2), end - 5, m.operands, m.frames, fuel, st.env, head, end, depth, base, m, n, m1)
    requires forall s: MState :: s.pc == end - 5 && s.frames == m.frames ==> Next(K, s, jb, cont, brk, inFunc)
    ensures LoopBodyDone(K, cx, fuel, pl, Normal(st2), st, base, m, head, end, cont, brk, inFunc, n + 1, m2)
  {
    hide Rel, Run, Start, Kept, Whole, Left, Next;
    JumpBack(K, m1, head, end, jb, cont, brk, inFunc);
    Chain(K.img, n, m, m1, 1);
    m2 := m1.(pc := head);
    RelBase(K, cx, st2, base, m1, m2);
    SameScopes(K, cx, pl, st, base, m, st2, m2, inFunc);
  }

  // The body has been left for one of the loop's ends.
  lemma BodyLeft(K: Setup, cx: Ctx, fuel: nat, pl: Place, r: SRes, st: SState, base: seq<Value>, m: MState,
                 head: nat, end: nat, cont: int, brk: int, inFunc: bool, n: nat, m1: MState)
    requires Start(K, cx, pl, st, base, m, inFunc) && end >= 5
    requires (r.Broke? || r.Continued?) && |r.st.env| == |st.env|
    requires Ended(K, cx, r, end - 5, m.operands, m.frames, fuel, st.env, head, end, |st.env|, base, m, n, m1)
    ensures LoopBodyDone(K, cx, fuel, pl, r, st, base, m, head, end, cont, brk, inFunc, n, m1)
  {
    hide Rel, Run, Start, Kept, Whole, Left;
    Arrived(K, cx, pl, st, base, m, inFunc, r.st, if r.Broke? then end else head, m, n, m1);
  }

  // The body has returned or failed, and so has the loop.
  lemma BodyGone(K: Setup, cx: Ctx, fuel: nat, pl: Place, r: SRes, st: SState, base: seq<Value>, m: MState,
                 head: nat, end: nat, cont: int, brk: int, inFunc: bool, n: nat, m1: MState)
    requires r.Returned? || r.SErr?
    requires end >= 5
    requires Ended(K, cx, r, end - 5, m.operands, m.frames, fuel, st.env, head, end, |st.env|, base, m, n, m1)
    ensures LoopBodyDone(K, cx, fuel, pl, r, st, base, m, head, end, cont, brk, inFunc, n, m1)
  {
    hide Rel, Run, Start, Failed, GlobalsMatch;
  }

  // The body of a loop and the jump back: in front of the loop again, or behind it, or gone.
  lemma SimLoopBody(K: Setup, cx: Ctx, fuel: nat, pl: Place, ss: seq<Stmt>, ts: seq<TStmt>, defs: seq<Ty>, jb: Cmd,
                    st: SState, base: seq<Value>, m: MState, head: nat, end: nat, cont: int, brk: int, inFunc: bool)
      returns (n: nat, m1: MState)
    requires Start(K, cx, pl, st, base, m, inFunc)
    requires AnalyzeBlock(cx, Loop, ss) == Some((ts, defs)) && GenerableAll(ts)
    requires var B := GenStmts(ts) + Destroy(defs);
      head < m.pc && end == m.pc + Size(B) + 5 && jb == Jump(Direct, Off(head - end)) &&
      Ahead(K, m, Fill(B, head - m.pc, end - m.pc) + [jb], cont, brk, inFunc)
    ensures LoopBodyDone(K, cx, fuel, pl, ExecBlock(K.P, fuel, pl, st, ss), st, base, m, head, end, cont, brk, inFunc,
      n, m1)
    decreases fuel, ss, 2
  {
    hide *;
    var B := GenStmts(ts) + Destroy(defs);
    AheadFill(K, m, B, jb, head, end, cont, brk, inFunc);
    StartFacts(K, cx, pl, st, base, m, inFunc);
    LoopDepthPush(cx, Loop);
    n, m1 := SimBlock(K, cx, Loop, fuel, pl, ss, ts, defs, st, base, m, head, end, inFunc);
    BlockLen(K.P, fuel, pl, st, ss);
    var r := ExecBlock(K.P, fuel, pl, st, ss);
    if r.Normal? {
      m1 := BodyAgain(K, cx, fuel, pl, r.st, st, base, m, jb, head, end, |st.env|, cont, brk, inFunc, n, m1);
      n := n + 1;
    } else if r.Broke? || r.Continued? {
      BodyLeft(K, cx, fuel, pl, r, st, base, m, head, end, cont, brk, inFunc, n, m1);
    } else {
      BodyGone(K, cx, fuel, pl, r, st, base, m, head, end, cont, brk, inFunc, n, m1);
    }
  }

  lemma SameScopes(K: Setup, cx: Ctx, pl: Place, st: SState, base: seq<Value>, m: MState, st1: SState, m1: MState,
                   inFunc: bool)
    requires Start(K, cx, pl, st, base, m, inFunc)
    requires Rel(K, cx, st1, base, m1) && Whole(st1.env)
    ensures Start(K, cx, pl, st1, base, m1, inFunc)
    ensures Kept(st.env, st1.env)
  {
    hide Rel, Linked;
    RelShape(K, cx, st, base, m);
    RelShape(K, cx, st1, base, m1);
    KeptRefl(cx.scopes, st.env, st1.env);
  }

  lemma JumpBack(K: Setup, m: MState, head: nat, end: nat, jb: Cmd, cont: int, brk: int, inFunc: bool)
    requires m.pc + 5 == end && jb == Jump(Direct, Off(head - end))
    requires Next(K, m, jb, cont, brk, inFunc)
    ensures Run(K.img, 1, m) == Some(m.(pc := head))
  {
    hide At, Run;
    Fetch(K, m, jb, cont, brk, inFunc);
  }

  lemma JumpSize(c: Cmd)
    requires c.Jump?
    ensures CmdSize(c) == 5 && Size([c]) == 5
  {
  }

  lemma WhileShape(C: seq<Cmd>, B: seq<Cmd>)
    ensures var start := Size(C) + 5;
      var J := Jump(IfNot, Off(Size(B) + 5));
      var JB := Jump(Direct, Off(-(start + Size(B) + 5)));
      GenWhile(C, B) == (C + [J]) + (Fill(B, -start, Size(B) + 5) + [JB]) &&
      Size(C + [J]) == start && Size(GenWhile(C, B)) == start + Size(B) + 5
  {
    hide Fill, Size;
    var start := Size(C) + 5;
    var J := Jump(IfNot, Off(Size(B) + 5));
    var JB := Jump(Direct, Off(-(start + Size(B) + 5)));
    var F := Fill(B, -start, Size(B) + 5);
    JumpSize(J);
    JumpSize(JB);
    FillSize(B, -start, Size(B) + 5);
    SizeAppend(C, [J]);
    SizeAppend(F, [JB]);
    SizeAppend(C + [J], F + [JB]);
    assert C + ([J] + (F + [JB])) == (C + [J]) + (F + [JB]);
  }

  lemma SimWhile(K: Setup, cx: Ctx, fuel: nat, pl: Place, s: Stmt, t: TStmt, cx1: Ctx, st: SState,
                 base: seq<Value>, m: MState, cont: int, brk: int, inFunc: bool) returns (n: nat, m1: MState)
    requires Start(K, cx, pl, st, base, m, inFunc)
    requires s.While? && AnalyzeStmt(cx, s) == Some((t, cx1)) && Generable(t)
    requires Ahead(K, m, GenStmt(t), cont, brk, inFunc)
    ensures Ended(K, cx1, ExecStmt(K.P, fuel, pl, st, s), m.pc + Size(GenStmt(t)), m.operands, m.frames, fuel,
      st.env, cont, brk, LoopDepth(cx.scopes), base, m, n, m1)
    decreases fuel, s, 3
  {
    hide Start, Rel, Size, Ahead, AnalyzeBlock, AnalyzeTo, ExecWhile, Ended, GenWhile, GenExpr, GenStmts;
    n, m1 := SimLoop(K, cx, fuel, pl, s, t.cond, t.body, t.defs, st, base, m, cont, brk, inFunc);
  }

  lemma SimLoop(K: Setup, cx: Ctx, fuel: nat, pl: Place, s: Stmt, tc: TExpr, ts: seq<TStmt>, defs: seq<Ty>, st: SState,
                base: seq<Value>, m: MState, cont: int, brk: int, inFunc: bool) returns (n: nat, m1: MState)
    requires Start(K, cx, pl, st, base, m, inFunc)
    requires s.While? && AnalyzeTo(cx, s.cond, Bool, false) == Some(tc)
    requires AnalyzeBlock(cx, Loop, s.body) == Some((ts, defs)) && GenerableAll(ts)
    requires Ahead(K, m, GenWhile(GenExpr(tc), GenStmts(ts) + Destroy(defs)), cont, brk, inFunc)
    ensures Ended(K, cx, ExecWhile(K.P, fuel, pl, st, s),
      m.pc + Size(GenWhile(GenExpr(tc), GenStmts(ts) + Destroy(defs))), m.operands, m.frames, fuel, st.env, cont, brk,
      LoopDepth(cx.scopes), base, m, n, m1)
    decreases fuel, s, 1
  {
    hide Rel, Linked, Run, Size, Ahead, GenWhile, GenExpr, GenStmts, Destroy, ExecBlock, EvalExpr, LoopDepth, Left,
      AnalyzeBlock, AnalyzeTo, Generable, Kept, Whole, Fill, Truth, LiveLen;
    if fuel == 0 {
      NoSteps(K.img, m);
      return 0, m;
    }
    var C, B := GenExpr(tc), GenStmts(ts) + Destroy(defs);
    var start := Size(C) + 5;
    var end := m.pc + start + Size(B) + 5;
    var J := Jump(IfNot, Off(Size(B) + 5));
    var JB := Jump(Direct, Off(-(start + Size(B) + 5)));
    WhileShape(C, B);
    StartFacts(K, cx, pl, st, base, m, inFunc);
    AheadSplit(K, m, C + [J], Fill(B, -start, Size(B) + 5) + [JB], cont, brk, inFunc);
    n, m1 := SimCond(K, cx, fuel, s.cond, tc, Size(B) + 5, st, base, m, cont, brk, inFunc);
    var r := EvalExpr(K.P, fuel, st, s.cond);
    if r.EOk? {
      StartAfter(K, cx, pl, st, base, m, r.st, m1, inFunc);
      if Truth(r.val.value.raw) {
        var n2, m2 := SimIteration(K, cx, fuel, pl, s, tc, ts, defs, r.st, base, m, m1, cont, brk, inFunc);
        SPrefix(K, cx, ExecWhile(K.P, fuel, pl, st, s), end, m.operands, m.frames, fuel, st.env, r.st.env, cont, brk,
          LoopDepth(cx.scopes), base, m, n, m1, n2, m2);
        n, m1 := n + n2, m2;
      } else {
        StartWhole(K, cx, pl, r.st, base, m1, inFunc);
      }
    }
  }

  lemma StartWhole(K: Setup, cx: Ctx, pl: Place, st: SState, base: seq<Value>, m: MState, inFunc: bool)
    requires Start(K, cx, pl, st, base, m, inFunc)
    ensures Whole(st.env) && Rel(K, cx, st, base, m) && Linked(K)
  {
    hide Rel, Linked, Whole;
  }

  // The rest of a loop once its condition has held.
  function Iteration(P: Prog, fuel: nat, pl: Place, st1: SState, s: Stmt): SRes
    requires s.While? && fuel > 0
  {
    match ExecBlock(P, fuel, pl, st1, s.body)
    case Normal(st2) => ExecWhile(P, fuel - 1, pl, st2, s)
    case Continued(st2) => ExecWhile(P, fuel - 1, pl, st2, s)
    case Broke(st2) => Normal(st2)
    case Returned(v2, st2) => Returned(v2, st2)
    case SErr(x) => SErr(x)
  }

  // The body, and the loop again from its head m0.
  lemma SimIteration(K: Setup, cx: Ctx, fuel: nat, pl: Place, s: Stmt, tc: TExpr, ts: seq<TStmt>, defs: seq<Ty>,
                     st: SState, base: seq<Value>, m0: MState, m: MState, cont: int, brk: int, inFunc: bool)
      returns (n: nat, m1: MState)
    requires Start(K, cx, pl, st, base, m, inFunc) && fuel > 0
    requires s.While? && AnalyzeTo(cx, s.cond, Bool, false) == Some(tc)
    requires AnalyzeBlock(cx, Loop, s.body) == Some((ts, defs)) && GenerableAll(ts)
    requires Ahead(K, m0, GenWhile(GenExpr(tc), GenStmts(ts) + Destroy(defs)), cont, brk, inFunc)
    requires m.pc == m0.pc + Size(GenExpr(tc)) + 5 && m.operands == m0.operands && m.frames == m0.frames
    requires LoopDepth(cx.scopes) <= |st.env|
    ensures Ended(K, cx, Iteration(K.P, fuel, pl, st, s),
      m0.pc + Size(GenWhile(GenExpr(tc), GenStmts(ts) + Destroy(defs))), m0.operands, m0.frames, fuel, st.env, cont,
      brk, LoopDepth(cx.scopes), base, m, n, m1)
    decreases fuel, s, 0
  {
    hide Rel, Run, Size, GenWhile, GenExpr, GenStmts, Destroy, ExecBlock, ExecWhile, LoopDepth, Left, Start,
      AnalyzeBlock, AnalyzeTo, Generable, Kept, Whole, Fill, At, GlobalsMatch;
    var C, B := GenExpr(tc), GenStmts(ts) + Destroy(defs);
    var start := Size(C) + 5;
    var end := m0.pc + start + Size(B) + 5;
    var J := Jump(IfNot, Off(Size(B) + 5));
    var JB := Jump(Direct, Off(-(start + Size(B) + 5)));
    WhileShape(C, B);
    AheadSplit(K, m0, C + [J], Fill(B, -start, Size(B) + 5) + [JB], cont, brk, inFunc);
    n, m1 := SimLoopBody(K, cx, fuel, pl, s.body, ts, defs, JB, st, base, m, m0.pc, end, cont, brk, inFunc);
    var r := ExecBlock(K.P, fuel, pl, st, s.body);
    if r.Normal? || r.Continued? {
      var n2, m2 := SimLoop(K, cx, fuel - 1, pl, s, tc, ts, defs, r.st, base, m1, cont, brk, inFunc);
      Progress(K.img, n, m, m1);
      STick(K, cx, ExecWhile(K.P, fuel - 1, pl, r.st, s), end, m0.operands, m0.frames, fuel - 1, st.env, r.st.env,
        cont, brk, LoopDepth(cx.scopes), base, m, n, m1, n2, m2);
      n, m1 := n + n2, m2;
    }
  }

  lemma Progress(img: Image, n: nat, m: MState, m1: MState)
    requires Run(img, n, m) == Some(m1) && m1.pc != m.pc
    ensures n >= 1
  {
    hide Step;
  }

  // ----- branches -----

  lemma BranchShape(C: seq<Cmd>, B: seq<Cmd>, last: bool, R: seq<Cmd>)
    ensures var exit := if last then [] else [Jump(Direct, Off(Size(R)))];
      var J := Jump(IfNot, Off(Size(B + exit)));
      GenBranch(C, B, last, R) == (C + [J]) + (B + (exit + R)) &&
      Size(C + [J]) == Size(C) + 5 && Size(B + exit) == Size(B) + Size(exit) &&
      Size(GenBranch(C, B, last, R)) == Size(C) + 5 + Size(B + exit) + Size(R)
  {
    hide Size;
    var exit := if last then [] else [Jump(Direct, Off(Size(R)))];
    var J := Jump(IfNot, Off(Size(B + exit)));
    JumpSize(J);
    SizeAppend(C, [J]);
    SizeAppend(B, exit);
    SizeAppend(B + exit, R);
    SizeAppend(C + [J], B + (exit + R));
    assert C + ([J] + (B + (exit + R))) == (C + [J]) + (B + (exit + R));
    assert B + (exit + R) == (B + exit) + R;
  }

  lemma BranchAnalysis(cx: Ctx, bs: seq<Branch>, tbs: seq<TBranch>, i: nat)
    requires AnalyzeBranches(cx, bs) == Some(tbs) && i < |bs|
    ensures AnalyzeTo(cx, bs[i].cond, Bool, false) == Some(tbs[i].cond)
    ensures AnalyzeBlock(cx, Common, bs[i].body) == Some((tbs[i].body, tbs[i].defs))
    decreases i
  {
    hide AnalyzeTo, AnalyzeBlock;
    if i > 0 {
      BranchAnalysis(cx, bs[1..], tbs[1..], i - 1);
    }
  }

  lemma SimIf(K: Setup, cx: Ctx, fuel: nat, pl: Place, s: Stmt, t: TStmt, cx1: Ctx, st: SState,
              base: seq<Value>, m: MState, cont: int, brk: int, inFunc: bool) returns (n: nat, m1: MState)
    requires Start(K, cx, pl, st, base, m, inFunc)
    requires s.If? && AnalyzeStmt(cx, s) == Some((t, cx1)) && Generable(t)
    requires cont >= 0 && brk >= 0
    requires Ahead(K, m, GenStmt(t), cont, brk, inFunc)
    ensures Ended(K, cx1, ExecStmt(K.P, fuel, pl, st, s), m.pc + Size(GenStmt(t)), m.operands, m.frames, fuel,
      st.env, cont, brk, LoopDepth(cx.scopes), base, m, n, m1)
    decreases fuel, s, 3
  {
    hide Start, Rel, Size, Ahead, AnalyzeBlock, AnalyzeBranches, ExecBranches, Ended, Generable, GenBranches;
    n, m1 := SimBranches(K, cx, fuel, pl, s, t, 0, st, base, m, cont, brk, inFunc);
  }

  // The branches from the i-th on.
  lemma SimBranches(K: Setup, cx: Ctx, fuel: nat, pl: Place, s: Stmt, t: TStmt, i: nat, st: SState,
                    base: seq<Value>, m: MState, cont: int, brk: int, inFunc: bool) returns (n: nat, m1: MState)
    requires Start(K, cx, pl, st, base, m, inFunc)
    requires s.If? && t.TIf? && AnalyzeStmt(cx, s) == Some((t, cx)) && Generable(t) && i <= |s.branches| == |t.branches|
    requires cont >= 0 && brk >= 0
    requires Ahead(K, m, GenBranches(t, i), cont, brk, inFunc)
    ensures Ended(K, cx, ExecBranches(K.P, fuel, pl, st, s, i), m.pc + Size(GenBranches(t, i)), m.operands, m.frames,
      fuel, st.env, cont, brk, LoopDepth(cx.scopes), base, m, n, m1)
    decreases fuel, s, 1, |s.branches| - i
  {
    hide Rel, Linked, Run, Size, Ahead, GenExpr, GenStmts, GenBranch, Destroy, ExecBlock, EvalExpr, LoopDepth, Left,
      AnalyzeBlock, AnalyzeTo, AnalyzeBranches, Kept, Whole, Truth, LiveLen;
    StartFacts(K, cx, pl, st, base, m, inFunc);
    LoopDepthPush(cx, Common);
    if i == |s.branches| {
      match s.els
      case NoElse =>
        NoSteps(K.img, m);
        StartWhole(K, cx, pl, st, base, m, inFunc);
        n, m1 := 0, m;
      case Else(ss) =>
        n, m1 := SimBlock(K, cx, Common, fuel, pl, ss, t.els.body, t.els.defs, st, base, m, cont, brk, inFunc);
    } else {
      BranchAnalysis(cx, s.branches, t.branches, i);
      n, m1 := SimBranch(K, cx, fuel, pl, s, t, i, st, base, m, cont, brk, inFunc);
    }
  }

  lemma SimBranch(K: Setup, cx: Ctx, fuel: nat, pl: Place, s: Stmt, t: TStmt, i: nat, st: SState,
                  base: seq<Value>, m: MState, cont: int, brk: int, inFunc: bool) returns (n: nat, m1: MState)
    requires Start(K, cx, pl, st, base, m, inFunc)
    requires s.If? && t.TIf? && AnalyzeStmt(cx, s) == Some((t, cx)) && Generable(t) && i < |s.branches| == |t.branches|
    requires AnalyzeTo(cx, s.branches[i].cond, Bool, false) == Some(t.branches[i].cond)
    requires AnalyzeBlock(cx, Common, s.branches[i].body) == Some((t.branches[i].body, t.branches[i].defs))
    requires GenerableAll(t.branches[i].body)
    requires cont >= 0 && brk >= 0
    requires Ahead(K, m, GenBranches(t, i), cont, brk, inFunc)
    ensures Ended(K, cx, ExecBranches(K.P, fuel, pl, st, s, i), m.pc + Size(GenBranches(t, i)), m.operands, m.frames,
      fuel, st.env, cont, brk, LoopDepth(cx.scopes), base, m, n, m1)
    decreases fuel, s, 1, |s.branches| - i, 0
  {
    hide Rel, Linked, Run, Size, Ahead, GenExpr, GenStmts, GenBranch, Destroy, ExecBlock, EvalExpr, LoopDepth, Left,
      AnalyzeStmt, AnalyzeBlock, AnalyzeTo, Kept, Whole, Truth, LiveLen, Generable, Start;
    var b := t.branches[i];
    var last := i + 1 == |t.branches| && t.els.TNoElse?;
    var C, B, R := GenExpr(b.cond), GenStmts(b.body) + Destroy(b.defs), GenBranches(t, i + 1);
    var exit := if last then [] else [Jump(Direct, Off(Size(R)))];
    var J := Jump(IfNot, Off(Size(B + exit)));
    BranchShape(C, B, last, R);
    StartWhole(K, cx, pl, st, base, m, inFunc);
    StartFacts(K, cx, pl, st, base, m, inFunc);
    AheadSplit(K, m, C + [J], B + (exit + R), cont, brk, inFunc);
    n, m1 := SimCond(K, cx, fuel, s.branches[i].cond, b.cond, Size(B + exit), st, base, m, cont, brk, inFunc);
    var r := EvalExpr(K.P, fuel, st, s.branches[i].cond);
    if r.EOk? {
      StartAfter(K, cx, pl, st, base, m, r.st, m1, inFunc);
      var n2, m2;
      if Truth(r.val.value.raw) {
        n2, m2 := SimTaken(K, cx, fuel, pl, s.branches[i].body, b.body, b.defs, last, R, r.st, base, m1, cont, brk,
          inFunc);
      } else {
        SkipTo(K, m, C + [J], B, exit, R, m1, cont, brk, inFunc);
        n2, m2 := SimBranches(K, cx, fuel, pl, s, t, i + 1, r.st, base, m1, cont, brk, inFunc);
      }
      SPrefix(K, cx, ExecBranches(K.P, fuel, pl, st, s, i), m.pc + Size(GenBranches(t, i)), m.operands, m.frames, fuel,
        st.env, r.st.env, cont, brk, LoopDepth(cx.scopes), base, m, n, m1, n2, m2);
      n, m1 := n + n2, m2;
    }
  }

  lemma SkipTo(K: Setup, m: MState, a: seq<Cmd>, b: seq<Cmd>, exit: seq<Cmd>, r: seq<Cmd>, m1: MState,
               cont: int, brk: int, inFunc: bool)
    requires Ahead(K, m, a + (b + (exit + r)), cont, brk, inFunc)
    requires m1.pc == m.pc + Size(a) + Size(b + exit) && m1.frames == m.frames
    ensures Ahead(K, m1, r, cont, brk, inFunc)
  {
    hide Ahead, Size;
    assert a + (b + (exit + r)) == (a + (b + exit)) + r;
    AheadSplit(K, m, a + (b + exit), r, cont, brk, inFunc);
    SizeAppend(a, b + exit);
  }

  lemma NoSize()
    ensures Size([]) == 0
  {
  }

  // Behind the body of a branch that is not the last: over the remaining branches.
  lemma OverBranches(K: Setup, cx: Ctx, r: SRes, e: nat, R: seq<Cmd>, fuel: nat, env0: seq<Var>, depth: nat,
                     base: seq<Value>, m: MState, n: nat, m1: MState, cont: int, brk: int, inFunc: bool)
      returns (n2: nat, m2: MState)
    requires cont >= 0 && brk >= 0
    requires Ended(K, cx, r, e, m.operands, m.frames, fuel, env0, cont, brk, depth, base, m, n, m1)
    requires forall s: MState :: s.pc == e && s.frames == m.frames ==>
      Ahead(K, s, [Jump(Direct, Off(Size(R)))] + R, cont, brk, inFunc)
    ensures Ended(K, cx, r, e + 5 + Size(R), m.operands, m.frames, fuel, env0, cont, brk, depth, base, m, n2, m2)
  {
    hide Rel, Run, Size, Ahead, Left, Whole, Failed, GlobalsMatch, CmdSize;
    n2, m2 := n, m1;
    if r.Normal? {
      var j := Jump(Direct, Off(Size(R)));
      AheadSplit(K, m1, [j], R, cont, brk, inFunc);
      AheadOne(K, m1, j, cont, brk, inFunc);
      StepDirect(K, m1, j.target, cont, brk, inFunc);
      Chain(K.img, n, m, m1, 1);
      n2, m2 := n + 1, m1.(pc := m1.pc + 5 + Size(R));
      RelBase(K, cx, r.st, base, m1, m2);
    }
  }

  // A branch that is taken: its block, then over the branches behind it.
  lemma SimTaken(K: Setup, cx: Ctx, fuel: nat, pl: Place, ss: seq<Stmt>, ts: seq<TStmt>, defs: seq<Ty>, last: bool,
                 R: seq<Cmd>, st: SState, base: seq<Value>, m: MState, cont: int, brk: int, inFunc: bool)
      returns (n: nat, m1: MState)
    requires Start(K, cx, pl, st, base, m, inFunc)
    requires AnalyzeBlock(cx, Common, ss) == Some((ts, defs)) && GenerableAll(ts)
    requires last ==> R == []
    requires cont >= 0 && brk >= 0
    requires var exit := if last then [] else [Jump(Direct, Off(Size(R)))];
      Ahead(K, m, (GenStmts(ts) + Destroy(defs)) + (exit + R), cont, brk, inFunc)
    ensures var exit := if last then [] else [Jump(Direct, Off(Size(R)))];
      Ended(K, cx, ExecBlock(K.P, fuel, pl, st, ss), m.pc + Size((GenStmts(ts) + Destroy(defs)) + exit) + Size(R),
        m.operands, m.frames, fuel, st.env, cont, brk, LoopDepth(cx.scopes), base, m, n, m1)
    decreases fuel, ss, 2
  {
    hide *;
    var B := GenStmts(ts) + Destroy(defs);
    var exit := if last then [] else [Jump(Direct, Off(Size(R)))];
    LoopDepthPush(cx, Common);
    AheadSplit(K, m, B, exit + R, cont, brk, inFunc);
    SizeAppend(B, exit);
    n, m1 := SimBlock(K, cx, Common, fuel, pl, ss, ts, defs, st, base, m, cont, brk, inFunc);
    NoSize();
    if !last {
      JumpSize(exit[0]);
      n, m1 := OverBranches(K, cx, ExecBlock(K.P, fuel, pl, st, ss), m.pc + Size(B), R, fuel, st.env,
        LoopDepth(cx.scopes), base, m, n, m1, cont, brk, inFunc);
    }
  }

  // ----- calls -----

  // The values of arguments on the stack: the last one lowest.
  function RevItems(vs: seq<Value>): seq<Item> {
    if vs == [] then [] else [V(vs[|vs| - 1])] + RevItems(vs[..|vs| - 1])
  }

  lemma {:induction false} RevTop(vs: seq<Value>)
    requires vs != []
    ensures RevItems(vs) == RevItems(vs[1..]) + [V(vs[0])]
    decreases |vs|
  {
    if |vs| > 1 {
      var k := |vs| - 1;
      RevTop(vs[..k]);
      assert vs[..k][1..] == vs[1..][..k - 1];
    }
  }

  predicate HaveTypes(vs: seq<Value>, ts: seq<Ty>) {
    |vs| == |ts| && forall i :: 0 <= i < |ts| ==> vs[i].ty == ts[i]
  }

  lemma {:induction false} TakeRev(ops: seq<Item>, vs: seq<Value>, ts: seq<Ty>)
    requires HaveTypes(vs, ts)
    ensures TakeArgs(ops + RevItems(vs), ts) == Some(vs)
    ensures |RevItems(vs)| == |vs|
    decreases |vs|
  {
    if vs != [] {
      RevTop(vs);
      var s := ops + RevItems(vs);
      assert s == (ops + RevItems(vs[1..])) + [V(vs[0])];
      assert s[..|s| - 1] == ops + RevItems(vs[1..]);
      TakeRev(ops, vs[1..], ts[1..]);
      assert [vs[0]] + vs[1..] == vs;
    } else {
      assert ops + [] == ops;
    }
  }

  ghost predicate ArgsDone(K: Setup, cx: Ctx, r: ARes, ts: seq<Ty>, end: nat, ops: seq<Item>, fuel: nat, live: nat,
                           base: seq<Value>, frames: seq<Frame>, m: MState, n: nat, m1: MState)
  {
    match r
    case AOk(vs, st1) =>
      (Run(K.img, n, m) == Some(m1) && m1.pc == end && m1.operands == ops + RevItems(vs) && m1.frames == frames &&
       Rel(K, cx, st1, base, m1) && LiveLen(st1.env) == live && HaveTypes(vs, ts))
    case AErr(x) => Failed(K, x, fuel, m, n)
  }

  lemma ArgsPlan(cx: Ctx, es: seq<Expr>, ts: seq<Ty>, targs: seq<TExpr>)
    requires es != [] && AnalyzeArgs(cx, es, ts, false) == Some(targs)
    ensures |targs| == |es| == |ts|
    ensures var k := |es| - 1;
      && AnalyzeArgs(cx, es[..k], ts[..k], false) == Some(targs[..k])
      && AnalyzeTo(cx, es[k], ts[k], false) == Some(targs[k])
      && GenArgs(targs) == GenExpr(targs[k]) + GenArgs(targs[..k])
  {
    hide AnalyzeTo, GenExpr;
    var k := |es| - 1;
    assert targs[..k] == AnalyzeArgs(cx, es[..k], ts[..k], false).value;
  }

  lemma ArgsNone(K: Setup, cx: Ctx, fuel: nat, ts: seq<Ty>, targs: seq<TExpr>, st: SState, base: seq<Value>, m: MState)
    requires Rel(K, cx, st, base, m) && AnalyzeArgs(cx, [], ts, false) == Some(targs)
    ensures ArgsDone(K, cx, EvalArgs(K.P, fuel, st, [], ts), ts, m.pc + Size(GenArgs(targs)), m.operands, fuel,
      LiveLen(st.env), base, m.frames, m, 0, m)
  {
    hide Rel, Run, LiveLen;
    assert m.operands + [] == m.operands;
    NoSteps(K.img, m);
  }

  lemma ArgsFail(K: Setup, cx: Ctx, fuel: nat, es: seq<Expr>, ts: seq<Ty>, ty: ETy, size: nat, end: nat, st: SState,
                 base: seq<Value>, m: MState, n: nat, m1: MState)
    requires es != [] && |es| == |ts|
    requires var r := EvalTo(K.P, fuel, st, es[|es| - 1], ts[|es| - 1]);
      r.EErr? && ExprDone(K, cx, r, ty, size, fuel, st, base, m, n, m1)
    ensures ArgsDone(K, cx, EvalArgs(K.P, fuel, st, es, ts), ts, end, m.operands, fuel, LiveLen(st.env), base, m.frames,
      m, n, m1)
  {
    hide Rel, Run, EvalTo, LiveLen, Failed;
  }

  lemma SimArgs(K: Setup, cx: Ctx, fuel: nat, es: seq<Expr>, ts: seq<Ty>, targs: seq<TExpr>, st: SState,
                base: seq<Value>, m: MState, cont: int, brk: int, inFunc: bool) returns (n: nat, m1: MState)
    requires Linked(K) && Rel(K, cx, st, base, m)
    requires AnalyzeArgs(cx, es, ts, false) == Some(targs)
    requires Ahead(K, m, GenArgs(targs), cont, brk, inFunc)
    ensures ArgsDone(K, cx, EvalArgs(K.P, fuel, st, es, ts), ts, m.pc + Size(GenArgs(targs)), m.operands, fuel,
      LiveLen(st.env), base, m.frames, m, n, m1)
    decreases fuel, es
  {
    hide *;
    if es == [] {
      ArgsNone(K, cx, fuel, ts, targs, st, base, m);
      return 0, m;
    }
    var k := |es| - 1;
    ArgsPlan(cx, es, ts, targs);
    var code := GenExpr(targs[k]);
    AheadSplit(K, m, code, GenArgs(targs[..k]), cont, brk, inFunc);
    n, m1 := SimTo(K, cx, fuel, es[k], ts[k], targs[k], st, base, m, cont, brk, inFunc);
    var r := EvalTo(K.P, fuel, st, es[k], ts[k]);
    if r.EOk? {
      DoneValue(K, cx, r, ts[k], Size(code), fuel, st, base, m, n, m1);
      TypedValue(r.val, ts[k]);
      var n2, m2 := SimArgs(K, cx, fuel, es[..k], ts[..k], targs[..k], r.st, base, m1, cont, brk, inFunc);
      ArgsJoin(K, cx, fuel, es, ts, r, st, base, m, n, m1, n2, m2, m.pc + Size(GenArgs(targs)));
      n, m1 := n + n2, m2;
    } else {
      ArgsFail(K, cx, fuel, es, ts, Prim(ts[k]), Size(code), m.pc + Size(GenArgs(targs)), st, base, m, n, m1);
    }
  }

  lemma TypedValue(v: Option<Value>, t: Ty)
    requires v.Some? && v.value.ty == t
    ensures Typed(v, Prim(t))
  {
  }

  lemma ArgsJoin(K: Setup, cx: Ctx, fuel: nat, es: seq<Expr>, ts: seq<Ty>, r: ERes, st: SState, base: seq<Value>,
                 m: MState, n: nat, m1: MState, n2: nat, m2: MState, end: nat)
    requires es != [] && |es| == |ts|
    requires r == EvalTo(K.P, fuel, st, es[|es| - 1], ts[|es| - 1]) && r.EOk? && Typed(r.val, Prim(ts[|es| - 1]))
    requires Run(K.img, n, m) == Some(m1) && m1.operands == m.operands + [V(r.val.value)] && m1.frames == m.frames
    requires LiveLen(r.st.env) == LiveLen(st.env)
    requires ArgsDone(K, cx, EvalArgs(K.P, fuel, r.st, es[..|es| - 1], ts[..|es| - 1]), ts[..|es| - 1], end,
      m1.operands, fuel, LiveLen(r.st.env), base, m1.frames, m1, n2, m2)
    ensures ArgsDone(K, cx, EvalArgs(K.P, fuel, st, es, ts), ts, end, m.operands, fuel, LiveLen(st.env), base, m.frames,
      m, n + n2, m2)
  {
    hide Rel, Run, EvalTo, LiveLen, Failed;
    Chain(K.img, n, m, m1, n2);
    FailedLater(K, fuel, m, n, m1, n2);
    var k := |es| - 1;
    var q := EvalArgs(K.P, fuel, r.st, es[..k], ts[..k]);
    if q.AOk? {
      var vs := q.vals + [r.val.value];
      assert vs[..|vs| - 1] == q.vals;
      assert m.operands + RevItems(vs) == m1.operands + RevItems(q.vals);
    }
  }

  lemma ParamsPlan(cx: Ctx, args: seq<Arg>, vs: seq<Value>, cx1: Ctx)
    requires cx.scopes != [] && args != [] && AddArgs(cx, args) == Some(cx1) && HaveTypes(vs, ArgTypes(args))
    ensures |vs| == |args| && vs[0].ty == args[0].ty
    ensures AddLocal(cx, args[0].ty, args[0].name).Some?
    ensures var cx2 := AddLocal(cx, args[0].ty, args[0].name).value;
      cx2.scopes != [] && AddArgs(cx2, args[1..]) == Some(cx1)
    ensures HaveTypes(vs[1..], ArgTypes(args[1..]))
    ensures Bind(args, vs) == [Var(args[0].name, args[0].ty, Some(vs[0].raw))] + Bind(args[1..], vs[1..])
  {
    hide FindDef, FlowUpTo;
  }

  // The parameters: one variable per argument, in order.
  lemma {:induction false} SimParams(K: Setup, cx: Ctx, args: seq<Arg>, vs: seq<Value>, cx1: Ctx, st: SState,
                                     base: seq<Value>, m: MState, ops: seq<Item>) returns (m1: MState)
    requires cx.scopes != [] && AddArgs(cx, args) == Some(cx1)
    requires Linked(K) && Rel(K, cx, st, base, m) && Whole(st.env)
    requires HaveTypes(vs, ArgTypes(args))
    requires m.operands == ops + RevItems(vs)
    requires Ahead(K, m, GenParams(ArgTypes(args)), 0, 0, true)
    ensures Run(K.img, |args|, m) == Some(m1)
    ensures m1 == m.(pc := m.pc + Size(GenParams(ArgTypes(args))), operands := ops, locals := m1.locals)
    ensures Rel(K, cx1, st.(env := st.env + Bind(args, vs)), base, m1) && Whole(st.env + Bind(args, vs))
    ensures Grown(cx, cx1)
    decreases |args|
  {
    hide *;
    if args == [] {
      ParamsDone(K, cx, cx1, st, m, ops, vs);
      assert st.env + [] == st.env;
      return m;
    }
    ParamsPlan(cx, args, vs, cx1);
    var t, x := args[0].ty, args[0].name;
    var cx2, rest := AddLocal(cx, t, x).value, ops + RevItems(vs[1..]);
    var c := InitLocal(t);
    ParamsCode(args);
    AheadSplit(K, m, [c], GenParams(ArgTypes(args[1..])), 0, 0, true);
    AheadOne(K, m, c, 0, 0, true);
    PastIs(m, c);
    RevTop(vs);
    assert m.operands == rest + [V(vs[0])];
    InitStep(K, m, rest, vs[0], 0, 0, true);
    var m2 := Past(m, c).(operands := rest, locals := m.locals + [vs[0]]);
    var st2 := st.(env := st.env + [Var(x, t, Some(vs[0].raw))]);
    AddedParam(K, cx, t, x, cx2, st, base, m, vs[0], m2);
    m1 := SimParams(K, cx2, args[1..], vs[1..], cx1, st2, base, m2, ops);
    Chain(K.img, 1, m, m2, |args| - 1);
    assert st.env + Bind(args, vs) == st2.env + Bind(args[1..], vs[1..]);
    GrownTrans(cx, cx2, cx1);
  }

  lemma ParamsDone(K: Setup, cx: Ctx, cx1: Ctx, st: SState, m: MState, ops: seq<Item>, vs: seq<Value>)
    requires cx.scopes != [] && AddArgs(cx, []) == Some(cx1)
    requires HaveTypes(vs, ArgTypes([])) && m.operands == ops + RevItems(vs)
    ensures vs == [] && Bind([], vs) == []
    ensures cx1 == cx && Grown(cx, cx1) && Run(K.img, 0, m) == Some(m) && m.operands == ops
    ensures Size(GenParams(ArgTypes([]))) == 0
  {
  }

  lemma ParamsCode(args: seq<Arg>)
    requires args != []
    ensures GenParams(ArgTypes(args)) == [InitLocal(args[0].ty)] + GenParams(ArgTypes(args[1..]))
    ensures ArgTypes(args)[1..] == ArgTypes(args[1..])
  {
    assert ArgTypes(args)[1..] == ArgTypes(args[1..]);
    assert ArgTypes(args)[0] == args[0].ty;
  }

  lemma GrownTrans(a: Ctx, b: Ctx, c: Ctx)
    requires a.scopes != [] && Grown(a, b) && Grown(b, c)
    ensures Grown(a, c)
  {
  }

  lemma AddedParam(K: Setup, cx: Ctx, t: Ty, x: string, cx1: Ctx, st: SState, base: seq<Value>, m: MState, v: Value,
                   m1: MState)
    requires cx.scopes != [] && AddLocal(cx, t, x) == Some(cx1) && v.ty == t
    requires Rel(K, cx, st, base, m) && Whole(st.env)
    requires m1 == m.(pc := m1.pc, operands := m1.operands, locals := m.locals + [v])
    ensures Rel(K, cx1, st.(env := st.env + [Var(x, t, Some(v.raw))]), base, m1)
    ensures Whole(st.env + [Var(x, t, Some(v.raw))]) && cx1.scopes != []
    ensures Grown(cx, cx1)
  {
    hide GlobalsMatch, Extent, EnvMatch, Nested, Extends, Flat, AddLocal;
    var env := st.env + [Var(x, t, Some(v.raw))];
    DefinedLocal(cx, t, x, cx1, st.env, Var(x, t, Some(v.raw)));
    assert env[..|env|] == env && st.env[..|st.env|] == st.env;
    assert Vals(env) == Vals(st.env) + [v];
  }

  // ----- functions -----

  // Statements outside loops neither break nor continue.
  lemma {:induction false} NoEscape(P: Prog, fuel: nat, pl: Place, cx: Ctx, st: SState, ss: seq<Stmt>)
    requires AnalyzeStmts(cx, ss).Some? && !Within(cx.scopes, Loop)
    ensures var r := ExecStmts(P, fuel, pl, st, ss); !r.Broke? && !r.Continued?
    decreases ss, 0
  {
    hide AnalyzeStmt, ExecStmt;
    if ss != [] {
      NoEscapeStmt(P, fuel, pl, cx, st, ss[0]);
      StmtGrows(cx, ss[0]);
      var cx1 := AnalyzeStmt(cx, ss[0]).value.1;
      LoopDepthGrown(cx, cx1);
      var r := ExecStmt(P, fuel, pl, st, ss[0]);
      if r.Normal? {
        NoEscape(P, fuel, pl, cx1, r.st, ss[1..]);
      }
    }
  }

  lemma {:induction false} NoEscapeBlock(P: Prog, fuel: nat, pl: Place, cx: Ctx, st: SState, ss: seq<Stmt>)
    requires AnalyzeBlock(cx, Common, ss).Some? && !Within(cx.scopes, Loop)
    ensures var r := ExecBlock(P, fuel, pl, st, ss); !r.Broke? && !r.Continued?
    decreases ss, 1
  {
    hide AnalyzeStmts, ExecStmts;
    LoopDepthPush(cx, Common);
    NoEscape(P, fuel, pl.(top := false), Push(cx, Common), st, ss);
  }

  lemma {:induction false} NoEscapeStmt(P: Prog, fuel: nat, pl: Place, cx: Ctx, st: SState, s: Stmt)
    requires AnalyzeStmt(cx, s).Some? && !Within(cx.scopes, Loop)
    ensures var r := ExecStmt(P, fuel, pl, st, s); !r.Broke? && !r.Continued?
    decreases s, 2, 0
  {
    hide AnalyzeExpr, EvalExpr, ExecWhile, ExecBranches, AnalyzeBranches, AnalyzeBlock, EvalTo, AnalyzeTo;
    if s.While? {
      WhileContains(P, fuel, pl, st, s);
    } else if s.If? {
      NoEscapeBranches(P, fuel, pl, cx, st, s, 0);
    }
  }

  lemma {:induction false} NoEscapeBranches(P: Prog, fuel: nat, pl: Place, cx: Ctx, st: SState, s: Stmt, i: nat)
    requires s.If? && i <= |s.branches| && AnalyzeStmt(cx, s).Some? && !Within(cx.scopes, Loop)
    ensures var r := ExecBranches(P, fuel, pl, st, s, i); !r.Broke? && !r.Continued?
    decreases s, 1, |s.branches| - i
  {
    hide EvalExpr, ExecBlock, AnalyzeBranches, AnalyzeBlock, Truth;
    if i == |s.branches| {
      if s.els.Else? {
        NoEscapeBlock(P, fuel, pl, cx, st, s.els.body);
      }
    } else {
      BranchAnalysis(cx, s.branches, AnalyzeBranches(cx, s.branches).value, i);
      var r := EvalExpr(P, fuel, st, s.branches[i].cond);
      if r.EOk? {
        NoEscapeBlock(P, fuel, pl, cx, r.st, s.branches[i].body);
        NoEscapeBranches(P, fuel, pl, cx, r.st, s, i + 1);
      }
    }
  }

  lemma {:induction false} WhileContains(P: Prog, fuel: nat, pl: Place, st: SState, s: Stmt)
    requires s.While?
    ensures var r := ExecWhile(P, fuel, pl, st, s); !r.Broke? && !r.Continued?
    decreases fuel
  {
    hide EvalExpr, ExecBlock, Truth;
    if fuel > 0 {
      var r := EvalExpr(P, fuel, st, s.cond);
      if r.EOk? {
        var b := ExecBlock(P, fuel, pl, r.st, s.body);
        if b.Normal? || b.Continued? {
          WhileContains(P, fuel - 1, pl, b.st, s);
        }
      }
    }
  }

  // A return that stands directly among the statements is never passed.
  lemma {:induction false} ReturnEnds(P: Prog, fuel: nat, pl: Place, st: SState, ss: seq<Stmt>)
    requires HasReturn(ss)
    ensures !ExecStmts(P, fuel, pl, st, ss).Normal?
    decreases |ss|
  {
    hide EvalTo;
    var i :| 0 <= i < |ss| && ss[i].Return?;
    if i > 0 {
      var r := ExecStmt(P, fuel, pl, st, ss[0]);
      if r.Normal? {
        assert ss[1..][i - 1].Return?;
        ReturnEnds(P, fuel, pl, r.st, ss[1..]);
      }
    }
  }

  // A call has come back: the frame is gone, the locals are untouched, the result is on the stack.
  ghost predicate CallDone(K: Setup, r: ERes, ty: ETy, ops: seq<Item>, fuel: nat, st: SState, m: MState, n: nat,
                           m1: MState)
  {
    match r
    case EOk(v, st1) =>
      (|m.frames| >= 2 && Run(K.img, n, m) == Some(m1) && m1.pc == m.frames[|m.frames| - 1].ret &&
       m1.frames == m.frames[..|m.frames| - 1] && m1.locals == m.locals && m1.operands == ops + Items(v) &&
       GlobalsMatch(K, st1.globals, m1.globals) && m1.world == st1.world && st1.env == st.env && Typed(v, ty))
    case EErr(x) => Failed(K, x, fuel, m, n)
  }

  // What a function returns, from how its statements end.
  function Outcome(r: SRes, fn: Func, env: seq<Var>): ERes {
    match r
    case Normal(st1) => if fn.ret.None? then EOk(None, st1.(env := env)) else EErr(Wrong)
    case Returned(v, st1) => EOk(v, st1.(env := env))
    case Broke(_) => EErr(Wrong)
    case Continued(_) => EErr(Wrong)
    case SErr(x) => EErr(x)
  }

  lemma FuncFacts(K: Setup, f: string)
    requires Linked(K) && f in K.G && K.G[f].GFunc? && !K.G[f].sig.native
    ensures FuncLinked(K, f)
    ensures f in K.P.funcs && f in K.views && f in K.defs && f in K.link.funcs && f !in K.P.natives
    ensures K.G[f].sig == SigOf(K.P.funcs[f])
  {
    hide GlobalsLinked, NativesLinked, At;
  }

  // The analysis of a linked function, taken apart.
  lemma FuncParts(K: Setup, f: string) returns (cx0: Ctx, cxa: Ctx, ts: seq<TStmt>, cx1: Ctx)
    requires f in K.G && K.G[f].GFunc? && FuncLinked(K, f)
    ensures cx0 == Ctx(K.views[f], [Scope(FuncScope, [])], Some(K.P.funcs[f].ret))
    ensures AddArgs(cx0, K.P.funcs[f].args) == Some(cxa)
    ensures AnalyzeStmts(cxa, K.P.funcs[f].body) == Some((ts, cx1)) && GenerableAll(ts)
    ensures cx1.scopes != [] && (K.P.funcs[f].ret.Some? ==> HasReturn(K.P.funcs[f].body))
    ensures K.defs[f] == TFuncDef(ArgTypes(K.P.funcs[f].args), ts, TopDefs(cx1),
      K.P.funcs[f].ret.None? && !HasReturn(K.P.funcs[f].body))
    ensures Extends(cx0.globals, K.G) && At(K, K.link.funcs[f], GenFunc(K.defs[f]), 0, 0, true)
  {
    hide At, AnalyzeStmts, AddArgs, GenFunc, HasReturn, Extends, GenerableAll;
    var fn := K.P.funcs[f];
    cx0 := Ctx(K.views[f], [Scope(FuncScope, [])], Some(fn.ret));
    cxa := AddArgs(cx0, fn.args).value;
    ts, cx1 := AnalyzeStmts(cxa, fn.body).value.0, AnalyzeStmts(cxa, fn.body).value.1;
  }

  lemma EntryRel(K: Setup, cx0: Ctx, ret: Option<Ty>, view: map<string, GDef>, st: SState, m: MState)
    requires cx0 == Ctx(view, [Scope(FuncScope, [])], Some(ret)) && Extends(view, K.G)
    requires m.frames != [] && FrameStart(m) == Extent(m.locals)
    requires GlobalsMatch(K, st.globals, m.globals) && m.world == st.world
    ensures Rel(K, cx0, st.(env := []), m.locals, m)
    ensures cx0.scopes != [] && Nested(cx0.scopes) && !Within(cx0.scopes, Loop)
  {
    hide GlobalsMatch, Extends, Extent;
    assert Flat(cx0.scopes) == [];
    assert m.locals + [] == m.locals;
  }

  // The code of a function, taken apart where it stands.
  lemma FuncAhead(K: Setup, d: TFuncDef, args: seq<Ty>, ts: seq<TStmt>, tail: seq<Cmd>, m: MState)
    requires |m.frames| >= 2 && At(K, m.pc, GenFunc(d), 0, 0, true) && d.args == args && d.body == ts
    requires tail == if d.trailingReturn then Destroy(d.defs) + [Ret] else []
    ensures Ahead(K, m, GenParams(args), 0, 0, true)
    ensures forall s: MState :: s.pc == m.pc + Size(GenParams(args)) && s.frames == m.frames ==>
      Ahead(K, s, GenStmts(ts) + tail, 0, 0, true)
  {
    hide At, Size, GenParams, GenStmts, Destroy;
    AheadSplit(K, m, GenParams(args), GenStmts(ts) + tail, 0, 0, true);
  }

  lemma EmptyWhole()
    ensures Whole([])
  {
  }

  lemma BoundArgs(fn: Func, vs: seq<Value>)
    requires HaveTypes(vs, ArgTypes(fn.args))
    ensures |vs| == |fn.args| && [] + Bind(fn.args, vs) == Bind(fn.args, vs)
  {
  }

  lemma ReturnedCall(K: Setup, fn: Func, fuel: nat, vs: seq<Value>, st: SState, ops: seq<Item>, m: MState, k: nat,
                     m2: MState, n: nat, m1: MState)
    requires |vs| == |fn.args| && |m.frames| >= 2 && m2.frames == m.frames && m2.operands == ops
    requires Run(K.img, k, m) == Some(m2)
    requires var r := ExecStmts(K.P, fuel, Place(false, Some(fn.ret)), st.(env := Bind(fn.args, vs)), fn.body);
      BodyDone(K, Outcome(r, fn, st.env), fn.ret, fuel, st.env, m.locals, m2, n, m1)
    ensures CallDone(K, RunFunc(K.P, fuel, st, fn, vs), OfRet(fn.ret), ops, fuel, st, m, k + n, m1)
  {
    hide Run, ExecStmts, GlobalsMatch, Failed, Bind;
    Chain(K.img, k, m, m2, n);
    FailedLater(K, fuel, m, k, m2, n);
  }

  // Running a function's code is running the function.
  lemma SimFunc(K: Setup, f: string, fuel: nat, vs: seq<Value>, st: SState, ops: seq<Item>, m: MState)
      returns (n: nat, m1: MState)
    requires Linked(K) && f in K.G && K.G[f].GFunc? && !K.G[f].sig.native && FuncLinked(K, f)
    requires f in K.P.funcs && f in K.views && f in K.defs && f in K.link.funcs
    requires HaveTypes(vs, ArgTypes(K.P.funcs[f].args))
    requires m.pc == K.link.funcs[f] && m.operands == ops + RevItems(vs)
    requires |m.frames| >= 2 && FrameStart(m) == Extent(m.locals)
    requires GlobalsMatch(K, st.globals, m.globals) && m.world == st.world
    ensures CallDone(K, RunFunc(K.P, fuel, st, K.P.funcs[f], vs), OfRet(K.P.funcs[f].ret), ops, fuel, st, m, n, m1)
    decreases fuel, K.P.funcs[f], 0
  {
    hide *;
    var fn, d := K.P.funcs[f], K.defs[f];
    var cx0, cxa, ts, cx1 := FuncParts(K, f);
    var tail := if d.trailingReturn then Destroy(d.defs) + [Ret] else [];
    EntryRel(K, cx0, fn.ret, K.views[f], st, m);
    FuncAhead(K, d, ArgTypes(fn.args), ts, tail, m);
    EmptyWhole();
    var m2 := SimParams(K, cx0, fn.args, vs, cxa, st.(env := []), m.locals, m, ops);
    BoundArgs(fn, vs);
    var st2 := st.(env := Bind(fn.args, vs));
    BodyStart(K, cx0, cxa, fn, ts, cx1, st2, m.locals, m2);
    n, m1 := SimBody(K, fn, fuel, cx0, cxa, ts, cx1, tail, st2, st.env, m.locals, m2);
    ReturnedCall(K, fn, fuel, vs, st, ops, m, |fn.args|, m2, n, m1);
    n := |fn.args| + n;
  }

  lemma BodyStart(K: Setup, cx0: Ctx, cxa: Ctx, fn: Func, ts: seq<TStmt>, cx1: Ctx, st: SState, base: seq<Value>,
                  m: MState)
    requires Linked(K) && Rel(K, cxa, st, base, m) && Whole(st.env)
    requires cx0.scopes == [Scope(FuncScope, [])] && cx0.ret == Some(fn.ret) && Grown(cx0, cxa)
    requires AnalyzeStmts(cxa, fn.body) == Some((ts, cx1)) && Extends(cx0.globals, K.G)
    ensures Start(K, cxa, Place(false, Some(fn.ret)), st, base, m, true)
    ensures Extends(cx1.globals, K.G) && !Within(cxa.scopes, Loop) && cx1.scopes != [] && cx1.ret == Some(fn.ret)
    ensures TopDefs(cx1) == DefTypes(FlowUpTo(cx1.scopes, FuncScope))
  {
    hide Linked, Rel, AnalyzeStmts, Extends;
    StmtsGrow(cxa, fn.body);
    var s := cx1.scopes[0];
    assert cx1.scopes == [s] && s.kind == FuncScope;
    assert FlowUpTo(cx1.scopes, FuncScope) == [] + s.defs == s.defs;
  }

  ghost predicate BodyDone(K: Setup, r: ERes, ret: Option<Ty>, fuel: nat, env: seq<Var>, base: seq<Value>, m: MState,
                           n: nat, m1: MState)
  {
    match r
    case EOk(v, st1) =>
      (|m.frames| >= 2 && Run(K.img, n, m) == Some(m1) && m1.pc == m.frames[|m.frames| - 1].ret &&
       m1.frames == m.frames[..|m.frames| - 1] && m1.locals == base && m1.operands == m.operands + Items(v) &&
       GlobalsMatch(K, st1.globals, m1.globals) && m1.world == st1.world && st1.env == env && Typed(v, OfRet(ret)))
    case EErr(x) => Failed(K, x, fuel, m, n)
  }

  // The statements of a function, and the return that a function of no value without one gets.
  lemma SimBody(K: Setup, fn: Func, fuel: nat, cx0: Ctx, cxa: Ctx, ts: seq<TStmt>, cx1: Ctx, tail: seq<Cmd>,
                st: SState, env: seq<Var>, base: seq<Value>, m: MState) returns (n: nat, m1: MState)
    requires Start(K, cxa, Place(false, Some(fn.ret)), st, base, m, true)
    requires AnalyzeStmts(cxa, fn.body) == Some((ts, cx1)) && GenerableAll(ts) && Extends(cx1.globals, K.G)
    requires !Within(cxa.scopes, Loop) && cx1.scopes != [] && cx1.ret == Some(fn.ret)
    requires TopDefs(cx1) == DefTypes(FlowUpTo(cx1.scopes, FuncScope))
    requires fn.ret.Some? ==> HasReturn(fn.body)
    requires tail == if fn.ret.None? && !HasReturn(fn.body) then Destroy(TopDefs(cx1)) + [Ret] else []
    requires Ahead(K, m, GenStmts(ts) + tail, 0, 0, true)
    ensures BodyDone(K, Outcome(ExecStmts(K.P, fuel, Place(false, Some(fn.ret)), st, fn.body), fn, env), fn.ret, fuel,
      env, base, m, n, m1)
    decreases fuel, fn.body, 1
  {
    hide Start, Rel, Run, Size, GlobalsMatch, ExecStmts, GenStmts, Destroy, AnalyzeStmts, HasReturn, Generable,
      Extends, Flat, LoopDepth, FlowUpTo, Within, Ahead, TopDefs, Left;
    var pl := Place(false, Some(fn.ret));
    AheadSplit(K, m, GenStmts(ts), tail, 0, 0, true);
    n, m1 := SimStmts(K, cxa, fuel, pl, fn.body, ts, cx1, st, base, m, 0, 0, true);
    NoEscape(K.P, fuel, pl, cxa, st, fn.body);
    var r := ExecStmts(K.P, fuel, pl, st, fn.body);
    if r.Normal? {
      if HasReturn(fn.body) {
        ReturnEnds(K.P, fuel, pl, st, fn.body);
      }
      RelGlobals(K, cx1, r.st, base, m1);
      var n2, m2 := SimLeave(K, cx1, r.st, TopDefs(cx1), base, m1, 0, 0);
      Chain(K.img, n, m, m1, n2);
      assert m.operands + [] == m.operands;
      n, m1 := n + n2, m2;
    }
  }

  lemma CalleeAnalysis(K: Setup, cx: Ctx, e: Expr, te: TExpr, st: SState, base: seq<Value>, m: MState)
    requires Linked(K) && Rel(K, cx, st, base, m)
    requires e.Call? && AnalyzeExpr(cx, e, false) == Some(te)
    ensures te.node.TCall? && te.cast.None? && e.callee.Id? && Find(st.env, e.callee.name) < 0
    ensures var f, tc := e.callee.name, te.node.callee;
      f in K.G && K.G[f].GFunc? && f !in K.P.globals &&
      tc == Plain(TFunc(f, K.G[f].sig.native), FuncT(K.G[f].sig)) &&
      AnalyzeArgs(cx, e.args, K.G[f].sig.args, false) == Some(te.node.args) && te.ty == OfRet(K.G[f].sig.ret)
  {
    hide NativesLinked, FuncsLinked, GlobalsMatch, AnalyzeArgs, AnalyzeTo, AnalyzeOperands, EnvMatch, Vals, Extent,
      Resolve, Nested;
    var tc := te.node.callee;
    assert AnalyzeExpr(cx, e.callee, false) == Some(tc) && tc.ty.FuncT?;
    assert e.callee.Id?;
    IdAgrees(K, cx, st, base, m, e.callee.name);
  }

  lemma SimCall(K: Setup, cx: Ctx, fuel: nat, e: Expr, te: TExpr, st: SState, base: seq<Value>, m: MState,
                cont: int, brk: int, inFunc: bool) returns (n: nat, m1: MState)
    requires Linked(K) && Rel(K, cx, st, base, m)
    requires e.Call? && AnalyzeExpr(cx, e, false) == Some(te)
    requires Ahead(K, m, GenExpr(te), cont, brk, inFunc)
    ensures ExprDone(K, cx, EvalExpr(K.P, fuel, st, e), te.ty, Size(GenExpr(te)), fuel, st, base, m, n, m1)
    decreases fuel, e, 0, 2
  {
    hide Linked, Rel, Run, Size, Ahead, GenExpr, EvalArgs, EvalExpr, AnalyzeExpr, AnalyzeArgs, GenArgs, LiveLen, Find,
      Called, CmdSize, HaveTypes, RevItems, NextTwo, OfRet;
    CalleeAnalysis(K, cx, e, te, st, base, m);
    var f, tc, targs := e.callee.name, te.node.callee, te.node.args;
    var sig := K.G[f].sig;
    GenFresh(te);
    GenFresh(tc);
    var load := if sig.native then LoadNative(Sym(f)) else LoadFunc(Sym(f));
    var call := if sig.native then CallNative else CallFunc;
    assert GenExpr(tc) + [GenCall(tc)] == [load, call];
    AheadSplit(K, m, GenArgs(targs), [load, call], cont, brk, inFunc);
    n, m1 := SimArgs(K, cx, fuel, e.args, sig.args, targs, st, base, m, cont, brk, inFunc);
    CallByParts(K, fuel, st, e);
    var r := EvalArgs(K.P, fuel, st, e.args, sig.args);
    if r.AOk? {
      AheadTwo(K, m1, load, call, cont, brk, inFunc);
      TwoSizes(f, load, call);
      var n2, m2 := SimCalled(K, cx, fuel, e, f, r.vals, r.st, base, m1, m.operands, cont, brk, inFunc);
      Prefix(K, cx, EvalExpr(K.P, fuel, st, e), te.ty, m.pc + Size(GenExpr(te)), m.operands, fuel, LiveLen(st.env),
        base, m.frames, m, n, m1, n2, m2);
      n, m1 := n + n2, m2;
    }
  }

  lemma SimCalled(K: Setup, cx: Ctx, fuel: nat, e: Expr, f: string, vs: seq<Value>, st: SState, base: seq<Value>,
                  m: MState, ops: seq<Item>, cont: int, brk: int, inFunc: bool) returns (n: nat, m1: MState)
    requires Linked(K) && Rel(K, cx, st, base, m)
    requires f in K.G && K.G[f].GFunc? && HaveTypes(vs, K.G[f].sig.args)
    requires m.operands == ops + RevItems(vs)
    requires NextTwo(K, m, if K.G[f].sig.native then LoadNative(Sym(f)) else LoadFunc(Sym(f)),
      if K.G[f].sig.native then CallNative else CallFunc, cont, brk, inFunc)
    ensures !K.G[f].sig.native ==> f in K.P.funcs
    ensures Done(K, cx, Called(K, fuel, f, vs, st), OfRet(K.G[f].sig.ret), m.pc + 6, ops, fuel, LiveLen(st.env),
      base, m.frames, m, n, m1)
    decreases fuel, e, 0, 1
  {
    hide Linked, Rel, Done, HaveTypes, NextTwo, RevItems;
    if K.G[f].sig.native {
      n, m1 := SimNative(K, cx, fuel, f, vs, st, base, m, ops, cont, brk, inFunc);
    } else {
      n, m1 := SimCallFunc(K, cx, fuel, e, f, vs, st, base, m, ops, cont, brk, inFunc);
    }
  }

  lemma TwoSizes(f: string, load: Cmd, call: Cmd)
    requires load == LoadNative(Sym(f)) || load == LoadFunc(Sym(f))
    requires call == CallNative || call == CallFunc
    ensures CmdSize(load) == 5 && CmdSize(call) == 1
  {
  }

  // What a call yields once its arguments are evaluated.
  function Called(K: Setup, fuel: nat, f: string, vs: seq<Value>, st: SState): ERes
    requires f in K.G && K.G[f].GFunc? && (!K.G[f].sig.native ==> f in K.P.funcs)
  {
    if K.G[f].sig.native then RunNative(K.P, f, K.G[f].sig.ret, vs, st)
    else if fuel == 0 then EErr(Timeout)
    else RunFunc(K.P, fuel - 1, st, K.P.funcs[f], vs)
  }

  function AfterArgs(K: Setup, fuel: nat, f: string, r: ARes): ERes
    requires f in K.G && K.G[f].GFunc? && (!K.G[f].sig.native ==> f in K.P.funcs)
  {
    match r case AErr(x) => EErr(x) case AOk(vs, st1) => Called(K, fuel, f, vs, st1)
  }

  lemma CallByParts(K: Setup, fuel: nat, st: SState, e: Expr)
    requires Linked(K) && e.Call? && e.callee.Id? && Find(st.env, e.callee.name) < 0
    requires var f := e.callee.name; f in K.G && K.G[f].GFunc? && f !in K.P.globals
    ensures var f := e.callee.name;
      (!K.G[f].sig.native ==> f in K.P.funcs) &&
      EvalExpr(K.P, fuel, st, e) == AfterArgs(K, fuel, f, EvalArgs(K.P, fuel, st, e.args, K.G[f].sig.args))
  {
    hide GlobalsLinked, FuncsLinked, EvalArgs, RunFunc, RunNative, Find;
    var f := e.callee.name;
    if !K.G[f].sig.native {
      FuncFacts(K, f);
    }
  }

  lemma LoadNativeStep(K: Setup, f: string, m: MState, cont: int, brk: int, inFunc: bool)
    requires f in K.link.natives && Next(K, m, LoadNative(Sym(f)), cont, brk, inFunc)
    ensures Run(K.img, 1, m) == Some(m.(pc := m.pc + 5, operands := m.operands + [NativeV(K.link.natives[f])]))
  {
    hide Run, At, Exec;
    Fetch(K, m, LoadNative(Sym(f)), cont, brk, inFunc);
    ExecLoadNative(K, m, f, cont, brk);
  }

  lemma CallNativeStep(K: Setup, f: string, s: MState, ops: seq<Item>, cont: int, brk: int, inFunc: bool)
    requires f in K.G && K.G[f].GFunc? && f in K.link.natives && K.link.natives[f] < |K.img.natives|
    requires K.img.natives[K.link.natives[f]] == Native(f, K.G[f].sig)
    requires s.operands == ops + [NativeV(K.link.natives[f])] && Next(K, s, CallNative, cont, brk, inFunc)
    ensures Run(K.img, 1, s) == StepNative(K.img, s.(pc := s.pc + 1, operands := ops), Native(f, K.G[f].sig))
  {
    hide Run, At, Exec, StepNative;
    Fetch(K, s, CallNative, cont, brk, inFunc);
    ExecCallNative(K, s, ops, f);
  }

  lemma NativeReturned(K: Setup, cx: Ctx, fuel: nat, f: string, vs: seq<Value>, st: SState, base: seq<Value>, m: MState,
                       ops: seq<Item>, end: nat, n: nat, m1: MState)
    requires f in K.G && K.G[f].GFunc? && K.G[f].sig.native && Rel(K, cx, st, base, m) && Run(K.img, n, m) == Some(m1)
    requires var r := K.P.prims.native(f, vs, st.world);
      m1 == m.(pc := end, world := r.1,
        operands := ops + (if K.G[f].sig.ret.None? then [] else [V(Val(K.G[f].sig.ret.value, r.0))]))
    ensures Done(K, cx, Called(K, fuel, f, vs, st), OfRet(K.G[f].sig.ret), end, ops, fuel, LiveLen(st.env),
      base, m.frames, m, n, m1)
  {
    hide Rel, Run, LiveLen, RunFunc;
    RelWorld(K, cx, st, base, m, m1, K.P.prims.native(f, vs, st.world).1);
  }

  lemma SimNative(K: Setup, cx: Ctx, fuel: nat, f: string, vs: seq<Value>, st: SState, base: seq<Value>, m: MState,
                  ops: seq<Item>, cont: int, brk: int, inFunc: bool) returns (n: nat, m1: MState)
    requires Linked(K) && Rel(K, cx, st, base, m)
    requires f in K.G && K.G[f].GFunc? && K.G[f].sig.native && HaveTypes(vs, K.G[f].sig.args)
    requires m.operands == ops + RevItems(vs)
    requires NextTwo(K, m, LoadNative(Sym(f)), CallNative, cont, brk, inFunc)
    ensures Done(K, cx, Called(K, fuel, f, vs, st), OfRet(K.G[f].sig.ret), m.pc + 6, ops, fuel, LiveLen(st.env),
      base, m.frames, m, n, m1)
  {
    hide *;
    var load, sig := LoadNative(Sym(f)), K.G[f].sig;
    TwoSizes(f, load, CallNative);
    FirstOfTwo(K, m, load, CallNative, cont, brk, inFunc);
    NativeFacts(K, m, f, cont, brk, inFunc);
    LoadNativeStep(K, f, m, cont, brk, inFunc);
    var s := m.(pc := m.pc + 5, operands := m.operands + [NativeV(K.link.natives[f])]);
    CallNativeStep(K, f, s, m.operands, cont, brk, inFunc);
    TakeRev(ops, vs, sig.args);
    TypesLen(vs, sig.args);
    RelGlobals(K, cx, st, base, m);
    NativeStep(K, s.(pc := s.pc + 1, operands := m.operands), f, vs, ops, st);
    Chain(K.img, 1, m, s, 1);
    n, m1 := 2, Run(K.img, 1, s).value;
    NativeReturned(K, cx, fuel, f, vs, st, base, m, ops, m.pc + 6, n, m1);
  }

  lemma TypesLen(vs: seq<Value>, ts: seq<Ty>)
    requires HaveTypes(vs, ts)
    ensures |vs| == |ts|
  {
  }

  // Code that has been linked refers to no native without an index.
  lemma NativeFacts(K: Setup, m: MState, f: string, cont: int, brk: int, inFunc: bool)
    requires Linked(K) && f in K.G && K.G[f].GFunc? && K.G[f].sig.native
    requires Next(K, m, LoadNative(Sym(f)), cont, brk, inFunc)
    ensures f in K.link.natives && K.link.natives[f] < |K.img.natives|
    ensures K.img.natives[K.link.natives[f]] == Native(f, K.G[f].sig) && K.img.prims == K.P.prims
  {
    hide GlobalsLinked, FuncsLinked;
    var c := LoadNative(Sym(f));
    assert [c][0] == c;
    assert Decode(K.img.code, m.pc) == Some(Ready(K.link, c, m.pc, cont, brk));
    NeverSymbolic(K.img.code, m.pc, f);
  }

  lemma NeverSymbolic(img: seq<byte>, pos: nat, f: string)
    ensures Decode(img, pos) != Some(LoadNative(Sym(f)))
  {
    hide DecodeId, Word, Chunk;
  }

  lemma ExecLoadNative(K: Setup, m: MState, f: string, cont: int, brk: int)
    requires f in K.link.natives
    ensures Exec(K.img, Past(m, LoadNative(Sym(f))), Ready(K.link, LoadNative(Sym(f)), m.pc, cont, brk)) ==
      Some(PushItem(Past(m, LoadNative(Sym(f))), NativeV(K.link.natives[f])))
  {
    hide CmdSize;
  }

  lemma ExecCallNative(K: Setup, s: MState, ops: seq<Item>, f: string)
    requires f in K.G && K.G[f].GFunc? && f in K.link.natives && K.link.natives[f] < |K.img.natives|
    requires K.img.natives[K.link.natives[f]] == Native(f, K.G[f].sig)
    requires s.operands == ops + [NativeV(K.link.natives[f])]
    ensures Exec(K.img, Past(s, CallNative), CallNative) ==
      StepNative(K.img, Past(s, CallNative).(operands := ops), Native(f, K.G[f].sig))
    ensures Ready(K.link, CallNative, s.pc, 0, 0) == CallNative
  {
    hide StepNative, CmdSize;
    assert s.operands[..|s.operands| - 1] == ops;
  }

  lemma NativeStep(K: Setup, s: MState, f: string, vs: seq<Value>, ops: seq<Item>, st: SState)
    requires f in K.G && K.G[f].GFunc? && |vs| == |K.G[f].sig.args| && |RevItems(vs)| == |vs|
    requires s.operands == ops + RevItems(vs) && TakeArgs(s.operands, K.G[f].sig.args) == Some(vs)
    requires K.img.prims == K.P.prims
    ensures var r := K.P.prims.native(f, vs, s.world);
      StepNative(K.img, s, Native(f, K.G[f].sig)) ==
        Some(s.(world := r.1,
          operands := ops + (if K.G[f].sig.ret.None? then [] else [V(Val(K.G[f].sig.ret.value, r.0))])))
  {
    hide TakeArgs, RevItems;
    assert s.operands[..|s.operands| - |vs|] == ops;
    assert ops + [] == ops;
  }

  lemma RelWorld(K: Setup, cx: Ctx, st: SState, base: seq<Value>, m: MState, m1: MState, w: World)
    requires Rel(K, cx, st, base, m)
    requires m1 == m.(pc := m1.pc, operands := m1.operands, world := w)
    ensures Rel(K, cx, st.(world := w), base, m1) && m.world == st.world
  {
    hide EnvMatch, GlobalsMatch, Nested, Extends, EnvOk, LiveLen, Vals, Extent;
  }

  lemma LoadFuncStep(K: Setup, f: string, m: MState, cont: int, brk: int, inFunc: bool)
    requires f in K.link.funcs && Next(K, m, LoadFunc(Sym(f)), cont, brk, inFunc)
    ensures Run(K.img, 1, m) == Some(PushItem(Past(m, LoadFunc(Sym(f))), FuncV(K.link.funcs[f])))
  {
    hide Run, At, CmdSize;
    var load := LoadFunc(Sym(f));
    Fetch(K, m, load, cont, brk, inFunc);
    assert Exec(K.img, Past(m, load), Ready(K.link, load, m.pc, cont, brk)) ==
      Some(PushItem(Past(m, load), FuncV(K.link.funcs[f])));
  }

  lemma CallFuncStep(K: Setup, at: nat, ops: seq<Item>, m: MState, cont: int, brk: int, inFunc: bool)
    requires m.operands == ops + [FuncV(at)] && Next(K, m, CallFunc, cont, brk, inFunc)
    ensures Run(K.img, 1, m) == Some(m.(pc := at, operands := ops,
      frames := m.frames + [Frame(Extent(m.locals), m.pc + CmdSize(CallFunc))]))
  {
    hide Run, At, Extent, CmdSize;
    Fetch(K, m, CallFunc, cont, brk, inFunc);
    assert m.operands[..|m.operands| - 1] == ops;
  }

  // The two steps that enter a function.
  lemma EnterFunc(K: Setup, f: string, m: MState, cont: int, brk: int, inFunc: bool)
    requires f in K.link.funcs
    requires NextTwo(K, m, LoadFunc(Sym(f)), CallFunc, cont, brk, inFunc)
    ensures Run(K.img, 1, m) == Some(PushItem(Past(m, LoadFunc(Sym(f))), FuncV(K.link.funcs[f])))
    ensures Run(K.img, 2, m) ==
      Some(m.(pc := K.link.funcs[f], frames := m.frames + [Frame(Extent(m.locals), m.pc + 6)]))
  {
    hide Run, At, Extent, CmdSize;
    var load := LoadFunc(Sym(f));
    TwoSizes(f, load, CallFunc);
    FirstOfTwo(K, m, load, CallFunc, cont, brk, inFunc);
    LoadFuncStep(K, f, m, cont, brk, inFunc);
    var s := PushItem(Past(m, load), FuncV(K.link.funcs[f]));
    CallFuncStep(K, K.link.funcs[f], m.operands, s, cont, brk, inFunc);
    Chain(K.img, 1, m, s, 1);
  }

  lemma SimCallFunc(K: Setup, cx: Ctx, fuel: nat, e: Expr, f: string, vs: seq<Value>, st: SState, base: seq<Value>,
                    m: MState, ops: seq<Item>, cont: int, brk: int, inFunc: bool) returns (n: nat, m1: MState)
    requires Linked(K) && Rel(K, cx, st, base, m)
    requires f in K.G && K.G[f].GFunc? && !K.G[f].sig.native && HaveTypes(vs, K.G[f].sig.args)
    requires m.operands == ops + RevItems(vs)
    requires NextTwo(K, m, LoadFunc(Sym(f)), CallFunc, cont, brk, inFunc)
    ensures f in K.P.funcs
    ensures Done(K, cx, Called(K, fuel, f, vs, st), OfRet(K.G[f].sig.ret), m.pc + 6, ops, fuel, LiveLen(st.env),
      base, m.frames, m, n, m1)
    decreases fuel, e, 0, 0
  {
    hide Rel, Run, At, LiveLen, Linked, RevItems, FuncLinked, RunFunc, GlobalsMatch, Step, Extent, FuncsLinked, Failed;
    FuncFacts(K, f);
    EnterFunc(K, f, m, cont, brk, inFunc);
    if fuel == 0 {
      m1 := PushItem(Past(m, LoadFunc(Sym(f))), FuncV(K.link.funcs[f]));
      RunOut(K, m, 1, m1);
      return 1, m1;
    }
    var s1 := m.(pc := K.link.funcs[f], frames := m.frames + [Frame(Extent(m.locals), m.pc + 6)]);
    RelGlobals(K, cx, st, base, m);
    n, m1 := SimFunc(K, f, fuel - 1, vs, st, ops, s1);
    Chain(K.img, 2, m, s1, n);
    FailedLater(K, fuel - 1, m, 2, s1, n);
    assert s1.frames[..|s1.frames| - 1] == m.frames;
    var r := RunFunc(K.P, fuel - 1, st, K.P.funcs[f], vs);
    if r.EOk? {
      RelBack(K, cx, st, base, m, r.st, m1);
    }
    n := n + 2;
  }

  // Back from a call, only the globals and the world may have changed.
  lemma RelBack(K: Setup, cx: Ctx, st: SState, base: seq<Value>, m: MState, st1: SState, m1: MState)
    requires Rel(K, cx, st, base, m)
    requires st1.env == st.env && m1.locals == m.locals && m1.frames == m.frames
    requires GlobalsMatch(K, st1.globals, m1.globals) && m1.world == st1.world
    ensures Rel(K, cx, st1, base, m1)
  {
    hide EnvMatch, GlobalsMatch, Nested, Extends, EnvOk, LiveLen, Vals, Extent;
  }
}
