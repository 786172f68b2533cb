/** Which programs are well-formed, as a relation on the source alone: what a name means where it stands,
    which types an expression can have, and which definitions may stand in a scope. The analyzer accepts
    exactly these programs, and gives every expression the type it has here. */
module Typing {
  import opened Bytes
  import opened Language
  import opened Analysis
  import opened Scoping

  // The names that a block has defined so far, and whether the block is a loop's body.
  datatype Block = Block(loop: bool, names: map<string, Ty>)

  // What is known where a piece of program stands: the global names, the blocks around it from the
  // outermost to the innermost, and the enclosing function's return type.
  datatype Env = Env(globals: map<string, GDef>, blocks: seq<Block>, ret: Option<Option<Ty>>)

  // ----- types -----

  // A value of type a can stand where one of type b is expected.
  predicate Fits(a: Ty, b: Ty) {
    a == b || (a, b) in {(Char, Int), (Char, Long), (Char, String), (Int, Long), (Int, Double), (Long, Double)}
  }

  // The type at which two operands can meet: that of one of them, which the other fits.
  predicate Meeting(a: Ty, b: Ty, c: Ty) { (c == a && Fits(b, a)) || (c == b && Fits(a, b)) }

  // An operator takes two operands of type t and gives a result of type r.
  predicate Takes(op: BinOp, t: Ty, r: Ty) {
    match op
    case Sum => t in {Char, Int, Long, Double, String} && r == t
    case Mul => t in {Char, Int, Long, Double} && r == t
    case Div => t in {Char, Int, Long, Double} && r == t
    case Sub => t in {Char, Int, Long, Double} && r == t
    case Equal => r == Bool
    case NotEqual => r == Bool
    case Less => t in {Char, Int, Long, Double} && r == Bool
    case LessOrEqual => t in {Char, Int, Long, Double} && r == Bool
    case Greater => t in {Char, Int, Long, Double} && r == Bool
    case GreaterOrEqual => t in {Char, Int, Long, Double} && r == Bool
  }

  predicate TakesOne(op: UnOp, t: Ty) {
    match op
    case Not => t == Bool
    case Negative => t in {Int, Long, Double}
  }

  // ----- names -----

  // The innermost block that has the name is the k-th.
  predicate Innermost(blocks: seq<Block>, k: nat, x: string) {
    k < |blocks| && x in blocks[k].names && forall j :: k < j < |blocks| ==> x !in blocks[j].names
  }

  // The name stands for a variable of the innermost block that has it; for a global if no block has it.
  ghost predicate Means(v: Env, x: string, t: ETy) {
    (exists k: nat :: Innermost(v.blocks, k, x) && t == Prim(v.blocks[k].names[x])) ||
    ((forall k :: 0 <= k < |v.blocks| ==> x !in v.blocks[k].names) && x in v.globals &&
      t == (match v.globals[x] case GVar(a) => Prim(a) case GFunc(sig) => FuncT(sig)))
  }

  // ----- expressions -----

  ghost predicate Typed(v: Env, e: Expr, t: ETy)
    decreases e, 0
  {
    match e
    case Lit(w) => t == Prim(w.ty)
    case Id(x) => Means(v, x, t)
    case Assign(l, r) =>
      t == Void && l.Id? && exists a: Ty :: Means(v, l.name, Prim(a)) && Gives(v, r, a)
    case PreStep(_, o) =>
      t == Void && o.Id? && exists a: Ty :: Means(v, o.name, Prim(a)) && a in {Char, Int, Long, Double}
    case Unary(op, o) => exists a: Ty :: Typed(v, o, Prim(a)) && TakesOne(op, a) && t == Prim(a)
    case Binary(op, l, r) =>
      exists a: Ty, b: Ty, c: Ty, d: Ty ::
        Typed(v, l, Prim(a)) && Typed(v, r, Prim(b)) && Meeting(a, b, c) && Takes(op, c, d) && t == Prim(d)
    case And(l, r) => t == Prim(Bool) && Typed(v, l, Prim(Bool)) && Typed(v, r, Prim(Bool))
    case Or(l, r) => t == Prim(Bool) && Typed(v, l, Prim(Bool)) && Typed(v, r, Prim(Bool))
    case Call(f, args) =>
      f.Id? &&
      exists sig: Sig :: Means(v, f.name, FuncT(sig)) && |args| == |sig.args| &&
        t == (if sig.ret.None? then Void else Prim(sig.ret.value)) &&
        forall i :: 0 <= i < |args| ==> Gives(v, args[i], sig.args[i])
  }

  // The expression has a value that can stand for one of type t.
  ghost predicate Gives(v: Env, e: Expr, t: Ty)
    decreases e, 1
  {
    exists b: Ty :: Typed(v, e, Prim(b)) && Fits(b, t)
  }

  // ----- statements -----

  // The name is already defined in the innermost block, or globally outside all blocks.
  predicate Taken(v: Env, x: string) {
    if v.blocks == [] then x in v.globals else x in v.blocks[|v.blocks| - 1].names
  }

  function Declare(v: Env, x: string, t: Ty): Env {
    if v.blocks == [] then v.(globals := v.globals[x := GVar(t)])
    else
      var k := |v.blocks| - 1;
      v.(blocks := v.blocks[..k] + [v.blocks[k].(names := v.blocks[k].names[x := t])])
  }

  function Behind(v: Env, s: Stmt): Env { if s.VarDef? then Declare(v, s.name, s.ty) else v }

  function Inside(v: Env, loop: bool): Env { v.(blocks := v.blocks + [Block(loop, map[])]) }

  ghost predicate StmtOk(v: Env, s: Stmt)
    decreases s, 1
  {
    match s
    case ExprStmt(e) => exists t: ETy :: Typed(v, e, t)
    case VarDef(t, x, init) => !Taken(v, x) && (init.Some? ==> Gives(Declare(v, x, t), init.value, t))
    case If(bs, els) =>
      (forall i :: 0 <= i < |bs| ==> Typed(v, bs[i].cond, Prim(Bool)) && StmtsOk(Inside(v, false), bs[i].body)) &&
      (els.Else? ==> StmtsOk(Inside(v, false), els.body))
    case While(c, b) => Typed(v, c, Prim(Bool)) && StmtsOk(Inside(v, true), b)
    case Break => exists k :: 0 <= k < |v.blocks| && v.blocks[k].loop
    case Continue => exists k :: 0 <= k < |v.blocks| && v.blocks[k].loop
    case Return(value) =>
      v.ret.Some? && value.Some? == v.ret.value.Some? && (value.Some? ==> Gives(v, value.value, v.ret.value.value))
  }

  ghost predicate StmtsOk(v: Env, ss: seq<Stmt>)
    decreases ss, 0
  {
    ss == [] || (StmtOk(v, ss[0]) && StmtsOk(Behind(v, ss[0]), ss[1..]))
  }

  // ----- functions -----

  function Params(args: seq<Arg>): map<string, Ty> {
    if args == [] then map[] else Params(args[..|args| - 1])[args[|args| - 1].name := args[|args| - 1].ty]
  }

  ghost predicate FuncOk(globals: map<string, GDef>, f: Func) {
    (forall i, j :: 0 <= i < j < |f.args| ==> f.args[i].name != f.args[j].name) &&
    StmtsOk(Env(globals, [Block(false, Params(f.args))], Some(f.ret)), f.body) &&
    (f.ret.Some? ==> exists i :: 0 <= i < |f.body| && f.body[i].Return?)
  }

  // ----- the analyzer's context as an environment -----

  function Names(ds: seq<LocalDef>): map<string, Ty> {
    if ds == [] then map[] else Names(ds[..|ds| - 1])[ds[|ds| - 1].name := ds[|ds| - 1].t]
  }

  function BlockOf(s: Scope): Block { Block(s.kind == Loop, Names(s.defs)) }

  function Blocks(ss: seq<Scope>): (bs: seq<Block>)
    ensures |bs| == |ss|
  {
    seq(|ss|, k requires 0 <= k < |ss| => BlockOf(ss[k]))
  }

  function EnvOf(cx: Ctx): Env { Env(cx.globals, Blocks(cx.scopes), cx.ret) }

  lemma {:induction false} FoundNamed(ds: seq<LocalDef>, x: string)
    ensures FindDef(ds, x) >= 0 <==> x in Names(ds)
    ensures x in Names(ds) ==> Names(ds)[x] == ds[FindDef(ds, x)].t
  {
    if ds != [] {
      FoundNamed(ds[..|ds| - 1], x);
    }
  }

  lemma {:induction false} ResolveMeans(ss: seq<Scope>, x: string)
    ensures Resolve(ss, x).Some? ==>
      exists k: nat :: Innermost(Blocks(ss), k, x) && Blocks(ss)[k].names[x] == Resolve(ss, x).value.t
    ensures Resolve(ss, x).None? <==> forall k :: 0 <= k < |ss| ==> x !in Blocks(ss)[k].names
  {
    if ss != [] {
      var n := |ss| - 1;
      FoundNamed(ss[n].defs, x);
      ResolveMeans(ss[..n], x);
      assert forall k :: 0 <= k < n ==> Blocks(ss[..n])[k] == Blocks(ss)[k];
      if FindDef(ss[n].defs, x) >= 0 {
        assert Innermost(Blocks(ss), n, x);
      } else if Resolve(ss, x).Some? {
        var k: nat :| Innermost(Blocks(ss[..n]), k, x) && Blocks(ss[..n])[k].names[x] == Resolve(ss, x).value.t;
        assert Innermost(Blocks(ss), k, x);
      }
    }
  }

  // A name means what the analyzer resolves it to, and nothing else.
  lemma MeansIff(cx: Ctx, x: string, assignee: bool, t: ETy)
    ensures Means(EnvOf(cx), x, t) <==>
      AnalyzeId(cx, x, assignee).Some? && AnalyzeId(cx, x, assignee).value.ty == t
  {
    hide Names;
    var v := EnvOf(cx);
    ResolveMeans(cx.scopes, x);
    hide Resolve, BlockOf;
    assert v.blocks == Blocks(cx.scopes);
    if Resolve(cx.scopes, x).Some? {
      var k: nat :| Innermost(v.blocks, k, x) && v.blocks[k].names[x] == Resolve(cx.scopes, x).value.t;
      assert forall j: nat :: Innermost(v.blocks, j, x) ==> j == k;
    }
  }

  // ----- the tables -----

  lemma FitsIff(a: Ty, b: Ty)
    ensures Fits(a, b) <==> a == b || Castable(a, b)
  {
  }

  lemma MeetingIff(a: Ty, b: Ty, c: Ty)
    ensures Meeting(a, b, c) <==> Meet(a, b) == Some(c)
  {
  }

  lemma TakesIff(op: BinOp, t: Ty, r: Ty)
    ensures Takes(op, t, r) <==> SupportsBin(op, t) && r == BinType(op, t)
  {
  }

  lemma TakesOneIff(op: UnOp, t: Ty)
    ensures TakesOne(op, t) <==> SupportsUn(op, t)
  {
  }

  // ----- expressions -----

  predicate Has(r: Option<TExpr>, t: ETy) { r.Some? && r.value.ty == t }

  // Only a name is a left value or a function.
  lemma NamesOnly(cx: Ctx, e: Expr, assignee: bool)
    requires AnalyzeExpr(cx, e, assignee).Some?
    ensures var te := AnalyzeExpr(cx, e, assignee).value;
      (IsLeft(te) && te.ty.Prim? <==> e.Id? && te.ty.Prim?) && (te.ty.FuncT? ==> e.Id?)
  {
    hide Resolve, SupportsBin, SupportsUn, SupportsStep, BinType, AnalyzeOperands, AnalyzeTo, AnalyzeArgs;
  }

  lemma {:induction false} ExprIff(cx: Ctx, e: Expr, assignee: bool, t: ETy)
    ensures Typed(EnvOf(cx), e, t) <==> Has(AnalyzeExpr(cx, e, assignee), t)
    decreases e, 2
  {
    hide *;
    match e
    case Lit(w) => LitIff(cx, e, assignee, t);
    case Id(x) => IdIff(cx, e, assignee, t);
    case Assign(l, r) =>
      MeansAll(cx, l, true);
      forall a ensures Gives(EnvOf(cx), r, a) <==> AnalyzeTo(cx, r, a, assignee).Some? {
        GivesIff(cx, r, a, assignee);
      }
      AssignIff(cx, e, assignee, t);
    case PreStep(inc, o) =>
      MeansAll(cx, o, true);
      PreStepIff(cx, e, assignee, t);
    case Unary(op, o) =>
      forall b ensures Typed(EnvOf(cx), o, b) <==> Has(AnalyzeExpr(cx, o, assignee), b) {
        ExprIff(cx, o, assignee, b);
      }
      UnaryIff(cx, e, assignee, t);
    case Binary(op, l, r) =>
      BothIff(cx, l, r, assignee, e);
      BinaryIff(cx, e, assignee, t);
    case And(l, r) =>
      BothIff(cx, l, r, assignee, e);
      LogicIff(cx, l, r, e, assignee, t);
    case Or(l, r) =>
      BothIff(cx, l, r, assignee, e);
      LogicIff(cx, l, r, e, assignee, t);
    case Call(f, args) =>
      MeansAll(cx, f, assignee);
      if AnalyzeExpr(cx, f, assignee).Some? && AnalyzeExpr(cx, f, assignee).value.ty.FuncT? {
        ArgsIff(cx, args, AnalyzeExpr(cx, f, assignee).value.ty.sig.args, assignee);
      }
      CallIff(cx, e, assignee, t);
  }

  lemma {:induction false} BothIff(cx: Ctx, l: Expr, r: Expr, assignee: bool, e: Expr)
    requires l < e && r < e
    ensures forall b :: Typed(EnvOf(cx), l, b) <==> Has(AnalyzeExpr(cx, l, assignee), b)
    ensures forall b :: Typed(EnvOf(cx), r, b) <==> Has(AnalyzeExpr(cx, r, assignee), b)
    decreases e, 1
  {
    hide *;
    forall b
      ensures Typed(EnvOf(cx), l, b) <==> Has(AnalyzeExpr(cx, l, assignee), b)
      ensures Typed(EnvOf(cx), r, b) <==> Has(AnalyzeExpr(cx, r, assignee), b)
    {
      ExprIff(cx, l, assignee, b);
      ExprIff(cx, r, assignee, b);
    }
  }

  lemma LitIff(cx: Ctx, e: Expr, assignee: bool, t: ETy)
    requires e.Lit?
    ensures Typed(EnvOf(cx), e, t) <==> Has(AnalyzeExpr(cx, e, assignee), t)
  {
  }

  lemma IdIff(cx: Ctx, e: Expr, assignee: bool, t: ETy)
    requires e.Id?
    ensures Typed(EnvOf(cx), e, t) <==> Has(AnalyzeExpr(cx, e, assignee), t)
  {
    hide Means, AnalyzeId;
    MeansIff(cx, e.name, assignee, t);
  }

  lemma MeansAll(cx: Ctx, e: Expr, assignee: bool)
    ensures e.Id? ==> forall t :: Means(EnvOf(cx), e.name, t) <==> Has(AnalyzeExpr(cx, e, assignee), t)
    ensures AnalyzeExpr(cx, e, assignee).Some? ==>
      var te := AnalyzeExpr(cx, e, assignee).value;
      (IsLeft(te) && te.ty.Prim? <==> e.Id? && te.ty.Prim?) && (te.ty.FuncT? ==> e.Id?)
  {
    if e.Id? {
      forall t ensures Means(EnvOf(cx), e.name, t) <==> Has(AnalyzeExpr(cx, e, assignee), t) {
        hide Means, AnalyzeId;
        MeansIff(cx, e.name, assignee, t);
      }
    }
    if AnalyzeExpr(cx, e, assignee).Some? {
      NamesOnly(cx, e, assignee);
    }
  }

  lemma AssignIff(cx: Ctx, e: Expr, assignee: bool, t: ETy)
    requires e.Assign?
    requires e.left.Id? ==> forall t :: Means(EnvOf(cx), e.left.name, t) <==> Has(AnalyzeExpr(cx, e.left, true), t)
    requires AnalyzeExpr(cx, e.left, true).Some? ==>
      var te := AnalyzeExpr(cx, e.left, true).value; IsLeft(te) && te.ty.Prim? <==> e.left.Id? && te.ty.Prim?
    requires forall a :: Gives(EnvOf(cx), e.right, a) <==> AnalyzeTo(cx, e.right, a, assignee).Some?
    ensures Typed(EnvOf(cx), e, t) <==> Has(AnalyzeExpr(cx, e, assignee), t)
  {
    var l, v := e.left, EnvOf(cx);
    var al := AnalyzeExpr(cx, l, true);
    hide Means, IsLeft, Gives, AnalyzeTo, EnvOf;
    if al.Some? && al.value.ty.Prim? && l.Id? {
      assert Means(v, l.name, Prim(al.value.ty.t));
    }
  }

  lemma PreStepIff(cx: Ctx, e: Expr, assignee: bool, t: ETy)
    requires e.PreStep?
    requires e.operand.Id? ==>
      forall t :: Means(EnvOf(cx), e.operand.name, t) <==> Has(AnalyzeExpr(cx, e.operand, true), t)
    requires AnalyzeExpr(cx, e.operand, true).Some? ==>
      var te := AnalyzeExpr(cx, e.operand, true).value; IsLeft(te) && te.ty.Prim? <==> e.operand.Id? && te.ty.Prim?
    ensures Typed(EnvOf(cx), e, t) <==> Has(AnalyzeExpr(cx, e, assignee), t)
  {
    var o, v := e.operand, EnvOf(cx);
    var ao := AnalyzeExpr(cx, o, true);
    hide Means, IsLeft, EnvOf;
    if ao.Some? && ao.value.ty.Prim? && o.Id? {
      assert Means(v, o.name, Prim(ao.value.ty.t));
    }
  }

  lemma UnaryIff(cx: Ctx, e: Expr, assignee: bool, t: ETy)
    requires e.Unary?
    requires forall b :: Typed(EnvOf(cx), e.operand, b) <==> Has(AnalyzeExpr(cx, e.operand, assignee), b)
    ensures Typed(EnvOf(cx), e, t) <==> Has(AnalyzeExpr(cx, e, assignee), t)
  {
    var o, v := e.operand, EnvOf(cx);
    var ao := AnalyzeExpr(cx, o, assignee);
    hide TakesOne, SupportsUn, EnvOf;
    if ao.Some? && ao.value.ty.Prim? {
      TakesOneIff(e.uop, ao.value.ty.t);
      assert Typed(v, o, Prim(ao.value.ty.t));
    }
  }

  // What the analyzer makes of two operands.
  lemma OperandsMeet(cx: Ctx, l: Expr, r: Expr, assignee: bool, e: Expr, c: Ty)
    requires l < e && r < e
    ensures var al, ar := AnalyzeExpr(cx, l, assignee), AnalyzeExpr(cx, r, assignee);
      (AnalyzeOperands(cx, l, r, assignee, e).Some? && AnalyzeOperands(cx, l, r, assignee, e).value.2 == c) <==>
      (al.Some? && ar.Some? && al.value.ty.Prim? && ar.value.ty.Prim? &&
       Meeting(al.value.ty.t, ar.value.ty.t, c))
  {
    hide Meeting, AnalyzeExpr, Coerce, Castable;
    var al, ar := AnalyzeExpr(cx, l, assignee), AnalyzeExpr(cx, r, assignee);
    if al.Some? && ar.Some? && al.value.ty.Prim? && ar.value.ty.Prim? {
      MeetingIff(al.value.ty.t, ar.value.ty.t, c);
    }
  }

  lemma BinaryIff(cx: Ctx, e: Expr, assignee: bool, t: ETy)
    requires e.Binary?
    requires forall b :: Typed(EnvOf(cx), e.left, b) <==> Has(AnalyzeExpr(cx, e.left, assignee), b)
    requires forall b :: Typed(EnvOf(cx), e.right, b) <==> Has(AnalyzeExpr(cx, e.right, assignee), b)
    ensures Typed(EnvOf(cx), e, t) <==> Has(AnalyzeExpr(cx, e, assignee), t)
  {
    var l, r, v := e.left, e.right, EnvOf(cx);
    var al, ar := AnalyzeExpr(cx, l, assignee), AnalyzeExpr(cx, r, assignee);
    var q := AnalyzeOperands(cx, l, r, assignee, e);
    if q.Some? {
      var c := q.value.2;
      OperandsMeet(cx, l, r, assignee, e, c);
      TakesIff(e.bop, c, BinType(e.bop, c));
    }
    forall c: Ty, d: Ty
      ensures
        (al.Some? && ar.Some? && al.value.ty.Prim? && ar.value.ty.Prim? && Meeting(al.value.ty.t, ar.value.ty.t, c)) ==>
        q.Some? && q.value.2 == c
      ensures Takes(e.bop, c, d) <==> SupportsBin(e.bop, c) && d == BinType(e.bop, c)
    {
      OperandsMeet(cx, l, r, assignee, e, c);
      TakesIff(e.bop, c, d);
    }
    hide Meeting, Takes, SupportsBin, BinType, AnalyzeOperands, EnvOf;
    if Has(AnalyzeExpr(cx, e, assignee), t) {
      assert Typed(v, l, Prim(al.value.ty.t)) && Typed(v, r, Prim(ar.value.ty.t));
    }
  }

  lemma LogicParts(cx: Ctx, l: Expr, r: Expr, e: Expr, assignee: bool, t: ETy)
    requires e == And(l, r) || e == Or(l, r)
    ensures Has(AnalyzeExpr(cx, e, assignee), t) <==>
      t == Prim(Bool) && AnalyzeOperands(cx, l, r, assignee, e).Some? &&
      AnalyzeOperands(cx, l, r, assignee, e).value.2 == Bool
    ensures Typed(EnvOf(cx), e, t) <==>
      t == Prim(Bool) && Typed(EnvOf(cx), l, Prim(Bool)) && Typed(EnvOf(cx), r, Prim(Bool))
  {
    hide AnalyzeOperands, EnvOf;
  }

  lemma LogicIff(cx: Ctx, l: Expr, r: Expr, e: Expr, assignee: bool, t: ETy)
    requires e == And(l, r) || e == Or(l, r)
    requires forall b :: Typed(EnvOf(cx), l, b) <==> Has(AnalyzeExpr(cx, l, assignee), b)
    requires forall b :: Typed(EnvOf(cx), r, b) <==> Has(AnalyzeExpr(cx, r, assignee), b)
    ensures Typed(EnvOf(cx), e, t) <==> Has(AnalyzeExpr(cx, e, assignee), t)
  {
    hide Meeting, AnalyzeOperands, EnvOf, Fits, Castable, Resolve;
    OperandsMeet(cx, l, r, assignee, e, Bool);
    var al, ar := AnalyzeExpr(cx, l, assignee), AnalyzeExpr(cx, r, assignee);
    if al.Some? && ar.Some? && al.value.ty.Prim? && ar.value.ty.Prim? {
      OnlyBool(al.value.ty.t, ar.value.ty.t);
    }
    LogicParts(cx, l, r, e, assignee, t);
  }

  lemma OnlyBool(a: Ty, b: Ty)
    ensures Meeting(a, b, Bool) <==> a == Bool && b == Bool
  {
  }

  // ----- arguments -----

  ghost predicate ArgsOk(v: Env, es: seq<Expr>, ts: seq<Ty>) {
    |es| == |ts| && forall i :: 0 <= i < |es| ==> Gives(v, es[i], ts[i])
  }

  lemma ArgsLast(v: Env, es: seq<Expr>, ts: seq<Ty>)
    requires |es| == |ts| && es != []
    ensures var k := |es| - 1; ArgsOk(v, es, ts) <==> ArgsOk(v, es[..k], ts[..k]) && Gives(v, es[k], ts[k])
  {
    hide Gives;
    var k := |es| - 1;
    assert forall i :: 0 <= i < k ==> es[..k][i] == es[i] && ts[..k][i] == ts[i];
    if ArgsOk(v, es[..k], ts[..k]) && Gives(v, es[k], ts[k]) {
      forall i | 0 <= i < |es| ensures Gives(v, es[i], ts[i]) {
        if i < k {
          assert Gives(v, es[..k][i], ts[..k][i]);
        }
      }
    }
  }

  lemma {:induction false} ArgsIff(cx: Ctx, es: seq<Expr>, ts: seq<Ty>, assignee: bool)
    ensures AnalyzeArgs(cx, es, ts, assignee).Some? <==> ArgsOk(EnvOf(cx), es, ts)
    decreases es, 0
  {
    hide AnalyzeTo, Gives, EnvOf;
    if |es| == |ts| && es != [] {
      var k := |es| - 1;
      ArgsLast(EnvOf(cx), es, ts);
      hide ArgsOk;
      ArgsIff(cx, es[..k], ts[..k], assignee);
      GivesIff(cx, es[k], ts[k], assignee);
    }
  }

  // An expression can stand for a value of the type exactly if the analyzer can convert it.
  lemma {:induction false} GivesIff(cx: Ctx, e: Expr, t: Ty, assignee: bool)
    ensures Gives(EnvOf(cx), e, t) <==> AnalyzeTo(cx, e, t, assignee).Some?
    decreases e, 3
  {
    hide EnvOf, AnalyzeExpr, Typed;
    var a := AnalyzeExpr(cx, e, assignee);
    forall b ensures Typed(EnvOf(cx), e, b) <==> Has(a, b) {
      ExprIff(cx, e, assignee, b);
    }
    if a.Some? && a.value.ty.Prim? {
      FitsIff(a.value.ty.t, t);
      assert Typed(EnvOf(cx), e, Prim(a.value.ty.t));
    }
    hide Fits, Castable;
  }

  lemma CallIff(cx: Ctx, e: Expr, assignee: bool, t: ETy)
    requires e.Call?
    requires e.callee.Id? ==>
      forall t :: Means(EnvOf(cx), e.callee.name, t) <==> Has(AnalyzeExpr(cx, e.callee, assignee), t)
    requires var a := AnalyzeExpr(cx, e.callee, assignee); a.Some? && a.value.ty.FuncT? ==>
      e.callee.Id? &&
      (AnalyzeArgs(cx, e.args, a.value.ty.sig.args, assignee).Some? <==>
       ArgsOk(EnvOf(cx), e.args, a.value.ty.sig.args))
    ensures Typed(EnvOf(cx), e, t) <==> Has(AnalyzeExpr(cx, e, assignee), t)
  {
    var v, a := EnvOf(cx), AnalyzeExpr(cx, e.callee, assignee);
    hide Means, EnvOf, AnalyzeArgs, Gives;
    if Has(AnalyzeExpr(cx, e, assignee), t) {
      assert Means(v, e.callee.name, FuncT(a.value.ty.sig));
    }
  }

  // ----- definitions -----

  lemma Pushed(cx: Ctx, kind: ScopeKind)
    ensures EnvOf(Push(cx, kind)) == Inside(EnvOf(cx), kind == Loop)
  {
    assert Names([]) == map[];
    assert Blocks(cx.scopes + [Scope(kind, [])]) == Blocks(cx.scopes) + [Block(kind == Loop, map[])];
  }

  // A definition is refused exactly if its own block has the name already.
  lemma AddLocalIff(cx: Ctx, t: Ty, x: string)
    requires cx.scopes != []
    ensures AddLocal(cx, t, x).Some? <==> !Taken(EnvOf(cx), x)
    ensures AddLocal(cx, t, x).Some? ==> EnvOf(AddLocal(cx, t, x).value) == Declare(EnvOf(cx), x, t)
  {
    hide FlowUpTo, Names, FindDef;
    var k := |cx.scopes| - 1;
    var ds := cx.scopes[k].defs;
    FoundNamed(ds, x);
    if AddLocal(cx, t, x).Some? {
      var scopes := AddLocal(cx, t, x).value.scopes;
      NamesSnoc(ds, scopes[k].defs[|ds|]);
      assert forall j :: 0 <= j < k ==> scopes[j] == cx.scopes[j];
      assert Blocks(scopes) == Declare(EnvOf(cx), x, t).blocks;
    }
  }

  lemma NamesSnoc(ds: seq<LocalDef>, d: LocalDef)
    ensures Names(ds + [d]) == Names(ds)[d.name := d.t]
  {
    assert (ds + [d])[..|ds|] == ds;
  }

  lemma InitIff(cx: Ctx, init: Option<Expr>, t: Ty)
    ensures AnalyzeInit(cx, init, t).Some? <==> (init.Some? ==> Gives(EnvOf(cx), init.value, t))
  {
    hide Gives, AnalyzeTo, EnvOf;
    if init.Some? {
      GivesIff(cx, init.value, t, false);
    }
  }

  lemma DefIff(cx: Ctx, s: Stmt)
    requires s.VarDef?
    ensures AnalyzeStmt(cx, s).Some? <==> StmtOk(EnvOf(cx), s)
    ensures AnalyzeStmt(cx, s).Some? ==> EnvOf(AnalyzeStmt(cx, s).value.1) == Behind(EnvOf(cx), s)
  {
    hide AnalyzeInit, AddLocal, Gives, Names;
    if cx.scopes == [] {
      var cx1 := cx.(globals := cx.globals[s.name := GVar(s.ty)]);
      assert EnvOf(cx1) == Declare(EnvOf(cx), s.name, s.ty);
      InitIff(cx1, s.init, s.ty);
    } else {
      AddLocalIff(cx, s.ty, s.name);
      if AddLocal(cx, s.ty, s.name).Some? {
        InitIff(AddLocal(cx, s.ty, s.name).value, s.init, s.ty);
      }
    }
  }

  // ----- statements -----

  lemma {:induction false} WithinIff(cx: Ctx)
    ensures Within(cx.scopes, Loop) <==> exists k :: 0 <= k < |EnvOf(cx).blocks| && EnvOf(cx).blocks[k].loop
    decreases |cx.scopes|
  {
    hide Names;
    if cx.scopes != [] {
      var n := |cx.scopes| - 1;
      var before := cx.(scopes := cx.scopes[..n]);
      WithinIff(before);
      assert forall k :: 0 <= k < n ==> EnvOf(before).blocks[k] == EnvOf(cx).blocks[k];
      assert EnvOf(cx).blocks[n].loop == (cx.scopes[n].kind == Loop);
    }
  }

  lemma ReturnIff(cx: Ctx, s: Stmt)
    requires s.Return?
    ensures AnalyzeStmt(cx, s).Some? <==> StmtOk(EnvOf(cx), s)
  {
    hide Gives, AnalyzeTo, FlowUpTo, Blocks;
    if s.value.Some? && cx.ret.Some? && cx.ret.value.Some? {
      GivesIff(cx, s.value.value, cx.ret.value.value, false);
    }
  }

  lemma ExprStmtIff(cx: Ctx, s: Stmt)
    requires s.ExprStmt?
    ensures AnalyzeStmt(cx, s).Some? <==> StmtOk(EnvOf(cx), s)
  {
    hide AnalyzeExpr, Typed, EnvOf;
    var a := AnalyzeExpr(cx, s.e, false);
    forall t ensures Typed(EnvOf(cx), s.e, t) <==> Has(a, t) {
      ExprIff(cx, s.e, false, t);
    }
    if a.Some? {
      assert Typed(EnvOf(cx), s.e, a.value.ty);
    }
  }

  // A condition is of type bool: nothing else can stand for one.
  lemma CondIff(cx: Ctx, e: Expr)
    ensures AnalyzeTo(cx, e, Bool, false).Some? <==> Typed(EnvOf(cx), e, Prim(Bool))
  {
    hide Typed, AnalyzeTo, EnvOf;
    GivesIff(cx, e, Bool, false);
  }

  lemma {:induction false} StmtIff(cx: Ctx, s: Stmt)
    ensures AnalyzeStmt(cx, s).Some? <==> StmtOk(EnvOf(cx), s)
    ensures AnalyzeStmt(cx, s).Some? ==> EnvOf(AnalyzeStmt(cx, s).value.1) == Behind(EnvOf(cx), s)
    decreases s, 3
  {
    hide EnvOf, StmtsOk, Typed, Gives, AnalyzeTo, AnalyzeBlock, AnalyzeBranches, AnalyzeVarDef, AnalyzeReturn, Declare,
      Taken, AnalyzeExpr, Within;
    match s
    case ExprStmt(_) => ExprStmtIff(cx, s);
    case VarDef(_, _, _) => DefIff(cx, s);
    case If(bs, els) =>
      BranchesIff(cx, bs, s);
      if els.Else? {
        BlockIff(cx, Common, els.body);
      }
    case While(c, b) =>
      CondIff(cx, c);
      BlockIff(cx, Loop, b);
    case Break => WithinIff(cx);
    case Continue => WithinIff(cx);
    case Return(_) => ReturnIff(cx, s);
  }

  lemma {:induction false} BranchesIff(cx: Ctx, bs: seq<Branch>, s: Stmt)
    requires s.If? && forall b <- bs :: b in s.branches
    ensures AnalyzeBranches(cx, bs).Some? <==>
      forall i :: 0 <= i < |bs| ==>
        Typed(EnvOf(cx), bs[i].cond, Prim(Bool)) && StmtsOk(Inside(EnvOf(cx), false), bs[i].body)
    decreases s, 2, |bs|
  {
    hide EnvOf, StmtsOk, Typed, AnalyzeTo, AnalyzeBlock;
    if bs != [] {
      assert bs[0] in s.branches;
      CondIff(cx, bs[0].cond);
      BlockIff(cx, Common, bs[0].body);
      BranchesIff(cx, bs[1..], s);
      assert forall i :: 0 <= i < |bs[1..]| ==> bs[1..][i] == bs[i + 1];
      assert forall i :: 0 < i < |bs| ==> bs[i] == bs[1..][i - 1];
    }
  }

  lemma {:induction false} StmtsIff(cx: Ctx, ss: seq<Stmt>)
    ensures AnalyzeStmts(cx, ss).Some? <==> StmtsOk(EnvOf(cx), ss)
    decreases ss, 0
  {
    hide EnvOf, StmtOk, AnalyzeStmt, Behind;
    if ss != [] {
      StmtIff(cx, ss[0]);
      if AnalyzeStmt(cx, ss[0]).Some? {
        StmtsIff(AnalyzeStmt(cx, ss[0]).value.1, ss[1..]);
      }
    }
  }

  lemma {:induction false} BlockIff(cx: Ctx, kind: ScopeKind, ss: seq<Stmt>)
    ensures AnalyzeBlock(cx, kind, ss).Some? <==> StmtsOk(Inside(EnvOf(cx), kind == Loop), ss)
    decreases ss, 1
  {
    hide EnvOf, StmtsOk, AnalyzeStmts, Inside;
    Pushed(cx, kind);
    StmtsIff(Push(cx, kind), ss);
    if AnalyzeStmts(Push(cx, kind), ss).Some? {
      StmtsGrow(Push(cx, kind), ss);
    }
  }

  // ----- functions -----

  lemma {:induction false} AddArgsIff(cx: Ctx, args: seq<Arg>)
    requires cx.scopes != []
    ensures AddArgs(cx, args).Some? <==> ArgsNew(EnvOf(cx), args)
    ensures AddArgs(cx, args).Some? ==>
      EnvOf(AddArgs(cx, args).value) == DeclareAll(EnvOf(cx), args) && AddArgs(cx, args).value.scopes != []
    decreases |args|
  {
    hide EnvOf, Declare, Taken;
    if args != [] {
      AddLocalIff(cx, args[0].ty, args[0].name);
      hide AddLocal;
      if AddLocal(cx, args[0].ty, args[0].name).Some? {
        LocalKeeps(cx, args[0].ty, args[0].name);
        AddArgsIff(AddLocal(cx, args[0].ty, args[0].name).value, args[1..]);
      }
    }
  }

  lemma LocalKeeps(cx: Ctx, t: Ty, x: string)
    requires cx.scopes != [] && AddLocal(cx, t, x).Some?
    ensures AddLocal(cx, t, x).value.scopes != []
  {
  }

  predicate ArgsNew(v: Env, args: seq<Arg>)
    decreases |args|
  {
    args == [] || (!Taken(v, args[0].name) && ArgsNew(Declare(v, args[0].name, args[0].ty), args[1..]))
  }

  function DeclareAll(v: Env, args: seq<Arg>): Env
    decreases |args|
  {
    if args == [] then v else DeclareAll(Declare(v, args[0].name, args[0].ty), args[1..])
  }

  lemma {:induction false} ParamNames(args: seq<Arg>, x: string)
    ensures x in Params(args) <==> exists i :: 0 <= i < |args| && args[i].name == x
    decreases |args|
  {
    if args != [] {
      var n := |args| - 1;
      ParamNames(args[..n], x);
      assert forall i :: 0 <= i < n ==> args[..n][i] == args[i];
      if i :| 0 <= i < |args| && args[i].name == x {
        assert i < n ==> args[..n][i].name == x;
      }
    }
  }

  function FuncEnv(globals: map<string, GDef>, ret: Option<Ty>, args: seq<Arg>): Env {
    Env(globals, [Block(false, Params(args))], Some(ret))
  }

  lemma FuncEnvNext(globals: map<string, GDef>, ret: Option<Ty>, args: seq<Arg>, i: nat)
    requires i < |args|
    ensures Declare(FuncEnv(globals, ret, args[..i]), args[i].name, args[i].ty) ==
      FuncEnv(globals, ret, args[..i + 1])
    ensures Taken(FuncEnv(globals, ret, args[..i]), args[i].name) <==>
      exists j :: 0 <= j < i && args[j].name == args[i].name
  {
    ParamNames(args[..i], args[i].name);
    assert args[..i + 1][..i] == args[..i];
    assert [FuncEnv(globals, ret, args[..i]).blocks[0]][..0] == [];
    assert forall j :: 0 <= j < i ==> args[..i][j] == args[j];
    hide Params;
    if j :| 0 <= j < i && args[j].name == args[i].name {
      assert args[..i][j].name == args[i].name;
    }
  }

  lemma {:induction false} ArgsFrom(globals: map<string, GDef>, ret: Option<Ty>, args: seq<Arg>, i: nat)
    requires i <= |args|
    ensures ArgsNew(FuncEnv(globals, ret, args[..i]), args[i..]) <==>
      forall j, k :: 0 <= j < k < |args| && i <= k ==> args[j].name != args[k].name
    ensures DeclareAll(FuncEnv(globals, ret, args[..i]), args[i..]) == FuncEnv(globals, ret, args)
    decreases |args| - i
  {
    hide FuncEnv, Declare, Taken;
    if i == |args| {
      assert args[..i] == args;
    } else {
      FuncEnvNext(globals, ret, args, i);
      ArgsFrom(globals, ret, args, i + 1);
      assert args[i..][0] == args[i] && args[i..][1..] == args[i + 1..];
    }
  }

  lemma FuncStart(globals: map<string, GDef>, f: Func)
    ensures EnvOf(Ctx(globals, [Scope(FuncScope, [])], Some(f.ret))) == FuncEnv(globals, f.ret, [])
    ensures FuncOk(globals, f) <==>
      (forall i, j :: 0 <= i < j < |f.args| ==> f.args[i].name != f.args[j].name) &&
      StmtsOk(FuncEnv(globals, f.ret, f.args), f.body) && (f.ret.Some? ==> HasReturn(f.body))
  {
    hide StmtsOk;
    assert Names([]) == map[] && Params([]) == map[];
    assert Blocks([Scope(FuncScope, [])]) == [Block(false, map[])];
  }

  // A function is accepted exactly if it is well-formed.
  lemma FuncIff(globals: map<string, GDef>, f: Func)
    ensures AnalyzeFunc(globals, f).Some? <==> FuncOk(globals, f)
  {
    var cx := Ctx(globals, [Scope(FuncScope, [])], Some(f.ret));
    hide StmtsOk, AnalyzeStmts, HasReturn, FuncOk, AddArgs, EnvOf, FuncEnv, ArgsNew, DeclareAll, TopDefs;
    FuncStart(globals, f);
    AddArgsIff(cx, f.args);
    ArgsFrom(globals, f.ret, f.args, 0);
    assert f.args[..0] == [] && f.args[0..] == f.args;
    if AddArgs(cx, f.args).Some? {
      var cx1 := AddArgs(cx, f.args).value;
      StmtsIff(cx1, f.body);
      if AnalyzeStmts(cx1, f.body).Some? {
        StmtsGrow(cx1, f.body);
      }
    }
  }

  // ----- duplicates -----

  function BehindAll(v: Env, ss: seq<Stmt>): Env
    decreases |ss|
  {
    if ss == [] then v else BehindAll(Behind(v, ss[0]), ss[1..])
  }

  lemma {:induction false} OkSnoc(v: Env, ss: seq<Stmt>, s: Stmt)
    ensures StmtsOk(v, ss + [s]) <==> StmtsOk(v, ss) && StmtOk(BehindAll(v, ss), s)
    decreases |ss|
  {
    hide StmtOk, Behind;
    if ss == [] {
      assert [] + [s] == [s] && [s][1..] == [];
    } else {
      assert (ss + [s])[0] == ss[0] && (ss + [s])[1..] == ss[1..] + [s];
      OkSnoc(Behind(v, ss[0]), ss[1..], s);
    }
  }

  predicate DefinesName(ss: seq<Stmt>, x: string) { exists i :: 0 <= i < |ss| && ss[i].VarDef? && ss[i].name == x }

  lemma TakenNext(v: Env, s: Stmt, x: string)
    ensures Taken(Behind(v, s), x) <==> Taken(v, x) || (s.VarDef? && s.name == x)
  {
  }

  lemma {:induction false} TakenBehind(v: Env, ss: seq<Stmt>, x: string)
    ensures Taken(BehindAll(v, ss), x) <==> Taken(v, x) || DefinesName(ss, x)
    decreases |ss|
  {
    hide Taken, Behind;
    if ss != [] {
      TakenNext(v, ss[0], x);
      TakenBehind(Behind(v, ss[0]), ss[1..], x);
      assert DefinesName(ss, x) <==> (ss[0].VarDef? && ss[0].name == x) || DefinesName(ss[1..], x) by {
        assert forall i :: 0 <= i < |ss[1..]| ==> ss[1..][i] == ss[i + 1];
        if i :| 0 < i < |ss| && ss[i].VarDef? && ss[i].name == x {
          assert ss[1..][i - 1].name == x;
        }
      }
    }
  }

  // In a block, a definition is a duplicate exactly if an earlier statement of the same block defines its
  // name, whatever the scopes around it define.
  lemma DuplicateInBlock(cx: Ctx, kind: ScopeKind, ss: seq<Stmt>, t: Ty, x: string)
    requires AnalyzeBlock(cx, kind, ss).Some?
    ensures AnalyzeBlock(cx, kind, ss + [VarDef(t, x, None)]).Some? <==>
      forall i :: 0 <= i < |ss| && ss[i].VarDef? ==> ss[i].name != x
  {
    var s, v := VarDef(t, x, None), Inside(EnvOf(cx), kind == Loop);
    BlockIff(cx, kind, ss);
    BlockIff(cx, kind, ss + [s]);
    OkSnoc(v, ss, s);
    TakenBehind(v, ss, x);
    assert !Taken(v, x) by {
      hide EnvOf;
    }
    hide EnvOf, AnalyzeBlock, StmtsOk, BehindAll;
  }

  // In a function's own scope, exactly if an earlier statement of it, or a parameter, has the name.
  lemma DuplicateInFunc(globals: map<string, GDef>, f: Func, t: Ty, x: string)
    requires f.ret.None? && AnalyzeFunc(globals, f).Some?
    ensures AnalyzeFunc(globals, f.(body := f.body + [VarDef(t, x, None)])).Some? <==>
      (forall i :: 0 <= i < |f.args| ==> f.args[i].name != x) &&
      forall i :: 0 <= i < |f.body| && f.body[i].VarDef? ==> f.body[i].name != x
  {
    var s, v := VarDef(t, x, None), FuncEnv(globals, f.ret, f.args);
    var g := f.(body := f.body + [s]);
    FuncIff(globals, f);
    FuncIff(globals, g);
    FuncStart(globals, f);
    FuncStart(globals, g);
    OkSnoc(v, f.body, s);
    TakenBehind(v, f.body, x);
    assert Taken(v, x) <==> x in Params(f.args);
    ParamNames(f.args, x);
    hide AnalyzeFunc, StmtsOk, BehindAll, FuncOk, FuncEnv, Params;
  }

  // A file is accepted exactly if its top-level statements are well-formed.
  lemma TopIff(view: map<string, GDef>, ss: seq<Stmt>)
    ensures AnalyzeStmts(Ctx(view, [], None), ss).Some? <==> StmtsOk(Env(view, [], None), ss)
  {
    hide AnalyzeStmts, StmtsOk;
    StmtsIff(Ctx(view, [], None), ss);
  }
}
