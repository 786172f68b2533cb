/** What a program computes, in numbers: two functions of ints, one that branches on a comparison and one that
    sums in a loop, called from the top level. Any arithmetic that is right on small numbers will do. */
module Computing {
  import opened Bytes
  import opened Language
  import opened Semantics
  import opened Relation
  import opened Machine
  import opened Correctness
  import opened Containers
  import opened Generator
  import opened Decoding
  import opened EndToEnd
  import opened Examples

  const HALF: nat := 0x8000_0000

  function Word(n: nat): Raw { LE32(n) }

  function Number(n: nat): Value { Val(Int, Word(n)) }

  // Comparison, sum, difference and increment of ints are those of the numbers, as far as these fit.
  ghost predicate Integral(prims: Prims) {
    (forall a: nat, b: nat :: a < HALF && b < HALF ==>
      prims.bin(Less, Int, Word(a), Word(b)) == if a < b then [1] else [0]) &&
    (forall a: nat, b: nat :: a + b < HALF ==> prims.bin(Sum, Int, Word(a), Word(b)) == Word(a + b)) &&
    (forall a: nat, b: nat :: b <= a < HALF ==> prims.bin(Sub, Int, Word(a), Word(b)) == Word(a - b)) &&
    (forall a: nat :: a + 1 < HALF ==> prims.step(true, Int, Word(a)) == Word(a + 1))
  }

  // int excess(int a, int b) { if (a < b) { return 0; } return a - b; }
  function Excess(): Func {
    Func([Arg(Int, "a"), Arg(Int, "b")], Some(Int),
      [If([Branch(Binary(Less, Id("a"), Id("b")), [Return(Some(Lit(Number(0))))])], NoElse),
       Return(Some(Binary(Sub, Id("a"), Id("b"))))])
  }

  // int triangle(int n) { int s; int i; while (i < n) { ++i; s = s + i; } return s; }
  function Loop(): Stmt {
    While(Binary(Less, Id("i"), Id("n")),
      [ExprStmt(PreStep(true, Id("i"))), ExprStmt(Assign(Id("s"), Binary(Sum, Id("s"), Id("i"))))])
  }

  function Triangle(): Func {
    Func([Arg(Int, "n")], Some(Int),
      [VarDef(Int, "s", None), VarDef(Int, "i", None), Loop(), Return(Some(Id("s")))])
  }

  // int d = excess(x, y); int r = triangle(d);
  function Main(x: nat, y: nat): seq<Stmt> {
    [VarDef(Int, "d", Some(Call(Id("excess"), [Lit(Number(x)), Lit(Number(y))]))),
     VarDef(Int, "r", Some(Call(Id("triangle"), [Id("d")])))]
  }

  function Over(x: nat, y: nat): nat { if x < y then 0 else x - y }

  function Sums(n: nat): nat { if n == 0 then 0 else Sums(n - 1) + n }

  lemma {:induction false} SumsAre(n: nat)
    ensures 2 * Sums(n) == n * (n + 1)
  {
    if n > 0 {
      SumsAre(n - 1);
    }
  }

  lemma {:induction false} SumsFit(n: nat, k: nat)
    requires k <= n < 0x1_0000
    ensures Sums(k) <= Sums(n) < HALF
    decreases n - k
  {
    SumsAre(n);
    assert n * (n + 1) <= 0xFFFF * 0x1_0000 by {
      Product(n);
    }
    if k < n {
      SumsFit(n, k + 1);
    }
  }

  lemma Monotone(a: nat, b: nat, c: nat)
    requires a <= b
    ensures a * c <= b * c
  {
  }

  lemma Product(n: nat)
    requires n < 0x1_0000
    ensures n * (n + 1) <= 0xFFFF * 0x1_0000
  {
    Monotone(n, 0xFFFF, n + 1);
  }

  // ----- expressions -----

  lemma {:induction false} FindIs(env: seq<Var>, k: nat, x: string)
    requires k < |env| && env[k].name == x && forall j :: k < j < |env| ==> env[j].name != x
    ensures Find(env, x) == k
    decreases |env|
  {
    if k < |env| - 1 {
      FindIs(env[..|env| - 1], k, x);
    }
  }

  // The variable is the k-th binding, with this number, and no later one has its name.
  predicate Bound(env: seq<Var>, k: nat, x: string, n: nat) {
    k < |env| && env[k] == Var(x, Int, Some(Word(n))) && forall j :: k < j < |env| ==> env[j].name != x
  }

  lemma Reads(P: Prog, fuel: nat, st: SState, k: nat, x: string, n: nat)
    requires Bound(st.env, k, x, n)
    ensures EvalExpr(P, fuel, st, Id(x)) == EOk(Some(Number(n)), st)
  {
    FindIs(st.env, k, x);
  }

  lemma Operates(P: Prog, fuel: nat, st: SState, op: BinOp, l: Expr, r: Expr, a: nat, b: nat)
    requires op == Less || op == Sum || op == Sub
    requires EvalExpr(P, fuel, st, l) == EOk(Some(Number(a)), st)
    requires EvalExpr(P, fuel, st, r) == EOk(Some(Number(b)), st)
    ensures EvalExpr(P, fuel, st, Binary(op, l, r)) ==
      EOk(Some(Val(if op == Less then Bool else Int, P.prims.bin(op, Int, Word(a), Word(b)))), st)
  {
    hide Word;
  }

  // ----- excess -----

  lemma ExcessRuns(P: Prog, fuel: nat, st: SState, x: nat, y: nat)
    requires Integral(P.prims) && x < HALF && y < HALF
    ensures RunFunc(P, fuel, st, Excess(), [Number(x), Number(y)]) == EOk(Some(Number(Over(x, y))), st)
  {
    var f, st1 := Excess(), st.(env := [Var("a", Int, Some(Word(x))), Var("b", Int, Some(Word(y)))]);
    assert Bind(f.args, [Number(x), Number(y)]) == st1.env;
    var pl := Place(false, Some(Some(Int)));
    assert Bound(st1.env, 0, "a", x) && Bound(st1.env, 1, "b", y);
    Reads(P, fuel, st1, 0, "a", x);
    Reads(P, fuel, st1, 1, "b", y);
    Operates(P, fuel, st1, Less, Id("a"), Id("b"), x, y);
    if x >= y {
      Operates(P, fuel, st1, Sub, Id("a"), Id("b"), x, y);
    }
    hide Find, Word;
    ExcessBody(P, fuel, pl, st1, x, y);
    hide ExecStmts;
  }

  lemma ExcessBody(P: Prog, fuel: nat, pl: Place, st: SState, x: nat, y: nat)
    requires Integral(P.prims) && x < HALF && y < HALF && pl == Place(false, Some(Some(Int)))
    requires EvalExpr(P, fuel, st, Binary(Less, Id("a"), Id("b"))) ==
      EOk(Some(Val(Bool, P.prims.bin(Less, Int, Word(x), Word(y)))), st)
    requires x >= y ==>
      EvalExpr(P, fuel, st, Binary(Sub, Id("a"), Id("b"))) ==
        EOk(Some(Val(Int, P.prims.bin(Sub, Int, Word(x), Word(y)))), st)
    ensures ExecStmts(P, fuel, pl, st, Excess().body) == Returned(Some(Number(Over(x, y))), st)
  {
    var body := Excess().body;
    var inner := body[0].branches[0].body;
    var result := Returned(Some(Number(Over(x, y))), st);
    assert EvalExpr(P, fuel, st, Lit(Number(0))) == EOk(Some(Number(0)), st);
    hide EvalExpr, Word;
    if x < y {
      assert ExecStmt(P, fuel, pl, st, inner[0]) == result;
      assert ExecStmts(P, fuel, pl, st, inner) == result;
      assert ExecBlock(P, fuel, pl, st, inner) == result;
      assert ExecBranches(P, fuel, pl, st, body[0], 0) == result;
      assert ExecStmt(P, fuel, pl, st, body[0]) == result;
    } else {
      assert ExecBranches(P, fuel, pl, st, body[0], 1) == Normal(st);
      assert ExecBranches(P, fuel, pl, st, body[0], 0) == Normal(st);
      assert ExecStmt(P, fuel, pl, st, body[0]) == Normal(st);
      assert body[1..][0] == body[1];
      assert ExecStmt(P, fuel, pl, st, body[1]) == result;
      assert ExecStmts(P, fuel, pl, st, body[1..]) == result;
    }
  }

  // ----- triangle -----

  function LoopEnv(n: nat, i: nat): seq<Var> {
    [Var("n", Int, Some(Word(n))), Var("s", Int, Some(Word(Sums(i)))), Var("i", Int, Some(Word(i)))]
  }

  lemma LoopBound(n: nat, i: nat)
    ensures Bound(LoopEnv(n, i), 0, "n", n) && Bound(LoopEnv(n, i), 1, "s", Sums(i)) && Bound(LoopEnv(n, i), 2, "i", i)
  {
    hide Word;
  }

  // One turn of the loop.
  lemma Turn(P: Prog, fuel: nat, st: SState, n: nat, i: nat)
    requires Integral(P.prims) && i < n < 0x1_0000 && st.env == LoopEnv(n, i)
    ensures ExecBlock(P, fuel, Place(false, Some(Some(Int))), st, Loop().body) == Normal(st.(env := LoopEnv(n, i + 1)))
  {
    var pl, b := Place(false, Some(Some(Int))), Loop().body;
    var mid := st.(env := st.env[2 := Var("i", Int, Some(Word(i + 1)))]);
    var last := st.(env := LoopEnv(n, i + 1));
    LoopBound(n, i);
    Stepped(P, fuel, st, n, i);
    Added(P, fuel, mid, n, i);
    hide EvalExpr, Word;
    assert mid.env[1 := Var("s", Int, Some(Word(Sums(i + 1))))] == last.env;
    assert ExecStmt(P, fuel, pl, st, b[0]) == Normal(mid);
    assert b[1..] == [b[1]] && [b[1]][1..] == [];
    assert ExecStmt(P, fuel, pl, mid, b[1]) == Normal(last);
    assert ExecStmts(P, fuel, pl, mid, [b[1]]) == Normal(last);
    assert ExecStmts(P, fuel, pl, st, b) == Normal(last);
    assert last.env[..3] == last.env;
  }

  lemma Stepped(P: Prog, fuel: nat, st: SState, n: nat, i: nat)
    requires Integral(P.prims) && i < n < 0x1_0000 && st.env == LoopEnv(n, i)
    ensures EvalExpr(P, fuel, st, PreStep(true, Id("i"))) ==
      EOk(None, st.(env := st.env[2 := Var("i", Int, Some(Word(i + 1)))]))
  {
    LoopBound(n, i);
    FindIs(st.env, 2, "i");
    hide Word, Find;
  }

  lemma Assigns(P: Prog, fuel: nat, st: SState, k: nat, x: string, n: nat, e: Expr, m: nat)
    requires Bound(st.env, k, x, n) && EvalExpr(P, fuel, st, e) == EOk(Some(Number(m)), st)
    ensures EvalExpr(P, fuel, st, Assign(Id(x), e)) ==
      EOk(None, st.(env := st.env[k := Var(x, Int, Some(Word(m)))]))
  {
    hide Word, Find;
    FindIs(st.env, k, x);
  }

  lemma AddedValue(P: Prog, fuel: nat, mid: SState, n: nat, i: nat)
    requires Integral(P.prims) && i < n < 0x1_0000
    requires Bound(mid.env, 1, "s", Sums(i)) && Bound(mid.env, 2, "i", i + 1)
    ensures EvalExpr(P, fuel, mid, Binary(Sum, Id("s"), Id("i"))) == EOk(Some(Number(Sums(i + 1))), mid)
  {
    hide Word, Find, EvalExpr, Bound;
    Reads(P, fuel, mid, 1, "s", Sums(i));
    Reads(P, fuel, mid, 2, "i", i + 1);
    Operates(P, fuel, mid, Sum, Id("s"), Id("i"), Sums(i), i + 1);
    SumsFit(n, i + 1);
    assert P.prims.bin(Sum, Int, Word(Sums(i)), Word(i + 1)) == Word(Sums(i) + (i + 1));
  }

  lemma Added(P: Prog, fuel: nat, mid: SState, n: nat, i: nat)
    requires Integral(P.prims) && i < n < 0x1_0000
    requires mid.env == LoopEnv(n, i)[2 := Var("i", Int, Some(Word(i + 1)))]
    ensures EvalExpr(P, fuel, mid, Assign(Id("s"), Binary(Sum, Id("s"), Id("i")))) ==
      EOk(None, mid.(env := mid.env[1 := Var("s", Int, Some(Word(Sums(i + 1))))]))
  {
    assert Bound(mid.env, 1, "s", Sums(i)) && Bound(mid.env, 2, "i", i + 1);
    AddedValue(P, fuel, mid, n, i);
    hide Bound, EvalExpr, Word, Sums;
    Assigns(P, fuel, mid, 1, "s", Sums(i), Binary(Sum, Id("s"), Id("i")), Sums(i + 1));
  }

  lemma CondIs(P: Prog, fuel: nat, st: SState, n: nat, i: nat)
    requires Integral(P.prims) && i <= n < 0x1_0000 && st.env == LoopEnv(n, i)
    ensures EvalExpr(P, fuel, st, Loop().cond) == EOk(Some(Val(Bool, if i < n then [1] else [0])), st)
  {
    LoopBound(n, i);
    hide EvalExpr, Word, Bound, LoopEnv;
    Reads(P, fuel, st, 2, "i", i);
    Reads(P, fuel, st, 0, "n", n);
    Operates(P, fuel, st, Less, Id("i"), Id("n"), i, n);
  }

  lemma LoopShape()
    ensures Loop().While?
  {
  }

  lemma WhileStep(P: Prog, fuel: nat, pl: Place, st: SState, s: Stmt, c: bool, st1: SState)
    requires s.While? && fuel > 0
    requires EvalExpr(P, fuel, st, s.cond) == EOk(Some(Val(Bool, if c then [1] else [0])), st)
    requires c ==> ExecBlock(P, fuel, pl, st, s.body) == Normal(st1)
    ensures ExecWhile(P, fuel, pl, st, s) == if c then ExecWhile(P, fuel - 1, pl, st1, s) else Normal(st)
  {
    hide EvalExpr, ExecBlock;
  }

  lemma {:induction false} LoopRuns(P: Prog, fuel: nat, st: SState, n: nat, i: nat)
    requires Integral(P.prims) && i <= n < 0x1_0000 && st.env == LoopEnv(n, i) && fuel > n - i
    ensures ExecWhile(P, fuel, Place(false, Some(Some(Int))), st, Loop()) == Normal(st.(env := LoopEnv(n, n)))
    decreases n - i
  {
    hide *;
    var pl := Place(false, Some(Some(Int)));
    CondIs(P, fuel, st, n, i);
    LoopShape();
    if i < n {
      Turn(P, fuel, st, n, i);
      WhileStep(P, fuel, pl, st, Loop(), true, st.(env := LoopEnv(n, i + 1)));
      LoopRuns(P, fuel - 1, st.(env := LoopEnv(n, i + 1)), n, i + 1);
    } else {
      WhileStep(P, fuel, pl, st, Loop(), false, st);
      assert st == st.(env := LoopEnv(n, n));
    }
  }

  lemma TriangleRuns(P: Prog, fuel: nat, st: SState, n: nat)
    requires Integral(P.prims) && n < 0x1_0000 && fuel > n
    ensures RunFunc(P, fuel, st, Triangle(), [Number(n)]) == EOk(Some(Number(Sums(n))), st)
  {
    var f, pl, b := Triangle(), Place(false, Some(Some(Int))), Triangle().body;
    var st0 := st.(env := [Var("n", Int, Some(Word(n)))]);
    var st1 := st.(env := st0.env + [Var("s", Int, Some(Word(0)))]);
    var st2, st3 := st.(env := LoopEnv(n, 0)), st.(env := LoopEnv(n, n));
    assert Bind(f.args, [Number(n)]) == st0.env;
    assert Default(Int).raw == Word(0) && st1.env + [Var("i", Int, Some(Word(0)))] == st2.env;
    LoopRuns(P, fuel, st2, n, 0);
    LoopBound(n, n);
    Reads(P, fuel, st3, 1, "s", Sums(n));
    hide EvalExpr, Word, ExecWhile, Default;
    assert ExecStmt(P, fuel, pl, st0, b[0]) == Normal(st1);
    assert ExecStmt(P, fuel, pl, st1, b[1]) == Normal(st2);
    assert ExecStmt(P, fuel, pl, st2, b[2]) == Normal(st3);
    assert ExecStmt(P, fuel, pl, st3, b[3]) == Returned(Some(Number(Sums(n))), st3);
    hide ExecStmt;
    assert b[1..][1..] == [b[2], b[3]] && [b[2], b[3]][1..] == [b[3]];
    assert ExecStmts(P, fuel, pl, st3, [b[3]]) == Returned(Some(Number(Sums(n))), st3);
    assert ExecStmts(P, fuel, pl, st2, [b[2], b[3]]) == Returned(Some(Number(Sums(n))), st3);
    assert ExecStmts(P, fuel, pl, st1, b[1..]) == Returned(Some(Number(Sums(n))), st3);
    assert ExecStmts(P, fuel, pl, st0, b) == Returned(Some(Number(Sums(n))), st3);
  }

  // ----- the program -----

  predicate HasFunctions(P: Prog) {
    P.globals == map["d" := Int, "r" := Int] && P.natives == map[] &&
    P.funcs == map["excess" := Excess(), "triangle" := Triangle()]
  }

  lemma LitArg(P: Prog, fuel: nat, st: SState, n: nat)
    ensures EvalTo(P, fuel, st, Lit(Number(n)), Int) == EOk(Some(Number(n)), st)
  {
    hide Word;
  }

  lemma ArgsSnoc(P: Prog, fuel: nat, st: SState, es: seq<Expr>, ts: seq<Ty>, e: Expr, vs: seq<Value>, v: Value)
    requires |es| == |ts| && EvalArgs(P, fuel, st, es, ts) == AOk(vs, st)
    requires EvalTo(P, fuel, st, e, Int) == EOk(Some(v), st)
    ensures EvalArgs(P, fuel, st, es + [e], ts + [Int]) == AOk(vs + [v], st)
  {
    hide EvalTo;
    assert (es + [e])[..|es|] == es && (ts + [Int])[..|ts|] == ts;
  }

  lemma TwoArgs(P: Prog, fuel: nat, st: SState, x: nat, y: nat)
    ensures EvalArgs(P, fuel, st, [Lit(Number(x)), Lit(Number(y))], [Int, Int]) == AOk([Number(x), Number(y)], st)
  {
    LitArg(P, fuel, st, x);
    LitArg(P, fuel, st, y);
    assert EvalArgs(P, fuel, st, [], []) == AOk([], st);
    hide EvalArgs, EvalTo, Word;
    var a, b: Expr := Lit(Number(x)), Lit(Number(y));
    ArgsSnoc(P, fuel, st, [], [], a, [], Number(x));
    assert [] + [a] == [a] && [] + [Int] == [Int] && [] + [Number(x)] == [Number(x)];
    ArgsSnoc(P, fuel, st, [a], [Int], b, [Number(x)], Number(y));
    assert [a] + [b] == [a, b] && [Int] + [Int] == [Int, Int];
    assert [Number(x)] + [Number(y)] == [Number(x), Number(y)];
  }

  lemma CallsExcess(P: Prog, fuel: nat, st: SState, x: nat, y: nat)
    requires Integral(P.prims) && HasFunctions(P) && x < HALF && y < HALF && st.env == [] && fuel > 0
    ensures EvalExpr(P, fuel, st, Call(Id("excess"), [Lit(Number(x)), Lit(Number(y))])) ==
      EOk(Some(Number(Over(x, y))), st)
  {
    assert ArgTypes(Excess().args) == [Int, Int];
    ExcessRuns(P, fuel - 1, st, x, y);
    TwoArgs(P, fuel, st, x, y);
    hide RunFunc, Integral, Word, EvalArgs;
  }

  lemma CallsTriangle(P: Prog, fuel: nat, st: SState, n: nat)
    requires Integral(P.prims) && HasFunctions(P) && n < 0x1_0000 && st.env == [] && fuel > n + 1
    requires "d" in st.globals && st.globals["d"] == Number(n)
    ensures EvalExpr(P, fuel, st, Call(Id("triangle"), [Id("d")])) == EOk(Some(Number(Sums(n))), st)
  {
    assert ArgTypes(Triangle().args) == [Int];
    TriangleRuns(P, fuel - 1, st, n);
    hide RunFunc, Integral, Word;
    assert [Id("d")][..0] == [] && [Int][..0] == [];
    assert EvalArgs(P, fuel, st, [], []) == AOk([], st);
    assert EvalExpr(P, fuel, st, Id("d")) == EOk(Some(Number(n)), st);
    assert EvalArgs(P, fuel, st, [Id("d")], [Int]) == AOk([Number(n)], st);
  }

  function Results(x: nat, y: nat): map<string, Value> {
    map["d" := Number(Over(x, y)), "r" := Number(Sums(Over(x, y)))]
  }

  // The program ends with the excess d of its first number over the second, and with d (d + 1) / 2.
  lemma Computes(P: Prog, x: nat, y: nat, u: Unit, w: World)
    requires Integral(P.prims) && HasFunctions(P) && x < 0x1_0000 && y < 0x1_0000 && u.body == Main(x, y)
    ensures var d := Over(x, y);
      2 * Sums(d) == d * (d + 1) && ExecUnits(P, d + 2, Begin(w), [u]) == Normal(SState([], Results(x, y), w))
  {
    var d, fuel, pl, b := Over(x, y), Over(x, y) + 2, Place(true, None), Main(x, y);
    var st0 := Begin(w);
    var st1 := st0.(globals := map["d" := Number(d)]);
    var st2 := SState([], Results(x, y), w);
    SumsAre(d);
    CallsExcess(P, fuel, st0, x, y);
    CallsTriangle(P, fuel, st1, d);
    hide EvalExpr, Integral, HasFunctions, Word, Sums, Over;
    assert ExecStmt(P, fuel, pl, st0, b[0]) == Normal(st1);
    assert ExecStmt(P, fuel, pl, st1, b[1]) == Normal(st2);
    hide ExecStmt;
    assert b[1..] == [b[1]] && [b[1]][1..] == [] && [u][1..] == [];
    assert ExecStmts(P, fuel, pl, st1, [b[1]]) == Normal(st2);
    assert ExecStmts(P, fuel, pl, st0, b) == Normal(st2);
  }

  // And so does the machine, loaded with any executable of a file with these statements.
  lemma MachineComputes(K: Setup, s: Source, c: Compiled, m: Module, version: nat, x: nat, y: nat, w: World)
    requires Built([s], [c], [m]) && Closed(K, [s]) && Executable(K, [m], version) && s.body == Main(x, y)
    requires Integral(K.P.prims) && HasFunctions(K.P) && x < 0x1_0000 && y < 0x1_0000
    ensures exists n :: HaltsAfter(K.img, n, Initial(w))
    ensures forall n :: HaltsAfter(K.img, n, Initial(w)) ==>
      Run(K.img, n, Initial(w)).Some? &&
      GlobalsMatch(K, Results(x, y), Run(K.img, n, Initial(w)).value.globals)
  {
    hide *;
    var us, d := Units([s], [c]), Over(x, y);
    OneUnit(s, c);
    Computes(K.P, x, y, us[0], w);
    RunsAsWritten(K, [s], [c], [m], version, w);
    var st := SState([], Results(x, y), w);
    EndsIn(K, us, w, d + 2, st);
    forall n | HaltsAfter(K.img, n, Initial(w))
      ensures Run(K.img, n, Initial(w)).Some?
    {
      HaltedRuns(K.img, n, Initial(w));
    }
    forall n | HaltsAfter(K.img, n, Initial(w))
      ensures GlobalsMatch(K, Results(x, y), Run(K.img, n, Initial(w)).value.globals)
    {
      assert Finished(K, st, Run(K.img, n, Initial(w)).value);
      FinishedGlobals(K, st, Run(K.img, n, Initial(w)).value);
    }
  }

  lemma HaltedRuns(img: Image, n: nat, m: MState)
    requires HaltsAfter(img, n, m)
    ensures Run(img, n, m).Some?
  {
  }

  lemma EndsIn(K: Setup, us: seq<Unit>, w: World, fuel: nat, st: SState)
    requires ExecUnits(K.P, fuel, Begin(w), us) == Normal(st)
    ensures Ends(K, us, w, fuel)
  {
  }

  lemma FinishedGlobals(K: Setup, st: SState, m: MState)
    requires Finished(K, st, m)
    ensures GlobalsMatch(K, st.globals, m.globals)
  {
    hide GlobalsMatch;
  }
}
