/** Whole programs: the executable halts exactly when the program ends, with the same globals and the
    same world; it gets stuck exactly when the program is broken off, by using a variable within its own
    initializer, by reading a global string before its definition, or by a division without a result. */
module Correctness {
  import opened Bytes
  import opened Language
  import opened Semantics
  import opened Analysis
  import opened Commands
  import opened Codegen
  import opened Machine
  import opened Relation
  import opened Variables
  import opened Scoping
  import opened SelfReading
  import opened Readiness
  import opened Simulation

  // The top-level statements of one source file: the declarations in scope at its start, its
  // statements, and their analysis.
  datatype Unit = Unit(view: map<string, GDef>, body: seq<Stmt>, code: seq<TStmt>)

  ghost predicate UnitOk(K: Setup, u: Unit) {
    var r := AnalyzeStmts(Ctx(u.view, [], None), u.body);
    r.Some? && r.value.0 == u.code && Extends(r.value.1.globals, K.G) && GenerableAll(u.code)
  }

  ghost predicate UnitsOk(K: Setup, us: seq<Unit>) { forall i :: 0 <= i < |us| ==> UnitOk(K, us[i]) }

  function MainCode(us: seq<Unit>): seq<Cmd> {
    if us == [] then [] else GenStmts(us[0].code) + MainCode(us[1..])
  }

  // The main segment is the units' code, one after the other.
  ghost predicate Loaded(K: Setup, us: seq<Unit>) {
    Linked(K) && UnitsOk(K, us) && At(K, 0, MainCode(us), 0, 0, false) && Size(MainCode(us)) == K.img.mainSize
  }

  function ExecUnits(P: Prog, fuel: nat, st: SState, us: seq<Unit>): SRes
    decreases |us|
  {
    if us == [] then Normal(st)
    else
      match ExecStmts(P, fuel, Place(true, None), st, us[0].body)
      case Normal(st1) => ExecUnits(P, fuel, st1, us[1..])
      case Broke(_) => SErr(Wrong)
      case Continued(_) => SErr(Wrong)
      case Returned(_, _) => SErr(Wrong)
      case SErr(x) => SErr(x)
  }

  function Begin(w: World): SState { SState([], map[], w) }

  function Initial(w: World): MState { MState(0, [], [], [Frame(0, 0)], map[], w) }

  // The machine is done, with nothing left over, and holds what the program left.
  ghost predicate Finished(K: Setup, st: SState, m: MState) {
    Halted(K.img, m) && m.operands == [] && m.locals == [] &&
    GlobalsMatch(K, st.globals, m.globals) && m.world == st.world
  }

  // At the start of a unit.
  ghost predicate Between(K: Setup, st: SState, m: MState) {
    st.env == [] && m.locals == [] && m.operands == [] && m.frames == [Frame(0, 0)] &&
    GlobalsMatch(K, st.globals, m.globals) && m.world == st.world
  }

  lemma UnitStart(K: Setup, u: Unit, st: SState, m: MState)
    requires Linked(K) && UnitOk(K, u) && Between(K, st, m)
    ensures Start(K, Ctx(u.view, [], None), Place(true, None), st, [], m, false)
  {
    hide Linked, GlobalsMatch, AnalyzeStmts;
    var cx := Ctx(u.view, [], None);
    RestGlobals(K, cx, u.body, AnalyzeStmts(cx, u.body).value.1);
    assert Flat([]) == [];
    assert m.locals == [] + Vals(st.env[..0]);
  }

  lemma UnitEnd(K: Setup, cx1: Ctx, st: SState, m: MState)
    requires Rel(K, cx1, st, [], m) && cx1.scopes == [] && m.operands == [] && m.frames == [Frame(0, 0)]
    ensures Between(K, st, m)
  {
    hide GlobalsMatch, Extends, Nested;
    assert Flat([]) == [];
    assert m.locals == [] + Vals(st.env[..0]);
  }

  ghost predicate UnitsDone(K: Setup, r: SRes, end: nat, fuel: nat, m: MState, n: nat, m1: MState) {
    match r
    case Normal(st1) => Run(K.img, n, m) == Some(m1) && m1.pc == end && Between(K, st1, m1)
    case SErr(x) => Failed(K, x, fuel, m, n)
    case _ => false
  }

  lemma {:induction false} SimUnits(K: Setup, us: seq<Unit>, fuel: nat, st: SState, m: MState)
      returns (n: nat, m1: MState)
    requires Linked(K) && UnitsOk(K, us) && Between(K, st, m)
    requires At(K, m.pc, MainCode(us), 0, 0, false)
    ensures UnitsDone(K, ExecUnits(K.P, fuel, st, us), m.pc + Size(MainCode(us)), fuel, m, n, m1)
    decreases |us|
  {
    hide Linked, GlobalsMatch, AnalyzeStmts, Rel, Run, At, Size, Failed, GenStmts, ExecStmts, GenerableAll;
    if us == [] {
      NoSteps(K.img, m);
      return 0, m;
    }
    var u, cx := us[0], Ctx(us[0].view, [], None);
    var cx1 := AnalyzeStmts(cx, u.body).value.1;
    var code := GenStmts(u.code);
    AheadSplit(K, m, code, MainCode(us[1..]), 0, 0, false);
    UnitStart(K, u, st, m);
    n, m1 := SimStmts(K, cx, fuel, Place(true, None), u.body, u.code, cx1, st, [], m, 0, 0, false);
    NoEscape(K.P, fuel, Place(true, None), cx, st, u.body);
    StmtsGrow(cx, u.body);
    var r := ExecStmts(K.P, fuel, Place(true, None), st, u.body);
    if r.Normal? {
      UnitEnd(K, cx1, r.st, m1);
      var n2, m2 := SimUnits(K, us[1..], fuel, r.st, m1);
      Chain(K.img, n, m, m1, n2);
      FailedLater(K, fuel, m, n, m1, n2);
      n, m1 := n + n2, m2;
    }
  }

  lemma NothingYet(K: Setup)
    requires Linked(K)
    ensures GlobalsMatch(K, map[], map[])
  {
    hide NativesLinked, FuncsLinked;
  }

  // Compiler correctness, outcome by outcome. No accepted program is ill-typed at run time.
  lemma ProgramRuns(K: Setup, us: seq<Unit>, fuel: nat, w: World) returns (n: nat, m1: MState)
    requires Loaded(K, us)
    ensures var r := ExecUnits(K.P, fuel, Begin(w), us);
      && (r.Normal? || (r.SErr? && (Fatal(r.err) || r.err == Timeout)))
      && (r.Normal? ==> Run(K.img, n, Initial(w)) == Some(m1) && Finished(K, r.st, m1))
      && (r.SErr? && Fatal(r.err) ==> Stuck(K.img, n, Initial(w)))
      && (r == SErr(Timeout) ==> n >= fuel && Run(K.img, n, Initial(w)).Some?)
  {
    hide Linked, UnitsOk, Run, At, Size, MainCode, ExecUnits, Stuck;
    NothingYet(K);
    n, m1 := SimUnits(K, us, fuel, Begin(w), Initial(w));
  }

  // ----- both directions -----

  predicate Ends(K: Setup, us: seq<Unit>, w: World, fuel: nat) { ExecUnits(K.P, fuel, Begin(w), us).Normal? }

  predicate BreaksOff(K: Setup, us: seq<Unit>, w: World, fuel: nat) {
    var r := ExecUnits(K.P, fuel, Begin(w), us);
    r.SErr? && Fatal(r.err)
  }

  predicate HaltsAfter(img: Image, n: nat, m: MState) {
    match Run(img, n, m) case None => false case Some(m1) => Halted(img, m1)
  }

  // A run that has come to a stop goes no further, and has not stopped before.
  lemma {:induction false} StopsOnce(img: Image, n: nat, k: nat, m: MState)
    requires Run(img, n, m).Some? && Step(img, Run(img, n, m).value).None?
    ensures Run(img, k, m).Some? <==> k <= n
    ensures Run(img, k, m).Some? && Step(img, Run(img, k, m).value).None? ==> k == n
  {
    hide Step;
    if n == 0 {
      if k > 0 {
        assert Run(img, k, m).None?;
      }
    } else if k > 0 {
      StopsOnce(img, n - 1, k - 1, Step(img, m).value);
    }
  }

  lemma HaltedStops(img: Image, n: nat, m: MState)
    requires HaltsAfter(img, n, m) || Stuck(img, n, m)
    ensures Run(img, n, m).Some? && Step(img, Run(img, n, m).value).None?
  {
  }

  // The machine halts if and only if the program ends; and then what it holds is what the program left.
  lemma HaltsIffEnds(K: Setup, us: seq<Unit>, w: World)
    requires Loaded(K, us)
    ensures (exists n :: HaltsAfter(K.img, n, Initial(w))) <==> (exists fuel :: Ends(K, us, w, fuel))
    ensures forall n, fuel :: HaltsAfter(K.img, n, Initial(w)) && Ends(K, us, w, fuel) ==>
      Finished(K, ExecUnits(K.P, fuel, Begin(w), us).st, Run(K.img, n, Initial(w)).value)
  {
    hide Loaded, Run, ExecUnits, Finished, Step, Stuck, Halted;
    var m := Initial(w);
    forall n: nat | HaltsAfter(K.img, n, m)
      ensures exists fuel :: Ends(K, us, w, fuel)
    {
      HaltedStops(K.img, n, m);
      var k, _ := ProgramRuns(K, us, n + 1, w);
      AtStop(K, n, k, m);
      assert Ends(K, us, w, n + 1);
    }
    forall fuel: nat | Ends(K, us, w, fuel)
      ensures exists n :: HaltsAfter(K.img, n, m)
      ensures forall n :: HaltsAfter(K.img, n, m) ==>
        Finished(K, ExecUnits(K.P, fuel, Begin(w), us).st, Run(K.img, n, m).value)
    {
      var k, m1 := ProgramRuns(K, us, fuel, w);
      assert HaltsAfter(K.img, k, m) by { FinishedHalts(K, ExecUnits(K.P, fuel, Begin(w), us).st, m1); }
      HaltedStops(K.img, k, m);
      forall n: nat | HaltsAfter(K.img, n, m)
        ensures n == k
      {
        HaltedStops(K.img, n, m);
        StopsOnce(K.img, k, n, m);
      }
    }
  }

  lemma FinishedHalts(K: Setup, st: SState, m: MState)
    requires Finished(K, st, m)
    ensures Halted(K.img, m)
  {
  }

  // Once stopped after n steps, a run neither goes on for longer nor is stuck elsewhere.
  lemma AtStop(K: Setup, n: nat, k: nat, m: MState)
    requires Run(K.img, n, m).Some? && Step(K.img, Run(K.img, n, m).value).None?
    ensures k > n ==> Run(K.img, k, m).None?
    ensures Stuck(K.img, k, m) ==> k == n && !HaltsAfter(K.img, n, m)
    ensures HaltsAfter(K.img, k, m) ==> k == n && !Stuck(K.img, n, m)
  {
    hide Run;
    StopsOnce(K.img, n, k, m);
  }

  // The machine gets stuck if and only if the program is broken off.
  lemma StuckIffBroken(K: Setup, us: seq<Unit>, w: World)
    requires Loaded(K, us)
    ensures (exists n :: Stuck(K.img, n, Initial(w))) <==> (exists fuel :: BreaksOff(K, us, w, fuel))
  {
    hide Loaded, Run, ExecUnits, Finished, Step, Stuck, Halted;
    var m := Initial(w);
    forall n: nat | Stuck(K.img, n, m)
      ensures exists fuel :: BreaksOff(K, us, w, fuel)
    {
      HaltedStops(K.img, n, m);
      var k, m1 := ProgramRuns(K, us, n + 1, w);
      AtStop(K, n, k, m);
      var r := ExecUnits(K.P, n + 1, Begin(w), us);
      if r.Normal? {
        FinishedHalts(K, r.st, m1);
        assert false;
      }
      assert BreaksOff(K, us, w, n + 1);
    }
    forall fuel: nat | BreaksOff(K, us, w, fuel)
      ensures exists n :: Stuck(K.img, n, m)
    {
      var k, _ := ProgramRuns(K, us, fuel, w);
    }
  }

  lemma {:induction false} CalmUnits(P: Prog, us: seq<Unit>, fuel: nat, st: SState)
    requires FuncsSelfFree(P) && Whole(st.env) && forall i :: 0 <= i < |us| ==> AllSelfFree(us[i].body)
    ensures ExecUnits(P, fuel, st, us) != SErr(SelfRead)
    decreases |us|
  {
    hide FuncsSelfFree, AllSelfFree, ExecStmts;
    if us != [] {
      CalmStmts(P, fuel, Place(true, None), st, us[0].body);
      var r := ExecStmts(P, fuel, Place(true, None), st, us[0].body);
      if r.Normal? {
        CalmUnits(P, us[1..], fuel, r.st);
      }
    }
  }

  // The units in turn, D being the global strings defined before them.
  ghost predicate UnitsReady(P: Prog, needs: Needs, D: set<string>, us: seq<Unit>)
    decreases |us|
  {
    us == [] || (TopReady(P, needs, D, us[0].body) && UnitsReady(P, needs, D + Defined(us[0].body), us[1..]))
  }

  lemma {:induction false} SteadyUnits(P: Prog, needs: Needs, D: set<string>, us: seq<Unit>, fuel: nat, st: SState)
    requires FuncsReady(P, needs) && UnitsReady(P, needs, D, us) && D <= st.globals.Keys
    ensures var r := ExecUnits(P, fuel, st, us); r.SErr? ==> r.err != Unset && r.err != NoQuotient
    decreases |us|
  {
    hide FuncsReady, TopReady, Defined, ExecStmts;
    if us != [] {
      SteadyTop(P, needs, D, fuel, Place(true, None), st, us[0].body);
      var r := ExecStmts(P, fuel, Place(true, None), st, us[0].body);
      if r.Normal? {
        SteadyUnits(P, needs, D + Defined(us[0].body), us[1..], fuel, r.st);
      }
    }
  }

  // What a caller can check: no initializer of a local mentions its own variable; every global string
  // is defined before the statements that read it or call a function needing it; and divisors are
  // literals that divide everything.
  ghost predicate Harmless(P: Prog, needs: Needs, us: seq<Unit>) {
    FuncsSelfFree(P) && FuncsReady(P, needs) && UnitsReady(P, needs, {}, us) &&
    forall i :: 0 <= i < |us| ==> AllSelfFree(us[i].body)
  }

  // Then every reachable state has a next step or is the end of the program.
  lemma NeverStuck(K: Setup, us: seq<Unit>, needs: Needs, w: World, n: nat)
    requires Loaded(K, us) && Harmless(K.P, needs, us)
    ensures !Stuck(K.img, n, Initial(w))
  {
    hide Loaded, FuncsSelfFree, AllSelfFree, Stuck, ExecUnits, FuncsReady, UnitsReady;
    StuckIffBroken(K, us, w);
    if Stuck(K.img, n, Initial(w)) {
      var fuel: nat :| BreaksOff(K, us, w, fuel);
      CalmUnits(K.P, us, fuel, Begin(w));
      SteadyUnits(K.P, needs, {}, us, fuel, Begin(w));
      assert false;
    }
  }
}
