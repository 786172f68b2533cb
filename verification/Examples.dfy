/** Concrete programs, from the source text to the machine that runs them: each is accepted, compiled,
    linked and loaded, and then shows what the general theorems leave open. */
module Examples {
  import opened Bytes
  import opened Language
  import opened Semantics
  import opened Analysis
  import opened Commands
  import opened Codegen
  import opened Machine
  import opened Relation
  import opened Scoping
  import opened Readiness
  import opened SelfReading
  import opened Correctness
  import opened Containers
  import opened Generator
  import opened Decoding
  import opened EndToEnd
  import A = Acceptance
  import E = Emission
  import Lk = Linking
  import R = References
  import N = NativeLinker

  // ----- a program of one file, without functions -----

  function GlobalsOf(s: Source): map<string, GDef> {
    var r := AnalyzeStmts(Ctx(s.view, [], None), s.body);
    if r.Some? then r.value.1.globals else map[]
  }

  function ProgOf(s: Source, prims: Prims): Prog {
    var g := GlobalsOf(s);
    Prog(map x | x in g && g[x].GVar? :: g[x].t, map[], map[], prims)
  }

  // The machine loaded with the executable of the one module.
  function Sole(s: Source, m: Module, prims: Prims): Setup {
    var e := Lk.ExeOf([m], m.version);
    Setup(ProgOf(s, prims), GlobalsOf(s), map[], map[], LinkOf([m], m.version),
      Image(N.Loaded(e), e.mainSize, [], prims))
  }

  // The file stands alone: it imports nothing, has no functions, and refers to its own globals only.
  ghost predicate Alone(s: Source, c: Compiled, m: Module) {
    s.view == map[] && s.decls == [] && c.decls == [] && Accepted(s, c) && AllGenerable(c) && Representable(c) &&
    IsModule(m, c.main, c.decls, c.version) && m.funcRefs == [] && m.nativeRefs == [] &&
    R.Distinct(Lk.VarIds(m.globalDefs)) && Lk.SlotsCount(m.globalDefs) && Lk.SlotSum(m.globalDefs) < U32 &&
    Lk.AllKnown(m.globalRefs, Lk.VarIds(m.globalDefs)) &&
    forall x :: x in GlobalsOf(s) ==> GlobalsOf(s)[x].GVar? && exists i: nat :: Declares([s], 0, i, x)
  }

  lemma SoleParts(m: Module)
    requires m.funcRefs == [] && m.nativeRefs == [] && m.funcDefs == [] && m.nativeDefs == []
    ensures Lk.GlobalDefs([m]) == m.globalDefs && Lk.NativeDefs([m]) == [] && Lk.FuncDefs([m]) == []
    ensures Lk.Mains([m]) == Lk.MainOf(m) && Lk.Funcs([m]) == Lk.FuncOf(m)
    ensures Lk.ExeSpots([m]) == [Lk.Placed(m, R.Spot(m.mainSize, 0, |Lk.MainOf(m)|))]
    ensures Lk.Flat(Lk.FuncRefsOf, Lk.ExeSpots([m])) == [] && Lk.Flat(Lk.NativeRefsOf, Lk.ExeSpots([m])) == []
    ensures R.Ids(Lk.Flat(Lk.GlobalRefsOf, Lk.ExeSpots([m]))) == R.Ids(m.globalRefs)
  {
    hide Lk.Flat;
    var p := Lk.Placed(m, R.Spot(m.mainSize, 0, |Lk.MainOf(m)|));
    Lk.FlatOne(Lk.GlobalDefsOf, m);
    Lk.FlatOne(Lk.NativeDefsOf, m);
    Lk.FlatOne(Lk.MainOf, m);
    Lk.FlatOne(Lk.FuncOf, m);
    Lk.LayOutOne(m, 0, |Lk.Mains([m])|);
    Lk.FlatOne(Lk.FuncDefsOf, p);
    Lk.FlatOne(Lk.FuncRefsOf, p);
    Lk.FlatOne(Lk.NativeRefsOf, p);
    Lk.FlatOne(Lk.GlobalRefsOf, p);
    assert R.Ids(Lk.GlobalRefsOf(p)) == R.Ids(m.globalRefs);
  }

  lemma SoleSizes(s: Source, c: Compiled, m: Module)
    requires Alone(s, c, m)
    ensures m.funcDefs == [] && m.nativeDefs == []
    ensures |Lk.MainOf(m)| + |Lk.FuncOf(m)| < U32
  {
    hide Accepted, TableOf, E.Note, A.AllFit, GlobalsOf, GenStmts, Lk.SlotsCount, Lk.AllKnown, Lk.SlotSum;
  }

  lemma NoEntries()
    ensures R.Table([]) == []
  {
  }

  lemma KnownSame(a: seq<IdAddresses>, b: seq<IdAddresses>, ids: seq<string>)
    requires R.Ids(a) == R.Ids(b) && Lk.AllKnown(b, ids)
    ensures Lk.AllKnown(a, ids)
  {
  }

  lemma NothingUnknown(ids: seq<string>)
    ensures Lk.AllKnown([], ids) && R.Distinct([]) && |Lk.DefIds([])| == 0
  {
  }

  lemma AloneLinks(s: Source, c: Compiled, m: Module)
    requires Alone(s, c, m)
    ensures m.funcRefs == [] && m.nativeRefs == [] && R.Distinct(Lk.VarIds(m.globalDefs))
    ensures Lk.SlotsCount(m.globalDefs) && Lk.AllKnown(m.globalRefs, Lk.VarIds(m.globalDefs))
  {
    hide Accepted, Representable, IsModule, GlobalsOf, R.Distinct, Lk.SlotsCount, Lk.SlotSum, Lk.AllKnown;
  }

  lemma SoleLinkable(s: Source, c: Compiled, m: Module)
    requires Alone(s, c, m)
    ensures Lk.Linkable([m]) && NativesFit([m])
  {
    SoleSizes(s, c, m);
    AloneLinks(s, c, m);
    hide Alone, Lk.SlotsCount, Lk.Flat, Lk.Mains, Lk.Funcs, Lk.MainOf, Lk.FuncOf, Lk.GlobalDefs, Lk.NativeDefs,
      Lk.FuncDefs, Lk.ExeSpots, R.Table, R.Distinct, Lk.AllKnown, R.Ids, Lk.VarIds;
    SoleParts(m);
    NoEntries();
    KnownSame(Lk.Flat(Lk.GlobalRefsOf, Lk.ExeSpots([m])), m.globalRefs, Lk.VarIds(m.globalDefs));
    NothingUnknown(Lk.DefIds([]));
    NothingUnknown([]);
    assert Lk.DefIds([]) == [];
  }

  lemma SoleClosed(s: Source, c: Compiled, m: Module, prims: Prims)
    requires Alone(s, c, m)
    ensures Closed(Sole(s, m, prims), [s])
  {
    hide Representable, IsModule, Lk.SlotsCount, Lk.SlotSum, LinkOf, Lk.ExeOf, N.Loaded, AnalyzeStmts, Lk.AllKnown,
      Declares;
    var K := Sole(s, m, prims);
    forall x | x in K.P.globals
      ensures K.G[x] == GVar(K.P.globals[x]) && exists k: nat, i: nat :: Declares([s], k, i, x)
    {
      var i: nat :| Declares([s], 0, i, x);
    }
    assert Visible(K, s);
  }

  lemma SoleBuilt(s: Source, c: Compiled, m: Module)
    requires Alone(s, c, m)
    ensures Built([s], [c], [m])
  {
    SoleSizes(s, c, m);
    SoleLinkable(s, c, m);
    hide Accepted, Representable, IsModule, GlobalsOf, Lk.SlotsCount, Lk.SlotSum, Lk.GlobalDefs, Lk.Linkable,
      NativesFit, R.Distinct, Lk.AllKnown;
    SoleParts(m);
  }

  lemma SoleExecutable(s: Source, m: Module, prims: Prims)
    requires m.funcRefs == [] && m.nativeRefs == [] && m.funcDefs == [] && m.nativeDefs == []
    ensures Executable(Sole(s, m, prims), [m], m.version)
  {
    hide GlobalsOf, N.Loaded, Lk.ExeCode, Lk.Flat, Lk.ExeSpots, R.Table, Lk.Mains, Lk.GlobalDefs, Lk.SlotSum, LinkOf,
      Lk.NativeDefs;
    SoleParts(m);
    NoEntries();
  }

  lemma AlonePlain(s: Source, c: Compiled, m: Module)
    requires Alone(s, c, m)
    ensures m.funcRefs == [] && m.nativeRefs == []
  {
    hide Accepted, Representable, IsModule, GlobalsOf, R.Distinct, Lk.SlotsCount, Lk.SlotSum, Lk.AllKnown;
  }

  // Such a file can be built, and the requirements of the theorems are met.
  lemma SoleRuns(s: Source, c: Compiled, m: Module, prims: Prims)
    requires Alone(s, c, m)
    ensures Built([s], [c], [m]) && Closed(Sole(s, m, prims), [s]) && Executable(Sole(s, m, prims), [m], m.version)
  {
    hide *;
    SoleSizes(s, c, m);
    AlonePlain(s, c, m);
    SoleBuilt(s, c, m);
    SoleClosed(s, c, m, prims);
    SoleExecutable(s, m, prims);
  }

  lemma SameLengths(ss: seq<Source>, cs: seq<Compiled>, ms: seq<Module>)
    requires Built(ss, cs, ms)
    ensures |ss| == |cs|
  {
    hide Accepted, Representable, IsModule, Lk.Linkable;
  }

  lemma BrokenOff(K: Setup, us: seq<Unit>, w: World, fuel: nat)
    requires var r := ExecUnits(K.P, fuel, Begin(w), us); r.SErr? && Fatal(r.err)
    ensures exists fuel :: BreaksOff(K, us, w, fuel)
  {
    hide ExecUnits, Fatal;
    assert BreaksOff(K, us, w, fuel);
  }

  lemma SticksIf(K: Setup, ss: seq<Source>, cs: seq<Compiled>, ms: seq<Module>, version: nat, w: World, fuel: nat)
    requires Built(ss, cs, ms) && Closed(K, ss) && Executable(K, ms, version)
    requires var r := ExecUnits(K.P, fuel, Begin(w), Units(ss, cs)); r.SErr? && Fatal(r.err)
    ensures exists n :: Stuck(K.img, n, Initial(w))
  {
    hide *;
    SameLengths(ss, cs, ms);
    RunsAsWritten(K, ss, cs, ms, version, w);
    BrokenOff(K, Units(ss, cs), w, fuel);
  }

  // ----- string s = s; -----

  function StringInit(): Stmt { VarDef(String, "s", Some(Id("s"))) }

  function StringFile(): Source { Source(map[], [StringInit()], []) }

  function StringCmds(): seq<Cmd> { [LoadGlobal(String, Sym("s")), InitGlobal(String, Sym("s"))] }

  function StringTree(): TStmt {
    TGlobalDef("s", String, Some(Plain(TGlobal("s", String, false), Prim(String))))
  }

  function StringModule(version: nat): Module {
    Module(version, EncodeAll(StringCmds()), 10, [], [IdSize("s", 1)], [], [], [], [IdAddresses("s", [1, 6])])
  }

  lemma StringAccepted()
    ensures AnalyzeStmts(Ctx(map[], [], None), [StringInit()]) ==
      Some(([StringTree()], Ctx(map["s" := GVar(String)], [], None)))
  {
    var cx := Ctx(map[], [], None);
    var cx1 := Ctx(map["s" := GVar(String)], [], None);
    assert AnalyzeExpr(cx1, Id("s"), false) == Some(Plain(TGlobal("s", String, false), Prim(String)));
    assert AnalyzeTo(cx1, Id("s"), String, false) == Some(Plain(TGlobal("s", String, false), Prim(String)));
    hide AnalyzeTo;
    assert AnalyzeStmt(cx, StringInit()) == Some((StringTree(), cx1));
    assert [StringInit()][1..] == [];
    assert AnalyzeStmts(cx1, []) == Some(([], cx1));
    var none: seq<TStmt> := [];
    assert [StringTree()] + none == [StringTree()];
  }

  lemma StringCode()
    ensures GenStmts([StringTree()]) == StringCmds()
  {
    var te := Plain(TGlobal("s", String, false), Prim(String));
    assert GenExpr(te) == [LoadGlobal(String, Sym("s"))];
    assert [StringTree()][1..] == [];
    assert GenStmts([]) == [];
    assert GenStmt(StringTree()) == StringCmds();
  }

  lemma StringModuleIs(version: nat, n: E.Notes)
    requires n == E.Note(NoNotes(), StringCmds(), 0) && Size(StringCmds()) == 10
    requires n == NoNotes().(globals := map["s" := [1, 6]], defs := [IdSize("s", 1)])
    ensures IsModule(StringModule(version), [StringTree()], [], version)
  {
    StringCode();
    hide GenStmts, EncodeAll, Size, E.Note;
    var m := StringModule(version);
    assert DeclCmds([]) == [] && AllCmds([StringTree()], []) == StringCmds();
    assert m.globalRefs[0].id == "s" && m.globalRefs[0].addresses == [1, 6];
    assert TableOf(n.globals, m.globalRefs);
    assert TableOf(n.funcs, []) && TableOf(n.natives, []);
  }

  lemma StringNotes(version: nat)
    ensures Size(StringCmds()) == 10
    ensures IsModule(StringModule(version), [StringTree()], [], version)
  {
    StringCode();
    var a, b := StringCmds()[0], StringCmds()[1];
    assert StringCmds()[1..] == [b] && [b][1..] == [];
    assert CmdSize(a) == 5 && CmdSize(b) == 5;
    hide GenStmts, Encode, CmdSize;
    assert Size([b]) == 5;
    var n := E.Note(NoNotes(), StringCmds(), 0);
    var n1 := E.NoteCmd(NoNotes(), a, 0);
    var none: seq<nat> := [];
    assert none + [1] == [1] && [1] + [6] == [1, 6];
    assert n1 == NoNotes().(globals := map["s" := [1]]);
    assert n == E.Note(n1, [b], 5);
    assert n == E.NoteCmd(n1, b, 5);
    assert n == NoNotes().(globals := map["s" := [1, 6]], defs := [IdSize("s", 1)]);
    StringModuleIs(version, n);
  }

  lemma StringAlone(version: nat)
    ensures Alone(StringFile(), Compiled([StringTree()], [], version), StringModule(version))
  {
    var s, c, m := StringFile(), Compiled([StringTree()], [], version), StringModule(version);
    StringAccepted();
    StringNotes(version);
    StringCode();
    hide AnalyzeStmts, IsModule, GenStmts, EncodeAll;
    assert DeclCmds([]) == [] && Cmds(c) == StringCmds();
    assert Accepted(s, c);
    assert Representable(c);
    assert GlobalsOf(s) == map["s" := GVar(String)];
    assert Declares([s], 0, 0, "s");
    assert Lk.VarIds(m.globalDefs) == ["s"] && R.Ids(m.globalRefs) == ["s"];
    assert m.globalDefs[..0] == [] && Lk.SlotSum([]) == 0 && Lk.SlotSum(m.globalDefs) == 1;
  }

  // The source program reads the string before it is defined.
  lemma StringBroken(P: Prog, u: Unit, w: World)
    requires u.body == [StringInit()] && "s" in P.globals && P.globals["s"] == String
    ensures ExecUnits(P, 0, Begin(w), [u]) == SErr(Unset)
  {
    var st, pl := Begin(w), Place(true, None);
    assert EvalExpr(P, 0, st, Id("s")) == EErr(Unset);
    assert EvalTo(P, 0, st, Id("s"), String) == EErr(Unset);
    assert ExecStmt(P, 0, pl, st, StringInit()) == SErr(Unset);
    assert ExecStmts(P, 0, pl, st, [StringInit()]) == SErr(Unset);
  }

  lemma StringGlobals(m: Module, prims: Prims)
    ensures StringFile().body == [StringInit()]
    ensures var P := Sole(StringFile(), m, prims).P; "s" in P.globals && P.globals["s"] == String
  {
    hide LinkOf, Lk.ExeOf, N.Loaded, AnalyzeStmts;
    StringAccepted();
  }

  lemma OneUnit(s: Source, c: Compiled)
    ensures |Units([s], [c])| == 1 && Units([s], [c]) == [Units([s], [c])[0]] && Units([s], [c])[0].body == s.body
  {
  }

  lemma UnsetIsFatal()
    ensures Fatal(Unset) && Fatal(SelfRead) && Fatal(NoQuotient)
  {
  }

  // `string s = s;` at the top level is accepted, compiled, linked and loaded, and then the machine
  // copies a string that was never created.
  lemma StringSticks(prims: Prims, version: nat, w: World)
    ensures AnalyzeStmts(Ctx(map[], [], None), [StringInit()]).Some?
    ensures exists n :: Stuck(Sole(StringFile(), StringModule(version), prims).img, n, Initial(w))
  {
    hide *;
    var s, c, m := StringFile(), Compiled([StringTree()], [], version), StringModule(version);
    var K := Sole(s, m, prims);
    StringAccepted();
    StringAlone(version);
    SoleRuns(s, c, m, prims);
    StringGlobals(m, prims);
    OneUnit(s, c);
    StringBroken(K.P, Units([s], [c])[0], w);
    UnsetIsFatal();
    SticksIf(K, [s], [c], [m], m.version, w, 0);
  }

  // ----- if (true) { int x = x; } -----

  function SelfDef(): Stmt { VarDef(Int, "x", Some(Id("x"))) }

  function SelfInit(): Stmt { If([Branch(Lit(Val(Bool, [1])), [SelfDef()])], NoElse) }

  function SelfFile(): Source { Source(map[], [SelfInit()], []) }

  function SelfBody(): TStmt { TLocalDef(Int, Some(Plain(TLocal(Int, [], false), Prim(Int)))) }

  function SelfTree(): TStmt {
    TIf([TBranch(Plain(TLit(Val(Bool, [1])), Prim(Bool)), [SelfBody()], [Int])], TNoElse)
  }

  function SelfInner(): seq<Cmd> { [LoadLocal(Int, 0), InitLocal(Int), DestroyLocal(Int)] }

  function SelfCmds(): seq<Cmd> {
    [LoadValue(Val(Bool, [1])), Jump(IfNot, Off(7)), LoadLocal(Int, 0), InitLocal(Int), DestroyLocal(Int)]
  }

  function SelfModule(version: nat): Module {
    Module(version, EncodeAll(SelfCmds()), 14, [], [], [], [], [], [])
  }

  // The body of the branch: its scope, and its scope once x is declared.
  function BranchCtx(): Ctx { Ctx(map[], [Scope(Common, [])], None) }

  function InnerCtx(): Ctx { Ctx(map[], [Scope(Common, [LocalDef("x", Int, [])])], None) }

  lemma BranchPushed()
    ensures Push(Ctx(map[], [], None), Common) == BranchCtx() && TopDefs(InnerCtx()) == [Int]
  {
  }

  // Nothing is alive around the branch.
  lemma NothingAlive()
    ensures DefTypes(FlowUpTo([Scope(Common, [])], FuncScope)) == []
  {
    assert [Scope(Common, [])][..0] == [];
    assert FlowUpTo([], FuncScope) == [];
  }

  lemma FirstDef(x: string)
    ensures FindDef([], x) < 0
  {
  }

  lemma SelfScopes()
    ensures AddLocal(BranchCtx(), Int, "x") == Some(InnerCtx())
  {
    NothingAlive();
    FirstDef("x");
    hide FlowUpTo, DefTypes, FindDef;
    var d, noDefs: seq<LocalDef> := LocalDef("x", Int, []), [];
    assert noDefs + [d] == [d];
    var none: seq<Scope> := [];
    assert BranchCtx().scopes[..0] == none && none + [Scope(Common, [d])] == [Scope(Common, [d])];
  }

  lemma SelfInitTree()
    ensures AnalyzeTo(InnerCtx(), Id("x"), Int, false) == Some(Plain(TLocal(Int, [], false), Prim(Int)))
  {
    assert Resolve(InnerCtx().scopes, "x") == Some(LocalDef("x", Int, []));
    assert AnalyzeExpr(InnerCtx(), Id("x"), false) == Some(Plain(TLocal(Int, [], false), Prim(Int)));
  }

  lemma SelfBlock()
    ensures AnalyzeBlock(Ctx(map[], [], None), Common, [SelfDef()]) == Some(([SelfBody()], [Int]))
  {
    BranchPushed();
    SelfScopes();
    SelfInitTree();
    hide AnalyzeTo, AddLocal, Push, TopDefs;
    assert AnalyzeStmt(BranchCtx(), SelfDef()) == Some((SelfBody(), InnerCtx()));
    OneStmt(BranchCtx(), SelfDef(), SelfBody(), InnerCtx());
    hide AnalyzeStmts;
  }

  lemma OneStmt(cx: Ctx, s: Stmt, t: TStmt, cx1: Ctx)
    requires AnalyzeStmt(cx, s) == Some((t, cx1))
    ensures AnalyzeStmts(cx, [s]) == Some(([t], cx1))
  {
    hide AnalyzeStmt;
    assert [s][1..] == [] && AnalyzeStmts(cx1, []) == Some(([], cx1));
    var none: seq<TStmt> := [];
    assert [t] + none == [t];
  }

  lemma SelfAccepted()
    ensures AnalyzeStmts(Ctx(map[], [], None), [SelfInit()]) == Some(([SelfTree()], Ctx(map[], [], None)))
  {
    var cx := Ctx(map[], [], None);
    SelfBlock();
    hide AnalyzeBlock;
    var b := SelfInit().branches[0];
    var tc := Plain(TLit(Val(Bool, [1])), Prim(Bool));
    assert AnalyzeTo(cx, b.cond, Bool, false) == Some(tc);
    hide AnalyzeTo;
    assert [b][1..] == [] && AnalyzeBranches(cx, []) == Some([]);
    var none: seq<TBranch> := [];
    assert [TBranch(tc, [SelfBody()], [Int])] + none == [TBranch(tc, [SelfBody()], [Int])];
    assert AnalyzeStmt(cx, SelfInit()) == Some((SelfTree(), cx));
    OneStmt(cx, SelfInit(), SelfTree(), cx);
  }

  lemma InnerSize()
    ensures Size(SelfInner()) == 7
  {
    hide Size;
    var cs := SelfInner();
    assert cs[1..][1..] == [DestroyLocal(Int)] && cs[1..][1..][1..] == [];
    SizeHead(cs);
    SizeHead(cs[1..]);
    SizeHead(cs[1..][1..]);
    SizeHead([]);
  }

  lemma SelfSizes()
    ensures Size(SelfInner()) == 7 && Size(SelfCmds()) == 14
  {
    InnerSize();
    hide Size;
    var cs := SelfCmds();
    assert cs[1..] == [cs[1]] + SelfInner() && cs[1..][1..] == SelfInner();
    SizeHead(cs[1..]);
    SizeHead(cs);
  }

  lemma SelfBodyCode()
    ensures GenStmts([SelfBody()]) + Destroy([Int]) == SelfInner()
  {
    var te := Plain(TLocal(Int, [], false), Prim(Int));
    assert GenExpr(te) == [LoadLocal(Int, 0)];
    assert [SelfBody()][1..] == [] && GenStmts([]) == [];
    assert GenStmt(SelfBody()) == [LoadLocal(Int, 0), InitLocal(Int)];
    assert [Int][..0] == [] && Destroy([]) == [];
    assert Destroy([Int]) == [DestroyLocal(Int)];
  }

  lemma SelfCode()
    ensures GenStmts([SelfTree()]) == SelfCmds()
  {
    SelfBodyCode();
    SelfSizes();
    hide Size, Destroy;
    var t := SelfTree();
    var C := GenExpr(t.branches[0].cond);
    assert C == [LoadValue(Val(Bool, [1]))];
    hide GenExpr;
    assert GenBranches(t, 1) == [];
    var none: seq<Cmd> := [];
    assert SelfInner() + none == SelfInner() && SelfInner() + (none + none) == SelfInner();
    assert GenBranch(C, SelfInner(), true, []) == SelfCmds();
    assert GenStmt(t) == GenBranches(t, 0) == SelfCmds();
    assert [t][1..] == [] && GenStmts([]) == [];
    assert SelfCmds() + none == SelfCmds();
  }

  predicate Silent(c: Cmd) {
    !c.CreateGlobal? && !c.InitGlobal? && !c.LoadGlobal? && !c.LoadGlobalAddress? && !c.LoadFunc? && !c.LoadNative?
  }

  // Commands without symbols leave nothing to the linkers.
  lemma {:induction false} NothingNoted(cs: seq<Cmd>, pos: nat)
    requires forall i :: 0 <= i < |cs| ==> Silent(cs[i])
    ensures E.Note(NoNotes(), cs, pos) == NoNotes()
    decreases |cs|
  {
    hide CmdSize;
    if cs != [] {
      assert Silent(cs[0]);
      NothingNoted(cs[1..], pos + CmdSize(cs[0]));
    }
  }

  lemma SelfNotes()
    ensures E.Note(NoNotes(), SelfCmds(), 0) == NoNotes()
  {
    hide E.Note;
    NothingNoted(SelfCmds(), 0);
  }

  lemma SelfModuleIs(version: nat)
    requires E.Note(NoNotes(), SelfCmds(), 0) == NoNotes() && Size(SelfCmds()) == 14
    requires GenStmts([SelfTree()]) == SelfCmds()
    ensures IsModule(SelfModule(version), [SelfTree()], [], version)
  {
    hide GenStmts, EncodeAll, Size, E.Note, SelfCmds;
    assert DeclCmds([]) == [] && AllCmds([SelfTree()], []) == SelfCmds();
    assert TableOf(NoNotes().globals, []);
  }

  lemma SelfFits(version: nat)
    ensures Representable(Compiled([SelfTree()], [], version))
  {
    SelfSizes();
    SelfCode();
    hide GenStmts, Size;
    assert DeclCmds([]) == [] && AllCmds([SelfTree()], []) == SelfCmds();
  }

  lemma SelfIsAccepted(version: nat)
    ensures Accepted(SelfFile(), Compiled([SelfTree()], [], version))
    ensures AllGenerable(Compiled([SelfTree()], [], version))
    ensures GlobalsOf(SelfFile()) == map[]
  {
    SelfAccepted();
    hide AnalyzeStmts;
  }

  lemma SelfAloneIf(version: nat)
    requires Accepted(SelfFile(), Compiled([SelfTree()], [], version)) && GlobalsOf(SelfFile()) == map[]
    requires AllGenerable(Compiled([SelfTree()], [], version)) && Representable(Compiled([SelfTree()], [], version))
    requires IsModule(SelfModule(version), [SelfTree()], [], version)
    ensures Alone(SelfFile(), Compiled([SelfTree()], [], version), SelfModule(version))
  {
    hide Accepted, AllGenerable, Representable, IsModule, GlobalsOf, EncodeAll, SelfTree, SelfCmds, SelfInit;
    assert Lk.SlotSum([]) == 0;
  }

  lemma SelfAlone(version: nat)
    ensures Alone(SelfFile(), Compiled([SelfTree()], [], version), SelfModule(version))
  {
    hide *;
    SelfIsAccepted(version);
    SelfSizes();
    SelfCode();
    SelfNotes();
    SelfModuleIs(version);
    SelfFits(version);
    SelfAloneIf(version);
  }

  lemma SelfBroken(P: Prog, u: Unit, w: World)
    requires u.body == [SelfInit()]
    ensures ExecUnits(P, 0, Begin(w), [u]) == SErr(SelfRead)
  {
    var st, pl := Begin(w), Place(true, None);
    assert ExecStmts(P, 0, pl.(top := false), st, [SelfDef()]) == SErr(SelfRead) by {
      var st0 := st.(env := st.env + [Var("x", Int, None)]);
      assert EvalExpr(P, 0, st0, Id("x")) == EErr(SelfRead);
      assert EvalTo(P, 0, st0, Id("x"), Int) == EErr(SelfRead);
      assert ExecStmt(P, 0, pl.(top := false), st, SelfDef()) == SErr(SelfRead);
    }
    assert ExecBlock(P, 0, pl, st, [SelfDef()]) == SErr(SelfRead);
    assert EvalExpr(P, 0, st, Lit(Val(Bool, [1]))) == EOk(Some(Val(Bool, [1])), st);
    assert ExecBranches(P, 0, pl, st, SelfInit(), 0) == SErr(SelfRead);
    assert ExecStmts(P, 0, pl, st, [SelfInit()]) == SErr(SelfRead);
  }

  lemma SelfFacts()
    ensures SelfFile().body == [SelfInit()]
  {
  }

  // A local that is initialized by itself is accepted, compiled, linked and loaded, and then the machine
  // reads a slot that does not exist.
  lemma SelfInitSticks(prims: Prims, version: nat, w: World)
    ensures AnalyzeStmts(Ctx(map[], [], None), [SelfInit()]).Some?
    ensures exists n :: Stuck(Sole(SelfFile(), SelfModule(version), prims).img, n, Initial(w))
  {
    hide *;
    var s, c, m := SelfFile(), Compiled([SelfTree()], [], version), SelfModule(version);
    var K := Sole(s, m, prims);
    SelfAccepted();
    SelfAlone(version);
    SoleRuns(s, c, m, prims);
    SelfFacts();
    OneUnit(s, c);
    SelfBroken(K.P, Units([s], [c])[0], w);
    UnsetIsFatal();
    SticksIf(K, [s], [c], [m], m.version, w, 0);
  }

  // ----- 1 / 0; -----

  function One(): Value { Val(Int, [1, 0, 0, 0]) }

  function Zero(): Value { Val(Int, [0, 0, 0, 0]) }

  function DivExpr(): Expr { Binary(Div, Lit(One()), Lit(Zero())) }

  function DivFile(): Source { Source(map[], [ExprStmt(DivExpr())], []) }

  function Number(v: Value): TExpr { Plain(TLit(v), Prim(v.ty)) }

  function DivTree(): TStmt { TExprStmt(Plain(TBinary(Div, Number(One()), Number(Zero())), Prim(Int))) }

  function DivCmds(): seq<Cmd> { [LoadValue(One()), LoadValue(Zero()), BinCmd(Div, Int), Unload(Int)] }

  function DivModule(version: nat): Module { Module(version, EncodeAll(DivCmds()), 12, [], [], [], [], [], []) }

  lemma DivAccepted()
    ensures AnalyzeStmts(Ctx(map[], [], None), [ExprStmt(DivExpr())]) == Some(([DivTree()], Ctx(map[], [], None)))
  {
    var cx := Ctx(map[], [], None);
    assert AnalyzeExpr(cx, Lit(One()), false) == Some(Number(One()));
    assert AnalyzeExpr(cx, Lit(Zero()), false) == Some(Number(Zero()));
    assert AnalyzeExpr(cx, DivExpr(), false) == Some(DivTree().e);
    hide AnalyzeExpr;
    assert AnalyzeStmt(cx, ExprStmt(DivExpr())) == Some((DivTree(), cx));
    OneStmt(cx, ExprStmt(DivExpr()), DivTree(), cx);
  }

  lemma DivSizes()
    ensures Size(DivCmds()) == 12
  {
    var cs := DivCmds();
    assert CmdSize(cs[0]) == 5 && CmdSize(cs[1]) == 5 && CmdSize(cs[2]) == 1 && CmdSize(cs[3]) == 1;
    hide Size, CmdSize, Encode;
    assert cs[1..][1..] == [cs[2], cs[3]] && [cs[2], cs[3]][1..] == [cs[3]] && [cs[3]][1..] == [];
    SizeHead(cs);
    SizeHead(cs[1..]);
    SizeHead([cs[2], cs[3]]);
    SizeHead([cs[3]]);
    SizeHead([]);
  }

  lemma DivCode()
    ensures GenStmts([DivTree()]) == DivCmds()
  {
    var te, cs := DivTree().e, DivCmds();
    assert GenExpr(Number(One())) == [cs[0]] && GenExpr(Number(Zero())) == [cs[1]];
    assert GenExpr(te) == [cs[0]] + ([cs[1]] + ([cs[2]] + []));
    hide GenExpr;
    assert GenStmt(DivTree()) == cs;
    assert [DivTree()][1..] == [] && GenStmts([]) == [];
  }

  lemma DivModuleIs(version: nat)
    requires E.Note(NoNotes(), DivCmds(), 0) == NoNotes() && Size(DivCmds()) == 12
    requires GenStmts([DivTree()]) == DivCmds()
    ensures IsModule(DivModule(version), [DivTree()], [], version)
  {
    hide GenStmts, EncodeAll, Size, E.Note, DivCmds;
    assert DeclCmds([]) == [] && AllCmds([DivTree()], []) == DivCmds();
    assert TableOf(NoNotes().globals, []);
  }

  lemma DivNotes()
    ensures E.Note(NoNotes(), DivCmds(), 0) == NoNotes()
  {
    hide E.Note;
    NothingNoted(DivCmds(), 0);
  }

  lemma DivFits(version: nat)
    ensures Representable(Compiled([DivTree()], [], version))
  {
    DivSizes();
    DivCode();
    hide GenStmts, Size;
    assert DeclCmds([]) == [] && AllCmds([DivTree()], []) == DivCmds();
  }

  lemma DivIsAccepted(version: nat)
    ensures Accepted(DivFile(), Compiled([DivTree()], [], version))
    ensures AllGenerable(Compiled([DivTree()], [], version))
    ensures GlobalsOf(DivFile()) == map[]
  {
    DivAccepted();
    hide AnalyzeStmts;
  }

  lemma DivAloneIf(version: nat)
    requires Accepted(DivFile(), Compiled([DivTree()], [], version)) && GlobalsOf(DivFile()) == map[]
    requires AllGenerable(Compiled([DivTree()], [], version)) && Representable(Compiled([DivTree()], [], version))
    requires IsModule(DivModule(version), [DivTree()], [], version)
    ensures Alone(DivFile(), Compiled([DivTree()], [], version), DivModule(version))
  {
    hide Accepted, AllGenerable, Representable, IsModule, GlobalsOf, EncodeAll, DivTree, DivCmds, DivExpr;
    assert Lk.SlotSum([]) == 0;
  }

  lemma DivAlone(version: nat)
    ensures Alone(DivFile(), Compiled([DivTree()], [], version), DivModule(version))
  {
    hide *;
    DivIsAccepted(version);
    DivSizes();
    DivCode();
    DivNotes();
    DivModuleIs(version);
    DivFits(version);
    DivAloneIf(version);
  }

  lemma DivBroken(P: Prog, u: Unit, w: World)
    requires u.body == [ExprStmt(DivExpr())]
    ensures ExecUnits(P, 0, Begin(w), [u]) == SErr(NoQuotient)
  {
    var st, pl := Begin(w), Place(true, None);
    assert Zero().raw == Zeros(4);
    assert NoResult(Div, Int, One().raw, Zero().raw);
    assert Operate(P, Div, One(), Zero(), st) == EErr(NoQuotient);
    hide Operate, Apply;
    assert EvalExpr(P, 0, st, Lit(One())) == EOk(Some(One()), st);
    assert EvalExpr(P, 0, st, Lit(Zero())) == EOk(Some(Zero()), st);
    assert EvalExpr(P, 0, st, DivExpr()) == EErr(NoQuotient);
    hide EvalExpr;
    assert ExecStmts(P, 0, pl, st, [ExprStmt(DivExpr())]) == SErr(NoQuotient);
  }

  lemma DivFacts()
    ensures DivFile().body == [ExprStmt(DivExpr())]
  {
  }

  // A division by a literal zero is accepted, compiled, linked and loaded, and then has no result.
  lemma DivisionSticks(prims: Prims, version: nat, w: World)
    ensures AnalyzeStmts(Ctx(map[], [], None), [ExprStmt(DivExpr())]).Some?
    ensures exists n :: Stuck(Sole(DivFile(), DivModule(version), prims).img, n, Initial(w))
  {
    hide *;
    var s, c, m := DivFile(), Compiled([DivTree()], [], version), DivModule(version);
    var K := Sole(s, m, prims);
    DivAccepted();
    DivAlone(version);
    SoleRuns(s, c, m, prims);
    DivFacts();
    OneUnit(s, c);
    DivBroken(K.P, Units([s], [c])[0], w);
    UnsetIsFatal();
    SticksIf(K, [s], [c], [m], m.version, w, 0);
  }

  // ----- f; -----

  function BareName(): Stmt { ExprStmt(Id("f")) }

  function BareFile(sig: Sig): Source { Source(map["f" := GFunc(sig)], [BareName()], []) }

  function BareTree(sig: Sig): TStmt { TExprStmt(Plain(TFunc("f", sig.native), FuncT(sig))) }

  lemma BareAccepted(sig: Sig, version: nat)
    ensures Accepted(BareFile(sig), Compiled([BareTree(sig)], [], version))
  {
    var cx := Ctx(map["f" := GFunc(sig)], [], None);
    assert AnalyzeExpr(cx, Id("f"), false) == Some(Plain(TFunc("f", sig.native), FuncT(sig)));
    assert AnalyzeStmt(cx, BareName()) == Some((BareTree(sig), cx));
    OneStmt(cx, BareName(), BareTree(sig), cx);
    hide AnalyzeStmts;
  }

  lemma BareCode(sig: Sig)
    ensures var load := if sig.native then LoadNative(Sym("f")) else LoadFunc(Sym("f"));
      GenStmts([BareTree(sig)]) == [load, NoCmd] && Size([load, NoCmd]) < I31
  {
    var load := if sig.native then LoadNative(Sym("f")) else LoadFunc(Sym("f"));
    var te := Plain(TFunc("f", sig.native), FuncT(sig));
    assert GenExpr(te) == [load];
    assert GenStmt(BareTree(sig)) == [load, NoCmd];
    hide GenExpr, GenStmt;
    assert [BareTree(sig)][1..] == [] && GenStmts([]) == [];
    assert CmdSize(load) == 5 && CmdSize(NoCmd) == 1;
    hide Encode, CmdSize;
    assert [load, NoCmd][1..] == [NoCmd] && [NoCmd][1..] == [];
    assert Size([NoCmd]) == 1;
  }

  // A function's name as a statement is accepted and is no code: the generator has no command that unloads
  // a function. The file meets everything else that compiling it takes.
  lemma BareNameHasNoCode(sig: Sig, version: nat)
    ensures var c := Compiled([BareTree(sig)], [], version);
      Accepted(BareFile(sig), c) && Representable(c) && !AllGenerable(c) &&
      !A.AllExist(GenStmts(c.main)) && !Fine(AllCmds(c.main, c.decls), 0)
  {
    var c := Compiled([BareTree(sig)], [], version);
    BareAccepted(sig, version);
    BareCode(sig);
    hide Accepted, AnalyzeStmts, GenStmts, Size;
    assert DeclCmds([]) == [] && Cmds(c) == GenStmts(c.main);
    assert !Generable(c.main[0]) && !Exists(GenStmts(c.main)[1]);
  }

  // ----- the order of the files -----

  // `f();` in one file, `string s;` and a function that reads it in another.
  function Caller(): seq<Stmt> { [ExprStmt(Call(Id("f"), []))] }

  function Definer(): seq<Stmt> { [VarDef(String, "s", None)] }

  function Reader(): Func { Func([], None, [ExprStmt(Id("s"))]) }

  // Linked in front of the file it depends on, the caller makes the function read a string that is not
  // there yet; linked behind it, it does not.
  lemma OrderMatters(P: Prog, caller: Unit, definer: Unit, w: World)
    requires caller.body == Caller() && definer.body == Definer()
    requires P.globals == map["s" := String] && P.funcs == map["f" := Reader()] && P.natives == map[]
    ensures ExecUnits(P, 1, Begin(w), [caller, definer]) == SErr(Unset)
    ensures ExecUnits(P, 1, Begin(w), [definer, caller]).Normal?
  {
    var pl := Place(true, None);
    var st0, st1 := Begin(w), Begin(w).(globals := map["s" := Default(String)]);
    assert [caller, definer][1..] == [definer] && [definer, caller][1..] == [caller] && [caller][1..] == [];
    ReaderReads(P, st0);
    ReaderReads(P, st1);
    CallerCalls(P, st0);
    CallerCalls(P, st1);
    hide EvalExpr, Default;
    assert ExecStmts(P, 1, pl, st0, Caller()) == SErr(Unset);
    assert ExecStmts(P, 1, pl, st1, Caller()) == Normal(st1);
    assert ExecUnits(P, 1, st1, [caller]) == Normal(st1);
    assert ExecStmt(P, 1, pl, st0, Definer()[0]) == Normal(st1);
    assert ExecStmts(P, 1, pl, st0, Definer()) == Normal(st1);
  }

  // `string s = "a"; long a = 8 / 2; if (true) { int y = 1; } s;` passes the check, whatever the arithmetic.
  function Passing(): seq<Stmt> {
    [VarDef(String, "s", Some(Lit(Val(String, [97])))),
     VarDef(Long, "a", Some(Binary(Div, Lit(Val(Long, [8, 0, 0, 0, 0, 0, 0, 0])),
       Lit(Val(Long, [2, 0, 0, 0, 0, 0, 0, 0]))))),
     If([Branch(Lit(Val(Bool, [1])), [VarDef(Int, "y", Some(Lit(One())))])], NoElse),
     ExprStmt(Id("s"))]
  }

  lemma PassingFree()
    ensures AllSelfFree(Passing())
  {
    var ss := Passing();
    assert SelfFree(ss[0]) && SelfFree(ss[1]) && SelfFree(ss[2]) && SelfFree(ss[3]);
    hide SelfFree;
    assert forall i :: 0 <= i < |ss| ==> i == 0 || ss[i] == ss[1] || ss[i] == ss[2] || ss[i] == ss[3];
  }

  lemma PassingStmts(P: Prog)
    requires P.globals == map["s" := String, "a" := Long] && P.funcs == map[]
    ensures var needs: Needs, ss, D := map[], Passing(), {"s"} + {"a"};
      StmtReady(P, needs, {}, ss[0]) && StmtReady(P, needs, {"s"}, ss[1]) && StmtReady(P, needs, D, ss[2]) &&
      StmtReady(P, needs, D + {}, ss[3])
  {
    var needs: Needs, ss := map[], Passing();
    var two: Raw := [2, 0, 0, 0, 0, 0, 0, 0];
    assert two[0] != Zeros(8)[0] && two[0] != MinusOne(Long)[0];
    assert SafeDivisor(P, Val(Long, two));
    hide SafeDivisor;
    var D := {"s"} + {"a"};
    assert StmtReady(P, needs, D, ss[2].branches[0].body[0]);
    assert StmtsReady(P, needs, D, ss[2].branches[0].body);
    assert "s" in D + {} && Readiness.Ready(P, needs, D + {}, Id("s"));
  }

  lemma PassingReady(P: Prog)
    requires P.globals == map["s" := String, "a" := Long] && P.funcs == map[]
    ensures TopReady(P, map[], {}, Passing())
  {
    var needs: Needs, ss, D := map[], Passing(), {"s"} + {"a"};
    PassingStmts(P);
    assert {} + Readiness.Defines(ss[0]) == {"s"};
    hide StmtReady;
    assert ss[1..] == [ss[1], ss[2], ss[3]] && ss[1..][1..] == [ss[2], ss[3]];
    assert [ss[2], ss[3]][1..] == [ss[3]] && [ss[3]][1..] == [];
    assert TopReady(P, needs, D + {}, [ss[3]]);
    assert TopReady(P, needs, D, [ss[2], ss[3]]);
    assert TopReady(P, needs, {"s"}, ss[1..]);
  }

  lemma PassesIf(P: Prog, u: Unit)
    requires P.funcs == map[] && TopReady(P, map[], {}, u.body) && AllSelfFree(u.body)
    ensures Harmless(P, map[], [u])
  {
    hide TopReady, AllSelfFree, Defined, StmtsReady;
    assert [u][1..] == [];
    assert UnitsReady(P, map[], {} + Defined(u.body), []);
    assert UnitsReady(P, map[], {}, [u]);
    assert FuncsSelfFree(P) && FuncsReady(P, map[]);
  }

  lemma PassesCheck(P: Prog, u: Unit)
    requires u.body == Passing() && P.globals == map["s" := String, "a" := Long] && P.funcs == map[]
    ensures Harmless(P, map[], [u])
  {
    hide TopReady, AllSelfFree, Harmless, Passing;
    PassingFree();
    PassingReady(P);
    PassesIf(P, u);
  }

  // And the check that a caller can make tells the two orders apart.
  lemma OrderChecked(P: Prog, caller: Unit, definer: Unit)
    requires caller.body == Caller() && definer.body == Definer()
    requires P.globals == map["s" := String] && P.funcs == map["f" := Reader()]
    ensures FuncsReady(P, map["f" := {"s"}])
    ensures UnitsReady(P, map["f" := {"s"}], {}, [definer, caller])
    ensures !UnitsReady(P, map["f" := {"s"}], {}, [caller, definer])
  {
    var needs: Needs := map["f" := {"s"}];
    assert [caller, definer][1..] == [definer] && [definer, caller][1..] == [caller] && [caller][1..] == [];
    assert needs["f"] == {"s"};
    assert StmtReady(P, needs, {"s"}, Reader().body[0]);
    assert Caller()[1..] == [] && Definer()[1..] == [];
    assert !StmtReady(P, needs, {}, Caller()[0]) && StmtReady(P, needs, {"s"}, Caller()[0]);
    assert Defined(Definer()) == {"s"} && TopReady(P, needs, {}, Definer());
    assert {} + Defined(Definer()) == {"s"};
  }

  lemma ReaderReads(P: Prog, st: SState)
    requires P.globals == map["s" := String] && st.env == []
    ensures RunFunc(P, 0, st, Reader(), []) ==
      if "s" in st.globals then EOk(None, st) else EErr(Unset)
  {
    var pl := Place(false, Some(None));
    assert Bind([], []) == [];
    var st1 := st.(env := []);
    assert EvalExpr(P, 0, st1, Id("s")) == if "s" in st.globals then EOk(Some(st.globals["s"]), st) else EErr(Unset);
    assert ExecStmts(P, 0, pl, st1, Reader().body) == if "s" in st.globals then Normal(st) else SErr(Unset);
  }

  lemma CallerCalls(P: Prog, st: SState)
    requires P.globals == map["s" := String] && P.funcs == map["f" := Reader()] && P.natives == map[] && st.env == []
    ensures EvalExpr(P, 1, st, Call(Id("f"), [])) == RunFunc(P, 0, st, Reader(), [])
  {
    hide RunFunc;
    assert ArgTypes([]) == [];
    assert EvalArgs(P, 1, st, [], []) == AOk([], st);
  }
}
