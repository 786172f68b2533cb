/** A program with a function and a native: `f();` with `void f() { g(); }` and `native void g();`. It meets
    every requirement of the end-to-end theorems, and runs to its end. */
module Calls {
  import opened Bytes
  import opened Language
  import opened Semantics
  import opened Analysis
  import opened Commands
  import opened Codegen
  import opened Machine
  import opened Relation
  import opened Scoping
  import opened Correctness
  import opened Containers
  import opened Generator
  import opened Decoding
  import opened EndToEnd
  import opened Examples
  import E = Emission
  import Lk = Linking
  import R = References
  import N = NativeLinker

  function Plainly(native: bool): Sig { Sig([], None, native) }

  function View(): map<string, GDef> { map["f" := GFunc(Plainly(false)), "g" := GFunc(Plainly(true))] }

  function CallOf(name: string): Stmt { ExprStmt(Call(Id(name), [])) }

  function CallTree(name: string, native: bool): TStmt {
    TExprStmt(Plain(TCall(Plain(TFunc(name, native), FuncT(Plainly(native))), []), Void))
  }

  function Wrapper(): Func { Func([], None, [CallOf("g")]) }

  function WrapperDef(): TFuncDef { TFuncDef([], [CallTree("g", true)], [], true) }

  function CallFile(): Source { Source(View(), [CallOf("f")], [Body("f", View(), Wrapper()), Foreign("g")]) }

  function CallCompiled(version: nat): Compiled {
    Compiled([CallTree("f", false)], [FuncDecl("f", WrapperDef()), NativeDecl("g")], version)
  }

  function MainCmds(): seq<Cmd> { [LoadFunc(Sym("f")), CallFunc] }

  function WrapperCmds(): seq<Cmd> { [LoadNative(Sym("g")), CallNative, Ret] }

  function CallCmds(): seq<Cmd> { [LoadFunc(Sym("f")), CallFunc, LoadNative(Sym("g")), CallNative, Ret] }

  function CallModule(version: nat): Module {
    Module(version, EncodeAll(CallCmds()), 6, [IdAddress("f", 6)], [], ["g"], [IdAddresses("f", [1])],
      [IdAddresses("g", [7])], [])
  }

  function CallProg(prims: Prims): Prog {
    Prog(map[], map["f" := Wrapper()], map["g" := Plainly(true)], prims)
  }

  function Registered(refs: seq<IdAddresses>): (ns: seq<Native>)
    ensures |ns| == |refs|
  {
    seq(|refs|, i requires 0 <= i < |refs| => Native(refs[i].id, Plainly(true)))
  }

  // The machine loaded with the executable of the module, g registered.
  function CallSetup(version: nat, prims: Prims): Setup {
    var e := Lk.ExeOf([CallModule(version)], version);
    Setup(CallProg(prims), View(), map["f" := View()], map["f" := WrapperDef()],
      LinkOf([CallModule(version)], version),
      Image(N.Loaded(e), e.mainSize, Registered(e.nativeRefs), prims))
  }

  // ----- analysis -----

  lemma CallAnalyzed(cx: Ctx, name: string, native: bool)
    requires cx.globals == View() && Resolve(cx.scopes, name) == None
    requires (name == "f" && !native) || (name == "g" && native)
    ensures AnalyzeStmts(cx, [CallOf(name)]) == Some(([CallTree(name, native)], cx))
  {
    var t := CallTree(name, native);
    assert AnalyzeExpr(cx, Id(name), false) == Some(t.e.node.callee);
    assert AnalyzeArgs(cx, [], [], false) == Some([]);
    assert AnalyzeExpr(cx, Call(Id(name), []), false) == Some(t.e);
    hide AnalyzeExpr;
    assert AnalyzeStmt(cx, CallOf(name)) == Some((t, cx));
    OneStmt(cx, CallOf(name), t, cx);
  }

  lemma WrapperAnalyzed()
    ensures AnalyzeFunc(View(), Wrapper()) == Some(WrapperDef())
  {
    var cx := Ctx(View(), [Scope(FuncScope, [])], Some(None));
    assert cx.scopes[..0] == [] && FindDef([], "g") < 0;
    assert Resolve([], "g") == None && Resolve(cx.scopes, "g") == None;
    CallAnalyzed(cx, "g", true);
    hide AnalyzeStmts, Resolve, FindDef;
    assert AddArgs(cx, []) == Some(cx) && TopDefs(cx) == [] && ArgTypes([]) == [];
    assert !HasReturn(Wrapper().body);
  }

  lemma CallAccepted(version: nat)
    ensures Accepted(CallFile(), CallCompiled(version)) && AllGenerable(CallCompiled(version))
    ensures AnalyzeStmts(Ctx(View(), [], None), [CallOf("f")]) ==
      Some(([CallTree("f", false)], Ctx(View(), [], None)))
  {
    CallAnalyzed(Ctx(View(), [], None), "f", false);
    WrapperAnalyzed();
    hide AnalyzeStmts, AnalyzeFunc;
    var s, c := CallFile(), CallCompiled(version);
    assert DeclAccepted(s.decls[0], c.decls[0]) && DeclAccepted(s.decls[1], c.decls[1]);
  }

  // ----- code -----

  lemma CallTreeCode(name: string, native: bool)
    ensures GenStmts([CallTree(name, native)]) ==
      if native then [LoadNative(Sym(name)), CallNative] else [LoadFunc(Sym(name)), CallFunc]
  {
    var t := CallTree(name, native);
    assert GenArgs([]) == [];
    assert GenExpr(t.e.node.callee) == [if native then LoadNative(Sym(name)) else LoadFunc(Sym(name))];
    assert GenExpr(t.e) == [] + (GenExpr(t.e.node.callee) + ([GenCall(t.e.node.callee)] + []));
    hide GenExpr;
    assert GenStmt(t) == GenExpr(t.e) + [];
    assert [t][1..] == [] && GenStmts([]) == [];
  }

  lemma CallCode(version: nat)
    ensures var c := CallCompiled(version);
      GenStmts(c.main) == MainCmds() && GenFunc(WrapperDef()) == WrapperCmds() &&
      AllCmds(c.main, c.decls) == CallCmds() && DeclNatives(c.decls) == ["g"]
  {
    var c := CallCompiled(version);
    CallTreeCode("f", false);
    CallTreeCode("g", true);
    hide GenStmts;
    assert GenParams([]) == [] && Destroy([]) == [];
    assert GenFunc(WrapperDef()) == WrapperCmds();
    hide GenFunc;
    assert c.decls[1..] == [NativeDecl("g")] && c.decls[1..][1..] == [];
    assert DeclCmds([]) == [] && DeclCmds(c.decls[1..]) == [] && DeclCmds(c.decls) == WrapperCmds();
    assert DeclNatives([]) == [] && DeclNatives(c.decls[1..]) == ["g"];
  }

  lemma CallSizes()
    ensures Size(MainCmds()) == 6 && Size(WrapperCmds()) == 7 && Size(CallCmds()) == 13
  {
    var cs := CallCmds();
    assert CmdSize(cs[0]) == 5 && CmdSize(cs[1]) == 1 && CmdSize(cs[2]) == 5 && CmdSize(cs[3]) == 1 &&
      CmdSize(cs[4]) == 1;
    hide Size, CmdSize, Encode;
    var a, w := MainCmds(), WrapperCmds();
    assert a[1..] == [cs[1]] && a[1..][1..] == [];
    assert w[1..] == [cs[3], cs[4]] && [cs[3], cs[4]][1..] == [cs[4]] && [cs[4]][1..] == [];
    assert cs[1..] == [cs[1]] + w && cs[1..][1..] == w;
    SizeHead([]);
    SizeHead(a);
    SizeHead(a[1..]);
    SizeHead(w);
    SizeHead(w[1..]);
    SizeHead([cs[4]]);
    SizeHead(cs);
    SizeHead(cs[1..]);
  }

  function MainNotes(): E.Notes { NoNotes().(funcs := map["f" := [1]]) }

  lemma WrapperNotes()
    ensures E.Note(MainNotes(), WrapperCmds(), 6) == MainNotes().(natives := map["g" := [7]])
  {
    var cs, n := WrapperCmds(), MainNotes().(natives := map["g" := [7]]);
    var none: seq<nat> := [];
    assert none + [7] == [7];
    assert E.NoteCmd(MainNotes(), cs[0], 6) == n;
    assert cs[1..] == [CallNative, Ret] && cs[1..][1..] == [Ret] && [Ret][1..] == [];
    hide CmdSize;
    assert E.Note(n, cs[1..], 6 + CmdSize(cs[0])) == n;
  }

  lemma CallNotes()
    ensures E.Note(NoNotes(), CallCmds(), 0) == MainNotes().(natives := map["g" := [7]])
  {
    var cs := CallCmds();
    WrapperNotes();
    assert CmdSize(cs[0]) == 5 && CmdSize(cs[1]) == 1;
    hide Encode, CmdSize;
    assert cs[1..][0] == cs[1] && cs[1..][1..] == WrapperCmds();
    hide WrapperCmds;
    var none: seq<nat> := [];
    assert none + [1] == [1];
    assert E.NoteCmd(NoNotes(), cs[0], 0) == MainNotes() && E.NoteCmd(MainNotes(), cs[1], 5) == MainNotes();
    assert E.Note(MainNotes(), cs[1..], 5) == E.Note(MainNotes(), WrapperCmds(), 6);
  }

  lemma CallModuleIs(version: nat)
    ensures var c := CallCompiled(version); IsModule(CallModule(version), c.main, c.decls, version)
  {
    var c, m := CallCompiled(version), CallModule(version);
    CallCode(version);
    CallSizes();
    CallNotes();
    hide GenStmts, GenFunc, EncodeAll, Size, E.Note, AllCmds, DeclNatives;
    assert c.decls[1..] == [NativeDecl("g")] && c.decls[1..][1..] == [];
    assert DeclDefs(c.decls, 6) == [IdAddress("f", 6)];
    assert m.funcRefs[0].id == "f" && m.nativeRefs[0].id == "g";
    assert TableOf(map["f" := [1]], m.funcRefs) && TableOf(map["g" := [7]], m.nativeRefs) && TableOf(map[], []);
  }

  lemma CallFits(version: nat)
    ensures Representable(CallCompiled(version))
  {
    CallCode(version);
    CallSizes();
    hide GenStmts, Size, AllCmds;
  }

  // ----- linking -----

  lemma CallLayout(version: nat)
    ensures var m := CallModule(version);
      |Lk.Mains([m])| == 6 && |Lk.Funcs([m])| == 7 && Lk.GlobalDefs([m]) == [] && Lk.NativeDefs([m]) == ["g"] &&
      Lk.DefIds(Lk.FuncDefs([m])) == ["f"] &&
      R.Ids(Lk.Flat(Lk.GlobalRefsOf, Lk.ExeSpots([m]))) == [] &&
      R.Ids(Lk.Flat(Lk.FuncRefsOf, Lk.ExeSpots([m]))) == ["f"] &&
      |Lk.Flat(Lk.NativeRefsOf, Lk.ExeSpots([m]))| == 1 &&
      R.Ids(Lk.Flat(Lk.NativeRefsOf, Lk.ExeSpots([m]))) == ["g"]
  {
    var m := CallModule(version);
    CallSizes();
    hide Lk.Flat, EncodeAll, Size;
    var p := Lk.Placed(m, R.Spot(m.mainSize, 0, |Lk.Mains([m])|));
    Lk.FlatOne(Lk.GlobalDefsOf, m);
    Lk.FlatOne(Lk.NativeDefsOf, m);
    Lk.FlatOne(Lk.MainOf, m);
    Lk.FlatOne(Lk.FuncOf, m);
    Lk.LayOutOne(m, 0, |Lk.Mains([m])|);
    Lk.FlatOne(Lk.FuncDefsOf, p);
    Lk.FlatOne(Lk.FuncRefsOf, p);
    Lk.FlatOne(Lk.NativeRefsOf, p);
    Lk.FlatOne(Lk.GlobalRefsOf, p);
    assert R.Ids(Lk.GlobalRefsOf(p)) == [] && R.Ids(Lk.FuncRefsOf(p)) == ["f"];
    assert R.Ids(Lk.NativeRefsOf(p)) == ["g"] && Lk.DefIds(Lk.FuncDefsOf(p)) == ["f"];
  }

  lemma CallBuilt(version: nat)
    ensures Built([CallFile()], [CallCompiled(version)], [CallModule(version)])
  {
    var m := CallModule(version);
    CallAccepted(version);
    CallModuleIs(version);
    CallFits(version);
    CallLayout(version);
    hide Accepted, AllGenerable, Representable, IsModule, Lk.Flat, Lk.Mains, Lk.Funcs, Lk.GlobalDefs, Lk.NativeDefs,
      Lk.FuncDefs, Lk.ExeSpots, CallFile, CallModule;
    R.FirstsFacts(["g"]);
    assert Lk.SlotSum([]) == 0 && Lk.VarIds([]) == [];
    assert Lk.SlotsCount([]);
  }

  lemma CallClosed(version: nat, prims: Prims)
    ensures Closed(CallSetup(version, prims), [CallFile()])
  {
    var K, s := CallSetup(version, prims), CallFile();
    CallAccepted(version);
    WrapperAnalyzed();
    hide AnalyzeStmts, AnalyzeFunc, LinkOf, Lk.ExeOf, N.Loaded, CallModule;
    assert Defines(K, [s], 0, 0, "f");
    assert SigOf(Wrapper()) == Plainly(false) by { assert ArgTypes([]) == []; }
    assert FuncClosed(K, [s], "f") && FuncClosed(K, [s], "g");
    assert Visible(K, s);
  }

  lemma CallExecutable(version: nat, prims: Prims)
    ensures Executable(CallSetup(version, prims), [CallModule(version)], version)
  {
    hide LinkOf, Lk.ExeOf, N.Loaded, CallModule;
  }

  // ----- running -----

  lemma CallEnds(prims: Prims, u: Unit, w: World)
    requires u.body == [CallOf("f")]
    ensures ExecUnits(CallProg(prims), 1, Begin(w), [u]).Normal?
  {
    var P, st := CallProg(prims), Begin(w);
    var inner := Place(false, Some(None));
    var st1 := st.(env := []);
    assert ArgTypes([]) == [] && Bind([], []) == [];
    assert EvalArgs(P, 0, st1, [], []) == AOk([], st1);
    assert EvalArgs(P, 1, st, [], []) == AOk([], st);
    hide EvalArgs;
    assert EvalExpr(P, 0, st1, Call(Id("g"), [])) == RunNative(P, "g", None, [], st1);
    hide EvalExpr;
    assert ExecStmt(P, 0, inner, st1, CallOf("g")).Normal?;
    assert [CallOf("g")][1..] == [] && [CallOf("f")][1..] == [];
    assert ExecStmts(P, 0, inner, st1, [CallOf("g")]).Normal?;
    assert RunFunc(P, 0, st, Wrapper(), []).EOk?;
    CallsWrapper(prims, st);
    hide RunFunc;
    assert ExecStmt(P, 1, Place(true, None), st, CallOf("f")).Normal?;
    assert ExecStmts(P, 1, Place(true, None), st, [CallOf("f")]).Normal?;
  }

  lemma CallsWrapper(prims: Prims, st: SState)
    requires st.env == []
    ensures EvalExpr(CallProg(prims), 1, st, Call(Id("f"), [])) == RunFunc(CallProg(prims), 0, st, Wrapper(), [])
  {
    hide RunFunc;
    assert ArgTypes([]) == [];
    assert EvalArgs(CallProg(prims), 1, st, [], []) == AOk([], st);
  }

  lemma EndsSomewhere(K: Setup, us: seq<Unit>, w: World, fuel: nat)
    requires ExecUnits(K.P, fuel, Begin(w), us).Normal?
    ensures exists fuel :: Ends(K, us, w, fuel)
  {
    assert Ends(K, us, w, fuel);
  }

  lemma CallParts(version: nat, prims: Prims)
    ensures CallSetup(version, prims).P == CallProg(prims) && CallFile().body == [CallOf("f")]
  {
  }

  // The requirements of the end-to-end theorems are met by a program with a function and a native, and the
  // executable halts.
  lemma CallHalts(prims: Prims, version: nat, w: World)
    ensures var K, s, c, m := CallSetup(version, prims), CallFile(), CallCompiled(version), CallModule(version);
      Built([s], [c], [m]) && Closed(K, [s]) && Executable(K, [m], version) &&
      exists n :: HaltsAfter(K.img, n, Initial(w))
  {
    hide *;
    var K, s, c, m := CallSetup(version, prims), CallFile(), CallCompiled(version), CallModule(version);
    CallBuilt(version);
    CallClosed(version, prims);
    CallExecutable(version, prims);
    OneUnit(s, c);
    CallParts(version, prims);
    CallEnds(prims, Units([s], [c])[0], w);
    EndsSomewhere(K, Units([s], [c]), w, 1);
    RunsAsWritten(K, [s], [c], [m], version, w);
  }
}
