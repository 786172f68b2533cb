/** The whole toolchain: source files that the analyzer accepts, compiled one by one, linked into an
    executable and loaded with their native functions, run as the source program does. */
module EndToEnd {
  import opened Bytes
  import opened Language
  import opened Semantics
  import opened Analysis
  import opened Commands
  import opened Codegen
  import opened Machine
  import opened Relation
  import opened Variables
  import opened Scoping
  import opened Correctness
  import opened Containers
  import Lk = Linking
  import R = References
  import LT = LinkTheorems
  import LC = LinkCorrectness
  import N = NativeLinker
  import E = Emission
  import opened Generator
  import A = Acceptance
  import D = Definitions
  import T = Typing
  import opened Decoding
  import P = Pipeline
  import St = Storage

  // A function of a source file, with the declarations visible to it, or a native function.
  datatype SourceDecl = Body(name: string, view: map<string, GDef>, f: Func) | Foreign(name: string)

  // A source file: the declarations its imports bring in, its top-level statements, its functions.
  datatype Source = Source(view: map<string, GDef>, body: seq<Stmt>, decls: seq<SourceDecl>)

  predicate DeclAccepted(d: SourceDecl, c: Decl) {
    match d
    case Body(name, view, f) => c.FuncDecl? && c.name == name && AnalyzeFunc(view, f) == Some(c.f)
    case Foreign(name) => c == NativeDecl(name)
  }

  // The analyzer accepts the file, and this is its analysis.
  predicate Accepted(s: Source, c: Compiled) {
    var r := AnalyzeStmts(Ctx(s.view, [], None), s.body);
    r.Some? && r.value.0 == c.main && |s.decls| == |c.decls| &&
    forall j :: 0 <= j < |s.decls| ==> DeclAccepted(s.decls[j], c.decls[j])
  }

  // No statement, at the top level or in a function, is a bare function name.
  predicate AllGenerable(c: Compiled) { GenerableAll(c.main) && DeclsGenerable(c.decls) }

  predicate DeclsGenerable(ds: seq<Decl>) {
    forall j :: 0 <= j < |ds| && ds[j].FuncDecl? ==> GenerableAll(ds[j].f.body)
  }

  // Literals, slot numbers and the code's size fit their fields.
  predicate Representable(c: Compiled) { A.AllFit(Cmds(c)) && Size(Cmds(c)) < I31 }

  // The file is well-formed: its statements, and every function with what is visible to it.
  ghost predicate WellFormedSource(s: Source) {
    T.StmtsOk(T.Env(s.view, [], None), s.body) &&
    forall j :: 0 <= j < |s.decls| && s.decls[j].Body? ==> T.FuncOk(s.decls[j].view, s.decls[j].f)
  }

  function Analyzed(d: SourceDecl): Decl
    requires d.Body? ==> AnalyzeFunc(d.view, d.f).Some?
  {
    if d.Body? then FuncDecl(d.name, AnalyzeFunc(d.view, d.f).value) else NativeDecl(d.name)
  }

  // The analyzer accepts exactly the well-formed files.
  lemma AcceptedExactly(s: Source)
    ensures (exists c :: Accepted(s, c)) <==> WellFormedSource(s)
  {
    hide AnalyzeStmts, AnalyzeFunc, T.StmtsOk, T.FuncOk;
    T.TopIff(s.view, s.body);
    forall j | 0 <= j < |s.decls| && s.decls[j].Body?
      ensures T.FuncOk(s.decls[j].view, s.decls[j].f) <==> AnalyzeFunc(s.decls[j].view, s.decls[j].f).Some?
    {
      T.FuncIff(s.decls[j].view, s.decls[j].f);
    }
    if WellFormedSource(s) {
      var main := AnalyzeStmts(Ctx(s.view, [], None), s.body).value.0;
      var decls := seq(|s.decls|, j requires 0 <= j < |s.decls| => Analyzed(s.decls[j]));
      assert Accepted(s, Compiled(main, decls, 0));
    }
    forall c | Accepted(s, c)
      ensures WellFormedSource(s)
    {
      assert forall j :: 0 <= j < |s.decls| ==> DeclAccepted(s.decls[j], c.decls[j]);
    }
  }

  // When an accepted file can be compiled: the generator has a command for everything in it exactly if no
  // statement is a bare function name. Its jumps are closed and its functions in order in any case.
  lemma AcceptedCompiles(s: Source, c: Compiled)
    requires Accepted(s, c) && Representable(c)
    ensures Fine(AllCmds(c.main, c.decls), 0) <==> AllGenerable(c)
    ensures E.NoJumps(GenStmts(c.main)) && DeclsClosed(c.decls)
  {
    hide A.AllFit, A.AllExist, E.NoJumps, GenStmts, DeclCmds, GenFunc, Size, AllWritable, AnalyzeStmts, A.NoDefs,
      GenerableAll, DeclsGenerable, A.SoundIn, Within, DeclAccepted, DeclsClosed;
    A.StmtsSound(Ctx(s.view, [], None), s.body);
    OutsideLoops();
    MainSound(GenStmts(c.main), GenerableAll(c.main));
    DeclsSound(s.decls, c.decls);
    SoundExists(DeclCmds(c.decls), DeclsGenerable(c.decls));
    A.SoundAppend(GenStmts(c.main), DeclCmds(c.decls));
    A.WritableIf(Cmds(c));
  }

  lemma OutsideLoops()
    ensures !Within([], Loop)
  {
  }

  lemma SoundExists(cs: seq<Cmd>, ok: bool)
    requires A.SoundIn(cs, ok, false, false)
    ensures A.AllExist(cs) <==> ok
  {
  }

  lemma MainSound(cs: seq<Cmd>, ok: bool)
    requires A.SoundIn(cs, ok, false, true)
    ensures (A.AllExist(cs) <==> ok) && E.NoJumps(cs)
  {
  }

  lemma {:induction false} DeclsSound(ds: seq<SourceDecl>, cs: seq<Decl>)
    requires |ds| == |cs| && forall j :: 0 <= j < |ds| ==> DeclAccepted(ds[j], cs[j])
    ensures A.SoundIn(DeclCmds(cs), DeclsGenerable(cs), false, false) && DeclsClosed(cs)
    decreases |ds|
  {
    hide A.SoundIn, GenFunc, AnalyzeFunc, GenerableAll, E.NoJumps, GenStmts;
    if ds == [] {
      A.SoundNone();
      A.SoundInside([], false, false);
    } else {
      assert forall j :: 0 <= j < |ds[1..]| ==> ds[1..][j] == ds[j + 1] && cs[1..][j] == cs[j + 1];
      DeclsSound(ds[1..], cs[1..]);
      assert forall j :: 0 < j < |cs| ==> cs[j] == cs[1..][j - 1];
      assert DeclAccepted(ds[0], cs[0]);
      match ds[0]
      case Body(name, view, f) =>
        var d := cs[0].f;
        A.FuncSound(view, f, d);
        A.SoundInAppend(GenFunc(d), DeclCmds(cs[1..]), GenerableAll(d.body), DeclsGenerable(cs[1..]), false, false);
      case Foreign(_) =>
        assert [] + DeclCmds(cs[1..]) == DeclCmds(cs[1..]);
    }
  }

  // ----- the program that the files make up -----

  // The program's declarations are those of the files, all of them among the linked ones.
  ghost predicate Closed(K: Setup, ss: seq<Source>) {
    (forall x :: x in K.P.globals <==> x in K.G && K.G[x].GVar?) &&
    (forall x :: x in K.P.globals ==>
      K.G[x] == GVar(K.P.globals[x]) && exists k: nat, i: nat :: Declares(ss, k, i, x)) &&
    (forall f :: f in K.G && K.G[f].GFunc? ==> FuncClosed(K, ss, f)) &&
    (forall k :: 0 <= k < |ss| ==> Visible(K, ss[k]))
  }

  predicate Declares(ss: seq<Source>, k: nat, i: nat, x: string) {
    k < |ss| && i < |ss[k].body| && ss[k].body[i].VarDef? && ss[k].body[i].name == x
  }

  // Everything visible in the file, and everything it declares itself, is in the program.
  ghost predicate Visible(K: Setup, s: Source) {
    (AnalyzeStmts(Ctx(s.view, [], None), s.body).Some? ==>
      Extends(AnalyzeStmts(Ctx(s.view, [], None), s.body).value.1.globals, K.G)) &&
    (forall j :: 0 <= j < |s.decls| && s.decls[j].Body? ==> Extends(s.decls[j].view, K.G))
  }

  ghost predicate FuncClosed(K: Setup, ss: seq<Source>, f: string)
    requires f in K.G && K.G[f].GFunc?
  {
    if K.G[f].sig.native then f in K.P.natives && K.P.natives[f] == K.G[f].sig
    else
      f !in K.P.natives && f in K.P.funcs && K.G[f].sig == SigOf(K.P.funcs[f]) && f in K.views && f in K.defs &&
      AnalyzeFunc(K.views[f], K.P.funcs[f]) == Some(K.defs[f]) &&
      exists k: nat, j: nat :: Defines(K, ss, k, j, f)
  }

  predicate Defines(K: Setup, ss: seq<Source>, k: nat, j: nat, f: string) {
    k < |ss| && j < |ss[k].decls| && f in K.views && f in K.P.funcs &&
      ss[k].decls[j] == Body(f, K.views[f], K.P.funcs[f])
  }

  // The machine is loaded with the executable of the modules; each native in use is the registered one.
  ghost predicate Executable(K: Setup, ms: seq<Module>, version: nat) {
    var e := Lk.ExeOf(ms, version);
    K.link == LinkOf(ms, version) && K.img.code == N.Loaded(e) && K.img.mainSize == e.mainSize &&
    K.img.prims == K.P.prims &&
    |K.img.natives| == |e.nativeRefs| &&
    forall i :: 0 <= i < |e.nativeRefs| && e.nativeRefs[i].id in K.P.natives ==>
      K.img.natives[i] == Native(e.nativeRefs[i].id, K.P.natives[e.nativeRefs[i].id])
  }

  // The files were accepted, compiled and linked, with fewer than 2^32 global slots and natives in use.
  ghost predicate Built(ss: seq<Source>, cs: seq<Compiled>, ms: seq<Module>) {
    |ss| == |cs| == |ms| && Lk.Linkable(ms) && Lk.SlotSum(Lk.GlobalDefs(ms)) < U32 && NativesFit(ms) &&
    forall k :: 0 <= k < |ss| ==>
      Accepted(ss[k], cs[k]) && AllGenerable(cs[k]) && Representable(cs[k]) &&
      IsModule(ms[k], cs[k].main, cs[k].decls, cs[k].version)
  }

  lemma BuiltGenerated(ss: seq<Source>, cs: seq<Compiled>, ms: seq<Module>)
    requires Built(ss, cs, ms)
    ensures Generated(ms, cs)
  {
    hide Accepted, AllGenerable, Representable, IsModule, Fine, E.NoJumps, Lk.Linkable, NativesFit, DeclsClosed;
    forall k | 0 <= k < |ms|
      ensures Fine(Cmds(cs[k]), 0) && E.NoJumps(Cmds(cs[k]))
    {
      AcceptedCompiles(ss[k], cs[k]);
      AllClosed(cs[k].main, cs[k].decls);
    }
  }

  // ----- globals -----

  lemma ModuleDeclares(s: Source, c: Compiled, m: Module)
    requires Accepted(s, c) && IsModule(m, c.main, c.decls, c.version)
    ensures m.globalDefs == D.Declared(s.body)
  {
    hide AnalyzeStmts, GenStmts, DeclCmds, E.Note, TableOf, EncodeAll, GenerableAll, Size, DeclDefs, A.NoDefs,
      A.SoundIn, DeclsGenerable;
    D.StmtsDeclare(Ctx(s.view, [], None), s.body);
    D.NotedDefs(NoNotes(), AllCmds(c.main, c.decls), 0);
    D.DefsAppend(GenStmts(c.main), DeclCmds(c.decls));
    DeclsSound(s.decls, c.decls);
    SoundNoDefs(DeclCmds(c.decls), DeclsGenerable(c.decls));
    D.NoDefsNone(DeclCmds(c.decls));
    assert D.Declared(s.body) + [] == D.Declared(s.body);
    assert [] + D.Declared(s.body) == D.Declared(s.body);
  }

  lemma SoundNoDefs(cs: seq<Cmd>, ok: bool)
    requires A.SoundIn(cs, ok, false, false)
    ensures A.NoDefs(cs)
  {
  }

  // Every definition in the tables is a global of the program, of its size.
  lemma DefTyped(K: Setup, ss: seq<Source>, cs: seq<Compiled>, ms: seq<Module>, d: IdSize)
    requires Built(ss, cs, ms) && Closed(K, ss) && d in Lk.GlobalDefs(ms)
    ensures d.id in K.P.globals && d.size == SlotSize(K.P.globals[d.id])
  {
    hide Accepted, AllGenerable, Representable, IsModule, Lk.Linkable, NativesFit, FuncClosed, AnalyzeStmts,
      GenerableAll, Declares, D.Declared;
    Lk.FlatIn(Lk.GlobalDefsOf, ms, d);
    var k :| 0 <= k < |ms| && d in Lk.GlobalDefsOf(ms[k]);
    ModuleDeclares(ss[k], cs[k], ms[k]);
    D.DeclaredAt(ss[k].body, d);
    var i :| 0 <= i < |ss[k].body| && ss[k].body[i].VarDef? &&
      d == IdSize(ss[k].body[i].name, SlotSize(ss[k].body[i].ty));
    AcceptedStmts(ss[k], cs[k]);
    D.DeclaredTyped(Ctx(ss[k].view, [], None), ss[k].body, i);
    assert Visible(K, ss[k]);
  }

  lemma AcceptedStmts(s: Source, c: Compiled)
    requires Accepted(s, c)
    ensures AnalyzeStmts(Ctx(s.view, [], None), s.body).Some?
    ensures AnalyzeStmts(Ctx(s.view, [], None), s.body).value.0 == c.main
    ensures |s.decls| == |c.decls| && forall j :: 0 <= j < |s.decls| ==> DeclAccepted(s.decls[j], c.decls[j])
  {
  }

  // And every global of the program is in the tables.
  lemma GlobalDefined(K: Setup, ss: seq<Source>, cs: seq<Compiled>, ms: seq<Module>, x: string) returns (n: nat)
    requires Built(ss, cs, ms) && Closed(K, ss) && x in K.P.globals
    ensures n < |Lk.GlobalDefs(ms)| && Lk.GlobalDefs(ms)[n] == IdSize(x, SlotSize(K.P.globals[x]))
  {
    hide Accepted, AllGenerable, Representable, IsModule, Lk.Linkable, NativesFit, FuncClosed, AnalyzeStmts,
      GenerableAll, D.Declared, Visible;
    var k: nat, i: nat :| Declares(ss, k, i, x);
    var d := IdSize(x, SlotSize(ss[k].body[i].ty));
    ModuleDeclares(ss[k], cs[k], ms[k]);
    D.DeclaredAt(ss[k].body, d);
    Lk.FlatIn(Lk.GlobalDefsOf, ms, d);
    assert d in Lk.GlobalDefsOf(ms[k]);
    DefTyped(K, ss, cs, ms, d);
    n :| 0 <= n < |Lk.GlobalDefs(ms)| && Lk.GlobalDefs(ms)[n] == d;
  }

  lemma LinkedSlots(K: Setup, ss: seq<Source>, cs: seq<Compiled>, ms: seq<Module>, version: nat)
    requires Built(ss, cs, ms) && Executable(K, ms, version)
    ensures R.Distinct(Lk.VarIds(Lk.GlobalDefs(ms))) && Lk.SlotSum(Lk.GlobalDefs(ms)) < U32
    ensures K.link.slots == Lk.SlotMap(Lk.GlobalDefs(ms))
  {
    hide Accepted, AllGenerable, Representable, IsModule, NativesFit, Lk.GlobalDefs, Lk.ExeCode, N.Loaded, R.Table,
      Lk.AllKnown, Lk.SlotSum, Lk.SlotMap, R.Distinct;
  }

  lemma SlotOf(K: Setup, ss: seq<Source>, cs: seq<Compiled>, ms: seq<Module>, version: nat, x: string) returns (n: nat)
    requires Built(ss, cs, ms) && Closed(K, ss) && Executable(K, ms, version) && x in K.P.globals
    ensures var ds := Lk.GlobalDefs(ms);
      n < |ds| && ds[n] == IdSize(x, SlotSize(K.P.globals[x])) && x in K.link.slots &&
      K.link.slots[x] == Lk.SlotSum(ds[..n]) &&
      Lk.SlotSum(ds[..n]) + SlotSize(K.P.globals[x]) < U32
  {
    hide *;
    var ds := Lk.GlobalDefs(ms);
    n := GlobalDefined(K, ss, cs, ms, x);
    LinkedSlots(K, ss, cs, ms, version);
    Lk.SlotMapAt(ds, n);
    assert ds[..|ds|] == ds;
    LC.SlotSumGrows(ds, n, |ds|);
  }

  lemma GlobalsAreLinked(K: Setup, ss: seq<Source>, cs: seq<Compiled>, ms: seq<Module>, version: nat)
    requires Built(ss, cs, ms) && Closed(K, ss) && Executable(K, ms, version)
    ensures GlobalsLinked(K)
  {
    hide Built, Executable, FuncClosed, Visible, Declares;
    forall x | x in K.P.globals
      ensures x in K.link.slots
    {
      var _ := SlotOf(K, ss, cs, ms, version, x);
    }
    forall x, y | x in K.P.globals && y in K.P.globals && x != y
      ensures K.link.slots[x] + SlotSize(K.P.globals[x]) <= K.link.slots[y] ||
        K.link.slots[y] + SlotSize(K.P.globals[y]) <= K.link.slots[x]
    {
      var i := SlotOf(K, ss, cs, ms, version, x);
      var j := SlotOf(K, ss, cs, ms, version, y);
      if i < j {
        LC.SlotSumGrows(Lk.GlobalDefs(ms), i, j);
      } else {
        LC.SlotSumGrows(Lk.GlobalDefs(ms), j, i);
      }
    }
  }

  // ----- functions -----

  lemma NativesAreLinked(K: Setup, ss: seq<Source>, ms: seq<Module>, version: nat)
    requires Closed(K, ss) && Executable(K, ms, version) && LT.AllWellFormed(ms) && Lk.Linkable(ms)
    ensures NativesLinked(K)
  {
    hide Visible, Declares, Lk.Linkable, N.Loaded, Lk.ExeCode, R.Table, Lk.ExeSpots, Lk.Flat, LT.AllWellFormed,
      AnalyzeFunc;
    var refs := Lk.ExeOf(ms, version).nativeRefs;
    N.NativeFields(ms, version);
    forall f | f in K.G && K.G[f].GFunc? && K.G[f].sig.native && f in K.link.natives
      ensures K.link.natives[f] < |K.img.natives| && K.img.natives[K.link.natives[f]] == Native(f, K.G[f].sig)
    {
      assert FuncClosed(K, ss, f);
      var i := IndexBack(refs, f);
    }
  }

  // An id with an index is the id of the entry at that index.
  lemma IndexBack(refs: seq<IdAddresses>, f: string) returns (i: nat)
    requires R.Distinct(R.Ids(refs)) && f in N.IndexMap(refs)
    ensures i < |refs| && refs[i].id == f && N.IndexMap(refs)[f] == i
    decreases |refs|
  {
    hide R.Ids, R.Distinct;
    var n := |refs| - 1;
    if refs[n].id == f {
      i := n;
    } else {
      PrefixDistinct(refs);
      i := IndexBack(refs[..n], f);
    }
  }

  lemma PrefixDistinct(refs: seq<IdAddresses>)
    requires R.Distinct(R.Ids(refs)) && refs != []
    ensures R.Distinct(R.Ids(refs[..|refs| - 1]))
  {
    assert R.Ids(refs[..|refs| - 1]) == R.Ids(refs)[..|refs| - 1];
  }

  lemma FuncGenerable(c: Compiled, j: nat)
    requires AllGenerable(c) && j < |c.decls| && c.decls[j].FuncDecl?
    ensures GenerableAll(c.decls[j].f.body)
  {
  }

  lemma FuncIsLinked(K: Setup, ss: seq<Source>, cs: seq<Compiled>, ms: seq<Module>, version: nat, f: string)
    requires Built(ss, cs, ms) && Closed(K, ss) && Executable(K, ms, version)
    requires f in K.G && K.G[f].GFunc? && !K.G[f].sig.native
    ensures FuncLinked(K, f)
  {
    hide Accepted, AllGenerable, Representable, IsModule, Lk.Linkable, Declares, At, AnalyzeFunc, AnalyzeStmts,
      GenerableAll, NativesFit, Generated, GenFunc, LinkOf, N.Loaded, Lk.ExeCode;
    BuiltGenerated(ss, cs, ms);
    assert FuncClosed(K, ss, f);
    var k: nat, j: nat :| Defines(K, ss, k, j, f);
    AcceptedStmts(ss[k], cs[k]);
    assert DeclAccepted(ss[k].decls[j], cs[k].decls[j]);
    FuncGenerable(cs[k], j);
    assert Visible(K, ss[k]);
    P.FuncStands(K, ms, cs, version, k, j);
  }

  lemma ProgramIsLinked(K: Setup, ss: seq<Source>, cs: seq<Compiled>, ms: seq<Module>, version: nat)
    requires Built(ss, cs, ms) && Closed(K, ss) && Executable(K, ms, version)
    ensures Linked(K)
  {
    hide GlobalsLinked, NativesLinked, FuncLinked, Closed, Lk.ExeOf, N.Loaded, LinkOf, Accepted, Representable,
      IsModule, Generated;
    BuiltGenerated(ss, cs, ms);
    GeneratedFits(ms, cs);
    GlobalsAreLinked(K, ss, cs, ms, version);
    NativesAreLinked(K, ss, ms, version);
    forall f | f in K.G && K.G[f].GFunc? && !K.G[f].sig.native
      ensures FuncLinked(K, f)
    {
      FuncIsLinked(K, ss, cs, ms, version, f);
    }
  }

  // ----- the theorems -----

  function Units(ss: seq<Source>, cs: seq<Compiled>): (us: seq<Unit>)
    requires |ss| == |cs|
    ensures |us| == |ss|
  {
    seq(|ss|, k requires 0 <= k < |ss| => Unit(ss[k].view, ss[k].body, cs[k].main))
  }

  // The loaded executable is one that the correctness theorems of the machine are about.
  lemma ExecutableLoaded(K: Setup, ss: seq<Source>, cs: seq<Compiled>, ms: seq<Module>, version: nat)
    requires Built(ss, cs, ms) && Closed(K, ss) && Executable(K, ms, version)
    ensures Correctness.Loaded(K, Units(ss, cs))
  {
    hide Linked, At, Generated, Accepted, Representable, IsModule, Lk.Linkable, NativesFit, FuncClosed, Declares,
      AnalyzeStmts, GenerableAll, MainCode, Size, N.Loaded, LinkOf, Lk.ExeCode, Lk.Mains, DeclAccepted;
    ProgramIsLinked(K, ss, cs, ms, version);
    BuiltGenerated(ss, cs, ms);
    var us := Units(ss, cs);
    P.MainsStand(K, ms, cs, version, us, 0);
    assert us[0..] == us && ms[..0] == [];
    assert |Lk.Mains([])| == 0 by { NoMains(); }
    forall k | 0 <= k < |us|
      ensures UnitOk(K, us[k])
    {
      AcceptedStmts(ss[k], cs[k]);
      assert Visible(K, ss[k]);
    }
  }

  lemma NoMains()
    ensures |Lk.Mains([])| == 0
  {
  }

  // The executable halts if and only if the source program ends, in the state the program left; and it
  // gets stuck if and only if the program is broken off.
  lemma RunsAsWritten(K: Setup, ss: seq<Source>, cs: seq<Compiled>, ms: seq<Module>, version: nat, w: World)
    requires Built(ss, cs, ms) && Closed(K, ss) && Executable(K, ms, version)
    ensures var us := Units(ss, cs);
      ((exists n :: HaltsAfter(K.img, n, Initial(w))) <==> (exists fuel :: Ends(K, us, w, fuel))) &&
      ((exists n :: Stuck(K.img, n, Initial(w))) <==> (exists fuel :: BreaksOff(K, us, w, fuel))) &&
      forall n, fuel :: HaltsAfter(K.img, n, Initial(w)) && Ends(K, us, w, fuel) ==>
        Finished(K, ExecUnits(K.P, fuel, Begin(w), us).st, Run(K.img, n, Initial(w)).value)
  {
    var us := Units(ss, cs);
    hide *;
    ExecutableLoaded(K, ss, cs, ms, version);
    HaltsIffEnds(K, us, w);
    StuckIffBroken(K, us, w);
  }

  // The same with storages of any capacity: then a third ending is an overflow, if and only if some state
  // of the run does not fit.
  lemma RunsBounded(K: Setup, ss: seq<Source>, cs: seq<Compiled>, ms: seq<Module>, version: nat, capacity: nat,
                    w: World)
    requires Built(ss, cs, ms) && Closed(K, ss) && Executable(K, ms, version)
    ensures var us, fits := Units(ss, cs), St.AllFit(K.img, capacity, Initial(w));
      ((exists n :: St.HaltsIn(K.img, capacity, n, Initial(w))) <==> (exists fuel :: Ends(K, us, w, fuel)) && fits) &&
      ((exists n :: St.StuckIn(K.img, capacity, n, Initial(w))) <==>
        (exists fuel :: BreaksOff(K, us, w, fuel)) && fits) &&
      ((exists n :: St.OverflowsIn(K.img, capacity, n, Initial(w))) <==> !fits)
    ensures var us := Units(ss, cs);
      forall n, fuel :: St.HaltsIn(K.img, capacity, n, Initial(w)) && Ends(K, us, w, fuel) ==>
        Finished(K, ExecUnits(K.P, fuel, Begin(w), us).st, St.RunIn(K.img, capacity, n, Initial(w)).value)
  {
    var us := Units(ss, cs);
    hide *;
    ExecutableLoaded(K, ss, cs, ms, version);
    St.BoundedRuns(K, us, capacity, w);
  }
}
