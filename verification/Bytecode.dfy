/** A file down to its last byte: `long a; int b; b = 5;`, from the declarations it makes to the executable
    that the machine is loaded with. A long takes two slots, so b stands at slot 2. */
module Bytecode {
  import opened Bytes
  import opened Language
  import opened Analysis
  import opened Commands
  import opened Codegen
  import opened Relation
  import opened Scoping
  import opened Containers
  import opened Generator
  import opened Decoding
  import opened EndToEnd
  import opened Examples
  import D = Definitions
  import E = Emission
  import Lk = Linking
  import R = References
  import N = NativeLinker

  function Five(): Value { Val(Int, [5, 0, 0, 0]) }

  function Store5(): Stmt { ExprStmt(Assign(Id("b"), Lit(Five()))) }

  function SlotBody(): seq<Stmt> { [VarDef(Long, "a", None), VarDef(Int, "b", None), Store5()] }

  function SlotFile(): Source { Source(map[], SlotBody(), []) }

  function Store5Tree(): TStmt {
    TExprStmt(Plain(TAssign(Plain(TGlobal("b", Int, true), Prim(Int)), Examples.Number(Five())), Void))
  }

  function SlotTrees(): seq<TStmt> { [TGlobalDef("a", Long, None), TGlobalDef("b", Int, None), Store5Tree()] }

  function SlotCmds(): seq<Cmd> {
    [CreateGlobal(Long, Sym("a")), CreateGlobal(Int, Sym("b")), LoadValue(Five()), LoadGlobalAddress(Sym("b")),
     Store(Int)]
  }

  // The five commands, with the operands of the first two and of the fourth.
  function Coded(a: seq<byte>, b: seq<byte>, c: seq<byte>): seq<byte> {
    [3] + (a + ([1] + (b + ([75, 5, 0, 0, 0] + ([107] + (c + [121]))))))
  }

  // A name not linked yet.
  function Blank(): seq<byte> { [255, 255, 255, 255] }

  function SlotCode(): seq<byte> { Coded(Blank(), Blank(), Blank()) }

  function SlotExe(): seq<byte> { Coded([0, 0, 0, 0], [2, 0, 0, 0], [2, 0, 0, 0]) }

  function SlotModule(version: nat): Module {
    Module(version, SlotCode(), 21, [], [IdSize("a", 2), IdSize("b", 1)], [], [], [],
      [IdAddresses("a", [1]), IdAddresses("b", [6, 16])])
  }

  // ----- analysis and code -----

  function View2(): map<string, GDef> { map["a" := GVar(Long), "b" := GVar(Int)] }

  lemma Store5Accepted()
    ensures AnalyzeStmts(Ctx(View2(), [], None), [Store5()]) == Some(([Store5Tree()], Ctx(View2(), [], None)))
  {
    var cx := Ctx(View2(), [], None);
    assert AnalyzeExpr(cx, Id("b"), true) == Some(Plain(TGlobal("b", Int, true), Prim(Int)));
    assert AnalyzeExpr(cx, Lit(Five()), false) == Some(Examples.Number(Five()));
    assert AnalyzeTo(cx, Lit(Five()), Int, false) == Some(Examples.Number(Five()));
    assert AnalyzeStmt(cx, Store5()) == Some((Store5Tree(), cx));
    OneStmt(cx, Store5(), Store5Tree(), cx);
  }

  lemma SlotAccepted()
    ensures AnalyzeStmts(Ctx(map[], [], None), SlotBody()) == Some((SlotTrees(), Ctx(View2(), [], None)))
  {
    var cx, cx1, cx2 := Ctx(map[], [], None), Ctx(map["a" := GVar(Long)], [], None), Ctx(View2(), [], None);
    var ss, ts := SlotBody(), SlotTrees();
    Store5Accepted();
    hide AnalyzeExpr, AnalyzeTo;
    assert cx1.globals["b" := GVar(Int)] == View2();
    assert AnalyzeStmt(cx1, ss[1]) == Some((ts[1], cx2));
    assert AnalyzeStmt(cx, ss[0]) == Some((ts[0], cx1));
    hide AnalyzeStmt, Store5, Store5Tree, View2;
    assert ss[1..][0] == ss[1] && ss[1..][1..] == [Store5()];
    assert [ts[1]] + [Store5Tree()] == ts[1..] && [ts[0]] + ts[1..] == ts;
    assert AnalyzeStmts(cx1, ss[1..]) == Some((ts[1..], cx2));
  }

  lemma Store5Code()
    ensures GenStmt(Store5Tree()) == SlotCmds()[2..]
  {
    var te := Store5Tree().e;
    assert GenExpr(Examples.Number(Five())) == [LoadValue(Five())];
    assert GenExpr(te.node.left) == [LoadGlobalAddress(Sym("b"))];
    assert GenExpr(te) == [LoadValue(Five())] + ([LoadGlobalAddress(Sym("b"))] + ([Store(Int)] + []));
    hide GenExpr;
    assert GenStmt(Store5Tree()) == GenExpr(te) + [];
  }

  lemma SlotGenerated()
    ensures GenStmts(SlotTrees()) == SlotCmds()
  {
    Store5Code();
    hide GenExpr;
    var ts, cs := SlotTrees(), SlotCmds();
    assert GenStmt(ts[0]) == [cs[0]] && GenStmt(ts[1]) == [cs[1]];
    hide GenStmt;
    assert ts[1..][1..] == [ts[2]] && [ts[2]][1..] == [] && GenStmts([]) == [];
    assert GenStmts([ts[2]]) == cs[2..];
    assert GenStmts(ts[1..]) == cs[1..];
  }

  lemma SlotEncoded()
    ensures var cs := SlotCmds();
      Encode(cs[0]) == [3] + Blank() && Encode(cs[1]) == [1] + Blank() && Encode(cs[2]) == [75, 5, 0, 0, 0] &&
      Encode(cs[3]) == [107] + Blank() && Encode(cs[4]) == [121]
  {
    Filler();
    hide LE32;
  }

  lemma Regrouped(p: seq<byte>, q: seq<byte>, r: seq<byte>, s: seq<byte>, t: seq<byte>, x: seq<byte>)
    ensures (p + x) + ((q + x) + (r + ((s + x) + t))) == p + (x + (q + (x + (r + (s + (x + t))))))
  {
  }

  lemma SlotBytes()
    ensures EncodeAll(SlotCmds()) == SlotCode() && Size(SlotCmds()) == 21
  {
    var cs := SlotCmds();
    SlotEncoded();
    hide Encode, CmdSize;
    assert cs[1..] == [cs[1], cs[2], cs[3], cs[4]] && cs[1..][1..] == [cs[2], cs[3], cs[4]];
    assert [cs[2], cs[3], cs[4]][1..] == [cs[3], cs[4]] && [cs[3], cs[4]][1..] == [cs[4]] && [cs[4]][1..] == [];
    assert EncodeAll([]) == [];
    hide SlotCmds;
    assert EncodeAll([cs[4]]) == Encode(cs[4]);
    assert EncodeAll([cs[3], cs[4]]) == Encode(cs[3]) + Encode(cs[4]);
    assert EncodeAll([cs[2], cs[3], cs[4]]) == Encode(cs[2]) + (Encode(cs[3]) + Encode(cs[4]));
    assert EncodeAll(cs[1..]) == Encode(cs[1]) + (Encode(cs[2]) + (Encode(cs[3]) + Encode(cs[4])));
    assert EncodeAll(cs) == Encode(cs[0]) + (Encode(cs[1]) + (Encode(cs[2]) + (Encode(cs[3]) + Encode(cs[4]))));
    Regrouped([3], [1], [75, 5, 0, 0, 0], [107], [121], Blank());
  }

  lemma Filler()
    ensures LE32(U32 - 1) == [255, 255, 255, 255] && LE32(0) == [0, 0, 0, 0] && LE32(2) == [2, 0, 0, 0]
  {
  }

  function NotedA(): E.Notes { NoNotes().(globals := map["a" := [1]], defs := [IdSize("a", 2)]) }

  function NotedB(): E.Notes {
    NoNotes().(globals := map["a" := [1], "b" := [6]], defs := [IdSize("a", 2), IdSize("b", 1)])
  }

  function NotedC(): E.Notes {
    NoNotes().(globals := map["a" := [1], "b" := [6, 16]], defs := [IdSize("a", 2), IdSize("b", 1)])
  }

  lemma NoteSteps()
    ensures var cs := SlotCmds();
      E.NoteCmd(NoNotes(), cs[0], 0) == NotedA() && E.NoteCmd(NotedA(), cs[1], 5) == NotedB() &&
      E.NoteCmd(NotedB(), cs[2], 10) == NotedB() && E.NoteCmd(NotedB(), cs[3], 15) == NotedC() &&
      E.NoteCmd(NotedC(), cs[4], 20) == NotedC()
  {
    var cs := SlotCmds();
    hide Encode, CmdSize;
    var none: seq<nat> := [];
    var noDefs: seq<IdSize> := [];
    assert none + [1] == [1] && none + [6] == [6] && [6] + [16] == [6, 16];
    assert noDefs + [IdSize("a", 2)] == NotedA().defs && NotedA().defs + [IdSize("b", 1)] == NotedB().defs;
    assert E.NoteCmd(NoNotes(), cs[0], 0) == NotedA();
    assert E.NoteCmd(NotedA(), cs[1], 5) == NotedB();
    assert E.NoteCmd(NotedB(), cs[3], 15) == NotedC();
  }

  lemma NoteFive(n: E.Notes, a: Cmd, b: Cmd, c: Cmd, d: Cmd, e: Cmd)
    requires CmdSize(a) == CmdSize(b) == CmdSize(c) == CmdSize(d) == 5
    ensures E.Note(n, [a, b, c, d, e], 0) ==
      E.NoteCmd(E.NoteCmd(E.NoteCmd(E.NoteCmd(E.NoteCmd(n, a, 0), b, 5), c, 10), d, 15), e, 20)
  {
    hide CmdSize, Encode, E.NoteCmd;
    assert [a, b, c, d, e][1..] == [b, c, d, e] && [b, c, d, e][1..] == [c, d, e] && [c, d, e][1..] == [d, e];
    assert [d, e][1..] == [e] && [e][1..] == [];
    var n1 := E.NoteCmd(n, a, 0);
    var n2 := E.NoteCmd(n1, b, 5);
    var n3 := E.NoteCmd(n2, c, 10);
    var n4 := E.NoteCmd(n3, d, 15);
    assert E.Note(n4, [e], 20) == E.NoteCmd(n4, e, 20);
    assert E.Note(n3, [d, e], 15) == E.Note(n4, [e], 20);
    assert E.Note(n2, [c, d, e], 10) == E.Note(n3, [d, e], 15);
    assert E.Note(n1, [b, c, d, e], 5) == E.Note(n2, [c, d, e], 10);
  }

  lemma SlotNotes()
    ensures E.Note(NoNotes(), SlotCmds(), 0) == NotedC()
  {
    NoteSteps();
    SlotEncoded();
    var cs := SlotCmds();
    hide E.Note, E.NoteCmd, Encode, NotedA, NotedB;
    assert cs == [cs[0], cs[1], cs[2], cs[3], cs[4]];
    NoteFive(NoNotes(), cs[0], cs[1], cs[2], cs[3], cs[4]);
  }

  // The compiled module, byte by byte.
  lemma SlotModuleIs(version: nat)
    ensures IsModule(SlotModule(version), SlotTrees(), [], version)
  {
    SlotGenerated();
    SlotBytes();
    SlotNotes();
    hide GenStmts, EncodeAll, Size, E.Note, SlotCmds, SlotCode;
    assert DeclCmds([]) == [] && AllCmds(SlotTrees(), []) == SlotCmds();
    var m := SlotModule(version);
    assert m.globalRefs[0] == IdAddresses("a", [1]) && m.globalRefs[1] == IdAddresses("b", [6, 16]);
    assert TableOf(map["a" := [1], "b" := [6, 16]], m.globalRefs) && TableOf(map[], []);
  }

  // ----- linking -----

  lemma SlotDeclared()
    ensures D.Declared(SlotBody()) == [IdSize("a", 2), IdSize("b", 1)]
  {
    var ss := SlotBody();
    assert ss[1..][1..] == [ss[2]] && [ss[2]][1..] == [];
    assert D.Declared([]) == [] && D.Declared([ss[2]]) == [];
    assert D.Declared(ss[1..]) == [IdSize("b", 1)];
  }

  lemma SlotsOfTwo()
    ensures var ds := [IdSize("a", 2), IdSize("b", 1)];
      Lk.SlotMap(ds) == map["a" := 0, "b" := 2] && Lk.SlotSum(ds) == 3
  {
    var ds := [IdSize("a", 2), IdSize("b", 1)];
    assert ds[..1] == [IdSize("a", 2)] && [IdSize("a", 2)][..0] == [];
    assert Lk.SlotSum([]) == 0 && Lk.SlotSum(ds[..1]) == 2;
    assert Lk.SlotMap([]) == map[] && Lk.SlotMap(ds[..1]) == map["a" := 0];
  }

  lemma SlotDefs(version: nat)
    ensures var m, ds := SlotModule(version), [IdSize("a", 2), IdSize("b", 1)];
      m.globalDefs == D.Declared(SlotBody()) == ds && Lk.GlobalDefs([m]) == ds &&
      Lk.SlotMap(ds) == map["a" := 0, "b" := 2] && Lk.SlotSum(ds) == 3
  {
    var m := SlotModule(version);
    Lk.FlatOne(Lk.GlobalDefsOf, m);
    SlotDeclared();
    SlotsOfTwo();
    hide Lk.SlotMap, Lk.SlotSum, D.Declared, Lk.Flat, SlotCode;
  }

  lemma PutInside(a: seq<byte>, x: seq<byte>, b: seq<byte>, n: nat)
    requires |x| == 4
    ensures Lk.Put(a + (x + b), |a|, n) == a + (LE32(n) + b)
  {
    var code := a + (x + b);
    assert code[..|a|] == a && code[|a| + 4..] == b;
  }

  lemma PutsA(a: seq<byte>, b: seq<byte>, c: seq<byte>, n: nat)
    requires |a| == 4
    ensures Lk.Put(Coded(a, b, c), 1, n) == Coded(LE32(n), b, c)
  {
    hide Lk.Put, LE32;
    PutInside([3], a, [1] + (b + ([75, 5, 0, 0, 0] + ([107] + (c + [121])))), n);
  }

  lemma PutsB(a: seq<byte>, b: seq<byte>, c: seq<byte>, n: nat)
    requires |a| == |b| == 4
    ensures Lk.Put(Coded(a, b, c), 6, n) == Coded(a, LE32(n), c)
  {
    hide Lk.Put, LE32;
    var front, rest := [3] + a + [1], [75, 5, 0, 0, 0] + ([107] + (c + [121]));
    PutInside(front, b, rest, n);
    Shift([3], a, [1], b + rest);
    Shift([3], a, [1], LE32(n) + rest);
  }

  lemma PutsC(a: seq<byte>, b: seq<byte>, c: seq<byte>, n: nat)
    requires |a| == |b| == |c| == 4
    ensures Lk.Put(Coded(a, b, c), 16, n) == Coded(a, b, LE32(n))
  {
    hide Lk.Put, LE32;
    var mid := b + [75, 5, 0, 0, 0] + [107];
    var front := [3] + a + ([1] + mid);
    PutInside(front, c, [121], n);
    Shift2([3], a, [1], b, [75, 5, 0, 0, 0], [107], c + [121]);
    Shift2([3], a, [1], b, [75, 5, 0, 0, 0], [107], LE32(n) + [121]);
  }

  lemma Shift(a: seq<byte>, b: seq<byte>, c: seq<byte>, d: seq<byte>)
    ensures a + b + c + d == a + (b + (c + d))
  {
  }

  lemma Shift2(a: seq<byte>, b: seq<byte>, c: seq<byte>, d: seq<byte>, e: seq<byte>, f: seq<byte>, g: seq<byte>)
    ensures a + b + (c + (d + e + f)) + g == a + (b + (c + (d + (e + (f + g)))))
  {
    Shift(d, e, f, g);
    Shift(a, b, c + (d + e + f), g);
    assert c + (d + e + f) + g == c + ((d + e + f) + g);
  }

  lemma SlotFilled(slots: map<string, nat>)
    requires slots == map["a" := 0, "b" := 2]
    ensures Lk.Fill(SlotCode(), [IdAddresses("a", [1]), IdAddresses("b", [6, 16])], slots) == SlotExe()
  {
    var refs := [IdAddresses("a", [1]), IdAddresses("b", [6, 16])];
    var x, y := [0, 0, 0, 0], [2, 0, 0, 0];
    Filler();
    PutsA(Blank(), Blank(), Blank(), 0);
    PutsB(x, Blank(), Blank(), 2);
    PutsC(x, y, Blank(), 2);
    hide LE32, Lk.Put, Coded;
    assert refs[..1] == [refs[0]] && refs[..1][..0] == [];
    assert [1][..0] == [] && [6, 16][..1] == [6] && [6][..0] == [];
    var one, two := Coded(x, Blank(), Blank()), Coded(x, y, Blank());
    assert Lk.PutAll(SlotCode(), [1], 0) == one;
    assert Lk.PutAll(one, [6], 2) == two;
    assert Lk.PutAll(one, [6, 16], 2) == SlotExe();
    hide Lk.PutAll;
    assert Lk.Fill(SlotCode(), [], slots) == SlotCode();
    assert Lk.Fill(SlotCode(), refs[..1], slots) == one;
  }

  lemma SlotLinked(version: nat)
    ensures var m := SlotModule(version); Lk.ExeCode([m]) == SlotExe() && |Lk.Mains([m])| == 21
  {
    var m := SlotModule(version);
    SlotDefs(version);
    SoleParts(m);
    var slots := map["a" := 0, "b" := 2];
    SlotFilled(slots);
    hide Lk.Flat, Lk.GlobalDefs, Lk.FuncDefs, Lk.SlotMap, Lk.ExeSpots, SlotCode, SlotExe;
    var fm := Lk.Filled(m, slots, map[]);
    assert Lk.Fill(SlotExe(), [], map[]) == SlotExe();
    assert fm.code == SlotExe();
    assert Lk.AddressMap([]) == map[];
    assert Lk.FillEach([m], slots, map[]) == [fm];
    Lk.FlatOne(Lk.MainOf, fm);
    Lk.FlatOne(Lk.FuncOf, fm);
    assert |SlotExe()| == |SlotCode()| == 21 by { Sizes(); }
    assert SlotExe()[..21] == SlotExe() && SlotExe()[21..] == [];
  }

  lemma Sizes()
    ensures |SlotExe()| == |SlotCode()| == 21
  {
  }

  lemma ModuleParts(version: nat)
    ensures var m := SlotModule(version);
      m.funcRefs == [] && m.nativeRefs == [] && m.funcDefs == [] && m.nativeDefs == []
  {
  }

  lemma ExeParts(m: Module, version: nat, ds: seq<IdSize>)
    requires Lk.GlobalDefs([m]) == ds && Lk.SlotSum(ds) == 3 && Lk.SlotMap(ds) == map["a" := 0, "b" := 2]
    requires Lk.Flat(Lk.NativeRefsOf, Lk.ExeSpots([m])) == [] && R.Table([]) == []
    ensures var e := Lk.ExeOf([m], version);
      e.globalsSize == 3 && LinkOf([m], version).slots == map["a" := 0, "b" := 2] && e.mainSize == |Lk.Mains([m])| &&
      e.code == Lk.ExeCode([m]) && e.nativeRefs == []
  {
    hide Lk.Flat, Lk.ExeCode, R.Table, Lk.GlobalDefs, Lk.SlotSum, Lk.SlotMap, Lk.ExeSpots;
  }

  lemma NoFill(code: seq<byte>)
    ensures forall e: Exe :: e.code == code && e.nativeRefs == [] ==> N.Loaded(e) == code
  {
  }

  lemma ExeBytes()
    ensures SlotExe() == [3, 0, 0, 0, 0, 1, 2, 0, 0, 0, 75, 5, 0, 0, 0, 107, 2, 0, 0, 0, 121]
  {
  }

  // The executable that the machine is loaded with, byte by byte: a has the slots 0 and 1, b has slot 2.
  lemma SlotExecutable(version: nat)
    ensures var m := SlotModule(version);
      var e := Lk.ExeOf([m], version);
      Alone(SlotFile(), Compiled(SlotTrees(), [], version), m) &&
      e.globalsSize == 3 && LinkOf([m], version).slots == map["a" := 0, "b" := 2] && e.mainSize == 21 &&
      N.Loaded(e) == [3, 0, 0, 0, 0, 1, 2, 0, 0, 0, 75, 5, 0, 0, 0, 107, 2, 0, 0, 0, 121]
  {
    hide *;
    var m := SlotModule(version);
    ModuleParts(version);
    SlotDefs(version);
    SlotLinked(version);
    SlotAlone(version);
    SoleParts(m);
    NoEntries();
    ExeParts(m, version, [IdSize("a", 2), IdSize("b", 1)]);
    NoFill(SlotExe());
    ExeBytes();
  }

  lemma SlotFits(version: nat)
    ensures Representable(Compiled(SlotTrees(), [], version)) && AllGenerable(Compiled(SlotTrees(), [], version))
  {
    SlotGenerated();
    SlotBytes();
    hide GenStmts, Size, EncodeAll, Coded, Encode;
    assert DeclCmds([]) == [] && AllCmds(SlotTrees(), []) == SlotCmds();
  }

  lemma SlotAlone(version: nat)
    ensures Alone(SlotFile(), Compiled(SlotTrees(), [], version), SlotModule(version))
  {
    var s, c, m := SlotFile(), Compiled(SlotTrees(), [], version), SlotModule(version);
    SlotAccepted();
    SlotModuleIs(version);
    SlotFits(version);
    SlotDefs(version);
    hide AnalyzeStmts, IsModule, GenStmts, EncodeAll, AllGenerable, Representable, Lk.SlotMap, D.Declared;
    assert Accepted(s, c) && GlobalsOf(s) == View2();
    assert Declares([s], 0, 0, "a") && Declares([s], 0, 1, "b");
    assert Lk.VarIds(m.globalDefs) == ["a", "b"] && R.Ids(m.globalRefs) == ["a", "b"];
    assert m.globalDefs[..0] == [] && Lk.SlotSum([]) == 0;
    assert m.globalDefs[..1] == [IdSize("a", 2)] && [IdSize("a", 2)][..0] == [] && Lk.SlotSum(m.globalDefs[..1]) == 2;
  }

  // A jump's offset is counted from the end of the command, as a signed number: backwards in two's complement.
  lemma JumpBytes()
    ensures Encode(Jump(Direct, Off(300))) == [143, 44, 1, 0, 0]
    ensures Encode(Jump(Direct, Off(-300))) == [143, 212, 254, 255, 255]
    ensures Decode([143, 212, 254, 255, 255], 0) == Some(Jump(Direct, Off(-300)))
  {
    assert LE32(300) == [44, 1, 0, 0] && LE32(ToUnsigned(-300)) == [212, 254, 255, 255];
    var c, b := Jump(Direct, Off(-300)), [143, 212, 254, 255, 255];
    assert CmdSize(c) == 5;
    assert b[0..5] == b;
    DecodeEncode(b, 0, c);
  }

  // A string literal is written behind its length.
  lemma TextBytes()
    ensures Encode(LoadValue(Val(String, [104, 105]))) == [79, 2, 0, 0, 0, 104, 105]
  {
    Filler();
  }
}
