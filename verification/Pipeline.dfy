/** From source to execution: modules that were accepted, generated, linked and loaded run as the source
    program does. */
module Pipeline {
  import opened Bytes
  import opened Language
  import opened Semantics
  import opened Analysis
  import opened Commands
  import opened Codegen
  import opened Machine
  import opened Relation
  import opened Variables
  import opened Scoping
  import opened SelfReading
  import opened Correctness
  import opened Containers
  import References
  import opened Linking
  import LT = LinkTheorems
  import LC = LinkCorrectness
  import N = NativeLinker
  import E = Emission
  import opened Generator
  import F = ModuleFacts
  import A = Acceptance
  import opened Decoding

  // ----- code in place -----

  // From one command to the next, within a segment.
  lemma NextPlace(ms: seq<Module>, cs: seq<Compiled>, k: nat, i: nat)
    requires Generated(ms, cs) && Linkable(ms) && k < |ms| && i < |Cmds(cs[k])|
    requires i + 1 != |GenStmts(cs[k].main)|
    ensures PlaceOf(ms, k, Size(Cmds(cs[k])[..i + 1])) ==
      PlaceOf(ms, k, Size(Cmds(cs[k])[..i])) + CmdSize(Cmds(cs[k])[i])
  {
    hide Size, CmdSize, IsModule, LT.SpotOf, References.Place, Fine, E.NoJumps, LT.AllWellFormed;
    GeneratedFits(ms, cs);
    var m, c := ms[k], cs[k];
    SameSegment(m, c, i);
    F.SizeNext(Cmds(c), i);
    if i + 1 < |Cmds(c)| {
      SameSegment(m, c, i + 1);
    } else {
      LastCmd(m, c, i);
    }
    LT.Placing(ms, k, Size(Cmds(c)[..i]));
    LT.Placing(ms, k, Size(Cmds(c)[..i + 1]));
    hide Mains, Funcs;
  }

  lemma LastCmd(m: Module, c: Compiled, i: nat)
    requires IsModule(m, c.main, c.decls, c.version) && i + 1 == |Cmds(c)| && i + 1 != |GenStmts(c.main)|
    ensures Size(Cmds(c)[..i + 1]) <= |m.code| && Size(Cmds(c)[..i]) >= m.mainSize
  {
    hide Size, CmdSize, E.Note, TableOf, GenStmts, DeclCmds;
    SameSegment(m, c, i);
    F.SizeNext(Cmds(c), i);
    assert Cmds(c) == GenStmts(c.main) + DeclCmds(c.decls);
  }

  // The commands lo to hi of a module stand where they were placed.
  lemma {:induction false} Stand(K: Setup, ms: seq<Module>, cs: seq<Compiled>, version: nat, k: nat, lo: nat, hi: nat,
                                 inFunc: bool)
    requires Generated(ms, cs) && Linkable(ms) && k < |ms| && lo <= hi <= |Cmds(cs[k])|
    requires NativesFit(ms)
    requires K.img.code == N.Loaded(ExeOf(ms, version)) && K.link == LinkOf(ms, version) &&
      K.img.mainSize == |Mains(ms)|
    requires if inFunc then lo >= |GenStmts(cs[k].main)| else hi <= |GenStmts(cs[k].main)|
    ensures At(K, PlaceOf(ms, k, Size(Cmds(cs[k])[..lo])), Cmds(cs[k])[lo..hi], 0, 0, inFunc)
    decreases hi - lo
  {
    hide *;
    SameCount(ms, cs);
    var all, p := Cmds(cs[k]), PlaceOf(ms, k, Size(Cmds(cs[k])[..lo]));
    if lo == hi {
      assert all[lo..hi] == [];
      AtNone(K, p, 0, 0, inFunc);
    } else {
      CmdStands(ms, cs, version, k, lo);
      InMain(ms, cs, k, lo);
      Stand(K, ms, cs, version, k, lo + 1, hi, inFunc);
      assert all[lo..hi][0] == all[lo] && all[lo..hi][1..] == all[lo + 1..hi];
      AtHead(K, p, all[lo..hi], 0, 0, inFunc);
      if lo + 1 == hi {
        assert all[lo + 1..hi] == [];
        AtNone(K, p + CmdSize(all[lo]), 0, 0, inFunc);
      } else {
        NextPlace(ms, cs, k, lo);
      }
    }
  }

  // A command of the main segment is placed below the end of all main segments.
  lemma InMain(ms: seq<Module>, cs: seq<Compiled>, k: nat, i: nat)
    requires Generated(ms, cs) && Linkable(ms) && k < |ms| && i < |Cmds(cs[k])|
    ensures i < |GenStmts(cs[k].main)| ==> PlaceOf(ms, k, Size(Cmds(cs[k])[..i])) < |Mains(ms)|
  {
    hide Size, CmdSize, IsModule, References.Place, LT.SpotOf, Fine, E.NoJumps, LT.AllWellFormed;
    GeneratedFits(ms, cs);
    SameSegment(ms[k], cs[k], i);
    LT.Placing(ms, k, Size(Cmds(cs[k])[..i]));
    LT.SpotFacts(ms, k);
    hide Mains, Funcs;
  }

  lemma {:induction false} AtJoin(K: Setup, pc: nat, a: seq<Cmd>, b: seq<Cmd>, cont: int, brk: int, inFunc: bool)
    requires At(K, pc, a, cont, brk, inFunc) && At(K, pc + Size(a), b, cont, brk, inFunc)
    ensures At(K, pc, a + b, cont, brk, inFunc)
    decreases |a|
  {
    hide *;
    SizeHead(a);
    if a == [] {
      assert a + b == b;
    } else {
      assert (a + b)[1..] == a[1..] + b && (a + b)[0] == a[0];
      AtHead(K, pc, a, cont, brk, inFunc);
      AtHead(K, pc, a + b, cont, brk, inFunc);
      AtJoin(K, pc + CmdSize(a[0]), a[1..], b, cont, brk, inFunc);
    }
  }

  // ----- top-level statements -----

  // The main segment's code from the k-th module on.
  lemma {:induction false} MainsStand(K: Setup, ms: seq<Module>, cs: seq<Compiled>, version: nat, us: seq<Unit>, k: nat)
    requires Generated(ms, cs) && Linkable(ms) && |us| == |ms| && k <= |ms|
    requires forall i :: 0 <= i < |us| ==> us[i].code == cs[i].main
    requires NativesFit(ms)
    requires K.img.code == N.Loaded(ExeOf(ms, version)) && K.link == LinkOf(ms, version) &&
      K.img.mainSize == |Mains(ms)|
    ensures At(K, |Mains(ms[..k])|, MainCode(us[k..]), 0, 0, false)
    ensures |Mains(ms[..k])| + Size(MainCode(us[k..])) == |Mains(ms)|
    decreases |ms| - k
  {
    hide At, Size, GenStmts, Generated, Linkable, Mains, N.Loaded, ExeOf, LinkOf, NativesFit;
    if k == |ms| {
      assert us[k..] == [] && ms[..k] == ms;
      AtNone(K, |Mains(ms)|, 0, 0, false);
      LandsNothing();
    } else {
      SameCount(ms, cs);
      var code, rest := GenStmts(cs[k].main), MainCode(us[k + 1..]);
      assert us[k..][0] == us[k] && us[k..][1..] == us[k + 1..];
      MainsStand(K, ms, cs, version, us, k + 1);
      MainStands(K, ms, cs, version, k);
      SizeAppend(code, rest);
      AtJoin(K, |Mains(ms[..k])|, code, rest, 0, 0, false);
    }
  }

  lemma LandsNothing()
    ensures Size([]) == 0
  {
  }

  lemma MainStands(K: Setup, ms: seq<Module>, cs: seq<Compiled>, version: nat, k: nat)
    requires Generated(ms, cs) && Linkable(ms) && k < |ms|
    requires NativesFit(ms)
    requires K.img.code == N.Loaded(ExeOf(ms, version)) && K.link == LinkOf(ms, version) &&
      K.img.mainSize == |Mains(ms)|
    ensures At(K, |Mains(ms[..k])|, GenStmts(cs[k].main), 0, 0, false)
    ensures |Mains(ms[..k + 1])| == |Mains(ms[..k])| + Size(GenStmts(cs[k].main))
  {
    hide *;
    SameCount(ms, cs);
    var n := |GenStmts(cs[k].main)|;
    MainSlice(cs[k]);
    Stand(K, ms, cs, version, k, 0, n, false);
    MainStart(ms, cs, k);
    if n == 0 {
      AtNone(K, |Mains(ms[..k])|, 0, 0, false);
    }
  }

  lemma MainSlice(c: Compiled)
    ensures var n := |GenStmts(c.main)|; n <= |Cmds(c)| && Cmds(c)[0..n] == GenStmts(c.main)
  {
    hide GenStmts, DeclCmds;
  }

  lemma MainStart(ms: seq<Module>, cs: seq<Compiled>, k: nat)
    requires Generated(ms, cs) && Linkable(ms) && k < |ms|
    ensures GenStmts(cs[k].main) != [] ==> PlaceOf(ms, k, Size(Cmds(cs[k])[..0])) == |Mains(ms[..k])|
    ensures |Mains(ms[..k + 1])| == |Mains(ms[..k])| + Size(GenStmts(cs[k].main))
  {
    hide CmdSize, References.Place, LT.SpotOf, Fine, E.NoJumps, LT.AllWellFormed, GenStmts, DeclCmds, EncodeAll,
      E.Note, TableOf;
    GeneratedFits(ms, cs);
    assert Size(Cmds(cs[k])[..0]) == 0;
    if GenStmts(cs[k].main) != [] {
      SameSegment(ms[k], cs[k], 0);
    }
    LT.Placing(ms, k, 0);
    SizesUpTo(ms, k);
  }

  lemma SizesUpTo(ms: seq<Module>, k: nat)
    requires LT.AllWellFormed(ms) && k < |ms|
    ensures |Mains(ms[..k + 1])| == |Mains(ms[..k])| + ms[k].mainSize
  {
    assert WellFormed(ms[k]);
    assert ms[..k + 1][..k] == ms[..k];
  }

  // ----- functions -----

  // Where the j-th declaration's code is among the commands of all declarations.
  lemma {:induction false} DeclAt(ds: seq<Decl>, pos: nat, j: nat) returns (i: nat)
    requires j < |ds| && ds[j].FuncDecl?
    ensures i < |DeclDefs(ds, pos)| && DeclDefs(ds, pos)[i] == IdAddress(ds[j].name, pos + Size(DeclCmds(ds[..j])))
    ensures DeclCmds(ds) == DeclCmds(ds[..j]) + (GenFunc(ds[j].f) + DeclCmds(ds[j + 1..]))
    decreases j
  {
    hide *;
    DeclsShape(ds, pos);
    DeclsNone(pos);
    LandsNothing();
    if j == 0 {
      i := 0;
      assert ds[..0] == [];
      assert [] + DeclCmds(ds) == DeclCmds(ds);
    } else {
      var rest := ds[1..];
      assert rest[j - 1] == ds[j] && rest[j..] == ds[j + 1..];
      assert ds[..j][0] == ds[0] && ds[..j][1..] == rest[..j - 1];
      DeclsShape(ds[..j], pos);
      match ds[0] {
        case FuncDecl(_, f) =>
          i := DeclAt(rest, pos + Size(GenFunc(f)), j - 1);
          i := i + 1;
          SizeAppend(GenFunc(f), DeclCmds(rest[..j - 1]));
          assert GenFunc(f) + (DeclCmds(rest[..j - 1]) + (GenFunc(ds[j].f) + DeclCmds(ds[j + 1..]))) ==
            GenFunc(f) + DeclCmds(rest[..j - 1]) + (GenFunc(ds[j].f) + DeclCmds(ds[j + 1..]));
        case NativeDecl(_) =>
          i := DeclAt(rest, pos, j - 1);
      }
    }
  }

  // A function's code stands at the address its name is linked to.
  lemma FuncStands(K: Setup, ms: seq<Module>, cs: seq<Compiled>, version: nat, k: nat, j: nat)
    requires Generated(ms, cs) && Linkable(ms) && k < |ms| && j < |cs[k].decls| && cs[k].decls[j].FuncDecl?
    requires NativesFit(ms)
    requires K.img.code == N.Loaded(ExeOf(ms, version)) && K.link == LinkOf(ms, version) &&
      K.img.mainSize == |Mains(ms)|
    ensures var name := cs[k].decls[j].name;
      name in K.link.funcs && At(K, K.link.funcs[name], GenFunc(cs[k].decls[j].f), 0, 0, true)
  {
    hide *;
    GeneratedFits(ms, cs);
    SameCount(ms, cs);
    var c := cs[k];
    var i := FuncEntry(ms, cs, k, j);
    LinksJoin(ms);
    LC.FuncAddress(ms, k, i);
    LinkFuncs(ms, version);
    PlaceIs(ms, k);
    var lo, hi := FuncSlice(c, j);
    Stand(K, ms, cs, version, k, lo, hi, true);
  }

  lemma PlaceIs(ms: seq<Module>, k: nat)
    requires k < |ms|
    ensures forall q :: PlaceOf(ms, k, q) == References.Place(q, LT.SpotOf(ms, k))
  {
  }

  lemma SameCount(ms: seq<Module>, cs: seq<Compiled>)
    requires Generated(ms, cs)
    ensures |ms| == |cs|
  {
  }

  lemma LinksJoin(ms: seq<Module>)
    requires Linkable(ms)
    ensures Joinable(ms)
  {
  }

  lemma LinkFuncs(ms: seq<Module>, version: nat)
    ensures LinkOf(ms, version).funcs == AddressMap(FuncDefs(ms))
  {
  }

  // The declaration's entry in the module's table.
  lemma FuncEntry(ms: seq<Module>, cs: seq<Compiled>, k: nat, j: nat) returns (i: nat)
    requires Generated(ms, cs) && k < |ms| && j < |cs[k].decls| && cs[k].decls[j].FuncDecl?
    ensures i < |ms[k].funcDefs|
    ensures ms[k].funcDefs[i] ==
      IdAddress(cs[k].decls[j].name, Size(GenStmts(cs[k].main)) + Size(DeclCmds(cs[k].decls[..j])))
  {
    hide Size, GenStmts, DeclCmds, EncodeAll, E.Note, TableOf, Fine, E.NoJumps;
    i := DeclAt(cs[k].decls, ms[k].mainSize, j);
  }

  lemma FuncSlice(c: Compiled, j: nat) returns (lo: nat, hi: nat)
    requires j < |c.decls| && c.decls[j].FuncDecl?
    ensures |GenStmts(c.main)| <= lo <= hi <= |Cmds(c)| && Cmds(c)[lo..hi] == GenFunc(c.decls[j].f)
    ensures Size(Cmds(c)[..lo]) == Size(GenStmts(c.main)) + Size(DeclCmds(c.decls[..j]))
  {
    hide Size, GenStmts, DeclCmds, GenFunc;
    var _ := DeclAt(c.decls, 0, j);
    var main, before, f := GenStmts(c.main), DeclCmds(c.decls[..j]), GenFunc(c.decls[j].f);
    lo, hi := |main| + |before|, |main| + |before| + |f|;
    assert Cmds(c) == main + (before + (f + DeclCmds(c.decls[j + 1..])));
    assert Cmds(c)[..lo] == main + before;
    SizeAppend(main, before);
  }
}
