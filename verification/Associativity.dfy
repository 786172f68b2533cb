/** Linking is associative: making a library of some of the modules first changes nothing. */
module Associativity {
  import opened Bytes
  import opened Containers
  import opened References
  import opened Linking
  import opened Filling
  import opened LinkTheorems

  // ----- where the library's modules end up -----

  // Moving an address with the module into the library, then with the library, is moving it there at
  // once.
  lemma PlaceTwice(b: seq<Module>, k: nat, a: nat, mainAt: nat, funcAt: nat)
    requires AllWellFormed(b) && k < |b| && a <= |b[k].code|
    requires mainAt + |Mains(b)| <= funcAt && funcAt + |Funcs(b)| < U32
    ensures Place(Place(a, SpotOf(b, k)), Spot(|Mains(b)|, mainAt, funcAt)) == Place(a, LayOut(b, mainAt, funcAt)[k].at)
  {
    SpotFacts(b, k);
    Placing(b, k, a);
    hide Mains, Funcs;
  }

  lemma RefsTwice(b: seq<Module>, k: nat, refs: seq<IdAddresses>, mainAt: nat, funcAt: nat)
    requires AllWellFormed(b) && k < |b| && RefsFit(b[k], refs)
    requires mainAt + |Mains(b)| <= funcAt && funcAt + |Funcs(b)| < U32
    ensures Moved(Moved(refs, SpotOf(b, k)), Spot(|Mains(b)|, mainAt, funcAt)) ==
      Moved(refs, LayOut(b, mainAt, funcAt)[k].at)
  {
    hide Place, Mains, Funcs, SpotOf, LayOut;
    assert WellFormed(b[k]);
    hide WellFormed;
    var p, q := Moved(Moved(refs, SpotOf(b, k)), Spot(|Mains(b)|, mainAt, funcAt)),
      Moved(refs, LayOut(b, mainAt, funcAt)[k].at);
    forall i, j | 0 <= i < |refs| && 0 <= j < |refs[i].addresses|
      ensures p[i].addresses[j] == q[i].addresses[j]
    {
      assert refs[i].addresses[j] in refs[i].addresses;
      assert IsRef(refs, refs[i].addresses[j]);
      PlaceTwice(b, k, refs[i].addresses[j], mainAt, funcAt);
    }
    assert forall i :: 0 <= i < |refs| ==> p[i] == q[i];
  }

  lemma MovedAppend(a: seq<IdAddresses>, b: seq<IdAddresses>, at: Spot)
    ensures Moved(a + b, at) == Moved(a, at) + Moved(b, at)
  {
  }

  lemma {:induction false} FlatMoved(f: Placed -> seq<IdAddresses>, ps: seq<Placed>, qs: seq<Placed>, at: Spot)
    requires |ps| == |qs| && forall i :: 0 <= i < |ps| ==> f(qs[i]) == Moved(f(ps[i]), at)
    ensures Flat(f, qs) == Moved(Flat(f, ps), at)
    decreases |ps|
  {
    hide Moved;
    if ps == [] {
      assert Moved([], at) == [];
    } else {
      var n := |ps| - 1;
      FlatMoved(f, ps[..n], qs[..n], at);
      MovedAppend(Flat(f, ps[..n]), f(ps[n]), at);
    }
  }

  // All references of a library, moved with it.
  lemma RefsInside(b: seq<Module>, f: Placed -> seq<IdAddresses>, g: Module -> seq<IdAddresses>, mainAt: nat,
                   funcAt: nat)
    requires AllWellFormed(b) && Places(f, g)
    requires g == GlobalRefsIn || g == FuncRefsIn || g == NativeRefsIn
    requires mainAt + |Mains(b)| <= funcAt && funcAt + |Funcs(b)| < U32
    ensures Flat(f, LayOut(b, mainAt, funcAt)) == Moved(Flat(f, ExeSpots(b)), Spot(|Mains(b)|, mainAt, funcAt))
  {
    hide Moved, Mains, Funcs, RefsFit;
    var ps, qs, at := ExeSpots(b), LayOut(b, mainAt, funcAt), Spot(|Mains(b)|, mainAt, funcAt);
    forall k | 0 <= k < |b|
      ensures f(qs[k]) == Moved(f(ps[k]), at)
    {
      KindFits(b[k], g);
      RefsTwice(b, k, g(b[k]), mainAt, funcAt);
    }
    FlatMoved(f, ps, qs, at);
  }

  lemma DefsTwice(b: seq<Module>, k: nat, mainAt: nat, funcAt: nat)
    requires AllWellFormed(b) && k < |b|
    requires mainAt + |Mains(b)| <= funcAt && funcAt + |Funcs(b)| < U32
    ensures MovedDefs(FuncDefsOf(ExeSpots(b)[k]), Spot(|Mains(b)|, mainAt, funcAt)) ==
      FuncDefsOf(LayOut(b, mainAt, funcAt)[k])
  {
    hide Place, Mains, Funcs;
    assert WellFormed(b[k]);
    hide WellFormed;
    var ds := b[k].funcDefs;
    forall i | 0 <= i < |ds|
      ensures Place(Place(ds[i].address, SpotOf(b, k)), Spot(|Mains(b)|, mainAt, funcAt))
        == Place(ds[i].address, LayOut(b, mainAt, funcAt)[k].at)
    {
      PlaceTwice(b, k, ds[i].address, mainAt, funcAt);
    }
  }

  lemma {:induction false} FlatMovedDefs(ps: seq<Placed>, qs: seq<Placed>, at: Spot)
    requires |ps| == |qs| && forall i :: 0 <= i < |ps| ==> FuncDefsOf(qs[i]) == MovedDefs(FuncDefsOf(ps[i]), at)
    ensures Flat(FuncDefsOf, qs) == MovedDefs(Flat(FuncDefsOf, ps), at)
    decreases |ps|
  {
    hide FuncDefsOf, Place;
    if ps != [] {
      var n := |ps| - 1;
      FlatMovedDefs(ps[..n], qs[..n], at);
    }
  }

  lemma DefsInside(b: seq<Module>, mainAt: nat, funcAt: nat)
    requires AllWellFormed(b)
    requires mainAt + |Mains(b)| <= funcAt && funcAt + |Funcs(b)| < U32
    ensures Flat(FuncDefsOf, LayOut(b, mainAt, funcAt)) == MovedDefs(FuncDefs(b), Spot(|Mains(b)|, mainAt, funcAt))
  {
    hide Mains, Funcs, MovedDefs, FuncDefsOf;
    var ps, qs, at := ExeSpots(b), LayOut(b, mainAt, funcAt), Spot(|Mains(b)|, mainAt, funcAt);
    forall k | 0 <= k < |b|
      ensures FuncDefsOf(qs[k]) == MovedDefs(FuncDefsOf(ps[k]), at)
    {
      DefsTwice(b, k, mainAt, funcAt);
    }
    FlatMovedDefs(ps, qs, at);
  }

  // ----- the two module lists -----

  function Direct(a: seq<Module>, b: seq<Module>, c: seq<Module>): seq<Module> { a + b + c }

  function Through(a: seq<Module>, b: seq<Module>, c: seq<Module>, v: nat): seq<Module> { a + [LibOf(b, v)] + c }

  lemma FlatThree<A, B>(f: A -> seq<B>, a: seq<A>, b: seq<A>, c: seq<A>)
    ensures Flat(f, a + b + c) == Flat(f, a) + Flat(f, b) + Flat(f, c)
  {
    FlatAppend(f, a + b, c);
    FlatAppend(f, a, b);
  }

  lemma SameContents(a: seq<Module>, b: seq<Module>, c: seq<Module>, v: nat)
    ensures var ms, ns := Direct(a, b, c), Through(a, b, c, v);
      Mains(ms) == Mains(ns) && Funcs(ms) == Funcs(ns) && GlobalDefs(ms) == GlobalDefs(ns) &&
        NativeDefs(ms) == NativeDefs(ns)
    ensures var ms := Direct(a, b, c);
      |Mains(ms)| == |Mains(a)| + |Mains(b)| + |Mains(c)| && |Funcs(ms)| == |Funcs(a)| + |Funcs(b)| + |Funcs(c)|
    ensures GlobalDefs(Direct(a, b, c)) == GlobalDefs(a) + GlobalDefs(b) + GlobalDefs(c)
    ensures NativeDefs(Direct(a, b, c)) == NativeDefs(a) + NativeDefs(b) + NativeDefs(c)
  {
    var lib := LibOf(b, v);
    FlatThree(MainOf, a, b, c);
    FlatThree(MainOf, a, [lib], c);
    FlatOne(MainOf, lib);
    FlatThree(FuncOf, a, b, c);
    FlatThree(FuncOf, a, [lib], c);
    FlatOne(FuncOf, lib);
    FlatThree(GlobalDefsOf, a, b, c);
    FlatThree(GlobalDefsOf, a, [lib], c);
    FlatOne(GlobalDefsOf, lib);
    FlatThree(NativeDefsOf, a, b, c);
    FlatThree(NativeDefsOf, a, [lib], c);
    FlatOne(NativeDefsOf, lib);
    LibParts(b, v);
  }

  lemma LibParts(b: seq<Module>, v: nat)
    ensures var lib := LibOf(b, v);
      MainOf(lib) == Mains(b) && FuncOf(lib) == Funcs(b) && lib.mainSize == |Mains(b)| <= |lib.code|
  {
    hide Mains, Funcs, Table;
  }

  // Where the library goes.
  function LibSpot(a: seq<Module>, b: seq<Module>, c: seq<Module>): Spot {
    Spot(|Mains(b)|, |Mains(a)|, |Mains(Direct(a, b, c))| + |Funcs(a)|)
  }

  // The layouts differ in the middle only.
  lemma SameLayout(a: seq<Module>, b: seq<Module>, c: seq<Module>, v: nat)
    ensures var ms, at := Direct(a, b, c), LibSpot(a, b, c);
      var pa := LayOut(a, 0, |Mains(ms)|);
      var pc := LayOut(c, |Mains(a)| + |Mains(b)|, |Mains(ms)| + |Funcs(a)| + |Funcs(b)|);
      ExeSpots(ms) == pa + LayOut(b, at.mainAt, at.funcAt) + pc &&
      ExeSpots(Through(a, b, c, v)) == pa + [Placed(LibOf(b, v), at)] + pc
  {
    var lib, M := LibOf(b, v), |Mains(Direct(a, b, c))|;
    SameContents(a, b, c, v);
    LibSizes(b, v);
    hide Mains, Funcs, LayOut, LibOf;
    LayOutThree(a, b, c, M);
    LayOutThree(a, [lib], c, M);
    LayOutOne(lib, |Mains(a)|, M + |Funcs(a)|);
  }

  lemma LibSizes(b: seq<Module>, v: nat)
    ensures var lib := LibOf(b, v);
      |Mains([lib])| == |Mains(b)| && |Funcs([lib])| == |Funcs(b)| && lib.mainSize == |Mains(b)|
  {
    LibParts(b, v);
    FlatOne(MainOf, LibOf(b, v));
    FlatOne(FuncOf, LibOf(b, v));
  }

  lemma LayOutThree(a: seq<Module>, l: seq<Module>, c: seq<Module>, M: nat)
    ensures LayOut(a + l + c, 0, M) == LayOut(a, 0, M) + LayOut(l, |Mains(a)|, M + |Funcs(a)|)
      + LayOut(c, |Mains(a)| + |Mains(l)|, M + |Funcs(a)| + |Funcs(l)|)
  {
    hide Mains, Funcs, LayOut;
    SizesAppend(a, l);
    LayOutAppend(a + l, c, 0, M);
    LayOutAppend(a, l, 0, M);
  }

  lemma RoomInside(a: seq<Module>, b: seq<Module>, c: seq<Module>)
    requires |Mains(Direct(a, b, c))| + |Funcs(Direct(a, b, c))| < U32
    ensures var at := LibSpot(a, b, c); at.mainAt + |Mains(b)| <= at.funcAt && at.funcAt + |Funcs(b)| < U32
    ensures |Whole(b)| < U32
  {
    SameContents(a, b, c, 0);
    hide Mains, Funcs;
  }

  // Both ways the references of b, moved to the same place, stand between those of a and of c.
  lemma RefsThree(a: seq<Module>, b: seq<Module>, c: seq<Module>, v: nat, f: Placed -> seq<IdAddresses>,
                  g: Module -> seq<IdAddresses>)
      returns (x: seq<IdAddresses>, z: seq<IdAddresses>)
    requires AllWellFormed(b) && Places(f, g) && g(LibOf(b, v)) == Table(Flat(f, ExeSpots(b)))
    requires g == GlobalRefsIn || g == FuncRefsIn || g == NativeRefsIn
    requires |Mains(Direct(a, b, c))| + |Funcs(Direct(a, b, c))| < U32
    ensures var at, inner := LibSpot(a, b, c), Flat(f, ExeSpots(b));
      Flat(f, ExeSpots(Direct(a, b, c))) == x + Moved(inner, at) + z &&
      Flat(f, ExeSpots(Through(a, b, c, v))) == x + Moved(Table(inner), at) + z
  {
    hide Mains, Funcs, LayOut, Table, Moved;
    var ms, at := Direct(a, b, c), LibSpot(a, b, c);
    var pa := LayOut(a, 0, |Mains(ms)|);
    var pc := LayOut(c, |Mains(a)| + |Mains(b)|, |Mains(ms)| + |Funcs(a)| + |Funcs(b)|);
    var lib, pb := LibOf(b, v), LayOut(b, at.mainAt, at.funcAt);
    SameLayout(a, b, c, v);
    RoomInside(a, b, c);
    RefsInside(b, f, g, at.mainAt, at.funcAt);
    hide ExeSpots, Flat, Direct, Through;
    FlatThree(f, pa, pb, pc);
    FlatThree(f, pa, [Placed(lib, at)], pc);
    FlatOne(f, Placed(lib, at));
    x, z := Flat(f, pa), Flat(f, pc);
  }

  // A kind of references, over both lists: they differ by the library's merging and sorting.
  lemma SameRefs(a: seq<Module>, b: seq<Module>, c: seq<Module>, v: nat, f: Placed -> seq<IdAddresses>,
                 g: Module -> seq<IdAddresses>)
    requires AllWellFormed(b) && Places(f, g) && g(LibOf(b, v)) == Table(Flat(f, ExeSpots(b)))
    requires g == GlobalRefsIn || g == FuncRefsIn || g == NativeRefsIn
    requires |Mains(Direct(a, b, c))| + |Funcs(Direct(a, b, c))| < U32
    ensures var x, y := Flat(f, ExeSpots(Direct(a, b, c))), Flat(f, ExeSpots(Through(a, b, c, v)));
      Table(x) == Table(y) && forall id :: id in Ids(x) <==> id in Ids(y)
  {
    hide *;
    var x, z := RefsThree(a, b, c, v, f, g);
    TableInside(x, Flat(f, ExeSpots(b)), z, LibSpot(a, b, c));
    SameIds(x, Flat(f, ExeSpots(b)), z, LibSpot(a, b, c));
  }

  lemma SameIds(x: seq<IdAddresses>, y: seq<IdAddresses>, z: seq<IdAddresses>, at: Spot)
    ensures forall id :: id in Ids(x + Moved(Table(y), at) + z) <==> id in Ids(x + Moved(y, at) + z)
  {
    IdsOf(x, Moved(Table(y), at), at);
    IdsOf(x, Moved(y, at), at);
    IdsOf(x + Moved(Table(y), at), z, at);
    IdsOf(x + Moved(y, at), z, at);
    IdsOf(Table(y), [], at);
    IdsOf(Merged(y), [], at);
    IdsOf(y, [], at);
    FirstsFacts(Ids(y));
  }

  // Both ways the functions of b are defined between those of a and of c, moved to the same place.
  lemma DefsThree(a: seq<Module>, b: seq<Module>, c: seq<Module>, v: nat) returns (x: seq<IdAddress>, z: seq<IdAddress>)
    requires AllWellFormed(b)
    requires |Mains(Direct(a, b, c))| + |Funcs(Direct(a, b, c))| < U32
    ensures FuncDefs(Direct(a, b, c)) == x + MovedDefs(FuncDefs(b), LibSpot(a, b, c)) + z
    ensures FuncDefs(Through(a, b, c, v)) == x + MovedDefs(FuncDefs(b), LibSpot(a, b, c)) + z
  {
    hide *;
    var ms, at := Direct(a, b, c), LibSpot(a, b, c);
    var pa, pc := LayOut(a, 0, |Mains(ms)|), LayOut(c, |Mains(a)| + |Mains(b)|, |Mains(ms)| + |Funcs(a)| + |Funcs(b)|);
    var lib := LibOf(b, v);
    SameLayout(a, b, c, v);
    RoomInside(a, b, c);
    DefsInside(b, at.mainAt, at.funcAt);
    LibDefs(a, b, c, v);
    FlatThree(FuncDefsOf, pa, LayOut(b, at.mainAt, at.funcAt), pc);
    FlatThree(FuncDefsOf, pa, [Placed(lib, at)], pc);
    FlatOne(FuncDefsOf, Placed(lib, at));
    DefsFlat(Direct(a, b, c));
    DefsFlat(Through(a, b, c, v));
    x, z := Flat(FuncDefsOf, pa), Flat(FuncDefsOf, pc);
  }

  lemma DefsFlat(ms: seq<Module>)
    ensures FuncDefs(ms) == Flat(FuncDefsOf, ExeSpots(ms))
  {
    hide Flat, ExeSpots;
  }

  lemma LibDefs(a: seq<Module>, b: seq<Module>, c: seq<Module>, v: nat)
    ensures FuncDefsOf(Placed(LibOf(b, v), LibSpot(a, b, c))) == MovedDefs(FuncDefs(b), LibSpot(a, b, c))
    ensures LibSpot(a, b, c) == Spot(|Mains(b)|, LibSpot(a, b, c).mainAt, LibSpot(a, b, c).funcAt)
  {
    hide Mains, Funcs, MovedDefs, FuncDefs, Direct;
  }

  lemma IdsOfThree(x: seq<IdAddress>, ds: seq<IdAddress>, at: Spot, z: seq<IdAddress>)
    ensures DefIds(x + MovedDefs(ds, at) + z) == DefIds(x) + DefIds(ds) + DefIds(z)
  {
    hide Place;
  }

  lemma SameDefs(a: seq<Module>, b: seq<Module>, c: seq<Module>, v: nat)
    requires AllWellFormed(b)
    requires |Mains(Direct(a, b, c))| + |Funcs(Direct(a, b, c))| < U32
    ensures FuncDefs(Direct(a, b, c)) == FuncDefs(Through(a, b, c, v))
    ensures exists x, z :: DefIds(FuncDefs(Direct(a, b, c))) == x + DefIds(FuncDefs(b)) + z
  {
    hide *;
    var x, z := DefsThree(a, b, c, v);
    IdsOfThree(x, FuncDefs(b), LibSpot(a, b, c), z);
    assert DefIds(FuncDefs(Direct(a, b, c))) == DefIds(x) + DefIds(FuncDefs(b)) + DefIds(z);
  }

  lemma DistinctPart(x: seq<string>, y: seq<string>, z: seq<string>)
    requires Distinct(x + y + z)
    ensures Distinct(y)
  {
    var s := x + y + z;
    forall i, j | 0 <= i < j < |y|
      ensures y[i] != y[j]
    {
      assert s[|x| + i] == y[i] && s[|x| + j] == y[j];
    }
  }

  lemma VarIdsThree(x: seq<IdSize>, y: seq<IdSize>, z: seq<IdSize>)
    ensures VarIds(x + y + z) == VarIds(x) + VarIds(y) + VarIds(z)
  {
  }

  lemma SameJoinable(a: seq<Module>, b: seq<Module>, c: seq<Module>, v: nat)
    requires AllWellFormed(b)
    ensures Joinable(Direct(a, b, c)) <==> Joinable(b) && Joinable(Through(a, b, c, v))
  {
    hide Mains, Funcs, LayOut, Table, Through, Direct, ExeSpots, Distinct, VarIds, DefIds, LibOf, GlobalDefs,
      NativeDefs, FuncDefs;
    var ms, ns := Direct(a, b, c), Through(a, b, c, v);
    SameContents(a, b, c, v);
    if |Mains(ms)| + |Funcs(ms)| < U32 {
      SameDefs(a, b, c, v);
      VarIdsThree(GlobalDefs(a), GlobalDefs(b), GlobalDefs(c));
      if Joinable(ms) {
        var x, z :| DefIds(FuncDefs(ms)) == x + DefIds(FuncDefs(b)) + z;
        DistinctPart(x, DefIds(FuncDefs(b)), z);
        DistinctPart(VarIds(GlobalDefs(a)), VarIds(GlobalDefs(b)), VarIds(GlobalDefs(c)));
        DistinctPart(NativeDefs(a), NativeDefs(b), NativeDefs(c));
      }
    }
  }

  lemma LibTables(b: seq<Module>, v: nat)
    ensures var lib := LibOf(b, v);
      GlobalRefsIn(lib) == Table(Flat(GlobalRefsOf, ExeSpots(b))) &&
      FuncRefsIn(lib) == Table(Flat(FuncRefsOf, ExeSpots(b))) &&
      NativeRefsIn(lib) == Table(Flat(NativeRefsOf, ExeSpots(b)))
  {
  }

  lemma SameKnown(x: seq<IdAddresses>, y: seq<IdAddresses>, ids: seq<string>)
    requires forall id :: id in Ids(x) <==> id in Ids(y)
    ensures AllKnown(x, ids) <==> AllKnown(y, ids)
  {
  }

  // ----- code -----

  lemma FillEachThree(a: seq<Module>, b: seq<Module>, c: seq<Module>, slots: map<string, nat>, funcs: map<string, nat>)
    ensures FillEach(a + b + c, slots, funcs) ==
      FillEach(a, slots, funcs) + FillEach(b, slots, funcs) + FillEach(c, slots, funcs)
  {
    hide Filled;
  }

  lemma LibFilled(b: seq<Module>, v: nat, slots: map<string, nat>, funcs: map<string, nat>)
    requires AllWellFormed(b) && Joinable(b)
    ensures var lib := Filled(LibOf(b, v), slots, funcs);
      MainOf(lib) == Mains(FillEach(b, slots, funcs)) && FuncOf(lib) == Funcs(FillEach(b, slots, funcs))
  {
    var lib, fs := LibOf(b, v), FillEach(b, slots, funcs);
    LibWellFormed(b, v);
    FilledBytes(lib, slots, funcs);
    JoinFilled(b, slots, funcs);
    LibTables(b, v);
    SpacedRefs(lib);
    hide IsFilled, WellFormed, Table, ExeSpots, Fill, RefsFit;
    FilledOnce(lib.code, Filled(lib, slots, funcs).code, Whole(fs), lib.globalRefs, slots, lib.funcRefs, funcs);
    FilledSizes(b, slots, funcs, |b|);
    assert b[..|b|] == b && fs[..|b|] == fs;
    hide Mains, Funcs;
  }

  lemma SameCode(a: seq<Module>, b: seq<Module>, c: seq<Module>, v: nat, slots: map<string, nat>,
                 funcs: map<string, nat>)
    requires AllWellFormed(b) && Joinable(b)
    ensures Whole(FillEach(Direct(a, b, c), slots, funcs)) == Whole(FillEach(Through(a, b, c, v), slots, funcs))
  {
    hide LibOf, Filled, AllWellFormed, Joinable;
    var lib := LibOf(b, v);
    var fa, fb, fc := FillEach(a, slots, funcs), FillEach(b, slots, funcs), FillEach(c, slots, funcs);
    FillEachThree(a, b, c, slots, funcs);
    FillEachThree(a, [lib], c, slots, funcs);
    LibFilled(b, v, slots, funcs);
    var fl := FillEach([lib], slots, funcs);
    assert fl == [Filled(lib, slots, funcs)];
    FlatThree(MainOf, fa, fb, fc);
    FlatThree(MainOf, fa, fl, fc);
    FlatOne(MainOf, fl[0]);
    FlatThree(FuncOf, fa, fb, fc);
    FlatThree(FuncOf, fa, fl, fc);
    FlatOne(FuncOf, fl[0]);
    hide MainOf, FuncOf, Flat;
  }

  // ----- the theorems -----

  // An executable of a ++ b ++ c exists exactly when the library of b and the executable through it do,
  // and then the two executables are the same.
  lemma ExeAssociative(a: seq<Module>, b: seq<Module>, c: seq<Module>, v: nat, version: nat)
    requires AllWellFormed(b)
    ensures Linkable(a + b + c) <==> Joinable(b) && Linkable(a + [LibOf(b, v)] + c)
    ensures Linkable(a + b + c) ==> ExeOf(a + b + c, version) == ExeOf(a + [LibOf(b, v)] + c, version)
  {
    hide Mains, Funcs, LayOut, Table, ExeSpots, LibOf, GlobalDefs, NativeDefs, FuncDefs, Joinable, SlotsCount, AllKnown,
      AllWellFormed, FillEach, VarIds, DefIds;
    var ms, ns := Direct(a, b, c), Through(a, b, c, v);
    SameJoinable(a, b, c, v);
    SameContents(a, b, c, v);
    if Joinable(ms) {
      assert |Mains(ms)| + |Funcs(ms)| < U32 by { Small(ms); }
      KindsPlace();
      LibTables(b, v);
      SameDefs(a, b, c, v);
      SameRefs(a, b, c, v, GlobalRefsOf, GlobalRefsIn);
      SameRefs(a, b, c, v, FuncRefsOf, FuncRefsIn);
      SameRefs(a, b, c, v, NativeRefsOf, NativeRefsIn);
      SameKnown(Flat(GlobalRefsOf, ExeSpots(ms)), Flat(GlobalRefsOf, ExeSpots(ns)), VarIds(GlobalDefs(ms)));
      SameKnown(Flat(FuncRefsOf, ExeSpots(ms)), Flat(FuncRefsOf, ExeSpots(ns)), DefIds(FuncDefs(ms)));
      SameKnown(Flat(NativeRefsOf, ExeSpots(ms)), Flat(NativeRefsOf, ExeSpots(ns)), NativeDefs(ms));
      SameCode(a, b, c, v, SlotMap(GlobalDefs(ms)), AddressMap(FuncDefs(ms)));
    }
  }

  lemma Small(ms: seq<Module>)
    requires Joinable(ms)
    ensures |Mains(ms)| + |Funcs(ms)| < U32
  {
  }

  // The same for a library within a library.
  lemma LibAssociative(a: seq<Module>, b: seq<Module>, c: seq<Module>, v: nat, version: nat)
    requires AllWellFormed(b)
    ensures Joinable(a + b + c) <==> Joinable(b) && Joinable(a + [LibOf(b, v)] + c)
    ensures Joinable(a + b + c) ==> LibOf(a + b + c, version) == LibOf(a + [LibOf(b, v)] + c, version)
  {
    hide Mains, Funcs, LayOut, Table, ExeSpots, GlobalDefs, NativeDefs, FuncDefs, Joinable, AllWellFormed;
    var ms, ns := Direct(a, b, c), Through(a, b, c, v);
    SameJoinable(a, b, c, v);
    SameContents(a, b, c, v);
    if Joinable(ms) {
      assert |Mains(ms)| + |Funcs(ms)| < U32 by { Small(ms); }
      KindsPlace();
      LibTables(b, v);
      SameDefs(a, b, c, v);
      SameRefs(a, b, c, v, GlobalRefsOf, GlobalRefsIn);
      SameRefs(a, b, c, v, FuncRefsOf, FuncRefsIn);
      SameRefs(a, b, c, v, NativeRefsOf, NativeRefsIn);
    }
  }
}
