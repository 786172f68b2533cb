/** When modules link, module by module: no two definitions of a kind have the same name, every name that is
    used is defined somewhere, and everything fits 32 bits. */
module Linkability {
  import opened Bytes
  import opened Containers
  import opened References
  import opened Linking

  function VarNames(m: Module): seq<string> { VarIds(m.globalDefs) }

  function FuncNames(m: Module): seq<string> { DefIds(m.funcDefs) }

  function NativeNames(m: Module): seq<string> { m.nativeDefs }

  // No name occurs twice, neither in one module nor in two.
  ghost predicate Unique(names: Module -> seq<string>, ms: seq<Module>) {
    forall k, i, l, j ::
      (0 <= k < |ms| && 0 <= i < |names(ms[k])| && 0 <= l < |ms| && 0 <= j < |names(ms[l])| &&
       names(ms[k])[i] == names(ms[l])[j]) ==>
      k == l && i == j
  }

  ghost predicate Somewhere(names: Module -> seq<string>, ms: seq<Module>, x: string) {
    exists l :: 0 <= l < |ms| && x in names(ms[l])
  }

  // Every name that a module uses has a definition of its kind.
  ghost predicate Provided(ms: seq<Module>) {
    forall k, x :: 0 <= k < |ms| ==>
      (x in Ids(ms[k].globalRefs) ==> Somewhere(VarNames, ms, x)) &&
      (x in Ids(ms[k].funcRefs) ==> Somewhere(FuncNames, ms, x)) &&
      (x in Ids(ms[k].nativeRefs) ==> Somewhere(NativeNames, ms, x))
  }

  function CodeSum(ms: seq<Module>): nat { if ms == [] then 0 else CodeSum(ms[..|ms| - 1]) + |ms[|ms| - 1].code| }

  // ----- names of a concatenation -----

  lemma {:induction false} DistinctFlat(names: Module -> seq<string>, ms: seq<Module>)
    ensures Distinct(Flat(names, ms)) <==> Unique(names, ms)
  {
    var all := Flat(names, ms);
    if Distinct(all) {
      forall k, i, l, j | 0 <= k < |ms| && 0 <= i < |names(ms[k])| && 0 <= l < |ms| && 0 <= j < |names(ms[l])| &&
        names(ms[k])[i] == names(ms[l])[j]
        ensures k == l && i == j
      {
        FlatAt(names, ms, k, i);
        FlatAt(names, ms, l, j);
        PlaceApart(names, ms, k, i, l, j);
      }
    }
    if Unique(names, ms) {
      forall p, q | 0 <= p < q < |all|
        ensures all[p] != all[q]
      {
        var k, i := FlatFind(names, ms, p);
        var l, j := FlatFind(names, ms, q);
        FlatAt(names, ms, k, i);
        FlatAt(names, ms, l, j);
      }
    }
  }

  // Two places in a concatenation are the same only if they are the same place of the same part.
  lemma PlaceApart(names: Module -> seq<string>, ms: seq<Module>, k: nat, i: nat, l: nat, j: nat)
    requires k < |ms| && i < |names(ms[k])| && l < |ms| && j < |names(ms[l])|
    requires |Flat(names, ms[..k])| + i == |Flat(names, ms[..l])| + j
    ensures k == l && i == j
  {
    if k < l {
      FlatGrows(names, ms, k, l);
    } else if l < k {
      FlatGrows(names, ms, l, k);
    }
  }

  lemma {:induction false} FlatGrows(names: Module -> seq<string>, ms: seq<Module>, k: nat, l: nat)
    requires k < l <= |ms|
    ensures |Flat(names, ms[..k])| + |names(ms[k])| <= |Flat(names, ms[..l])|
    decreases l - k
  {
    assert ms[..l][..l - 1] == ms[..l - 1];
    if k < l - 1 {
      FlatGrows(names, ms, k, l - 1);
    }
  }

  lemma {:induction false} VarNamesFlat(ms: seq<Module>)
    ensures VarIds(GlobalDefs(ms)) == Flat(VarNames, ms)
  {
    if ms != [] {
      var n := |ms| - 1;
      VarNamesFlat(ms[..n]);
      assert VarIds(GlobalDefs(ms)) == VarIds(GlobalDefs(ms[..n])) + VarIds(ms[n].globalDefs);
    }
  }

  lemma {:induction false} NativeNamesFlat(ms: seq<Module>)
    ensures NativeDefs(ms) == Flat(NativeNames, ms)
  {
    if ms != [] {
      NativeNamesFlat(ms[..|ms| - 1]);
    }
  }

  // The modules at their places.
  predicate PlacedAs(ps: seq<Placed>, ms: seq<Module>) {
    |ps| == |ms| && forall i :: 0 <= i < |ps| ==> ps[i].m == ms[i]
  }

  lemma {:induction false} FuncNamesFlat(ps: seq<Placed>, ms: seq<Module>)
    requires PlacedAs(ps, ms)
    ensures DefIds(Flat(FuncDefsOf, ps)) == Flat(FuncNames, ms)
    decreases |ms|
  {
    if ms != [] {
      var n := |ms| - 1;
      FuncNamesFlat(ps[..n], ms[..n]);
      assert DefIds(FuncDefsOf(ps[n])) == FuncNames(ms[n]);
      assert DefIds(Flat(FuncDefsOf, ps)) == DefIds(Flat(FuncDefsOf, ps[..n])) + DefIds(FuncDefsOf(ps[n]));
    }
  }

  lemma InFlat(names: Module -> seq<string>, ms: seq<Module>, x: string)
    ensures x in Flat(names, ms) <==> Somewhere(names, ms, x)
  {
    FlatIn(names, ms, x);
  }

  // A name is used in the program exactly if a module uses it.
  lemma {:induction false} UsedFlat(refs: Placed -> seq<IdAddresses>, own: Module -> seq<IdAddresses>, ps: seq<Placed>,
                                    ms: seq<Module>, x: string)
    requires PlacedAs(ps, ms) && forall p :: Ids(refs(p)) == Ids(own(p.m))
    ensures x in Ids(Flat(refs, ps)) <==> exists k :: 0 <= k < |ms| && x in Ids(own(ms[k]))
    decreases |ms|
  {
    if ms != [] {
      var n := |ms| - 1;
      UsedFlat(refs, own, ps[..n], ms[..n], x);
      assert Ids(Flat(refs, ps)) == Ids(Flat(refs, ps[..n])) + Ids(refs(ps[n]));
      assert Ids(refs(ps[n])) == Ids(own(ms[n]));
      if k :| 0 <= k < |ms| && x in Ids(own(ms[k])) {
        assert k < n ==> x in Ids(own(ms[..n][k]));
      }
      if k :| 0 <= k < n && x in Ids(own(ms[..n][k])) {
        assert x in Ids(own(ms[k]));
      }
    }
  }

  lemma MovedIds()
    ensures forall p: Placed :: Ids(GlobalRefsOf(p)) == Ids(p.m.globalRefs)
    ensures forall p: Placed :: Ids(FuncRefsOf(p)) == Ids(p.m.funcRefs)
    ensures forall p: Placed :: Ids(NativeRefsOf(p)) == Ids(p.m.nativeRefs)
  {
  }

  lemma {:induction false} CodeSumIs(ms: seq<Module>)
    ensures |Mains(ms)| + |Funcs(ms)| == CodeSum(ms)
  {
    if ms != [] {
      CodeSumIs(ms[..|ms| - 1]);
    }
  }

  lemma KnownIs(refs: Placed -> seq<IdAddresses>, own: Module -> seq<IdAddresses>, names: Module -> seq<string>,
                ms: seq<Module>)
    requires forall p :: Ids(refs(p)) == Ids(own(p.m))
    ensures AllKnown(Flat(refs, ExeSpots(ms)), Flat(names, ms)) <==>
      forall k, x :: 0 <= k < |ms| && x in Ids(own(ms[k])) ==> Somewhere(names, ms, x)
  {
    hide Flat, Somewhere, Mains;
    forall x
      ensures x in Ids(Flat(refs, ExeSpots(ms))) <==> exists k :: 0 <= k < |ms| && x in Ids(own(ms[k]))
      ensures x in Flat(names, ms) <==> Somewhere(names, ms, x)
    {
      UsedFlat(refs, own, ExeSpots(ms), ms, x);
      InFlat(names, ms, x);
    }
  }

  // ----- the linkers' conditions -----

  // A library can be made exactly if no name is defined twice and the code fits.
  lemma JoinableExactly(ms: seq<Module>)
    ensures Joinable(ms) <==>
      CodeSum(ms) < U32 && Unique(VarNames, ms) && Unique(FuncNames, ms) && Unique(NativeNames, ms)
  {
    hide Flat, Unique, Mains, Funcs, Distinct;
    CodeSumIs(ms);
    VarNamesFlat(ms);
    NativeNamesFlat(ms);
    FuncNamesFlat(ExeSpots(ms), ms);
    DistinctFlat(VarNames, ms);
    DistinctFlat(FuncNames, ms);
    DistinctFlat(NativeNames, ms);
  }

  // An executable exactly if, beyond that, every name is defined and the slots can be counted.
  lemma LinkableExactly(ms: seq<Module>)
    ensures Linkable(ms) <==> Joinable(ms) && SlotsCount(GlobalDefs(ms)) && Provided(ms)
  {
    hide Flat, Joinable, Mains, SlotsCount, Somewhere, AllKnown;
    VarNamesFlat(ms);
    NativeNamesFlat(ms);
    FuncNamesFlat(ExeSpots(ms), ms);
    MovedIds();
    KnownIs(GlobalRefsOf, (m: Module) => m.globalRefs, VarNames, ms);
    KnownIs(FuncRefsOf, (m: Module) => m.funcRefs, FuncNames, ms);
    KnownIs(NativeRefsOf, (m: Module) => m.nativeRefs, NativeNames, ms);
  }
}
