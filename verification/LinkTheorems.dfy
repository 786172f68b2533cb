/** Linking theorems: every byte of an executable comes from exactly one module, placeholders hold what
    their names stand for, and linking some modules into a library first changes nothing. */
module LinkTheorems {
  import opened Bytes
  import opened Containers
  import opened References
  import opened Linking
  import opened Filling

  ghost predicate AllWellFormed(ms: seq<Module>) { forall i :: 0 <= i < |ms| ==> WellFormed(ms[i]) }

  function Whole(ms: seq<Module>): seq<byte> { Mains(ms) + Funcs(ms) }

  // Where the k-th module is placed when the modules are linked by themselves.
  function SpotOf(ms: seq<Module>, k: nat): Spot
    requires k < |ms|
  {
    ExeSpots(ms)[k].at
  }

  // ----- bytes -----

  lemma SpotFacts(ms: seq<Module>, k: nat)
    requires AllWellFormed(ms) && k < |ms|
    ensures ms[k].mainSize <= |ms[k].code|
    ensures SpotOf(ms, k) == Spot(ms[k].mainSize, |Mains(ms[..k])|, |Mains(ms)| + |Funcs(ms[..k])|)
    ensures |Mains(ms[..k])| + ms[k].mainSize <= |Mains(ms)|
    ensures |Funcs(ms[..k])| + (|ms[k].code| - ms[k].mainSize) <= |Funcs(ms)|
  {
    assert WellFormed(ms[k]);
    FlatSlice(MainOf, ms, k);
    FlatSlice(FuncOf, ms, k);
  }

  // A stretch of a module within one segment stands, unchanged, where the module is placed.
  lemma Stretch(ms: seq<Module>, k: nat, q: nat, n: nat)
    requires AllWellFormed(ms) && k < |ms| && |Whole(ms)| < U32
    requires n > 0 && (q + n <= ms[k].mainSize || (ms[k].mainSize <= q && q + n <= |ms[k].code|))
    ensures var p := Place(q, SpotOf(ms, k));
      p + n <= |Whole(ms)| && Whole(ms)[p..p + n] == ms[k].code[q..q + n]
    ensures Place(q, SpotOf(ms, k)) == Target(ms, k, q)
  {
    hide Whole;
    Placing(ms, k, q);
    if q < ms[k].mainSize {
      StretchMain(ms, k, q, n);
    } else {
      StretchFunc(ms, k, q, n);
    }
  }

  // Without the wrap-around: the offset within the segment, behind the earlier modules' segments.
  function Target(ms: seq<Module>, k: nat, q: nat): nat
    requires k < |ms|
  {
    if q < ms[k].mainSize then |Mains(ms[..k])| + q else |Mains(ms)| + |Funcs(ms[..k])| + (q - ms[k].mainSize)
  }

  lemma Placing(ms: seq<Module>, k: nat, q: nat)
    requires AllWellFormed(ms) && k < |ms| && |Whole(ms)| < U32 && q <= |ms[k].code|
    ensures Place(q, SpotOf(ms, k)) == Target(ms, k, q)
  {
    SpotFacts(ms, k);
    hide Mains, Funcs, LayOut;
  }

  lemma StretchMain(ms: seq<Module>, k: nat, q: nat, n: nat)
    requires AllWellFormed(ms) && k < |ms| && q + n <= ms[k].mainSize
    ensures var p := |Mains(ms[..k])| + q;
      p + n <= |Whole(ms)| && Whole(ms)[p..p + n] == ms[k].code[q..q + n]
  {
    var code, main := ms[k].code, ms[k].mainSize;
    assert WellFormed(ms[k]);
    FlatSlice(MainOf, ms, k);
    SubSlice(Mains(ms), |Mains(ms[..k])|, code[..main], q, n);
    assert code[..main][q..q + n] == code[q..q + n];
    InWhole(ms, |Mains(ms[..k])| + q, n, true);
  }

  lemma StretchFunc(ms: seq<Module>, k: nat, q: nat, n: nat)
    requires AllWellFormed(ms) && k < |ms| && ms[k].mainSize <= q && q + n <= |ms[k].code|
    ensures var p := |Mains(ms)| + |Funcs(ms[..k])| + (q - ms[k].mainSize);
      p + n <= |Whole(ms)| && Whole(ms)[p..p + n] == ms[k].code[q..q + n]
  {
    var code, main := ms[k].code, ms[k].mainSize;
    var r := q - main;
    assert WellFormed(ms[k]);
    hide Mains, Funcs, Whole, WellFormed;
    FlatSlice(FuncOf, ms, k);
    SubSlice(Funcs(ms), |Funcs(ms[..k])|, code[main..], r, n);
    assert code[main..][r..r + n] == code[q..q + n];
    InWhole(ms, |Funcs(ms[..k])| + r, n, false);
  }

  lemma InWhole(ms: seq<Module>, p: nat, n: nat, main: bool)
    requires if main then p + n <= |Mains(ms)| else p + n <= |Funcs(ms)|
    ensures main ==> Whole(ms)[p..p + n] == Mains(ms)[p..p + n]
    ensures !main ==> Whole(ms)[|Mains(ms)| + p..|Mains(ms)| + p + n] == Funcs(ms)[p..p + n]
  {
    hide Mains, Funcs;
  }

  lemma SubSlice(s: seq<byte>, p: nat, part: seq<byte>, q: nat, n: nat)
    requires p + |part| <= |s| && s[p..p + |part|] == part && q + n <= |part|
    ensures s[p + q..p + q + n] == part[q..q + n]
  {
    var t := s[p + q..p + q + n];
    forall i | 0 <= i < n
      ensures t[i] == part[q..q + n][i]
    {
      assert s[p..p + |part|][q + i] == part[q + i];
    }
  }

  // Every position of the output is a position of some module.
  lemma Locate(ms: seq<Module>, p: nat) returns (k: nat, q: nat)
    requires AllWellFormed(ms) && |Whole(ms)| < U32 && p < |Whole(ms)|
    ensures k < |ms| && q < |ms[k].code| && Place(q, SpotOf(ms, k)) == p
    ensures Whole(ms)[p] == ms[k].code[q]
  {
    if p < |Mains(ms)| {
      k, q := FlatFind(MainOf, ms, p);
    } else {
      k, q := FlatFind(FuncOf, ms, p - |Mains(ms)|);
      q := q + ms[k].mainSize;
    }
    SpotFacts(ms, k);
    Stretch(ms, k, q, 1);
    assert Whole(ms)[p] == Whole(ms)[p..p + 1][0] == ms[k].code[q..q + 1][0];
  }

  // ----- filled modules -----

  lemma FilledSizes(ms: seq<Module>, slots: map<string, nat>, funcs: map<string, nat>, k: nat)
    requires AllWellFormed(ms) && k <= |ms|
    ensures |Mains(FillEach(ms, slots, funcs)[..k])| == |Mains(ms[..k])|
    ensures |Funcs(FillEach(ms, slots, funcs)[..k])| == |Funcs(ms[..k])|
    decreases k
  {
    var fs := FillEach(ms, slots, funcs);
    if k > 0 {
      FilledSizes(ms, slots, funcs, k - 1);
      assert fs[..k][..k - 1] == fs[..k - 1] && ms[..k][..k - 1] == ms[..k - 1];
      assert WellFormed(ms[k - 1]);
    } else {
      assert fs[..0] == [] && ms[..0] == [];
    }
  }

  lemma SpacedRefs(m: Module)
    requires WellFormed(m)
    ensures Spaced(m.globalRefs, |m.code|) && Spaced(m.funcRefs, |m.code|)
  {
    forall x, a: nat | HasRef(m.globalRefs, x, a)
      ensures a + 4 <= |m.code|
    {
      assert IsRef(m.globalRefs, a);
    }
    forall x, a: nat | HasRef(m.funcRefs, x, a)
      ensures a + 4 <= |m.code|
    {
      assert IsRef(m.funcRefs, a);
    }
  }

  lemma FilledBytes(m: Module, slots: map<string, nat>, funcs: map<string, nat>)
    requires WellFormed(m)
    ensures IsFilled(m.code, Filled(m, slots, funcs).code, m.globalRefs, slots, m.funcRefs, funcs)
  {
    hide Spaced, RefsFit, Fill, HasRef, LE32, IsRef;
    SpacedRefs(m);
    var r := Fill(m.code, m.globalRefs, slots);
    FillBytes(m.code, m.globalRefs, slots);
    FillBytes(r, m.funcRefs, funcs);
    var s := Fill(r, m.funcRefs, funcs);
    forall id, a: nat | HasRef(m.globalRefs, id, a) && id in slots && a + 4 <= |s|
      ensures s[a..a + 4] == LE32(slots[id])
    {
      forall p: nat | a <= p < a + 4
        ensures s[p] == r[p]
      {
        OtherField(m, funcs, id, a, p);
      }
      assert s[a..a + 4] == r[a..a + 4];
    }
  }

  // A byte of a global's placeholder is no byte of a function's.
  lemma OtherField(m: Module, funcs: map<string, nat>, id: string, a: nat, p: nat)
    requires WellFormed(m) && HasRef(m.globalRefs, id, a) && a <= p < a + 4
    ensures !Covered(m.funcRefs, funcs, p)
  {
    assert IsRef(m.globalRefs, a);
    forall x, b: nat
      ensures !Covers(m.funcRefs, funcs, x, b, p)
    {
      if HasRef(m.funcRefs, x, b) {
        assert IsRef(m.funcRefs, b);
      }
    }
  }

  // ----- the references of placed modules -----

  lemma MovedRef(refs: seq<IdAddresses>, at: Spot, id: string, b: nat)
    ensures HasRef(Moved(refs, at), id, b) <==> exists a: nat :: HasRef(refs, id, a) && Place(a, at) == b
  {
    var r := Moved(refs, at);
    if HasRef(r, id, b) {
      var i :| 0 <= i < |r| && r[i].id == id && b in r[i].addresses;
      var j :| 0 <= j < |r[i].addresses| && r[i].addresses[j] == b;
      assert refs[i].addresses[j] in refs[i].addresses;
      assert HasRef(refs, id, refs[i].addresses[j]);
    }
    if a: nat :| HasRef(refs, id, a) && Place(a, at) == b {
      var i :| 0 <= i < |refs| && refs[i].id == id && a in refs[i].addresses;
      var j :| 0 <= j < |refs[i].addresses| && refs[i].addresses[j] == a;
      assert r[i].addresses[j] == b;
      assert b in r[i].addresses;
    }
  }

  lemma {:induction false} FlatRef(f: Placed -> seq<IdAddresses>, ps: seq<Placed>, id: string, b: nat)
    ensures HasRef(Flat(f, ps), id, b) <==> exists k :: 0 <= k < |ps| && HasRef(f(ps[k]), id, b)
  {
    if ps != [] {
      var n := |ps| - 1;
      FlatRef(f, ps[..n], id, b);
      RefAppend(Flat(f, ps[..n]), f(ps[n]), id, b);
      if k :| 0 <= k < |ps| && HasRef(f(ps[k]), id, b) {
        assert k < n ==> HasRef(f(ps[..n][k]), id, b);
      }
      if k :| 0 <= k < n && HasRef(f(ps[..n][k]), id, b) {
        assert HasRef(f(ps[k]), id, b);
      }
    }
  }

  lemma RefAppend(a: seq<IdAddresses>, b: seq<IdAddresses>, id: string, x: nat)
    ensures HasRef(a + b, id, x) <==> HasRef(a, id, x) || HasRef(b, id, x)
  {
    AddrsAppend(a, b, id);
    RefInAddrs(a, id, x);
    RefInAddrs(b, id, x);
    RefInAddrs(a + b, id, x);
  }

  // ----- the references of a library -----

  function GlobalRefsIn(m: Module): seq<IdAddresses> { m.globalRefs }
  function FuncRefsIn(m: Module): seq<IdAddresses> { m.funcRefs }
  function NativeRefsIn(m: Module): seq<IdAddresses> { m.nativeRefs }

  ghost predicate Places(f: Placed -> seq<IdAddresses>, g: Module -> seq<IdAddresses>) {
    forall p :: f(p) == Moved(g(p.m), p.at)
  }

  predicate RefAt(ms: seq<Module>, g: Module -> seq<IdAddresses>, id: string, b: nat, k: nat, a: nat) {
    k < |ms| && HasRef(g(ms[k]), id, a) && Place(a, SpotOf(ms, k)) == b
  }

  // A library's table holds its modules' placeholders, placed.
  lemma LibRef(ms: seq<Module>, f: Placed -> seq<IdAddresses>, g: Module -> seq<IdAddresses>, id: string, b: nat)
    requires Places(f, g)
    ensures HasRef(Table(Flat(f, ExeSpots(ms))), id, b) <==> exists k: nat, a: nat :: RefAt(ms, g, id, b, k, a)
  {
    hide HasRef, Table, Place, Moved;
    var ps := ExeSpots(ms);
    RefInTable(Flat(f, ps), id, b);
    FlatRef(f, ps, id, b);
    forall k | 0 <= k < |ms|
      ensures HasRef(f(ps[k]), id, b) <==> exists a: nat :: RefAt(ms, g, id, b, k, a)
    {
      MovedRef(g(ms[k]), ps[k].at, id, b);
      assert ps[k].m == ms[k];
      forall a: nat
        ensures RefAt(ms, g, id, b, k, a) <==> HasRef(g(ms[k]), id, a) && Place(a, ps[k].at) == b
      {
      }
    }
  }

  lemma KindsPlace()
    ensures Places(GlobalRefsOf, GlobalRefsIn) && Places(FuncRefsOf, FuncRefsIn) && Places(NativeRefsOf, NativeRefsIn)
  {
  }

  lemma FieldInSegment(g: Module -> seq<IdAddresses>, m: Module, id: string, a: nat)
    requires RefsFit(m, g(m)) && HasRef(g(m), id, a)
    ensures InSegment(m, a)
  {
    assert IsRef(g(m), a);
  }

  lemma FilledFits(ms: seq<Module>, slots: map<string, nat>, funcs: map<string, nat>)
    requires AllWellFormed(ms) && |Whole(ms)| < U32
    ensures var fs := FillEach(ms, slots, funcs);
      AllWellFormed(fs) && |Whole(fs)| == |Whole(ms)| && forall k :: 0 <= k < |ms| ==> SpotOf(fs, k) == SpotOf(ms, k)
  {
    var fs := FillEach(ms, slots, funcs);
    forall k | 0 <= k < |fs|
      ensures WellFormed(fs[k])
    {
      assert WellFormed(ms[k]);
      FilledModuleFits(ms[k], slots, funcs);
    }
    hide WellFormed;
    forall k | 0 <= k <= |ms|
      ensures |Mains(fs[..k])| == |Mains(ms[..k])| && |Funcs(fs[..k])| == |Funcs(ms[..k])|
    {
      FilledSizes(ms, slots, funcs, k);
    }
    assert fs[..|ms|] == fs && ms[..|ms|] == ms;
    hide Mains, Funcs;
  }

  lemma FilledModuleFits(m: Module, slots: map<string, nat>, funcs: map<string, nat>)
    requires WellFormed(m)
    ensures WellFormed(Filled(m, slots, funcs))
  {
    hide HasRef, IsRef, Fill;
    var f := Filled(m, slots, funcs);
    assert |f.code| == |m.code|;
    assert forall a: nat :: InSegment(f, a) == InSegment(m, a);
  }

  // A placeholder's place in the joined code.
  lemma JoinedField(ms: seq<Module>, fs: seq<Module>, slots: map<string, nat>, funcs: map<string, nat>, k: nat, a: nat)
    requires AllWellFormed(ms) && |Whole(ms)| < U32 && fs == FillEach(ms, slots, funcs)
    requires k < |ms| && InSegment(ms[k], a)
    ensures var b := Place(a, SpotOf(ms, k));
      b + 4 <= |Whole(fs)| && Whole(fs)[b..b + 4] == Filled(ms[k], slots, funcs).code[a..a + 4]
  {
    hide Whole, WellFormed, Place, SpotOf, Filled;
    FilledFits(ms, slots, funcs);
    SameSize(ms[k], slots, funcs);
    Stretch(fs, k, a, 4);
  }

  lemma SameSize(m: Module, slots: map<string, nat>, funcs: map<string, nat>)
    ensures |Filled(m, slots, funcs).code| == |m.code| && Filled(m, slots, funcs).mainSize == m.mainSize
  {
  }

  // Filling the modules and joining them is joining them and filling the library.
  lemma JoinFilled(ms: seq<Module>, slots: map<string, nat>, funcs: map<string, nat>)
    requires AllWellFormed(ms) && |Whole(ms)| < U32
    ensures IsFilled(Whole(ms), Whole(FillEach(ms, slots, funcs)),
      Table(Flat(GlobalRefsOf, ExeSpots(ms))), slots, Table(Flat(FuncRefsOf, ExeSpots(ms))), funcs)
  {
    hide Whole, WellFormed, Table, FillEach, ExeSpots, Covered, HasRef, LE32;
    var fs := FillEach(ms, slots, funcs);
    KindsPlace();
    FilledFits(ms, slots, funcs);
    JoinHolds(ms, GlobalRefsOf, GlobalRefsIn, slots, funcs, slots);
    JoinHolds(ms, FuncRefsOf, FuncRefsIn, slots, funcs, funcs);
    forall p: nat | p < |Whole(ms)| && !Covered(Table(Flat(GlobalRefsOf, ExeSpots(ms))), slots, p)
        && !Covered(Table(Flat(FuncRefsOf, ExeSpots(ms))), funcs, p)
      ensures Whole(fs)[p] == Whole(ms)[p]
    {
      JoinOther(ms, slots, funcs, p);
    }
  }

  lemma JoinHolds(ms: seq<Module>, f: Placed -> seq<IdAddresses>, g: Module -> seq<IdAddresses>,
                  slots: map<string, nat>, funcs: map<string, nat>, numbers: map<string, nat>)
    requires AllWellFormed(ms) && |Whole(ms)| < U32 && Places(f, g)
    requires (g == GlobalRefsIn && numbers == slots) || (g == FuncRefsIn && numbers == funcs)
    ensures Holds(Whole(FillEach(ms, slots, funcs)), Table(Flat(f, ExeSpots(ms))), numbers)
  {
    hide Whole, WellFormed, Table, FillEach, ExeSpots, HasRef, LE32, Place, SpotOf, Filled;
    var fs, t := FillEach(ms, slots, funcs), Table(Flat(f, ExeSpots(ms)));
    forall id, b: nat | HasRef(t, id, b) && id in numbers && b + 4 <= |Whole(fs)|
      ensures Whole(fs)[b..b + 4] == LE32(numbers[id])
    {
      LibRef(ms, f, g, id, b);
      var k: nat, a: nat :| RefAt(ms, g, id, b, k, a);
      ModuleField(ms[k], g, slots, funcs, numbers, id, a);
      JoinedField(ms, fs, slots, funcs, k, a);
    }
  }

  lemma ModuleField(m: Module, g: Module -> seq<IdAddresses>, slots: map<string, nat>, funcs: map<string, nat>,
                    numbers: map<string, nat>, id: string, a: nat)
    requires WellFormed(m) && HasRef(g(m), id, a) && id in numbers
    requires (g == GlobalRefsIn && numbers == slots) || (g == FuncRefsIn && numbers == funcs)
    ensures InSegment(m, a) && |Filled(m, slots, funcs).code| == |m.code|
    ensures Filled(m, slots, funcs).code[a..a + 4] == LE32(numbers[id])
  {
    hide Filled, RefsFit;
    assert RefsFit(m, g(m));
    FieldInSegment(g, m, id, a);
    FilledBytes(m, slots, funcs);
  }

  // A byte outside every placeholder.
  lemma JoinOther(ms: seq<Module>, slots: map<string, nat>, funcs: map<string, nat>, p: nat)
    requires AllWellFormed(ms) && p < |Whole(ms)| < U32
    requires !Covered(Table(Flat(GlobalRefsOf, ExeSpots(ms))), slots, p)
    requires !Covered(Table(Flat(FuncRefsOf, ExeSpots(ms))), funcs, p)
    ensures |Whole(FillEach(ms, slots, funcs))| == |Whole(ms)|
    ensures Whole(FillEach(ms, slots, funcs))[p] == Whole(ms)[p]
  {
    hide Whole, WellFormed, Table, ExeSpots, Place, SpotOf, Filled, Covered;
    var fs := FillEach(ms, slots, funcs);
    KindsPlace();
    FilledFits(ms, slots, funcs);
    var k, q := Locate(ms, p);
    SameSize(ms[k], slots, funcs);
    Stretch(fs, k, q, 1);
    assert Whole(fs)[p] == Whole(fs)[p..p + 1][0] == fs[k].code[q..q + 1][0];
    NotCovered(ms, GlobalRefsOf, GlobalRefsIn, slots, k, q);
    NotCovered(ms, FuncRefsOf, FuncRefsIn, funcs, k, q);
    FilledBytes(ms[k], slots, funcs);
  }

  lemma NotCovered(ms: seq<Module>, f: Placed -> seq<IdAddresses>, g: Module -> seq<IdAddresses>,
                   numbers: map<string, nat>, k: nat, q: nat)
    requires AllWellFormed(ms) && |Whole(ms)| < U32 && Places(f, g) && k < |ms| && q < |ms[k].code|
    requires g == GlobalRefsIn || g == FuncRefsIn
    ensures Covered(g(ms[k]), numbers, q) ==> Covered(Table(Flat(f, ExeSpots(ms))), numbers, Place(q, SpotOf(ms, k)))
  {
    hide Whole, WellFormed, Table, ExeSpots, Place, SpotOf, HasRef;
    if id, a: nat :| Covers(g(ms[k]), numbers, id, a, q) {
      KindFits(ms[k], g);
      FieldInSegment(g, ms[k], id, a);
      SameShift(ms, k, a, q);
      var b := Place(a, SpotOf(ms, k));
      LibRef(ms, f, g, id, b);
      assert RefAt(ms, g, id, b, k, a);
      assert Covers(Table(Flat(f, ExeSpots(ms))), numbers, id, b, Place(q, SpotOf(ms, k)));
    }
  }

  lemma KindFits(m: Module, g: Module -> seq<IdAddresses>)
    requires WellFormed(m) && (g == GlobalRefsIn || g == FuncRefsIn || g == NativeRefsIn)
    ensures RefsFit(m, g(m))
  {
    hide RefsFit, RefsApart;
  }

  // Within a segment, distances stay.
  lemma SameShift(ms: seq<Module>, k: nat, a: nat, q: nat)
    requires AllWellFormed(ms) && |Whole(ms)| < U32 && k < |ms| && InSegment(ms[k], a) && a <= q < a + 4
    ensures Place(q, SpotOf(ms, k)) == Place(a, SpotOf(ms, k)) + (q - a)
  {
    hide Whole, Place, SpotOf;
    assert WellFormed(ms[k]);
    Placing(ms, k, a);
    Placing(ms, k, q);
    hide Mains, Funcs;
  }

  // Only one code is old filled.
  lemma FilledOnce(old_: seq<byte>, a: seq<byte>, b: seq<byte>, globalRefs: seq<IdAddresses>, slots: map<string, nat>,
                   funcRefs: seq<IdAddresses>, funcs: map<string, nat>)
    requires IsFilled(old_, a, globalRefs, slots, funcRefs, funcs) &&
      IsFilled(old_, b, globalRefs, slots, funcRefs, funcs)
    requires forall x, p: nat :: HasRef(globalRefs, x, p) || HasRef(funcRefs, x, p) ==> p + 4 <= |old_|
    ensures a == b
  {
    hide HasRef, LE32;
    forall p: nat | p < |old_|
      ensures a[p] == b[p]
    {
      if Covered(globalRefs, slots, p) {
        var id, q: nat :| Covers(globalRefs, slots, id, q, p);
        assert a[q..q + 4][p - q] == b[q..q + 4][p - q];
      } else if Covered(funcRefs, funcs, p) {
        var id, q: nat :| Covers(funcRefs, funcs, id, q, p);
        assert a[q..q + 4][p - q] == b[q..q + 4][p - q];
      }
    }
  }

  // ----- libraries are well-formed -----

  lemma {:induction false} FlatGrows<A, B>(f: A -> seq<B>, xs: seq<A>, i: nat, j: nat)
    requires i <= j <= |xs|
    ensures |Flat(f, xs[..i])| <= |Flat(f, xs[..j])|
  {
    assert xs[..j] == xs[..i] + xs[i..j];
    FlatAppend(f, xs[..i], xs[i..j]);
  }

  lemma SpotsOrdered(ms: seq<Module>, k: nat, j: nat)
    requires AllWellFormed(ms) && k < j < |ms|
    ensures |Mains(ms[..k])| + ms[k].mainSize <= |Mains(ms[..j])|
    ensures |Funcs(ms[..k])| + (|ms[k].code| - ms[k].mainSize) <= |Funcs(ms[..j])|
  {
    assert WellFormed(ms[k]);
    assert ms[..k + 1][..k] == ms[..k];
    FlatGrows(MainOf, ms, k + 1, j);
    FlatGrows(FuncOf, ms, k + 1, j);
  }

  lemma PlacedInSegment(ms: seq<Module>, k: nat, a: nat, lib: Module)
    requires AllWellFormed(ms) && |Whole(ms)| < U32 && k < |ms| && InSegment(ms[k], a)
    requires lib.code == Whole(ms) && lib.mainSize == |Mains(ms)|
    ensures InSegment(lib, Place(a, SpotOf(ms, k)))
  {
    SpotFacts(ms, k);
    Placing(ms, k, a);
    hide Mains, Funcs;
  }

  // Two fields apart in their modules, or of two modules, stay apart.
  lemma PlacedApart(ms: seq<Module>, k: nat, a: nat, j: nat, b: nat)
    requires AllWellFormed(ms) && |Whole(ms)| < U32 && k <= j < |ms|
    requires InSegment(ms[k], a) && InSegment(ms[j], b) && (k == j ==> Apart(a, b))
    ensures Apart(Place(a, SpotOf(ms, k)), Place(b, SpotOf(ms, j)))
    ensures Apart(Place(b, SpotOf(ms, j)), Place(a, SpotOf(ms, k)))
  {
    hide Whole, Place, SpotOf;
    SpotFacts(ms, k);
    SpotFacts(ms, j);
    Placing(ms, k, a);
    Placing(ms, j, b);
    if k < j {
      SpotsOrdered(ms, k, j);
    }
    hide Mains, Funcs;
  }

  lemma ApartEither(ms: seq<Module>, k: nat, a: nat, j: nat, b: nat)
    requires AllWellFormed(ms) && |Whole(ms)| < U32 && k < |ms| && j < |ms|
    requires InSegment(ms[k], a) && InSegment(ms[j], b) && (k == j ==> Apart(a, b))
    ensures Apart(Place(a, SpotOf(ms, k)), Place(b, SpotOf(ms, j)))
  {
    if k <= j {
      PlacedApart(ms, k, a, j, b);
    } else {
      PlacedApart(ms, j, b, k, a);
    }
  }

  lemma RefIs(refs: seq<IdAddresses>, a: nat)
    ensures IsRef(refs, a) <==> exists id :: HasRef(refs, id, a)
  {
    if IsRef(refs, a) {
      var i :| 0 <= i < |refs| && a in refs[i].addresses;
      assert HasRef(refs, refs[i].id, a);
    }
  }

  lemma LibRefsFit(ms: seq<Module>, f: Placed -> seq<IdAddresses>, g: Module -> seq<IdAddresses>, lib: Module)
    requires AllWellFormed(ms) && |Whole(ms)| < U32 && Places(f, g)
    requires g == GlobalRefsIn || g == FuncRefsIn || g == NativeRefsIn
    requires lib.code == Whole(ms) && lib.mainSize == |Mains(ms)|
    ensures RefsFit(lib, Table(Flat(f, ExeSpots(ms))))
  {
    hide Whole, WellFormed, Table, ExeSpots, Place, SpotOf, HasRef, IsRef, InSegment;
    var t := Table(Flat(f, ExeSpots(ms)));
    forall b: nat | IsRef(t, b)
      ensures InSegment(lib, b)
    {
      RefIs(t, b);
      var id :| HasRef(t, id, b);
      var k, a := LibField(ms, f, g, id, b);
      PlacedInSegment(ms, k, a, lib);
    }
    forall x, y, b: nat, c: nat | HasRef(t, x, b) && HasRef(t, y, c) && (x != y || b != c)
      ensures Apart(b, c)
    {
      var k, a := LibField(ms, f, g, x, b);
      var j, d := LibField(ms, f, g, y, c);
      if k == j {
        KindFits(ms[k], g);
      }
      ApartEither(ms, k, a, j, d);
    }
  }

  lemma LibField(ms: seq<Module>, f: Placed -> seq<IdAddresses>, g: Module -> seq<IdAddresses>, id: string, b: nat)
      returns (k: nat, a: nat)
    requires AllWellFormed(ms) && Places(f, g)
    requires g == GlobalRefsIn || g == FuncRefsIn || g == NativeRefsIn
    requires HasRef(Table(Flat(f, ExeSpots(ms))), id, b)
    ensures RefAt(ms, g, id, b, k, a) && InSegment(ms[k], a) && IsRef(g(ms[k]), a)
  {
    hide Table, ExeSpots, Place, SpotOf, WellFormed;
    LibRef(ms, f, g, id, b);
    k, a :| RefAt(ms, g, id, b, k, a);
    KindFits(ms[k], g);
    FieldInSegment(g, ms[k], id, a);
    RefIs(g(ms[k]), a);
  }

  lemma LibRefsApart(ms: seq<Module>, f1: Placed -> seq<IdAddresses>, g1: Module -> seq<IdAddresses>,
                     f2: Placed -> seq<IdAddresses>, g2: Module -> seq<IdAddresses>)
    requires AllWellFormed(ms) && |Whole(ms)| < U32 && Places(f1, g1) && Places(f2, g2)
    requires g1 == GlobalRefsIn || g1 == FuncRefsIn || g1 == NativeRefsIn
    requires g2 == GlobalRefsIn || g2 == FuncRefsIn || g2 == NativeRefsIn
    requires forall k :: 0 <= k < |ms| ==> RefsApart(g1(ms[k]), g2(ms[k]))
    ensures RefsApart(Table(Flat(f1, ExeSpots(ms))), Table(Flat(f2, ExeSpots(ms))))
  {
    hide Whole, WellFormed, Table, ExeSpots, Place, SpotOf, HasRef, IsRef, InSegment;
    var t, u := Table(Flat(f1, ExeSpots(ms))), Table(Flat(f2, ExeSpots(ms)));
    forall b: nat, c: nat | IsRef(t, b) && IsRef(u, c)
      ensures Apart(b, c)
    {
      RefIs(t, b);
      RefIs(u, c);
      var x :| HasRef(t, x, b);
      var y :| HasRef(u, y, c);
      var k, a := LibField(ms, f1, g1, x, b);
      var j, d := LibField(ms, f2, g2, y, c);
      ApartEither(ms, k, a, j, d);
    }
  }

  lemma LibFuncsFit(ms: seq<Module>, i: nat)
    requires AllWellFormed(ms) && |Whole(ms)| < U32 && i < |FuncDefs(ms)|
    ensures FuncDefs(ms)[i].address <= |Whole(ms)|
  {
    hide Place, Whole, AllWellFormed, LayOut;
    var k, q := FlatFind(FuncDefsOf, ExeSpots(ms), i);
    FlatAt(FuncDefsOf, ExeSpots(ms), k, q);
    DefInside(ms, k, q);
  }

  lemma DefInside(ms: seq<Module>, k: nat, q: nat)
    requires AllWellFormed(ms) && |Whole(ms)| < U32 && k < |ms| && q < |FuncDefsOf(ExeSpots(ms)[k])|
    ensures FuncDefsOf(ExeSpots(ms)[k])[q].address <= |Whole(ms)|
  {
    hide Place;
    assert WellFormed(ms[k]);
    Placing(ms, k, ms[k].funcDefs[q].address);
    SpotFacts(ms, k);
    hide Mains, Funcs, WellFormed;
  }

  lemma LibVarsFit(ms: seq<Module>, i: nat)
    requires AllWellFormed(ms) && i < |GlobalDefs(ms)|
    ensures 1 <= GlobalDefs(ms)[i].size <= 2
  {
    var k, q := FlatFind(GlobalDefsOf, ms, i);
    FlatAt(GlobalDefsOf, ms, k, q);
    assert WellFormed(ms[k]);
  }

  // Linking well-formed modules gives a well-formed module.
  lemma LibWellFormed(ms: seq<Module>, version: nat)
    requires AllWellFormed(ms) && Joinable(ms)
    ensures WellFormed(LibOf(ms, version))
  {
    hide Table, ExeSpots, RefsFit, RefsApart;
    var lib := LibOf(ms, version);
    KindsPlace();
    forall k | 0 <= k < |ms|
      ensures RefsApart(GlobalRefsIn(ms[k]), FuncRefsIn(ms[k]))
      ensures RefsApart(GlobalRefsIn(ms[k]), NativeRefsIn(ms[k]))
      ensures RefsApart(FuncRefsIn(ms[k]), NativeRefsIn(ms[k]))
    {
      assert WellFormed(ms[k]);
    }
    LibRefsFit(ms, GlobalRefsOf, GlobalRefsIn, lib);
    LibRefsFit(ms, FuncRefsOf, FuncRefsIn, lib);
    LibRefsFit(ms, NativeRefsOf, NativeRefsIn, lib);
    LibRefsApart(ms, GlobalRefsOf, GlobalRefsIn, FuncRefsOf, FuncRefsIn);
    LibRefsApart(ms, GlobalRefsOf, GlobalRefsIn, NativeRefsOf, NativeRefsIn);
    LibRefsApart(ms, FuncRefsOf, FuncRefsIn, NativeRefsOf, NativeRefsIn);
    forall i: nat | i < |FuncDefs(ms)|
      ensures FuncDefs(ms)[i].address <= |Whole(ms)|
    {
      LibFuncsFit(ms, i);
    }
    forall i: nat | i < |GlobalDefs(ms)|
      ensures 1 <= GlobalDefs(ms)[i].size <= 2
    {
      LibVarsFit(ms, i);
    }
  }
}
