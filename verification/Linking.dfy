/** What the two linkers compute: where every module's segments go, which definitions and references the
    result has, and what the placeholders hold. */
module Linking {
  import opened Bytes
  import opened Containers
  import opened References

  // ----- concatenation -----

  function Flat<A, B>(f: A -> seq<B>, xs: seq<A>): seq<B> {
    if xs == [] then [] else Flat(f, xs[..|xs| - 1]) + f(xs[|xs| - 1])
  }

  lemma {:induction false} FlatAppend<A, B>(f: A -> seq<B>, a: seq<A>, b: seq<A>)
    ensures Flat(f, a + b) == Flat(f, a) + Flat(f, b)
    decreases |b|
  {
    if b == [] {
      assert a + b == a;
    } else {
      var k := |b| - 1;
      assert (a + b)[..|a| + k] == a + b[..k];
      FlatAppend(f, a, b[..k]);
    }
  }

  lemma FlatOne<A, B>(f: A -> seq<B>, x: A)
    ensures Flat(f, [x]) == f(x)
  {
    assert [x][..0] == [];
    assert Flat(f, []) == [];
  }

  // The k-th part of a concatenation.
  lemma FlatSlice<A, B>(f: A -> seq<B>, xs: seq<A>, k: nat)
    requires k < |xs|
    ensures var p := |Flat(f, xs[..k])|;
      p + |f(xs[k])| <= |Flat(f, xs)| && Flat(f, xs)[p..p + |f(xs[k])|] == f(xs[k])
  {
    assert xs == xs[..k] + ([xs[k]] + xs[k + 1..]);
    FlatAppend(f, xs[..k], [xs[k]] + xs[k + 1..]);
    FlatAppend(f, [xs[k]], xs[k + 1..]);
    FlatOne(f, xs[k]);
  }

  lemma FlatAt<A, B>(f: A -> seq<B>, xs: seq<A>, k: nat, q: nat)
    requires k < |xs| && q < |f(xs[k])|
    ensures var i := |Flat(f, xs[..k])| + q; i < |Flat(f, xs)| && Flat(f, xs)[i] == f(xs[k])[q]
  {
    FlatSlice(f, xs, k);
    var p := |Flat(f, xs[..k])|;
    assert Flat(f, xs)[p..p + |f(xs[k])|][q] == f(xs[k])[q];
  }

  // Every position of a concatenation is a position of one of its parts.
  lemma {:induction false} FlatFind<A, B>(f: A -> seq<B>, xs: seq<A>, p: nat) returns (k: nat, q: nat)
    requires p < |Flat(f, xs)|
    ensures k < |xs| && q < |f(xs[k])| && p == |Flat(f, xs[..k])| + q
    decreases |xs|
  {
    var n := |xs| - 1;
    if p < |Flat(f, xs[..n])| {
      k, q := FlatFind(f, xs[..n], p);
      assert xs[..n][..k] == xs[..k];
    } else {
      k, q := n, p - |Flat(f, xs[..n])|;
    }
  }

  lemma {:induction false} FlatIn<A, B>(f: A -> seq<B>, xs: seq<A>, y: B)
    ensures y in Flat(f, xs) <==> exists k :: 0 <= k < |xs| && y in f(xs[k])
  {
    if xs != [] {
      var n := |xs| - 1;
      FlatIn(f, xs[..n], y);
      if k :| 0 <= k < |xs| && y in f(xs[k]) {
        assert k < n ==> y in f(xs[..n][k]);
      }
      if k :| 0 <= k < n && y in f(xs[..n][k]) {
        assert y in f(xs[k]);
      }
    }
  }

  // ----- layout -----

  function MainOf(m: Module): seq<byte> { if m.mainSize <= |m.code| then m.code[..m.mainSize] else m.code }
  function FuncOf(m: Module): seq<byte> { if m.mainSize <= |m.code| then m.code[m.mainSize..] else [] }
  function GlobalDefsOf(m: Module): seq<IdSize> { m.globalDefs }
  function NativeDefsOf(m: Module): seq<string> { m.nativeDefs }

  function Mains(ms: seq<Module>): seq<byte> { Flat(MainOf, ms) }
  function Funcs(ms: seq<Module>): seq<byte> { Flat(FuncOf, ms) }
  function GlobalDefs(ms: seq<Module>): seq<IdSize> { Flat(GlobalDefsOf, ms) }
  function NativeDefs(ms: seq<Module>): seq<string> { Flat(NativeDefsOf, ms) }

  datatype Placed = Placed(m: Module, at: Spot)

  // The modules one after the other, their main segments from mainAt and their function segments from
  // funcAt on.
  function LayOut(ms: seq<Module>, mainAt: nat, funcAt: nat): (ps: seq<Placed>)
    ensures |ps| == |ms|
  {
    seq(|ms|, i requires 0 <= i < |ms| =>
      Placed(ms[i], Spot(ms[i].mainSize, mainAt + |Mains(ms[..i])|, funcAt + |Funcs(ms[..i])|)))
  }

  function GlobalRefsOf(p: Placed): seq<IdAddresses> { Moved(p.m.globalRefs, p.at) }
  function FuncRefsOf(p: Placed): seq<IdAddresses> { Moved(p.m.funcRefs, p.at) }
  function NativeRefsOf(p: Placed): seq<IdAddresses> { Moved(p.m.nativeRefs, p.at) }
  function FuncDefsOf(p: Placed): seq<IdAddress> { MovedDefs(p.m.funcDefs, p.at) }

  function MovedDefs(ds: seq<IdAddress>, at: Spot): seq<IdAddress> {
    seq(|ds|, i requires 0 <= i < |ds| => IdAddress(ds[i].id, Place(ds[i].address, at)))
  }

  lemma SizesAppend(a: seq<Module>, b: seq<Module>)
    ensures |Mains(a + b)| == |Mains(a)| + |Mains(b)| && |Funcs(a + b)| == |Funcs(a)| + |Funcs(b)|
  {
    FlatAppend(MainOf, a, b);
    FlatAppend(FuncOf, a, b);
  }

  lemma LayOutAppend(a: seq<Module>, b: seq<Module>, mainAt: nat, funcAt: nat)
    ensures LayOut(a + b, mainAt, funcAt) ==
      LayOut(a, mainAt, funcAt) + LayOut(b, mainAt + |Mains(a)|, funcAt + |Funcs(a)|)
  {
    hide Mains, Funcs;
    var p, q := LayOut(a, mainAt, funcAt), LayOut(b, mainAt + |Mains(a)|, funcAt + |Funcs(a)|);
    forall i | 0 <= i < |b|
      ensures LayOut(a + b, mainAt, funcAt)[|a| + i] == q[i]
    {
      assert (a + b)[..|a| + i] == a + b[..i];
      SizesAppend(a, b[..i]);
    }
    forall i | 0 <= i < |a|
      ensures LayOut(a + b, mainAt, funcAt)[i] == p[i]
    {
      assert (a + b)[..i] == a[..i];
    }
  }

  lemma LayOutOne(m: Module, mainAt: nat, funcAt: nat)
    ensures LayOut([m], mainAt, funcAt) == [Placed(m, Spot(m.mainSize, mainAt, funcAt))]
  {
    assert [m][..0] == [];
    assert |Mains([])| == 0 && |Funcs([])| == 0;
  }

  // ----- definitions -----

  function DefIds(ds: seq<IdAddress>): (r: seq<string>)
    ensures |r| == |ds|
  {
    seq(|ds|, i requires 0 <= i < |ds| => ds[i].id)
  }

  function VarIds(ds: seq<IdSize>): (r: seq<string>)
    ensures |r| == |ds|
  {
    seq(|ds|, i requires 0 <= i < |ds| => ds[i].id)
  }

  function SlotSum(ds: seq<IdSize>): nat { if ds == [] then 0 else SlotSum(ds[..|ds| - 1]) + ds[|ds| - 1].size }

  // The slot counter, a 32-bit number, is only tested for being at its maximum before a definition.
  predicate SlotsCount(ds: seq<IdSize>) { forall k :: 0 <= k < |ds| ==> SlotSum(ds[..k]) % U32 != U32 - 1 }

  function SlotMap(ds: seq<IdSize>): map<string, nat> {
    if ds == [] then map[]
    else SlotMap(ds[..|ds| - 1])[ds[|ds| - 1].id := SlotSum(ds[..|ds| - 1]) % U32]
  }

  function AddressMap(ds: seq<IdAddress>): map<string, nat> {
    if ds == [] then map[] else AddressMap(ds[..|ds| - 1])[ds[|ds| - 1].id := ds[|ds| - 1].address]
  }

  lemma {:induction false} SlotMapAt(ds: seq<IdSize>, k: nat)
    requires Distinct(VarIds(ds)) && k < |ds|
    ensures ds[k].id in SlotMap(ds) && SlotMap(ds)[ds[k].id] == SlotSum(ds[..k]) % U32
    decreases |ds|
  {
    var n := |ds| - 1;
    if k < n {
      assert VarIds(ds)[..n] == VarIds(ds[..n]);
      SlotMapAt(ds[..n], k);
      assert ds[..n][..k] == ds[..k];
      assert VarIds(ds)[k] != VarIds(ds)[n];
    }
  }

  lemma {:induction false} AddressMapAt(ds: seq<IdAddress>, k: nat)
    requires Distinct(DefIds(ds)) && k < |ds|
    ensures ds[k].id in AddressMap(ds) && AddressMap(ds)[ds[k].id] == ds[k].address
    decreases |ds|
  {
    var n := |ds| - 1;
    if k < n {
      assert DefIds(ds)[..n] == DefIds(ds[..n]);
      AddressMapAt(ds[..n], k);
      assert DefIds(ds)[k] != DefIds(ds)[n];
    }
  }

  lemma {:induction false} SlotMapKeys(ds: seq<IdSize>, x: string)
    ensures x in SlotMap(ds) <==> x in VarIds(ds)
  {
    if ds != [] {
      var n := |ds| - 1;
      SlotMapKeys(ds[..n], x);
      assert VarIds(ds) == VarIds(ds[..n]) + [ds[n].id];
    }
  }

  lemma {:induction false} AddressMapKeys(ds: seq<IdAddress>, x: string)
    ensures x in AddressMap(ds) <==> x in DefIds(ds)
  {
    if ds != [] {
      var n := |ds| - 1;
      AddressMapKeys(ds[..n], x);
      assert DefIds(ds) == DefIds(ds[..n]) + [ds[n].id];
    }
  }

  // ----- placeholders -----

  // A 32-bit word written over the code.
  function Put(code: seq<byte>, a: nat, n: nat): (r: seq<byte>)
    ensures |r| == |code|
  {
    if a + 4 <= |code| then code[..a] + LE32(n) + code[a + 4..] else code
  }

  function PutAll(code: seq<byte>, addresses: seq<nat>, n: nat): (r: seq<byte>)
    ensures |r| == |code|
  {
    if addresses == [] then code else Put(PutAll(code, addresses[..|addresses| - 1], n), addresses[|addresses| - 1], n)
  }

  // Every placeholder given its name's number.
  function Fill(code: seq<byte>, refs: seq<IdAddresses>, numbers: map<string, nat>): (r: seq<byte>)
    ensures |r| == |code|
  {
    if refs == [] then code
    else
      var last, r := refs[|refs| - 1], Fill(code, refs[..|refs| - 1], numbers);
      if last.id in numbers then PutAll(r, last.addresses, numbers[last.id]) else r
  }

  function Filled(m: Module, slots: map<string, nat>, funcs: map<string, nat>): Module {
    m.(code := Fill(Fill(m.code, m.globalRefs, slots), m.funcRefs, funcs))
  }

  function FillEach(ms: seq<Module>, slots: map<string, nat>, funcs: map<string, nat>): (r: seq<Module>)
    ensures |r| == |ms|
  {
    seq(|ms|, i requires 0 <= i < |ms| => Filled(ms[i], slots, funcs))
  }

  // ----- executables and libraries -----

  function ExeSpots(ms: seq<Module>): seq<Placed> { LayOut(ms, 0, |Mains(ms)|) }

  function FuncDefs(ms: seq<Module>): seq<IdAddress> { Flat(FuncDefsOf, ExeSpots(ms)) }

  // No duplicate and no overflow: what both linkers demand.
  ghost predicate Joinable(ms: seq<Module>) {
    |Mains(ms)| + |Funcs(ms)| < U32 &&
    Distinct(VarIds(GlobalDefs(ms))) && Distinct(DefIds(FuncDefs(ms))) && Distinct(NativeDefs(ms))
  }

  predicate AllKnown(refs: seq<IdAddresses>, ids: seq<string>) { forall x :: x in Ids(refs) ==> x in ids }

  // What an executable needs beyond that: every reference has its definition, and slots can be counted.
  ghost predicate Linkable(ms: seq<Module>) {
    Joinable(ms) && SlotsCount(GlobalDefs(ms)) &&
    AllKnown(Flat(GlobalRefsOf, ExeSpots(ms)), VarIds(GlobalDefs(ms))) &&
    AllKnown(Flat(FuncRefsOf, ExeSpots(ms)), DefIds(FuncDefs(ms))) &&
    AllKnown(Flat(NativeRefsOf, ExeSpots(ms)), NativeDefs(ms))
  }

  function ExeCode(ms: seq<Module>): seq<byte> {
    var filled := FillEach(ms, SlotMap(GlobalDefs(ms)), AddressMap(FuncDefs(ms)));
    Mains(filled) + Funcs(filled)
  }

  function ExeOf(ms: seq<Module>, version: nat): Exe {
    Exe(version, ExeCode(ms), |Mains(ms)|, SlotSum(GlobalDefs(ms)) % U32, NativeDefs(ms),
      Table(Flat(NativeRefsOf, ExeSpots(ms))))
  }

  function LibOf(ms: seq<Module>, version: nat): Module {
    Module(version, Mains(ms) + Funcs(ms), |Mains(ms)|, FuncDefs(ms), GlobalDefs(ms), NativeDefs(ms),
      Table(Flat(FuncRefsOf, ExeSpots(ms))), Table(Flat(NativeRefsOf, ExeSpots(ms))),
      Table(Flat(GlobalRefsOf, ExeSpots(ms))))
  }
}
