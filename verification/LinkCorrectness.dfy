/** What an executable contains: every byte and every placeholder, and the slots of the globals. */
module LinkCorrectness {
  import opened Bytes
  import opened Containers
  import opened References
  import opened Linking
  import opened Filling
  import opened LinkTheorems

  lemma ExeIsFilled(ms: seq<Module>)
    ensures ExeCode(ms) == Whole(FillEach(ms, SlotMap(GlobalDefs(ms)), AddressMap(FuncDefs(ms))))
  {
  }

  // Every byte of the executable is a byte of exactly one module, at its place.
  lemma BytesTile(ms: seq<Module>, p: nat) returns (k: nat, q: nat)
    requires AllWellFormed(ms) && Joinable(ms) && p < |ExeCode(ms)|
    ensures k < |ms| && q < |ms[k].code| && Place(q, SpotOf(ms, k)) == p
    ensures forall j: nat, r: nat :: j < |ms| && r < |ms[j].code| && Place(r, SpotOf(ms, j)) == p ==> j == k && r == q
  {
    FilledFits(ms, SlotMap(GlobalDefs(ms)), AddressMap(FuncDefs(ms)));
    hide FillEach;
    k, q := Locate(ms, p);
    forall j: nat, r: nat | j < |ms| && r < |ms[j].code| && Place(r, SpotOf(ms, j)) == p
      ensures j == k && r == q
    {
      if j <= k {
        PlaceOnce(ms, j, r, k, q);
      } else {
        PlaceOnce(ms, k, q, j, r);
      }
    }
  }

  lemma PlaceOnce(ms: seq<Module>, j: nat, r: nat, k: nat, q: nat)
    requires AllWellFormed(ms) && |Whole(ms)| < U32 && j <= k < |ms|
    requires r < |ms[j].code| && q < |ms[k].code| && Place(r, SpotOf(ms, j)) == Place(q, SpotOf(ms, k))
    ensures j == k && r == q
  {
    hide Place, SpotOf;
    SpotFacts(ms, j);
    SpotFacts(ms, k);
    Placing(ms, j, r);
    Placing(ms, k, q);
    if j < k {
      SpotsOrdered(ms, j, k);
    }
    hide Mains, Funcs;
  }

  // A byte outside the global and function placeholders is the module's.
  lemma BytesKept(ms: seq<Module>, k: nat, q: nat)
    requires AllWellFormed(ms) && Joinable(ms) && k < |ms| && q < |ms[k].code|
    requires forall x, a: nat :: HasRef(ms[k].globalRefs, x, a) || HasRef(ms[k].funcRefs, x, a) ==> !(a <= q < a + 4)
    ensures var p := Place(q, SpotOf(ms, k)); p < |ExeCode(ms)| && ExeCode(ms)[p] == ms[k].code[q]
  {
    hide Place, SpotOf, WellFormed, Filled;
    var slots, funcs := SlotMap(GlobalDefs(ms)), AddressMap(FuncDefs(ms));
    var fs, p := FillEach(ms, slots, funcs), Place(q, SpotOf(ms, k));
    ExeIsFilled(ms);
    FilledFits(ms, slots, funcs);
    SameSize(ms[k], slots, funcs);
    Stretch(fs, k, q, 1);
    assert Whole(fs)[p] == Whole(fs)[p..p + 1][0] == fs[k].code[q..q + 1][0];
    FilledBytes(ms[k], slots, funcs);
  }

  // A global's placeholder holds the global's slot.
  lemma GlobalRefHolds(ms: seq<Module>, k: nat, id: string, a: nat)
    requires AllWellFormed(ms) && Linkable(ms) && k < |ms| && HasRef(ms[k].globalRefs, id, a)
    ensures id in SlotMap(GlobalDefs(ms)) && SlotMap(GlobalDefs(ms))[id] < U32
    ensures var p := Place(a, SpotOf(ms, k));
      p + 4 <= |ExeCode(ms)| && FromLE32(ExeCode(ms)[p..p + 4]) == SlotMap(GlobalDefs(ms))[id]
  {
    hide Place, SpotOf, WellFormed, Filled, LE32, FromLE32, FillEach;
    var slots, funcs := SlotMap(GlobalDefs(ms)), AddressMap(FuncDefs(ms));
    KindsPlace();
    Known(ms, GlobalRefsOf, GlobalRefsIn, VarIds(GlobalDefs(ms)), k, id, a);
    SlotMapKeys(GlobalDefs(ms), id);
    SlotMapSmall(GlobalDefs(ms), id);
    ModuleField(ms[k], GlobalRefsIn, slots, funcs, slots, id, a);
    JoinedField(ms, FillEach(ms, slots, funcs), slots, funcs, k, a);
    ExeIsFilled(ms);
    LE32RoundTrip(slots[id]);
  }

  // A function's placeholder holds the address at which the function's own code stands.
  lemma FuncRefHolds(ms: seq<Module>, k: nat, id: string, a: nat, j: nat, i: nat)
    requires AllWellFormed(ms) && Linkable(ms) && k < |ms| && HasRef(ms[k].funcRefs, id, a)
    requires j < |ms| && i < |ms[j].funcDefs| && ms[j].funcDefs[i].id == id
    ensures var p := Place(a, SpotOf(ms, k));
      p + 4 <= |ExeCode(ms)| &&
      FromLE32(ExeCode(ms)[p..p + 4]) == Place(ms[j].funcDefs[i].address, SpotOf(ms, j))
  {
    hide Place, SpotOf, WellFormed, Filled, LE32, FromLE32, FillEach, LayOut;
    var slots, funcs := SlotMap(GlobalDefs(ms)), AddressMap(FuncDefs(ms));
    FuncAddress(ms, j, i);
    PlaceSmall(ms[j].funcDefs[i].address, SpotOf(ms, j));
    ModuleField(ms[k], FuncRefsIn, slots, funcs, funcs, id, a);
    JoinedField(ms, FillEach(ms, slots, funcs), slots, funcs, k, a);
    ExeIsFilled(ms);
    LE32RoundTrip(funcs[id]);
  }

  // Every function reference has a definition.
  lemma FuncDefined(ms: seq<Module>, k: nat, id: string, a: nat) returns (j: nat, i: nat)
    requires AllWellFormed(ms) && Linkable(ms) && k < |ms| && HasRef(ms[k].funcRefs, id, a)
    ensures j < |ms| && i < |ms[j].funcDefs| && ms[j].funcDefs[i].id == id
  {
    hide Place, WellFormed, AllWellFormed, Joinable, FuncDefsOf, LayOut, AllKnown;
    KindsPlace();
    Known(ms, FuncRefsOf, FuncRefsIn, DefIds(FuncDefs(ms)), k, id, a);
    var n :| 0 <= n < |FuncDefs(ms)| && DefIds(FuncDefs(ms))[n] == id;
    j, i := FlatFind(FuncDefsOf, ExeSpots(ms), n);
    FlatAt(FuncDefsOf, ExeSpots(ms), j, i);
    MovedDef(ms, j);
  }

  lemma MovedDef(ms: seq<Module>, j: nat)
    requires j < |ms|
    ensures var ds := FuncDefsOf(ExeSpots(ms)[j]);
      |ds| == |ms[j].funcDefs| &&
      forall i :: 0 <= i < |ds| ==>
        ds[i] == IdAddress(ms[j].funcDefs[i].id, Place(ms[j].funcDefs[i].address, SpotOf(ms, j)))
  {
    hide Place, Mains, Funcs;
  }

  lemma Known(ms: seq<Module>, f: Placed -> seq<IdAddresses>, g: Module -> seq<IdAddresses>, ids: seq<string>,
              k: nat, id: string, a: nat)
    requires Places(f, g) && AllKnown(Flat(f, ExeSpots(ms)), ids) && k < |ms| && HasRef(g(ms[k]), id, a)
    ensures id in ids
  {
    hide Place, HasRef;
    var ps, b := ExeSpots(ms), Place(a, SpotOf(ms, k));
    MovedRef(g(ms[k]), ps[k].at, id, b);
    FlatRef(f, ps, id, b);
    assert HasRef(f(ps[k]), id, b);
    RefNamed(Flat(f, ps), id, b);
  }

  lemma RefNamed(refs: seq<IdAddresses>, id: string, a: nat)
    requires HasRef(refs, id, a)
    ensures id in Ids(refs)
  {
    var i :| 0 <= i < |refs| && refs[i].id == id && a in refs[i].addresses;
    assert Ids(refs)[i] == id;
  }

  lemma {:induction false} SlotMapSmall(ds: seq<IdSize>, x: string)
    ensures x in SlotMap(ds) ==> SlotMap(ds)[x] < U32
  {
    if ds != [] {
      SlotMapSmall(ds[..|ds| - 1], x);
    }
  }

  lemma PlaceSmall(a: nat, at: Spot)
    ensures Place(a, at) < U32
  {
  }

  // A definition's address is where it was placed.
  lemma FuncAddress(ms: seq<Module>, j: nat, i: nat)
    requires AllWellFormed(ms) && Joinable(ms) && j < |ms| && i < |ms[j].funcDefs|
    ensures var id := ms[j].funcDefs[i].id;
      id in AddressMap(FuncDefs(ms)) && AddressMap(FuncDefs(ms))[id] == Place(ms[j].funcDefs[i].address, SpotOf(ms, j))
  {
    hide Place, AllWellFormed, LayOut, Distinct, FuncDefsOf;
    MovedDef(ms, j);
    FlatAt(FuncDefsOf, ExeSpots(ms), j, i);
    AddressMapAt(FuncDefs(ms), |Flat(FuncDefsOf, ExeSpots(ms)[..j])| + i);
  }

  // ----- slots -----

  lemma {:induction false} SlotSumGrows(ds: seq<IdSize>, i: nat, j: nat)
    requires i <= j <= |ds|
    ensures SlotSum(ds[..i]) <= SlotSum(ds[..j])
    ensures i < j ==> SlotSum(ds[..i]) + ds[i].size <= SlotSum(ds[..j])
    decreases j - i
  {
    if i < j {
      assert ds[..j][..j - 1] == ds[..j - 1];
      SlotSumGrows(ds, i, j - 1);
    }
  }

  // The slots of the k-th global.
  predicate Holding(ds: seq<IdSize>, k: nat, slot: nat)
    requires k < |ds|
  {
    SlotSum(ds[..k]) % U32 <= slot < SlotSum(ds[..k]) % U32 + ds[k].size
  }

  // The counter's test in numbers: a definition is refused when exactly 2^32 - 1 slots are taken before it.
  lemma CountRefuses(ds: seq<IdSize>, d: IdSize)
    requires SlotSum(ds) == 0xFFFF_FFFF
    ensures !SlotsCount(ds + [d])
  {
    hide SlotSum;
    assert (ds + [d])[..|ds|] == ds;
  }

  // None is as long as all of them fit in that many.
  lemma CountAccepts(ds: seq<IdSize>)
    requires SlotSum(ds) <= 0xFFFF_FFFF && forall i :: 0 <= i < |ds| ==> 1 <= ds[i].size <= 2
    ensures SlotsCount(ds)
  {
    hide SlotSum;
    forall k | 0 <= k < |ds|
      ensures SlotSum(ds[..k]) % U32 != U32 - 1
    {
      assert ds[..|ds|] == ds;
      SlotSumGrows(ds, k, |ds|);
    }
  }

  // The globals' slots are within the recorded total exactly when the total fits 32 bits: the counter
  // is tested for its last value only, which a global of two slots steps over.
  lemma SlotsWithin(ds: seq<IdSize>)
    requires SlotsCount(ds) && forall i :: 0 <= i < |ds| ==> 1 <= ds[i].size <= 2
    ensures SlotSum(ds) < U32 <==>
      forall k, slot: nat :: 0 <= k < |ds| && Holding(ds, k, slot) ==> slot < SlotSum(ds) % U32
  {
    assert ds[..|ds|] == ds;
    if SlotSum(ds) < U32 {
      forall k, slot: nat | 0 <= k < |ds| && Holding(ds, k, slot)
        ensures slot < SlotSum(ds) % U32
      {
        SlotInside(ds, k, slot);
      }
    } else {
      var k := SlotWrap(ds, |ds|);
      LastSlot(ds, k);
    }
  }

  lemma SlotInside(ds: seq<IdSize>, k: nat, slot: nat)
    requires SlotSum(ds) < U32 && k < |ds| && Holding(ds, k, slot)
    ensures slot < SlotSum(ds) % U32
  {
    assert ds[..|ds|] == ds;
    SlotSumGrows(ds, k, |ds|);
    hide SlotSum;
  }

  // The counter's last value is within the global that wraps it, and within no recorded total.
  lemma LastSlot(ds: seq<IdSize>, k: nat)
    requires SlotsCount(ds) && k < |ds| && ds[k].size <= 2
    requires SlotSum(ds[..k]) < U32 <= SlotSum(ds[..k]) + ds[k].size
    ensures Holding(ds, k, U32 - 1) && U32 - 1 >= SlotSum(ds) % U32
  {
    assert SlotSum(ds[..k]) % U32 != U32 - 1;
    hide SlotSum;
  }

  // The global whose slots reach the end of 32 bits.
  lemma {:induction false} SlotWrap(ds: seq<IdSize>, n: nat) returns (k: nat)
    requires n <= |ds| && SlotSum(ds[..n]) >= U32
    ensures k < n && SlotSum(ds[..k]) < U32 <= SlotSum(ds[..k]) + ds[k].size
  {
    assert ds[..0] == [];
    assert ds[..n][..n - 1] == ds[..n - 1];
    if SlotSum(ds[..n - 1]) >= U32 {
      k := SlotWrap(ds, n - 1);
    } else {
      k := n - 1;
    }
  }

  // Then every slot belongs to exactly one global.
  lemma SlotsTile(ds: seq<IdSize>, slot: nat) returns (k: nat)
    requires slot < SlotSum(ds) < U32
    ensures k < |ds| && Holding(ds, k, slot)
    ensures forall j: nat :: j < |ds| && Holding(ds, j, slot) ==> j == k
  {
    assert ds[..|ds|] == ds;
    k := SlotOwner(ds, slot, |ds|);
    SlotSumGrows(ds, k, |ds|);
    forall j: nat | j < |ds| && Holding(ds, j, slot)
      ensures j == k
    {
      SlotSumGrows(ds, j, |ds|);
      if j < k {
        SlotSumGrows(ds, j, k);
      } else {
        SlotSumGrows(ds, k, j);
      }
    }
  }

  lemma {:induction false} SlotOwner(ds: seq<IdSize>, slot: nat, n: nat) returns (k: nat)
    requires n <= |ds| && slot < SlotSum(ds[..n])
    ensures k < n && SlotSum(ds[..k]) <= slot < SlotSum(ds[..k]) + ds[k].size
  {
    assert ds[..0] == [];
    assert ds[..n][..n - 1] == ds[..n - 1];
    if slot < SlotSum(ds[..n - 1]) {
      k := SlotOwner(ds, slot, n - 1);
    } else {
      k := n - 1;
    }
  }

  // 2^31 globals of two slots each are accepted, and their recorded total is 0.
  function ManyDefs(n: nat): (ds: seq<IdSize>)
    ensures |ds| == n
  {
    seq(n, i requires 0 <= i < n => IdSize(seq(i, _ => 'x'), 2))
  }

  lemma {:induction false} ManySum(n: nat, k: nat)
    requires k <= n
    ensures SlotSum(ManyDefs(n)[..k]) == 2 * k
    decreases k
  {
    if k > 0 {
      assert ManyDefs(n)[..k][..k - 1] == ManyDefs(n)[..k - 1];
      ManySum(n, k - 1);
    }
  }

  lemma SlotsWrap()
    ensures SlotsCount(ManyDefs(I31)) && SlotSum(ManyDefs(I31)) % U32 == 0
    ensures Distinct(VarIds(ManyDefs(I31)))
  {
    var ds := ManyDefs(I31);
    forall k | 0 <= k < |ds|
      ensures SlotSum(ds[..k]) % U32 != U32 - 1
    {
      ManySum(I31, k);
    }
    ManySum(I31, I31);
    assert ds[..I31] == ds;
    forall i, j | 0 <= i < j < |ds|
      ensures VarIds(ds)[i] != VarIds(ds)[j]
    {
      assert |VarIds(ds)[i]| == i && |VarIds(ds)[j]| == j;
    }
  }
}
