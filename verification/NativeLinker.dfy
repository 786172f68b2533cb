/** The last pass over an executable, when it is loaded: native function references get the index of
    their function in the table of used native functions. */
module NativeLinker {
  import opened Bytes
  import opened Buffer
  import opened Containers
  import opened References
  import opened Linking
  import opened Filling
  import opened LinkTheorems
  import opened LinkCorrectness
  import opened Linker

  // The index of each id's entry.
  function IndexMap(refs: seq<IdAddresses>): map<string, nat> {
    if refs == [] then map[] else IndexMap(refs[..|refs| - 1])[refs[|refs| - 1].id := |refs| - 1]
  }

  lemma {:induction false} IndexMapAt(refs: seq<IdAddresses>, k: nat)
    requires Distinct(Ids(refs)) && k < |refs|
    ensures refs[k].id in IndexMap(refs) && IndexMap(refs)[refs[k].id] == k
    decreases |refs|
  {
    var n := |refs| - 1;
    if k < n {
      assert Ids(refs)[..n] == Ids(refs[..n]);
      assert Ids(refs)[k] != Ids(refs)[n];
      IndexMapAt(refs[..n], k);
    }
  }

  lemma {:induction false} FillSame(code: seq<byte>, refs: seq<IdAddresses>, p: map<string, nat>, q: map<string, nat>)
    requires forall i :: 0 <= i < |refs| ==> refs[i].id in p && refs[i].id in q && p[refs[i].id] == q[refs[i].id]
    ensures Fill(code, refs, p) == Fill(code, refs, q)
    decreases |refs|
  {
    if refs != [] {
      FillSame(code, refs[..|refs| - 1], p, q);
    }
  }

  // Filling the entries before the i-th, then the i-th with its index.
  lemma FillIndex(code: seq<byte>, refs: seq<IdAddresses>, i: nat)
    requires i < |refs| && Distinct(Ids(refs))
    ensures Fill(code, refs[..i + 1], IndexMap(refs[..i + 1])) ==
      PutAll(Fill(code, refs[..i], IndexMap(refs[..i])), refs[i].addresses, i)
  {
    hide PutAll;
    var a, b := refs[..i + 1], refs[..i];
    assert a[..i] == b;
    assert Ids(a) == Ids(refs)[..i + 1] && Ids(b) == Ids(refs)[..i];
    forall k | 0 <= k < i
      ensures b[k].id in IndexMap(a) && b[k].id in IndexMap(b) && IndexMap(a)[b[k].id] == IndexMap(b)[b[k].id]
    {
      assert a[k] == b[k];
      IndexMapAt(a, k);
      IndexMapAt(b, k);
    }
    FillSame(code, b, IndexMap(a), IndexMap(b));
    IndexMapAt(a, i);
  }

  // The functions registered for the ids in use are told apart by their values.
  predicate Injective<F(==)>(ids: seq<string>, available: map<string, F>) {
    forall i, j :: 0 <= i < j < |ids| && ids[i] in available && ids[j] in available ==>
      available[ids[i]] != available[ids[j]]
  }

  method PutAllWords(addresses: seq<nat>, n: nat, out: Code)
    requires out.Valid() && n < U32
    requires forall i :: 0 <= i < |addresses| ==> addresses[i] + 4 <= out.size
    modifies out, out.bytes
    ensures out.Valid() && out.bytes == old(out.bytes) && out.size == old(out.size)
    ensures out.Contents() == PutAll(old(out.Contents()), addresses, n)
  {
    hide Put;
    ghost var c := out.Contents();
    var j := 0;
    while j < |addresses|
      invariant 0 <= j <= |addresses|
      invariant out.Valid() && out.bytes == old(out.bytes) && out.size == |c|
      invariant out.Contents() == PutAll(c, addresses[..j], n)
    {
      PutWord(out, addresses[j], n);
      j := j + 1;
      assert addresses[..j][..j - 1] == addresses[..j - 1];
    }
    assert addresses[..j] == addresses;
  }

  // SimpleNativeFuncLinker::Link. The used functions are those of the references, in order; each
  // reference's placeholders hold its function's index. It fails on an id that no function is
  // registered for.
  method Link<F(==)>(refs: seq<IdAddresses>, available: map<string, F>, out: Code)
      returns (used: seq<F>, missing: Result<bool>)
    requires out.Valid() && |refs| < U32 && Distinct(Ids(refs)) && Injective(Ids(refs), available)
    requires forall x, a: nat :: HasRef(refs, x, a) ==> a + 4 <= out.size
    modifies out, out.bytes
    ensures out.Valid() && out.bytes == old(out.bytes) && out.size == old(out.size)
    ensures missing.Ok? <==> forall x :: x in Ids(refs) ==> x in available
    ensures missing.Ok? ==> |used| == |refs|
    ensures missing.Ok? ==>
      forall k :: 0 <= k < |refs| ==> refs[k].id in available && used[k] == available[refs[k].id]
    ensures missing.Ok? ==> out.position == 0 && out.Contents() == Fill(old(out.Contents()), refs, IndexMap(refs))
    ensures missing.Err? ==>
      missing.error.MissingDef? && missing.error.id in Ids(refs) && missing.error.id !in available
  {
    hide HasRef, PutAll, Fill, IndexMap;
    ghost var c := out.Contents();
    used := [];
    var i := 0;
    FillNone(c);
    while i < |refs|
      invariant 0 <= i <= |refs| && |used| == i
      invariant out.Valid() && out.bytes == old(out.bytes) && out.size == |c|
      invariant forall k :: 0 <= k < i ==> refs[k].id in available && used[k] == available[refs[k].id]
      invariant out.Contents() == Fill(c, refs[..i], IndexMap(refs[..i]))
    {
      if refs[i].id !in available {
        assert Ids(refs)[i] == refs[i].id;
        return used, Err(MissingDef(refs[i].id));
      }
      forall k | 0 <= k < i
        ensures used[k] != available[refs[i].id]
      {
        assert Ids(refs)[k] != Ids(refs)[i];
      }
      used := used + [available[refs[i].id]];
      EntryFits(refs, i, out.size);
      PutAllWords(refs[i].addresses, i, out);
      FillIndex(c, refs, i);
      i := i + 1;
    }
    assert refs[..i] == refs;
    out.SetPosition(0);
    missing := Ok(true);
  }

  lemma FillNone(c: seq<byte>)
    ensures forall s: seq<IdAddresses> :: s == [] ==> Fill(c, s, IndexMap(s)) == c
  {
  }

  lemma EntryFits(refs: seq<IdAddresses>, i: nat, n: nat)
    requires i < |refs| && forall x, a: nat :: HasRef(refs, x, a) ==> a + 4 <= n
    ensures forall j :: 0 <= j < |refs[i].addresses| ==> refs[i].addresses[j] + 4 <= n
  {
    forall j | 0 <= j < |refs[i].addresses|
      ensures refs[i].addresses[j] + 4 <= n
    {
      assert refs[i].addresses[j] in refs[i].addresses;
      assert HasRef(refs, refs[i].id, refs[i].addresses[j]);
    }
  }

  // ----- an executable linked with its natives -----

  function Loaded(e: Exe): seq<byte> { Fill(e.code, e.nativeRefs, IndexMap(e.nativeRefs)) }

  // The linked executable's native references are apart from all others, and each id has one entry.
  lemma NativeFields(ms: seq<Module>, version: nat)
    requires AllWellFormed(ms) && Linkable(ms)
    ensures var e, lib := ExeOf(ms, version), LibOf(ms, version);
      Spaced(e.nativeRefs, |e.code|) && Distinct(Ids(e.nativeRefs)) &&
      RefsApart(lib.globalRefs, e.nativeRefs) && RefsApart(lib.funcRefs, e.nativeRefs)
  {
    hide Table, ExeSpots, Mains, Funcs, FillEach, Flat;
    var e, lib := ExeOf(ms, version), LibOf(ms, version);
    LibWellFormed(ms, version);
    FilledFits(ms, SlotMap(GlobalDefs(ms)), AddressMap(FuncDefs(ms)));
    forall x, a: nat | HasRef(lib.nativeRefs, x, a)
      ensures a + 4 <= |lib.code|
    {
      assert IsRef(lib.nativeRefs, a);
    }
    TableDistinct(Flat(NativeRefsOf, ExeSpots(ms)));
  }

  lemma TableDistinct(refs: seq<IdAddresses>)
    ensures Distinct(Ids(Table(refs)))
  {
    IdsOf(refs, [], Spot(0, 0, 0));
    IdsOf(Merged(refs), [], Spot(0, 0, 0));
    FirstsFacts(Ids(refs));
  }

  // A native's placeholder holds an index, and the entry at that index is the one of its id.
  lemma NativeRefHolds(ms: seq<Module>, version: nat, k: nat, id: string, a: nat) returns (index: nat)
    requires AllWellFormed(ms) && Linkable(ms) && k < |ms| && HasRef(ms[k].nativeRefs, id, a)
    ensures var e, p := ExeOf(ms, version), Place(a, SpotOf(ms, k));
      p + 4 <= |Loaded(e)| && Loaded(e)[p..p + 4] == LE32(index) && index < |e.nativeRefs| &&
        e.nativeRefs[index].id == id
  {
    hide Table, ExeSpots, Mains, Funcs, FillEach, Flat, Fill, IndexMap, HasRef, Place, SpotOf, LE32;
    var e, b := ExeOf(ms, version), Place(a, SpotOf(ms, k));
    NativeFields(ms, version);
    KindsPlace();
    LibRef(ms, NativeRefsOf, NativeRefsIn, id, b);
    assert RefAt(ms, NativeRefsIn, id, b, k, a);
    FillBytes(e.code, e.nativeRefs, IndexMap(e.nativeRefs));
    index := IndexOfRef(e.nativeRefs, id, b);
    IndexMapAt(e.nativeRefs, index);
  }

  lemma IndexOfRef(refs: seq<IdAddresses>, id: string, a: nat) returns (k: nat)
    requires HasRef(refs, id, a)
    ensures k < |refs| && refs[k].id == id
  {
    k :| 0 <= k < |refs| && refs[k].id == id && a in refs[k].addresses;
  }

  // Global and function placeholders keep what the linker put there.
  lemma OthersKept(ms: seq<Module>, version: nat, k: nat, id: string, a: nat)
    requires AllWellFormed(ms) && Linkable(ms) && k < |ms|
    requires HasRef(ms[k].globalRefs, id, a) || HasRef(ms[k].funcRefs, id, a)
    ensures var e, p := ExeOf(ms, version), Place(a, SpotOf(ms, k));
      |Loaded(e)| == |e.code| && p + 4 <= |e.code| && Loaded(e)[p..p + 4] == e.code[p..p + 4]
  {
    hide Table, ExeSpots, Mains, Funcs, FillEach, Flat, Fill, IndexMap, HasRef, Place, SpotOf, WellFormed, IsRef,
      Filled;
    var e, lib, b := ExeOf(ms, version), LibOf(ms, version), Place(a, SpotOf(ms, k));
    var refs, numbers := e.nativeRefs, IndexMap(e.nativeRefs);
    NativeFields(ms, version);
    KindsPlace();
    FieldPlaced(ms, version, k, id, a);
    FillBytes(e.code, refs, numbers);
    forall p: nat | b <= p < b + 4
      ensures Loaded(e)[p] == e.code[p]
    {
      forall x, c: nat
        ensures !Covers(refs, numbers, x, c, p)
      {
        if HasRef(refs, x, c) {
          RefIs(refs, c);
        }
      }
    }
    assert Loaded(e)[b..b + 4] == e.code[b..b + 4];
  }

  lemma FieldPlaced(ms: seq<Module>, version: nat, k: nat, id: string, a: nat)
    requires AllWellFormed(ms) && Linkable(ms) && k < |ms|
    requires HasRef(ms[k].globalRefs, id, a) || HasRef(ms[k].funcRefs, id, a)
    ensures var lib, b := LibOf(ms, version), Place(a, SpotOf(ms, k));
      (IsRef(lib.globalRefs, b) || IsRef(lib.funcRefs, b)) && b + 4 <= |ExeCode(ms)|
  {
    hide Table, ExeSpots, Mains, Funcs, FillEach, Flat, HasRef, Place, SpotOf, WellFormed, IsRef, Filled;
    var lib, b := LibOf(ms, version), Place(a, SpotOf(ms, k));
    KindsPlace();
    FilledFits(ms, SlotMap(GlobalDefs(ms)), AddressMap(FuncDefs(ms)));
    ExeIsFilled(ms);
    if HasRef(ms[k].globalRefs, id, a) {
      LibRef(ms, GlobalRefsOf, GlobalRefsIn, id, b);
      assert RefAt(ms, GlobalRefsIn, id, b, k, a);
      RefIs(lib.globalRefs, b);
      KindFits(ms[k], GlobalRefsIn);
      FieldInSegment(GlobalRefsIn, ms[k], id, a);
    } else {
      LibRef(ms, FuncRefsOf, FuncRefsIn, id, b);
      assert RefAt(ms, FuncRefsIn, id, b, k, a);
      RefIs(lib.funcRefs, b);
      KindFits(ms[k], FuncRefsIn);
      FieldInSegment(FuncRefsIn, ms[k], id, a);
    }
    JoinedField(ms, FillEach(ms, SlotMap(GlobalDefs(ms)), AddressMap(FuncDefs(ms))), SlotMap(GlobalDefs(ms)),
      AddressMap(FuncDefs(ms)), k, a);
  }

  // A byte outside the module's own native placeholders is as the linker left it.
  lemma NativeKept(ms: seq<Module>, version: nat, k: nat, q: nat)
    requires AllWellFormed(ms) && Linkable(ms) && k < |ms| && q < |ms[k].code|
    requires forall x, a: nat :: HasRef(ms[k].nativeRefs, x, a) ==> !(a <= q < a + 4)
    ensures var e, p := ExeOf(ms, version), Place(q, SpotOf(ms, k));
      |Loaded(e)| == |e.code| && p < |e.code| && Loaded(e)[p] == e.code[p]
  {
    hide Table, ExeSpots, Mains, Funcs, FillEach, Flat, Fill, IndexMap, HasRef, Place, SpotOf, WellFormed, Filled;
    var e, p := ExeOf(ms, version), Place(q, SpotOf(ms, k));
    var refs, numbers := e.nativeRefs, IndexMap(e.nativeRefs);
    NativeFields(ms, version);
    KindsPlace();
    FilledFits(ms, SlotMap(GlobalDefs(ms)), AddressMap(FuncDefs(ms)));
    ExeIsFilled(ms);
    Stretch(ms, k, q, 1);
    FillBytes(e.code, refs, numbers);
    forall x, b: nat
      ensures !Covers(refs, numbers, x, b, p)
    {
      if Covers(refs, numbers, x, b, p) {
        CoveredIn(ms, k, q, x, b);
        assert false;
      }
    }
  }

  // A placed byte in a placed placeholder was in the placeholder.
  lemma CoveredIn(ms: seq<Module>, k: nat, q: nat, x: string, b: nat)
    requires AllWellFormed(ms) && |Whole(ms)| < U32 && k < |ms| && q < |ms[k].code|
    requires HasRef(Table(Flat(NativeRefsOf, ExeSpots(ms))), x, b) && b <= Place(q, SpotOf(ms, k)) < b + 4
    ensures exists y, a: nat :: HasRef(ms[k].nativeRefs, y, a) && a <= q < a + 4
  {
    hide Table, ExeSpots, HasRef, Place, SpotOf, WellFormed, Whole, IsRef;
    KindsPlace();
    var p := Place(q, SpotOf(ms, k));
    var j, a := LibField(ms, NativeRefsOf, NativeRefsIn, x, b);
    SameShift(ms, j, a, a + (p - b));
    SpotFacts(ms, j);
    assert InSegment(ms[j], a);
    if j <= k {
      PlaceOnce(ms, j, a + (p - b), k, q);
    } else {
      PlaceOnce(ms, k, q, j, a + (p - b));
    }
    assert HasRef(ms[k].nativeRefs, x, a);
  }
}
