/** The executable linker. */
module ExeLinker {
  import opened Bytes
  import opened Buffer
  import opened Containers
  import opened References
  import opened Linking
  import opened Filling
  import opened LinkTheorems
  import opened LinkCorrectness
  import opened Linker

  predicate Unknown(refs: seq<IdAddresses>, ids: seq<string>, id: string) { id in Ids(refs) && id !in ids }

  // The error that ended the linking is a fault of the modules.
  ghost predicate Explains(e: LinkError, ms: seq<Module>) {
    match e
    case CodeSizeOverflow => |Whole(ms)| >= U32
    case DefsCountOverflow => !SlotsCount(GlobalDefs(ms))
    case DuplicateDef(id) =>
      Twice(VarIds(GlobalDefs(ms)), id) || Twice(DefIds(FuncDefs(ms)), id) || Twice(NativeDefs(ms), id)
    case MissingDef(id) =>
      Unknown(Flat(GlobalRefsOf, ExeSpots(ms)), VarIds(GlobalDefs(ms)), id)
      || Unknown(Flat(FuncRefsOf, ExeSpots(ms)), DefIds(FuncDefs(ms)), id)
      || Unknown(Flat(NativeRefsOf, ExeSpots(ms)), NativeDefs(ms), id)
  }

  // ----- first loop: sizes and slots -----

  ghost predicate Scanned(ms: seq<Module>, i: nat, main: nat, size: nat, s: Slots)
    requires i <= |ms|
  {
    main == |Mains(ms[..i])| && size == |Mains(ms[..i])| + |Funcs(ms[..i])| < U32 && SlotsOf(s, GlobalDefs(ms[..i]))
  }

  lemma ScanStart(ms: seq<Module>)
    ensures Scanned(ms, 0, 0, 0, Slots(map[], 0))
  {
  }

  lemma ScanEnd(ms: seq<Module>, main: nat, size: nat, s: Slots)
    requires Scanned(ms, |ms|, main, size, s)
    ensures main == |Mains(ms)| && size == |Whole(ms)| < U32 && SlotsOf(s, GlobalDefs(ms))
  {
    hide SlotsOf;
    assert ms[..|ms|] == ms;
  }

  lemma SizeFault(ms: seq<Module>, i: nat)
    requires AllWellFormed(ms) && i < |ms| && |Mains(ms[..i])| + |Funcs(ms[..i])| + |ms[i].code| >= U32
    ensures Explains(CodeSizeOverflow, ms) && !Linkable(ms)
  {
    SizesNext(ms, i);
    hide Mains, Funcs;
  }

  lemma SlotFault(ms: seq<Module>, i: nat, e: LinkError)
    requires i < |ms| && SlotError(e, GlobalDefs(ms[..i]) + ms[i].globalDefs)
    ensures Explains(e, ms) && !Linkable(ms)
  {
    hide Distinct, SlotsCount, Twice, ExeSpots;
    VarsNext(ms, i);
    FlatRest(GlobalDefsOf, ms, i + 1);
    SlotErrorLater(e, GlobalDefs(ms[..i + 1]), GlobalDefs(ms[i + 1..]));
  }

  method ScanNext(ms: seq<Module>, i: nat, main: nat, size: nat, s: Slots) returns (r: Result<(nat, nat, Slots)>)
    requires AllWellFormed(ms) && i < |ms| && Scanned(ms, i, main, size, s)
    ensures r.Ok? ==> Scanned(ms, i + 1, r.value.0, r.value.1, r.value.2)
    ensures r.Err? ==> Explains(r.error, ms) && !Linkable(ms)
  {
    hide Mains, Funcs, GlobalDefs, SlotsOf, AllWellFormed, Explains, Linkable, SlotError;
    SizesNext(ms, i);
    VarsNext(ms, i);
    var sizes := AddSizes(main, size, ms[i]);
    if sizes.Err? {
      SizeFault(ms, i);
      return Err(sizes.error);
    }
    var slots := CollectSlots(ms[i].globalDefs, s, GlobalDefs(ms[..i]));
    if slots.Err? {
      SlotFault(ms, i, slots.error);
      return Err(slots.error);
    }
    r := Ok((sizes.value.0, sizes.value.1, slots.value));
  }

  method Scan(ms: seq<Module>) returns (r: Result<(nat, nat, Slots)>)
    requires AllWellFormed(ms)
    ensures r.Ok? ==>
      r.value.0 == |Mains(ms)| && r.value.1 == |Whole(ms)| < U32 && SlotsOf(r.value.2, GlobalDefs(ms))
    ensures r.Err? ==> Explains(r.error, ms) && !Linkable(ms)
  {
    hide *;
    var main: nat, size: nat, s := 0, 0, Slots(map[], 0);
    ScanStart(ms);
    var i := 0;
    while i < |ms|
      invariant 0 <= i <= |ms| && Scanned(ms, i, main, size, s)
    {
      r := ScanNext(ms, i, main, size, s);
      if r.Err? {
        return;
      }
      main, size, s := r.value.0, r.value.1, r.value.2;
      i := i + 1;
    }
    ScanEnd(ms, main, size, s);
    r := Ok((main, size, s));
  }

  // ----- second loop: function addresses -----

  ghost predicate Addressed(addresses: map<string, nat>, ds: seq<IdAddress>) {
    addresses == AddressMap(ds) && Distinct(DefIds(ds))
  }

  lemma AddressedNext(addresses: map<string, nat>, ds: seq<IdAddress>, d: IdAddress)
    requires Addressed(addresses, ds)
    ensures d.id in addresses <==> d.id in DefIds(ds)
    ensures d.id !in addresses ==> Addressed(addresses[d.id := d.address], ds + [d])
  {
    AddressMapKeys(ds, d.id);
    DefIdsAppend(ds, [d]);
    DistinctOne(DefIds(ds), d.id);
    assert (ds + [d])[..|ds|] == ds;
  }

  // The addresses of one module's functions.
  method AddressModule(ms: seq<Module>, i: nat, at: Spot, addresses: map<string, nat>)
      returns (r: Result<map<string, nat>>)
    requires i < |ms| && at == SpotOf(ms, i) && Addressed(addresses, DefsTo(ms, i))
    ensures r.Ok? ==> Addressed(r.value, DefsTo(ms, i + 1))
    ensures r.Err? ==> Explains(r.error, ms) && !Linkable(ms)
  {
    hide *;
    var ds := ms[i].funcDefs;
    ghost var before := DefsTo(ms, i);
    r := Ok(addresses);
    var j := 0;
    PartNone(before, ds, at);
    while j < |ds|
      invariant 0 <= j <= |ds| && r.Ok? && Addressed(r.value, Part(before, ds, at, j))
    {
      var d := IdAddress(ds[j].id, Place(ds[j].address, at));
      PartNext(before, ds, at, j);
      AddressedNext(r.value, Part(before, ds, at, j), d);
      if d.id in r.value {
        FuncFault(ms, i, j, at);
        return Err(DuplicateDef(d.id));
      }
      r := Ok(r.value[d.id := d.address]);
      j := j + 1;
    }
    PartAll(ms, i, at);
  }

  // The definitions of the earlier modules and the first j of this one.
  function Part(before: seq<IdAddress>, ds: seq<IdAddress>, at: Spot, j: nat): seq<IdAddress>
    requires j <= |ds|
  {
    before + MovedDefs(ds, at)[..j]
  }

  lemma PartNone(before: seq<IdAddress>, ds: seq<IdAddress>, at: Spot)
    ensures Part(before, ds, at, 0) == before
  {
  }

  lemma PartNext(before: seq<IdAddress>, ds: seq<IdAddress>, at: Spot, j: nat)
    requires j < |ds|
    ensures Part(before, ds, at, j + 1) == Part(before, ds, at, j) + [IdAddress(ds[j].id, Place(ds[j].address, at))]
  {
    hide Place;
  }

  lemma PartAll(ms: seq<Module>, i: nat, at: Spot)
    requires i < |ms| && at == SpotOf(ms, i)
    ensures Part(DefsTo(ms, i), ms[i].funcDefs, at, |ms[i].funcDefs|) == DefsTo(ms, i + 1)
  {
    hide Place, DefsTo;
    DefsNext(ms, i);
  }

  lemma FuncFault(ms: seq<Module>, i: nat, j: nat, at: Spot)
    requires i < |ms| && j < |ms[i].funcDefs| && at == SpotOf(ms, i)
    requires ms[i].funcDefs[j].id in DefIds(Part(DefsTo(ms, i), ms[i].funcDefs, at, j))
    ensures Explains(DuplicateDef(ms[i].funcDefs[j].id), ms) && !Linkable(ms)
  {
    hide Place, DefsTo, ExeSpots, Distinct, Twice;
    var ds := ms[i].funcDefs;
    var x, id := DefIds(DefsTo(ms, i)), ds[j].id;
    assert DefIds(Part(DefsTo(ms, i), ds, at, j)) == x + DefIds(ds)[..j];
    TwiceThere(x + DefIds(ds)[..j], id);
    TwiceMore(x + DefIds(ds)[..j] + [id], DefIds(ds)[j + 1..], id);
    assert x + DefIds(ds)[..j] + [id] + DefIds(ds)[j + 1..] == x + DefIds(ds);
    DefTwice(ms, i, id);
  }

  // CollectFuncDefs.
  method CollectFuncDefs(ms: seq<Module>, start: nat) returns (r: Result<map<string, nat>>)
    requires AllWellFormed(ms) && start == |Mains(ms)| && |Whole(ms)| < U32
    ensures r.Ok? ==> Addressed(r.value, FuncDefs(ms))
    ensures r.Err? ==> Explains(r.error, ms) && !Linkable(ms)
  {
    hide *;
    r := Ok(map[]);
    DefsAll(ms);
    NoneAddressed();
    var mainAt, funcAt := 0, start;
    var i := 0;
    SizesStart(ms);
    while i < |ms|
      invariant 0 <= i <= |ms|
      invariant mainAt == |Mains(ms[..i])| && funcAt == start + |Funcs(ms[..i])|
      invariant r.Ok? && Addressed(r.value, DefsTo(ms, i))
    {
      var at := Spot(ms[i].mainSize, mainAt, funcAt);
      SpotFacts(ms, i);
      SizesNext(ms, i);
      r := AddressModule(ms, i, at, r.value);
      if r.Err? {
        return;
      }
      mainAt, funcAt := mainAt + ms[i].mainSize, funcAt + (|ms[i].code| - ms[i].mainSize);
      i := i + 1;
    }
  }

  lemma NoneAddressed()
    ensures Addressed(map[], [])
  {
  }

  lemma SizesStart(ms: seq<Module>)
    ensures |Mains(ms[..0])| == 0 && |Funcs(ms[..0])| == 0
  {
  }

  // ----- third loop: code, placeholders and native functions -----

  // The modules before the i-th are in the output, filled.
  ghost predicate Writing(ms: seq<Module>, i: nat, out: Code, mainAt: nat, funcAt: nat)
    requires i <= |ms|
    reads out, out.bytes
  {
    out.Valid() && out.size == |Whole(ms)| < U32 &&
    mainAt == |Mains(ms[..i])| && funcAt == |Mains(ms)| + |Funcs(ms[..i])| &&
    Agrees(out.Contents(), ExeCode(ms), mainAt, |Mains(ms)|, funcAt)
  }

  lemma ExeSize(ms: seq<Module>)
    requires AllWellFormed(ms) && |Whole(ms)| < U32
    ensures |ExeCode(ms)| == |Whole(ms)| && |Mains(ms)| <= |Whole(ms)|
  {
    hide Mains, Funcs;
    ExeIsFilled(ms);
    FilledFits(ms, SlotMap(GlobalDefs(ms)), AddressMap(FuncDefs(ms)));
    WholeSize(ms);
  }

  lemma WritingStart(ms: seq<Module>, out: Code)
    requires AllWellFormed(ms) && out.Valid() && out.size == |Whole(ms)| < U32
    ensures Writing(ms, 0, out, 0, |Mains(ms)|)
  {
    hide Mains, Funcs, Agrees, ExeCode, AllWellFormed;
    ExeSize(ms);
    WholeSize(ms);
    AgreesStart(out.Contents(), ExeCode(ms), |Mains(ms)|);
  }

  lemma WritingEnd(ms: seq<Module>, out: Code, mainAt: nat, funcAt: nat)
    requires AllWellFormed(ms) && Writing(ms, |ms|, out, mainAt, funcAt)
    ensures out.Valid() && out.Contents() == ExeCode(ms) && mainAt == |Mains(ms)|
  {
    hide Mains, Funcs, Agrees, ExeCode, AllWellFormed;
    ExeSize(ms);
    WholeSize(ms);
    assert ms[..|ms|] == ms;
    AgreesAll(out.Contents(), ExeCode(ms), |Mains(ms)|);
  }

  // The view of the i-th module in the final code.
  lemma ViewExe(ms: seq<Module>, i: nat)
    requires AllWellFormed(ms) && |Whole(ms)| < U32 && i < |ms|
    ensures |ExeCode(ms)| == |Whole(ms)| && Fits(ms[i], SpotOf(ms, i), |Whole(ms)|)
    ensures View(ExeCode(ms), ms[i], SpotOf(ms, i)) ==
      Fill(Fill(ms[i].code, ms[i].globalRefs, SlotMap(GlobalDefs(ms))), ms[i].funcRefs, AddressMap(FuncDefs(ms)))
  {
    hide Mains, Funcs, View, Fill, LayOut, WellFormed;
    var slots, funcs := SlotMap(GlobalDefs(ms)), AddressMap(FuncDefs(ms));
    ExeSize(ms);
    ExeIsFilled(ms);
    FilledFits(ms, slots, funcs);
    ViewWhole(ms, FillEach(ms, slots, funcs), i);
  }

  lemma RefsFitModule(m: Module)
    requires WellFormed(m)
    ensures forall a: nat :: IsRef(m.globalRefs, a) || IsRef(m.funcRefs, a) ==> InSegment(m, a)
    ensures m.mainSize <= |m.code|
  {
  }

  // A module's code written and its placeholders filled.
  method PlaceModule(m: Module, at: Spot, slots: map<string, nat>, funcs: map<string, nat>, out: Code)
      returns (r: Result<bool>)
    requires WellFormed(m) && out.Valid() && Fits(m, at, out.size)
    requires forall x :: x in slots ==> slots[x] < U32
    requires forall x :: x in funcs ==> funcs[x] < U32
    modifies out, out.bytes
    ensures out.Valid() && out.bytes == old(out.bytes) && out.size == old(out.size)
    ensures m.mainSize <= |m.code|
    ensures r.Ok? ==> View(out.Contents(), m, at) == Fill(Fill(m.code, m.globalRefs, slots), m.funcRefs, funcs)
    ensures r.Ok? ==> OnlyInside(old(out.Contents()), out.Contents(), m, at)
    ensures r.Ok? ==> forall x :: (x in Ids(m.globalRefs) ==> x in slots) && (x in Ids(m.funcRefs) ==> x in funcs)
    ensures r.Err? ==> r.error.MissingDef? && var id := r.error.id;
      (id in Ids(m.globalRefs) && id !in slots) || (id in Ids(m.funcRefs) && id !in funcs)
  {
    hide View, OnlyInside, Fill, WellFormed, InSegment, Fits;
    ghost var c := out.Contents();
    RefsFitModule(m);
    WriteModule(m, at, out);
    ghost var d := out.Contents();
    r := FillPlaceholders(m.globalRefs, slots, m, at, out);
    if r.Err? {
      return;
    }
    OnlyTwice(c, d, out.Contents(), m, at);
    d := out.Contents();
    r := FillPlaceholders(m.funcRefs, funcs, m, at, out);
    if r.Ok? {
      OnlyTwice(c, d, out.Contents(), m, at);
    }
  }

  // Global and function references of the modules before the i-th are all known.
  ghost predicate KnownTo(ms: seq<Module>, i: nat)
    requires i <= |ms|
  {
    AllKnown(RefsTo(GlobalRefsOf, ms, i), VarIds(GlobalDefs(ms))) &&
      AllKnown(RefsTo(FuncRefsOf, ms, i), DefIds(FuncDefs(ms)))
  }

  lemma KnownStart(ms: seq<Module>)
    ensures KnownTo(ms, 0)
  {
    RefsAll(GlobalRefsOf, ms);
    RefsAll(FuncRefsOf, ms);
  }

  lemma NextIds(ms: seq<Module>, i: nat)
    requires i < |ms|
    ensures Ids(RefsTo(GlobalRefsOf, ms, i + 1)) == Ids(RefsTo(GlobalRefsOf, ms, i)) + Ids(ms[i].globalRefs)
    ensures Ids(RefsTo(FuncRefsOf, ms, i + 1)) == Ids(RefsTo(FuncRefsOf, ms, i)) + Ids(ms[i].funcRefs)
  {
    hide Ids, RefsTo, Moved, SpotOf;
    RefsNext(GlobalRefsOf, ms, i);
    RefsNext(FuncRefsOf, ms, i);
    IdsOf(RefsTo(GlobalRefsOf, ms, i), Moved(ms[i].globalRefs, SpotOf(ms, i)), SpotOf(ms, i));
    IdsOf(RefsTo(FuncRefsOf, ms, i), Moved(ms[i].funcRefs, SpotOf(ms, i)), SpotOf(ms, i));
    IdsOf(ms[i].globalRefs, [], SpotOf(ms, i));
    IdsOf(ms[i].funcRefs, [], SpotOf(ms, i));
  }

  lemma KnownNext(ms: seq<Module>, i: nat, slots: map<string, nat>, funcs: map<string, nat>)
    requires i < |ms| && KnownTo(ms, i) && slots == SlotMap(GlobalDefs(ms)) && funcs == AddressMap(FuncDefs(ms))
    requires forall x :: (x in Ids(ms[i].globalRefs) ==> x in slots) && (x in Ids(ms[i].funcRefs) ==> x in funcs)
    ensures KnownTo(ms, i + 1)
  {
    hide RefsTo, Ids, GlobalDefs, FuncDefs, VarIds, DefIds;
    NextIds(ms, i);
    forall x
      ensures x in slots <==> x in VarIds(GlobalDefs(ms))
      ensures x in funcs <==> x in DefIds(FuncDefs(ms))
    {
      SlotMapKeys(GlobalDefs(ms), x);
      AddressMapKeys(FuncDefs(ms), x);
    }
  }

  lemma MissingFault(ms: seq<Module>, i: nat, slots: map<string, nat>, funcs: map<string, nat>, id: string)
    requires i < |ms| && slots == SlotMap(GlobalDefs(ms)) && funcs == AddressMap(FuncDefs(ms))
    requires (id in Ids(ms[i].globalRefs) && id !in slots) || (id in Ids(ms[i].funcRefs) && id !in funcs)
    ensures Explains(MissingDef(id), ms) && !Linkable(ms)
  {
    hide Ids, GlobalDefs, FuncDefs, VarIds, DefIds, ExeSpots, RefsTo, Flat;
    SlotMapKeys(GlobalDefs(ms), id);
    AddressMapKeys(FuncDefs(ms), id);
    NextIds(ms, i);
    RefsRest(GlobalRefsOf, ms, i + 1, id);
    RefsRest(FuncRefsOf, ms, i + 1, id);
  }

  lemma RefsRest(f: Placed -> seq<IdAddresses>, ms: seq<Module>, i: nat, id: string)
    requires i <= |ms|
    ensures id in Ids(RefsTo(f, ms, i)) ==> id in Ids(Flat(f, ExeSpots(ms)))
  {
    FlatRest(f, ExeSpots(ms), i);
    var rest := Flat(f, ExeSpots(ms)[i..]);
    assert Flat(f, ExeSpots(ms)) == RefsTo(f, ms, i) + rest;
    IdsOf(RefsTo(f, ms, i), rest, Spot(0, 0, 0));
  }

  // Native functions: their definitions' names, and the references to them.
  ghost predicate NativesTo(ms: seq<Module>, i: nat, natives: Names, defs: seq<string>, refs: RefTable)
    requires i <= |ms|
    reads natives, refs
  {
    natives.Valid() && refs.Valid() && defs == NativeDefs(ms[..i]) == natives.order &&
      refs.entries == RefsTo(NativeRefsOf, ms, i)
  }

  lemma NativesStart(ms: seq<Module>, natives: Names, refs: RefTable)
    requires natives.Valid() && refs.Valid() && natives.order == [] && refs.entries == []
    ensures NativesTo(ms, 0, natives, [], refs)
  {
    RefsAll(NativeRefsOf, ms);
  }

  lemma NativesEnd(ms: seq<Module>, natives: Names, defs: seq<string>, refs: RefTable)
    requires NativesTo(ms, |ms|, natives, defs, refs)
    ensures refs.Valid() && refs.entries == Flat(NativeRefsOf, ExeSpots(ms))
    ensures defs == NativeDefs(ms) && Distinct(defs) && forall x :: x in natives.ids <==> x in NativeDefs(ms)
  {
    RefsAll(NativeRefsOf, ms);
    assert ms[..|ms|] == ms;
  }

  method NativesNext(ms: seq<Module>, i: nat, at: Spot, natives: Names, defs: seq<string>, refs: RefTable)
      returns (r: Result<seq<string>>)
    requires i < |ms| && at == SpotOf(ms, i) && NativesTo(ms, i, natives, defs, refs)
    modifies natives, refs
    ensures r.Ok? ==> NativesTo(ms, i + 1, natives, r.value, refs)
    ensures r.Err? ==> Explains(r.error, ms) && !Linkable(ms)
  {
    hide NativeDefs, RefsTo, Moved, SpotOf, Distinct, Twice, ExeSpots;
    var m := ms[i];
    VarsNext(ms, i);
    RefsNext(NativeRefsOf, ms, i);
    var d := natives.InsertAll(m.nativeDefs);
    if d.Err? {
      NativeTwice(ms, i, d.error.id);
      return Err(d.error);
    }
    refs.Collect(m.nativeRefs, at);
    r := Ok(defs + m.nativeDefs);
  }

  method PlaceNext(ms: seq<Module>, i: nat, out: Code, mainAt: nat, funcAt: nat, slots: map<string, nat>,
                   funcs: map<string, nat>)
      returns (r: Result<bool>)
    requires AllWellFormed(ms) && i < |ms| && Writing(ms, i, out, mainAt, funcAt) && KnownTo(ms, i)
    requires slots == SlotMap(GlobalDefs(ms)) && funcs == AddressMap(FuncDefs(ms))
    modifies out, out.bytes
    ensures out.bytes == old(out.bytes)
    ensures SpotOf(ms, i) == Spot(ms[i].mainSize, mainAt, funcAt) && ms[i].mainSize <= |ms[i].code|
    ensures r.Ok? ==> KnownTo(ms, i + 1)
    ensures r.Ok? ==> Writing(ms, i + 1, out, mainAt + ms[i].mainSize, funcAt + (|ms[i].code| - ms[i].mainSize))
    ensures r.Err? ==> Explains(r.error, ms) && !Linkable(ms)
  {
    hide Whole, Mains, Funcs, View, Agrees, LayOut, Fill, KnownTo, SlotMap, AddressMap, GlobalDefs, FuncDefs, Linkable,
      WellFormed, ExeCode, Explains, Fits, OnlyInside;
    ghost var c := out.Contents();
    var at := Spot(ms[i].mainSize, mainAt, funcAt);
    SpotFacts(ms, i);
    SizesNext(ms, i);
    ViewExe(ms, i);
    NumbersFit(ms);
    r := PlaceModule(ms[i], at, slots, funcs, out);
    if r.Err? {
      MissingFault(ms, i, slots, funcs, r.error.id);
      return;
    }
    KnownNext(ms, i, slots, funcs);
    AgreesNext(c, out.Contents(), ExeCode(ms), ms[i], at, |Mains(ms)|);
  }

  lemma NumbersFit(ms: seq<Module>)
    ensures forall x :: x in SlotMap(GlobalDefs(ms)) ==> SlotMap(GlobalDefs(ms))[x] < U32
    ensures forall x :: x in AddressMap(FuncDefs(ms)) ==> AddressMap(FuncDefs(ms))[x] < U32
  {
    forall x
      ensures x in SlotMap(GlobalDefs(ms)) ==> SlotMap(GlobalDefs(ms))[x] < U32
      ensures x in AddressMap(FuncDefs(ms)) ==> AddressMap(FuncDefs(ms))[x] < U32
    {
      SlotMapSmall(GlobalDefs(ms), x);
      DefsSmall(ms, |ms|);
      DefsAll(ms);
      AddressMapSmall(FuncDefs(ms), x);
    }
  }

  lemma {:induction false} DefsSmall(ms: seq<Module>, i: nat)
    requires i <= |ms|
    ensures forall k :: 0 <= k < |DefsTo(ms, i)| ==> DefsTo(ms, i)[k].address < U32
    decreases i
  {
    DefsAll(ms);
    if i > 0 {
      DefsSmall(ms, i - 1);
      DefsNext(ms, i - 1);
      hide DefsTo;
    }
  }

  lemma {:induction false} AddressMapSmall(ds: seq<IdAddress>, x: string)
    requires forall k :: 0 <= k < |ds| ==> ds[k].address < U32
    ensures x in AddressMap(ds) ==> AddressMap(ds)[x] < U32
  {
    if ds != [] {
      AddressMapSmall(ds[..|ds| - 1], x);
    }
  }

  method WriteModules(ms: seq<Module>, start: nat, out: Code, slots: map<string, nat>, funcs: map<string, nat>,
                  natives: Names, refs: RefTable) returns (r: Result<seq<string>>, mainAt: nat, ghost funcAt: nat)
    requires AllWellFormed(ms) && Writing(ms, 0, out, 0, start) && KnownTo(ms, 0)
    requires NativesTo(ms, 0, natives, [], refs)
    requires slots == SlotMap(GlobalDefs(ms)) && funcs == AddressMap(FuncDefs(ms))
    modifies out, out.bytes, natives, refs
    ensures r.Ok? ==> KnownTo(ms, |ms|) && out.bytes == old(out.bytes) && Writing(ms, |ms|, out, mainAt, funcAt)
    ensures r.Ok? ==> NativesTo(ms, |ms|, natives, r.value, refs)
    ensures r.Err? ==> Explains(r.error, ms) && !Linkable(ms)
  {
    hide *;
    var funcStart: nat := start;
    mainAt, funcAt := 0, start;
    r := Ok([]);
    var i := 0;
    while i < |ms|
      invariant 0 <= i <= |ms| && funcAt == funcStart && r.Ok?
      invariant out.bytes == old(out.bytes) && Writing(ms, i, out, mainAt, funcStart) && KnownTo(ms, i)
      invariant NativesTo(ms, i, natives, r.value, refs)
    {
      var at := Spot(ms[i].mainSize, mainAt, funcStart);
      var placed := PlaceNext(ms, i, out, mainAt, funcStart, slots, funcs);
      if placed.Err? {
        r := Err(placed.error);
        return;
      }
      r := NativesNext(ms, i, at, natives, r.value, refs);
      if r.Err? {
        return;
      }
      mainAt, funcStart := mainAt + ms[i].mainSize, funcStart + (|ms[i].code| - ms[i].mainSize);
      funcAt := funcStart;
      i := i + 1;
    }
  }

  // ----- fourth loop: native references -----

  lemma TableIds(entries: seq<IdAddresses>)
    ensures forall x :: x in Ids(Merged(entries)) <==> x in Ids(entries)
  {
    IdsOf(entries, [], Spot(0, 0, 0));
    FirstsFacts(Ids(entries));
  }

  // The first native reference without a definition.
  method CheckNatives(refs: seq<IdAddresses>, natives: set<string>) returns (r: Result<bool>)
    ensures r.Ok? <==> forall x :: x in Ids(refs) ==> x in natives
    ensures r.Err? ==> r.error.MissingDef? && r.error.id in Ids(refs) && r.error.id !in natives
  {
    var i := 0;
    while i < |refs|
      invariant 0 <= i <= |refs|
      invariant forall k :: 0 <= k < i ==> refs[k].id in natives
    {
      if refs[i].id !in natives {
        assert Ids(refs)[i] == refs[i].id;
        return Err(MissingDef(refs[i].id));
      }
      i := i + 1;
    }
    r := Ok(true);
  }

  lemma NativeFault(ms: seq<Module>, refs: seq<IdAddresses>, natives: set<string>, id: string)
    requires refs == Merged(Flat(NativeRefsOf, ExeSpots(ms))) && forall x :: x in natives <==> x in NativeDefs(ms)
    requires id in Ids(refs) && id !in natives
    ensures Explains(MissingDef(id), ms) && !Linkable(ms)
  {
    hide Merged, Ids, NativeDefs;
    TableIds(Flat(NativeRefsOf, ExeSpots(ms)));
  }

  lemma AllLinked(ms: seq<Module>, refs: seq<IdAddresses>, natives: set<string>, slots: Slots,
                  addresses: map<string, nat>)
    requires refs == Merged(Flat(NativeRefsOf, ExeSpots(ms))) && forall x :: x in natives <==> x in NativeDefs(ms)
    requires forall x :: x in Ids(refs) ==> x in natives
    requires |Whole(ms)| < U32 && SlotsOf(slots, GlobalDefs(ms)) && Addressed(addresses, FuncDefs(ms))
    requires Distinct(NativeDefs(ms)) && KnownTo(ms, |ms|)
    ensures Linkable(ms)
  {
    hide Merged, Ids, NativeDefs, Mains, Funcs, SlotsCount, GlobalDefs, FuncDefs, Distinct, SlotMap, AddressMap,
      SlotSum;
    TableIds(Flat(NativeRefsOf, ExeSpots(ms)));
    RefsAll(GlobalRefsOf, ms);
    RefsAll(FuncRefsOf, ms);
  }

  // The executable of the modules, if nothing is missing, defined twice or too large.
  method Link(ms: seq<Module>, version: nat) returns (r: Result<Exe>)
    requires AllWellFormed(ms)
    ensures r.Ok? <==> Linkable(ms)
    ensures r.Ok? ==> r.value == ExeOf(ms, version)
    ensures r.Err? ==> Explains(r.error, ms)
  {
    hide *;
    var scan := Scan(ms);
    if scan.Err? {
      return Err(scan.error);
    }
    var start, size, slots := scan.value.0, scan.value.1, scan.value.2;
    var funcs := CollectFuncDefs(ms, start);
    if funcs.Err? {
      return Err(funcs.error);
    }
    SlotsAre(slots, GlobalDefs(ms));
    AddressesAre(funcs.value, FuncDefs(ms));
    var out := new Code.OfSize(size);
    var natives := new Names();
    var refs := new RefTable();
    WritingStart(ms, out);
    KnownStart(ms);
    NativesStart(ms, natives, refs);
    var defs, mainAt, funcAt := WriteModules(ms, start, out, slots.indexes, funcs.value, natives, refs);
    if defs.Err? {
      return Err(defs.error);
    }
    WritingEnd(ms, out, mainAt, funcAt);
    r := Finish(ms, version, out, mainAt, slots, funcs.value, natives, defs.value, refs);
  }

  lemma SlotsAre(s: Slots, ds: seq<IdSize>)
    requires SlotsOf(s, ds)
    ensures s.indexes == SlotMap(ds) && s.next == SlotSum(ds) % U32
  {
  }

  lemma AddressesAre(addresses: map<string, nat>, ds: seq<IdAddress>)
    requires Addressed(addresses, ds)
    ensures addresses == AddressMap(ds)
  {
  }

  method Finish(ghost ms: seq<Module>, version: nat, out: Code, mainAt: nat, slots: Slots,
                ghost addresses: map<string, nat>, natives: Names, defs: seq<string>, refs: RefTable)
      returns (r: Result<Exe>)
    requires |Whole(ms)| < U32 && SlotsOf(slots, GlobalDefs(ms)) && Addressed(addresses, FuncDefs(ms))
    requires out.Valid() && out.Contents() == ExeCode(ms) && mainAt == |Mains(ms)|
    requires KnownTo(ms, |ms|) && NativesTo(ms, |ms|, natives, defs, refs)
    ensures r.Ok? <==> Linkable(ms)
    ensures r.Ok? ==> r.value == ExeOf(ms, version)
    ensures r.Err? ==> Explains(r.error, ms)
  {
    hide *;
    NativesEnd(ms, natives, defs, refs);
    RefsAre(refs);
    var known := CheckNatives(refs.refs, natives.ids);
    if known.Err? {
      NativeFault(ms, refs.refs, natives.ids, known.error.id);
      return Err(known.error);
    }
    AllLinked(ms, refs.refs, natives.ids, slots, addresses);
    var table := refs.Sort();
    SlotsAre(slots, GlobalDefs(ms));
    r := Ok(Exe(version, out.Contents(), mainAt, slots.next, defs, table));
    ExeIs(ms, version);
  }

  lemma RefsAre(refs: RefTable)
    requires refs.Valid()
    ensures refs.refs == Merged(refs.entries)
  {
  }

  lemma ExeIs(ms: seq<Module>, version: nat)
    ensures ExeOf(ms, version) == Exe(version, ExeCode(ms), |Mains(ms)|, SlotSum(GlobalDefs(ms)) % U32, NativeDefs(ms),
      Table(Flat(NativeRefsOf, ExeSpots(ms))))
  {
  }
}
