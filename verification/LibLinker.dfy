/** The library linker. */
module LibLinker {
  import opened Bytes
  import opened Buffer
  import opened Containers
  import opened References
  import opened Linking
  import opened LinkTheorems
  import opened Linker

  // The error that ended the linking is a fault of the modules.
  ghost predicate Explains(e: LinkError, ms: seq<Module>) {
    match e
    case CodeSizeOverflow => |Whole(ms)| >= U32
    case DuplicateDef(id) =>
      Twice(VarIds(GlobalDefs(ms)), id) || Twice(DefIds(FuncDefs(ms)), id) || Twice(NativeDefs(ms), id)
    case _ => false
  }

  // First loop: the sizes.
  method Measure(ms: seq<Module>) returns (r: Result<(nat, nat)>)
    requires AllWellFormed(ms)
    ensures r == if |Whole(ms)| < U32 then Ok((|Mains(ms)|, |Whole(ms)|)) else Err(CodeSizeOverflow)
  {
    var main, size := 0, 0;
    var i := 0;
    while i < |ms|
      invariant 0 <= i <= |ms|
      invariant main == |Mains(ms[..i])| && size == |Mains(ms[..i])| + |Funcs(ms[..i])| < U32
    {
      SizesNext(ms, i);
      hide Mains, Funcs;
      r := AddSizes(main, size, ms[i]);
      if r.Err? {
        return;
      }
      main, size := r.value.0, r.value.1;
      i := i + 1;
    }
    assert ms[..i] == ms;
    r := Ok((main, size));
  }

  // The output buffer with the modules before the i-th written into it.
  ghost predicate Writing(ms: seq<Module>, i: nat, out: Code, mainAt: nat, funcAt: nat)
    requires i <= |ms|
    reads out, out.bytes
  {
    out.Valid() && out.size == |Whole(ms)| < U32 &&
    mainAt == |Mains(ms[..i])| && funcAt == |Mains(ms)| + |Funcs(ms[..i])| &&
    Agrees(out.Contents(), Whole(ms), mainAt, |Mains(ms)|, funcAt)
  }

  method WriteNext(ms: seq<Module>, i: nat, out: Code, mainAt: nat, funcAt: nat)
    requires AllWellFormed(ms) && i < |ms| && Writing(ms, i, out, mainAt, funcAt)
    modifies out, out.bytes
    ensures out.bytes == old(out.bytes)
    ensures SpotOf(ms, i) == Spot(ms[i].mainSize, mainAt, funcAt) && ms[i].mainSize <= |ms[i].code|
    ensures Writing(ms, i + 1, out, mainAt + ms[i].mainSize, funcAt + (|ms[i].code| - ms[i].mainSize))
  {
    hide Whole, Mains, Funcs, View, Agrees, AllWellFormed, LayOut;
    ghost var c := out.Contents();
    var at := Spot(ms[i].mainSize, mainAt, funcAt);
    SpotFacts(ms, i);
    SizesNext(ms, i);
    ViewWhole(ms, ms, i);
    WriteModule(ms[i], at, out);
    AgreesNext(c, out.Contents(), Whole(ms), ms[i], at, |Mains(ms)|);
  }

  lemma WritingStart(ms: seq<Module>, out: Code)
    requires out.Valid() && out.size == |Whole(ms)| < U32
    ensures Writing(ms, 0, out, 0, |Mains(ms)|)
  {
    hide Mains, Funcs, Agrees;
    WholeSize(ms);
    AgreesStart(out.Contents(), Whole(ms), |Mains(ms)|);
  }

  lemma WritingEnd(ms: seq<Module>, out: Code, mainAt: nat, funcAt: nat)
    requires Writing(ms, |ms|, out, mainAt, funcAt)
    ensures out.Valid() && out.Contents() == Whole(ms) && mainAt == |Mains(ms)|
  {
    hide Mains, Funcs, Agrees;
    WholeSize(ms);
    assert ms[..|ms|] == ms;
    AgreesAll(out.Contents(), Whole(ms), |Mains(ms)|);
  }

  // A reference table with the references of the modules before the i-th.
  ghost predicate Gathered(t: RefTable, f: Placed -> seq<IdAddresses>, ms: seq<Module>, i: nat)
    requires i <= |ms|
    reads t
  {
    t.Valid() && t.entries == RefsTo(f, ms, i)
  }

  method GatherNext(t: RefTable, ghost f: Placed -> seq<IdAddresses>, refs: seq<IdAddresses>, ghost ms: seq<Module>,
                    ghost i: nat, at: Spot)
    requires i < |ms| && Gathered(t, f, ms, i) && at == SpotOf(ms, i) && f(Placed(ms[i], at)) == Moved(refs, at)
    modifies t
    ensures Gathered(t, f, ms, i + 1)
  {
    RefsNext(f, ms, i);
    hide Moved, RefsTo;
    t.Collect(refs, at);
  }

  // The same for the tables of all three kinds.
  ghost predicate GatheredAll(vars: RefTable, funcs: RefTable, natives: RefTable, ms: seq<Module>, i: nat)
    requires i <= |ms|
    reads vars, funcs, natives
  {
    vars != funcs && vars != natives && funcs != natives &&
    Gathered(vars, GlobalRefsOf, ms, i) && Gathered(funcs, FuncRefsOf, ms, i) && Gathered(natives, NativeRefsOf, ms, i)
  }

  method GatherAll(vars: RefTable, funcs: RefTable, natives: RefTable, ms: seq<Module>, i: nat, at: Spot)
    requires i < |ms| && GatheredAll(vars, funcs, natives, ms, i) && at == SpotOf(ms, i)
    modifies vars, funcs, natives
    ensures GatheredAll(vars, funcs, natives, ms, i + 1)
  {
    hide Gathered, LayOut, Moved;
    GatherNext(vars, GlobalRefsOf, ms[i].globalRefs, ms, i, at);
    GatherNext(funcs, FuncRefsOf, ms[i].funcRefs, ms, i, at);
    GatherNext(natives, NativeRefsOf, ms[i].nativeRefs, ms, i, at);
  }

  // The set of names of the definitions before the i-th module's, and those definitions.
  ghost predicate Defined(ms: seq<Module>, i: nat, vars: Names, natives: Names, funcs: Names, varDefs: seq<IdSize>,
                          nativeDefs: seq<string>, funcDefs: seq<IdAddress>)
    requires i <= |ms|
    reads vars, natives, funcs
  {
    vars.Valid() && natives.Valid() && funcs.Valid() && vars != natives && vars != funcs && natives != funcs &&
    varDefs == GlobalDefs(ms[..i]) && vars.order == VarIds(varDefs) &&
    nativeDefs == NativeDefs(ms[..i]) && natives.order == nativeDefs &&
    funcDefs == DefsTo(ms, i) && funcs.order == DefIds(funcDefs)
  }

  method DefineNext(ms: seq<Module>, i: nat, at: Spot, vars: Names, natives: Names, funcs: Names, varDefs: seq<IdSize>,
                    nativeDefs: seq<string>, funcDefs: seq<IdAddress>)
      returns (r: Result<(seq<IdSize>, seq<string>, seq<IdAddress>)>)
    requires i < |ms| && Defined(ms, i, vars, natives, funcs, varDefs, nativeDefs, funcDefs) && at == SpotOf(ms, i)
    modifies vars, natives, funcs
    ensures r.Ok? ==> Defined(ms, i + 1, vars, natives, funcs, r.value.0, r.value.1, r.value.2)
    ensures r.Err? ==> Explains(r.error, ms) && !Joinable(ms)
  {
    hide Distinct, GlobalDefs, NativeDefs, FuncDefs, DefsTo, VarIds, DefIds, MovedDefs;
    var m := ms[i];
    VarsNext(ms, i);
    DefsNext(ms, i);
    var d := vars.InsertAll(VarIds(m.globalDefs));
    if d.Err? {
      VarTwice(ms, i, d.error.id);
      return Err(d.error);
    }
    d := natives.InsertAll(m.nativeDefs);
    if d.Err? {
      NativeTwice(ms, i, d.error.id);
      return Err(d.error);
    }
    d := funcs.InsertAll(DefIds(m.funcDefs));
    if d.Err? {
      DefTwice(ms, i, d.error.id);
      return Err(d.error);
    }
    r := Ok((varDefs + m.globalDefs, nativeDefs + m.nativeDefs, funcDefs + MovedDefs(m.funcDefs, at)));
  }

  lemma DefinedStart(ms: seq<Module>, vars: Names, natives: Names, funcs: Names)
    requires vars.Valid() && natives.Valid() && funcs.Valid() && vars != natives && vars != funcs && natives != funcs
    requires vars.order == [] && natives.order == [] && funcs.order == []
    ensures Defined(ms, 0, vars, natives, funcs, [], [], [])
  {
    DefsAll(ms);
  }

  lemma GatheredStart(ms: seq<Module>, vars: RefTable, funcs: RefTable, natives: RefTable)
    requires vars.Valid() && funcs.Valid() && natives.Valid() && vars != funcs && vars != natives && funcs != natives
    requires vars.entries == [] && funcs.entries == [] && natives.entries == []
    ensures GatheredAll(vars, funcs, natives, ms, 0)
  {
    RefsAll(GlobalRefsOf, ms);
    RefsAll(FuncRefsOf, ms);
    RefsAll(NativeRefsOf, ms);
  }

  lemma GatheredEnd(ms: seq<Module>, vars: RefTable, funcs: RefTable, natives: RefTable)
    requires GatheredAll(vars, funcs, natives, ms, |ms|)
    ensures vars.Valid() && vars.entries == Flat(GlobalRefsOf, ExeSpots(ms))
    ensures funcs.Valid() && funcs.entries == Flat(FuncRefsOf, ExeSpots(ms))
    ensures natives.Valid() && natives.entries == Flat(NativeRefsOf, ExeSpots(ms))
  {
    RefsAll(GlobalRefsOf, ms);
    RefsAll(FuncRefsOf, ms);
    RefsAll(NativeRefsOf, ms);
  }

  lemma LibIs(ms: seq<Module>, version: nat)
    ensures LibOf(ms, version) == Module(version, Whole(ms), |Mains(ms)|, FuncDefs(ms), GlobalDefs(ms), NativeDefs(ms),
      Table(Flat(FuncRefsOf, ExeSpots(ms))), Table(Flat(NativeRefsOf, ExeSpots(ms))),
      Table(Flat(GlobalRefsOf, ExeSpots(ms))))
  {
  }

  lemma TooLarge(ms: seq<Module>)
    requires |Whole(ms)| >= U32
    ensures !Joinable(ms) && Explains(CodeSizeOverflow, ms)
  {
  }

  lemma AllDefined(ms: seq<Module>, vars: Names, natives: Names, funcs: Names, varDefs: seq<IdSize>,
                   nativeDefs: seq<string>, funcDefs: seq<IdAddress>)
    requires Defined(ms, |ms|, vars, natives, funcs, varDefs, nativeDefs, funcDefs) && |Whole(ms)| < U32
    ensures Joinable(ms)
    ensures varDefs == GlobalDefs(ms) && nativeDefs == NativeDefs(ms) && funcDefs == FuncDefs(ms)
  {
    hide Mains, Funcs;
    WholeSize(ms);
    DefsAll(ms);
    assert ms[..|ms|] == ms;
  }

  // Second loop: every module written, its definitions and references recorded.
  method CollectAll(ms: seq<Module>, start: nat, out: Code, vars: Names, natives: Names, funcs: Names,
                    varRefs: RefTable, funcRefs: RefTable, nativeRefs: RefTable)
      returns (r: Result<(seq<IdSize>, seq<string>, seq<IdAddress>)>, mainAt: nat, ghost funcAt: nat)
    requires AllWellFormed(ms) && Writing(ms, 0, out, 0, start)
    requires Defined(ms, 0, vars, natives, funcs, [], [], []) && GatheredAll(varRefs, funcRefs, nativeRefs, ms, 0)
    modifies out, out.bytes, vars, natives, funcs, varRefs, funcRefs, nativeRefs
    ensures r.Ok? ==> out.bytes == old(out.bytes) && Writing(ms, |ms|, out, mainAt, funcAt)
    ensures r.Ok? ==> Defined(ms, |ms|, vars, natives, funcs, r.value.0, r.value.1, r.value.2)
    ensures r.Ok? ==> GatheredAll(varRefs, funcRefs, nativeRefs, ms, |ms|)
    ensures r.Err? ==> Explains(r.error, ms) && !Joinable(ms)
  {
    hide *;
    var varDefs, nativeDefs, funcDefs := [], [], [];
    var funcStart: nat := start;
    mainAt, funcAt := 0, start;
    var i := 0;
    while i < |ms|
      invariant 0 <= i <= |ms| && funcAt == funcStart
      invariant out.bytes == old(out.bytes) && Writing(ms, i, out, mainAt, funcStart)
      invariant Defined(ms, i, vars, natives, funcs, varDefs, nativeDefs, funcDefs)
      invariant GatheredAll(varRefs, funcRefs, nativeRefs, ms, i)
    {
      var at := Spot(ms[i].mainSize, mainAt, funcStart);
      WriteNext(ms, i, out, mainAt, funcStart);
      r := DefineNext(ms, i, at, vars, natives, funcs, varDefs, nativeDefs, funcDefs);
      if r.Err? {
        return;
      }
      varDefs, nativeDefs, funcDefs := r.value.0, r.value.1, r.value.2;
      GatherAll(varRefs, funcRefs, nativeRefs, ms, i, at);
      mainAt, funcStart := mainAt + ms[i].mainSize, funcStart + (|ms[i].code| - ms[i].mainSize);
      funcAt := funcStart;
      i := i + 1;
    }
    r := Ok((varDefs, nativeDefs, funcDefs));
  }

  // The library of the modules, if there are no duplicates and no overflow.
  method Link(ms: seq<Module>, version: nat) returns (r: Result<Module>)
    requires AllWellFormed(ms)
    ensures r.Ok? <==> Joinable(ms)
    ensures r.Ok? ==> r.value == LibOf(ms, version)
    ensures r.Err? ==> Explains(r.error, ms)
  {
    hide *;
    var sizes := Measure(ms);
    if sizes.Err? {
      TooLarge(ms);
      return Err(sizes.error);
    }
    var out := new Code.OfSize(sizes.value.1);
    var vars := new Names();
    var natives := new Names();
    var funcs := new Names();
    var varRefs := new RefTable();
    var funcRefs := new RefTable();
    var nativeRefs := new RefTable();
    WritingStart(ms, out);
    DefinedStart(ms, vars, natives, funcs);
    GatheredStart(ms, varRefs, funcRefs, nativeRefs);
    var d, mainAt, funcAt := CollectAll(ms, sizes.value.0, out, vars, natives, funcs, varRefs, funcRefs, nativeRefs);
    if d.Err? {
      return Err(d.error);
    }
    WritingEnd(ms, out, mainAt, funcAt);
    AllDefined(ms, vars, natives, funcs, d.value.0, d.value.1, d.value.2);
    var m := Finish(ms, version, out, mainAt, d.value.0, d.value.1, d.value.2, varRefs, funcRefs, nativeRefs);
    r := Ok(m);
  }

  method Finish(ghost ms: seq<Module>, version: nat, out: Code, mainAt: nat, varDefs: seq<IdSize>,
                nativeDefs: seq<string>, funcDefs: seq<IdAddress>, varRefs: RefTable, funcRefs: RefTable,
                nativeRefs: RefTable)
      returns (m: Module)
    requires out.Valid() && out.Contents() == Whole(ms) && mainAt == |Mains(ms)|
    requires varDefs == GlobalDefs(ms) && nativeDefs == NativeDefs(ms) && funcDefs == FuncDefs(ms)
    requires GatheredAll(varRefs, funcRefs, nativeRefs, ms, |ms|)
    ensures m == LibOf(ms, version)
  {
    hide *;
    GatheredEnd(ms, varRefs, funcRefs, nativeRefs);
    var v := varRefs.Sort();
    var f := funcRefs.Sort();
    var n := nativeRefs.Sort();
    m := Module(version, out.Contents(), mainAt, funcDefs, varDefs, nativeDefs, f, n, v);
    LibIs(ms, version);
  }
}
