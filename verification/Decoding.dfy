/** In a loaded executable every command of every module is decoded, at its place, as the command that
    was emitted, with its symbol replaced by the symbol's number. */
module Decoding {
  import opened Bytes
  import opened Language
  import opened Analysis
  import opened Commands
  import opened Codegen
  import opened Containers
  import opened References
  import opened Linking
  import opened Filling
  import opened LinkTheorems
  import opened LinkCorrectness
  import N = NativeLinker
  import opened Emission
  import opened Generator
  import F = ModuleFacts
  import L = Landing
  import R = Relation

  // A compiled module among others.
  datatype Compiled = Compiled(main: seq<TStmt>, decls: seq<Decl>, version: nat)

  function Cmds(c: Compiled): seq<Cmd> { AllCmds(c.main, c.decls) }

  // The modules are what the generator makes of these programs.
  ghost predicate Generated(ms: seq<Module>, cs: seq<Compiled>) {
    |ms| == |cs| &&
    forall k :: 0 <= k < |ms| ==>
      IsModule(ms[k], cs[k].main, cs[k].decls, cs[k].version) && Fine(Cmds(cs[k]), 0) && NoJumps(Cmds(cs[k]))
  }

  // What the linkers made the symbols stand for.
  function LinkOf(ms: seq<Module>, version: nat): R.Link {
    R.Link(SlotMap(GlobalDefs(ms)), AddressMap(FuncDefs(ms)), N.IndexMap(ExeOf(ms, version).nativeRefs))
  }

  // The indexes of the natives in use are 32-bit numbers.
  predicate NativesFit(ms: seq<Module>) { |Table(Flat(NativeRefsOf, ExeSpots(ms)))| < U32 }

  // Where a byte of the k-th module goes.
  function PlaceOf(ms: seq<Module>, k: nat, q: nat): nat
    requires k < |ms|
  {
    Place(q, SpotOf(ms, k))
  }

  lemma GeneratedFits(ms: seq<Module>, cs: seq<Compiled>)
    requires Generated(ms, cs)
    ensures AllWellFormed(ms)
  {
    hide IsModule, Fine, WellFormed, NoJumps;
    forall k | 0 <= k < |ms|
      ensures WellFormed(ms[k])
    {
      F.ModuleWellFormed(ms[k], cs[k].main, cs[k].decls, cs[k].version);
    }
  }

  // ----- the bytes of a command -----

  lemma {:induction false} EncodedAt(cs: seq<Cmd>, i: nat)
    requires i < |cs|
    ensures var p := Size(cs[..i]);
      p + CmdSize(cs[i]) <= |EncodeAll(cs)| && EncodeAll(cs)[p..p + CmdSize(cs[i])] == Encode(cs[i])
  {
    hide Encode, EncodeAll, Size, CmdSize;
    F.SizeNext(cs, i);
    assert cs == cs[..i] + ([cs[i]] + cs[i + 1..]);
    EncodeAllAppend(cs[..i], [cs[i]] + cs[i + 1..]);
    EncodeAllAppend([cs[i]], cs[i + 1..]);
    OneParts(cs[i], NoNotes(), 0, 0, 0);
    SizeAppend(cs[..i], [cs[i]] + cs[i + 1..]);
  }

  // A recorded placeholder that shares a byte with the i-th command is its operand.
  lemma OwnField(m: Module, c: Compiled, i: nat, q: nat, kind: F.Kind, id: string, a: nat)
    requires IsModule(m, c.main, c.decls, c.version) && i < |Cmds(c)|
    requires Size(Cmds(c)[..i]) <= q < Size(Cmds(c)[..i]) + CmdSize(Cmds(c)[i])
    requires HasRef(F.RefsIn(m, kind), id, a) && a <= q < a + 4
    ensures F.SymbolOf(Cmds(c)[i]) == Some((kind, id)) && a == Size(Cmds(c)[..i]) + 1
  {
    hide IsModule, HasRef, Size, CmdSize, AllCmds, F.SymbolOf;
    var cs := Cmds(c);
    var j := F.FieldIndex(m, c.main, c.decls, c.version, kind, id, a);
    F.FieldOf(m, c.main, c.decls, c.version, j, kind, id, a);
    F.SizeNext(cs, i);
    if j < i {
      F.SizeGrows(cs, j + 1, i);
    } else if i < j {
      F.SizeGrows(cs, i + 1, j);
    }
  }

  // A byte that is no operand of a symbolic command survives linking.
  lemma ByteStands(ms: seq<Module>, cs: seq<Compiled>, version: nat, k: nat, i: nat, q: nat)
    requires Generated(ms, cs) && Linkable(ms) && k < |ms| && i < |Cmds(cs[k])|
    requires var p, c := Size(Cmds(cs[k])[..i]), Cmds(cs[k])[i];
      p <= q < p + CmdSize(c) && (F.SymbolOf(c).None? || q == p)
    ensures var e, t := ExeOf(ms, version), Place(q, SpotOf(ms, k));
      q < |ms[k].code| && t < |N.Loaded(e)| && N.Loaded(e)[t] == ms[k].code[q]
  {
    hide Linkable, Size, CmdSize, AllCmds, HasRef, IsModule, Fine, NoJumps, F.SymbolOf, Place, ExeCode, N.Loaded,
      SpotOf, AllWellFormed;
    var m, c := ms[k], cs[k];
    GeneratedFits(ms, cs);
    InCode(m, c, i, q);
    forall x, a: nat
      ensures HasRef(m.globalRefs, x, a) || HasRef(m.funcRefs, x, a) || HasRef(m.nativeRefs, x, a) ==> !(a <= q < a + 4)
    {
      NotOwn(m, c, i, q, F.GlobalKind, x, a);
      NotOwn(m, c, i, q, F.FuncKind, x, a);
      NotOwn(m, c, i, q, F.NativeKind, x, a);
    }
    assert Joinable(ms) by { LinkableJoins(ms); }
    BytesKept(ms, k, q);
    N.NativeKept(ms, version, k, q);
  }

  lemma LinkableJoins(ms: seq<Module>)
    requires Linkable(ms)
    ensures Joinable(ms)
  {
  }

  lemma InCode(m: Module, c: Compiled, i: nat, q: nat)
    requires IsModule(m, c.main, c.decls, c.version) && i < |Cmds(c)|
    requires Size(Cmds(c)[..i]) <= q < Size(Cmds(c)[..i]) + CmdSize(Cmds(c)[i])
    ensures q < |m.code|
  {
    hide Size, CmdSize, AllCmds, EncodeAll, Note, TableOf;
    EncodedAt(Cmds(c), i);
  }

  lemma NotOwn(m: Module, c: Compiled, i: nat, q: nat, kind: F.Kind, id: string, a: nat)
    requires IsModule(m, c.main, c.decls, c.version) && i < |Cmds(c)|
    requires var p, d := Size(Cmds(c)[..i]), Cmds(c)[i];
      p <= q < p + CmdSize(d) && (F.SymbolOf(d).None? || q == p)
    ensures HasRef(F.RefsIn(m, kind), id, a) ==> !(a <= q < a + 4)
  {
    hide IsModule, HasRef, Size, CmdSize, AllCmds, F.SymbolOf, F.RefsIn;
    if HasRef(F.RefsIn(m, kind), id, a) && a <= q < a + 4 {
      OwnField(m, c, i, q, kind, id, a);
      assert false;
    }
  }

  // ----- operands -----

  // The number that replaces a symbol, as the linkers have it.
  function Numbers(link: R.Link, kind: F.Kind): map<string, nat> {
    match kind case GlobalKind => link.slots case FuncKind => link.funcs case NativeKind => link.natives
  }

  function NumberOf(ms: seq<Module>, version: nat, kind: F.Kind): map<string, nat> {
    Numbers(LinkOf(ms, version), kind)
  }

  // A symbolic command's operand holds its symbol's number.
  lemma OperandStands(ms: seq<Module>, cs: seq<Compiled>, version: nat, k: nat, i: nat, kind: F.Kind, id: string)
    requires Generated(ms, cs) && Linkable(ms) && k < |ms| && i < |Cmds(cs[k])|
    requires F.SymbolOf(Cmds(cs[k])[i]) == Some((kind, id)) && NativesFit(ms)
    ensures var e, a := ExeOf(ms, version), Size(Cmds(cs[k])[..i]) + 1;
      var t, numbers := Place(a, SpotOf(ms, k)), NumberOf(ms, version, kind);
      id in numbers && numbers[id] < U32 && t + 4 <= |N.Loaded(e)| && N.Loaded(e)[t..t + 4] == LE32(numbers[id])
  {
    hide Linkable, Size, CmdSize, AllCmds, HasRef, IsModule, Fine, NoJumps, F.SymbolOf, Place, ExeCode, N.Loaded,
      SpotOf, AllWellFormed, LE32, FromLE32, Table, Flat, ExeSpots, N.IndexMap;
    var m, c, e, a := ms[k], cs[k], ExeOf(ms, version), Size(Cmds(cs[k])[..i]) + 1;
    GeneratedFits(ms, cs);
    assert F.SymbolAt(Cmds(c), 0, i, kind, id, a);
    F.RecordedExactly(m, c.main, c.decls, c.version, kind, id, a);
    assert HasRef(F.RefsIn(m, kind), id, a);
    match kind
    case GlobalKind =>
      GlobalRefHolds(ms, k, id, a);
      N.OthersKept(ms, version, k, id, a);
      WordIs(N.Loaded(e), ExeCode(ms), Place(a, SpotOf(ms, k)), SlotMap(GlobalDefs(ms))[id]);
    case FuncKind =>
      var j, n := FuncDefined(ms, k, id, a);
      FuncRefHolds(ms, k, id, a, j, n);
      assert Joinable(ms) by { LinkableJoins(ms); }
      FuncAddress(ms, j, n);
      PlaceSmall(ms[j].funcDefs[n].address, SpotOf(ms, j));
      N.OthersKept(ms, version, k, id, a);
      WordIs(N.Loaded(e), ExeCode(ms), Place(a, SpotOf(ms, k)), AddressMap(FuncDefs(ms))[id]);
    case NativeKind =>
      var index := N.NativeRefHolds(ms, version, k, id, a);
      N.NativeFields(ms, version);
      N.IndexMapAt(e.nativeRefs, index);
  }

  lemma WordIs(loaded: seq<byte>, code: seq<byte>, p: nat, n: nat)
    requires p + 4 <= |code| == |loaded| && loaded[p..p + 4] == code[p..p + 4] && FromLE32(code[p..p + 4]) == n
    ensures loaded[p..p + 4] == LE32(n) && n < U32
  {
    FromLE32RoundTrip(code[p..p + 4]);
  }

  // ----- commands -----

  lemma ReadyIs(link: R.Link, c: Cmd, pc: nat)
    requires !IsBreak(c) && !IsContinue(c)
    ensures F.SymbolOf(c).None? ==> R.Ready(link, c, pc, 0, 0) == c
    ensures forall kind, id :: F.SymbolOf(c) == Some((kind, id)) ==>
      var numbers := Numbers(link, kind);
      id in numbers ==>
        Encode(R.Ready(link, c, pc, 0, 0)) == [IdOf(c)] + LE32(numbers[id]) && CmdSize(c) == 5 &&
        (numbers[id] < U32 && Exists(c) ==> Encodable(R.Ready(link, c, pc, 0, 0)))
  {
    hide LE32;
  }

  // The command stands at its place, as the machine will read it.
  lemma CmdStands(ms: seq<Module>, cs: seq<Compiled>, version: nat, k: nat, i: nat)
    requires Generated(ms, cs) && Linkable(ms) && k < |ms| && i < |Cmds(cs[k])|
    requires NativesFit(ms)
    ensures var e, c, q := ExeOf(ms, version), Cmds(cs[k])[i], Size(Cmds(cs[k])[..i]);
      var pc := PlaceOf(ms, k, q);
      Decode(N.Loaded(e), pc) == Some(R.Ready(LinkOf(ms, version), c, pc, 0, 0))
  {
    hide Linkable, Size, AllCmds, IsModule, Place, N.Loaded, SpotOf, Encode, CmdSize, Table, Flat, ExeSpots, LinkOf,
      ExeOf, R.Ready, Decode, Fine, NoJumps, Encodable, F.SymbolOf;
    var e, c, q := ExeOf(ms, version), Cmds(cs[k])[i], Size(Cmds(cs[k])[..i]);
    var pc := Place(q, SpotOf(ms, k));
    var r := R.Ready(LinkOf(ms, version), c, pc, 0, 0);
    PlainCmd(cs[k], i);
    BytesStand(ms, cs, version, k, i);
    DecodeEncode(N.Loaded(e), pc, r);
  }

  lemma PlainCmd(c: Compiled, i: nat)
    requires Fine(Cmds(c), 0) && NoJumps(Cmds(c)) && i < |Cmds(c)|
    ensures !IsBreak(Cmds(c)[i]) && !IsContinue(Cmds(c)[i]) && Exists(Cmds(c)[i])
    ensures F.SymbolOf(Cmds(c)[i]).None? ==> Encodable(Cmds(c)[i])
  {
    hide AllCmds, Size;
    var d := Cmds(c)[i];
    assert Writable(d);
    L.LandsStmts(c.main);
    L.LandsDecls(c.decls);
    AllShape(c.main, c.decls);
    L.LandsAppend(GenStmts(c.main), DeclCmds(c.decls));
    if d.Jump? && d.target.Off? {
      L.JumpShort(Cmds(c), i);
    }
  }

  lemma SameCount(ms: seq<Module>, cs: seq<Compiled>)
    requires Generated(ms, cs)
    ensures |ms| == |cs|
  {
    hide IsModule, Fine, NoJumps, Cmds;
  }

  // A byte that no placeholder covers.
  lemma ByteStandsAt(ms: seq<Module>, cs: seq<Compiled>, version: nat, k: nat, i: nat, x: nat)
    requires Generated(ms, cs) && Linkable(ms) && k < |ms| && i < |Cmds(cs[k])| && x < CmdSize(Cmds(cs[k])[i])
    requires F.SymbolOf(Cmds(cs[k])[i]).None? || x == 0
    ensures var c, q := Cmds(cs[k])[i], Size(Cmds(cs[k])[..i]);
      ByteAt(N.Loaded(ExeOf(ms, version)), Place(q, SpotOf(ms, k)), Encode(c), x)
  {
    hide Linkable, Size, Cmds, IsModule, Place, N.Loaded, SpotOf, ExeOf, Fine, NoJumps, F.SymbolOf, Encode, CmdSize;
    var c, q := Cmds(cs[k])[i], Size(Cmds(cs[k])[..i]);
    ModuleBytes(ms[k], cs[k], i);
    InRow(ms, cs, k, i);
    ByteStands(ms, cs, version, k, i, q + x);
    assert Shifted(ms, k, q, x);
    assert ms[k].code[q + x] == ms[k].code[q..q + CmdSize(c)][x];
  }

  // A command without a symbol stands as it was generated.
  lemma PlainStands(ms: seq<Module>, cs: seq<Compiled>, version: nat, k: nat, i: nat)
    requires Generated(ms, cs) && Linkable(ms) && k < |ms| && i < |Cmds(cs[k])|
    requires F.SymbolOf(Cmds(cs[k])[i]).None?
    ensures var c, q, loaded := Cmds(cs[k])[i], Size(Cmds(cs[k])[..i]), N.Loaded(ExeOf(ms, version));
      var pc := Place(q, SpotOf(ms, k));
      pc + CmdSize(c) <= |loaded| && loaded[pc..pc + CmdSize(c)] == Encode(c)
  {
    hide *;
    SameCount(ms, cs);
    var c, q, loaded := Cmds(cs[k])[i], Size(Cmds(cs[k])[..i]), N.Loaded(ExeOf(ms, version));
    var pc := Place(q, SpotOf(ms, k));
    EncodeLength(c);
    forall x: nat | x < |Encode(c)|
      ensures ByteAt(loaded, pc, Encode(c), x)
    {
      ByteStandsAt(ms, cs, version, k, i, x);
    }
    LastByte(loaded, pc, Encode(c));
  }

  lemma EncodeLength(c: Cmd)
    ensures |Encode(c)| == CmdSize(c) > 0
  {
  }

  lemma NextPlace(ms: seq<Module>, k: nat, q: nat)
    requires k < |ms| && Shifted(ms, k, q, 1)
    ensures Place(q + 1, SpotOf(ms, k)) == Place(q, SpotOf(ms, k)) + 1
  {
    hide Place, SpotOf;
  }

  lemma FirstByte(loaded: seq<byte>, pc: nat, bs: seq<byte>, word: seq<byte>)
    requires ByteAt(loaded, pc, bs, 0) && pc + 5 <= |loaded| && loaded[pc + 1..pc + 5] == word
    ensures loaded[pc..pc + 5] == [bs[0]] + word
  {
    assert loaded[pc..pc + 5] == [loaded[pc]] + loaded[pc + 1..pc + 5];
  }

  // A command with a symbol keeps its identifier and has the symbol's number as its operand.
  lemma SymbolStands(ms: seq<Module>, cs: seq<Compiled>, version: nat, k: nat, i: nat, kind: F.Kind, id: string)
    requires Generated(ms, cs) && Linkable(ms) && NativesFit(ms) && k < |ms| && i < |Cmds(cs[k])|
    requires F.SymbolOf(Cmds(cs[k])[i]) == Some((kind, id)) && CmdSize(Cmds(cs[k])[i]) == 5
    requires |Encode(Cmds(cs[k])[i])| == 5
    ensures var c, q, loaded := Cmds(cs[k])[i], Size(Cmds(cs[k])[..i]), N.Loaded(ExeOf(ms, version));
      var pc, numbers := Place(q, SpotOf(ms, k)), NumberOf(ms, version, kind);
      id in numbers && numbers[id] < U32 && pc + 5 <= |loaded| &&
      loaded[pc..pc + 5] == [Encode(c)[0]] + LE32(numbers[id])
  {
    hide *;
    SameCount(ms, cs);
    var c, q, loaded := Cmds(cs[k])[i], Size(Cmds(cs[k])[..i]), N.Loaded(ExeOf(ms, version));
    var pc := Place(q, SpotOf(ms, k));
    ByteStandsAt(ms, cs, version, k, i, 0);
    OperandStands(ms, cs, version, k, i, kind, id);
    InRow(ms, cs, k, i);
    NextPlace(ms, k, q);
    FirstByte(loaded, pc, Encode(c), LE32(NumberOf(ms, version, kind)[id]));
  }

  lemma SymbolSize(c: Cmd)
    requires F.SymbolOf(c).Some?
    ensures CmdSize(c) == 5 && |Encode(c)| == 5 && Encode(c)[0] == IdOf(c)
  {
    hide IdOf, LE32;
  }

  lemma BytesStand(ms: seq<Module>, cs: seq<Compiled>, version: nat, k: nat, i: nat)
    requires Generated(ms, cs) && Linkable(ms) && k < |ms| && i < |Cmds(cs[k])|
    requires NativesFit(ms)
    ensures var e, c, q := ExeOf(ms, version), Cmds(cs[k])[i], Size(Cmds(cs[k])[..i]);
      var pc := Place(q, SpotOf(ms, k));
      var r := R.Ready(LinkOf(ms, version), c, pc, 0, 0);
      pc + CmdSize(r) <= |N.Loaded(e)| && N.Loaded(e)[pc..pc + CmdSize(r)] == Encode(r) && Encodable(r)
  {
    hide Linkable, Size, Cmds, IsModule, Place, N.Loaded, SpotOf, ExeOf, Fine, NoJumps, F.SymbolOf, LE32, Exists, IdOf,
      Encode, CmdSize, R.Ready, Encodable, LinkOf, NativesFit, Numbers, IsBreak, IsContinue;
    var e, c, q := ExeOf(ms, version), Cmds(cs[k])[i], Size(Cmds(cs[k])[..i]);
    var pc := Place(q, SpotOf(ms, k));
    PlainCmd(cs[k], i);
    ReadyIs(LinkOf(ms, version), c, pc);
    if F.SymbolOf(c).Some? {
      var (kind, id) := F.SymbolOf(c).value;
      SymbolSize(c);
      SymbolStands(ms, cs, version, k, i, kind, id);
      EncodeLength(R.Ready(LinkOf(ms, version), c, pc, 0, 0));
    } else {
      PlainStands(ms, cs, version, k, i);
    }
  }

  lemma LastByte(loaded: seq<byte>, pc: nat, bs: seq<byte>)
    requires |bs| > 0 && forall x: nat :: x < |bs| ==> ByteAt(loaded, pc, bs, x)
    ensures pc + |bs| <= |loaded| && loaded[pc..pc + |bs|] == bs
  {
    assert ByteAt(loaded, pc, bs, |bs| - 1);
    forall x | 0 <= x < |bs|
      ensures loaded[pc..pc + |bs|][x] == bs[x]
    {
      assert ByteAt(loaded, pc, bs, x);
    }
  }

  predicate ByteAt(loaded: seq<byte>, pc: nat, bs: seq<byte>, x: nat) {
    x < |bs| && pc + x < |loaded| && loaded[pc + x] == bs[x]
  }

  lemma ModuleBytes(m: Module, c: Compiled, i: nat)
    requires IsModule(m, c.main, c.decls, c.version) && i < |Cmds(c)|
    ensures var q, d := Size(Cmds(c)[..i]), Cmds(c)[i];
      q + CmdSize(d) <= |m.code| && m.code[q..q + CmdSize(d)] == Encode(d)
  {
    hide Size, CmdSize, Encode, AllCmds, EncodeAll, Note, TableOf;
    EncodedAt(Cmds(c), i);
  }

  predicate Shifted(ms: seq<Module>, k: nat, q: nat, x: nat)
    requires k < |ms|
  {
    Place(q + x, SpotOf(ms, k)) == Place(q, SpotOf(ms, k)) + x
  }

  // The bytes of a command stay in a row.
  lemma InRow(ms: seq<Module>, cs: seq<Compiled>, k: nat, i: nat)
    requires Generated(ms, cs) && Linkable(ms) && k < |ms| && i < |Cmds(cs[k])|
    ensures var q, n := Size(Cmds(cs[k])[..i]), CmdSize(Cmds(cs[k])[i]);
      forall x: nat :: x < n ==> Shifted(ms, k, q, x)
  {
    var q, n := Size(Cmds(cs[k])[..i]), CmdSize(Cmds(cs[k])[i]);
    hide *;
    forall x: nat | x < n
      ensures Shifted(ms, k, q, x)
    {
      ByteShifted(ms, cs, k, i, x);
    }
  }

  lemma ByteShifted(ms: seq<Module>, cs: seq<Compiled>, k: nat, i: nat, x: nat)
    requires Generated(ms, cs) && Linkable(ms) && k < |ms| && i < |Cmds(cs[k])| && x < CmdSize(Cmds(cs[k])[i])
    ensures Shifted(ms, k, Size(Cmds(cs[k])[..i]), x)
  {
    hide Size, CmdSize, IsModule, Place, SpotOf, Fine, NoJumps, AllWellFormed, Cmds, WellFormed, Mains, Funcs;
    var q, n := Size(Cmds(cs[k])[..i]), CmdSize(Cmds(cs[k])[i]);
    GeneratedFits(ms, cs);
    SameSegment(ms[k], cs[k], i);
    Placing(ms, k, q);
    Placing(ms, k, q + x);
  }

  // A command lies within one segment.
  lemma SameSegment(m: Module, c: Compiled, i: nat)
    requires IsModule(m, c.main, c.decls, c.version) && i < |Cmds(c)|
    ensures var q, n := Size(Cmds(c)[..i]), CmdSize(Cmds(c)[i]);
      n > 0 && q + n <= |m.code| && (q + n <= m.mainSize || m.mainSize <= q)
    ensures i < |GenStmts(c.main)| <==> Size(Cmds(c)[..i]) < m.mainSize
  {
    hide Size, Encode, EncodeAll, Note, TableOf, GenStmts, DeclCmds;
    var cs, n := Cmds(c), |GenStmts(c.main)|;
    F.SizeNext(cs, i);
    F.SizeGrows(cs, i + 1, |cs|);
    assert cs[..|cs|] == cs && cs[..n] == GenStmts(c.main);
    if i < n {
      F.SizeGrows(cs, i + 1, n);
    } else {
      F.SizeGrows(cs, n, i);
    }
  }
}
