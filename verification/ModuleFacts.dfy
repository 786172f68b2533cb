/** A generated module meets the linkers' requirements: its recorded placeholders are exactly the operand
    fields of its symbolic commands, each within a segment and apart from the others. */
module ModuleFacts {
  import opened Bytes
  import opened Language
  import opened Analysis
  import opened Commands
  import opened Codegen
  import opened Containers
  import opened Emission
  import opened Generator

  datatype Kind = GlobalKind | FuncKind | NativeKind

  // The table a command's operand is recorded in, and under which name.
  function SymbolOf(c: Cmd): Option<(Kind, string)> {
    match c
    case CreateGlobal(_, Sym(x)) => Some((GlobalKind, x))
    case InitGlobal(_, Sym(x)) => Some((GlobalKind, x))
    case LoadGlobal(_, Sym(x)) => Some((GlobalKind, x))
    case LoadGlobalAddress(Sym(x)) => Some((GlobalKind, x))
    case LoadFunc(Sym(f)) => Some((FuncKind, f))
    case LoadNative(Sym(f)) => Some((NativeKind, f))
    case _ => None
  }

  function Recorded(n: Notes, k: Kind): map<string, seq<nat>> {
    match k case GlobalKind => n.globals case FuncKind => n.funcs case NativeKind => n.natives
  }

  predicate IsNoted(n: Notes, k: Kind, id: string, a: nat) { id in Recorded(n, k) && a in Recorded(n, k)[id] }

  // The i-th command has the symbol, and its operand is at a.
  predicate SymbolAt(cs: seq<Cmd>, pos: nat, i: nat, k: Kind, id: string, a: nat) {
    i < |cs| && SymbolOf(cs[i]) == Some((k, id)) && a == pos + Size(cs[..i]) + 1
  }

  lemma NotedCmd(n: Notes, c: Cmd, pos: nat, k: Kind, id: string, a: nat)
    ensures IsNoted(NoteCmd(n, c, pos), k, id, a) <==>
      IsNoted(n, k, id, a) || (SymbolOf(c) == Some((k, id)) && a == pos + 1)
  {
  }

  lemma {:induction false} Noted(n: Notes, cs: seq<Cmd>, pos: nat, k: Kind, id: string, a: nat)
    ensures IsNoted(Note(n, cs, pos), k, id, a) <==>
      IsNoted(n, k, id, a) || exists i: nat :: SymbolAt(cs, pos, i, k, id, a)
    decreases |cs|
  {
    hide NoteCmd, SymbolOf, CmdSize, Encode, IsNoted;
    if cs != [] {
      var c, q := cs[0], pos + CmdSize(cs[0]);
      NotedCmd(n, c, pos, k, id, a);
      Noted(NoteCmd(n, c, pos), cs[1..], q, k, id, a);
      if i: nat :| SymbolAt(cs, pos, i, k, id, a) {
        SizeFront(cs, i);
        assert i == 0 ==> a == pos + 1;
        assert i > 0 ==> SymbolAt(cs[1..], q, i - 1, k, id, a);
      }
      if i: nat :| SymbolAt(cs[1..], q, i, k, id, a) {
        SizeFront(cs, i + 1);
        assert SymbolAt(cs, pos, i + 1, k, id, a);
      }
      if SymbolOf(c) == Some((k, id)) && a == pos + 1 {
        assert SymbolAt(cs, pos, 0, k, id, a);
      }
    }
  }

  lemma SizeFront(cs: seq<Cmd>, i: nat)
    requires cs != [] && i <= |cs|
    ensures i == 0 ==> Size(cs[..i]) == 0
    ensures i > 0 ==> Size(cs[..i]) == CmdSize(cs[0]) + Size(cs[1..][..i - 1])
  {
    hide CmdSize;
    if i > 0 {
      assert cs[..i][0] == cs[0] && cs[..i][1..] == cs[1..][..i - 1];
    }
  }

  lemma SizeNext(cs: seq<Cmd>, i: nat)
    requires i < |cs|
    ensures Size(cs[..i + 1]) == Size(cs[..i]) + CmdSize(cs[i])
  {
    hide CmdSize;
    assert cs[..i + 1] == cs[..i] + [cs[i]];
    SizeAppend(cs[..i], [cs[i]]);
    assert [cs[i]][1..] == [];
    assert Size([cs[i]]) == CmdSize(cs[i]);
  }

  lemma SizeGrows(cs: seq<Cmd>, i: nat, j: nat)
    requires i <= j <= |cs|
    ensures Size(cs[..i]) <= Size(cs[..j]) <= Size(cs)
  {
    assert cs[..j] == cs[..i] + cs[i..j];
    SizeAppend(cs[..i], cs[i..j]);
    assert cs == cs[..j] + cs[j..];
    SizeAppend(cs[..j], cs[j..]);
  }

  lemma SymbolSize(c: Cmd)
    requires SymbolOf(c).Some?
    ensures CmdSize(c) == 5
  {
  }

  // A table lists what was recorded.
  lemma TableRef(m: map<string, seq<nat>>, refs: seq<IdAddresses>, id: string, a: nat)
    requires TableOf(m, refs)
    ensures HasRef(refs, id, a) <==> id in m && a in m[id]
  {
  }

  // The table of a kind in a module.
  function RefsIn(m: Module, k: Kind): seq<IdAddresses> {
    match k case GlobalKind => m.globalRefs case FuncKind => m.funcRefs case NativeKind => m.nativeRefs
  }

  // The recorded placeholders are exactly the operands of the symbolic commands.
  lemma RecordedExactly(m: Module, main: seq<TStmt>, decls: seq<Decl>, version: nat, k: Kind, id: string, a: nat)
    requires IsModule(m, main, decls, version)
    ensures HasRef(RefsIn(m, k), id, a) <==> exists i: nat :: SymbolAt(AllCmds(main, decls), 0, i, k, id, a)
  {
    hide Note, SymbolAt, HasRef, AllCmds, GenStmts, Size, EncodeAll, DeclDefs, DeclNatives, TableOf;
    var cs := AllCmds(main, decls);
    Noted(NoNotes(), cs, 0, k, id, a);
    TableRef(Recorded(Note(NoNotes(), cs, 0), k), RefsIn(m, k), id, a);
  }

  lemma FieldOf(m: Module, main: seq<TStmt>, decls: seq<Decl>, version: nat, i: nat, k: Kind, id: string, a: nat)
    requires IsModule(m, main, decls, version) && SymbolAt(AllCmds(main, decls), 0, i, k, id, a)
    ensures InSegment(m, a) && a + 4 == Size(AllCmds(main, decls)[..i + 1]) && a > Size(AllCmds(main, decls)[..i])
  {
    hide GenStmts, DeclCmds, EncodeAll, Note, TableOf, DeclDefs, DeclNatives, Size, CmdSize, SymbolOf;
    var cs := AllCmds(main, decls);
    var n := |GenStmts(main)|;
    SymbolSize(cs[i]);
    SizeNext(cs, i);
    assert cs[..n] == GenStmts(main);
    if i < n {
      SizeGrows(cs, i + 1, n);
    } else {
      SizeGrows(cs, n, i);
      SizeGrows(cs, i + 1, |cs|);
    }
  }

  // Two operands are the same one, or apart.
  lemma FieldsApart(cs: seq<Cmd>, i: nat, j: nat, k1: Kind, x: string, a: nat, k2: Kind, y: string, b: nat)
    requires SymbolAt(cs, 0, i, k1, x, a) && SymbolAt(cs, 0, j, k2, y, b) && (k1 != k2 || x != y || a != b)
    ensures Apart(a, b)
  {
    hide Size, CmdSize, SymbolOf;
    SymbolSize(cs[i]);
    SymbolSize(cs[j]);
    SizeNext(cs, i);
    SizeNext(cs, j);
    if i < j {
      SizeGrows(cs, i + 1, j);
    } else if j < i {
      SizeGrows(cs, j + 1, i);
    }
  }

  lemma FieldIndex(m: Module, main: seq<TStmt>, decls: seq<Decl>, version: nat, k: Kind, id: string, a: nat)
      returns (i: nat)
    requires IsModule(m, main, decls, version) && HasRef(RefsIn(m, k), id, a)
    ensures SymbolAt(AllCmds(main, decls), 0, i, k, id, a) && InSegment(m, a)
  {
    hide IsModule, SymbolAt, InSegment, HasRef;
    RecordedExactly(m, main, decls, version, k, id, a);
    i :| SymbolAt(AllCmds(main, decls), 0, i, k, id, a);
    FieldOf(m, main, decls, version, i, k, id, a);
  }

  lemma KindFits(m: Module, main: seq<TStmt>, decls: seq<Decl>, version: nat, k: Kind)
    requires IsModule(m, main, decls, version)
    ensures RefsFit(m, RefsIn(m, k))
  {
    hide IsModule, SymbolAt, InSegment, HasRef, IsRef;
    var cs, refs := AllCmds(main, decls), RefsIn(m, k);
    forall a: nat | IsRef(refs, a)
      ensures InSegment(m, a)
    {
      NamedRef(refs, a);
      var id :| HasRef(refs, id, a);
      var _ := FieldIndex(m, main, decls, version, k, id, a);
    }
    forall x, y, a: nat, b: nat | HasRef(refs, x, a) && HasRef(refs, y, b) && (x != y || a != b)
      ensures Apart(a, b)
    {
      var i := FieldIndex(m, main, decls, version, k, x, a);
      var j := FieldIndex(m, main, decls, version, k, y, b);
      FieldsApart(cs, i, j, k, x, a, k, y, b);
    }
  }

  lemma NamedRef(refs: seq<IdAddresses>, a: nat)
    requires IsRef(refs, a)
    ensures exists id :: HasRef(refs, id, a)
  {
    var i :| 0 <= i < |refs| && a in refs[i].addresses;
    assert HasRef(refs, refs[i].id, a);
  }

  lemma KindsApart(m: Module, main: seq<TStmt>, decls: seq<Decl>, version: nat, k1: Kind, k2: Kind)
    requires IsModule(m, main, decls, version) && k1 != k2
    ensures RefsApart(RefsIn(m, k1), RefsIn(m, k2))
  {
    hide IsModule, SymbolAt, InSegment, HasRef, IsRef;
    forall a: nat, b: nat | IsRef(RefsIn(m, k1), a) && IsRef(RefsIn(m, k2), b)
      ensures Apart(a, b)
    {
      NamedRef(RefsIn(m, k1), a);
      NamedRef(RefsIn(m, k2), b);
      var x :| HasRef(RefsIn(m, k1), x, a);
      var y :| HasRef(RefsIn(m, k2), y, b);
      var i := FieldIndex(m, main, decls, version, k1, x, a);
      var j := FieldIndex(m, main, decls, version, k2, y, b);
      FieldsApart(AllCmds(main, decls), i, j, k1, x, a, k2, y, b);
    }
  }

  lemma {:induction false} DefsInside(ds: seq<Decl>, pos: nat)
    ensures forall i :: 0 <= i < |DeclDefs(ds, pos)| ==> pos <= DeclDefs(ds, pos)[i].address <= pos + Size(DeclCmds(ds))
    decreases |ds|
  {
    hide GenFunc, Size;
    if ds != [] {
      match ds[0]
      case FuncDecl(name, f) =>
        SizeAppend(GenFunc(f), DeclCmds(ds[1..]));
        DefsInside(ds[1..], pos + Size(GenFunc(f)));
      case NativeDecl(_) =>
        assert [] + DeclCmds(ds[1..]) == DeclCmds(ds[1..]);
        DefsInside(ds[1..], pos);
    }
  }

  predicate SmallDefs(ds: seq<IdSize>) { forall i :: 0 <= i < |ds| ==> 1 <= ds[i].size <= 2 }

  lemma {:induction false} NotedDefs(n: Notes, cs: seq<Cmd>, pos: nat)
    requires SmallDefs(n.defs)
    ensures SmallDefs(Note(n, cs, pos).defs)
    decreases |cs|
  {
    hide CmdSize;
    if cs != [] {
      NotedDefs(NoteCmd(n, cs[0], pos), cs[1..], pos + CmdSize(cs[0]));
    }
  }

  // The generator establishes the linkers' precondition.
  lemma ModuleWellFormed(m: Module, main: seq<TStmt>, decls: seq<Decl>, version: nat)
    requires IsModule(m, main, decls, version) && Fine(AllCmds(main, decls), 0)
    ensures WellFormed(m)
  {
    hide RefsFit, RefsApart, GenStmts, DeclCmds, EncodeAll, Note, TableOf, Size, AllWritable, DeclDefs;
    KindFits(m, main, decls, version, GlobalKind);
    KindFits(m, main, decls, version, FuncKind);
    KindFits(m, main, decls, version, NativeKind);
    KindsApart(m, main, decls, version, GlobalKind, FuncKind);
    KindsApart(m, main, decls, version, GlobalKind, NativeKind);
    KindsApart(m, main, decls, version, FuncKind, NativeKind);
    DefsInside(decls, m.mainSize);
    NotedDefs(NoNotes(), AllCmds(main, decls), 0);
    SizeAppend(GenStmts(main), DeclCmds(decls));
  }
}
