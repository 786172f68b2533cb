/** Module and executable files: a header with the addresses and sizes of the segments, skipped at first
    and filled in at the end; and the readers, which find every segment through it. */
module Files {
  import opened Bytes
  import opened Buffer
  import opened Containers
  import opened Formats

  // The bytes of the tables, one behind the other, and their addresses and sizes in the header.
  function Rows(segs: seq<seq<Entry>>): seq<byte>
    requires AllSegs(segs)
  {
    if segs == [] then [] else EncAll(segs[0]) + Rows(segs[1..])
  }

  predicate AllSegs(segs: seq<seq<Entry>>) { forall k :: 0 <= k < |segs| ==> TableFits(segs[k]) }

  function SegWords(at: nat, segs: seq<seq<Entry>>): (r: seq<nat>)
    requires AllSegs(segs)
    ensures |r| == 2 * |segs|
    decreases segs
  {
    if segs == [] then []
    else [at, |EncAll(segs[0])|] + SegWords(at + |EncAll(segs[0])|, segs[1..])
  }

  // A file at address at: leading words, header, commands, tables.
  function CmdsAt(at: nat, lead: seq<nat>, segs: seq<seq<Entry>>): nat { at + 4 * (|lead| + 3 + 2 * |segs|) }

  function Header(at: nat, lead: seq<nat>, code: seq<byte>, main: nat, segs: seq<seq<Entry>>): seq<nat>
    requires AllSegs(segs) && main <= |code|
  {
    var cmds := CmdsAt(at, lead, segs);
    [cmds, main, |code| - main] + SegWords(cmds + |code|, segs)
  }

  function FileOf(at: nat, lead: seq<nat>, code: seq<byte>, main: nat, segs: seq<seq<Entry>>): (r: seq<byte>)
    requires AllSegs(segs) && main <= |code|
    ensures |r| == CmdsAt(0, lead, segs) + |code| + |Rows(segs)|
  {
    Words(lead) + Words(Header(at, lead, code, main, segs)) + code + Rows(segs)
  }

  function SizeEntries(ds: seq<IdSize>): seq<Entry> { seq(|ds|, i requires 0 <= i < |ds| => SizeEntry(ds[i])) }

  function AddressEntries(ds: seq<IdAddress>): seq<Entry> { seq(|ds|, i requires 0 <= i < |ds| => AddressEntry(ds[i])) }

  function NameEntries(xs: seq<string>): seq<Entry> { seq(|xs|, i requires 0 <= i < |xs| => NameEntry(xs[i])) }

  function RefsEntries(rs: seq<IdAddresses>): seq<Entry> { seq(|rs|, i requires 0 <= i < |rs| => RefsEntry(rs[i])) }

  function ModuleSegs(m: Module): seq<seq<Entry>> {
    [SizeEntries(m.globalDefs), AddressEntries(m.funcDefs), NameEntries(m.nativeDefs),
     RefsEntries(m.globalRefs), RefsEntries(m.funcRefs), RefsEntries(m.nativeRefs)]
  }

  function ExeSegs(e: Exe): seq<seq<Entry>> { [NameEntries(e.nativeDefs), RefsEntries(e.nativeRefs)] }

  function ModuleFile(at: nat, m: Module): seq<byte>
    requires AllSegs(ModuleSegs(m)) && m.mainSize <= |m.code|
  {
    FileOf(at, [m.version], m.code, m.mainSize, ModuleSegs(m))
  }

  function ExeFile(at: nat, e: Exe): seq<byte>
    requires AllSegs(ExeSegs(e)) && e.mainSize <= |e.code|
  {
    FileOf(at, [e.version, e.globalsSize], e.code, e.mainSize, ExeSegs(e))
  }

  // What can be written: every number and text fits its field, and the whole file stays below 2^31.
  predicate ModuleFits(at: nat, m: Module) {
    m.version < U32 && m.mainSize <= |m.code| && AllSegs(ModuleSegs(m)) && at + |ModuleFile(at, m)| < I31
  }

  predicate ExeFits(at: nat, e: Exe) {
    e.version < U32 && e.globalsSize < U32 && e.mainSize <= |e.code| && AllSegs(ExeSegs(e)) &&
      at + |ExeFile(at, e)| < I31
  }

  // ----- lemmas -----

  lemma {:induction false} SegSnoc(at: nat, segs: seq<seq<Entry>>, es: seq<Entry>)
    requires AllSegs(segs) && TableFits(es)
    ensures AllSegs(segs + [es])
    ensures Rows(segs + [es]) == Rows(segs) + EncAll(es)
    ensures SegWords(at, segs + [es]) == SegWords(at, segs) + [at + |Rows(segs)|, |EncAll(es)|]
    decreases segs
  {
    hide EncAll, TableFits, Rows, SegWords;
    SegParts(at, segs);
    SegParts(at, segs + [es]);
    if segs == [] {
      assert [] + [es] == [es] && [es][1..] == [];
      SegParts(at + |EncAll(es)|, []);
    } else {
      SegSnoc(at + |EncAll(segs[0])|, segs[1..], es);
      assert (segs + [es])[1..] == segs[1..] + [es];
    }
  }

  lemma SegParts(at: nat, segs: seq<seq<Entry>>)
    requires AllSegs(segs)
    ensures segs == [] ==> Rows(segs) == [] && SegWords(at, segs) == []
    ensures segs != [] ==>
      && Rows(segs) == EncAll(segs[0]) + Rows(segs[1..])
      && SegWords(at, segs) == [at, |EncAll(segs[0])|] + SegWords(at + |EncAll(segs[0])|, segs[1..])
  {
    hide EncAll, TableFits;
  }

  // The k-th table stands where its address says, and has its size.
  lemma {:induction false} SegStands(s: seq<byte>, at: nat, segs: seq<seq<Entry>>, k: nat)
    requires AllSegs(segs) && k < |segs| && Stands(s, at, Rows(segs))
    ensures var ws := SegWords(at, segs);
      ws[2 * k + 1] == |EncAll(segs[k])| && Stands(s, ws[2 * k], EncAll(segs[k]))
    decreases segs
  {
    hide EncAll, EntryFits, Stands;
    StandsJoin(s, at, EncAll(segs[0]), Rows(segs[1..]));
    if k > 0 {
      SegStands(s, at + |EncAll(segs[0])|, segs[1..], k - 1);
    }
  }

  // The tables tile the rest of the file: the first begins behind the commands, every other one where
  // the one before ends, and the last ends the file.
  lemma {:induction false} TablesTile(at: nat, segs: seq<seq<Entry>>, k: nat)
    requires AllSegs(segs) && k < |segs|
    ensures var ws := SegWords(at, segs);
      && ws[0] == at
      && ws[2 * k] + ws[2 * k + 1] == if k + 1 < |segs| then ws[2 * k + 2] else at + |Rows(segs)|
    decreases segs
  {
    hide EncAll, TableFits;
    var rest := at + |EncAll(segs[0])|;
    var more := SegWords(rest, segs[1..]);
    assert SegWords(at, segs) == [at, |EncAll(segs[0])|] + more;
    assert Rows(segs) == EncAll(segs[0]) + Rows(segs[1..]);
    hide SegWords, Rows;
    if k > 0 {
      TablesTile(rest, segs[1..], k - 1);
    } else if |segs| > 1 {
      TablesTile(rest, segs[1..], 0);
    } else {
      assert segs[1..] == [];
      NoTables([]);
    }
  }

  lemma {:induction false} SegWordsFit(at: nat, segs: seq<seq<Entry>>)
    requires AllSegs(segs) && at + |Rows(segs)| < U32
    ensures WordsFit(SegWords(at, segs))
    decreases segs
  {
    hide EncAll, EntryFits;
    if segs != [] {
      SegWordsFit(at + |EncAll(segs[0])|, segs[1..]);
    }
  }

  lemma OverwriteEnd(s: seq<byte>, b: seq<byte>)
    ensures Overwrite(s, |s|, b) == s + b
  {
  }

  // Filling in what was skipped.
  lemma FillGap(a: seq<byte>, gap: seq<byte>, rest: seq<byte>, h: seq<byte>)
    requires |gap| == |h|
    ensures Overwrite(a + gap + rest, |a|, h) == a + h + rest
  {
    var s := a + gap + rest;
    assert s[..|a|] == a;
    assert s[|a| + |h|..] == rest;
  }

  // The parts of a file that stands in s.
  lemma FileStands(s: seq<byte>, at: nat, lead: seq<nat>, code: seq<byte>, main: nat, segs: seq<seq<Entry>>)
    requires AllSegs(segs) && main <= |code| && Stands(s, at, FileOf(at, lead, code, main, segs))
    ensures Stands(s, at, Words(lead + Header(at, lead, code, main, segs)))
    ensures var cmds := CmdsAt(at, lead, segs); Stands(s, cmds, code) && Stands(s, cmds + |code|, Rows(segs))
  {
    hide Stands, Rows, SegWords;
    var h := Header(at, lead, code, main, segs);
    WordsJoin(lead, h);
    StandsJoin(s, at, Words(lead) + Words(h) + code, Rows(segs));
    StandsJoin(s, at, Words(lead) + Words(h), code);
  }

  lemma HeaderFits(at: nat, lead: seq<nat>, code: seq<byte>, main: nat, segs: seq<seq<Entry>>)
    requires AllSegs(segs) && main <= |code| && at + |FileOf(at, lead, code, main, segs)| < I31
    ensures WordsFit(Header(at, lead, code, main, segs))
  {
    hide Rows, FileOf, Words, SegWords, WordsFit, AllSegs, TableFits;
    var cmds := CmdsAt(at, lead, segs);
    SegWordsFit(cmds + |code|, segs);
    ThreeFit(cmds, main, |code| - main);
    JoinFit([cmds, main, |code| - main], SegWords(cmds + |code|, segs));
  }

  lemma ThreeFit(a: nat, b: nat, c: nat)
    requires a < U32 && b < U32 && c < U32
    ensures WordsFit([a, b, c])
  {
  }

  lemma JoinFit(a: seq<nat>, b: seq<nat>)
    requires WordsFit(a) && WordsFit(b)
    ensures WordsFit(a + b)
  {
  }

  // ----- the writer -----

  // Code::Write at the end of what is written so far.
  method Append(code: Code, bs: seq<byte>)
    requires Room(code, |bs|) && code.position == code.size
    modifies code, code.bytes
    ensures code.Valid() && (code.bytes == old(code.bytes) || fresh(code.bytes)) && code.position == code.size
    ensures code.Contents() == old(code.Contents()) + bs
  {
    OverwriteEnd(code.Contents(), bs);
    Put(code, bs);
  }

  // One table at the end, with its address and its size added to the words of the header.
  method AppendTable(code: Code, words: seq<nat>, es: seq<Entry>, ghost base: seq<byte>, ghost segs: seq<seq<Entry>>)
    returns (more: seq<nat>)
    requires AllSegs(segs) && TableFits(es) && Room(code, |EncAll(es)|)
    requires code.position == code.size && code.Contents() == base + Rows(segs) && words == SegWords(|base|, segs)
    modifies code, code.bytes
    ensures code.Valid() && (code.bytes == old(code.bytes) || fresh(code.bytes)) && code.position == code.size
    ensures AllSegs(segs + [es]) && more == SegWords(|base|, segs + [es]) && code.Contents() == base + Rows(segs + [es])
  {
    hide Rows, SegWords, EncAll, TableFits, AllSegs;
    SegSnoc(|base|, segs, es);
    var address := code.position;
    OverwriteEnd(code.Contents(), EncAll(es));
    PutEntries(code, es);
    more := words + [address, code.position - address];
  }

  // The tables before the k-th, and room for the k-th.
  lemma {:induction false} SegPrefix(segs: seq<seq<Entry>>, k: nat)
    requires AllSegs(segs) && k < |segs|
    ensures AllSegs(segs[..k]) && TableFits(segs[k]) && segs[..k] + [segs[k]] == segs[..k + 1]
    ensures |Rows(segs[..k])| + |EncAll(segs[k])| <= |Rows(segs)|
    decreases k
  {
    hide EncAll, TableFits;
    if k > 0 {
      SegPrefix(segs[1..], k - 1);
      assert segs[..k][1..] == segs[1..][..k - 1];
    }
  }

  // The leading words, the skipped header, the commands.
  method WriteStart(code: Code, lead: seq<nat>, skipped: nat, cmds: seq<byte>) returns (ghost gap: seq<byte>)
    requires WordsFit(lead) && code.position == code.size && Room(code, 4 * |lead| + skipped + |cmds|)
    modifies code, code.bytes
    ensures code.Valid() && (code.bytes == old(code.bytes) || fresh(code.bytes)) && code.position == code.size
    ensures |gap| == skipped && code.Contents() == old(code.Contents()) + Words(lead) + gap + cmds
  {
    hide Words;
    OverwriteEnd(code.Contents(), Words(lead));
    PutWords(code, lead);
    ghost var before := code.Contents();
    RoomGrows(code, skipped);
    var ok := code.Skip(skipped);
    gap := code.Contents()[|before|..];
    assert code.Contents() == before + gap;
    Append(code, cmds);
  }

  // The header, once everything behind it is written.
  method FillHeader(code: Code, metadata: nat, words: seq<nat>, ghost front: seq<byte>, ghost gap: seq<byte>,
                    ghost rest: seq<byte>)
    requires WordsFit(words) && code.Valid() && code.Contents() == front + gap + rest
    requires metadata == |front| && |gap| == 4 * |words|
    modifies code, code.bytes
    ensures code.Valid() && (code.bytes == old(code.bytes) || fresh(code.bytes))
    ensures code.Contents() == front + Words(words) + rest && code.position == metadata + 4 * |words|
  {
    hide Words, Overwrite;
    FillGap(front, gap, rest, Words(words));
    code.SetPosition(metadata);
    PutWords(code, words);
  }

  lemma WholeFile(c: seq<byte>, at: nat, lead: seq<nat>, code: seq<byte>, main: nat, segs: seq<seq<Entry>>)
    requires AllSegs(segs) && main <= |code|
    ensures c + Words(lead) + Words(Header(at, lead, code, main, segs)) + (code + Rows(segs)) ==
      c + FileOf(at, lead, code, main, segs)
  {
    hide Rows, SegWords, Words, AllSegs;
    var w, h := Words(lead), Words(Header(at, lead, code, main, segs));
    assert c + w + h + (code + Rows(segs)) == c + (w + h + code + Rows(segs));
  }

  // The tables of a module, in their order.
  method WriteModuleTables(m: Module, code: Code, ghost base: seq<byte>) returns (words: seq<nat>)
    requires AllSegs(ModuleSegs(m)) && Room(code, |Rows(ModuleSegs(m))|)
    requires code.position == code.size && code.Contents() == base
    modifies code, code.bytes
    ensures code.Valid() && (code.bytes == old(code.bytes) || fresh(code.bytes)) && code.position == code.size
    ensures words == SegWords(|base|, ModuleSegs(m)) && code.Contents() == base + Rows(ModuleSegs(m))
  {
    hide Rows, SegWords, EncAll, TableFits, AllSegs;
    ghost var segs := ModuleSegs(m);
    NoTables(base);
    SegPrefix(segs, 0);
    words := AppendTable(code, [], SizeEntries(m.globalDefs), base, []);
    SegPrefix(segs, 1);
    words := AppendTable(code, words, AddressEntries(m.funcDefs), base, segs[..1]);
    SegPrefix(segs, 2);
    words := AppendTable(code, words, NameEntries(m.nativeDefs), base, segs[..2]);
    SegPrefix(segs, 3);
    words := AppendTable(code, words, RefsEntries(m.globalRefs), base, segs[..3]);
    SegPrefix(segs, 4);
    words := AppendTable(code, words, RefsEntries(m.funcRefs), base, segs[..4]);
    SegPrefix(segs, 5);
    words := AppendTable(code, words, RefsEntries(m.nativeRefs), base, segs[..5]);
    assert segs[..6] == segs;
  }

  // SimpleCodeContainerWriter::Write(Module).
  method WriteModule(m: Module, code: Code)
    requires code.Valid() && code.position == code.size && ModuleFits(code.size, m)
    modifies code, code.bytes
    ensures code.Valid() && (code.bytes == old(code.bytes) || fresh(code.bytes))
    ensures code.Contents() == old(code.Contents()) + ModuleFile(old(code.size), m)
    ensures code.position == old(code.size) + 64
  {
    hide *;
    ghost var c, at, segs := code.Contents(), code.size, ModuleSegs(m);
    ModuleParts(at, m);
    var metadata := code.position + 4;
    RoomIs(code, 4 + 60 + |m.code|);
    ghost var gap := WriteStart(code, [m.version], 60, m.code);
    var cmds := metadata + 60;
    RoomIs(code, |Rows(segs)|);
    ghost var front := c + Words([m.version]);
    var words := WriteModuleTables(m, code, front + gap + m.code);
    Regroup(front, gap, m.code, Rows(segs));
    FillHeader(code, metadata, [cmds, m.mainSize, |m.code| - m.mainSize] + words, front, gap, m.code + Rows(segs));
    WholeFile(c, at, [m.version], m.code, m.mainSize, segs);
  }

  lemma RoomIs(code: Code, count: nat)
    requires code.Valid()
    ensures code.size + count < I31 || code.position + count <= code.size ==> Room(code, count)
  {
  }

  lemma Regroup(a: seq<byte>, b: seq<byte>, c: seq<byte>, d: seq<byte>)
    ensures a + b + c + d == a + b + (c + d)
  {
  }

  lemma NoTables(base: seq<byte>)
    ensures AllSegs([]) && SegWords(|base|, []) == [] && Rows([]) == [] && base + Rows([]) == base
  {
  }

  lemma ModuleParts(at: nat, m: Module)
    requires ModuleFits(at, m)
    ensures var segs := ModuleSegs(m);
      && AllSegs(segs) && m.mainSize <= |m.code| && WordsFit([m.version])
      && segs == [SizeEntries(m.globalDefs), AddressEntries(m.funcDefs), NameEntries(m.nativeDefs),
                  RefsEntries(m.globalRefs), RefsEntries(m.funcRefs), RefsEntries(m.nativeRefs)]
      && at + 64 + |m.code| + |Rows(segs)| < I31
      && Header(at, [m.version], m.code, m.mainSize, segs)
           == [at + 64, m.mainSize, |m.code| - m.mainSize] + SegWords(at + 64 + |m.code|, segs)
      && WordsFit(Header(at, [m.version], m.code, m.mainSize, segs))
      && ModuleFile(at, m) == FileOf(at, [m.version], m.code, m.mainSize, segs)
  {
    hide Rows, SegWords, TableFits, AllSegs;
    HeaderFits(at, [m.version], m.code, m.mainSize, ModuleSegs(m));
  }

  lemma ExeParts(at: nat, e: Exe)
    requires ExeFits(at, e)
    ensures var segs, lead := ExeSegs(e), [e.version, e.globalsSize];
      && AllSegs(segs) && e.mainSize <= |e.code| && WordsFit(lead)
      && segs == [NameEntries(e.nativeDefs), RefsEntries(e.nativeRefs)]
      && at + 36 + |e.code| + |Rows(segs)| < I31
      && Header(at, lead, e.code, e.mainSize, segs)
           == [at + 36, e.mainSize, |e.code| - e.mainSize] + SegWords(at + 36 + |e.code|, segs)
      && WordsFit(Header(at, lead, e.code, e.mainSize, segs))
      && ExeFile(at, e) == FileOf(at, lead, e.code, e.mainSize, segs)
  {
    hide Rows, SegWords, TableFits, AllSegs;
    HeaderFits(at, [e.version, e.globalsSize], e.code, e.mainSize, ExeSegs(e));
  }

  method WriteExeTables(e: Exe, code: Code, ghost base: seq<byte>) returns (words: seq<nat>)
    requires AllSegs(ExeSegs(e)) && Room(code, |Rows(ExeSegs(e))|)
    requires code.position == code.size && code.Contents() == base
    modifies code, code.bytes
    ensures code.Valid() && (code.bytes == old(code.bytes) || fresh(code.bytes)) && code.position == code.size
    ensures words == SegWords(|base|, ExeSegs(e)) && code.Contents() == base + Rows(ExeSegs(e))
  {
    hide Rows, SegWords, EncAll, TableFits, AllSegs;
    ghost var segs := ExeSegs(e);
    NoTables(base);
    SegPrefix(segs, 0);
    words := AppendTable(code, [], NameEntries(e.nativeDefs), base, []);
    SegPrefix(segs, 1);
    words := AppendTable(code, words, RefsEntries(e.nativeRefs), base, segs[..1]);
    assert segs[..2] == segs;
  }

  // SimpleCodeContainerWriter::Write(Exe).
  method WriteExe(e: Exe, code: Code)
    requires code.Valid() && code.position == code.size && ExeFits(code.size, e)
    modifies code, code.bytes
    ensures code.Valid() && (code.bytes == old(code.bytes) || fresh(code.bytes))
    ensures code.Contents() == old(code.Contents()) + ExeFile(old(code.size), e)
    ensures code.position == old(code.size) + 36
  {
    hide *;
    ghost var c, at, segs := code.Contents(), code.size, ExeSegs(e);
    ExeParts(at, e);
    var lead := [e.version, e.globalsSize];
    var metadata := code.position + 8;
    RoomIs(code, 8 + 28 + |e.code|);
    ghost var gap := WriteStart(code, lead, 28, e.code);
    var cmds := metadata + 28;
    RoomIs(code, |Rows(segs)|);
    ghost var front := c + Words(lead);
    var words := WriteExeTables(e, code, front + gap + e.code);
    Regroup(front, gap, e.code, Rows(segs));
    FillHeader(code, metadata, [cmds, e.mainSize, |e.code| - e.mainSize] + words, front, gap, e.code + Rows(segs));
    WholeFile(c, at, lead, e.code, e.mainSize, segs);
  }

  // ----- the readers -----

  function SizesIn(es: seq<Entry>): seq<IdSize>
    requires AllAre(es, Sizes)
  {
    seq(|es|, i requires 0 <= i < |es| && es[i].SizeEntry? => es[i].def)
  }

  function AddressesIn(es: seq<Entry>): seq<IdAddress>
    requires AllAre(es, Addresses)
  {
    seq(|es|, i requires 0 <= i < |es| && es[i].AddressEntry? => es[i].at)
  }

  function NamesIn(es: seq<Entry>): seq<string>
    requires AllAre(es, Names)
  {
    seq(|es|, i requires 0 <= i < |es| && es[i].NameEntry? => es[i].name)
  }

  function RefsIn(es: seq<Entry>): seq<IdAddresses>
    requires AllAre(es, Refs)
  {
    seq(|es|, i requires 0 <= i < |es| && es[i].RefsEntry? => es[i].refs)
  }

  lemma TablesBack(ds: seq<IdSize>, fs: seq<IdAddress>, xs: seq<string>, rs: seq<IdAddresses>)
    ensures AllAre(SizeEntries(ds), Sizes) && SizesIn(SizeEntries(ds)) == ds
    ensures AllAre(AddressEntries(fs), Addresses) && AddressesIn(AddressEntries(fs)) == fs
    ensures AllAre(NameEntries(xs), Names) && NamesIn(NameEntries(xs)) == xs
    ensures AllAre(RefsEntries(rs), Refs) && RefsIn(RefsEntries(rs)) == rs
  {
  }

  // The commands of a file, copied from their address.
  method TakeCmds(code: Code, address: nat, size: nat, ghost cmds: seq<byte>) returns (r: seq<byte>)
    requires code.Valid() && size == |cmds| && Stands(code.Contents(), address, cmds)
    modifies code`position
    ensures code.Valid() && code.Contents() == old(code.Contents()) && r == cmds
  {
    code.SetPosition(address);
    r := code.Read(size);
  }

  // Reading the k-th table of a file through the header's words.
  method TakeTable(code: Code, kind: Kind, words: seq<nat>, at: nat, ghost base: nat, ghost segs: seq<seq<Entry>>,
                   ghost k: nat)
    returns (r: seq<Entry>)
    requires code.Valid() && AllSegs(segs) && k < |segs| && AllAre(segs[k], kind) &&
      Stands(code.Contents(), base, Rows(segs))
    requires at + 1 < |words| && words[at] == SegWords(base, segs)[2 * k] &&
      words[at + 1] == SegWords(base, segs)[2 * k + 1]
    modifies code`position
    ensures code.Valid() && code.Contents() == old(code.Contents()) && r == segs[k]
  {
    hide EncAll, Rows, SegWords, AllAre, TableFits;
    SegStands(code.Contents(), base, segs, k);
    r := TakeEntries(code, kind, words[at], words[at + 1], segs[k]);
  }

  // SimpleModuleReader::ReadFromCode, of a file that holds a module.
  method ReadModule(code: Code, ghost m: Module) returns (r: Module)
    requires code.Valid() && ModuleFits(code.position, m)
    requires Stands(code.Contents(), code.position, ModuleFile(code.position, m))
    modifies code`position
    ensures code.Valid() && code.Contents() == old(code.Contents())
    ensures r == m
  {
    hide *;
    ghost var at, segs := code.position, ModuleSegs(m);
    ModuleParts(at, m);
    FileStands(code.Contents(), at, [m.version], m.code, m.mainSize, segs);
    ghost var expected := [m.version] + Header(at, [m.version], m.code, m.mainSize, segs);
    JoinFit([m.version], Header(at, [m.version], m.code, m.mainSize, segs));
    TablesBack(m.globalDefs, m.funcDefs, m.nativeDefs, m.globalRefs);
    TablesBack(m.globalDefs, m.funcDefs, m.nativeDefs, m.funcRefs);
    TablesBack(m.globalDefs, m.funcDefs, m.nativeDefs, m.nativeRefs);
    ModuleCmds(at, m);
    ghost var base := at + 64 + |m.code|;
    ghost var tables := SegWords(base, segs);
    var words := TakeWords(code, 64, expected);
    var version, cmdsAddress, mainSize, funcSize := words[0], words[1], words[2], words[3];
    assert forall i | 0 <= i < 12 :: words[4 + i] == tables[i];
    var cmds := TakeCmds(code, cmdsAddress, mainSize + funcSize, m.code);
    var globalDefs := TakeTable(code, Sizes, words, 4, base, segs, 0);
    var funcDefs := TakeTable(code, Addresses, words, 6, base, segs, 1);
    var nativeDefs := TakeTable(code, Names, words, 8, base, segs, 2);
    var globalRefs := TakeTable(code, Refs, words, 10, base, segs, 3);
    var funcRefs := TakeTable(code, Refs, words, 12, base, segs, 4);
    var nativeRefs := TakeTable(code, Refs, words, 14, base, segs, 5);
    r := Module(version, cmds, mainSize, AddressesIn(funcDefs), SizesIn(globalDefs), NamesIn(nativeDefs),
      RefsIn(funcRefs), RefsIn(nativeRefs), RefsIn(globalRefs));
  }

  lemma ModuleCmds(at: nat, m: Module)
    ensures CmdsAt(at, [m.version], ModuleSegs(m)) == at + 64
  {
  }

  lemma ExeCmds(at: nat, e: Exe)
    ensures CmdsAt(at, [e.version, e.globalsSize], ExeSegs(e)) == at + 36
  {
  }

  // SimpleExeReader::ReadFromCode, of a file that holds an executable.
  method ReadExe(code: Code, ghost e: Exe) returns (r: Exe)
    requires code.Valid() && ExeFits(code.position, e)
    requires Stands(code.Contents(), code.position, ExeFile(code.position, e))
    modifies code`position
    ensures code.Valid() && code.Contents() == old(code.Contents())
    ensures r == e
  {
    hide *;
    ghost var at, segs, lead := code.position, ExeSegs(e), [e.version, e.globalsSize];
    ExeParts(at, e);
    FileStands(code.Contents(), at, lead, e.code, e.mainSize, segs);
    ghost var expected := lead + Header(at, lead, e.code, e.mainSize, segs);
    JoinFit(lead, Header(at, lead, e.code, e.mainSize, segs));
    TablesBack([], [], e.nativeDefs, e.nativeRefs);
    ExeCmds(at, e);
    ghost var base := at + 36 + |e.code|;
    ghost var tables := SegWords(base, segs);
    var words := TakeWords(code, 36, expected);
    var version, globalsSize, cmdsAddress, mainSize, funcSize := words[0], words[1], words[2], words[3], words[4];
    assert forall i | 0 <= i < 4 :: words[5 + i] == tables[i];
    var cmds := TakeCmds(code, cmdsAddress, mainSize + funcSize, e.code);
    var nativeDefs := TakeTable(code, Names, words, 5, base, segs, 0);
    var nativeRefs := TakeTable(code, Refs, words, 7, base, segs, 1);
    r := Exe(version, cmds, mainSize, globalsSize, NamesIn(nativeDefs), RefsIn(nativeRefs));
  }

  // Saving and loading: what is read from the start of a file is what was written to it.
  method SaveAndLoad(m: Module) returns (r: Module)
    requires ModuleFits(0, m)
    ensures r == m
  {
    hide ModuleFits, ModuleFile;
    ModuleParts(0, m);
    var code := new Code();
    WriteModule(m, code);
    assert [] + ModuleFile(0, m) == ModuleFile(0, m);
    code.SetPosition(0);
    r := ReadModule(code, m);
  }

  method SaveAndLoadExe(e: Exe) returns (r: Exe)
    requires ExeFits(0, e)
    ensures r == e
  {
    hide ExeFits, ExeFile;
    ExeParts(0, e);
    var code := new Code();
    WriteExe(e, code);
    assert [] + ExeFile(0, e) == ExeFile(0, e);
    code.SetPosition(0);
    r := ReadExe(code, e);
  }
}
