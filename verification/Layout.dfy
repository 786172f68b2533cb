/** Where everything stands in a stored file, in numbers: each word with its offset, lowest byte first, each
    table with the place of its address and size, and each entry's fields. */
module Layout {
  import opened Bytes
  import opened Buffer
  import opened Containers
  import opened Formats
  import opened Files

  // The number in the four bytes from p on, the lowest byte first.
  function NumberAt(s: seq<byte>, p: nat): nat
    requires p + 4 <= |s|
  {
    s[p] as nat + 0x100 * s[p + 1] as nat + 0x1_0000 * s[p + 2] as nat + 0x100_0000 * s[p + 3] as nat
  }

  predicate Holds(s: seq<byte>, p: nat, n: nat) { p + 4 <= |s| && NumberAt(s, p) == n }

  lemma WordBytes(n: nat)
    requires n < U32
    ensures Holds(LE32(n), 0, n)
  {
    LE32RoundTrip(n);
  }

  lemma WordHolds(s: seq<byte>, p: nat, n: nat)
    requires n < U32 && Stands(s, p, LE32(n))
    ensures Holds(s, p, n)
  {
    WordBytes(n);
    hide LE32;
    var w := s[p..p + 4];
    assert w[0] == s[p] && w[1] == s[p + 1] && w[2] == s[p + 2] && w[3] == s[p + 3];
  }

  lemma RowHolds(s: seq<byte>, ws: seq<nat>, k: nat)
    requires WordsFit(ws) && Stands(s, 0, Words(ws)) && k < |ws|
    ensures Holds(s, 4 * k, ws[k])
  {
    hide Words, Stands, Holds, LE32;
    WordStands(s, 0, ws, k);
    assert ws[k] in ws;
    WordHolds(s, 4 * k, ws[k]);
  }

  // The header has the table's address at p and its size behind it, and the table stands there.
  ghost predicate HasTable(s: seq<byte>, p: nat, es: seq<Entry>) {
    p + 8 <= |s| && TableFits(es) && NumberAt(s, p + 4) == |EncAll(es)| && Stands(s, NumberAt(s, p), EncAll(es))
  }

  lemma TableHolds(s: seq<byte>, base: nat, segs: seq<seq<Entry>>, k: nat, p: nat)
    requires AllSegs(segs) && k < |segs| && Stands(s, base, Rows(segs))
    requires Holds(s, p, SegWords(base, segs)[2 * k]) && Holds(s, p + 4, SegWords(base, segs)[2 * k + 1])
    ensures HasTable(s, p, segs[k])
  {
    hide Rows, EncAll, TableFits, Stands, SegWords;
    SegStands(s, base, segs, k);
  }

  // A module file: the version, the address and the sizes of the commands, which follow the header of 64
  // bytes, and then the six tables.
  lemma ModuleLayout(m: Module)
    requires ModuleFits(0, m)
    ensures var f := ModuleFile(0, m);
      Holds(f, 0, m.version) && Holds(f, 4, 64) && Holds(f, 8, m.mainSize) && Holds(f, 12, |m.code| - m.mainSize) &&
      Stands(f, 64, m.code) && Holds(f, 16, 64 + |m.code|) &&
      HasTable(f, 16, SizeEntries(m.globalDefs)) && HasTable(f, 24, AddressEntries(m.funcDefs)) &&
      HasTable(f, 32, NameEntries(m.nativeDefs)) && HasTable(f, 40, RefsEntries(m.globalRefs)) &&
      HasTable(f, 48, RefsEntries(m.funcRefs)) && HasTable(f, 56, RefsEntries(m.nativeRefs))
  {
    hide *;
    ModuleParts(0, m);
    var f, segs := ModuleFile(0, m), ModuleSegs(m);
    var base := 64 + |m.code|;
    ModuleCmds(0, m);
    SelfStands(f);
    FileStands(f, 0, [m.version], m.code, m.mainSize, segs);
    var ws := [m.version] + Header(0, [m.version], m.code, m.mainSize, segs);
    JoinFit([m.version], Header(0, [m.version], m.code, m.mainSize, segs));
    var tables := SegWords(base, segs);
    assert forall i | 0 <= i < 12 :: ws[4 + i] == tables[i];
    TablesTile(base, segs, 0);
    forall k: nat | k < 16 ensures Holds(f, 4 * k, ws[k]) {
      RowHolds(f, ws, k);
    }
    assert Holds(f, 4 * 0, ws[0]) && Holds(f, 4 * 1, ws[1]) && Holds(f, 4 * 2, ws[2]) && Holds(f, 4 * 3, ws[3]);
    forall k: nat | k < 6 ensures HasTable(f, 16 + 8 * k, segs[k]) {
      assert Holds(f, 4 * (4 + 2 * k), ws[4 + 2 * k]) && Holds(f, 4 * (5 + 2 * k), ws[5 + 2 * k]);
      assert ws[4 + 2 * k] == tables[2 * k] && ws[4 + (2 * k + 1)] == tables[2 * k + 1];
      TableHolds(f, base, segs, k, 16 + 8 * k);
    }
    assert HasTable(f, 16 + 8 * 0, segs[0]) && HasTable(f, 16 + 8 * 1, segs[1]) && HasTable(f, 16 + 8 * 2, segs[2]);
    assert HasTable(f, 16 + 8 * 3, segs[3]) && HasTable(f, 16 + 8 * 4, segs[4]) && HasTable(f, 16 + 8 * 5, segs[5]);
    assert Holds(f, 4 * (4 + 2 * 0), ws[4]) && ws[4 + 0] == tables[0];
  }

  lemma SelfStands(s: seq<byte>)
    ensures Stands(s, 0, s)
  {
    assert s[0..|s|] == s;
  }

  // An executable: the version, the slots of all globals, the address and the sizes of the commands, which
  // follow the header of 36 bytes, and then the two tables.
  lemma ExeLayout(e: Exe)
    requires ExeFits(0, e)
    ensures var f := ExeFile(0, e);
      Holds(f, 0, e.version) && Holds(f, 4, e.globalsSize) && Holds(f, 8, 36) && Holds(f, 12, e.mainSize) &&
      Holds(f, 16, |e.code| - e.mainSize) && Stands(f, 36, e.code) && Holds(f, 20, 36 + |e.code|) &&
      HasTable(f, 20, NameEntries(e.nativeDefs)) && HasTable(f, 28, RefsEntries(e.nativeRefs))
  {
    hide *;
    ExeParts(0, e);
    var f, segs, lead := ExeFile(0, e), ExeSegs(e), [e.version, e.globalsSize];
    var base := 36 + |e.code|;
    ExeCmds(0, e);
    SelfStands(f);
    FileStands(f, 0, lead, e.code, e.mainSize, segs);
    var ws := lead + Header(0, lead, e.code, e.mainSize, segs);
    JoinFit(lead, Header(0, lead, e.code, e.mainSize, segs));
    var tables := SegWords(base, segs);
    assert forall i | 0 <= i < 4 :: ws[5 + i] == tables[i];
    TablesTile(base, segs, 0);
    forall k: nat | k < 9 ensures Holds(f, 4 * k, ws[k]) {
      RowHolds(f, ws, k);
    }
    assert Holds(f, 4 * 0, ws[0]) && Holds(f, 4 * 1, ws[1]) && Holds(f, 4 * 2, ws[2]) && Holds(f, 4 * 3, ws[3]);
    assert Holds(f, 4 * 4, ws[4]) && Holds(f, 4 * 5, ws[5]) && Holds(f, 4 * 6, ws[6]) && Holds(f, 4 * 7, ws[7]);
    assert Holds(f, 4 * 8, ws[8]);
    assert ws[5 + 0] == tables[0] && ws[5 + 1] == tables[1] && ws[5 + 2] == tables[2] && ws[5 + 3] == tables[3];
    TableHolds(f, base, segs, 0, 20);
    TableHolds(f, base, segs, 1, 28);
  }

  // ----- entries -----

  // A text: its length, then a byte for each character.
  ghost predicate HasText(s: seq<byte>, x: string) {
    Holds(s, 0, |x|) && 4 + |x| <= |s| && forall i :: 0 <= i < |x| ==> s[4 + i] as int == x[i] as int
  }

  lemma TextLayout(x: string, more: seq<byte>)
    requires TextFits(x)
    ensures HasText(EncText(x) + more, x) && |EncText(x)| == 4 + |x|
  {
    var s := EncText(x) + more;
    StandsJoin(s, 0, LE32(|x|), TextBytes(x) + more);
    assert EncText(x) + more == LE32(|x|) + (TextBytes(x) + more);
    SelfStands(s);
    WordHolds(s, 0, |x|);
    forall i | 0 <= i < |x| ensures s[4 + i] as int == x[i] as int {
      assert s[4 + i] == TextBytes(x)[i] && x[i] in x;
    }
  }

  // A name is its text; behind its name, a variable has one byte with its slots, and a function a word with
  // its address.
  lemma DefLayout(x: string, size: byte, address: nat)
    requires TextFits(x) && address < U32
    ensures var e := Enc(NameEntry(x)); |e| == 4 + |x| && HasText(e, x)
    ensures var e := Enc(SizeEntry(IdSize(x, size))); |e| == 5 + |x| && HasText(e, x) && e[4 + |x|] == size
    ensures var e := Enc(AddressEntry(IdAddress(x, address)));
      |e| == 8 + |x| && HasText(e, x) && Holds(e, 4 + |x|, address)
  {
    TextLayout(x, []);
    TextLayout(x, [size]);
    TextLayout(x, LE32(address));
    hide EncText, LE32, HasText, Holds;
    assert EncText(x) + [] == EncText(x);
    Behind(EncText(x), address, []);
    assert LE32(address) + [] == LE32(address);
  }

  lemma Behind(a: seq<byte>, n: nat, b: seq<byte>)
    requires n < U32
    ensures Holds(a + (LE32(n) + b), |a|, n)
  {
    hide LE32;
    var s := a + (LE32(n) + b);
    assert s[|a|..|a| + 4] == LE32(n);
    WordHolds(s, |a|, n);
  }

  // And a reference has the bytes that its addresses take, followed by them.
  lemma RefsLayout(r: IdAddresses)
    requires EntryFits(RefsEntry(r))
    ensures var e, p := Enc(RefsEntry(r)), 4 + |r.id|;
      |e| == p + 4 + 4 * |r.addresses| && HasText(e, r.id) && Holds(e, p, 4 * |r.addresses|) &&
      forall k :: 0 <= k < |r.addresses| ==> Holds(e, p + 4 + 4 * k, r.addresses[k])
  {
    var n, ws := 4 * |r.addresses|, r.addresses;
    var e, p := Enc(RefsEntry(r)), 4 + |r.id|;
    TextLayout(r.id, LE32(n) + Words(ws));
    Behind(EncText(r.id), n, Words(ws));
    assert Stands(e, p + 4, Words(ws)) by {
      assert e[p + 4..] == Words(ws);
    }
    hide EncText, LE32, HasText, Holds, Words, Stands;
    forall k | 0 <= k < |ws| ensures Holds(e, p + 4 + 4 * k, ws[k]) {
      WordStands(e, p + 4, ws, k);
      assert ws[k] in ws;
      WordHolds(e, p + 4 + 4 * k, ws[k]);
    }
  }
}
