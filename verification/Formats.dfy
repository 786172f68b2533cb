/** The bytes of a module or an executable file, and the composite values Code writes and reads:
    length-prefixed texts, definitions and tables of addresses. */
module Formats {
  import opened Bytes
  import opened Buffer
  import opened Containers

  // The bytes bs stand in s from p on.
  predicate Stands(s: seq<byte>, p: nat, bs: seq<byte>) { p + |bs| <= |s| && s[p..p + |bs|] == bs }

  // A table entry: an identifier, a definition with its slot size or its address, or the addresses of
  // an identifier's placeholders.
  datatype Entry =
    | NameEntry(name: string)
    | SizeEntry(def: IdSize)
    | AddressEntry(at: IdAddress)
    | RefsEntry(refs: IdAddresses)

  datatype Kind = Names | Sizes | Addresses | Refs

  predicate Is(e: Entry, kind: Kind) {
    match kind
    case Names => e.NameEntry?
    case Sizes => e.SizeEntry?
    case Addresses => e.AddressEntry?
    case Refs => e.RefsEntry?
  }

  // Texts are bytes, and every number fits its field.
  predicate TextFits(s: string) { |s| < U32 && forall c <- s :: c as int < 256 }

  predicate WordsFit(ws: seq<nat>) { forall w <- ws :: w < U32 }

  predicate EntryFits(e: Entry) {
    match e
    case NameEntry(x) => TextFits(x)
    case SizeEntry(d) => TextFits(d.id) && d.size < 256
    case AddressEntry(d) => TextFits(d.id) && d.address < U32
    case RefsEntry(r) => TextFits(r.id) && 4 * |r.addresses| < U32 && WordsFit(r.addresses)
  }

  function Narrow(c: char): byte { c as int % 256 }

  function TextBytes(s: string): seq<byte>
    requires TextFits(s)
  {
    seq(|s|, i requires 0 <= i < |s| => Narrow(s[i]))
  }

  function TextOf(bs: seq<byte>): string { seq(|bs|, i requires 0 <= i < |bs| => bs[i] as int as char) }

  function Words(ws: seq<nat>): (r: seq<byte>)
    ensures |r| == 4 * |ws|
  {
    if ws == [] then [] else LE32(ws[0]) + Words(ws[1..])
  }

  function EncText(s: string): seq<byte>
    requires TextFits(s)
  {
    LE32(|s|) + TextBytes(s)
  }

  function Enc(e: Entry): seq<byte>
    requires EntryFits(e)
  {
    match e
    case NameEntry(x) => EncText(x)
    case SizeEntry(d) => EncText(d.id) + [d.size]
    case AddressEntry(d) => EncText(d.id) + LE32(d.address)
    case RefsEntry(r) => EncText(r.id) + (LE32(4 * |r.addresses|) + Words(r.addresses))
  }

  predicate TableFits(es: seq<Entry>) { forall e <- es :: EntryFits(e) }

  predicate AllAre(es: seq<Entry>, kind: Kind) { forall i :: 0 <= i < |es| ==> Is(es[i], kind) }

  function EncAll(es: seq<Entry>): seq<byte>
    requires TableFits(es)
  {
    if es == [] then [] else Enc(es[0]) + EncAll(es[1..])
  }

  // ----- lemmas -----

  lemma TextRoundTrip(s: string)
    requires TextFits(s)
    ensures TextOf(TextBytes(s)) == s
  {
    forall i | 0 <= i < |s| ensures TextOf(TextBytes(s))[i] == s[i] {
      assert s[i] in s;
    }
  }

  lemma StandsJoin(s: seq<byte>, p: nat, a: seq<byte>, b: seq<byte>)
    ensures Stands(s, p, a + b) <==> Stands(s, p, a) && Stands(s, p + |a|, b)
  {
    if p + |a| + |b| <= |s| {
      assert s[p..p + |a| + |b|] == s[p..p + |a|] + s[p + |a|..p + |a| + |b|];
      if Stands(s, p, a + b) {
        assert (a + b)[..|a|] == a && (a + b)[|a|..] == b;
      }
    }
  }

  // Writing one run of bytes behind another is writing both.
  lemma OverwriteTwice(s: seq<byte>, p: nat, a: seq<byte>, b: seq<byte>)
    requires p <= |s|
    ensures p + |a| <= |Overwrite(s, p, a)|
    ensures Overwrite(Overwrite(s, p, a), p + |a|, b) == Overwrite(s, p, a + b)
  {
    var t := Overwrite(s, p, a);
    assert t[..p + |a|] == s[..p] + a;
    if p + |a| + |b| <= |s| {
      assert t[p + |a| + |b|..] == s[p + |a| + |b|..];
    }
  }

  lemma OverwriteNone(s: seq<byte>, p: nat)
    requires p <= |s|
    ensures Overwrite(s, p, []) == s
  {
  }

  lemma OverwriteLength(s: seq<byte>, p: nat, a: seq<byte>)
    requires p <= |s|
    ensures |Overwrite(s, p, a)| == if |s| < p + |a| then p + |a| else |s|
  {
  }

  lemma NoWords()
    ensures Words([]) == []
  {
  }

  lemma {:induction false} WordsSnoc(ws: seq<nat>, w: nat)
    ensures Words(ws + [w]) == Words(ws) + LE32(w)
    decreases ws
  {
    if ws == [] {
      assert [] + [w] == [w] && [w][1..] == [];
    } else {
      WordsSnoc(ws[1..], w);
      assert (ws + [w])[1..] == ws[1..] + [w];
    }
  }

  lemma {:induction false} WordsJoin(ws: seq<nat>, vs: seq<nat>)
    ensures Words(ws + vs) == Words(ws) + Words(vs)
    decreases ws
  {
    hide LE32;
    if ws == [] {
      assert ws + vs == vs;
    } else {
      WordsJoin(ws[1..], vs);
      assert (ws + vs)[1..] == ws[1..] + vs;
    }
  }

  // The k-th word of a row of words.
  lemma {:induction false} WordStands(s: seq<byte>, p: nat, ws: seq<nat>, k: nat)
    requires k < |ws| && Stands(s, p, Words(ws))
    ensures Stands(s, p + 4 * k, LE32(ws[k]))
    decreases ws
  {
    StandsJoin(s, p, LE32(ws[0]), Words(ws[1..]));
    if k > 0 {
      WordStands(s, p + 4, ws[1..], k - 1);
    }
  }

  lemma {:induction false} EncSnoc(es: seq<Entry>, e: Entry)
    requires TableFits(es) && EntryFits(e)
    ensures EncAll(es + [e]) == EncAll(es) + Enc(e)
    decreases es
  {
    hide Enc, EntryFits;
    if es == [] {
      assert [] + [e] == [e] && [e][1..] == [];
    } else {
      EncSnoc(es[1..], e);
      assert (es + [e])[1..] == es[1..] + [e];
    }
  }

  lemma {:induction false} EncSplit(es: seq<Entry>, k: nat)
    requires TableFits(es) && k <= |es|
    ensures EncAll(es) == EncAll(es[..k]) + EncAll(es[k..])
    decreases k
  {
    hide Enc, EntryFits;
    if k > 0 {
      EncSplit(es[1..], k - 1);
      assert es[..k][1..] == es[1..][..k - 1] && es[1..][k - 1..] == es[k..];
    }
  }

  lemma EncNonEmpty(e: Entry)
    requires EntryFits(e)
    ensures |Enc(e)| >= 4
  {
  }

  // ----- writing -----

  // Room for count bytes at the cursor: over bytes that are there, or far from the end of the 32-bit range.
  ghost predicate Room(code: Code, count: nat)
    reads code, code.bytes
  {
    code.Valid() && (code.size + count < I31 || code.position + count <= code.size)
  }

  lemma RoomGrows(code: Code, count: nat)
    requires Room(code, count)
    ensures count < U32 && code.CanGrow(count) && !Short(code.size, code.capacity, code.position, count)
  {
    if code.size + count < I31 {
      GrowExact(code.size, code.capacity, code.position, count);
    }
  }

  // Code::Write of bytes and of a 32-bit word, where there is room.
  method Put(code: Code, bs: seq<byte>)
    requires Room(code, |bs|)
    modifies code, code.bytes
    ensures code.Valid() && (code.bytes == old(code.bytes) || fresh(code.bytes))
    ensures code.position == old(code.position) + |bs|
    ensures code.Contents() == Overwrite(old(code.Contents()), old(code.position), bs)
    ensures old(code.size) <= code.size <= old(code.size) + |bs|
  {
    RoomGrows(code, |bs|);
    var ok := code.Write(bs);
    OverwriteLength(old(code.Contents()), old(code.position), bs);
  }

  method PutText(code: Code, s: string)
    requires TextFits(s) && Room(code, |EncText(s)|)
    modifies code, code.bytes
    ensures code.Valid() && (code.bytes == old(code.bytes) || fresh(code.bytes))
    ensures code.position == old(code.position) + |EncText(s)|
    ensures code.Contents() == Overwrite(old(code.Contents()), old(code.position), EncText(s))
    ensures old(code.size) <= code.size <= old(code.size) + |EncText(s)|
  {
    ghost var c, p := code.Contents(), code.position;
    OverwriteTwice(c, p, LE32(|s|), TextBytes(s));
    Put(code, LE32(|s|));
    Put(code, TextBytes(s));
  }

  method PutWords(code: Code, ws: seq<nat>)
    requires WordsFit(ws) && Room(code, 4 * |ws|)
    modifies code, code.bytes
    ensures code.Valid() && (code.bytes == old(code.bytes) || fresh(code.bytes))
    ensures code.position == old(code.position) + 4 * |ws|
    ensures code.Contents() == Overwrite(old(code.Contents()), old(code.position), Words(ws))
    ensures old(code.size) <= code.size <= old(code.size) + 4 * |ws|
  {
    hide Overwrite, Words, LE32;
    ghost var c, p := code.Contents(), code.position;
    OverwriteNone(c, p);
    NoWords();
    assert ws[..0] == [];
    var i := 0;
    while i < |ws|
      invariant i <= |ws| && code.Valid() && (code.bytes == old(code.bytes) || fresh(code.bytes))
      invariant code.position == p + 4 * i && old(code.size) <= code.size <= old(code.size) + 4 * i
      invariant code.Contents() == Overwrite(c, p, Words(ws[..i]))
    {
      assert ws[..i + 1] == ws[..i] + [ws[i]];
      WordsSnoc(ws[..i], ws[i]);
      OverwriteTwice(c, p, Words(ws[..i]), LE32(ws[i]));
      Put(code, LE32(ws[i]));
      i := i + 1;
    }
    assert ws[..i] == ws;
  }

  method PutEntry(code: Code, e: Entry)
    requires EntryFits(e) && Room(code, |Enc(e)|)
    modifies code, code.bytes
    ensures code.Valid() && (code.bytes == old(code.bytes) || fresh(code.bytes))
    ensures code.position == old(code.position) + |Enc(e)|
    ensures code.Contents() == Overwrite(old(code.Contents()), old(code.position), Enc(e))
    ensures old(code.size) <= code.size <= old(code.size) + |Enc(e)|
  {
    hide Overwrite, EncText, LE32;
    ghost var c, p := code.Contents(), code.position;
    match e
    case NameEntry(x) => PutText(code, x);
    case SizeEntry(d) =>
      PutText(code, d.id);
      OverwriteTwice(c, p, EncText(d.id), [d.size]);
      Put(code, [d.size]);
    case AddressEntry(d) =>
      PutText(code, d.id);
      OverwriteTwice(c, p, EncText(d.id), LE32(d.address));
      Put(code, LE32(d.address));
    case RefsEntry(r) => PutRefs(code, r);
  }

  method PutRefs(code: Code, r: IdAddresses)
    requires EntryFits(RefsEntry(r)) && Room(code, |Enc(RefsEntry(r))|)
    modifies code, code.bytes
    ensures code.Valid() && (code.bytes == old(code.bytes) || fresh(code.bytes))
    ensures code.position == old(code.position) + |Enc(RefsEntry(r))|
    ensures code.Contents() == Overwrite(old(code.Contents()), old(code.position), Enc(RefsEntry(r)))
    ensures old(code.size) <= code.size <= old(code.size) + |Enc(RefsEntry(r))|
  {
    hide Overwrite, EncText, LE32, Words;
    ghost var c, p := code.Contents(), code.position;
    PutText(code, r.id);
    var size := |r.addresses| * 4;
    OverwriteTwice(c, p, EncText(r.id), LE32(size));
    Put(code, LE32(size));
    OverwriteTwice(c, p, EncText(r.id) + LE32(size), Words(r.addresses));
    PutWords(code, r.addresses);
    assert EncText(r.id) + LE32(size) + Words(r.addresses) == Enc(RefsEntry(r));
  }

  // WriteIds, WriteIdAddresses and the loops over definitions.
  method PutEntries(code: Code, es: seq<Entry>)
    requires TableFits(es) && Room(code, |EncAll(es)|)
    modifies code, code.bytes
    ensures code.Valid() && (code.bytes == old(code.bytes) || fresh(code.bytes))
    ensures code.position == old(code.position) + |EncAll(es)|
    ensures code.Contents() == Overwrite(old(code.Contents()), old(code.position), EncAll(es))
    ensures old(code.size) <= code.size <= old(code.size) + |EncAll(es)|
  {
    hide Overwrite, Enc, EntryFits;
    ghost var c, p := code.Contents(), code.position;
    OverwriteNone(c, p);
    var i := 0;
    while i < |es|
      invariant i <= |es| && code.Valid() && (code.bytes == old(code.bytes) || fresh(code.bytes))
      invariant code.position == p + |EncAll(es[..i])| &&
        old(code.size) <= code.size <= old(code.size) + |EncAll(es[..i])|
      invariant code.Contents() == Overwrite(c, p, EncAll(es[..i]))
    {
      assert es[..i + 1] == es[..i] + [es[i]];
      EncSnoc(es[..i], es[i]);
      EncSplit(es, i + 1);
      OverwriteTwice(c, p, EncAll(es[..i]), Enc(es[i]));
      PutEntry(code, es[i]);
      i := i + 1;
    }
    assert es[..i] == es;
  }

  // ----- reading: each read gives back what was written at the position, and stands behind it -----

  method TakeWord(code: Code, ghost w: nat) returns (r: nat)
    requires code.Valid() && w < U32 && Stands(code.Contents(), code.position, LE32(w))
    modifies code`position
    ensures code.Valid() && code.Contents() == old(code.Contents()) && code.position == old(code.position) + 4
    ensures r == w
  {
    LE32RoundTrip(w);
    r := code.ReadU32();
  }

  method TakeText(code: Code, ghost s: string) returns (r: string)
    requires code.Valid() && TextFits(s) && Stands(code.Contents(), code.position, EncText(s))
    modifies code`position
    ensures code.Valid() && code.Contents() == old(code.Contents()) &&
      code.position == old(code.position) + |EncText(s)|
    ensures r == s
  {
    StandsJoin(code.Contents(), code.position, LE32(|s|), TextBytes(s));
    var size := TakeWord(code, |s|);
    var bs := code.Read(size);
    TextRoundTrip(s);
    r := TextOf(bs);
  }

  // The addresses up to the end of their bytes.
  method TakeWords(code: Code, size: nat, ghost ws: seq<nat>) returns (r: seq<nat>)
    requires code.Valid() && WordsFit(ws) && size == 4 * |ws| && Stands(code.Contents(), code.position, Words(ws))
    modifies code`position
    ensures code.Valid() && code.Contents() == old(code.Contents()) && code.position == old(code.position) + size
    ensures r == ws
  {
    r := [];
    ghost var p := code.position;
    var end := code.position + size;
    while code.position != end
      invariant code.Valid() && code.Contents() == old(code.Contents())
      invariant |r| <= |ws| && r == ws[..|r|] && code.position == p + 4 * |r|
      decreases end - code.position
    {
      WordStands(code.Contents(), p, ws, |r|);
      assert ws[|r|] in ws;
      var w := TakeWord(code, ws[|r|]);
      r := r + [w];
    }
  }

  method TakeEntry(code: Code, kind: Kind, ghost e: Entry) returns (r: Entry)
    requires code.Valid() && EntryFits(e) && Is(e, kind) && Stands(code.Contents(), code.position, Enc(e))
    modifies code`position
    ensures code.Valid() && code.Contents() == old(code.Contents()) && code.position == old(code.position) + |Enc(e)|
    ensures r == e
  {
    hide EncText, LE32, Stands, Words;
    ghost var s, p := code.Contents(), code.position;
    match kind
    case Names =>
      var x := TakeText(code, e.name);
      r := NameEntry(x);
    case Sizes =>
      StandsJoin(s, p, EncText(e.def.id), [e.def.size]);
      var x := TakeText(code, e.def.id);
      OneStands(s, code.position, e.def.size);
      var bs := code.Read(1);
      r := SizeEntry(IdSize(x, bs[0]));
    case Addresses =>
      StandsJoin(s, p, EncText(e.at.id), LE32(e.at.address));
      var x := TakeText(code, e.at.id);
      var a := TakeWord(code, e.at.address);
      r := AddressEntry(IdAddress(x, a));
    case Refs =>
      var ws := e.refs.addresses;
      StandsJoin(s, p, EncText(e.refs.id), LE32(4 * |ws|) + Words(ws));
      StandsJoin(s, p + |EncText(e.refs.id)|, LE32(4 * |ws|), Words(ws));
      var x := TakeText(code, e.refs.id);
      var size := TakeWord(code, 4 * |ws|);
      var addresses := TakeWords(code, size, ws);
      r := RefsEntry(IdAddresses(x, addresses));
  }

  lemma OneStands(s: seq<byte>, p: nat, b: byte)
    requires Stands(s, p, [b])
    ensures p < |s| && s[p] == b && s[p..p + 1] == [b]
  {
    assert s[p..p + 1][0] == s[p];
  }

  // A segment: the entries from its address up to its end.
  method TakeEntries(code: Code, kind: Kind, address: nat, size: nat, ghost es: seq<Entry>) returns (r: seq<Entry>)
    requires code.Valid() && TableFits(es) && AllAre(es, kind) && size == |EncAll(es)| &&
      Stands(code.Contents(), address, EncAll(es))
    modifies code`position
    ensures code.Valid() && code.Contents() == old(code.Contents()) && code.position == address + size
    ensures r == es
  {
    hide Enc, EntryFits, Is;
    code.SetPosition(address);
    var end := code.position + size;
    r := [];
    assert es[..0] == [];
    while code.position != end
      invariant code.Valid() && code.Contents() == old(code.Contents())
      invariant |r| <= |es| && r == es[..|r|] && code.position == address + |EncAll(es[..|r|])|
      invariant code.position <= end
      decreases end - code.position
    {
      var k := |r|;
      Following(code.Contents(), address, es, k);
      var e := TakeEntry(code, kind, es[k]);
      r := r + [e];
    }
    AllTaken(es, |r|);
  }

  // The k-th entry stands behind the first k.
  lemma Following(s: seq<byte>, p: nat, es: seq<Entry>, k: nat)
    requires TableFits(es) && Stands(s, p, EncAll(es)) && k <= |es|
    requires |EncAll(es[..k])| != |EncAll(es)|
    ensures k < |es| && Stands(s, p + |EncAll(es[..k])|, Enc(es[k]))
    ensures |EncAll(es[..k + 1])| == |EncAll(es[..k])| + |Enc(es[k])| <= |EncAll(es)| && |Enc(es[k])| > 0
  {
    hide Enc, EntryFits, Stands;
    assert es[..|es|] == es;
    if k < |es| {
      EncSplit(es, k);
      EncSplit(es, k + 1);
      assert es[..k + 1] == es[..k] + [es[k]] && es[k..][1..] == es[k + 1..];
      EncSnoc(es[..k], es[k]);
      EncNonEmpty(es[k]);
      StandsJoin(s, p, EncAll(es[..k]), EncAll(es[k..]));
      StandsJoin(s, p + |EncAll(es[..k])|, Enc(es[k]), EncAll(es[k + 1..]));
    }
  }

  lemma AllTaken(es: seq<Entry>, k: nat)
    requires TableFits(es) && k <= |es| && |EncAll(es[..k])| == |EncAll(es)|
    ensures k == |es|
  {
    hide Enc, EntryFits;
    EncSplit(es, k);
    if k < |es| {
      EncNonEmpty(es[k]);
    }
  }
}
