/** The linkers themselves: loops over the modules that fill the output buffer, the definition maps and
    the reference tables. */
module Linker {
  import opened Bytes
  import opened Buffer
  import opened Containers
  import opened References
  import opened Linking
  import opened Filling
  import opened LinkTheorems

  datatype LinkError =
    | CodeSizeOverflow
    | DefsCountOverflow
    | DuplicateDef(id: string)
    | MissingDef(id: string)

  datatype Result<+T> = Ok(value: T) | Err(error: LinkError)

  // ----- reference tables -----

  lemma MergedOne(entries: seq<IdAddresses>, id: string, s: seq<nat>)
    ensures var ids := Firsts(Ids(entries) + [id]);
      var r := Merged(entries + [IdAddresses(id, s)]);
      |r| == |ids| &&
      forall i :: 0 <= i < |r| ==>
        r[i] == IdAddresses(ids[i], Addrs(entries, ids[i]) + (if ids[i] == id then s else []))
  {
    var x := entries + [IdAddresses(id, s)];
    assert Ids(x) == Ids(entries) + [id];
    assert x[..|entries|] == entries;
  }

  lemma FirstsOne(ids: seq<string>, id: string)
    ensures Firsts(ids + [id]) == if id in Firsts(ids) then Firsts(ids) else Firsts(ids) + [id]
  {
    assert (ids + [id])[..|ids|] == ids;
  }

  // An id's entry while its k-th address has yet to be added.
  lemma MergedNext(entries: seq<IdAddresses>, id: string, s: seq<nat>, a: nat, k: nat)
    requires k < |Firsts(Ids(entries) + [id])| && Firsts(Ids(entries) + [id])[k] == id
    ensures var r, q := Merged(entries + [IdAddresses(id, s)]), Merged(entries + [IdAddresses(id, s + [a])]);
      k < |r| && q == r[k := IdAddresses(id, r[k].addresses + [a])]
  {
    hide Merged, Firsts, Addrs;
    MergedOne(entries, id, s);
    MergedOne(entries, id, s + [a]);
    FirstsFacts(Ids(entries) + [id]);
    var r, q := Merged(entries + [IdAddresses(id, s)]), Merged(entries + [IdAddresses(id, s + [a])]);
    forall i | 0 <= i < |r| && i != k
      ensures q[i] == r[i]
    {
      assert r[i].id == Firsts(Ids(entries) + [id])[i] != id;
    }
    assert r[k].addresses + [a] == Addrs(entries, id) + (s + [a]);
  }

  // The first entry of an id adds it to the table, empty; a later one leaves the table as it is.
  lemma MergedFirst(entries: seq<IdAddresses>, id: string)
    ensures Merged(entries + [IdAddresses(id, [])]) ==
      if id in Firsts(Ids(entries)) then Merged(entries) else Merged(entries) + [IdAddresses(id, [])]
  {
    hide Merged, Firsts;
    MergedOne(entries, id, []);
    FirstsOne(Ids(entries), id);
    FirstsFacts(Ids(entries));
    MergedAt(entries);
    assert forall s: seq<nat> :: s + [] == s;
    if id !in Firsts(Ids(entries)) {
      AddrsMiss(entries, id);
      var r, ids := Merged(entries + [IdAddresses(id, [])]), Firsts(Ids(entries));
      assert forall i :: 0 <= i < |ids| ==> ids[i] != id && r[i] == Merged(entries)[i];
      assert r[|ids|] == IdAddresses(id, []);
    }
  }

  lemma MergedAt(entries: seq<IdAddresses>)
    ensures var ids, r := Firsts(Ids(entries)), Merged(entries);
      |r| == |ids| && forall i :: 0 <= i < |r| ==> r[i] == IdAddresses(ids[i], Addrs(entries, ids[i]))
  {
  }

  // The references collected so far, one entry for each id, and where each id's entry is.
  class RefTable {
    var indexes: map<string, nat>
    var refs: seq<IdAddresses>
    ghost var entries: seq<IdAddresses>

    ghost predicate Valid()
      reads this
    {
      refs == Merged(entries) && Indexed(Firsts(Ids(entries)))
    }

    ghost predicate Indexed(ids: seq<string>)
      reads this
    {
      (forall i :: 0 <= i < |ids| ==> ids[i] in indexes && indexes[ids[i]] == i) &&
      (forall x :: x in indexes ==> x in ids)
    }

    constructor ()
      ensures Valid() && entries == []
    {
      indexes, refs, entries := map[], [], [];
    }

    method IndexOf(id: string) returns (k: nat)
      requires Valid()
      modifies this
      ensures entries == old(entries) + [IdAddresses(id, [])] && Valid()
      ensures k < |Firsts(Ids(old(entries)) + [id])| && Firsts(Ids(old(entries)) + [id])[k] == id
    {
      MergedFirst(entries, id);
      FirstsOne(Ids(entries), id);
      MergedAt(entries);
      assert Ids(entries + [IdAddresses(id, [])]) == Ids(entries) + [id];
      if id in indexes {
        k := indexes[id];
      } else {
        k := |refs|;
        indexes := indexes[id := k];
        refs := refs + [IdAddresses(id, [])];
      }
      entries := entries + [IdAddresses(id, [])];
    }

    method CollectOne(item: IdAddresses, at: Spot)
      requires Valid()
      modifies this
      ensures Valid() && entries == old(entries) + [IdAddresses(item.id, PlaceAll(item.addresses, at))]
    {
      ghost var before := entries;
      var k := IndexOf(item.id);
      assert PlaceAll(item.addresses[..0], at) == [];
      var j := 0;
      while j < |item.addresses|
        invariant 0 <= j <= |item.addresses|
        invariant entries == before + [IdAddresses(item.id, PlaceAll(item.addresses[..j], at))]
        invariant Valid()
        invariant k < |Firsts(Ids(before) + [item.id])| && Firsts(Ids(before) + [item.id])[k] == item.id
      {
        AddAddress(k, Place(item.addresses[j], at), before, item.id, PlaceAll(item.addresses[..j], at));
        j := j + 1;
        PlaceNext(item.addresses, j, at);
      }
      assert item.addresses[..j] == item.addresses;
    }

    method AddAddress(k: nat, a: nat, ghost before: seq<IdAddresses>, id: string, ghost s: seq<nat>)
      requires Valid() && entries == before + [IdAddresses(id, s)]
      requires k < |Firsts(Ids(before) + [id])| && Firsts(Ids(before) + [id])[k] == id
      modifies this
      ensures Valid() && entries == before + [IdAddresses(id, s + [a])]
    {
      MergedNext(before, id, s, a, k);
      MergedOne(before, id, s);
      hide Merged, Firsts;
      refs := refs[k := IdAddresses(refs[k].id, refs[k].addresses + [a])];
      entries := before + [IdAddresses(id, s + [a])];
      assert Ids(entries) == Ids(before) + [id] == Ids(before + [IdAddresses(id, s)]);
    }

    // CollectRefs.
    method Collect(input: seq<IdAddresses>, at: Spot)
      requires Valid()
      modifies this
      ensures Valid() && entries == old(entries) + Moved(input, at)
    {
      var i := 0;
      while i < |input|
        invariant 0 <= i <= |input|
        invariant Valid() && entries == old(entries) + Moved(input[..i], at)
      {
        CollectOne(input[i], at);
        i := i + 1;
        var last, front := input[i - 1], input[..i - 1];
        assert Moved(input[..i], at) == Moved(front, at) + [IdAddresses(last.id, PlaceAll(last.addresses, at))];
      }
      assert input[..i] == input;
    }

    method Sort() returns (table: seq<IdAddresses>)
      requires Valid()
      ensures table == Table(entries)
    {
      table := refs;
      var i := 0;
      while i < |table|
        invariant 0 <= i <= |table| == |refs|
        invariant table == SortEach(refs[..i]) + refs[i..]
      {
        table := table[i := IdAddresses(table[i].id, Sorted(table[i].addresses))];
        i := i + 1;
      }
      assert refs[..i] == refs;
    }
  }

  lemma PlaceNext(s: seq<nat>, j: nat, at: Spot)
    requires 0 < j <= |s|
    ensures PlaceAll(s[..j], at) == PlaceAll(s[..j - 1], at) + [Place(s[j - 1], at)]
  {
  }

  // ----- definitions -----

  lemma DefsOne(ds: seq<IdSize>, d: IdSize)
    ensures VarIds(ds + [d]) == VarIds(ds) + [d.id]
    ensures SlotMap(ds + [d]) == SlotMap(ds)[d.id := SlotSum(ds) % U32]
    ensures SlotSum(ds + [d]) == SlotSum(ds) + d.size
    ensures SlotsCount(ds + [d]) <==> SlotsCount(ds) && SlotSum(ds) % U32 != U32 - 1
  {
    var x := ds + [d];
    assert x[..|ds|] == ds;
    assert forall k :: 0 <= k <= |ds| ==> x[..k] == ds[..k];
  }

  lemma DistinctOne(ids: seq<string>, id: string)
    ensures Distinct(ids + [id]) <==> Distinct(ids) && id !in ids
  {
    var x := ids + [id];
    if Distinct(x) {
      assert forall i :: 0 <= i < |ids| ==> x[i] == ids[i] != x[|ids|];
    }
  }

  // Not distinct, and how: some id stands at two places.
  predicate Twice(ids: seq<string>, id: string) { exists i, j :: 0 <= i < j < |ids| && ids[i] == ids[j] == id }

  // The slot map so far, with its counter.
  datatype Slots = Slots(indexes: map<string, nat>, next: nat)

  ghost predicate SlotsOf(s: Slots, ds: seq<IdSize>) {
    s.indexes == SlotMap(ds) && s.next == SlotSum(ds) % U32 && Distinct(VarIds(ds)) && SlotsCount(ds)
  }

  lemma TwiceThere(ids: seq<string>, id: string)
    requires id in ids
    ensures Twice(ids + [id], id)
  {
    var i :| 0 <= i < |ids| && ids[i] == id;
    var x := ids + [id];
    assert x[i] == x[|ids|] == id;
  }

  lemma TwiceMore(ids: seq<string>, more: seq<string>, id: string)
    requires Twice(ids, id)
    ensures Twice(ids + more, id) && !Distinct(ids + more)
  {
    var i, j :| 0 <= i < j < |ids| && ids[i] == ids[j] == id;
    var x := ids + more;
    assert x[i] == x[j] == id;
  }

  // The definition d after those of `before`.
  method CollectSlot(d: IdSize, s: Slots, ghost before: seq<IdSize>) returns (r: Result<Slots>)
    requires SlotsOf(s, before)
    ensures r.Ok? ==> SlotsOf(r.value, before + [d])
    ensures r.Err? ==> SlotError(r.error, before + [d])
  {
    hide SlotSum, SlotsCount, SlotMap, Distinct;
    DefsOne(before, d);
    DistinctOne(VarIds(before), d.id);
    SlotMapKeys(before, d.id);
    if (s.next + 1) % U32 < s.next {
      return Err(DefsCountOverflow);
    }
    if d.id in s.indexes {
      TwiceThere(VarIds(before), d.id);
      return Err(DuplicateDef(d.id));
    }
    r := Ok(Slots(s.indexes[d.id := s.next], (s.next + d.size) % U32));
  }

  ghost predicate SlotError(e: LinkError, ds: seq<IdSize>) {
    match e
    case DuplicateDef(id) => Twice(VarIds(ds), id)
    case DefsCountOverflow => !SlotsCount(ds)
    case _ => false
  }

  lemma SlotErrorLater(e: LinkError, ds: seq<IdSize>, more: seq<IdSize>)
    requires SlotError(e, ds)
    ensures SlotError(e, ds + more)
    ensures !(Distinct(VarIds(ds + more)) && SlotsCount(ds + more))
  {
    assert VarIds(ds + more) == VarIds(ds) + VarIds(more);
    match e
    case DuplicateDef(id) => TwiceMore(VarIds(ds), VarIds(more), id);
    case DefsCountOverflow => NoCount(ds, more);
    case _ =>
  }

  // CollectGlobalVarDefs of the executable linker; `done` are the definitions of earlier modules.
  method CollectSlots(defs: seq<IdSize>, s: Slots, ghost done: seq<IdSize>) returns (r: Result<Slots>)
    requires SlotsOf(s, done)
    ensures r.Ok? ==> SlotsOf(r.value, done + defs)
    ensures r.Err? ==> SlotError(r.error, done + defs)
    ensures r.Err? ==> !(Distinct(VarIds(done + defs)) && SlotsCount(done + defs))
  {
    hide SlotsOf, SlotError, Distinct, SlotsCount;
    r := Ok(s);
    var i := 0;
    assert done + defs[..0] == done;
    while i < |defs|
      invariant 0 <= i <= |defs|
      invariant r.Ok? && SlotsOf(r.value, done + defs[..i])
    {
      r := CollectSlot(defs[i], r.value, done + defs[..i]);
      assert done + defs[..i] + [defs[i]] == done + defs[..i + 1];
      i := i + 1;
      if r.Err? {
        SlotErrorLater(r.error, done + defs[..i], defs[i..]);
        assert done + defs[..i] + defs[i..] == done + defs;
        return;
      }
    }
    assert done + defs[..i] == done + defs;
  }

  lemma NoCount(ds: seq<IdSize>, more: seq<IdSize>)
    requires !SlotsCount(ds)
    ensures !SlotsCount(ds + more)
  {
    var k :| 0 <= k < |ds| && SlotSum(ds[..k]) % U32 == U32 - 1;
    assert (ds + more)[..k] == ds[..k];
  }

  // ----- the output buffer -----

  // A module's segments lie, apart, within n bytes.
  predicate Fits(m: Module, at: Spot, n: nat) {
    at.mainSize == m.mainSize <= |m.code| && at.mainAt + m.mainSize <= at.funcAt &&
    at.funcAt + (|m.code| - m.mainSize) <= n < U32
  }

  // What stands where a module is placed.
  function View(c: seq<byte>, m: Module, at: Spot): (v: seq<byte>)
    requires Fits(m, at, |c|)
    ensures |v| == |m.code|
  {
    c[at.mainAt..at.mainAt + m.mainSize] + c[at.funcAt..at.funcAt + (|m.code| - m.mainSize)]
  }

  predicate Inside(m: Module, at: Spot, p: nat)
    requires m.mainSize <= |m.code|
  {
    at.mainAt <= p < at.mainAt + m.mainSize || at.funcAt <= p < at.funcAt + (|m.code| - m.mainSize)
  }

  // Nothing has changed but the module's own segments.
  predicate OnlyInside(c: seq<byte>, d: seq<byte>, m: Module, at: Spot)
    requires m.mainSize <= |m.code|
  {
    |d| == |c| && forall p: nat :: p < |c| && !Inside(m, at, p) ==> d[p] == c[p]
  }

  lemma PutView(c: seq<byte>, m: Module, at: Spot, a: nat, n: nat)
    requires Fits(m, at, |c|) && InSegment(m, a)
    ensures var p := Place(a, at);
      p + 4 <= |c| && View(Put(c, p, n), m, at) == Put(View(c, m, at), a, n) && OnlyInside(c, Put(c, p, n), m, at)
  {
    hide LE32, Put, Place;
    var p := Place(a, at);
    PlaceFits(m, at, |c|, a);
    PutAt(c, p, n);
    PutAt(View(c, m, at), a, n);
    var x, y := View(Put(c, p, n), m, at), Put(View(c, m, at), a, n);
    forall i | 0 <= i < |x|
      ensures x[i] == y[i]
    {
      if i < m.mainSize {
        assert x[i] == Put(c, p, n)[at.mainAt + i];
      } else {
        assert x[i] == Put(c, p, n)[at.funcAt + (i - m.mainSize)];
      }
    }
  }

  lemma PlaceFits(m: Module, at: Spot, n: nat, a: nat)
    requires Fits(m, at, n) && InSegment(m, a)
    ensures Place(a, at) == if a < m.mainSize then at.mainAt + a else at.funcAt + (a - m.mainSize)
  {
  }

  lemma PutAt(c: seq<byte>, p: nat, n: nat)
    requires p + 4 <= |c|
    ensures forall i :: 0 <= i < |c| ==> Put(c, p, n)[i] == if p <= i < p + 4 then LE32(n)[i - p] else c[i]
  {
  }

  lemma OverwritePut(c: seq<byte>, p: nat, n: nat)
    requires p + 4 <= |c|
    ensures Overwrite(c, p, LE32(n)) == Put(c, p, n)
  {
  }

  method PutWord(out: Code, p: nat, n: nat)
    requires out.Valid() && p + 4 <= out.size && n < U32
    modifies out, out.bytes
    ensures out.Valid() && out.bytes == old(out.bytes)
    ensures out.Contents() == Put(old(out.Contents()), p, n)
  {
    out.SetPosition(p);
    var ok := out.WriteU32(n);
    OverwritePut(old(out.Contents()), p, n);
  }

  // WriteModuleCmds.
  method WriteModule(m: Module, at: Spot, out: Code)
    requires out.Valid() && Fits(m, at, out.size)
    modifies out, out.bytes
    ensures out.Valid() && out.bytes == old(out.bytes) && out.size == old(out.size)
    ensures View(out.Contents(), m, at) == m.code
    ensures OnlyInside(old(out.Contents()), out.Contents(), m, at)
  {
    ghost var c := out.Contents();
    out.SetPosition(at.mainAt);
    var ok := out.Write(m.code[..m.mainSize]);
    ghost var d := out.Contents();
    out.SetPosition(at.funcAt);
    ok := out.Write(m.code[m.mainSize..]);
    Written(c, d, out.Contents(), m, at);
  }

  lemma Written(c: seq<byte>, d: seq<byte>, e: seq<byte>, m: Module, at: Spot)
    requires Fits(m, at, |c|)
    requires d == Overwrite(c, at.mainAt, m.code[..m.mainSize])
    requires at.funcAt <= |d| && e == Overwrite(d, at.funcAt, m.code[m.mainSize..])
    ensures |e| == |c| && View(e, m, at) == m.code && OnlyInside(c, e, m, at)
  {
    var main, func := m.code[..m.mainSize], m.code[m.mainSize..];
    OverwriteAt(c, at.mainAt, main);
    OverwriteAt(d, at.funcAt, func);
    hide Overwrite;
    assert m.code == main + func;
    assert e[at.mainAt..at.mainAt + m.mainSize] == main;
    assert e[at.funcAt..at.funcAt + |func|] == func;
  }

  lemma OverwriteAt(c: seq<byte>, p: nat, bs: seq<byte>)
    requires p + |bs| <= |c|
    ensures |Overwrite(c, p, bs)| == |c|
    ensures forall i :: 0 <= i < |c| ==> Overwrite(c, p, bs)[i] == if p <= i < p + |bs| then bs[i - p] else c[i]
  {
  }

  lemma OnlyTwice(c: seq<byte>, d: seq<byte>, e: seq<byte>, m: Module, at: Spot)
    requires m.mainSize <= |m.code| && OnlyInside(c, d, m, at) && OnlyInside(d, e, m, at)
    ensures OnlyInside(c, e, m, at)
  {
  }

  method FillOne(addresses: seq<nat>, n: nat, m: Module, at: Spot, out: Code)
    requires out.Valid() && Fits(m, at, out.size) && n < U32
    requires forall i :: 0 <= i < |addresses| ==> InSegment(m, addresses[i])
    modifies out, out.bytes
    ensures out.Valid() && out.bytes == old(out.bytes) && out.size == old(out.size)
    ensures View(out.Contents(), m, at) == PutAll(old(View(out.Contents(), m, at)), addresses, n)
    ensures OnlyInside(old(out.Contents()), out.Contents(), m, at)
  {
    ghost var c := out.Contents();
    var j := 0;
    while j < |addresses|
      invariant 0 <= j <= |addresses|
      invariant out.Valid() && out.bytes == old(out.bytes) && out.size == |c|
      invariant View(out.Contents(), m, at) == PutAll(View(c, m, at), addresses[..j], n)
      invariant OnlyInside(c, out.Contents(), m, at)
    {
      hide View, OnlyInside, Place, Put, InSegment, Inside;
      ghost var d := out.Contents();
      PutView(d, m, at, addresses[j], n);
      PutWord(out, Place(addresses[j], at), n);
      OnlyTwice(c, d, out.Contents(), m, at);
      j := j + 1;
      assert addresses[..j][..j - 1] == addresses[..j - 1];
    }
    assert addresses[..j] == addresses;
  }

  lemma NumbersSmall(refs: seq<IdAddresses>)
    ensures forall i, j :: 0 <= i < |refs| && 0 <= j < |refs[i].addresses| ==> IsRef(refs, refs[i].addresses[j])
  {
    forall i, j | 0 <= i < |refs| && 0 <= j < |refs[i].addresses|
      ensures IsRef(refs, refs[i].addresses[j])
    {
      assert refs[i].addresses[j] in refs[i].addresses;
    }
  }

  // FillAddressPlaceholders: the first id without a number, if there is one.
  method FillPlaceholders(refs: seq<IdAddresses>, numbers: map<string, nat>, m: Module, at: Spot, out: Code)
      returns (missing: Result<bool>)
    requires out.Valid() && Fits(m, at, out.size)
    requires forall a: nat :: IsRef(refs, a) ==> InSegment(m, a)
    requires forall x :: x in numbers ==> numbers[x] < U32
    modifies out, out.bytes
    ensures out.Valid() && out.bytes == old(out.bytes) && out.size == old(out.size)
    ensures missing.Ok? ==> forall x :: x in Ids(refs) ==> x in numbers
    ensures missing.Ok? ==> View(out.Contents(), m, at) == Fill(old(View(out.Contents(), m, at)), refs, numbers)
    ensures missing.Ok? ==> OnlyInside(old(out.Contents()), out.Contents(), m, at)
    ensures missing.Err? ==> missing.error.MissingDef? && missing.error.id in Ids(refs) && missing.error.id !in numbers
  {
    hide View, OnlyInside, InSegment, Inside, PutAll;
    ghost var c := out.Contents();
    OnlySelf(c, m, at);
    NumbersSmall(refs);
    var i := 0;
    while i < |refs|
      invariant 0 <= i <= |refs|
      invariant out.Valid() && out.bytes == old(out.bytes) && out.size == |c|
      invariant forall k :: 0 <= k < i ==> refs[k].id in numbers
      invariant View(out.Contents(), m, at) == Fill(View(c, m, at), refs[..i], numbers)
      invariant OnlyInside(c, out.Contents(), m, at)
    {
      if refs[i].id !in numbers {
        assert Ids(refs)[i] == refs[i].id;
        return Err(MissingDef(refs[i].id));
      }
      ghost var d := out.Contents();
      FillOne(refs[i].addresses, numbers[refs[i].id], m, at, out);
      OnlyTwice(c, d, out.Contents(), m, at);
      i := i + 1;
      assert refs[..i][..i - 1] == refs[..i - 1];
    }
    assert refs[..i] == refs;
    missing := Ok(true);
  }

  lemma OnlySelf(c: seq<byte>, m: Module, at: Spot)
    requires m.mainSize <= |m.code|
    ensures OnlyInside(c, c, m, at)
  {
  }

  // ----- sets of names -----

  // An unordered set of ids that remembers, for the proof, the order of insertion.
  class Names {
    var ids: set<string>
    ghost var order: seq<string>

    ghost predicate Valid()
      reads this
    {
      Distinct(order) && forall x :: x in ids <==> x in order
    }

    constructor ()
      ensures Valid() && order == []
    {
      ids, order := {}, [];
    }

    // The first of the new ids that is there already.
    method InsertAll(more: seq<string>) returns (duplicate: Result<bool>)
      requires Valid()
      modifies this
      ensures duplicate.Ok? ==> Valid() && order == old(order) + more
      ensures duplicate.Err? ==> duplicate.error.DuplicateDef? && Twice(old(order) + more, duplicate.error.id)
    {
      var i := 0;
      while i < |more|
        invariant 0 <= i <= |more|
        invariant Valid() && order == old(order) + more[..i]
      {
        if more[i] in ids {
          TwiceThere(order, more[i]);
          TwiceMore(order + [more[i]], more[i + 1..], more[i]);
          assert old(order) + more == order + [more[i]] + more[i + 1..];
          return Err(DuplicateDef(more[i]));
        }
        DistinctOne(order, more[i]);
        ids := ids + {more[i]};
        order := order + [more[i]];
        i := i + 1;
      }
      assert more[..i] == more;
      duplicate := Ok(true);
    }
  }

  // ----- parts of both linkers -----

  lemma FlatNext<A, B>(f: A -> seq<B>, xs: seq<A>, i: nat)
    requires i < |xs|
    ensures Flat(f, xs[..i + 1]) == Flat(f, xs[..i]) + f(xs[i])
  {
    assert xs[..i + 1][..i] == xs[..i];
  }

  lemma FlatRest<A, B>(f: A -> seq<B>, xs: seq<A>, i: nat)
    requires i <= |xs|
    ensures Flat(f, xs) == Flat(f, xs[..i]) + Flat(f, xs[i..])
  {
    assert xs == xs[..i] + xs[i..];
    FlatAppend(f, xs[..i], xs[i..]);
  }

  // Both segments of the modules so far.
  lemma SizesNext(ms: seq<Module>, i: nat)
    requires AllWellFormed(ms) && i < |ms|
    ensures |Mains(ms[..i + 1])| == |Mains(ms[..i])| + ms[i].mainSize
    ensures |Funcs(ms[..i + 1])| == |Funcs(ms[..i])| + (|ms[i].code| - ms[i].mainSize)
    ensures ms[i].mainSize <= |ms[i].code| < U32
    ensures |Mains(ms[..i + 1])| <= |Mains(ms)| && |Funcs(ms[..i + 1])| <= |Funcs(ms)|
  {
    assert WellFormed(ms[i]);
    FlatNext(MainOf, ms, i);
    FlatNext(FuncOf, ms, i);
    FlatRest(MainOf, ms, i + 1);
    FlatRest(FuncOf, ms, i + 1);
  }

  // CheckAddressOverflow.
  method AddressOverflows(address: nat, addition: nat) returns (r: bool)
    requires address < U32 && addition < U32
    ensures r <==> address + addition >= U32
  {
    r := (address + addition) % U32 < address;
  }

  // The sizes with one more module's: of the main segments, and of everything.
  method AddSizes(main: nat, size: nat, m: Module) returns (r: Result<(nat, nat)>)
    requires main <= size < U32 && m.mainSize <= |m.code| < U32
    ensures r == if size + |m.code| < U32 then Ok((main + m.mainSize, size + |m.code|)) else Err(CodeSizeOverflow)
  {
    var over := AddressOverflows(main, m.mainSize);
    if over {
      return Err(CodeSizeOverflow);
    }
    over := AddressOverflows(size, |m.code|);
    if over {
      return Err(CodeSizeOverflow);
    }
    r := Ok(((main + m.mainSize) % U32, (size + |m.code|) % U32));
  }

  // The output so far: the modules before the i-th are in place in c, as they are in the final code t.
  ghost predicate Agrees(c: seq<byte>, t: seq<byte>, mainAt: nat, start: nat, funcAt: nat) {
    |c| == |t| && mainAt <= start <= funcAt <= |t| && c[..mainAt] == t[..mainAt] && c[start..funcAt] == t[start..funcAt]
  }

  lemma WholeSize(ms: seq<Module>)
    ensures |Whole(ms)| == |Mains(ms)| + |Funcs(ms)| && Mains([]) == [] && Funcs([]) == []
  {
  }

  lemma AgreesStart(c: seq<byte>, t: seq<byte>, start: nat)
    requires |c| == |t| && start <= |t|
    ensures Agrees(c, t, 0, start, start)
  {
  }

  // All modules in place.
  lemma AgreesAll(c: seq<byte>, t: seq<byte>, start: nat)
    requires Agrees(c, t, start, start, |t|)
    ensures c == t
  {
    assert c == c[..start] + c[start..] && t == t[..start] + t[start..];
  }

  // One more module in place.
  lemma AgreesNext(c: seq<byte>, d: seq<byte>, t: seq<byte>, m: Module, at: Spot, start: nat)
    requires Agrees(c, t, at.mainAt, start, at.funcAt) && Fits(m, at, |c|) && OnlyInside(c, d, m, at)
    requires at.mainAt + m.mainSize <= start
    requires View(d, m, at) == View(t, m, at)
    ensures Agrees(d, t, at.mainAt + m.mainSize, start, at.funcAt + (|m.code| - m.mainSize))
  {
    var n := |m.code| - m.mainSize;
    assert View(d, m, at)[..m.mainSize] == d[at.mainAt..at.mainAt + m.mainSize];
    assert View(t, m, at)[..m.mainSize] == t[at.mainAt..at.mainAt + m.mainSize];
    assert View(d, m, at)[m.mainSize..] == d[at.funcAt..at.funcAt + n];
    assert View(t, m, at)[m.mainSize..] == t[at.funcAt..at.funcAt + n];
    assert d[..at.mainAt] == c[..at.mainAt];
    assert d[start..at.funcAt] == c[start..at.funcAt];
    assert d[..at.mainAt + m.mainSize] == d[..at.mainAt] + d[at.mainAt..at.mainAt + m.mainSize];
    assert t[..at.mainAt + m.mainSize] == t[..at.mainAt] + t[at.mainAt..at.mainAt + m.mainSize];
    assert d[start..at.funcAt + n] == d[start..at.funcAt] + d[at.funcAt..at.funcAt + n];
    assert t[start..at.funcAt + n] == t[start..at.funcAt] + t[at.funcAt..at.funcAt + n];
  }

  // Joined modules, seen where the i-th one is placed.
  lemma ViewWhole(ms: seq<Module>, fs: seq<Module>, i: nat)
    requires AllWellFormed(fs) && |Whole(fs)| < U32 && i < |ms| == |fs|
    requires fs[i].mainSize == ms[i].mainSize && |fs[i].code| == |ms[i].code| && SpotOf(fs, i) == SpotOf(ms, i)
    ensures Fits(ms[i], SpotOf(ms, i), |Whole(fs)|)
    ensures View(Whole(fs), ms[i], SpotOf(ms, i)) == fs[i].code
  {
    hide LayOut, Flat, View, Mains, Funcs;
    var p, q := |Mains(fs[..i])|, |Funcs(fs[..i])|;
    SpotFacts(fs, i);
    SegmentsOf(fs, i);
    ViewParts(Mains(fs), Funcs(fs), fs[i], p, q);
    ViewSame(Whole(fs), ms[i], fs[i], SpotOf(fs, i));
  }

  lemma SegmentsOf(fs: seq<Module>, i: nat)
    requires AllWellFormed(fs) && i < |fs|
    ensures var m, p, q := fs[i], |Mains(fs[..i])|, |Funcs(fs[..i])|;
      var n := |m.code| - m.mainSize;
      0 <= n && p + m.mainSize <= |Mains(fs)| && q + n <= |Funcs(fs)| &&
      Mains(fs)[p..p + m.mainSize] == m.code[..m.mainSize] && Funcs(fs)[q..q + n] == m.code[m.mainSize..]
  {
    assert WellFormed(fs[i]);
    FlatSlice(MainOf, fs, i);
    FlatSlice(FuncOf, fs, i);
  }

  // A view depends on a module's sizes only.
  lemma ViewSame(c: seq<byte>, m: Module, f: Module, at: Spot)
    requires m.mainSize == f.mainSize && |m.code| == |f.code| && Fits(f, at, |c|)
    ensures Fits(m, at, |c|) && View(c, m, at) == View(c, f, at)
  {
  }

  lemma ViewParts(main: seq<byte>, func: seq<byte>, m: Module, p: nat, q: nat)
    requires m.mainSize <= |m.code| && p + m.mainSize <= |main| && q + (|m.code| - m.mainSize) <= |func|
    requires |main + func| < U32
    requires main[p..p + m.mainSize] == m.code[..m.mainSize]
    requires func[q..q + (|m.code| - m.mainSize)] == m.code[m.mainSize..]
    ensures View(main + func, m, Spot(m.mainSize, p, |main| + q)) == m.code
  {
    var w, n := main + func, |m.code| - m.mainSize;
    assert w[p..p + m.mainSize] == main[p..p + m.mainSize];
    assert w[|main| + q..|main| + q + n] == func[q..q + n];
    assert m.code == m.code[..m.mainSize] + m.code[m.mainSize..];
  }

  // ----- definitions so far, and duplicates among them -----

  lemma VarIdsAppend(a: seq<IdSize>, b: seq<IdSize>)
    ensures VarIds(a + b) == VarIds(a) + VarIds(b)
  {
  }

  lemma DefIdsAppend(a: seq<IdAddress>, b: seq<IdAddress>)
    ensures DefIds(a + b) == DefIds(a) + DefIds(b)
  {
  }

  lemma VarsNext(ms: seq<Module>, i: nat)
    requires i < |ms|
    ensures GlobalDefs(ms[..i + 1]) == GlobalDefs(ms[..i]) + ms[i].globalDefs
    ensures VarIds(GlobalDefs(ms[..i + 1])) == VarIds(GlobalDefs(ms[..i])) + VarIds(ms[i].globalDefs)
    ensures NativeDefs(ms[..i + 1]) == NativeDefs(ms[..i]) + ms[i].nativeDefs
  {
    FlatNext(GlobalDefsOf, ms, i);
    FlatNext(NativeDefsOf, ms, i);
    VarIdsAppend(GlobalDefs(ms[..i]), ms[i].globalDefs);
  }

  lemma VarTwice(ms: seq<Module>, i: nat, id: string)
    requires i < |ms| && Twice(VarIds(GlobalDefs(ms[..i])) + VarIds(ms[i].globalDefs), id)
    ensures Twice(VarIds(GlobalDefs(ms)), id) && !Distinct(VarIds(GlobalDefs(ms)))
  {
    VarsNext(ms, i);
    FlatRest(GlobalDefsOf, ms, i + 1);
    VarIdsAppend(GlobalDefs(ms[..i + 1]), GlobalDefs(ms[i + 1..]));
    TwiceMore(VarIds(GlobalDefs(ms[..i + 1])), VarIds(GlobalDefs(ms[i + 1..])), id);
  }

  lemma NativeTwice(ms: seq<Module>, i: nat, id: string)
    requires i < |ms| && Twice(NativeDefs(ms[..i]) + ms[i].nativeDefs, id)
    ensures Twice(NativeDefs(ms), id) && !Distinct(NativeDefs(ms))
  {
    VarsNext(ms, i);
    FlatRest(NativeDefsOf, ms, i + 1);
    TwiceMore(NativeDefs(ms[..i + 1]), NativeDefs(ms[i + 1..]), id);
  }

  // The function definitions of the modules before the i-th.
  function DefsTo(ms: seq<Module>, i: nat): seq<IdAddress>
    requires i <= |ms|
  {
    Flat(FuncDefsOf, ExeSpots(ms)[..i])
  }

  lemma DefsNext(ms: seq<Module>, i: nat)
    requires i < |ms|
    ensures DefsTo(ms, i + 1) == DefsTo(ms, i) + MovedDefs(ms[i].funcDefs, SpotOf(ms, i))
    ensures DefIds(DefsTo(ms, i + 1)) == DefIds(DefsTo(ms, i)) + DefIds(ms[i].funcDefs)
  {
    FlatNext(FuncDefsOf, ExeSpots(ms), i);
    assert ExeSpots(ms)[i].m == ms[i];
    DefIdsAppend(DefsTo(ms, i), MovedDefs(ms[i].funcDefs, SpotOf(ms, i)));
    assert DefIds(MovedDefs(ms[i].funcDefs, SpotOf(ms, i))) == DefIds(ms[i].funcDefs);
  }

  lemma DefsAll(ms: seq<Module>)
    ensures DefsTo(ms, |ms|) == FuncDefs(ms) && DefsTo(ms, 0) == []
  {
    assert ExeSpots(ms)[..|ms|] == ExeSpots(ms);
  }

  lemma DefTwice(ms: seq<Module>, i: nat, id: string)
    requires i < |ms| && Twice(DefIds(DefsTo(ms, i)) + DefIds(ms[i].funcDefs), id)
    ensures Twice(DefIds(FuncDefs(ms)), id) && !Distinct(DefIds(FuncDefs(ms)))
  {
    DefsNext(ms, i);
    FlatRest(FuncDefsOf, ExeSpots(ms), i + 1);
    var rest := Flat(FuncDefsOf, ExeSpots(ms)[i + 1..]);
    DefIdsAppend(DefsTo(ms, i + 1), rest);
    TwiceMore(DefIds(DefsTo(ms, i + 1)), DefIds(rest), id);
  }

  // The references of the modules before the i-th.
  function RefsTo(f: Placed -> seq<IdAddresses>, ms: seq<Module>, i: nat): seq<IdAddresses>
    requires i <= |ms|
  {
    Flat(f, ExeSpots(ms)[..i])
  }

  lemma RefsNext(f: Placed -> seq<IdAddresses>, ms: seq<Module>, i: nat)
    requires i < |ms|
    ensures RefsTo(f, ms, i + 1) == RefsTo(f, ms, i) + f(Placed(ms[i], SpotOf(ms, i)))
  {
    FlatNext(f, ExeSpots(ms), i);
    assert ExeSpots(ms)[i].m == ms[i];
  }

  lemma RefsAll(f: Placed -> seq<IdAddresses>, ms: seq<Module>)
    ensures RefsTo(f, ms, |ms|) == Flat(f, ExeSpots(ms)) && RefsTo(f, ms, 0) == []
  {
    assert ExeSpots(ms)[..|ms|] == ExeSpots(ms);
  }
}
