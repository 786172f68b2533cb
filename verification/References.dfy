/** Tables of placeholder addresses: merging entries of the same name, sorting, and moving addresses to
    where a module's segments are placed. */
module References {
  import opened Bytes
  import opened Containers

  // Where a module's two segments start in the output.
  datatype Spot = Spot(mainSize: nat, mainAt: nat, funcAt: nat)

  // GetAbsoluteAddress, in 32 bits.
  function Place(a: nat, at: Spot): nat {
    (if a < at.mainSize then a + at.mainAt else a + at.funcAt - at.mainSize) % U32
  }

  function PlaceAll(s: seq<nat>, at: Spot): seq<nat> { seq(|s|, i requires 0 <= i < |s| => Place(s[i], at)) }

  function Moved(refs: seq<IdAddresses>, at: Spot): (r: seq<IdAddresses>)
    ensures |r| == |refs|
  {
    seq(|refs|, i requires 0 <= i < |refs| => IdAddresses(refs[i].id, PlaceAll(refs[i].addresses, at)))
  }

  // Names in the order of their first appearance.
  function Firsts(ids: seq<string>): seq<string> {
    if ids == [] then []
    else
      var r := Firsts(ids[..|ids| - 1]);
      if ids[|ids| - 1] in r then r else r + [ids[|ids| - 1]]
  }

  function Ids(refs: seq<IdAddresses>): (r: seq<string>)
    ensures |r| == |refs|
  {
    seq(|refs|, i requires 0 <= i < |refs| => refs[i].id)
  }

  // All addresses recorded for a name, in order.
  function Addrs(refs: seq<IdAddresses>, id: string): seq<nat> {
    if refs == [] then []
    else
      var last := refs[|refs| - 1];
      Addrs(refs[..|refs| - 1], id) + (if last.id == id then last.addresses else [])
  }

  // One entry for each name.
  function Merged(refs: seq<IdAddresses>): seq<IdAddresses> {
    var ids := Firsts(Ids(refs));
    seq(|ids|, i requires 0 <= i < |ids| => IdAddresses(ids[i], Addrs(refs, ids[i])))
  }

  function Insert(x: nat, s: seq<nat>): seq<nat> {
    if s == [] || x <= s[0] then [x] + s else [s[0]] + Insert(x, s[1..])
  }

  function Sorted(s: seq<nat>): seq<nat> { if s == [] then [] else Insert(s[0], Sorted(s[1..])) }

  function SortEach(refs: seq<IdAddresses>): (r: seq<IdAddresses>)
    ensures |r| == |refs|
  {
    seq(|refs|, i requires 0 <= i < |refs| => IdAddresses(refs[i].id, Sorted(refs[i].addresses)))
  }

  // The table a linker writes out.
  function Table(refs: seq<IdAddresses>): seq<IdAddresses> { SortEach(Merged(refs)) }

  // ----- multisets -----

  lemma Without(s: seq<nat>, k: nat)
    requires k < |s|
    ensures multiset(s) == multiset{s[k]} + multiset(s[..k] + s[k + 1..])
  {
    assert s == s[..k] + ([s[k]] + s[k + 1..]);
  }

  lemma WithoutFirst(s: seq<nat>)
    requires s != []
    ensures multiset(s) == multiset{s[0]} + multiset(s[1..])
  {
    assert s == [s[0]] + s[1..];
  }

  // Two sequences of the same elements: as long as each other, and so without a common element.
  lemma SameWithout(a: seq<nat>, b: seq<nat>)
    requires multiset(a) == multiset(b)
    ensures |a| == |b|
    ensures a != [] ==> b != [] && a[0] in b && b[0] in a
  {
    assert |a| == |multiset(a)| == |multiset(b)| == |b|;
    if a != [] {
      assert a[0] in multiset(b) && b[0] in multiset(a);
    }
  }

  lemma Cancel(x: nat, a: multiset<nat>, b: multiset<nat>)
    requires multiset{x} + a == multiset{x} + b
    ensures a == b
  {
    assert a == (multiset{x} + a) - multiset{x};
    assert b == (multiset{x} + b) - multiset{x};
  }

  lemma InEither(x: nat, s: seq<nat>, t: seq<nat>)
    requires multiset(s) == multiset{x} + multiset(t)
    ensures forall i :: 0 <= i < |s| ==> s[i] == x || s[i] in t
  {
    forall i | 0 <= i < |s|
      ensures s[i] == x || s[i] in t
    {
      assert s[i] in multiset(s);
      assert s[i] in multiset(t) || s[i] == x;
    }
  }

  // ----- sorting -----

  predicate Ascending(s: seq<nat>) { forall i, j :: 0 <= i < j < |s| ==> s[i] <= s[j] }

  lemma {:induction false} InsertSorts(x: nat, s: seq<nat>)
    requires Ascending(s)
    ensures Ascending(Insert(x, s)) && multiset(Insert(x, s)) == multiset{x} + multiset(s)
  {
    if s != [] && x > s[0] {
      InsertSorts(x, s[1..]);
      WithoutFirst(s);
      InEither(x, Insert(x, s[1..]), s[1..]);
    }
  }

  lemma {:induction false} SortedSorts(s: seq<nat>)
    ensures Ascending(Sorted(s)) && multiset(Sorted(s)) == multiset(s)
  {
    if s != [] {
      SortedSorts(s[1..]);
      InsertSorts(s[0], Sorted(s[1..]));
      assert s == [s[0]] + s[1..];
    }
  }

  lemma SameFirst(a: seq<nat>, b: seq<nat>)
    requires Ascending(a) && Ascending(b) && a != [] && b != [] && a[0] in b && b[0] in a
    ensures a[0] == b[0]
  {
    var i :| 0 <= i < |b| && b[i] == a[0];
    var j :| 0 <= j < |a| && a[j] == b[0];
    assert i == 0 || b[0] <= b[i];
    assert j == 0 || a[0] <= a[j];
  }

  lemma AscendingRest(s: seq<nat>)
    requires Ascending(s) && s != []
    ensures Ascending(s[1..])
  {
  }

  lemma {:induction false} AscendingUnique(a: seq<nat>, b: seq<nat>)
    requires Ascending(a) && Ascending(b) && multiset(a) == multiset(b)
    ensures a == b
  {
    hide Ascending;
    SameWithout(a, b);
    if a != [] {
      SameFirst(a, b);
      WithoutFirst(a);
      WithoutFirst(b);
      Cancel(a[0], multiset(a[1..]), multiset(b[1..]));
      AscendingRest(a);
      AscendingRest(b);
      AscendingUnique(a[1..], b[1..]);
      assert a == [a[0]] + a[1..] && b == [b[0]] + b[1..];
    }
  }

  lemma SortedUnique(a: seq<nat>, b: seq<nat>)
    requires multiset(a) == multiset(b)
    ensures Sorted(a) == Sorted(b)
  {
    SortedSorts(a);
    SortedSorts(b);
    AscendingUnique(Sorted(a), Sorted(b));
  }

  // ----- names -----

  predicate Distinct(ids: seq<string>) { forall i, j :: 0 <= i < j < |ids| ==> ids[i] != ids[j] }

  lemma {:induction false} FirstsFacts(ids: seq<string>)
    ensures Distinct(Firsts(ids))
    ensures forall x :: x in Firsts(ids) <==> x in ids
  {
    if ids != [] {
      var k := |ids| - 1;
      FirstsFacts(ids[..k]);
      assert ids == ids[..k] + [ids[k]];
    }
  }

  lemma {:induction false} FirstsInner(a: seq<string>, b: seq<string>)
    ensures Firsts(a + Firsts(b)) == Firsts(a + b)
  {
    if b == [] {
      assert a + Firsts(b) == a + b;
    } else {
      var k := |b| - 1;
      FirstsInner(a, b[..k]);
      FirstsFacts(b[..k]);
      FirstsFacts(a + b[..k]);
      assert (a + b)[..|a| + k] == a + b[..k];
      if b[k] in Firsts(b[..k]) {
        assert Firsts(b) == Firsts(b[..k]);
      } else {
        var f := Firsts(b[..k]);
        FirstsFacts(a + f);
        assert (a + (f + [b[k]]))[..|a| + |f|] == a + f;
      }
    }
  }

  lemma {:induction false} FirstsTail(a: seq<string>, b: seq<string>, c: seq<string>)
    requires Firsts(a) == Firsts(b)
    ensures Firsts(a + c) == Firsts(b + c)
    decreases |c|
  {
    if c == [] {
      assert a + c == a && b + c == b;
    } else {
      var k := |c| - 1;
      FirstsTail(a, b, c[..k]);
      assert (a + c)[..|a| + k] == a + c[..k];
      assert (b + c)[..|b| + k] == b + c[..k];
    }
  }

  lemma IdsOf(a: seq<IdAddresses>, b: seq<IdAddresses>, at: Spot)
    ensures Ids(a + b) == Ids(a) + Ids(b)
    ensures Ids(Moved(a, at)) == Ids(a) && Ids(SortEach(a)) == Ids(a) && Ids(Merged(a)) == Firsts(Ids(a))
  {
  }

  // ----- addresses of a name -----

  lemma {:induction false} AddrsAppend(a: seq<IdAddresses>, b: seq<IdAddresses>, id: string)
    ensures Addrs(a + b, id) == Addrs(a, id) + Addrs(b, id)
    decreases |b|
  {
    if b == [] {
      assert a + b == a;
    } else {
      var k := |b| - 1;
      assert (a + b)[..|a| + k] == a + b[..k];
      AddrsAppend(a, b[..k], id);
    }
  }

  lemma {:induction false} AddrsMiss(refs: seq<IdAddresses>, id: string)
    requires id !in Ids(refs)
    ensures Addrs(refs, id) == []
  {
    if refs != [] {
      var k := |refs| - 1;
      assert Ids(refs)[k] == refs[k].id;
      forall i | 0 <= i < k
        ensures Ids(refs[..k])[i] != id
      {
        assert Ids(refs)[i] == refs[i].id;
      }
      AddrsMiss(refs[..k], id);
    }
  }

  lemma {:induction false} AddrsHit(refs: seq<IdAddresses>, k: nat)
    requires k < |refs| && Distinct(Ids(refs))
    ensures Addrs(refs, refs[k].id) == refs[k].addresses
    decreases |refs|
  {
    var n := |refs| - 1;
    var ids := Ids(refs);
    assert Ids(refs[..n]) == ids[..n];
    if k == n {
      assert forall i :: 0 <= i < n ==> ids[i] != ids[n];
      AddrsMiss(refs[..n], refs[k].id);
    } else {
      assert ids[k] != ids[n];
      AddrsHit(refs[..n], k);
    }
  }

  lemma {:induction false} AddrsMoved(refs: seq<IdAddresses>, at: Spot, id: string)
    ensures Addrs(Moved(refs, at), id) == PlaceAll(Addrs(refs, id), at)
  {
    if refs != [] {
      var k := |refs| - 1;
      assert Moved(refs, at)[..k] == Moved(refs[..k], at);
      AddrsMoved(refs[..k], at, id);
    }
  }

  lemma {:induction false} AddrsSorted(refs: seq<IdAddresses>, id: string)
    ensures multiset(Addrs(SortEach(refs), id)) == multiset(Addrs(refs, id))
  {
    if refs != [] {
      var k := |refs| - 1;
      assert SortEach(refs)[..k] == SortEach(refs[..k]);
      AddrsSorted(refs[..k], id);
      SortedSorts(refs[k].addresses);
    }
  }

  lemma AddrsMerged(refs: seq<IdAddresses>, id: string)
    ensures Addrs(Merged(refs), id) == Addrs(refs, id)
  {
    IdsOf(refs, [], Spot(0, 0, 0));
    FirstsFacts(Ids(refs));
    var ids := Firsts(Ids(refs));
    if id in ids {
      var k :| 0 <= k < |ids| && ids[k] == id;
      AddrsHit(Merged(refs), k);
    } else {
      AddrsMiss(Merged(refs), id);
      AddrsMiss(refs, id);
    }
  }

  // ----- tables -----

  predicate SameAddrs(a: seq<IdAddresses>, b: seq<IdAddresses>, id: string) {
    multiset(Addrs(a, id)) == multiset(Addrs(b, id))
  }

  // A table depends only on the order of first appearance and on each name's addresses in any order.
  lemma TableEqual(a: seq<IdAddresses>, b: seq<IdAddresses>)
    requires Firsts(Ids(a)) == Firsts(Ids(b)) && forall id :: SameAddrs(a, b, id)
    ensures Table(a) == Table(b)
  {
    var ids := Firsts(Ids(a));
    forall i | 0 <= i < |ids|
      ensures Sorted(Addrs(a, ids[i])) == Sorted(Addrs(b, ids[i]))
    {
      assert SameAddrs(a, b, ids[i]);
      SortedUnique(Addrs(a, ids[i]), Addrs(b, ids[i]));
    }
  }

  lemma {:induction false} PlacePermutes(a: seq<nat>, b: seq<nat>, at: Spot)
    requires multiset(a) == multiset(b)
    ensures multiset(PlaceAll(a, at)) == multiset(PlaceAll(b, at))
  {
    SameWithout(a, b);
    if a != [] {
      var k :| 0 <= k < |b| && b[k] == a[0];
      var c := b[..k] + b[k + 1..];
      WithoutFirst(a);
      Without(b, k);
      Cancel(a[0], multiset(a[1..]), multiset(c));
      PlacePermutes(a[1..], c, at);
      PlaceWithout(a, 0, at);
      PlaceWithout(b, k, at);
      assert a[..0] + a[1..] == a[1..];
    }
  }

  lemma PlaceWithout(s: seq<nat>, k: nat, at: Spot)
    requires k < |s|
    ensures multiset(PlaceAll(s, at)) == multiset{Place(s[k], at)} + multiset(PlaceAll(s[..k] + s[k + 1..], at))
  {
    hide Place;
    var t := PlaceAll(s, at);
    Without(t, k);
    assert t[..k] + t[k + 1..] == PlaceAll(s[..k] + s[k + 1..], at);
  }

  // A table of a table: what was merged and sorted before it was moved need not have been.
  lemma TableInside(x: seq<IdAddresses>, y: seq<IdAddresses>, z: seq<IdAddresses>, at: Spot)
    ensures Table(x + Moved(Table(y), at) + z) == Table(x + Moved(y, at) + z)
  {
    var p, q := Moved(Table(y), at), Moved(y, at);
    IdsOf(x, p, at);
    IdsOf(x, q, at);
    IdsOf(x + p, z, at);
    IdsOf(x + q, z, at);
    IdsOf(Table(y), [], at);
    IdsOf(Merged(y), [], at);
    IdsOf(y, [], at);
    FirstsInner(Ids(x), Ids(y));
    FirstsTail(Ids(x) + Ids(p), Ids(x) + Ids(q), Ids(z));
    forall id
      ensures SameAddrs(x + p + z, x + q + z, id)
    {
      AddrsInside(x, y, z, at, id);
    }
    TableEqual(x + p + z, x + q + z);
  }

  lemma AddrsInside(x: seq<IdAddresses>, y: seq<IdAddresses>, z: seq<IdAddresses>, at: Spot, id: string)
    ensures SameAddrs(x + Moved(Table(y), at) + z, x + Moved(y, at) + z, id)
  {
    var p, q := Moved(Table(y), at), Moved(y, at);
    AddrsAppend(x, p, id);
    AddrsAppend(x, q, id);
    AddrsAppend(x + p, z, id);
    AddrsAppend(x + q, z, id);
    AddrsMoved(Table(y), at, id);
    AddrsMoved(y, at, id);
    AddrsSorted(Merged(y), id);
    AddrsMerged(y, id);
    PlacePermutes(Addrs(Table(y), id), Addrs(y, id), at);
  }

  lemma {:induction false} RefInAddrs(refs: seq<IdAddresses>, id: string, a: nat)
    ensures HasRef(refs, id, a) <==> a in Addrs(refs, id)
  {
    if refs != [] {
      var k := |refs| - 1;
      RefInAddrs(refs[..k], id, a);
      assert refs == refs[..k] + [refs[k]];
      assert HasRef(refs, id, a) <==> HasRef(refs[..k], id, a) || (refs[k].id == id && a in refs[k].addresses);
    }
  }

  lemma RefInTable(refs: seq<IdAddresses>, id: string, a: nat)
    ensures HasRef(Table(refs), id, a) <==> HasRef(refs, id, a)
  {
    RefInAddrs(Table(refs), id, a);
    RefInAddrs(refs, id, a);
    AddrsSorted(Merged(refs), id);
    AddrsMerged(refs, id);
    assert a in Addrs(Table(refs), id) <==> a in multiset(Addrs(Table(refs), id));
    assert a in Addrs(refs, id) <==> a in multiset(Addrs(refs, id));
  }
}
