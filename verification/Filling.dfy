/** What filling placeholders does to the bytes of a module, and where those bytes are in the output. */
module Filling {
  import opened Bytes
  import opened Containers
  import opened References
  import opened Linking

  // Fields within n bytes, two of them apart unless they are the same field of the same name.
  ghost predicate Spaced(refs: seq<IdAddresses>, n: nat) {
    (forall x, a: nat :: HasRef(refs, x, a) ==> a + 4 <= n) &&
    (forall x, y, a: nat, b: nat :: HasRef(refs, x, a) && HasRef(refs, y, b) && (x != y || a != b) ==> Apart(a, b))
  }

  // p is a byte of a placeholder that has a number.
  predicate Covers(refs: seq<IdAddresses>, numbers: map<string, nat>, id: string, a: nat, p: nat) {
    HasRef(refs, id, a) && id in numbers && a <= p < a + 4
  }

  ghost predicate Covered(refs: seq<IdAddresses>, numbers: map<string, nat>, p: nat) {
    exists id, a: nat :: Covers(refs, numbers, id, a, p)
  }

  // Placeholders hold their names' numbers.
  ghost predicate Holds(code: seq<byte>, refs: seq<IdAddresses>, numbers: map<string, nat>) {
    forall id, a: nat :: HasRef(refs, id, a) && id in numbers && a + 4 <= |code| ==> code[a..a + 4] == LE32(numbers[id])
  }

  // From old to new exactly the placeholders have changed, and now hold their names' numbers.
  ghost predicate IsFilled(old_: seq<byte>, new_: seq<byte>, globalRefs: seq<IdAddresses>, slots: map<string, nat>,
                           funcRefs: seq<IdAddresses>, funcs: map<string, nat>) {
    |new_| == |old_| && Holds(new_, globalRefs, slots) && Holds(new_, funcRefs, funcs) &&
    forall p: nat :: 0 <= p < |old_| && !Covered(globalRefs, slots, p) && !Covered(funcRefs, funcs, p) ==>
      new_[p] == old_[p]
  }

  lemma PutBytes(code: seq<byte>, a: nat, n: nat)
    requires a + 4 <= |code|
    ensures Put(code, a, n)[a..a + 4] == LE32(n)
    ensures forall p: nat :: 0 <= p < |code| && !(a <= p < a + 4) ==> Put(code, a, n)[p] == code[p]
  {
  }

  lemma {:induction false} PutAllBytes(code: seq<byte>, addresses: seq<nat>, n: nat)
    requires forall a: nat :: a in addresses ==> a + 4 <= |code|
    requires forall a: nat, b: nat :: a in addresses && b in addresses && a != b ==> Apart(a, b)
    ensures forall a: nat :: a in addresses ==> PutAll(code, addresses, n)[a..a + 4] == LE32(n)
    ensures forall p: nat :: 0 <= p < |code| && (forall a: nat :: a in addresses ==> !(a <= p < a + 4)) ==>
      PutAll(code, addresses, n)[p] == code[p]
    decreases |addresses|
  {
    if addresses != [] {
      var k := |addresses| - 1;
      var last, r := addresses[k], PutAll(code, addresses[..k], n);
      assert last in addresses && forall a: nat :: a in addresses[..k] ==> a in addresses;
      PutAllBytes(code, addresses[..k], n);
      PutBytes(r, last, n);
      forall a: nat | a in addresses && a != last
        ensures Put(r, last, n)[a..a + 4] == LE32(n)
      {
        assert a in addresses[..k];
        assert Put(r, last, n)[a..a + 4] == r[a..a + 4];
      }
    }
  }

  lemma SpacedPrefix(refs: seq<IdAddresses>, n: nat)
    requires refs != [] && Spaced(refs, n)
    ensures var k := |refs| - 1;
      Spaced(refs[..k], n) &&
      (forall a: nat :: a in refs[k].addresses ==> HasRef(refs, refs[k].id, a)) &&
      (forall id, a: nat :: HasRef(refs, id, a) <==>
        HasRef(refs[..k], id, a) || (id == refs[k].id && a in refs[k].addresses))
  {
    var k := |refs| - 1;
    forall id, a: nat
      ensures HasRef(refs, id, a) <==> HasRef(refs[..k], id, a) || (id == refs[k].id && a in refs[k].addresses)
    {
      if HasRef(refs[..k], id, a) {
        var i :| 0 <= i < k && refs[..k][i].id == id && a in refs[..k][i].addresses;
        assert refs[i].id == id;
      }
      if HasRef(refs, id, a) {
        var i :| 0 <= i < |refs| && refs[i].id == id && a in refs[i].addresses;
        assert i < k ==> refs[..k][i].id == id;
      }
    }
  }

  lemma {:induction false} FillBytes(code: seq<byte>, refs: seq<IdAddresses>, numbers: map<string, nat>)
    requires Spaced(refs, |code|)
    ensures Holds(Fill(code, refs, numbers), refs, numbers)
    ensures forall p: nat :: 0 <= p < |code| && !Covered(refs, numbers, p) ==> Fill(code, refs, numbers)[p] == code[p]
    decreases |refs|
  {
    hide Spaced, HasRef, PutAll;
    if refs == [] {
      assert forall id, a: nat :: !HasRef(refs, id, a) by { NoRefs(); }
    } else {
      var k := |refs| - 1;
      var r := Fill(code, refs[..k], numbers);
      SpacedPrefix(refs, |code|);
      FillBytes(code, refs[..k], numbers);
      FillLast(code, r, refs, numbers);
    }
  }

  lemma NoRefs()
    ensures forall id, a: nat :: !HasRef([], id, a)
  {
  }

  // The last entry, filled after the others.
  lemma FillLast(code: seq<byte>, r: seq<byte>, refs: seq<IdAddresses>, numbers: map<string, nat>)
    requires refs != [] && |r| == |code| && Spaced(refs, |code|)
    requires r == Fill(code, refs[..|refs| - 1], numbers) && Holds(r, refs[..|refs| - 1], numbers)
    requires forall p: nat :: 0 <= p < |code| && !Covered(refs[..|refs| - 1], numbers, p) ==> r[p] == code[p]
    ensures Holds(Fill(code, refs, numbers), refs, numbers)
    ensures forall p: nat :: 0 <= p < |code| && !Covered(refs, numbers, p) ==> Fill(code, refs, numbers)[p] == code[p]
  {
    hide HasRef, PutAll, LE32;
    var k := |refs| - 1;
    var last, s := refs[k], Fill(code, refs, numbers);
    SpacedPrefix(refs, |code|);
    if last.id in numbers {
      PutAllBytes(r, last.addresses, numbers[last.id]);
    }
    forall id, a: nat | HasRef(refs, id, a) && id in numbers && a + 4 <= |s|
      ensures s[a..a + 4] == LE32(numbers[id])
    {
      if !(id == last.id && a in last.addresses) {
        assert r[a..a + 4] == LE32(numbers[id]);
        assert s[a..a + 4] == r[a..a + 4];
      }
    }
    forall p: nat | 0 <= p < |code| && !Covered(refs, numbers, p)
      ensures s[p] == code[p]
    {
      forall id, a: nat
        ensures !Covers(refs[..k], numbers, id, a, p)
      {
        assert !Covers(refs, numbers, id, a, p);
      }
      forall a: nat | a in last.addresses && last.id in numbers
        ensures !(a <= p < a + 4)
      {
        assert !Covers(refs, numbers, last.id, a, p);
      }
    }
  }
}
