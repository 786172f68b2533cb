/** The growable byte buffer with a cursor that all code, modules and executables are written to and
    read from. Sizes are 32-bit, and so is the arithmetic that doubles the capacity. */
module Buffer {
  import opened Bytes

  // s with bs written over it from p on, extended where bs reaches past the end.
  function Overwrite(s: seq<byte>, p: nat, bs: seq<byte>): seq<byte>
    requires p <= |s|
  {
    s[..p] + bs + (if p + |bs| <= |s| then s[p + |bs|..] else [])
  }

  // (size + count) * 2 in 32 bits.
  function DoubledCapacity(size: nat, count: nat): nat { (size + count) % U32 * 2 % U32 }

  // What growing for count more bytes comes to: nothing to do; a larger buffer; the size overflow
  // exception; or a buffer that is larger and still too small, although the code asserts it is not.
  datatype Growth = Enough | Grown(capacity: nat) | Overflow | TooSmall

  function Grow(size: nat, capacity: nat, position: nat, count: nat): Growth
    requires position <= size <= capacity < U32 && count < U32
  {
    if capacity - position >= count then Enough
    else
      var c := DoubledCapacity(size, count);
      if c <= capacity then Overflow
      else if c < (size + count) % U32 || c < position + count then TooSmall
      else Grown(c)
  }

  // The doubled total exceeds the capacity, and yet the bytes do not fit: the total is at least 2^31 and
  // below 2^32, or it wraps around to a number whose double, in turn, wraps or ends before the last byte.
  predicate Short(size: nat, capacity: nat, position: nat, count: nat) {
    var total := size + count;
    position + count > capacity &&
    if total < I31 then false
    else if total < U32 then 2 * total - U32 > capacity
    else if total < U32 + I31 then capacity < 2 * (total - U32) < position + count
    else 2 * (total - U32) - U32 > capacity
  }

  // The doubled total is no larger than the capacity.
  predicate Exceeds(size: nat, capacity: nat, position: nat, count: nat) {
    var total := size + count;
    position + count > capacity &&
    if total < I31 then false
    else if total < U32 then 2 * total - U32 <= capacity
    else if total < U32 + I31 then 2 * (total - U32) <= capacity
    else 2 * (total - U32) - U32 <= capacity
  }

  // Which growth is which, for every request: growing never comes out too small exactly when it is not
  // short, and a total below 2^31 always has room.
  lemma GrowExact(size: nat, capacity: nat, position: nat, count: nat)
    requires position <= size <= capacity < U32 && count < U32
    ensures var g := Grow(size, capacity, position, count);
      && (g.Enough? <==> position + count <= capacity)
      && (g.TooSmall? <==> Short(size, capacity, position, count))
      && (g.Overflow? <==> Exceeds(size, capacity, position, count))
      && (g.Grown? ==> g.capacity > capacity && g.capacity >= position + count)
      && (g.Grown? && size + count < U32 ==> g.capacity == 2 * (size + count))
    ensures size + count < I31 ==>
      !Short(size, capacity, position, count) && !Exceeds(size, capacity, position, count)
  {
    var total, c := size + count, DoubledCapacity(size, count);
    assert total % U32 == if total < U32 then total else total - U32;
    var w := total % U32;
    assert c == if w < I31 then 2 * w else 2 * w - U32;
  }

  // A full buffer of 2^31 bytes that is to take 2^30 + 1 more grows to 2^31 + 2 bytes only.
  lemma GrowTooSmall()
    ensures Short(I31, I31, I31, I31 / 2 + 1)
    ensures Grow(I31, I31, I31, I31 / 2 + 1) == TooSmall
    ensures DoubledCapacity(I31, I31 / 2 + 1) == I31 + 2
  {
  }

  class Code {
    var size: nat
    var capacity: nat
    var bytes: array<byte>
    var position: nat

    ghost predicate Valid()
      reads this, bytes
    {
      position <= size <= capacity == bytes.Length < U32
    }

    function Contents(): (s: seq<byte>)
      requires Valid()
      reads this, bytes
      ensures |s| == size
    {
      bytes[..size]
    }

    predicate CanGrow(count: nat)
      requires Valid() && count < U32
      reads this, bytes
    {
      var g := Grow(size, capacity, position, count);
      g.Enough? || g.Grown?
    }

    constructor ()
      ensures Valid() && fresh(bytes)
      ensures Contents() == [] && position == 0
    {
      size, capacity, position := 0, 0, 0;
      bytes := new byte[0];
    }

    // A buffer that is already size bytes long, with arbitrary contents.
    constructor OfSize(n: nat)
      requires n < U32
      ensures Valid() && fresh(bytes)
      ensures |Contents()| == n && position == 0
    {
      size, capacity, position := n, n, 0;
      bytes := new byte[n];
    }

    constructor Of(bs: seq<byte>)
      requires |bs| < U32
      ensures Valid() && fresh(bytes)
      ensures Contents() == bs && position == 0
    {
      size, capacity, position := |bs|, |bs|, 0;
      bytes := new byte[|bs|](i requires 0 <= i < |bs| => bs[i]);
    }

    method SetPosition(p: nat)
      requires Valid() && p <= size
      modifies `position
      ensures Valid() && position == p && Contents() == old(Contents())
    {
      position := p;
    }

    method MovePosition(offset: int)
      requires Valid() && 0 <= position + offset <= size
      modifies `position
      ensures Valid() && position == old(position) + offset && Contents() == old(Contents())
    {
      position := position + offset;
    }

    method EnsureCapacity(count: nat) returns (ok: bool)
      requires Valid() && count < U32
      requires !Short(size, capacity, position, count)
      modifies `capacity, `bytes
      ensures Valid() && (bytes == old(bytes) || fresh(bytes))
      ensures old(capacity - position) >= count ==> bytes == old(bytes)
      ensures ok == old(CanGrow(count))
      ensures ok ==> capacity - position >= count
      ensures capacity >= old(capacity) && bytes[..old(capacity)] == old(bytes[..]) && Contents() == old(Contents())
    {
      GrowExact(size, capacity, position, count);
      if capacity - position >= count {
        return true;
      }
      var newCapacity := DoubledCapacity(size, count);
      if newCapacity <= capacity {
        return false;
      }
      var newBytes := new byte[newCapacity];
      var i := 0;
      while i < capacity
        invariant 0 <= i <= capacity
        invariant newBytes[..i] == bytes[..i]
        modifies newBytes
      {
        newBytes[i] := bytes[i];
        i := i + 1;
      }
      capacity := newCapacity;
      bytes := newBytes;
      return true;
    }

    method AfterWrite(count: nat)
      requires Valid() && count <= capacity - position
      modifies `size, `position
      ensures Valid() && position == old(position) + count
      ensures size == if old(size) < position then position else old(size)
    {
      var available := size - position;
      if count > available {
        size := size + (count - available);
      }
      position := position + count;
    }

    // Bytes that are already there stay; bytes beyond the end are whatever they are.
    method Skip(count: nat) returns (ok: bool)
      requires Valid() && count < U32
      requires !Short(size, capacity, position, count)
      modifies `size, `capacity, `bytes, `position
      ensures Valid() && (bytes == old(bytes) || fresh(bytes))
      ensures ok == old(CanGrow(count))
      ensures ok ==> position == old(position) + count
      ensures ok ==> |Contents()| == if old(size) < position then position else old(size)
      ensures ok ==> Contents()[..old(size)] == old(Contents())
      ensures !ok ==> position == old(position) && Contents() == old(Contents())
    {
      ok := EnsureCapacity(count);
      if ok {
        AfterWrite(count);
        assert Contents()[..old(size)] == bytes[..old(capacity)][..old(size)];
      }
    }

    method Write(bs: seq<byte>) returns (ok: bool)
      requires Valid() && |bs| < U32
      requires !Short(size, capacity, position, |bs|)
      modifies this, bytes
      ensures Valid() && (bytes == old(bytes) || fresh(bytes))
      ensures old(capacity - position) >= |bs| ==> bytes == old(bytes)
      ensures ok == old(CanGrow(|bs|))
      ensures ok ==> position == old(position) + |bs| && Contents() == Overwrite(old(Contents()), old(position), bs)
      ensures !ok ==> position == old(position) && Contents() == old(Contents())
    {
      ok := EnsureCapacity(|bs|);
      if !ok {
        return;
      }
      ghost var was := bytes[..];
      assert was[..old(size)] == old(Contents());
      CopyIn(bs);
      AfterWrite(|bs|);
      Written(was, bytes[..], old(size), old(position), bs);
    }

    method CopyIn(bs: seq<byte>)
      requires Valid() && |bs| <= capacity - position
      modifies bytes
      ensures bytes[..] == old(bytes[..position]) + bs + old(bytes[position + |bs|..])
    {
      var i := 0;
      while i < |bs|
        invariant 0 <= i <= |bs|
        invariant forall k :: 0 <= k < position ==> bytes[k] == old(bytes[k])
        invariant forall k :: 0 <= k < i ==> bytes[position + k] == bs[k]
        invariant forall k :: position + i <= k < capacity ==> bytes[k] == old(bytes[k])
      {
        bytes[position + i] := bs[i];
        i := i + 1;
      }
    }

    method WriteU32(n: nat) returns (ok: bool)
      requires Valid() && n < U32
      requires !Short(size, capacity, position, 4)
      modifies this, bytes
      ensures Valid() && (bytes == old(bytes) || fresh(bytes))
      ensures old(capacity - position) >= 4 ==> bytes == old(bytes)
      ensures ok == old(CanGrow(4))
      ensures ok ==> position == old(position) + 4 && Contents() == Overwrite(old(Contents()), old(position), LE32(n))
      ensures !ok ==> position == old(position) && Contents() == old(Contents())
    {
      ok := Write(LE32(n));
    }

    method Read(count: nat) returns (bs: seq<byte>)
      requires Valid() && position + count <= size
      modifies `position
      ensures Valid() && position == old(position) + count && Contents() == old(Contents())
      ensures bs == Contents()[old(position)..position]
    {
      bs := bytes[position..position + count];
      position := position + count;
    }

    method ReadU32() returns (n: nat)
      requires Valid() && position + 4 <= size
      modifies `position
      ensures Valid() && position == old(position) + 4 && Contents() == old(Contents())
      ensures n < U32 && n == FromLE32(Contents()[old(position)..position])
    {
      var bs := Read(4);
      n := FromLE32(bs);
    }
  }

  lemma Written(was: seq<byte>, now: seq<byte>, size: nat, p: nat, bs: seq<byte>)
    requires p <= size <= |was| && p + |bs| <= |was|
    requires now == was[..p] + bs + was[p + |bs|..]
    ensures now[..if size < p + |bs| then p + |bs| else size] == Overwrite(was[..size], p, bs)
  {
    var s := was[..size];
    assert s[..p] == was[..p];
    if p + |bs| <= size {
      assert s[p + |bs|..] == was[p + |bs|..][..size - (p + |bs|)];
    }
  }
}
