/** What compilation and linking produce: modules and executables, with their tables of definitions and
    of the addresses of 4-byte placeholders. */
module Containers {
  import opened Bytes

  datatype IdSize = IdSize(id: string, size: nat)
  datatype IdAddress = IdAddress(id: string, address: nat)
  datatype IdAddresses = IdAddresses(id: string, addresses: seq<nat>)

  datatype Module = Module(
    version: nat,
    code: seq<byte>,
    mainSize: nat,
    funcDefs: seq<IdAddress>,
    globalDefs: seq<IdSize>,
    nativeDefs: seq<string>,
    funcRefs: seq<IdAddresses>,
    nativeRefs: seq<IdAddresses>,
    globalRefs: seq<IdAddresses>)

  datatype Exe = Exe(
    version: nat,
    code: seq<byte>,
    mainSize: nat,
    globalsSize: nat,
    nativeDefs: seq<string>,
    nativeRefs: seq<IdAddresses>)

  // The table has a as a placeholder of id.
  predicate HasRef(refs: seq<IdAddresses>, id: string, a: nat) {
    exists i :: 0 <= i < |refs| && refs[i].id == id && a in refs[i].addresses
  }

  predicate IsRef(refs: seq<IdAddresses>, a: nat) { exists i :: 0 <= i < |refs| && a in refs[i].addresses }

  // A 4-byte field inside one of the two segments.
  predicate InSegment(m: Module, a: nat) { a + 4 <= m.mainSize || (m.mainSize <= a && a + 4 <= |m.code|) }

  predicate Apart(a: nat, b: nat) { a + 4 <= b || b + 4 <= a }

  // The placeholders of one table: within a segment, and two of different names apart.
  ghost predicate RefsFit(m: Module, refs: seq<IdAddresses>) {
    (forall a: nat :: IsRef(refs, a) ==> InSegment(m, a)) &&
    (forall x, y, a: nat, b: nat :: HasRef(refs, x, a) && HasRef(refs, y, b) && (x != y || a != b) ==> Apart(a, b))
  }

  ghost predicate RefsApart(p: seq<IdAddresses>, q: seq<IdAddresses>) {
    forall a: nat, b: nat :: IsRef(p, a) && IsRef(q, b) ==> Apart(a, b)
  }

  // What the generator guarantees and the linkers rely on.
  ghost predicate WellFormed(m: Module) {
    m.mainSize <= |m.code| < U32 &&
    RefsFit(m, m.globalRefs) && RefsFit(m, m.funcRefs) && RefsFit(m, m.nativeRefs) &&
    RefsApart(m.globalRefs, m.funcRefs) && RefsApart(m.globalRefs, m.nativeRefs) &&
    RefsApart(m.funcRefs, m.nativeRefs) &&
    (forall i :: 0 <= i < |m.funcDefs| ==> m.funcDefs[i].address <= |m.code|) &&
    (forall i :: 0 <= i < |m.globalDefs| ==> 1 <= m.globalDefs[i].size <= 2)
  }
}
