/** Bytes and the little-endian 32-bit words that every operand, address and size is stored in. */
module Bytes {
  type byte = b: int | 0 <= b < 256

  const U32: int := 0x1_0000_0000
  const I31: int := 0x8000_0000

  // ToLittleEndian32: the four bytes of n modulo 2^32.
  function LE32(n: nat): (r: seq<byte>)
    ensures |r| == 4
  {
    [n % 256, n / 256 % 256, n / 256 / 256 % 256, n / 256 / 256 / 256 % 256]
  }

  // FromLittleEndian32.
  function FromLE32(b: seq<byte>): (r: nat)
    requires |b| == 4
    ensures r < U32
  {
    b[0] as int + 256 * (b[1] as int + 256 * (b[2] as int + 256 * (b[3] as int)))
  }

  lemma LE32RoundTrip(n: nat)
    requires n < U32
    ensures FromLE32(LE32(n)) == n
  {
  }

  lemma FromLE32RoundTrip(b: seq<byte>)
    requires |b| == 4
    ensures LE32(FromLE32(b)) == b
  {
    Digit(b[0], b[1] as int + 256 * (b[2] as int + 256 * (b[3] as int)));
    Digit(b[1], b[2] as int + 256 * (b[3] as int));
    Digit(b[2], b[3] as int);
  }

  lemma Digit(low: byte, high: nat)
    ensures (low as int + 256 * high) % 256 == low && (low as int + 256 * high) / 256 == high
  {
  }

  // The reinterpretation between int32_t and uint32_t (two's complement).
  function ToUnsigned(i: int): (r: nat)
    requires -I31 <= i < I31
    ensures r < U32
  {
    if i < 0 then i + U32 else i
  }

  function ToSigned(n: nat): (r: int)
    requires n < U32
    ensures -I31 <= r < I31
  {
    if n < I31 then n else n - U32
  }
}
