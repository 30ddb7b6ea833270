// The little-endian host the engines run on: what `memcpy` of bytes into an
// unsigned integer yields, the bytes such an integer occupies in memory, and
// `memcpy` itself between two byte buffers.

module Host {
  import opened Bits

  /** The uint16_t that memcpy assembles from p[off], p[off + 1]. */
  function Load16(p: seq<byte>, off: nat): bv16
    requires off + 2 <= |p|
  {
    (p[off] as bv16) | ((p[off + 1] as bv16) << 8)
  }

  /** The uint32_t that memcpy assembles from p[off .. off + 4]. */
  function Load32(p: seq<byte>, off: nat): bv32
    requires off + 4 <= |p|
  {
    (p[off] as bv32) | ((p[off + 1] as bv32) << 8) | ((p[off + 2] as bv32) << 16) | ((p[off + 3] as bv32) << 24)
  }

  /** The two bytes a uint16_t occupies in memory, lowest address first. */
  function Store16(v: bv16): (s: seq<byte>)
    ensures |s| == 2
  {
    [(v & 0xFF) as byte, (v >> 8) as byte]
  }

  /** The four bytes a uint32_t occupies in memory, lowest address first. */
  function Store32(v: bv32): (s: seq<byte>)
    ensures |s| == 4
  {
    [(v & 0xFF) as byte, ((v >> 8) & 0xFF) as byte, ((v >> 16) & 0xFF) as byte, (v >> 24) as byte]
  }

  /** A loaded uint16_t is the base-256 number whose least significant digit
      is the byte at the lower address. */
  lemma Load16Value(p: seq<byte>, off: nat)
    requires off + 2 <= |p|
    ensures Load16(p, off) == (p[off] as bv16) + 0x100 * (p[off + 1] as bv16)
  {
  }

  /** The same for uint32_t, four base-256 digits. */
  lemma Load32Value(p: seq<byte>, off: nat)
    requires off + 4 <= |p|
    ensures Load32(p, off) == (p[off] as bv32) + 0x100 * (p[off + 1] as bv32)
                              + 0x1_0000 * (p[off + 2] as bv32) + 0x100_0000 * (p[off + 3] as bv32)
  {
  }

  /** Loading a stored word gives the word back, storing a loaded word gives
      the bytes back. */
  lemma Load16Store16(v: bv16, p: seq<byte>, off: nat)
    requires off + 2 <= |p|
    ensures Load16(Store16(v), 0) == v
    ensures Store16(Load16(p, off)) == p[off..off + 2]
  {
  }

  lemma Load32Store32(v: bv32, p: seq<byte>, off: nat)
    requires off + 4 <= |p|
    ensures Load32(Store32(v), 0) == v
    ensures Store32(Load32(p, off)) == p[off..off + 4]
  {
  }

  /** memcpy(dst, src + srcOff, n) between two distinct buffers. */
  method Memcpy(dst: array<byte>, src: array<byte>, srcOff: nat, n: nat)
    requires dst != src
    requires n <= dst.Length && srcOff + n <= src.Length
    modifies dst
    ensures dst[..n] == src[srcOff..srcOff + n]
    ensures dst[n..] == old(dst[n..])
  {
    var k := 0;
    while k < n
      invariant k <= n
      invariant dst[..k] == src[srcOff..srcOff + k]
      invariant dst[k..] == old(dst[k..])
    {
      dst[k] := src[srcOff + k];
      assert dst[..k + 1] == dst[..k] + [dst[k]];
      k := k + 1;
    }
  }
}
