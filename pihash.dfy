// The piHash family of pihash.c: piHash32, piHash64 and piHash128 over a
// byte buffer on a little-endian host, with their mixers and fetch helpers.
//
// Each hash is modelled twice: a method with the C function's control flow
// (the block loop over i, the zero-initialised tail buffer filled by memcpy,
// the tail step and the finalisation), and a function of the input bytes that
// the method is proved to compute. One iteration of a block loop, i.e. the four
// lane updates followed by PIHASH_PERMUTE, is the function Absorb32 / Absorb64 /
// Absorb128 of the lanes and of the four words fetched; the loops apply it.
//
// The block loops never advance `bytes`: every iteration fetches the first
// block again. The lemmas of each part state what follows: only the first
// block and the last block of an input reach its hash.

module PiHash {
  import opened Bits
  import opened Host

  /** The four lane registers w, x, y, z of piHash32 and piHash128. */
  datatype Lanes32 = Lanes32(w: bv32, x: bv32, y: bv32, z: bv32)

  /** The four lane registers of piHash64. */
  datatype Lanes64 = Lanes64(w: bv64, x: bv64, y: bv64, z: bv64)

  /** PIHASH_PERMUTE32 on x, y, z: through a temporary, x takes y's value, y
      takes z's and z takes the old x. */
  function Permute32(l: Lanes32): Lanes32
  {
    Lanes32(l.w, l.y, l.z, l.x)
  }

  /** PIHASH_PERMUTE64, the same on 64-bit lanes. */
  function Permute64(l: Lanes64): Lanes64
  {
    Lanes64(l.w, l.y, l.z, l.x)
  }

  /** The permutation moves (x, y, z) to (y, z, x), keeps w, and is a 3-cycle:
      three applications change nothing, one changes any state whose x, y, z
      are not all equal. */
  lemma Permute32IsThreeCycle(l: Lanes32)
    ensures Permute32(l).w == l.w
    ensures Permute32(l).x == l.y && Permute32(l).y == l.z && Permute32(l).z == l.x
    ensures Permute32(Permute32(Permute32(l))) == l
    ensures Permute32(l) == l <==> l.x == l.y == l.z
  {
  }

  lemma Permute64IsThreeCycle(l: Lanes64)
    ensures Permute64(l).w == l.w
    ensures Permute64(l).x == l.y && Permute64(l).y == l.z && Permute64(l).z == l.x
    ensures Permute64(Permute64(Permute64(l))) == l
    ensures Permute64(l) == l <==> l.x == l.y == l.z
  {
  }

  // ----- fetch helpers -----

  /** The conversion (uint32_t) c of a `char` holding the bit pattern c: the
      byte sign-extended when `char` is signed, zero-extended otherwise. */
  function CharToUint32(c: byte, signedChar: bool): bv32
  {
    if signedChar && c >= 0x80 then (c as bv32) | 0xFFFF_FF00 else c as bv32
  }

  /** The conversion follows C's rule for conversion to an unsigned type: the
      result is the char's value modulo 2^32, so a signed char c >= 0x80, whose
      value is c - 256, becomes 2^32 - (256 - c). */
  lemma CharToUint32IsModular(c: byte, signedChar: bool)
    ensures CharToUint32(c, signedChar)
         == if signedChar && c >= 0x80 then 0 - (0x100 - c as bv32) else c as bv32
  {
  }

  /** fetch8(p + off). */
  function Fetch8(p: seq<byte>, off: nat, signedChar: bool): bv32
    requires off < |p|
  {
    CharToUint32(p[off], signedChar)
  }

  /** A uint16_t widened to uint64_t. */
  function Widen16(u: bv16): bv64
  {
    u as bv64
  }

  /** fetch16(p + off): the uint16_t at p + off widened to uint64_t. */
  function Fetch16(p: seq<byte>, off: nat): bv64
    requires off + 2 <= |p|
  {
    Widen16(Load16(p, off))
  }

  /** fetch32(p + off): the uint32_t at p + off (no byte swap on a little-endian host). */
  function Fetch32(p: seq<byte>, off: nat): bv32
    requires off + 4 <= |p|
  {
    Load32(p, off)
  }

  /** fetch8 keeps the byte in the low 8 bits and fills the upper 24 bits with
      ones when `char` is signed and the byte's top bit is set, with zeros
      otherwise. */
  lemma Fetch8Extends(p: seq<byte>, off: nat, signedChar: bool)
    requires off < |p|
    ensures Fetch8(p, off, signedChar) & 0xFF == p[off] as bv32
    ensures Fetch8(p, off, signedChar) >> 8
         == if signedChar && p[off] >= 0x80 then 0xFF_FFFF else 0
  {
  }

  /** fetch8 tells bytes apart. */
  lemma Fetch8Injective(p: seq<byte>, q: seq<byte>, off: nat, signedChar: bool)
    requires off < |p| && off < |q|
    ensures Fetch8(p, off, signedChar) == Fetch8(q, off, signedChar) <==> p[off] == q[off]
  {
    Fetch8Extends(p, off, signedChar);
    Fetch8Extends(q, off, signedChar);
  }

  lemma Widen16Injective(u: bv16, v: bv16)
    ensures Widen16(u) == Widen16(v) <==> u == v
  {
  }

  /** fetch32 tells four-byte words apart. */
  lemma Fetch32Injective(p: seq<byte>, q: seq<byte>, off: nat)
    requires off + 4 <= |p| && off + 4 <= |q|
    ensures Fetch32(p, off) == Fetch32(q, off) <==> p[off..off + 4] == q[off..off + 4]
  {
    Load32Store32(0, p, off);
    Load32Store32(0, q, off);
  }

  /** A byte changed inside a fetched word changes the word. */
  lemma Fetch16Differs(p: seq<byte>, q: seq<byte>, off: nat, i: nat)
    requires off + 2 <= |p| && off + 2 <= |q|
    requires off <= i < off + 2 && p[i] != q[i]
    ensures Fetch16(p, off) != Fetch16(q, off)
  {
    Widen16Injective(Load16(p, off), Load16(q, off));
    Load16Store16(0, p, off);
    Load16Store16(0, q, off);
    assert p[off..off + 2][i - off] == p[i] && q[off..off + 2][i - off] == q[i];
  }

  lemma Fetch32Differs(p: seq<byte>, q: seq<byte>, off: nat, i: nat)
    requires off + 4 <= |p| && off + 4 <= |q|
    requires off <= i < off + 4 && p[i] != q[i]
    ensures Fetch32(p, off) != Fetch32(q, off)
  {
    Fetch32Injective(p, q, off);
    assert p[off..off + 4][i - off] == p[i] && q[off..off + 4][i - off] == q[i];
  }

  /** fetch16 and fetch32 read nothing but the bytes of their word. */
  lemma Fetch16OfSameBytes(p: seq<byte>, q: seq<byte>, off: nat)
    requires off + 2 <= |p| && off + 2 <= |q|
    requires p[off] == q[off] && p[off + 1] == q[off + 1]
    ensures Fetch16(p, off) == Fetch16(q, off)
  {
    assert Load16(p, off) == Load16(q, off);
  }

  lemma Fetch32OfSameBytes(p: seq<byte>, q: seq<byte>, off: nat)
    requires off + 4 <= |p| && off + 4 <= |q|
    requires p[off] == q[off] && p[off + 1] == q[off + 1] && p[off + 2] == q[off + 2] && p[off + 3] == q[off + 3]
    ensures Fetch32(p, off) == Fetch32(q, off)
  {
  }

  /** fetch16 is p[off] + 2^8 p[off + 1], which is below 2^16. */
  lemma Fetch16Value(p: seq<byte>, off: nat)
    requires off + 2 <= |p|
    ensures Fetch16(p, off) == (p[off] as bv64) + 0x100 * (p[off + 1] as bv64)
    ensures Fetch16(p, off) < 0x1_0000
  {
    Load16Value(p, off);
  }

  /** fetch32 is p[off] + 2^8 p[off + 1] + 2^16 p[off + 2] + 2^24 p[off + 3]. */
  lemma Fetch32Value(p: seq<byte>, off: nat)
    requires off + 4 <= |p|
    ensures Fetch32(p, off) == (p[off] as bv32) + 0x100 * (p[off + 1] as bv32)
                               + 0x1_0000 * (p[off + 2] as bv32) + 0x100_0000 * (p[off + 3] as bv32)
  {
    Load32Value(p, off);
  }

  // ----- mixers -----

  /** mix32: multiply by 0x2ca803f9, xor with the product rotated left by 16,
      then the three steps of Mix32Tail. */
  function Mix32(num: bv32): bv32
  {
    Mix32Tail(XorRotL32(num * 0x2ca803f9, 16))
  }

  /** The last three steps of mix32: xor with 0x3583c01f times the word
      shifted right by 11, plus 0x34504db3; multiply by the word's right
      rotation by 4; xor with 0x243e4223 times the word, shifted left by 7. */
  function Mix32Tail(n: bv32): bv32
  {
    var n3 := n ^ ((0x3583c01f * (n >> 11)) + 0x34504db3);
    var n4 := n3 * RotR32(n3, 4);
    n4 ^ ((0x243e4223 * n4) << 7)
  }

  /** mix64: multiply by 0x483b86d5483b86d5, xor with the product rotated
      left by 31, then the three steps of Mix64Tail. */
  function Mix64(num: bv64): bv64
  {
    Mix64Tail(XorRotL64(num * 0x483b86d5483b86d5, 31))
  }

  /** The last three steps of mix64: the steps of Mix32Tail with the 64-bit
      constants (each 32-bit constant of mix written twice), shift 27,
      rotation 33 and shift 37. */
  function Mix64Tail(n: bv64): bv64
  {
    var n3 := n ^ ((0x3af1de9b3af1de9b * (n >> 27)) + 0x28330d1b28330d1b);
    var n4 := n3 * RotR64(n3, 33);
    n4 ^ ((0x13a7ce5913a7ce59 * n4) << 37)
  }

  /** The input whose product with mix32's first constant is the complement of
      v's: 0xf0294e49 is that constant's inverse modulo 2^32. */
  function Mix32Twin(v: bv32): bv32
  {
    ((v * 0x2ca803f9) ^ 0xFFFF_FFFF) * 0xf0294e49
  }

  /** 0xe2ac4501281b827d is the inverse of mix64's first constant modulo 2^64. */
  function Mix64Twin(v: bv64): bv64
  {
    ((v * 0x483b86d5483b86d5) ^ 0xFFFF_FFFF_FFFF_FFFF) * 0xe2ac4501281b827d
  }

  /** mix32 is not injective: every input has a different twin with the same
      mix32 value, so mix32 takes at most 2^31 values. */
  lemma Mix32NotInjective(v: bv32)
    ensures Mix32Twin(v) != v
    ensures Mix32(Mix32Twin(v)) == Mix32(v)
  {
    assert Mix32(Mix32Twin(v)) == Mix32(((v * 0x2ca803f9) ^ 0xFFFF_FFFF) * 0xf0294e49);
    XorRotL32By16Complement(v * 0x2ca803f9);
  }

  /** mix64 is not injective either. */
  lemma Mix64NotInjective(v: bv64)
    ensures Mix64Twin(v) != v
    ensures Mix64(Mix64Twin(v)) == Mix64(v)
  {
    assert Mix64(Mix64Twin(v)) == Mix64(((v * 0x483b86d5483b86d5) ^ 0xFFFF_FFFF_FFFF_FFFF) * 0xe2ac4501281b827d);
    XorRotL64By31Complement(v * 0x483b86d5483b86d5);
  }

  // ----- the lane constants -----
  // The four odd constants the block steps scale by, K1 = 0x21914047,
  // K2 = 0x0356ac85, K3 = 0x0f7527d9 and K4 = 0x1b873593, each as a
  // multiplication of its own, with the multiplication by its inverse modulo
  // 2^32 (and modulo 2^64 for piHash64) beside it.

  function Mul32K1(x: bv32): bv32
  {
    x * 0x21914047
  }

  function Inv32K1(x: bv32): bv32
  {
    x * 0xf9f26977
  }

  function Mul64K1(x: bv64): bv64
  {
    x * 0x21914047
  }

  function Inv64K1(x: bv64): bv64
  {
    x * 0x604959e8f9f26977
  }

  function Mul32K2(x: bv32): bv32
  {
    x * 0x0356ac85
  }

  function Inv32K2(x: bv32): bv32
  {
    x * 0x296e6c4d
  }

  function Mul64K2(x: bv64): bv64
  {
    x * 0x0356ac85
  }

  function Inv64K2(x: bv64): bv64
  {
    x * 0x6f50740b296e6c4d
  }

  function Mul32K3(x: bv32): bv32
  {
    x * 0x0f7527d9
  }

  function Inv32K3(x: bv32): bv32
  {
    x * 0x23c6e869
  }

  function Mul64K3(x: bv64): bv64
  {
    x * 0x0f7527d9
  }

  function Inv64K3(x: bv64): bv64
  {
    x * 0x2a2e572823c6e869
  }

  function Mul32K4(x: bv32): bv32
  {
    x * 0x1b873593
  }

  function Inv32K4(x: bv32): bv32
  {
    x * 0x56ed309b
  }

  function Mul64K4(x: bv64): bv64
  {
    x * 0x1b873593
  }

  function Inv64K4(x: bv64): bv64
  {
    x * 0x9f37233e56ed309b
  }

  /** Each constant is invertible: the inverse multiplication undoes it, in
      either order. */
  lemma Mul32K1Inverse(x: bv32)
    ensures Inv32K1(Mul32K1(x)) == x && Mul32K1(Inv32K1(x)) == x
  {
    assert Inv32K1(Mul32K1(x)) == Inv32K1(x * 0x21914047);
    assert Mul32K1(Inv32K1(x)) == Mul32K1(x * 0xf9f26977);
  }

  lemma Mul64K1Inverse(x: bv64)
    ensures Inv64K1(Mul64K1(x)) == x && Mul64K1(Inv64K1(x)) == x
  {
    assert Inv64K1(Mul64K1(x)) == Inv64K1(x * 0x21914047);
    assert Mul64K1(Inv64K1(x)) == Mul64K1(x * 0x604959e8f9f26977);
  }

  lemma Mul32K2Inverse(x: bv32)
    ensures Inv32K2(Mul32K2(x)) == x && Mul32K2(Inv32K2(x)) == x
  {
    assert Inv32K2(Mul32K2(x)) == Inv32K2(x * 0x0356ac85);
    assert Mul32K2(Inv32K2(x)) == Mul32K2(x * 0x296e6c4d);
  }

  lemma Mul64K2Inverse(x: bv64)
    ensures Inv64K2(Mul64K2(x)) == x && Mul64K2(Inv64K2(x)) == x
  {
    assert Inv64K2(Mul64K2(x)) == Inv64K2(x * 0x0356ac85);
    assert Mul64K2(Inv64K2(x)) == Mul64K2(x * 0x6f50740b296e6c4d);
  }

  lemma Mul32K3Inverse(x: bv32)
    ensures Inv32K3(Mul32K3(x)) == x && Mul32K3(Inv32K3(x)) == x
  {
    assert Inv32K3(Mul32K3(x)) == Inv32K3(x * 0x0f7527d9);
    assert Mul32K3(Inv32K3(x)) == Mul32K3(x * 0x23c6e869);
  }

  lemma Mul64K3Inverse(x: bv64)
    ensures Inv64K3(Mul64K3(x)) == x && Mul64K3(Inv64K3(x)) == x
  {
    assert Inv64K3(Mul64K3(x)) == Inv64K3(x * 0x0f7527d9);
    assert Mul64K3(Inv64K3(x)) == Mul64K3(x * 0x2a2e572823c6e869);
  }

  lemma Mul32K4Inverse(x: bv32)
    ensures Inv32K4(Mul32K4(x)) == x && Mul32K4(Inv32K4(x)) == x
  {
    assert Inv32K4(Mul32K4(x)) == Inv32K4(x * 0x1b873593);
    assert Mul32K4(Inv32K4(x)) == Mul32K4(x * 0x56ed309b);
  }

  lemma Mul64K4Inverse(x: bv64)
    ensures Inv64K4(Mul64K4(x)) == x && Mul64K4(Inv64K4(x)) == x
  {
    assert Inv64K4(Mul64K4(x)) == Inv64K4(x * 0x1b873593);
    assert Mul64K4(Inv64K4(x)) == Mul64K4(x * 0x9f37233e56ed309b);
  }

  // ----- the shared pipeline -----

  /** `size - 1` in size_t arithmetic, which wraps to 2^64 - 1 at size == 0. */
  function SizeMinusOne(size: nat): nat
    requires size < TWO_64
  {
    if size == 0 then TWO_64 - 1 else size - 1
  }

  /** chunks, the loop bound: size - 1 with the bits of c - 1 cleared, for a
      block size c that is a power of two. Clearing the low bits rounds down to
      a multiple of c (the lemmas ClearLowBits2, ClearLowBits3 and
      ClearLowBits4 state this of the size_t mask). */
  function Chunks(size: nat, c: nat): nat
    requires size < TWO_64 && 0 < c
  {
    SizeMinusOne(size) - SizeMinusOne(size) % c
  }

  /** For size >= 1, chunks is c times floor((size - 1) / c), so the block loop
      (i from 0 in steps of c while below chunks) runs floor((size - 1) / c) times, and
      every block it would read, if the pointer moved, lies inside [0, size - 1).
      For size == 0 the bound wraps to 2^64 - c. */
  lemma ChunksCount(size: nat, c: nat)
    requires size < TWO_64 && 0 < c
    ensures size >= 1 ==> Chunks(size, c) == c * ((size - 1) / c)
    ensures size >= 1 ==> Chunks(size, c) <= size - 1 < Chunks(size, c) + c
    ensures size == 0 && c in {4, 8, 16} ==> Chunks(size, c) == TWO_64 - c
  {
    if size >= 1 {
      var m := size - 1;
      assert m == c * (m / c) + m % c;
    }
  }

  /** The size_t masks of the three hashes clear the low 2, 3 and 4 bits, which
      is subtracting the remainder modulo 4, 8 and 16. */
  lemma ClearLowBits2(m: bv64)
    ensures m & !3 == m - m % 4
  {
  }

  lemma ClearLowBits3(m: bv64)
    ensures m & !7 == m - m % 8
  {
  }

  lemma ClearLowBits4(m: bv64)
    ensures m & !15 == m - m % 16
  {
  }

  /** The zero-initialised `char tail[c]` once memcpy has filled it: the input
      followed by zeros when it is shorter than c, its last c bytes otherwise. */
  function Tail(input: seq<byte>, c: nat): (t: seq<byte>)
    ensures |t| == c
  {
    if |input| < c then input + seq(c - |input|, _ => 0) else input[|input| - c..]
  }

  /** The bytes of the tail: byte k is input byte k, or zero past the end of a
      short input; for a long input byte k is input byte size - c + k. */
  lemma TailBytes(input: seq<byte>, c: nat, k: nat)
    requires k < c
    ensures |input| < c && k < |input| ==> Tail(input, c)[k] == input[k]
    ensures |input| < c && k >= |input| ==> Tail(input, c)[k] == 0
    ensures |input| >= c ==> Tail(input, c)[k] == input[|input| - c + k]
  {
  }

  /** Inputs of equal length that end in the same c bytes have the same tail;
      so do equal inputs shorter than c. */
  lemma TailOfSameEnd(a: seq<byte>, b: seq<byte>, c: nat)
    requires |a| == |b|
    requires |a| < c ==> a == b
    requires |a| >= c ==> a[|a| - c..] == b[|b| - c..]
    ensures Tail(a, c) == Tail(b, c)
  {
  }

  /** Two inputs that agree on their first k + c bytes agree on the first k
      and on the c after them. */
  lemma PrefixSplits(a: seq<byte>, b: seq<byte>, k: nat, c: nat)
    requires k + c <= |a| && k + c <= |b| && a[..k + c] == b[..k + c]
    ensures a[..k] == b[..k] && a[k..k + c] == b[k..k + c]
  {
    assert a[..k] == a[..k + c][..k] && b[..k] == b[..k + c][..k];
    assert a[k..k + c] == a[..k + c][k..] && b[k..k + c] == b[..k + c][k..];
  }

  /** The memcpy calls that fill the zeroed tail buffer: `size` bytes from the
      start when size < c, else the c bytes starting at size - c. Every byte
      read lies in [0, size). */
  method TailBuffer(bytes: array<byte>, size: nat, c: nat) returns (tail: array<byte>)
    requires size <= bytes.Length
    ensures fresh(tail)
    ensures tail[..] == Tail(old(bytes[..size]), c)
  {
    tail := new byte[c](_ => 0);
    if size < c {
      Memcpy(tail, bytes, 0, size);
      assert tail[..] == tail[..size] + tail[size..];
    } else {
      Memcpy(tail, bytes, size - c, c);
      assert tail[..] == tail[..c];
    }
  }

  // ----- piHash32 -----

  const SEED32 := Lanes32(0x297bfef9, 0x0c240623, 0x39527119, 0x09bc0863)

  /** One step of piHash32 on the four fetched bytes c0..c3 at position pos:
      the four lane updates, then PIHASH_PERMUTE32. The C expressions are
      evaluated in size_t and stored back into uint32_t, which keeps the low
      32 bits of each, so 32-bit arithmetic computes them. */
  function Absorb32(l: Lanes32, c0: bv32, c1: bv32, c2: bv32, c3: bv32, pos: bv32): Lanes32
  {
    var w := Xor32(l.w, Mul32K1(Add32(RotR32(c0, 11), Mul32(pos, l.w))));
    var x := Add32(l.x, Mul32K2(Add32(RotL32(c1, 17), Mul32(w, l.x))));
    var y := Add32(l.y, Mul32K3(Add32(RotR32(c2, 3), Mul32(x, l.y))));
    var z := Xor32(l.z, Mul32K4(Add32(RotR32(c3, 23), Mul32(y, l.z))));
    Permute32(Lanes32(w, x, y, z))
  }


  /** The lanes after n iterations of piHash32's block loop, each fetching
      the same four fetched bytes c0..c3 (bytes 0..3 of the input). Iteration
      k runs with i == 4k. */
  function Blocks32(c0: bv32, c1: bv32, c2: bv32, c3: bv32, n: nat): Lanes32
  {
    if n == 0 then SEED32 else Absorb32(Blocks32(c0, c1, c2, c3, n - 1), c0, c1, c2, c3, Trunc32(4 * (n - 1)))
  }

  /** Iteration k of the block loop, the one with i == 4k. */
  lemma Blocks32Step(c0: bv32, c1: bv32, c2: bv32, c3: bv32, k: nat, l: Lanes32, pos: bv32)
    requires l == Blocks32(c0, c1, c2, c3, k) && pos == Trunc32(4 * k)
    ensures Blocks32(c0, c1, c2, c3, k + 1) == Absorb32(l, c0, c1, c2, c3, pos)
  {
  }

  /** The lanes when piHash32's block loop ends: floor((size - 1) / 4)
      iterations, none for an input of at most 4 bytes. */
  function Loop32(input: seq<byte>, signedChar: bool): Lanes32
    requires 1 <= |input|
  {
    var n := (|input| - 1) / 4;
    if n == 0 then SEED32 else Blocks32(Fetch8(input, 0, signedChar), Fetch8(input, 1, signedChar), Fetch8(input, 2, signedChar), Fetch8(input, 3, signedChar), n)
  }

  /** The body of piHash32's block loop at i == 4j. */
  method Blocks32Next(input: seq<byte>, signedChar: bool, ghost j: nat, l: Lanes32, i: nat) returns (l': Lanes32)
    requires 4 <= |input| && i == 4 * j
    requires l == Blocks32(Fetch8(input, 0, signedChar), Fetch8(input, 1, signedChar), Fetch8(input, 2, signedChar), Fetch8(input, 3, signedChar), j)
    ensures l' == Blocks32(Fetch8(input, 0, signedChar), Fetch8(input, 1, signedChar), Fetch8(input, 2, signedChar), Fetch8(input, 3, signedChar), j + 1)
  {
    Blocks32Step(Fetch8(input, 0, signedChar), Fetch8(input, 1, signedChar), Fetch8(input, 2, signedChar), Fetch8(input, 3, signedChar), j, l, Trunc32(i));
    l' := Absorb32(l, Fetch8(input, 0, signedChar), Fetch8(input, 1, signedChar), Fetch8(input, 2, signedChar), Fetch8(input, 3, signedChar), Trunc32(i));
  }

  /** The block loop of piHash32: i from 0 in steps of 4 while below chunks. */
  method BlockLoop32(input: seq<byte>, signedChar: bool) returns (l: Lanes32)
    requires 1 <= |input| < TWO_64
    ensures l == Loop32(input, signedChar)
  {
    l := SEED32;
    var chunks := Chunks(|input|, 4);
    ChunksCount(|input|, 4);
    ghost var n := (|input| - 1) / 4;
    var i := 0;
    ghost var j := 0;
    while i < chunks
      invariant chunks == 4 * n && i == 4 * j && j <= n
      invariant j == 0 ==> l == SEED32
      invariant j > 0 ==> l == Blocks32(Fetch8(input, 0, signedChar), Fetch8(input, 1, signedChar), Fetch8(input, 2, signedChar), Fetch8(input, 3, signedChar), j)
      decreases chunks - i
    {
      l := Blocks32Next(input, signedChar, j, l, i);
      i := i + 4;
      j := j + 1;
    }
    assert j == n;
  }

  /** Inputs of the same size that agree on their first 4 bytes leave the
      block loop with the same lanes. */
  lemma Loop32OfSameFirst(a: seq<byte>, b: seq<byte>, signedChar: bool)
    requires 1 <= |a| == |b| < TWO_64
    requires |a| > 4 ==> a[..4] == b[..4]
    ensures Loop32(a, signedChar) == Loop32(b, signedChar)
  {
    assert (|a| - 1) / 4 == (|b| - 1) / 4;
    if |a| > 4 {
      assert forall k | 0 <= k < 4 :: a[k] == a[..4][k] && b[k] == b[..4][k];
      assert Fetch8(a, 0, signedChar) == Fetch8(b, 0, signedChar) && Fetch8(a, 1, signedChar) == Fetch8(b, 1, signedChar);
      assert Fetch8(a, 2, signedChar) == Fetch8(b, 2, signedChar) && Fetch8(a, 3, signedChar) == Fetch8(b, 3, signedChar);
    }
  }

  /** The tail step of piHash32: Absorb32 on the four tail bytes, at position
      `size` where the block loop used `i`. */
  function TailStep32(l: Lanes32, t: seq<byte>, size: nat, signedChar: bool): Lanes32
    requires |t| == 4
  {
    Absorb32(l, Fetch8(t, 0, signedChar), Fetch8(t, 1, signedChar),
             Fetch8(t, 2, signedChar), Fetch8(t, 3, signedChar), Trunc32(size))
  }

  /** The cross-mix of piHash32: w takes its sum with x, less y, xor z, and
      then x loses w, y is xor-ed with w and z gains w. */
  function CrossMix32(l: Lanes32): Lanes32
  {
    var w := Xor32(Sub32(Add32(l.w, l.x), l.y), l.z);
    Lanes32(w, Sub32(l.x, w), Xor32(l.y, w), Add32(l.z, w))
  }

  /** The cross-mix undone: the new w recovers x, y and z, and they recover
      the old w. */
  function UnCrossMix32(m: Lanes32): Lanes32
  {
    var x := Add32(m.x, m.w);
    var y := Xor32(m.y, m.w);
    var z := Sub32(m.z, m.w);
    Lanes32(Sub32(Add32(Xor32(m.w, z), y), x), x, y, z)
  }

  /** The cross-mix loses nothing: UnCrossMix32 recovers its input. */
  lemma CrossMix32Invertible(l: Lanes32)
    ensures UnCrossMix32(CrossMix32(l)) == l
  {
    var s := Add32(l.w, l.x);
    var d := Sub32(s, l.y);
    var w := Xor32(d, l.z);
    SubAddCancel32(l.x, w);
    XorCancel32(l.y, w);
    SubAddCancel32(l.z, w);
    XorCancel32(d, l.z);
    SubAddCancel32(s, l.y);
    SubAddCancel32(l.w, l.x);
  }

  /** Every lane quadruple is the cross-mix of its UnCrossMix32. */
  lemma CrossMix32Onto(m: Lanes32)
    ensures CrossMix32(UnCrossMix32(m)) == m
  {
    var x := Add32(m.x, m.w);
    var y := Xor32(m.y, m.w);
    var z := Sub32(m.z, m.w);
    var e := Xor32(m.w, z);
    var s := Add32(e, y);
    SubAddCancel32(s, x);
    SubAddCancel32(e, y);
    XorCancel32(m.w, z);
    SubAddCancel32(m.x, m.w);
    XorCancel32(m.y, m.w);
    SubAddCancel32(m.z, m.w);
  }

  /** The chained finalisation of piHash32: each lane gains its own mix32
      and, from x on, the lane finalised before it; the hash is the xor of
      the four. */
  function Fold32(l: Lanes32): bv32
  {
    var w := l.w + Mix32(l.w);
    var x := l.x + (Mix32(l.x) + w);
    var y := l.y + (Mix32(l.y) + x);
    var z := l.z + (Mix32(l.z) + y);
    w ^ x ^ y ^ z
  }

  /** piHash32 of a non-empty input, as a function of its bytes. */
  function Hash32(input: seq<byte>, signedChar: bool): bv32
    requires 1 <= |input| < TWO_64
  {
    Fold32(CrossMix32(TailStep32(Loop32(input, signedChar), Tail(input, 4), |input|, signedChar)))
  }

  /** piHash32(bytes, size). */
  method PiHash32(bytes: array<byte>, size: nat, signedChar: bool) returns (hash: bv32)
    requires 1 <= size <= bytes.Length && size < TWO_64
    ensures hash == Hash32(old(bytes[..size]), signedChar)
  {
    var input := bytes[..size];
    var l := BlockLoop32(input, signedChar);
    var tail := TailBuffer(bytes, size, 4);
    l := TailStep32(l, tail[..], |input|, signedChar);
    l := CrossMix32(l);
    hash := Fold32(l);
  }

  /** Because `bytes` is never advanced, piHash32 reads only the first four
      and the last four bytes of its input: two inputs of the same size that
      agree there have the same hash. */
  lemma Hash32OfSameEnds(a: seq<byte>, b: seq<byte>, signedChar: bool)
    requires 1 <= |a| == |b| < TWO_64
    requires |a| < 4 ==> a == b
    requires |a| >= 4 ==> a[..4] == b[..4] && a[|a| - 4..] == b[|b| - 4..]
    ensures Hash32(a, signedChar) == Hash32(b, signedChar)
  {
    Loop32OfSameFirst(a, b, signedChar);
    TailOfSameEnd(a, b, 4);
  }

  /** So a byte strictly between the first 4 and the last 4 bytes never
      reaches the hash. */
  lemma Hash32IgnoresMiddle(a: seq<byte>, k: nat, v: byte, signedChar: bool)
    requires 4 <= k < |a| - 4 && |a| < TWO_64
    ensures Hash32(a[k := v], signedChar) == Hash32(a, signedChar)
  {
    var b := a[k := v];
    assert a[..4] == b[..4];
    assert a[|a| - 4..] == b[|b| - 4..];
    Hash32OfSameEnds(b, a, signedChar);
  }

  // ----- piHash32 with an advancing block pointer -----

  /** The four fetched words of one piHash32 step, recovered from the lanes
      before the step and after it: each lane update is undone in turn, w
      first, since each later update used the new value of the lane before. */
  function UnAbsorb32(l: Lanes32, pos: bv32, m: Lanes32): (bv32, bv32, bv32, bv32)
  {
    var w, x, y, z := m.w, m.z, m.x, m.y;
    (RotL32(Sub32(Inv32K1(Xor32(w, l.w)), Mul32(pos, l.w)), 11),
     RotR32(Sub32(Inv32K2(Sub32(x, l.x)), Mul32(w, l.x)), 17),
     RotL32(Sub32(Inv32K3(Sub32(y, l.y)), Mul32(x, l.y)), 3),
     RotL32(Sub32(Inv32K4(Xor32(z, l.z)), Mul32(y, l.z)), 23))
  }

  /** One step loses nothing of the block: UnAbsorb32 recovers its four
      fetched words. */
  lemma Absorb32Invertible(l: Lanes32, c0: bv32, c1: bv32, c2: bv32, c3: bv32, pos: bv32)
    ensures UnAbsorb32(l, pos, Absorb32(l, c0, c1, c2, c3, pos)) == (c0, c1, c2, c3)
  {
    var tw := Add32(RotR32(c0, 11), Mul32(pos, l.w));
    var w := Xor32(l.w, Mul32K1(tw));
    var tx := Add32(RotL32(c1, 17), Mul32(w, l.x));
    var x := Add32(l.x, Mul32K2(tx));
    var ty := Add32(RotR32(c2, 3), Mul32(x, l.y));
    var y := Add32(l.y, Mul32K3(ty));
    var tz := Add32(RotR32(c3, 23), Mul32(y, l.z));
    XorCancelLeft32(l.w, Mul32K1(tw));
    Mul32K1Inverse(tw);
    SubAddCancel32(RotR32(c0, 11), Mul32(pos, l.w));
    RotR32By11Inverse(c0);
    AddCancelLeft32(l.x, Mul32K2(tx));
    Mul32K2Inverse(tx);
    SubAddCancel32(RotL32(c1, 17), Mul32(w, l.x));
    RotL32By17Inverse(c1);
    AddCancelLeft32(l.y, Mul32K3(ty));
    Mul32K3Inverse(ty);
    SubAddCancel32(RotR32(c2, 3), Mul32(x, l.y));
    RotR32By3Inverse(c2);
    XorCancelLeft32(l.z, Mul32K4(tz));
    Mul32K4Inverse(tz);
    SubAddCancel32(RotR32(c3, 23), Mul32(y, l.z));
    RotR32By23Inverse(c3);
  }

  /** So from the same lanes at the same position, two blocks leave the same
      lanes exactly when their fetched words are the same. */
  lemma Absorb32Injective(l: Lanes32, pos: bv32, c0: bv32, c1: bv32, c2: bv32, c3: bv32,
                          d0: bv32, d1: bv32, d2: bv32, d3: bv32)
    ensures Absorb32(l, c0, c1, c2, c3, pos) == Absorb32(l, d0, d1, d2, d3, pos)
        <==> (c0, c1, c2, c3) == (d0, d1, d2, d3)
  {
    var m := Absorb32(l, c0, c1, c2, c3, pos);
    var m' := Absorb32(l, d0, d1, d2, d3, pos);
    Absorb32Invertible(l, c0, c1, c2, c3, pos);
    Absorb32Invertible(l, d0, d1, d2, d3, pos);
    if m == m' {
      assert UnAbsorb32(l, pos, m) == UnAbsorb32(l, pos, m');
    }
  }

  /** The lanes after n iterations of piHash32's block loop had it moved
      `bytes` on by four in each, as its comment describes: iteration k
      fetches bytes 4k to 4k + 3. */
  function BlocksAdvancing32(input: seq<byte>, signedChar: bool, n: nat): Lanes32
    requires 4 * n <= |input|
  {
    if n == 0 then SEED32
    else
      var k := 4 * (n - 1);
      Absorb32(BlocksAdvancing32(input, signedChar, n - 1),
               Fetch8(input, k, signedChar), Fetch8(input, k + 1, signedChar),
               Fetch8(input, k + 2, signedChar), Fetch8(input, k + 3, signedChar), Trunc32(k))
  }

  /** piHash32 with the advancing block loop. */
  function Hash32Advancing(input: seq<byte>, signedChar: bool): bv32
    requires 1 <= |input| < TWO_64
  {
    var n := (|input| - 1) / 4;
    Fold32(CrossMix32(TailStep32(BlocksAdvancing32(input, signedChar, n), Tail(input, 4), |input|, signedChar)))
  }

  /** Iteration j of the advancing loop fetches block j. */
  lemma BlocksAdvancing32Step(input: seq<byte>, signedChar: bool, j: nat)
    requires 4 * j + 4 <= |input|
    ensures BlocksAdvancing32(input, signedChar, j + 1)
         == Absorb32(BlocksAdvancing32(input, signedChar, j),
                     Fetch8(input, 4 * j, signedChar), Fetch8(input, 4 * j + 1, signedChar),
                     Fetch8(input, 4 * j + 2, signedChar), Fetch8(input, 4 * j + 3, signedChar), Trunc32(4 * j))
  {
  }

  lemma BlocksAdvancing32One(input: seq<byte>, signedChar: bool)
    requires 4 <= |input|
    ensures BlocksAdvancing32(input, signedChar, 1)
         == Absorb32(SEED32, Fetch8(input, 0, signedChar), Fetch8(input, 1, signedChar),
                     Fetch8(input, 2, signedChar), Fetch8(input, 3, signedChar), Trunc32(0))
  {
  }

  lemma Blocks32One(c0: bv32, c1: bv32, c2: bv32, c3: bv32)
    ensures Blocks32(c0, c1, c2, c3, 1) == Absorb32(SEED32, c0, c1, c2, c3, Trunc32(0))
  {
  }

  /** The two loops part only after the first block: up to eight input bytes
      the loop as written and the advancing loop leave the same lanes, */
  lemma Loop32AdvancingOfShort(input: seq<byte>, signedChar: bool)
    requires 1 <= |input| <= 8
    ensures BlocksAdvancing32(input, signedChar, (|input| - 1) / 4) == Loop32(input, signedChar)
  {
    if (|input| - 1) / 4 == 1 {
      BlocksAdvancing32One(input, signedChar);
      Blocks32One(Fetch8(input, 0, signedChar), Fetch8(input, 1, signedChar), Fetch8(input, 2, signedChar),
                  Fetch8(input, 3, signedChar));
    }
  }

  /** and so the same hash. */
  lemma Hash32AdvancingOfShort(input: seq<byte>, signedChar: bool)
    requires 1 <= |input| <= 8
    ensures Hash32Advancing(input, signedChar) == Hash32(input, signedChar)
  {
    Loop32AdvancingOfShort(input, signedChar);
  }

  /** The advancing loop reads only the blocks it has reached. */
  lemma {:induction false} BlocksAdvancing32OfSamePrefix(a: seq<byte>, b: seq<byte>, signedChar: bool, n: nat)
    requires 4 * n <= |a| && 4 * n <= |b| && a[..4 * n] == b[..4 * n]
    ensures BlocksAdvancing32(a, signedChar, n) == BlocksAdvancing32(b, signedChar, n)
  {
    if n > 0 {
      var k := 4 * (n - 1);
      assert a[..k] == a[..4 * n][..k] && b[..k] == b[..4 * n][..k];
      assert a[k] == a[..4 * n][k] && b[k] == b[..4 * n][k];
      assert a[k + 1] == a[..4 * n][k + 1] && b[k + 1] == b[..4 * n][k + 1];
      assert a[k + 2] == a[..4 * n][k + 2] && b[k + 2] == b[..4 * n][k + 2];
      assert a[k + 3] == a[..4 * n][k + 3] && b[k + 3] == b[..4 * n][k + 3];
      BlocksAdvancing32OfSamePrefix(a, b, signedChar, n - 1);
    }
  }

  /** A byte changed inside a block changes the words fetched from it. */
  lemma FetchedBlock32Differs(a: seq<byte>, b: seq<byte>, signedChar: bool, k: nat, i: nat)
    requires k + 4 <= |a| && k + 4 <= |b|
    requires k <= i < k + 4 && a[i] != b[i]
    ensures (Fetch8(a, k, signedChar), Fetch8(a, k + 1, signedChar), Fetch8(a, k + 2, signedChar), Fetch8(a, k + 3, signedChar))
         != (Fetch8(b, k, signedChar), Fetch8(b, k + 1, signedChar), Fetch8(b, k + 2, signedChar), Fetch8(b, k + 3, signedChar))
  {
    Fetch8Injective(a, b, i, signedChar);
  }

  /** With the advancing loop every block reaches the lanes: two inputs that
      agree before block j and differ at a byte i of it leave iteration j with
      different lanes. */
  lemma BlockReachesLanes32(a: seq<byte>, b: seq<byte>, signedChar: bool, j: nat, i: nat)
    requires 4 * j + 4 <= |a| && 4 * j + 4 <= |b| && a[..4 * j] == b[..4 * j]
    requires 4 * j <= i < 4 * j + 4 && a[i] != b[i]
    ensures BlocksAdvancing32(a, signedChar, j + 1) != BlocksAdvancing32(b, signedChar, j + 1)
  {
    var k := 4 * j;
    BlocksAdvancing32OfSamePrefix(a, b, signedChar, j);
    BlocksAdvancing32Step(a, signedChar, j);
    BlocksAdvancing32Step(b, signedChar, j);
    FetchedBlock32Differs(a, b, signedChar, k, i);
    Absorb32Injective(BlocksAdvancing32(a, signedChar, j), Trunc32(k),
                      Fetch8(a, k, signedChar), Fetch8(a, k + 1, signedChar), Fetch8(a, k + 2, signedChar), Fetch8(a, k + 3, signedChar),
                      Fetch8(b, k, signedChar), Fetch8(b, k + 1, signedChar), Fetch8(b, k + 2, signedChar), Fetch8(b, k + 3, signedChar));
  }



  // ----- piHash64 -----

  const SEED64 := Lanes64(0x24e76fbdb, 0x251f30fb9, 0x1218121e1, 0x19403b6e1)

  /** One step of piHash64 on the four fetched 16-bit words c0..c3 at
      position pos: the four lane updates, then PIHASH_PERMUTE64. */
  function Absorb64(l: Lanes64, c0: bv64, c1: bv64, c2: bv64, c3: bv64, pos: bv64): Lanes64
  {
    var w := Xor64(l.w, Mul64K1(Add64(RotR64(c0, 61), Mul64(pos, l.w))));
    var x := Add64(l.x, Mul64K2(Add64(RotL64(c1, 16), Mul64(w, l.x))));
    var y := Add64(l.y, Mul64K3(Add64(RotR64(c2, 13), Mul64(x, l.y))));
    var z := Xor64(l.z, Mul64K4(Add64(RotR64(c3, 19), Mul64(y, l.z))));
    Permute64(Lanes64(w, x, y, z))
  }


  /** The lanes after n iterations of piHash64's block loop, each fetching
      the same four 16-bit words c0..c3 (bytes 0..7 of the input). Iteration
      k runs with i == 8k. */
  function Blocks64(c0: bv64, c1: bv64, c2: bv64, c3: bv64, n: nat): Lanes64
  {
    if n == 0 then SEED64 else Absorb64(Blocks64(c0, c1, c2, c3, n - 1), c0, c1, c2, c3, Trunc64(8 * (n - 1)))
  }

  /** Iteration k of the block loop, the one with i == 8k. */
  lemma Blocks64Step(c0: bv64, c1: bv64, c2: bv64, c3: bv64, k: nat, l: Lanes64, pos: bv64)
    requires l == Blocks64(c0, c1, c2, c3, k) && pos == Trunc64(8 * k)
    ensures Blocks64(c0, c1, c2, c3, k + 1) == Absorb64(l, c0, c1, c2, c3, pos)
  {
  }

  /** The lanes when piHash64's block loop ends: floor((size - 1) / 8)
      iterations, none for an input of at most 8 bytes. */
  function Loop64(input: seq<byte>): Lanes64
    requires 1 <= |input|
  {
    var n := (|input| - 1) / 8;
    if n == 0 then SEED64 else Blocks64(Fetch16(input, 0), Fetch16(input, 2), Fetch16(input, 4), Fetch16(input, 6), n)
  }

  /** The body of piHash64's block loop at i == 8j. */
  method Blocks64Next(input: seq<byte>, ghost j: nat, l: Lanes64, i: nat) returns (l': Lanes64)
    requires 8 <= |input| && i == 8 * j
    requires l == Blocks64(Fetch16(input, 0), Fetch16(input, 2), Fetch16(input, 4), Fetch16(input, 6), j)
    ensures l' == Blocks64(Fetch16(input, 0), Fetch16(input, 2), Fetch16(input, 4), Fetch16(input, 6), j + 1)
  {
    Blocks64Step(Fetch16(input, 0), Fetch16(input, 2), Fetch16(input, 4), Fetch16(input, 6), j, l, Trunc64(i));
    l' := Absorb64(l, Fetch16(input, 0), Fetch16(input, 2), Fetch16(input, 4), Fetch16(input, 6), Trunc64(i));
  }

  /** The block loop of piHash64: i from 0 in steps of 8 while below chunks. */
  method BlockLoop64(input: seq<byte>) returns (l: Lanes64)
    requires 1 <= |input| < TWO_64
    ensures l == Loop64(input)
  {
    l := SEED64;
    var chunks := Chunks(|input|, 8);
    ChunksCount(|input|, 8);
    ghost var n := (|input| - 1) / 8;
    var i := 0;
    ghost var j := 0;
    while i < chunks
      invariant chunks == 8 * n && i == 8 * j && j <= n
      invariant j == 0 ==> l == SEED64
      invariant j > 0 ==> l == Blocks64(Fetch16(input, 0), Fetch16(input, 2), Fetch16(input, 4), Fetch16(input, 6), j)
      decreases chunks - i
    {
      l := Blocks64Next(input, j, l, i);
      i := i + 8;
      j := j + 1;
    }
    assert j == n;
  }

  /** Inputs of the same size that agree on their first 8 bytes leave the
      block loop with the same lanes. */
  lemma Loop64OfSameFirst(a: seq<byte>, b: seq<byte>)
    requires 1 <= |a| == |b| < TWO_64
    requires |a| > 8 ==> a[..8] == b[..8]
    ensures Loop64(a) == Loop64(b)
  {
    assert (|a| - 1) / 8 == (|b| - 1) / 8;
    if |a| > 8 {
      assert forall k | 0 <= k < 8 :: a[k] == a[..8][k] && b[k] == b[..8][k];
      assert Fetch16(a, 0) == Fetch16(b, 0) && Fetch16(a, 2) == Fetch16(b, 2);
      assert Fetch16(a, 4) == Fetch16(b, 4) && Fetch16(a, 6) == Fetch16(b, 6);
    }
  }

  /** The tail step of piHash64: Absorb64 on the four 16-bit words of the tail,
      at position `size`. */
  function TailStep64(l: Lanes64, t: seq<byte>, size: nat): Lanes64
    requires |t| == 8
  {
    Absorb64(l, Fetch16(t, 0), Fetch16(t, 2), Fetch16(t, 4), Fetch16(t, 6), Trunc64(size))
  }

  /** The cross-mix of piHash64: the same steps as CrossMix32 on 64-bit lanes. */
  function CrossMix64(l: Lanes64): Lanes64
  {
    var w := Xor64(Sub64(Add64(l.w, l.x), l.y), l.z);
    Lanes64(w, Sub64(l.x, w), Xor64(l.y, w), Add64(l.z, w))
  }

  /** The 64-bit cross-mix undone. */
  function UnCrossMix64(m: Lanes64): Lanes64
  {
    var x := Add64(m.x, m.w);
    var y := Xor64(m.y, m.w);
    var z := Sub64(m.z, m.w);
    Lanes64(Sub64(Add64(Xor64(m.w, z), y), x), x, y, z)
  }

  /** UnCrossMix64 recovers the input of the 64-bit cross-mix. */
  lemma CrossMix64Invertible(l: Lanes64)
    ensures UnCrossMix64(CrossMix64(l)) == l
  {
    var s := Add64(l.w, l.x);
    var d := Sub64(s, l.y);
    var w := Xor64(d, l.z);
    SubAddCancel64(l.x, w);
    XorCancel64(l.y, w);
    SubAddCancel64(l.z, w);
    XorCancel64(d, l.z);
    SubAddCancel64(s, l.y);
    SubAddCancel64(l.w, l.x);
  }

  /** Every 64-bit lane quadruple is the cross-mix of its UnCrossMix64. */
  lemma CrossMix64Onto(m: Lanes64)
    ensures CrossMix64(UnCrossMix64(m)) == m
  {
    var x := Add64(m.x, m.w);
    var y := Xor64(m.y, m.w);
    var z := Sub64(m.z, m.w);
    var e := Xor64(m.w, z);
    var s := Add64(e, y);
    SubAddCancel64(s, x);
    SubAddCancel64(e, y);
    XorCancel64(m.w, z);
    SubAddCancel64(m.x, m.w);
    XorCancel64(m.y, m.w);
    SubAddCancel64(m.z, m.w);
  }

  /** The chained finalisation of piHash64 with mix64. */
  function Fold64(l: Lanes64): bv64
  {
    var w := l.w + Mix64(l.w);
    var x := l.x + (Mix64(l.x) + w);
    var y := l.y + (Mix64(l.y) + x);
    var z := l.z + (Mix64(l.z) + y);
    w ^ x ^ y ^ z
  }

  /** piHash64 of a non-empty input, as a function of its bytes. */
  function Hash64(input: seq<byte>): bv64
    requires 1 <= |input| < TWO_64
  {
    Fold64(CrossMix64(TailStep64(Loop64(input), Tail(input, 8), |input|)))
  }

  /** piHash64(bytes, size). */
  method PiHash64(bytes: array<byte>, size: nat) returns (hash: bv64)
    requires 1 <= size <= bytes.Length && size < TWO_64
    ensures hash == Hash64(old(bytes[..size]))
  {
    var input := bytes[..size];
    var l := BlockLoop64(input);
    var tail := TailBuffer(bytes, size, 8);
    l := TailStep64(l, tail[..], |input|);
    l := CrossMix64(l);
    hash := Fold64(l);
  }

  /** piHash64 reads only the first eight and the last eight bytes of its
      input. */
  lemma Hash64OfSameEnds(a: seq<byte>, b: seq<byte>)
    requires 1 <= |a| == |b| < TWO_64
    requires |a| < 8 ==> a == b
    requires |a| >= 8 ==> a[..8] == b[..8] && a[|a| - 8..] == b[|b| - 8..]
    ensures Hash64(a) == Hash64(b)
  {
    Loop64OfSameFirst(a, b);
    TailOfSameEnd(a, b, 8);
  }

  /** So a byte strictly between the first 8 and the last 8 bytes never
      reaches the hash. */
  lemma Hash64IgnoresMiddle(a: seq<byte>, k: nat, v: byte)
    requires 8 <= k < |a| - 8 && |a| < TWO_64
    ensures Hash64(a[k := v]) == Hash64(a)
  {
    var b := a[k := v];
    assert a[..8] == b[..8];
    assert a[|a| - 8..] == b[|b| - 8..];
    Hash64OfSameEnds(b, a);
  }

  // ----- piHash64 with an advancing block pointer -----

  /** The four fetched words of one piHash64 step, recovered from the lanes
      before the step and after it, as UnAbsorb32 does for piHash32. */
  function UnAbsorb64(l: Lanes64, pos: bv64, m: Lanes64): (bv64, bv64, bv64, bv64)
  {
    var w, x, y, z := m.w, m.z, m.x, m.y;
    (RotL64(Sub64(Inv64K1(Xor64(w, l.w)), Mul64(pos, l.w)), 61),
     RotR64(Sub64(Inv64K2(Sub64(x, l.x)), Mul64(w, l.x)), 16),
     RotL64(Sub64(Inv64K3(Sub64(y, l.y)), Mul64(x, l.y)), 13),
     RotL64(Sub64(Inv64K4(Xor64(z, l.z)), Mul64(y, l.z)), 19))
  }

  /** One step loses nothing of the block: UnAbsorb64 recovers its four
      fetched words. */
  lemma Absorb64Invertible(l: Lanes64, c0: bv64, c1: bv64, c2: bv64, c3: bv64, pos: bv64)
    ensures UnAbsorb64(l, pos, Absorb64(l, c0, c1, c2, c3, pos)) == (c0, c1, c2, c3)
  {
    var tw := Add64(RotR64(c0, 61), Mul64(pos, l.w));
    var w := Xor64(l.w, Mul64K1(tw));
    var tx := Add64(RotL64(c1, 16), Mul64(w, l.x));
    var x := Add64(l.x, Mul64K2(tx));
    var ty := Add64(RotR64(c2, 13), Mul64(x, l.y));
    var y := Add64(l.y, Mul64K3(ty));
    var tz := Add64(RotR64(c3, 19), Mul64(y, l.z));
    XorCancelLeft64(l.w, Mul64K1(tw));
    Mul64K1Inverse(tw);
    SubAddCancel64(RotR64(c0, 61), Mul64(pos, l.w));
    RotR64By61Inverse(c0);
    AddCancelLeft64(l.x, Mul64K2(tx));
    Mul64K2Inverse(tx);
    SubAddCancel64(RotL64(c1, 16), Mul64(w, l.x));
    RotL64By16Inverse(c1);
    AddCancelLeft64(l.y, Mul64K3(ty));
    Mul64K3Inverse(ty);
    SubAddCancel64(RotR64(c2, 13), Mul64(x, l.y));
    RotR64By13Inverse(c2);
    XorCancelLeft64(l.z, Mul64K4(tz));
    Mul64K4Inverse(tz);
    SubAddCancel64(RotR64(c3, 19), Mul64(y, l.z));
    RotR64By19Inverse(c3);
  }

  /** From the same lanes at the same position, two blocks leave the same
      lanes exactly when their fetched words are the same. */
  lemma Absorb64Injective(l: Lanes64, pos: bv64, c0: bv64, c1: bv64, c2: bv64, c3: bv64,
                          d0: bv64, d1: bv64, d2: bv64, d3: bv64)
    ensures Absorb64(l, c0, c1, c2, c3, pos) == Absorb64(l, d0, d1, d2, d3, pos)
        <==> (c0, c1, c2, c3) == (d0, d1, d2, d3)
  {
    var m := Absorb64(l, c0, c1, c2, c3, pos);
    var m' := Absorb64(l, d0, d1, d2, d3, pos);
    Absorb64Invertible(l, c0, c1, c2, c3, pos);
    Absorb64Invertible(l, d0, d1, d2, d3, pos);
    if m == m' {
      assert UnAbsorb64(l, pos, m) == UnAbsorb64(l, pos, m');
    }
  }

  /** The lanes after n iterations of piHash64's block loop had it moved
      `bytes` on by eight in each: iteration k fetches bytes 8k to 8k + 7. */
  function BlocksAdvancing64(input: seq<byte>, n: nat): Lanes64
    requires 8 * n <= |input|
  {
    if n == 0 then SEED64
    else
      var k := 8 * (n - 1);
      Absorb64(BlocksAdvancing64(input, n - 1),
               Fetch16(input, k), Fetch16(input, k + 2), Fetch16(input, k + 4), Fetch16(input, k + 6), Trunc64(k))
  }

  /** piHash64 with the advancing block loop. */
  function Hash64Advancing(input: seq<byte>): bv64
    requires 1 <= |input| < TWO_64
  {
    var n := (|input| - 1) / 8;
    Fold64(CrossMix64(TailStep64(BlocksAdvancing64(input, n), Tail(input, 8), |input|)))
  }

  /** Iteration j of the advancing loop fetches block j. */
  lemma BlocksAdvancing64Step(input: seq<byte>, j: nat)
    requires 8 * j + 8 <= |input|
    ensures BlocksAdvancing64(input, j + 1)
         == Absorb64(BlocksAdvancing64(input, j), Fetch16(input, 8 * j), Fetch16(input, 8 * j + 2),
                     Fetch16(input, 8 * j + 4), Fetch16(input, 8 * j + 6), Trunc64(8 * j))
  {
  }

  lemma BlocksAdvancing64One(input: seq<byte>)
    requires 8 <= |input|
    ensures BlocksAdvancing64(input, 1)
         == Absorb64(SEED64, Fetch16(input, 0), Fetch16(input, 2), Fetch16(input, 4), Fetch16(input, 6), Trunc64(0))
  {
  }

  lemma Blocks64One(c0: bv64, c1: bv64, c2: bv64, c3: bv64)
    ensures Blocks64(c0, c1, c2, c3, 1) == Absorb64(SEED64, c0, c1, c2, c3, Trunc64(0))
  {
  }

  /** Up to sixteen input bytes the loop as written and the advancing loop
      leave the same lanes, */
  lemma Loop64AdvancingOfShort(input: seq<byte>)
    requires 1 <= |input| <= 16
    ensures BlocksAdvancing64(input, (|input| - 1) / 8) == Loop64(input)
  {
    if (|input| - 1) / 8 == 1 {
      BlocksAdvancing64One(input);
      Blocks64One(Fetch16(input, 0), Fetch16(input, 2), Fetch16(input, 4), Fetch16(input, 6));
    }
  }

  /** and so the same hash. */
  lemma Hash64AdvancingOfShort(input: seq<byte>)
    requires 1 <= |input| <= 16
    ensures Hash64Advancing(input) == Hash64(input)
  {
    Loop64AdvancingOfShort(input);
  }

  /** Two inputs with the same bytes in a block fetch the same words from it. */
  lemma FetchedBlock64OfSameBytes(a: seq<byte>, b: seq<byte>, k: nat)
    requires k + 8 <= |a| && k + 8 <= |b| && a[k..k + 8] == b[k..k + 8]
    ensures Fetch16(a, k) == Fetch16(b, k) && Fetch16(a, k + 2) == Fetch16(b, k + 2) && Fetch16(a, k + 4) == Fetch16(b, k + 4) && Fetch16(a, k + 6) == Fetch16(b, k + 6)
  {
    forall m | k <= m < k + 8
      ensures a[m] == b[m]
    {
      assert a[m] == a[k..k + 8][m - k] && b[m] == b[k..k + 8][m - k];
    }
    Fetch16OfSameBytes(a, b, k);
    Fetch16OfSameBytes(a, b, k + 2);
    Fetch16OfSameBytes(a, b, k + 4);
    Fetch16OfSameBytes(a, b, k + 6);
  }

  /** One step applied to equal lanes and equal words. */
  lemma Absorb64OfSame(l: Lanes64, m: Lanes64, pos: bv64, c0: bv64, c1: bv64, c2: bv64, c3: bv64,
                       d0: bv64, d1: bv64, d2: bv64, d3: bv64)
    requires l == m && c0 == d0 && c1 == d1 && c2 == d2 && c3 == d3
    ensures Absorb64(l, c0, c1, c2, c3, pos) == Absorb64(m, d0, d1, d2, d3, pos)
  {
  }

  /** The advancing loop reads only the blocks it has reached. */
  lemma {:induction false} BlocksAdvancing64OfSamePrefix(a: seq<byte>, b: seq<byte>, n: nat)
    requires 8 * n <= |a| && 8 * n <= |b| && a[..8 * n] == b[..8 * n]
    ensures BlocksAdvancing64(a, n) == BlocksAdvancing64(b, n)
  {
    if n > 0 {
      var k := 8 * (n - 1);
      PrefixSplits(a, b, k, 8);
      FetchedBlock64OfSameBytes(a, b, k);
      BlocksAdvancing64OfSamePrefix(a, b, n - 1);
      BlocksAdvancing64Step(a, n - 1);
      BlocksAdvancing64Step(b, n - 1);
      Absorb64OfSame(BlocksAdvancing64(a, n - 1), BlocksAdvancing64(b, n - 1), Trunc64(k),
                     Fetch16(a, k), Fetch16(a, k + 2), Fetch16(a, k + 4), Fetch16(a, k + 6),
                     Fetch16(b, k), Fetch16(b, k + 2), Fetch16(b, k + 4), Fetch16(b, k + 6));
    }
  }

  /** A byte changed inside a block changes the words fetched from it. */
  lemma FetchedBlock64Differs(a: seq<byte>, b: seq<byte>, k: nat, i: nat)
    requires k + 8 <= |a| && k + 8 <= |b|
    requires k <= i < k + 8 && a[i] != b[i]
    ensures (Fetch16(a, k), Fetch16(a, k + 2), Fetch16(a, k + 4), Fetch16(a, k + 6))
         != (Fetch16(b, k), Fetch16(b, k + 2), Fetch16(b, k + 4), Fetch16(b, k + 6))
  {
    if i < k + 2 {
      Fetch16Differs(a, b, k, i);
    } else if i < k + 4 {
      Fetch16Differs(a, b, k + 2, i);
    } else if i < k + 6 {
      Fetch16Differs(a, b, k + 4, i);
    } else {
      Fetch16Differs(a, b, k + 6, i);
    }
  }

  /** With the advancing loop every block reaches the lanes: two inputs that
      agree before block j and differ at a byte i of it leave iteration j with
      different lanes. */
  lemma BlockReachesLanes64(a: seq<byte>, b: seq<byte>, j: nat, i: nat)
    requires 8 * j + 8 <= |a| && 8 * j + 8 <= |b| && a[..8 * j] == b[..8 * j]
    requires 8 * j <= i < 8 * j + 8 && a[i] != b[i]
    ensures BlocksAdvancing64(a, j + 1) != BlocksAdvancing64(b, j + 1)
  {
    var k := 8 * j;
    BlocksAdvancing64OfSamePrefix(a, b, j);
    BlocksAdvancing64Step(a, j);
    BlocksAdvancing64Step(b, j);
    FetchedBlock64Differs(a, b, k, i);
    Absorb64Injective(BlocksAdvancing64(a, j), Trunc64(k),
                      Fetch16(a, k), Fetch16(a, k + 2), Fetch16(a, k + 4), Fetch16(a, k + 6),
                      Fetch16(b, k), Fetch16(b, k + 2), Fetch16(b, k + 4), Fetch16(b, k + 6));
  }

  // ----- piHash128 -----

  const SEED128 := Lanes32(0x5a44f074, 0x35e820f6, 0x674f1845, 0x7fb5de7f)

  /** One step of piHash128's block loop on the four fetched words c0..c3 at
      position pos: each lane takes the rotated, scaled word plus the xor of
      its sibling with itself (of pos with w for w), then PIHASH_PERMUTE32. */
  function Absorb128(l: Lanes32, c0: bv32, c1: bv32, c2: bv32, c3: bv32, pos: bv32): Lanes32
  {
    var w := Xor32(l.w, Add32(Mul32K1(RotR32(c0, 7)), Xor32(pos, l.w)));
    var x := Add32(l.x, Add32(Mul32K4(RotL32(c1, 19)), Xor32(w, l.x)));
    var y := Add32(l.y, Add32(Mul32K3(RotR32(c2, 13)), Xor32(x, l.y)));
    var z := Xor32(l.z, Add32(Mul32K2(RotR32(c3, 11)), Xor32(y, l.z)));
    Permute32(Lanes32(w, x, y, z))
  }


  /** The lanes after n iterations of piHash128's block loop, each fetching
      the same four 32-bit words c0..c3 (bytes 0..15 of the input). Iteration
      k runs with i == 16k. */
  function Blocks128(c0: bv32, c1: bv32, c2: bv32, c3: bv32, n: nat): Lanes32
  {
    if n == 0 then SEED128 else Absorb128(Blocks128(c0, c1, c2, c3, n - 1), c0, c1, c2, c3, Trunc32(16 * (n - 1)))
  }

  /** Iteration k of the block loop, the one with i == 16k. */
  lemma Blocks128Step(c0: bv32, c1: bv32, c2: bv32, c3: bv32, k: nat, l: Lanes32, pos: bv32)
    requires l == Blocks128(c0, c1, c2, c3, k) && pos == Trunc32(16 * k)
    ensures Blocks128(c0, c1, c2, c3, k + 1) == Absorb128(l, c0, c1, c2, c3, pos)
  {
  }

  /** The lanes when piHash128's block loop ends: floor((size - 1) / 16)
      iterations, none for an input of at most 16 bytes. */
  function Loop128(input: seq<byte>): Lanes32
    requires 1 <= |input|
  {
    var n := (|input| - 1) / 16;
    if n == 0 then SEED128 else Blocks128(Fetch32(input, 0), Fetch32(input, 4), Fetch32(input, 8), Fetch32(input, 12), n)
  }

  /** The body of piHash128's block loop at i == 16j. */
  method Blocks128Next(input: seq<byte>, ghost j: nat, l: Lanes32, i: nat) returns (l': Lanes32)
    requires 16 <= |input| && i == 16 * j
    requires l == Blocks128(Fetch32(input, 0), Fetch32(input, 4), Fetch32(input, 8), Fetch32(input, 12), j)
    ensures l' == Blocks128(Fetch32(input, 0), Fetch32(input, 4), Fetch32(input, 8), Fetch32(input, 12), j + 1)
  {
    Blocks128Step(Fetch32(input, 0), Fetch32(input, 4), Fetch32(input, 8), Fetch32(input, 12), j, l, Trunc32(i));
    l' := Absorb128(l, Fetch32(input, 0), Fetch32(input, 4), Fetch32(input, 8), Fetch32(input, 12), Trunc32(i));
  }

  /** The block loop of piHash128: i from 0 in steps of 16 while below chunks. */
  method BlockLoop128(input: seq<byte>) returns (l: Lanes32)
    requires 1 <= |input| < TWO_64
    ensures l == Loop128(input)
  {
    l := SEED128;
    var chunks := Chunks(|input|, 16);
    ChunksCount(|input|, 16);
    ghost var n := (|input| - 1) / 16;
    var i := 0;
    ghost var j := 0;
    while i < chunks
      invariant chunks == 16 * n && i == 16 * j && j <= n
      invariant j == 0 ==> l == SEED128
      invariant j > 0 ==> l == Blocks128(Fetch32(input, 0), Fetch32(input, 4), Fetch32(input, 8), Fetch32(input, 12), j)
      decreases chunks - i
    {
      l := Blocks128Next(input, j, l, i);
      i := i + 16;
      j := j + 1;
    }
    assert j == n;
  }

  /** Inputs of the same size that agree on their first 16 bytes leave the
      block loop with the same lanes. */
  lemma Loop128OfSameFirst(a: seq<byte>, b: seq<byte>)
    requires 1 <= |a| == |b| < TWO_64
    requires |a| > 16 ==> a[..16] == b[..16]
    ensures Loop128(a) == Loop128(b)
  {
    assert (|a| - 1) / 16 == (|b| - 1) / 16;
    if |a| > 16 {
      assert forall k | 0 <= k < 16 :: a[k] == a[..16][k] && b[k] == b[..16][k];
      assert Fetch32(a, 0) == Fetch32(b, 0) && Fetch32(a, 4) == Fetch32(b, 4);
      assert Fetch32(a, 8) == Fetch32(b, 8) && Fetch32(a, 12) == Fetch32(b, 12);
    }
  }

  /** The tail step of piHash128: the rotated tail words scaled by the four
      constants in another order, with no position and no sibling term. */
  function TailStep128(l: Lanes32, t: seq<byte>): Lanes32
    requires |t| == 16
  {
    var w := l.w ^ (RotR32(Fetch32(t, 0), 7) * 0x0356ac85);
    var x := l.x + (RotL32(Fetch32(t, 4), 19) * 0x0f7527d9);
    var y := l.y + (RotR32(Fetch32(t, 8), 13) * 0x1b873593);
    var z := l.z ^ (RotR32(Fetch32(t, 12), 11) * 0x21914047);
    Permute32(Lanes32(w, x, y, z))
  }

  /** The lanes piHash128 finalises: cross-mixed after the tail step. */
  function Lanes128(input: seq<byte>): Lanes32
    requires 1 <= |input| < TWO_64
  {
    CrossMix32(TailStep128(Loop128(input), Tail(input, 16)))
  }

  /** One word of piHash128's output: the mixed lane plus the word before it
      (plus `size` for the first). */
  function Link128(lane: bv32, prev: bv32): bv32
  {
    Mix32(lane) + prev
  }

  /** The four output words: hash[0] is mix32 of w plus the size truncated to
      32 bits, and each later word is mix32 of its lane plus the word before. */
  function Final128(l: Lanes32, size: nat): (h: seq<bv32>)
    ensures |h| == 4
  {
    var w := Link128(l.w, Trunc32(size));
    var x := Link128(l.x, w);
    var y := Link128(l.y, x);
    var z := Link128(l.z, y);
    [w, x, y, z]
  }

  /** The four words piHash128 writes for a non-empty input. */
  function Hash128(input: seq<byte>): (h: seq<bv32>)
    requires 1 <= |input| < TWO_64
    ensures |h| == 4
  {
    Final128(Lanes128(input), |input|)
  }

  /** The last four statements of piHash128 and the stores into hash[0..3]. */
  method Finalise128(l: Lanes32, size: nat, hash: array<bv32>)
    requires 4 <= hash.Length
    modifies hash
    ensures hash[..4] == Final128(l, size)
    ensures hash[4..] == old(hash[4..])
  {
    hash[0] := Link128(l.w, Trunc32(size));
    hash[1] := Link128(l.x, hash[0]);
    hash[2] := Link128(l.y, hash[1]);
    hash[3] := Link128(l.z, hash[2]);
  }

  /** piHash128(bytes, size, hash): writes hash[0..3] and nothing else. */
  method PiHash128(bytes: array<byte>, size: nat, hash: array<bv32>)
    requires 1 <= size <= bytes.Length && size < TWO_64
    requires 4 <= hash.Length
    modifies hash
    ensures hash[..4] == Hash128(old(bytes[..size]))
    ensures hash[4..] == old(hash[4..])
  {
    var input := bytes[..size];
    var l := BlockLoop128(input);
    var tail := TailBuffer(bytes, size, 16);
    l := TailStep128(l, tail[..]);
    l := CrossMix32(l);
    Finalise128(l, |input|, hash);
  }

  /** piHash128 reads only the first sixteen and the last sixteen bytes of
      its input. */
  lemma Hash128OfSameEnds(a: seq<byte>, b: seq<byte>)
    requires 1 <= |a| == |b| < TWO_64
    requires |a| < 16 ==> a == b
    requires |a| >= 16 ==> a[..16] == b[..16] && a[|a| - 16..] == b[|b| - 16..]
    ensures Hash128(a) == Hash128(b)
  {
    Lanes128OfSameEnds(a, b);
  }

  /** The four lanes before finalisation already agree. */
  lemma Lanes128OfSameEnds(a: seq<byte>, b: seq<byte>)
    requires 1 <= |a| == |b| < TWO_64
    requires |a| < 16 ==> a == b
    requires |a| >= 16 ==> a[..16] == b[..16] && a[|a| - 16..] == b[|b| - 16..]
    ensures Lanes128(a) == Lanes128(b)
  {
    if |a| >= 16 {
      Loop128OfSameFirst(a, b);
      TailOfSameEnd(a, b, 16);
      assert TailStep128(Loop128(a), Tail(a, 16)) == TailStep128(Loop128(b), Tail(b, 16));
    }
  }

  /** So a byte strictly between the first 16 and the last 16 bytes never
      reaches the hash. */
  lemma Hash128IgnoresMiddle(a: seq<byte>, k: nat, v: byte)
    requires 16 <= k < |a| - 16 && |a| < TWO_64
    ensures Hash128(a[k := v]) == Hash128(a)
  {
    var b := a[k := v];
    assert a[..16] == b[..16];
    assert a[|a| - 16..] == b[|b| - 16..];
    Hash128OfSameEnds(b, a);
  }

  // ----- piHash128 with an advancing block pointer -----

  /** The four fetched words of one piHash128 step, recovered from the lanes
      before the step and after it. */
  function UnAbsorb128(l: Lanes32, pos: bv32, m: Lanes32): (bv32, bv32, bv32, bv32)
  {
    var w, x, y, z := m.w, m.z, m.x, m.y;
    (RotL32(Inv32K1(Sub32(Xor32(w, l.w), Xor32(pos, l.w))), 7),
     RotR32(Inv32K4(Sub32(Sub32(x, l.x), Xor32(w, l.x))), 19),
     RotL32(Inv32K3(Sub32(Sub32(y, l.y), Xor32(x, l.y))), 13),
     RotL32(Inv32K2(Sub32(Xor32(z, l.z), Xor32(y, l.z))), 11))
  }

  /** One step loses nothing of the block: UnAbsorb128 recovers its four
      fetched words. */
  lemma Absorb128Invertible(l: Lanes32, c0: bv32, c1: bv32, c2: bv32, c3: bv32, pos: bv32)
    ensures UnAbsorb128(l, pos, Absorb128(l, c0, c1, c2, c3, pos)) == (c0, c1, c2, c3)
  {
    var tw := Add32(Mul32K1(RotR32(c0, 7)), Xor32(pos, l.w));
    var w := Xor32(l.w, tw);
    var tx := Add32(Mul32K4(RotL32(c1, 19)), Xor32(w, l.x));
    var x := Add32(l.x, tx);
    var ty := Add32(Mul32K3(RotR32(c2, 13)), Xor32(x, l.y));
    var y := Add32(l.y, ty);
    var tz := Add32(Mul32K2(RotR32(c3, 11)), Xor32(y, l.z));
    XorCancelLeft32(l.w, tw);
    SubAddCancel32(Mul32K1(RotR32(c0, 7)), Xor32(pos, l.w));
    Mul32K1Inverse(RotR32(c0, 7));
    RotR32By7Inverse(c0);
    AddCancelLeft32(l.x, tx);
    SubAddCancel32(Mul32K4(RotL32(c1, 19)), Xor32(w, l.x));
    Mul32K4Inverse(RotL32(c1, 19));
    RotL32By19Inverse(c1);
    AddCancelLeft32(l.y, ty);
    SubAddCancel32(Mul32K3(RotR32(c2, 13)), Xor32(x, l.y));
    Mul32K3Inverse(RotR32(c2, 13));
    RotR32By13Inverse(c2);
    XorCancelLeft32(l.z, tz);
    SubAddCancel32(Mul32K2(RotR32(c3, 11)), Xor32(y, l.z));
    Mul32K2Inverse(RotR32(c3, 11));
    RotR32By11Inverse(c3);
  }

  /** From the same lanes at the same position, two blocks leave the same
      lanes exactly when their fetched words are the same. */
  lemma Absorb128Injective(l: Lanes32, pos: bv32, c0: bv32, c1: bv32, c2: bv32, c3: bv32,
                           d0: bv32, d1: bv32, d2: bv32, d3: bv32)
    ensures Absorb128(l, c0, c1, c2, c3, pos) == Absorb128(l, d0, d1, d2, d3, pos)
        <==> (c0, c1, c2, c3) == (d0, d1, d2, d3)
  {
    var m := Absorb128(l, c0, c1, c2, c3, pos);
    var m' := Absorb128(l, d0, d1, d2, d3, pos);
    Absorb128Invertible(l, c0, c1, c2, c3, pos);
    Absorb128Invertible(l, d0, d1, d2, d3, pos);
    if m == m' {
      assert UnAbsorb128(l, pos, m) == UnAbsorb128(l, pos, m');
    }
  }

  /** The lanes after n iterations of piHash128's block loop had it moved
      `bytes` on by sixteen in each: iteration k fetches bytes 16k to
      16k + 15. */
  function BlocksAdvancing128(input: seq<byte>, n: nat): Lanes32
    requires 16 * n <= |input|
  {
    if n == 0 then SEED128
    else
      var k := 16 * (n - 1);
      Absorb128(BlocksAdvancing128(input, n - 1),
                Fetch32(input, k), Fetch32(input, k + 4), Fetch32(input, k + 8), Fetch32(input, k + 12), Trunc32(k))
  }

  /** piHash128 with the advancing block loop. */
  function Hash128Advancing(input: seq<byte>): (h: seq<bv32>)
    requires 1 <= |input| < TWO_64
    ensures |h| == 4
  {
    var n := (|input| - 1) / 16;
    Final128(CrossMix32(TailStep128(BlocksAdvancing128(input, n), Tail(input, 16))), |input|)
  }

  /** Iteration j of the advancing loop fetches block j. */
  lemma BlocksAdvancing128Step(input: seq<byte>, j: nat)
    requires 16 * j + 16 <= |input|
    ensures BlocksAdvancing128(input, j + 1)
         == Absorb128(BlocksAdvancing128(input, j), Fetch32(input, 16 * j), Fetch32(input, 16 * j + 4),
                      Fetch32(input, 16 * j + 8), Fetch32(input, 16 * j + 12), Trunc32(16 * j))
  {
  }

  lemma BlocksAdvancing128One(input: seq<byte>)
    requires 16 <= |input|
    ensures BlocksAdvancing128(input, 1)
         == Absorb128(SEED128, Fetch32(input, 0), Fetch32(input, 4), Fetch32(input, 8), Fetch32(input, 12), Trunc32(0))
  {
  }

  lemma Blocks128One(c0: bv32, c1: bv32, c2: bv32, c3: bv32)
    ensures Blocks128(c0, c1, c2, c3, 1) == Absorb128(SEED128, c0, c1, c2, c3, Trunc32(0))
  {
  }

  /** Up to thirty-two input bytes the loop as written and the advancing
      loop leave the same lanes, */
  lemma Loop128AdvancingOfShort(input: seq<byte>)
    requires 1 <= |input| <= 32
    ensures BlocksAdvancing128(input, (|input| - 1) / 16) == Loop128(input)
  {
    if (|input| - 1) / 16 == 1 {
      BlocksAdvancing128One(input);
      Blocks128One(Fetch32(input, 0), Fetch32(input, 4), Fetch32(input, 8), Fetch32(input, 12));
    }
  }

  /** and so the same four words. */
  lemma Hash128AdvancingOfShort(input: seq<byte>)
    requires 1 <= |input| <= 32
    ensures Hash128Advancing(input) == Hash128(input)
  {
    Loop128AdvancingOfShort(input);
  }

  /** Two inputs with the same bytes in a block fetch the same words from it. */
  lemma FetchedBlock128OfSameBytes(a: seq<byte>, b: seq<byte>, k: nat)
    requires k + 16 <= |a| && k + 16 <= |b| && a[k..k + 16] == b[k..k + 16]
    ensures Fetch32(a, k) == Fetch32(b, k) && Fetch32(a, k + 4) == Fetch32(b, k + 4) && Fetch32(a, k + 8) == Fetch32(b, k + 8) && Fetch32(a, k + 12) == Fetch32(b, k + 12)
  {
    forall m | k <= m < k + 16
      ensures a[m] == b[m]
    {
      assert a[m] == a[k..k + 16][m - k] && b[m] == b[k..k + 16][m - k];
    }
    Fetch32OfSameBytes(a, b, k);
    Fetch32OfSameBytes(a, b, k + 4);
    Fetch32OfSameBytes(a, b, k + 8);
    Fetch32OfSameBytes(a, b, k + 12);
  }

  /** One step applied to equal lanes and equal words. */
  lemma Absorb128OfSame(l: Lanes32, m: Lanes32, pos: bv32, c0: bv32, c1: bv32, c2: bv32, c3: bv32,
                        d0: bv32, d1: bv32, d2: bv32, d3: bv32)
    requires l == m && c0 == d0 && c1 == d1 && c2 == d2 && c3 == d3
    ensures Absorb128(l, c0, c1, c2, c3, pos) == Absorb128(m, d0, d1, d2, d3, pos)
  {
  }

  /** The advancing loop reads only the blocks it has reached. */
  lemma {:induction false} BlocksAdvancing128OfSamePrefix(a: seq<byte>, b: seq<byte>, n: nat)
    requires 16 * n <= |a| && 16 * n <= |b| && a[..16 * n] == b[..16 * n]
    ensures BlocksAdvancing128(a, n) == BlocksAdvancing128(b, n)
  {
    if n > 0 {
      var k := 16 * (n - 1);
      PrefixSplits(a, b, k, 16);
      FetchedBlock128OfSameBytes(a, b, k);
      BlocksAdvancing128OfSamePrefix(a, b, n - 1);
      BlocksAdvancing128Step(a, n - 1);
      BlocksAdvancing128Step(b, n - 1);
      Absorb128OfSame(BlocksAdvancing128(a, n - 1), BlocksAdvancing128(b, n - 1), Trunc32(k),
                      Fetch32(a, k), Fetch32(a, k + 4), Fetch32(a, k + 8), Fetch32(a, k + 12),
                      Fetch32(b, k), Fetch32(b, k + 4), Fetch32(b, k + 8), Fetch32(b, k + 12));
    }
  }

  /** A byte changed inside a block changes the words fetched from it. */
  lemma FetchedBlock128Differs(a: seq<byte>, b: seq<byte>, k: nat, i: nat)
    requires k + 16 <= |a| && k + 16 <= |b|
    requires k <= i < k + 16 && a[i] != b[i]
    ensures (Fetch32(a, k), Fetch32(a, k + 4), Fetch32(a, k + 8), Fetch32(a, k + 12))
         != (Fetch32(b, k), Fetch32(b, k + 4), Fetch32(b, k + 8), Fetch32(b, k + 12))
  {
    if i < k + 4 {
      Fetch32Differs(a, b, k, i);
    } else if i < k + 8 {
      Fetch32Differs(a, b, k + 4, i);
    } else if i < k + 12 {
      Fetch32Differs(a, b, k + 8, i);
    } else {
      Fetch32Differs(a, b, k + 12, i);
    }
  }

  /** With the advancing loop every block reaches the lanes: two inputs that
      agree before block j and differ at a byte i of it leave iteration j with
      different lanes. */
  lemma BlockReachesLanes128(a: seq<byte>, b: seq<byte>, j: nat, i: nat)
    requires 16 * j + 16 <= |a| && 16 * j + 16 <= |b| && a[..16 * j] == b[..16 * j]
    requires 16 * j <= i < 16 * j + 16 && a[i] != b[i]
    ensures BlocksAdvancing128(a, j + 1) != BlocksAdvancing128(b, j + 1)
  {
    var k := 16 * j;
    BlocksAdvancing128OfSamePrefix(a, b, j);
    BlocksAdvancing128Step(a, j);
    BlocksAdvancing128Step(b, j);
    FetchedBlock128Differs(a, b, k, i);
    Absorb128Injective(BlocksAdvancing128(a, j), Trunc32(k),
                       Fetch32(a, k), Fetch32(a, k + 4), Fetch32(a, k + 8), Fetch32(a, k + 12),
                       Fetch32(b, k), Fetch32(b, k + 4), Fetch32(b, k + 8), Fetch32(b, k + 12));
  }
}
