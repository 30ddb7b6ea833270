// Word-level helpers shared by the hash engines: rotations, the C conversions
// from size_t to a fixed-width word, and bit counting.

module Bits {

  /** A C `char` or `uint8_t`, as the bit pattern held in memory. */
  type byte = bv8

  const TWO_32: nat := 0x1_0000_0000
  const TWO_64: nat := 0x1_0000_0000_0000_0000

  /** 2^k. */
  function Pow2(k: nat): nat
  {
    if k == 0 then 1 else 2 * Pow2(k - 1)
  }

  lemma {:induction false} Pow2Add(a: nat, b: nat)
    ensures Pow2(a + b) == Pow2(a) * Pow2(b)
  {
    if a > 0 {
      Pow2Add(a - 1, b);
      assert Pow2(a + b) == 2 * Pow2(a - 1 + b);
    }
  }

  lemma Pow2Of32()
    ensures Pow2(32) == TWO_32
  {
    assert Pow2(4) == 16;
    Pow2Add(4, 4);
    Pow2Add(8, 8);
    Pow2Add(16, 16);
  }

  lemma Pow2Of64()
    ensures Pow2(64) == TWO_64
  {
    Pow2Of32();
    Pow2Add(32, 32);
  }

  /** The word whose bits are the k lowest binary digits of n, the lowest
      digit in bit 0. */
  function LowBits32(n: nat, k: nat): bv32
    requires k <= 32
  {
    if k == 0 then 0 else (LowBits32(n / 2, k - 1) << 1) | (if n % 2 == 1 then 1 else 0)
  }

  function LowBits64(n: nat, k: nat): bv64
    requires k <= 64
  {
    if k == 0 then 0 else (LowBits64(n / 2, k - 1) << 1) | (if n % 2 == 1 then 1 else 0)
  }

  /** Conversion of a `size_t` value to `uint32_t`: keeps the low 32 binary
      digits. */
  function Trunc32(n: nat): bv32
  {
    LowBits32(n, 32)
  }

  /** Conversion of a `size_t` value to `uint64_t`: keeps the low 64 binary
      digits, which for a value below 2^64 is all of them. */
  function Trunc64(n: nat): bv64
  {
    LowBits64(n, 64)
  }

  lemma DivMod2(n: nat, q: nat)
    ensures (n + 2 * q) / 2 == n / 2 + q && (n + 2 * q) % 2 == n % 2
  {
  }

  /** One binary digit of n + 2q, and the rest. */
  lemma LowBits32OfSum(n: nat, q: nat, k: nat)
    requires 0 < k <= 32
    ensures LowBits32(n + 2 * q, k) == (LowBits32(n / 2 + q, k - 1) << 1) | (if n % 2 == 1 then 1 else 0)
  {
    DivMod2(n, q);
  }

  /** The k low digits do not change when a multiple of 2^k is added. */
  lemma {:induction false} LowBits32Periodic(n: nat, k: nat)
    requires k <= 32
    ensures LowBits32(n + Pow2(k), k) == LowBits32(n, k)
  {
    if k > 0 {
      LowBits32OfSum(n, Pow2(k - 1), k);
      LowBits32Periodic(n / 2, k - 1);
    }
  }

  /** One binary digit of n + 2q, and the rest. */
  lemma LowBits64OfSum(n: nat, q: nat, k: nat)
    requires 0 < k <= 64
    ensures LowBits64(n + 2 * q, k) == (LowBits64(n / 2 + q, k - 1) << 1) | (if n % 2 == 1 then 1 else 0)
  {
    DivMod2(n, q);
  }

  lemma {:induction false} LowBits64Periodic(n: nat, k: nat)
    requires k <= 64
    ensures LowBits64(n + Pow2(k), k) == LowBits64(n, k)
  {
    if k > 0 {
      LowBits64OfSum(n, Pow2(k - 1), k);
      LowBits64Periodic(n / 2, k - 1);
    }
  }

  /** The conversions are arithmetic modulo 2^32 and 2^64. */
  lemma {:induction false} Trunc32Modular(n: nat, m: nat)
    ensures Trunc32(n + TWO_32 * m) == Trunc32(n)
  {
    if m > 0 {
      Trunc32Modular(n, m - 1);
      Pow2Of32();
      LowBits32Periodic(n + TWO_32 * (m - 1), 32);
      assert n + TWO_32 * (m - 1) + TWO_32 == n + TWO_32 * m;
    }
  }

  lemma {:induction false} Trunc64Modular(n: nat, m: nat)
    ensures Trunc64(n + TWO_64 * m) == Trunc64(n)
  {
    if m > 0 {
      Trunc64Modular(n, m - 1);
      Pow2Of64();
      LowBits64Periodic(n + TWO_64 * (m - 1), 64);
      assert n + TWO_64 * (m - 1) + TWO_64 == n + TWO_64 * m;
    }
  }

  // The shift-or rotation macros, compiled when the compiler is not clang.
  // The shift amount is a word of the same width, so the verifier reasons about
  // the shifts without converting integers to bit-vectors.

  function RotL32(n: bv32, s: bv32): bv32
    requires 0 < s < 32
  {
    (n << s) | (n >> (32 - s))
  }

  function RotR32(n: bv32, s: bv32): bv32
    requires 0 < s < 32
  {
    (n >> s) | (n << (32 - s))
  }

  function RotL64(n: bv64, s: bv64): bv64
    requires 0 < s < 64
  {
    (n << s) | (n >> (64 - s))
  }

  function RotR64(n: bv64, s: bv64): bv64
    requires 0 < s < 64
  {
    (n >> s) | (n << (64 - s))
  }

  /** Rotating left by s is rotating right by the width minus s, for every 0 < s < 32. */
  lemma RotL32IsRotR32(n: bv32, s: bv32)
    requires 0 < s < 32
    ensures RotL32(n, s) == RotR32(n, 32 - s)
  {
  }

  /** The same for 64-bit words and 0 < s < 64. */
  lemma RotL64IsRotR64(n: bv64, s: bv64)
    requires 0 < s < 64
    ensures RotL64(n, s) == RotR64(n, 64 - s)
  {
  }

  /** For every 32-bit rotation the engines perform (direction and amount), the
      shift-or macro computes the same word as the clang builtin. */
  lemma Rot32MacrosAreBuiltins(n: bv32)
    ensures RotL32(n, 5) == n.RotateLeft(5)
    ensures RotL32(n, 7) == n.RotateLeft(7)
    ensures RotL32(n, 11) == n.RotateLeft(11)
    ensures RotL32(n, 16) == n.RotateLeft(16)
    ensures RotL32(n, 17) == n.RotateLeft(17)
    ensures RotL32(n, 19) == n.RotateLeft(19)
    ensures RotR32(n, 3) == n.RotateRight(3)
    ensures RotR32(n, 4) == n.RotateRight(4)
    ensures RotR32(n, 7) == n.RotateRight(7)
    ensures RotR32(n, 9) == n.RotateRight(9)
    ensures RotR32(n, 11) == n.RotateRight(11)
    ensures RotR32(n, 13) == n.RotateRight(13)
    ensures RotR32(n, 23) == n.RotateRight(23)
  {
  }

  /** The same for the 64-bit rotations of piHash64 and mix64. */
  lemma Rot64MacrosAreBuiltins(n: bv64)
    ensures RotL64(n, 16) == n.RotateLeft(16)
    ensures RotL64(n, 31) == n.RotateLeft(31)
    ensures RotR64(n, 13) == n.RotateRight(13)
    ensures RotR64(n, 19) == n.RotateRight(19)
    ensures RotR64(n, 33) == n.RotateRight(33)
    ensures RotR64(n, 61) == n.RotateRight(61)
  {
  }

  // A rotation is undone by the rotation the other way by the same amount;
  // one lemma for each amount a piHash block step rotates a fetched word by.

  lemma RotR32By3Inverse(n: bv32)
    ensures RotL32(RotR32(n, 3), 3) == n
  {
    assert (((n >> 3) | (n << 29)) << 3) | (((n >> 3) | (n << 29)) >> 29) == n;
  }

  lemma RotR32By7Inverse(n: bv32)
    ensures RotL32(RotR32(n, 7), 7) == n
  {
    assert (((n >> 7) | (n << 25)) << 7) | (((n >> 7) | (n << 25)) >> 25) == n;
  }

  lemma RotR32By11Inverse(n: bv32)
    ensures RotL32(RotR32(n, 11), 11) == n
  {
    assert (((n >> 11) | (n << 21)) << 11) | (((n >> 11) | (n << 21)) >> 21) == n;
  }

  lemma RotR32By13Inverse(n: bv32)
    ensures RotL32(RotR32(n, 13), 13) == n
  {
    assert (((n >> 13) | (n << 19)) << 13) | (((n >> 13) | (n << 19)) >> 19) == n;
  }

  lemma RotR32By23Inverse(n: bv32)
    ensures RotL32(RotR32(n, 23), 23) == n
  {
    assert (((n >> 23) | (n << 9)) << 23) | (((n >> 23) | (n << 9)) >> 9) == n;
  }

  lemma RotL32By17Inverse(n: bv32)
    ensures RotR32(RotL32(n, 17), 17) == n
  {
    assert (((n << 17) | (n >> 15)) >> 17) | (((n << 17) | (n >> 15)) << 15) == n;
  }

  lemma RotL32By19Inverse(n: bv32)
    ensures RotR32(RotL32(n, 19), 19) == n
  {
    assert (((n << 19) | (n >> 13)) >> 19) | (((n << 19) | (n >> 13)) << 13) == n;
  }

  lemma RotR64By13Inverse(n: bv64)
    ensures RotL64(RotR64(n, 13), 13) == n
  {
    assert (((n >> 13) | (n << 51)) << 13) | (((n >> 13) | (n << 51)) >> 51) == n;
  }

  lemma RotR64By19Inverse(n: bv64)
    ensures RotL64(RotR64(n, 19), 19) == n
  {
    assert (((n >> 19) | (n << 45)) << 19) | (((n >> 19) | (n << 45)) >> 45) == n;
  }

  lemma RotR64By61Inverse(n: bv64)
    ensures RotL64(RotR64(n, 61), 61) == n
  {
    assert (((n >> 61) | (n << 3)) << 61) | (((n >> 61) | (n << 3)) >> 3) == n;
  }

  lemma RotL64By16Inverse(n: bv64)
    ensures RotR64(RotL64(n, 16), 16) == n
  {
    assert (((n << 16) | (n >> 48)) >> 16) | (((n << 16) | (n >> 48)) << 48) == n;
  }

  /** Exclusive or, as a function of its operands; the lemmas about the
      mixers combine facts about it without unfolding it. */
  function Xor32(a: bv32, b: bv32): bv32
  {
    a ^ b
  }

  function Xor64(a: bv64, b: bv64): bv64
  {
    a ^ b
  }

  /** Multiplication modulo 2^32, as a function of its operands. */
  function Mul32(a: bv32, b: bv32): bv32
  {
    a * b
  }

  function Mul64(a: bv64, b: bv64): bv64
  {
    a * b
  }

  /** Addition and subtraction modulo 2^32 and 2^64, as functions of their
      operands, so that cancellation is a fact about two applications. */
  function Add32(a: bv32, b: bv32): bv32
  {
    a + b
  }

  function Sub32(a: bv32, b: bv32): bv32
  {
    a - b
  }

  function Add64(a: bv64, b: bv64): bv64
  {
    a + b
  }

  function Sub64(a: bv64, b: bv64): bv64
  {
    a - b
  }

  /** Exclusive or with the same word twice gives the word back. */
  lemma XorCancel32(a: bv32, b: bv32)
    ensures Xor32(Xor32(a, b), b) == a
  {
    assert (a ^ b) ^ b == a;
  }

  lemma XorCancel64(a: bv64, b: bv64)
    ensures Xor64(Xor64(a, b), b) == a
  {
    assert (a ^ b) ^ b == a;
  }

  lemma XorCancelLeft32(a: bv32, b: bv32)
    ensures Xor32(Xor32(a, b), a) == b
  {
    assert (a ^ b) ^ a == b;
  }

  lemma XorCancelLeft64(a: bv64, b: bv64)
    ensures Xor64(Xor64(a, b), a) == b
  {
    assert (a ^ b) ^ a == b;
  }

  /** Subtracting and adding the same word cancel, in either order. */
  lemma SubAddCancel32(a: bv32, b: bv32)
    ensures Add32(Sub32(a, b), b) == a && Sub32(Add32(a, b), b) == a
  {
    assert Add32(Sub32(a, b), b) == Add32(a - b, b);
    assert Sub32(Add32(a, b), b) == Sub32(a + b, b);
  }

  lemma SubAddCancel64(a: bv64, b: bv64)
    ensures Add64(Sub64(a, b), b) == a && Sub64(Add64(a, b), b) == a
  {
    assert Add64(Sub64(a, b), b) == Add64(a - b, b);
    assert Sub64(Add64(a, b), b) == Sub64(a + b, b);
  }

  /** Subtracting the word that was added first gives the other summand. */
  lemma AddCancelLeft32(a: bv32, b: bv32)
    ensures Sub32(Add32(a, b), a) == b
  {
    assert Sub32(Add32(a, b), a) == Sub32(a + b, a);
  }

  lemma AddCancelLeft64(a: bv64, b: bv64)
    ensures Sub64(Add64(a, b), a) == b
  {
    assert Sub64(Add64(a, b), a) == Sub64(a + b, a);
  }

  /** n ^ LROTATE(n, s), the second statement of every mixer. */
  function XorRotL32(n: bv32, s: bv32): bv32
    requires 0 < s < 32
  {
    Xor32(n, RotL32(n, s))
  }

  function XorRotL64(n: bv64, s: bv64): bv64
    requires 0 < s < 64
  {
    Xor64(n, RotL64(n, s))
  }

  /** Rotating the complement n ^ 0xFF..FF gives the complement of the rotation. */
  lemma RotL32By11Complement(n: bv32)
    ensures RotL32(n ^ 0xFFFF_FFFF, 11) == RotL32(n, 11) ^ 0xFFFF_FFFF
  {
  }

  lemma RotL32By16Complement(n: bv32)
    ensures RotL32(n ^ 0xFFFF_FFFF, 16) == RotL32(n, 16) ^ 0xFFFF_FFFF
  {
  }

  lemma RotL64By31Complement(n: bv64)
    ensures RotL64(n ^ 0xFFFF_FFFF_FFFF_FFFF, 31) == RotL64(n, 31) ^ 0xFFFF_FFFF_FFFF_FFFF
  {
  }

  /** Complementing both operands leaves their exclusive or unchanged. */
  lemma Xor32Complement(a: bv32, b: bv32)
    ensures Xor32(a ^ 0xFFFF_FFFF, b ^ 0xFFFF_FFFF) == Xor32(a, b)
  {
    assert (a ^ 0xFFFF_FFFF) ^ (b ^ 0xFFFF_FFFF) == a ^ b;
  }

  lemma Xor64Complement(a: bv64, b: bv64)
    ensures Xor64(a ^ 0xFFFF_FFFF_FFFF_FFFF, b ^ 0xFFFF_FFFF_FFFF_FFFF) == Xor64(a, b)
  {
    assert (a ^ 0xFFFF_FFFF_FFFF_FFFF) ^ (b ^ 0xFFFF_FFFF_FFFF_FFFF) == a ^ b;
  }

  /** For each amount a mixer uses, n ^ rotl(n, s) cannot tell n from its
      complement. */
  lemma XorRotL32By11Complement(n: bv32)
    ensures XorRotL32(n ^ 0xFFFF_FFFF, 11) == XorRotL32(n, 11)
  {
    RotL32By11Complement(n);
    Xor32Complement(n, RotL32(n, 11));
  }

  lemma XorRotL32By16Complement(n: bv32)
    ensures XorRotL32(n ^ 0xFFFF_FFFF, 16) == XorRotL32(n, 16)
  {
    RotL32By16Complement(n);
    Xor32Complement(n, RotL32(n, 16));
  }

  lemma XorRotL64By31Complement(n: bv64)
    ensures XorRotL64(n ^ 0xFFFF_FFFF_FFFF_FFFF, 31) == XorRotL64(n, 31)
  {
    RotL64By31Complement(n);
    Xor64Complement(n, RotL64(n, 31));
  }

  // Bit counting: the number of set bits among the low n bits of a word.

  function PopCount32(v: bv32, n: nat): nat
    requires n <= 32
    decreases n
  {
    if n == 0 then 0 else (if v & 1 == 1 then 1 else 0) + PopCount32(v >> 1, n - 1)
  }

  function PopCount64(v: bv64, n: nat): nat
    requires n <= 64
    decreases n
  {
    if n == 0 then 0 else (if v & 1 == 1 then 1 else 0) + PopCount64(v >> 1, n - 1)
  }

  lemma {:induction false} PopCount32Bound(v: bv32, n: nat)
    requires n <= 32
    ensures PopCount32(v, n) <= n
  {
    if n > 0 {
      PopCount32Bound(v >> 1, n - 1);
    }
  }

  lemma {:induction false} PopCount64Bound(v: bv64, n: nat)
    requires n <= 64
    ensures PopCount64(v, n) <= n
  {
    if n > 0 {
      PopCount64Bound(v >> 1, n - 1);
    }
  }

  /** The lowest bit is counted exactly when it is set. */
  lemma PopCount32Step(v: bv32, n: nat)
    requires 0 < n <= 32
    ensures PopCount32(v, n) == 0 <==> (v & 1 == 0 && PopCount32(v >> 1, n - 1) == 0)
  {
    assert v & 1 != 1 <==> v & 1 == 0;
  }

  /** No bit is counted among the low k bits exactly when they are all clear
      and none is counted above them; for k = 2, 4, 8, ... each step joins
      two halves. */
  lemma PopCount32Zero2(v: bv32, n: nat)
    requires 2 <= n <= 32
    ensures PopCount32(v, n) == 0 <==> (v & 0x3 == 0 && PopCount32(v >> 2, n - 2) == 0)
  {
    PopCount32Step(v, n);
    PopCount32Step(v >> 1, n - 1);
    assert (v >> 1) >> 1 == v >> 2;
    assert (v & 1 == 0 && (v >> 1) & 1 == 0) <==> v & 0x3 == 0;
  }

  lemma PopCount32Zero4(v: bv32, n: nat)
    requires 4 <= n <= 32
    ensures PopCount32(v, n) == 0 <==> (v & 0xF == 0 && PopCount32(v >> 4, n - 4) == 0)
  {
    PopCount32Zero2(v, n);
    PopCount32Zero2(v >> 2, n - 2);
    assert (v >> 2) >> 2 == v >> 4;
    assert (v & 0x3 == 0 && (v >> 2) & 0x3 == 0) <==> v & 0xF == 0;
  }

  lemma PopCount32Zero8(v: bv32, n: nat)
    requires 8 <= n <= 32
    ensures PopCount32(v, n) == 0 <==> (v & 0xFF == 0 && PopCount32(v >> 8, n - 8) == 0)
  {
    PopCount32Zero4(v, n);
    PopCount32Zero4(v >> 4, n - 4);
    assert (v >> 4) >> 4 == v >> 8;
    assert (v & 0xF == 0 && (v >> 4) & 0xF == 0) <==> v & 0xFF == 0;
  }

  lemma PopCount32Zero16(v: bv32, n: nat)
    requires 16 <= n <= 32
    ensures PopCount32(v, n) == 0 <==> (v & 0xFFFF == 0 && PopCount32(v >> 16, n - 16) == 0)
  {
    PopCount32Zero8(v, n);
    PopCount32Zero8(v >> 8, n - 8);
    assert (v >> 8) >> 8 == v >> 16;
    assert (v & 0xFF == 0 && (v >> 8) & 0xFF == 0) <==> v & 0xFFFF == 0;
  }

  /** A word is zero exactly when both its halves are. */
  lemma HalvesZero32(v: bv32)
    ensures (v & 0xFFFF == 0 && (v >> 16) & 0xFFFF == 0) <==> v == 0
  {
  }

  /** No bit of the whole word is counted exactly when the word is zero. */
  lemma PopCount32Zero(v: bv32)
    ensures PopCount32(v, 32) == 0 <==> v == 0
  {
    var hi := v >> 16;
    PopCount32Zero16(v, 32);
    PopCount32Zero16(hi, 16);
    assert PopCount32(hi >> 16, 0) == 0;
    HalvesZero32(v);
  }

  /** The lowest bit is counted exactly when it is set. */
  lemma PopCount64Step(v: bv64, n: nat)
    requires 0 < n <= 64
    ensures PopCount64(v, n) == 0 <==> (v & 1 == 0 && PopCount64(v >> 1, n - 1) == 0)
  {
    assert v & 1 != 1 <==> v & 1 == 0;
  }

  /** No bit is counted among the low k bits exactly when they are all clear
      and none is counted above them; for k = 2, 4, 8, ... each step joins
      two halves. */
  lemma PopCount64Zero2(v: bv64, n: nat)
    requires 2 <= n <= 64
    ensures PopCount64(v, n) == 0 <==> (v & 0x3 == 0 && PopCount64(v >> 2, n - 2) == 0)
  {
    PopCount64Step(v, n);
    PopCount64Step(v >> 1, n - 1);
    assert (v >> 1) >> 1 == v >> 2;
    assert (v & 1 == 0 && (v >> 1) & 1 == 0) <==> v & 0x3 == 0;
  }

  lemma PopCount64Zero4(v: bv64, n: nat)
    requires 4 <= n <= 64
    ensures PopCount64(v, n) == 0 <==> (v & 0xF == 0 && PopCount64(v >> 4, n - 4) == 0)
  {
    PopCount64Zero2(v, n);
    PopCount64Zero2(v >> 2, n - 2);
    assert (v >> 2) >> 2 == v >> 4;
    assert (v & 0x3 == 0 && (v >> 2) & 0x3 == 0) <==> v & 0xF == 0;
  }

  lemma PopCount64Zero8(v: bv64, n: nat)
    requires 8 <= n <= 64
    ensures PopCount64(v, n) == 0 <==> (v & 0xFF == 0 && PopCount64(v >> 8, n - 8) == 0)
  {
    PopCount64Zero4(v, n);
    PopCount64Zero4(v >> 4, n - 4);
    assert (v >> 4) >> 4 == v >> 8;
    assert (v & 0xF == 0 && (v >> 4) & 0xF == 0) <==> v & 0xFF == 0;
  }

  lemma PopCount64Zero16(v: bv64, n: nat)
    requires 16 <= n <= 64
    ensures PopCount64(v, n) == 0 <==> (v & 0xFFFF == 0 && PopCount64(v >> 16, n - 16) == 0)
  {
    PopCount64Zero8(v, n);
    PopCount64Zero8(v >> 8, n - 8);
    assert (v >> 8) >> 8 == v >> 16;
    assert (v & 0xFF == 0 && (v >> 8) & 0xFF == 0) <==> v & 0xFFFF == 0;
  }

  lemma PopCount64Zero32(v: bv64, n: nat)
    requires 32 <= n <= 64
    ensures PopCount64(v, n) == 0 <==> (v & 0xFFFF_FFFF == 0 && PopCount64(v >> 32, n - 32) == 0)
  {
    PopCount64Zero16(v, n);
    PopCount64Zero16(v >> 16, n - 16);
    assert (v >> 16) >> 16 == v >> 32;
    assert (v & 0xFFFF == 0 && (v >> 16) & 0xFFFF == 0) <==> v & 0xFFFF_FFFF == 0;
  }

  /** A word is zero exactly when both its halves are. */
  lemma HalvesZero64(v: bv64)
    ensures (v & 0xFFFF_FFFF == 0 && (v >> 32) & 0xFFFF_FFFF == 0) <==> v == 0
  {
  }

  /** No bit of the whole word is counted exactly when the word is zero. */
  lemma PopCount64Zero(v: bv64)
    ensures PopCount64(v, 64) == 0 <==> v == 0
  {
    var hi := v >> 32;
    PopCount64Zero32(v, 64);
    PopCount64Zero32(hi, 32);
    assert PopCount64(hi >> 32, 0) == 0;
    HalvesZero64(v);
  }

  /** No bit of a ^ b is counted exactly when a == b. */
  lemma XorZero32(a: bv32, b: bv32)
    ensures PopCount32(a ^ b, 32) == 0 <==> a == b
  {
    PopCount32Zero(a ^ b);
    assert a ^ b == 0 <==> a == b;
  }

  /** The Hamming distance of two 32-bit words, popcount(a xor b), is at most
      32, symmetric, and zero exactly when the words are equal. */
  lemma HammingDistance32(a: bv32, b: bv32)
    ensures PopCount32(a ^ b, 32) <= 32
    ensures PopCount32(a ^ b, 32) == PopCount32(b ^ a, 32)
    ensures PopCount32(a ^ b, 32) == 0 <==> a == b
  {
    PopCount32Bound(a ^ b, 32);
    XorZero32(a, b);
    assert b ^ a == a ^ b;
  }

  /** No bit of a ^ b is counted exactly when a == b. */
  lemma XorZero64(a: bv64, b: bv64)
    ensures PopCount64(a ^ b, 64) == 0 <==> a == b
  {
    PopCount64Zero(a ^ b);
    assert a ^ b == 0 <==> a == b;
  }

  /** The same for 64-bit words. */
  lemma HammingDistance64(a: bv64, b: bv64)
    ensures PopCount64(a ^ b, 64) <= 64
    ensures PopCount64(a ^ b, 64) == PopCount64(b ^ a, 64)
    ensures PopCount64(a ^ b, 64) == 0 <==> a == b
  {
    PopCount64Bound(a ^ b, 64);
    XorZero64(a, b);
    assert b ^ a == a ^ b;
  }
}
