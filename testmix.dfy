// The two 32-bit mixers of the standalone mixer comparison: murmur1, the
// avalanche steps of the Murmur3 finaliser with AH1's constants, and the copy
// of mix that program carries, here in the form clang compiles with its
// rotation builtins, transcribed on its own and proved equal to hash.c's
// mix statement by statement.
//
// Every step is a function of its own and every constant multiplication a
// function too, so that the round-trip lemmas combine step facts by
// congruence instead of re-deriving bit-vector identities.

module TestMix {
  import opened Bits
  import Ah1

  function Shr13(x: bv32): bv32
  {
    x >> 13
  }

  function Shr16(x: bv32): bv32
  {
    x >> 16
  }

  function Shr26(x: bv32): bv32
  {
    x >> 26
  }

  /** The word xor-ed with itself shifted right by 16: the first and the last
      step of murmur1. */
  function XorShr16(x: bv32): bv32
  {
    Xor32(x, Shr16(x))
  }

  /** The word xor-ed with itself shifted right by 13: the third step. */
  function XorShr13(x: bv32): bv32
  {
    Xor32(x, Shr13(x))
  }

  /** Multiplication by murmur1's first constant 0x3af1de9b, modulo 2^32. */
  function MulL(x: bv32): bv32
  {
    x * 0x3af1de9b
  }

  /** Multiplication by murmur1's second constant 0x13a7ce59, modulo 2^32. */
  function MulR(x: bv32): bv32
  {
    x * 0x13a7ce59
  }

  /** murmur1: xor-shift by 16, multiply by 0x3af1de9b, xor-shift by 13,
      multiply by 0x13a7ce59, xor-shift by 16. */
  function Murmur1(num: bv32): bv32
  {
    XorShr16(MulR(XorShr13(MulL(XorShr16(num)))))
  }

  // ----- murmur1 run backwards -----

  /** Undoes the xor-shift by 13: the top 13 bits are unchanged by it, the next
      13 follow from them, and the last 6 from those. */
  function UnXorShr13(y: bv32): bv32
  {
    Xor32(y, Xor32(Shr13(y), Shr26(y)))
  }

  /** Multiplication by 0x658bd793, the inverse of 0x3af1de9b modulo 2^32. */
  function UnMulL(x: bv32): bv32
  {
    x * 0x658bd793
  }

  /** Multiplication by 0xb74299e9, the inverse of 0x13a7ce59 modulo 2^32. */
  function UnMulR(x: bv32): bv32
  {
    x * 0xb74299e9
  }

  /** The steps of murmur1 undone in reverse order. */
  function Unmurmur1(h: bv32): bv32
  {
    XorShr16(UnMulL(UnXorShr13(UnMulR(XorShr16(h)))))
  }

  lemma Shr16OfXorShr16(x: bv32)
    ensures Shr16(Xor32(x, Shr16(x))) == Shr16(x)
  {
    assert (x ^ (x >> 16)) >> 16 == x >> 16;
  }

  /** The xor-shift by 16 is its own inverse. */
  lemma XorShr16Involutive(x: bv32)
    ensures XorShr16(XorShr16(x)) == x
  {
    Shr16OfXorShr16(x);
    XorCancel32(x, Shr16(x));
  }

  lemma ShrOfXorShr13(x: bv32)
    ensures Shr13(Xor32(x, Shr13(x))) == Xor32(Shr13(x), Shr26(x))
    ensures Shr26(Xor32(x, Shr13(x))) == Shr26(x)
  {
    assert (x ^ (x >> 13)) >> 13 == (x >> 13) ^ (x >> 26);
    assert (x ^ (x >> 13)) >> 26 == x >> 26;
  }

  lemma ShrOfUnXorShr13(y: bv32)
    ensures Shr13(Xor32(y, Xor32(Shr13(y), Shr26(y)))) == Xor32(Shr13(y), Shr26(y))
  {
    assert (y ^ ((y >> 13) ^ (y >> 26))) >> 13 == (y >> 13) ^ (y >> 26);
  }

  /** UnXorShr13 undoes the xor-shift by 13, and the other way round. */
  lemma XorShr13Inverse(x: bv32)
    ensures UnXorShr13(XorShr13(x)) == x
    ensures XorShr13(UnXorShr13(x)) == x
  {
    ShrOfXorShr13(x);
    XorCancel32(Shr13(x), Shr26(x));
    XorCancel32(x, Shr13(x));
    ShrOfUnXorShr13(x);
    XorCancel32(x, Xor32(Shr13(x), Shr26(x)));
  }

  /** The inverse constants undo the multiplications, in either order. */
  lemma MulLInverse(x: bv32)
    ensures UnMulL(MulL(x)) == x && MulL(UnMulL(x)) == x
  {
    assert UnMulL(MulL(x)) == UnMulL(x * 0x3af1de9b);
    assert MulL(UnMulL(x)) == MulL(x * 0x658bd793);
  }

  lemma MulRInverse(x: bv32)
    ensures UnMulR(MulR(x)) == x && MulR(UnMulR(x)) == x
  {
    assert UnMulR(MulR(x)) == UnMulR(x * 0x13a7ce59);
    assert MulR(UnMulR(x)) == MulR(x * 0xb74299e9);
  }

  /** Unmurmur1 recovers the input of murmur1. */
  lemma Murmur1Invertible(num: bv32)
    ensures Unmurmur1(Murmur1(num)) == num
  {
    var n1 := XorShr16(num);
    var n2 := MulL(n1);
    var n3 := XorShr13(n2);
    var n4 := MulR(n3);
    XorShr16Involutive(n4);
    MulRInverse(n3);
    XorShr13Inverse(n2);
    MulLInverse(n1);
    XorShr16Involutive(num);
  }

  /** Every word is the murmur1 of its Unmurmur1. */
  lemma Murmur1Onto(h: bv32)
    ensures Murmur1(Unmurmur1(h)) == h
  {
    var n4 := XorShr16(h);
    var n3 := UnMulR(n4);
    var n2 := UnXorShr13(n3);
    var n1 := UnMulL(n2);
    XorShr16Involutive(n1);
    MulLInverse(n2);
    XorShr13Inverse(n3);
    MulRInverse(n4);
    XorShr16Involutive(h);
  }

  /** murmur1 is a permutation of the 32-bit words: two inputs collide
      exactly when they are equal. */
  lemma Murmur1Injective(a: bv32, b: bv32)
    ensures Murmur1(a) == Murmur1(b) <==> a == b
  {
    Murmur1Invertible(a);
    Murmur1Invertible(b);
  }

  // ----- mix with clang's rotation builtins -----

  /** The second statement of mix done by the builtin left rotation. */
  function RotatedXor(n: bv32): bv32
  {
    Xor32(n, n.RotateLeft(11))
  }

  /** The fourth statement of mix done by the builtin right rotation. */
  function MulRotated(n: bv32): bv32
  {
    Mul32(n, n.RotateRight(7))
  }

  /** The third statement of mix: xor with 0x3af1de9b times the word shifted
      right by 13, plus 0x28330d1b. */
  function ShiftAdd(n: bv32): bv32
  {
    n ^ ((0x3af1de9b * (n >> 13)) + 0x28330d1b)
  }

  /** The fifth statement: xor with 0x13a7ce59 times the word, shifted left
      by 17. */
  function ShiftMul(n: bv32): bv32
  {
    n ^ ((0x13a7ce59 * n) << 17)
  }

  /** mix of the comparison program as clang compiles it: multiply by
      0x483b86d5, then the four statements above in order. */
  function Mix(num: bv32): bv32
  {
    ShiftMul(MulRotated(ShiftAdd(RotatedXor(num * 0x483b86d5))))
  }

  lemma RotatedXorAgrees(n: bv32)
    ensures RotatedXor(n) == XorRotL32(n, 11)
  {
    Rot32MacrosAreBuiltins(n);
  }

  lemma MulRotatedAgrees(n: bv32)
    ensures MulRotated(n) == Ah1.MixMulRot(n)
  {
    Rot32MacrosAreBuiltins(n);
  }

  /** The third and fifth statements carry hash.c's constants and shifts. */
  lemma ShiftAddAgrees(n: bv32)
    ensures ShiftAdd(n) == Ah1.MixShiftAdd(n)
  {
  }

  lemma ShiftMulAgrees(n: bv32)
    ensures ShiftMul(n) == Ah1.MixShiftMul(n)
  {
  }

  /** The builtin and the shift-or compilations of mix compute the same
      function, statement by statement. */
  lemma MixAgrees(num: bv32)
    ensures Mix(num) == Ah1.Mix(num)
  {
    var a := num * 0x483b86d5;
    RotatedXorAgrees(a);
    ShiftAddAgrees(RotatedXor(a));
    MulRotatedAgrees(ShiftAdd(RotatedXor(a)));
    ShiftMulAgrees(MulRotated(ShiftAdd(RotatedXor(a))));
  }

  /** Unlike murmur1, mix maps two different words to the same value. */
  lemma MixCollides(v: bv32)
    ensures Ah1.MixTwin(v) != v && Mix(Ah1.MixTwin(v)) == Mix(v)
  {
    Ah1.MixNotInjective(v);
    MixAgrees(v);
    MixAgrees(Ah1.MixTwin(v));
  }
}
