// The Hamming score of the test utilities: the number of bit positions in
// which two words differ, counted by walking both words from the least
// significant bit upwards. The score is returned as a whole number; the
// division by the word width into a float is not modelled.

module Hamming {
  import opened Bits

  /** One step of the walk: the lowest bits of a and b decide whether the
      current position counts, and the rest of the count is over the words
      shifted right by one. */
  lemma Step32(a: bv32, b: bv32, i: nat)
    requires 0 < i <= 32
    ensures PopCount32(a ^ b, i)
            == (if (a & 1) ^ (b & 1) != 0 then 1 else 0) + PopCount32((a >> 1) ^ (b >> 1), i - 1)
  {
    var v := a ^ b;
    assert v >> 1 == (a >> 1) ^ (b >> 1);
    assert (v & 1 == 1) == ((a & 1) ^ (b & 1) != 0);
  }

  lemma Step64(a: bv64, b: bv64, i: nat)
    requires 0 < i <= 64
    ensures PopCount64(a ^ b, i)
            == (if (a & 1) ^ (b & 1) != 0 then 1 else 0) + PopCount64((a >> 1) ^ (b >> 1), i - 1)
  {
    var v := a ^ b;
    assert v >> 1 == (a >> 1) ^ (b >> 1);
    assert (v & 1 == 1) == ((a & 1) ^ (b & 1) != 0);
  }

  /** test_hamming32: the number of differing bits of two 32-bit words, at
      most 32, the same with the operands swapped, and zero exactly when the
      words are equal. */
  method TestHamming32(a: bv32, b: bv32) returns (score: nat)
    ensures score == PopCount32(a ^ b, 32)
    ensures score <= 32
    ensures score == 0 <==> a == b
  {
    score := 0;
    var x, y := a, b;
    var i := 32;
    while i > 0
      invariant i <= 32
      invariant score + PopCount32(x ^ y, i) == PopCount32(a ^ b, 32)
    {
      Step32(x, y, i);
      if (x & 1) ^ (y & 1) != 0 {
        score := score + 1;
      }
      x, y := x >> 1, y >> 1;
      i := i - 1;
    }
    HammingDistance32(a, b);
  }

  /** test_hamming64: the same count over 64-bit words. */
  method TestHamming64(a: bv64, b: bv64) returns (score: nat)
    ensures score == PopCount64(a ^ b, 64)
    ensures score <= 64
    ensures score == 0 <==> a == b
  {
    score := 0;
    var x, y := a, b;
    var i := 64;
    while i > 0
      invariant i <= 64
      invariant score + PopCount64(x ^ y, i) == PopCount64(a ^ b, 64)
    {
      Step64(x, y, i);
      if (x & 1) ^ (y & 1) != 0 {
        score := score + 1;
      }
      x, y := x >> 1, y >> 1;
      i := i - 1;
    }
    HammingDistance64(a, b);
  }
}
