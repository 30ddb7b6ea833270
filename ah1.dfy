// ah1, the older 128-bit hash of hash.c: its own mixer, a block loop that
// reads the input as little-endian 32-bit words and feeds each iteration's
// result back through the chain[4] array, a tail built by a fall-through
// switch, and one final round.
//
// As with piHash, the method Ah1 keeps the C function's control flow (the
// stores into hash[] and chain[], the word pointer `blocks`, the switch) and
// is proved to compute the function Ah1Hash of the input bytes. The switch
// indexes the input by word where it means to index by byte, so a size that
// is not a multiple of 16 makes it read 4 * (size % 16) bytes from where only
// size % 16 remain; Ah1 and Ah1Hash require those bytes to exist.
// TailIntended is the byte-indexed switch, and Ah1Intended the hash built on
// it.

module Ah1 {
  import opened Bits
  import opened Host
  import PiHash

  /** hash[0..3], or any other four words ah1 handles together. */
  datatype Words = Words(w0: bv32, w1: bv32, w2: bv32, w3: bv32)

  const ZERO := Words(0, 0, 0, 0)

  /** The initial hash[0..3]. */
  const SEED := Words(0x5a44f074, 0x35e820f6, 0x674f1845, 0x7fb5de7f)

  /** The initial chain[0..3]. */
  const CHAIN := Words(0x8bca9b, 0x2413c9, 0x49f6dc3, 0x97b1)

  /** ah1 starts from the four seeds piHash128 starts from. */
  lemma SeedIsPiHash128Seed()
    ensures SEED == Words(PiHash.SEED128.w, PiHash.SEED128.x, PiHash.SEED128.y, PiHash.SEED128.z)
  {
  }

  // ----- the mixer -----

  /** mix: multiply by 0x483b86d5, xor with the product rotated left by 11,
      then the three steps of MixTail. */
  function Mix(num: bv32): bv32
  {
    MixTail(XorRotL32(num * 0x483b86d5, 11))
  }

  /** The third step of mix: xor with 0x3af1de9b times the word shifted right
      by 13, plus 0x28330d1b. */
  function MixShiftAdd(n: bv32): bv32
  {
    n ^ ((0x3af1de9b * (n >> 13)) + 0x28330d1b)
  }

  /** The fourth step: the word times its right rotation by 7. */
  function MixMulRot(n: bv32): bv32
  {
    Mul32(n, RotR32(n, 7))
  }

  /** The last step: xor with 0x13a7ce59 times the word, shifted left by 17. */
  function MixShiftMul(n: bv32): bv32
  {
    n ^ ((0x13a7ce59 * n) << 17)
  }

  /** The last three statements of mix. */
  function MixTail(n: bv32): bv32
  {
    MixShiftMul(MixMulRot(MixShiftAdd(n)))
  }

  /** 0x281b827d is the inverse of mix's first constant modulo 2^32. */
  function MixTwin(v: bv32): bv32
  {
    ((v * 0x483b86d5) ^ 0xFFFF_FFFF) * 0x281b827d
  }

  /** mix is not injective: every input has a different twin with the same
      mix value. */
  lemma MixNotInjective(v: bv32)
    ensures MixTwin(v) != v
    ensures Mix(MixTwin(v)) == Mix(v)
  {
    assert Mix(MixTwin(v)) == Mix(((v * 0x483b86d5) ^ 0xFFFF_FFFF) * 0x281b827d);
    XorRotL32By11Complement(v * 0x483b86d5);
  }

  // ----- one round -----

  /** The second half of every round, the same in the block loop and in the
      final round. Each word in turn takes in the mix of the next one times a
      rotation of the one after, so the later steps see the new hash[0] and
      hash[1]: rotations left by 7, right by 11, right by 9 and left by 5, the
      first two added and the last two xor-ed in. */
  function Stir(h0: bv32, h1: bv32, h2: bv32, h3: bv32): Words
  {
    var a := h0 + Mix(h1) * RotL32(h2, 7);
    var b := h1 + Mix(h2) * RotR32(h3, 11);
    var c := h2 ^ (Mix(h3) * RotR32(a, 9));
    var d := h3 ^ (Mix(a) * RotL32(b, 5));
    Words(a, b, c, d)
  }

  /** One iteration of the block loop on hash h, chain c, the four words b
      at the block pointer and the iteration counter iter. The size_t product
      iter * blocks[3] is stored back into a uint32_t, which keeps its low 32
      bits, so 32-bit arithmetic on the truncated counter computes it. */
  function BlockRound(h: Words, c: Words, b: Words, iter: bv32): Words
  {
    BlockRoundOn(h.w0, h.w1, h.w2, h.w3, c.w0, c.w1, c.w2, c.w3, b.w0, b.w1, b.w2, b.w3, iter)
  }

  function BlockRoundOn(h0: bv32, h1: bv32, h2: bv32, h3: bv32, c0: bv32, c1: bv32, c2: bv32, c3: bv32,
                        b0: bv32, b1: bv32, b2: bv32, b3: bv32, iter: bv32): Words
  {
    var h0 := h0 & (Mix(b1 ^ c0) + iter * b3);
    var h1 := h1 ^ Mix(b0 - (c1 ^ h0));
    var h2 := h2 + (Mix(b3 ^ c2) ^ h1);
    var h3 := h3 - (Mix((b2 + c3) * h2) ^ h1);
    Stir(h0, h1, h2, h3)
  }

  /** The final round on the tail words t. Its third step differs from the
      block loop's: hash[2] gains the mix of hash[1] times chain[2], xor-ed
      with tail[3]. */
  function FinalRound(h: Words, c: Words, t: Words, fullBlocks: bv32): Words
  {
    FinalRoundOn(h.w0, h.w1, h.w2, h.w3, c.w0, c.w1, c.w2, c.w3, t.w0, t.w1, t.w2, t.w3, fullBlocks)
  }

  function FinalRoundOn(h0: bv32, h1: bv32, h2: bv32, h3: bv32, c0: bv32, c1: bv32, c2: bv32, c3: bv32,
                        t0: bv32, t1: bv32, t2: bv32, t3: bv32, fullBlocks: bv32): Words
  {
    var h0 := h0 & (Mix(t1 ^ c0) + fullBlocks * t3);
    var h1 := h1 ^ Mix(t0 - (c1 ^ h0));
    var h2 := h2 + (Mix(h1 * c2) ^ t3);
    var h3 := h3 - (Mix((t2 + c3) * h2) ^ h1);
    Stir(h0, h1, h2, h3)
  }

  /** The chain takes hash[3], hash[2], hash[0] and hash[1], in that order. */
  function Feedback(h: Words): Words
  {
    Words(h.w3, h.w2, h.w0, h.w1)
  }

  // ----- the block loop -----

  /** The input seen through a pointer to 32-bit words on a little-endian
      host; a trailing partial word is not part of it. */
  function WordsOf(mem: seq<byte>): (words: seq<bv32>)
    ensures |words| == |mem| / 4
    ensures forall i :: 0 <= i < |words| ==> words[i] == Load32(mem, 4 * i)
  {
    seq(|mem| / 4, (i: int) requires 0 <= i < |mem| / 4 => Load32(mem, 4 * i))
  }

  /** blocks[0..3] in iteration n, when `blocks` points at word 4n. */
  function Block(words: seq<bv32>, n: nat): Words
    requires 4 * n + 4 <= |words|
  {
    Words(words[4 * n], words[4 * n + 1], words[4 * n + 2], words[4 * n + 3])
  }

  datatype State = State(hash: Words, chain: Words)

  /** hash[] and chain[] after n iterations of the block loop. */
  function Rounds(words: seq<bv32>, n: nat): State
    requires 4 * n <= |words|
  {
    if n == 0 then State(SEED, CHAIN)
    else
      var s := Rounds(words, n - 1);
      var h := BlockRound(s.hash, s.chain, Block(words, n - 1), Trunc32(n - 1));
      State(h, Feedback(h))
  }

  /** Iteration k of the block loop. */
  lemma RoundsStep(words: seq<bv32>, k: nat, s: State, b: Words, iter: bv32)
    requires 4 * k + 4 <= |words|
    requires s == Rounds(words, k) && b == Block(words, k) && iter == Trunc32(k)
    ensures Rounds(words, k + 1) == State(BlockRound(s.hash, s.chain, b, iter), Feedback(BlockRound(s.hash, s.chain, b, iter)))
  {
  }

  /** After every iteration chain[] holds hash[3], hash[2], hash[0], hash[1]
      of that iteration. */
  lemma RoundsFeedChain(words: seq<bv32>, n: nat)
    requires 0 < n && 4 * n <= |words|
    ensures Rounds(words, n).chain == Feedback(Rounds(words, n).hash)
  {
  }

  /** full_blocks = (size / 4) / 4 counts the whole 16-byte blocks, and the
      switch reaches the remaining size % 16 bytes at word 4 * full_blocks. */
  lemma FullBlocks(size: nat)
    ensures (size / 4) / 4 == size / 16
    ensures 16 * ((size / 4) / 4) + size % 16 == size
  {
  }

  // ----- the tail switch -----

  /** tail[j] as the fall-through switch on r = size & 15 builds it with
      `blocks` at word `at`: case k + 1 ORs blocks[k] << 8 * (k % 4) into
      tail[k / 4], and case r runs the cases r down to 1, so the words
      blocks[4j + 3] down to blocks[4j] below r reach tail[j] in that order.
      No case reaches blocks[15]. */
  function TailWord(words: seq<bv32>, at: nat, r: nat, j: nat): bv32
    requires r < 16 && at + r <= |words| && j < 4
  {
    ((((0
      | (if r > 4 * j + 3 then words[at + 4 * j + 3] << 24 else 0))
      | (if r > 4 * j + 2 then words[at + 4 * j + 2] << 16 else 0))
      | (if r > 4 * j + 1 then words[at + 4 * j + 1] << 8 else 0))
      | (if r > 4 * j then words[at + 4 * j] << 0 else 0))
  }

  function TailAsWritten(words: seq<bv32>, at: nat, r: nat): Words
    requires r < 16 && at + r <= |words|
  {
    Words(TailWord(words, at, r, 0), TailWord(words, at, r, 1), TailWord(words, at, r, 2), TailWord(words, at, r, 3))
  }

  /** The cases of the switch that write tail[j]: case 4j + 4 (absent for
      j == 3) down to case 4j + 1. */
  method SwitchWord(words: seq<bv32>, at: nat, r: nat, j: nat) returns (t: bv32)
    requires r < 16 && at + r <= |words| && j < 4
    ensures t == TailWord(words, at, r, j)
  {
    t := 0;
    if r > 4 * j + 3 { t := t | (words[at + 4 * j + 3] << 24); }
    if r > 4 * j + 2 { t := t | (words[at + 4 * j + 2] << 16); }
    if r > 4 * j + 1 { t := t | (words[at + 4 * j + 1] << 8); }
    if r > 4 * j { t := t | (words[at + 4 * j] << 0); }
  }

  /** The zeroed tail[] filled by the switch on size & 15. Each case writes a
      single word of tail[], so the cases are run word by word, tail[3] first
      as in the switch. */
  method BuildTail(words: seq<bv32>, at: nat, r: nat) returns (tail: array<bv32>)
    requires r < 16 && at + r <= |words|
    ensures fresh(tail) && tail.Length == 4
    ensures Front4(tail) == TailAsWritten(words, at, r)
  {
    var t3 := SwitchWord(words, at, r, 3);
    var t2 := SwitchWord(words, at, r, 2);
    var t1 := SwitchWord(words, at, r, 1);
    var t0 := SwitchWord(words, at, r, 0);
    tail := new bv32[4] [t0, t1, t2, t3];
  }

  /** When size is a multiple of 16 the switch adds nothing. */
  lemma TailOfWholeBlocks(words: seq<bv32>, at: nat)
    requires at <= |words|
    ensures TailAsWritten(words, at, 0) == ZERO
  {
  }

  // ----- the whole hash -----

  /** The bytes ah1 reads for an input of `size` bytes: the whole blocks,
      then 4 * (size % 16) bytes for the switch. */
  predicate Readable(mem: seq<byte>, size: nat)
  {
    size + 3 * (size % 16) <= |mem|
  }

  /** Those bytes are the words the block loop and the switch index. */
  lemma ReadableWords(mem: seq<byte>, size: nat)
    requires Readable(mem, size)
    ensures 4 * ((size / 4) / 4) + size % 16 <= |WordsOf(mem)|
  {
    FullBlocks(size);
  }

  /** hash[0..3] as ah1 leaves them, for `size` input bytes at the front of
      mem. */
  function Ah1Hash(mem: seq<byte>, size: nat): Words
    requires size < TWO_64 && Readable(mem, size)
  {
    var fullBlocks := (size / 4) / 4;
    ReadableWords(mem, size);
    var s := Rounds(WordsOf(mem), fullBlocks);
    FinalRound(s.hash, s.chain, TailAsWritten(WordsOf(mem), 4 * fullBlocks, size % 16), Trunc32(fullBlocks))
  }

  /** a[0..3]. */
  function Front4(a: array<bv32>): Words
    requires 4 <= a.Length
    reads a
  {
    Words(a[0], a[1], a[2], a[3])
  }

  /** Four stores into a[0..3]. */
  method Store4(a: array<bv32>, w: Words)
    requires 4 <= a.Length
    modifies a
    ensures Front4(a) == w
    ensures a[4..] == old(a[4..])
  {
    a[0], a[1], a[2], a[3] := w.w0, w.w1, w.w2, w.w3;
  }

  /** The round of iteration iter on the values of hash[] and chain[]. */
  method Round(words: seq<bv32>, iter: nat, s: State) returns (s': State)
    requires 4 * iter + 4 <= |words| && s == Rounds(words, iter)
    ensures s' == Rounds(words, iter + 1)
  {
    RoundsStep(words, iter, s, Block(words, iter), Trunc32(iter));
    var h := BlockRound(s.hash, s.chain, Block(words, iter), Trunc32(iter));
    s' := State(h, Feedback(h));
  }

  /** The body of the block loop in iteration iter, with `blocks` at word
      4 * iter: the round on hash[] and chain[], then the feedback of the new
      hash[] into chain[]. It takes hash[] and chain[] from Rounds(words, iter)
      to Rounds(words, iter + 1). */
  method BlockStep(words: seq<bv32>, blocks: nat, iter: nat, hash: array<bv32>, chain: array<bv32>)
    requires hash != chain && 4 <= hash.Length && chain.Length == 4
    requires blocks == 4 * iter && blocks + 4 <= |words|
    requires Front4(hash) == Rounds(words, iter).hash
    requires Front4(chain) == Rounds(words, iter).chain
    modifies hash, chain
    ensures Front4(hash) == Rounds(words, iter + 1).hash
    ensures Front4(chain) == Rounds(words, iter + 1).chain == Feedback(Front4(hash))
    ensures hash[4..] == old(hash[4..])
  {
    var s := Round(words, iter, State(Front4(hash), Front4(chain)));
    Store4(hash, s.hash);
    Store4(chain, Feedback(Front4(hash)));
  }

  /** The final round on the values of hash[], chain[] and tail[] after the
      block loop and the switch. */
  method Final(mem: seq<byte>, size: nat, s: State, t: Words) returns (h: Words)
    requires size < TWO_64 && Readable(mem, size)
    requires 4 * ((size / 4) / 4) + size % 16 <= |WordsOf(mem)|
    requires s == Rounds(WordsOf(mem), (size / 4) / 4)
    requires t == TailAsWritten(WordsOf(mem), 4 * ((size / 4) / 4), size % 16)
    ensures h == Ah1Hash(mem, size)
  {
    h := FinalRound(s.hash, s.chain, t, Trunc32((size / 4) / 4));
  }

  // ----- the tail as intended -----

  /** tail[j] from the byte-indexed switch that the shifts by 8 * (k % 4)
      imply: case k + 1 ORs byte k of the remaining input,
      ((uint8_t*)blocks)[k], shifted by 8 * (k % 4), into tail[k / 4]; `at`
      is the byte offset of `blocks`. */
  function TailByteWord(input: seq<byte>, at: nat, r: nat, j: nat): bv32
    requires r < 16 && at + r <= |input| && j < 4
  {
    ((((0
      | (if r > 4 * j + 3 then (input[at + 4 * j + 3] as bv32) << 24 else 0))
      | (if r > 4 * j + 2 then (input[at + 4 * j + 2] as bv32) << 16 else 0))
      | (if r > 4 * j + 1 then (input[at + 4 * j + 1] as bv32) << 8 else 0))
      | (if r > 4 * j then (input[at + 4 * j] as bv32) << 0 else 0))
  }

  /** The intended tail[] of an input: its last |input| % 16 bytes after the
      whole blocks, read byte by byte. */
  function TailIntended(input: seq<byte>): Words
  {
    var r := |input| % 16;
    var at := |input| - r;
    Words(TailByteWord(input, at, r, 0), TailByteWord(input, at, r, 1), TailByteWord(input, at, r, 2), TailByteWord(input, at, r, 3))
  }

  /** The remaining bytes after the whole blocks, padded with zeros to 16. */
  function Padded(input: seq<byte>): (p: seq<byte>)
    ensures |p| == 16
  {
    var r := |input| % 16;
    input[|input| - r..] + seq(16 - r, _ => 0 as byte)
  }

  lemma PaddedAt(input: seq<byte>, k: nat)
    requires k < 16
    ensures Padded(input)[k] == if k < |input| % 16 then input[|input| - |input| % 16 + k] else 0
  {
  }

  /** One word of the intended tail is the little-endian word of the padded
      remainder. */
  lemma TailByteWordIsPadded(input: seq<byte>, j: nat)
    requires j < 4
    ensures TailByteWord(input, |input| - |input| % 16, |input| % 16, j) == Load32(Padded(input), 4 * j)
  {
    PaddedAt(input, 4 * j);
    PaddedAt(input, 4 * j + 1);
    PaddedAt(input, 4 * j + 2);
    PaddedAt(input, 4 * j + 3);
  }

  /** The intended tail[] holds the remaining bytes followed by zeros, as
      four little-endian words. It depends on the input's bytes only. */
  lemma TailIntendedIsPadded(input: seq<byte>)
    ensures TailIntended(input) == Words(Load32(Padded(input), 0), Load32(Padded(input), 4), Load32(Padded(input), 8), Load32(Padded(input), 12))
  {
    TailByteWordIsPadded(input, 0);
    TailByteWordIsPadded(input, 1);
    TailByteWordIsPadded(input, 2);
    TailByteWordIsPadded(input, 3);
  }

  /** ah1 with the intended switch, as a function of exactly the `size` input
      bytes. */
  function Ah1Intended(input: seq<byte>): Words
    requires |input| < TWO_64
  {
    var fullBlocks := (|input| / 4) / 4;
    FullBlocks(|input|);
    var s := Rounds(WordsOf(input), fullBlocks);
    FinalRound(s.hash, s.chain, TailIntended(input), Trunc32(fullBlocks))
  }

  /** The switch as written reads bytes beyond the input: one byte of input,
      followed in memory by 1, 0, 0 in one buffer and by 0, 0, 0 in the
      other, gives two different tails, and only the second is the intended
      one. */
  lemma TailReadsPastInput()
    ensures var a: seq<byte> := [1, 0, 0, 0];
            var b: seq<byte> := [1, 1, 0, 0];
            && a[..1] == b[..1] && Readable(a, 1) && Readable(b, 1)
            && TailAsWritten(WordsOf(a), 0, 1) == TailIntended(a[..1])
            && TailAsWritten(WordsOf(b), 0, 1) != TailIntended(b[..1])
  {
    var a: seq<byte> := [1, 0, 0, 0];
    var b: seq<byte> := [1, 1, 0, 0];
    assert WordsOf(a)[0] == Load32(a, 0) == 1;
    assert WordsOf(b)[0] == Load32(b, 0) == 0x101;
    assert a[..1] == b[..1] == [1];
  }

  /** Words assembled from the same four bytes are the same word. */
  lemma Load32OfSameBytes(a: seq<byte>, b: seq<byte>, off: nat)
    requires off + 4 <= |a| && off + 4 <= |b|
    requires a[off] == b[off] && a[off + 1] == b[off + 1]
    requires a[off + 2] == b[off + 2] && a[off + 3] == b[off + 3]
    ensures Load32(a, off) == Load32(b, off)
  {
  }

  /** A word lying in a common prefix of two buffers is the same word. */
  lemma Load32OfSamePrefix(a: seq<byte>, b: seq<byte>, m: nat, off: nat)
    requires off + 4 <= m <= |a| && m <= |b| && a[..m] == b[..m]
    ensures Load32(a, off) == Load32(b, off)
  {
    assert a[off] == a[..m][off] && b[off] == b[..m][off];
    assert a[off + 1] == a[..m][off + 1] && b[off + 1] == b[..m][off + 1];
    assert a[off + 2] == a[..m][off + 2] && b[off + 2] == b[..m][off + 2];
    assert a[off + 3] == a[..m][off + 3] && b[off + 3] == b[..m][off + 3];
    Load32OfSameBytes(a, b, off);
  }

  /** The words of a common prefix are common words. */
  lemma WordsOfPrefix(a: seq<byte>, b: seq<byte>, n: nat)
    requires 4 * n <= |a| && 4 * n <= |b| && a[..4 * n] == b[..4 * n]
    ensures WordsOf(a)[..n] == WordsOf(b)[..n]
  {
    forall i | 0 <= i < n
      ensures WordsOf(a)[i] == WordsOf(b)[i]
    {
      Load32OfSamePrefix(a, b, 4 * n, 4 * i);
    }
  }

  /** Two word sequences with the same first 4n words have the same first
      4(n - 1) words and the same block n - 1. */
  lemma BlockOfSamePrefix(a: seq<bv32>, b: seq<bv32>, n: nat)
    requires 0 < n && 4 * n <= |a| && 4 * n <= |b| && a[..4 * n] == b[..4 * n]
    ensures a[..4 * (n - 1)] == b[..4 * (n - 1)]
    ensures Block(a, n - 1) == Block(b, n - 1)
  {
    assert a[..4 * (n - 1)] == a[..4 * n][..4 * (n - 1)];
    assert b[..4 * (n - 1)] == b[..4 * n][..4 * (n - 1)];
    var k := 4 * (n - 1);
    assert a[k] == a[..4 * n][k] && b[k] == b[..4 * n][k];
    assert a[k + 1] == a[..4 * n][k + 1] && b[k + 1] == b[..4 * n][k + 1];
    assert a[k + 2] == a[..4 * n][k + 2] && b[k + 2] == b[..4 * n][k + 2];
    assert a[k + 3] == a[..4 * n][k + 3] && b[k + 3] == b[..4 * n][k + 3];
  }

  /** The block loop reads only its own blocks: words that agree on the first
      4n words give the same state after n iterations. */
  lemma {:induction false} RoundsOfSamePrefix(a: seq<bv32>, b: seq<bv32>, n: nat)
    requires 4 * n <= |a| && 4 * n <= |b| && a[..4 * n] == b[..4 * n]
    ensures Rounds(a, n) == Rounds(b, n)
  {
    if n > 0 {
      BlockOfSamePrefix(a, b, n);
      RoundsOfSamePrefix(a, b, n - 1);
    }
  }

  /** For a size that is a multiple of 16, ah1 as written reads only its input
      and computes the intended hash. */
  lemma Ah1OfWholeBlocks(mem: seq<byte>, size: nat)
    requires size < TWO_64 && size % 16 == 0 && size <= |mem|
    ensures Readable(mem, size)
    ensures Ah1Hash(mem, size) == Ah1Intended(mem[..size])
  {
    var input := mem[..size];
    var n := (size / 4) / 4;
    FullBlocks(size);
    assert mem[..4 * (4 * n)] == input[..4 * (4 * n)];
    WordsOfPrefix(mem, input, 4 * n);
    RoundsOfSamePrefix(WordsOf(mem), WordsOf(input), n);
    assert TailAsWritten(WordsOf(mem), 4 * n, 0) == TailIntended(input) == ZERO;
  }

  /** The rest of ah1 after the block loop, with `blocks` at word
      4 * full_blocks: the switch builds tail[], then the final round updates
      hash[]. */
  method Finish(mem: seq<byte>, size: nat, words: seq<bv32>, blocks: nat, hash: array<bv32>, chain: array<bv32>)
    requires hash != chain && 4 <= hash.Length && chain.Length == 4
    requires size < TWO_64 && Readable(mem, size) && words == WordsOf(mem) && blocks == 4 * ((size / 4) / 4)
    requires State(Front4(hash), Front4(chain)) == Rounds(words, (size / 4) / 4)
    modifies hash
    ensures Front4(hash) == Ah1Hash(mem, size)
    ensures hash[4..] == old(hash[4..])
  {
    ReadableWords(mem, size);
    var tail := BuildTail(words, blocks, size % 16);
    var h := Final(mem, size, State(Front4(hash), Front4(chain)), Front4(tail));
    Store4(hash, h);
  }

  /** The block loop: full_blocks iterations, the word pointer `blocks`
      moving four words on at the end of each. It returns where `blocks`
      stops. */
  method BlockLoop(words: seq<bv32>, fullBlocks: nat, hash: array<bv32>, chain: array<bv32>) returns (blocks: nat)
    requires hash != chain && 4 <= hash.Length && chain.Length == 4
    requires 4 * fullBlocks <= |words|
    requires Front4(hash) == SEED
    requires Front4(chain) == CHAIN
    modifies hash, chain
    ensures blocks == 4 * fullBlocks
    ensures Front4(hash) == Rounds(words, fullBlocks).hash
    ensures Front4(chain) == Rounds(words, fullBlocks).chain
    ensures hash[4..] == old(hash[4..])
  {
    blocks := 0;
    var iter := 0;
    while iter < fullBlocks
      invariant iter <= fullBlocks && blocks == 4 * iter
      invariant Front4(hash) == Rounds(words, iter).hash
      invariant Front4(chain) == Rounds(words, iter).chain
      invariant iter > 0 ==> Front4(chain) == Feedback(Front4(hash))
      invariant hash[4..] == old(hash[4..])
    {
      BlockStep(words, blocks, iter, hash, chain);
      blocks := blocks + 4;
      iter := iter + 1;
    }
  }

  /** ah1(bytes, size, hash): the seeds, the block loop over whole 16-byte
      blocks, the switch and the final round; it writes hash[0..3] and
      nothing else. `size & 15` is size % 16. */
  method Ah1(bytes: array<byte>, size: nat, hash: array<bv32>)
    requires size < TWO_64 && Readable(bytes[..], size)
    requires 4 <= hash.Length
    modifies hash
    ensures Front4(hash) == Ah1Hash(bytes[..], size)
    ensures hash[4..] == old(hash[4..])
  {
    Store4(hash, Words(0x5a44f074, 0x35e820f6, 0x674f1845, 0x7fb5de7f));
    var words := WordsOf(bytes[..]);
    var totalBlocks := size / 4;
    var fullBlocks := totalBlocks / 4;
    var chain := new bv32[4] [0x8bca9b, 0x2413c9, 0x49f6dc3, 0x97b1];
    ReadableWords(bytes[..], size);
    var blocks := BlockLoop(words, fullBlocks, hash, chain);
    Finish(bytes[..], size, words, blocks, hash, chain);
  }
}
