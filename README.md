# AH1 hash functions in Dafny

This project models the hashing core of AH1, a small non-cryptographic hash
library written in C. The model covers:

- **piHash** (`pihash.c`): `piHash32`, `piHash64` and `piHash128`, with:
  - their mixers `mix32` and `mix64`;
  - the fetch helpers `fetch8`, `fetch16` and `fetch32`;
  - the rotation macros and `PIHASH_PERMUTE32`/`PIHASH_PERMUTE64`.
- **ah1** (`hash.c`): the older 128-bit hash, with its mixer `mix`, the block
  loop with its `chain[]` feedback, the fall-through tail switch and the
  final round.
- **mixer tests** (`tests/mix.c`, `test_mix.c`): the Hamming score of the
  test programs, `murmur1`, and the copy of `mix` that `test_mix.c` carries.

The C code takes two forms in the model.

- Its loops, its `memcpy` calls and its stores into arrays are Dafny
  methods with the same loops, the same stores and loop invariants: the
  block loops (`PiHash.BlockLoop32`, `BlockLoop64`, `BlockLoop128`,
  `Ah1.BlockLoop`), the tail buffers (`PiHash.TailBuffer`), `Host.Memcpy`,
  the stores of piHash128 and ah1 into `hash[]` (`PiHash.Finalise128`,
  `Ah1.BlockStep`, `Ah1.Finish`), ah1's switch (`Ah1.BuildTail`) and the
  Hamming loops (`Hamming.TestHamming32`, `TestHamming64`).
- Its straight-line updates of local words are functions on values: `mix32`,
  `mix64`, `mix` and `murmur1`, the lane updates of one loop iteration, the
  tail step, the cross-mix and the fold. A sequence of assignments to locals
  changes nothing outside them, so the function that returns the final
  values is the whole of its effect.

Each method is proved to compute a Dafny function of its inputs:

- `PiHash.PiHash32` computes `Hash32`;
- `Ah1.Ah1` computes `Ah1Hash`;
- `Hamming.TestHamming32` computes `PopCount32`.

Lemmas then state what the source promises, or what its code implies, about
those functions.

The model is written for a little-endian host. Loading a `uint16_t` or a
`uint32_t` from memory is the base-256 number whose lowest digit is at the
lowest address (`Host.Load16`, `Host.Load32`). Widths are explicit:

- `size_t` is a `nat` below 2^64;
- a `size_t` expression stored back into a `uint32_t` keeps its low 32
  bits (`Bits.Trunc32`);
- all word arithmetic is on `bv32`/`bv64`, so it wraps as C's unsigned
  arithmetic does.

Whether `char` is signed is up to the C implementation. It is a parameter
`signedChar` of `PiHash.Fetch8` and `PiHash.PiHash32`.

Two behaviours of the code as written are modelled as written, and lemmas
state their consequences.

1. The piHash block loops never advance `bytes`. Every iteration fetches
   bytes 0 to c-1 again. So only the first block and the last c bytes of an
   input reach its hash: see `Hash32OfSameEnds` and `Hash32IgnoresMiddle`,
   and the same lemmas for 64 and 128. The comments on the loops say they
   read the input in c-byte blocks. So the model also defines the loops
   with `bytes` advanced by c per iteration (`BlocksAdvancing32` and the
   same for 64 and 128). Their hashes are `Hash32Advancing`,
   `Hash64Advancing` and `Hash128Advancing`. Each block loop step is proved
   invertible in its block (`Absorb32Invertible`). So with the advancing
   loops every block reaches the lanes (`BlockReachesLanes32`). Up to two
   blocks, the advancing and the as-written loops agree
   (`Hash32AdvancingOfShort`).
2. The ah1 tail switch indexes the input through the `uint32_t` pointer
   `blocks`. Its case `k + 1` reads word k, where byte k was meant. For a
   size that is not a multiple of 16 it therefore reads `4 * (size % 16)`
   bytes where only `size % 16` remain. `Ah1.Ah1` requires that memory to
   be readable (`Ah1.Readable`). The byte-indexed switch is modelled
   alongside as `Ah1.TailIntended` (see Findings).

Modules, one per source concern:

- `Bits` (`bits.dfy`): rotations, truncation, population count and Hamming
  distance.
- `Host` (`host.dfy`): little-endian loads and stores, and `memcpy`.
- `PiHash` (`pihash.dfy`).
- `Ah1` (`ah1.dfy`).
- `Hamming` (`hamming.dfy`).
- `TestMix` (`test_mix.c`'s mixers, in `testmix.dfy`).

## Model

| member | source | states |
|---|---|---|
| Bits.RotL32 | pihash.c:127 | LROTATE32 without clang: the word shifted left by s or-ed with it shifted right by 32 - s, for 0 < s < 32 (defines the rotation; its properties are RotL32IsRotR32 and Rot32MacrosAreBuiltins) |
| Bits.RotR32 | pihash.c:128 | RROTATE32 without clang: shifted right by s or-ed with shifted left by 32 - s (definition) |
| Bits.RotL64 | pihash.c:130 | LROTATE64 without clang, for 0 < s < 64 (definition) |
| Bits.RotR64 | pihash.c:131 | RROTATE64 without clang, for 0 < s < 64 (definition) |
| Bits.RotL32IsRotR32 | pihash.c:127-128 | the shift-or rotation macros: a left rotation by s is the right rotation by 32 - s, for every 0 < s < 32 |
| Bits.RotL64IsRotR64 | pihash.c:130-131 | the same for the 64-bit macros and 0 < s < 64 |
| Bits.Rot32MacrosAreBuiltins | pihash.c:120-132 | for every 32-bit rotation amount the engines use, the shift-or macro equals clang's rotation builtin, so both compilations compute the same hash |
| Bits.Rot64MacrosAreBuiltins | pihash.c:120-132 | the same for every 64-bit rotation of piHash64 and mix64 |
| Bits.Trunc32Modular | pihash.c:338 | storing a size_t value into a uint32_t (here `size` added to a 32-bit word) keeps it modulo 2^32: adding a multiple of 2^32 does not change the result |
| Bits.Trunc64Modular | pihash.c:259 | the same modulo 2^64 for the size_t counter in piHash64's 64-bit lane arithmetic |
| Bits.XorRotL32By11Complement | hash.c:51 | the second step of mix, n ^ rotl(n, 11), gives the same word for n and its complement |
| Bits.XorRotL32By16Complement | pihash.c:144 | the same for mix32's n ^ rotl(n, 16) |
| Bits.XorRotL64By31Complement | pihash.c:167 | the same for mix64's n ^ rotl(n, 31) |
| Bits.HammingDistance32 | tests/mix.c:38-49 | the number of differing bits of two 32-bit words is at most 32, symmetric, and zero exactly when the words are equal |
| Bits.HammingDistance64 | tests/mix.c:51-62 | the same for 64-bit words, at most 64 |
| Host.Load16 | pihash.c:101-102 | the uint16_t that memcpy of two bytes gives on a little-endian host: the byte at off plus 256 times the next (definition; its properties are Load16Value and Load16Store16) |
| Host.Load32 | pihash.c:108-109 | the uint32_t that memcpy of four bytes gives on a little-endian host, lowest byte first (definition; its properties are Load32Value and Load32Store32) |
| Host.Load16Store16 | pihash.c:99-104 | memcpy of two bytes into a uint16_t and the bytes of a uint16_t are inverse to each other |
| Host.Load32Store32 | pihash.c:106-111 | the same for four bytes and uint32_t |
| Host.Memcpy | pihash.c:213 | copying n bytes from src + off into dst sets dst[0..n) to those bytes and leaves the rest of dst unchanged |
| PiHash.Permute32 | pihash.c:78-83 | PIHASH_PERMUTE32(x, y, z): x takes y, y takes z and z takes the old x; w is untouched (definition) |
| PiHash.Permute64 | pihash.c:85-90 | PIHASH_PERMUTE64, the same on the 64-bit lanes (definition) |
| PiHash.Permute32IsThreeCycle | pihash.c:78-83 | the permutation keeps w and moves x, y, z to y, z, x; applied three times it is the identity, and it fixes a state exactly when x, y and z are equal |
| PiHash.Permute64IsThreeCycle | pihash.c:85-90 | the same for the 64-bit lanes |
| PiHash.Fetch8 | pihash.c:92-97 | fetch8: the char at p + off converted to uint32_t, with signedness a parameter (definition; its properties are Fetch8Extends and Fetch8Injective) |
| PiHash.Fetch16 | pihash.c:99-104 | fetch16: the uint16_t at p + off widened to uint64_t, with no byte swap on a little-endian host (definition) |
| PiHash.Fetch32 | pihash.c:106-111 | fetch32: the uint32_t at p + off, with no byte swap (definition) |
| PiHash.CharToUint32IsModular | pihash.c:92-97 | fetch8's conversion of a char to uint32_t is C's conversion modulo 2^32: a negative signed char c - 256 becomes 2^32 - (256 - c) |
| PiHash.Fetch8Extends | pihash.c:92-97 | fetch8 keeps the byte in the low 8 bits and sign-extends it when char is signed, zero-extends it otherwise |
| PiHash.Fetch16Value | pihash.c:99-104 | fetch16 is p[0] + 256 p[1], below 2^16, widened to 64 bits |
| PiHash.Fetch32Value | pihash.c:106-111 | fetch32 is the little-endian value of four bytes (no byte swap on a little-endian host) |
| PiHash.Fetch8Injective | pihash.c:92-97 | fetch8 maps two bytes to the same word exactly when the bytes are equal, whether char is signed or not |
| PiHash.Widen16Injective | pihash.c:99-104 | widening fetch16's uint16_t to uint64_t keeps two values apart exactly when they differ |
| PiHash.Fetch16Differs | pihash.c:99-104 | two inputs that differ in one of the two bytes fetch16 reads give different words |
| PiHash.Fetch32Injective | pihash.c:106-111 | fetch32 gives two inputs the same word exactly when the four bytes it reads are equal |
| PiHash.Fetch32Differs | pihash.c:106-111 | two inputs that differ in one of the four bytes fetch32 reads give different words |
| PiHash.Fetch16OfSameBytes | pihash.c:99-104 | fetch16 reads nothing but its two bytes |
| PiHash.Fetch32OfSameBytes | pihash.c:106-111 | fetch32 reads nothing but its four bytes |
| PiHash.Mix32 | pihash.c:136-150 | mix32's five statements: multiply by 0x2ca803f9, xor with the left rotation by 16, xor with 0x3583c01f times the shift right by 11 plus 0x34504db3, multiply by the right rotation by 4, and xor with 0x243e4223 times the word shifted left by 7 (definition; its property is Mix32NotInjective) |
| PiHash.Mix64 | pihash.c:152-177 | mix64's five statements with its 64-bit constants and the rotations by 31 and 33 and shifts by 27 and 37 (definition; its property is Mix64NotInjective) |
| PiHash.Mix32NotInjective | pihash.c:136-150 | mix32 maps every input and a different twin to the same word, so it is not a bijection and takes at most 2^31 values |
| PiHash.Mix64NotInjective | pihash.c:152-177 | the same for mix64 |
| PiHash.ChunksCount | pihash.c:200-201 | for size >= 1 the loop bound is c times floor((size - 1) / c), so the block loop runs floor((size - 1) / c) times; for size == 0 the bound wraps to 2^64 - c |
| PiHash.ClearLowBits2 | pihash.c:200 | clearing the low two bits of a size_t rounds it down to a multiple of 4 |
| PiHash.ClearLowBits3 | pihash.c:257 | clearing the low three bits rounds down to a multiple of 8 |
| PiHash.ClearLowBits4 | pihash.c:307 | clearing the low four bits rounds down to a multiple of 16 |
| PiHash.Mul32K1Inverse | pihash.c:202 | multiplying a uint32_t by the lane constant 0x21914047 is undone modulo 2^32 by 0xf9f26977, in both orders |
| PiHash.Mul64K1Inverse | pihash.c:259 | multiplying a uint64_t by 0x21914047 is undone modulo 2^64 by 0x604959e8f9f26977, in both orders |
| PiHash.Mul32K2Inverse | pihash.c:203 | multiplying a uint32_t by the lane constant 0x0356ac85 is undone modulo 2^32 by 0x296e6c4d, in both orders |
| PiHash.Mul64K2Inverse | pihash.c:260 | multiplying a uint64_t by 0x0356ac85 is undone modulo 2^64 by 0x6f50740b296e6c4d, in both orders |
| PiHash.Mul32K3Inverse | pihash.c:204 | multiplying a uint32_t by the lane constant 0x0f7527d9 is undone modulo 2^32 by 0x23c6e869, in both orders |
| PiHash.Mul64K3Inverse | pihash.c:261 | multiplying a uint64_t by 0x0f7527d9 is undone modulo 2^64 by 0x2a2e572823c6e869, in both orders |
| PiHash.Mul32K4Inverse | pihash.c:205 | multiplying a uint32_t by the lane constant 0x1b873593 is undone modulo 2^32 by 0x56ed309b, in both orders |
| PiHash.Mul64K4Inverse | pihash.c:262 | multiplying a uint64_t by 0x1b873593 is undone modulo 2^64 by 0x9f37233e56ed309b, in both orders |
| PiHash.TailBytes | pihash.c:209-215 | byte k of the tail buffer is input byte k, or zero past the end of a short input, or input byte size - c + k for a long input |
| PiHash.TailOfSameEnd | pihash.c:209-215 | inputs of one length that end in the same c bytes (or are equal, when shorter than c) fill the same tail buffer |
| PiHash.TailBuffer | pihash.c:210-215 | the zeroed buffer after the memcpy is the tail of the input, and the bytes read lie inside the input |
| PiHash.Absorb32 | pihash.c:202-206 | one iteration of piHash32's loop body on four fetched words at position pos: the four lane updates with the rotations by 11, 17, 3 and 23 and the constants 0x21914047, 0x0356ac85, 0x0f7527d9, 0x1b873593, then the permutation (definition; its properties are Absorb32Invertible and Absorb32Injective) |
| PiHash.Blocks32Next | pihash.c:202-206 | the loop body takes the lanes from iteration j to iteration j + 1 |
| PiHash.BlockLoop32 | pihash.c:200-207 | the block loop leaves the lanes of floor((size - 1) / 4) iterations, each on bytes 0..3 |
| PiHash.Loop32OfSameFirst | pihash.c:200-207 | the block loop depends on the input only through its size and its first four bytes |
| PiHash.TailStep32 | pihash.c:217-221 | the same lane updates on the four bytes of tail[], at position size truncated to 32 bits (definition) |
| PiHash.CrossMix32 | pihash.c:223-227 | w takes w + x - y ^ z, then x loses w, y is xor-ed with w and z gains w (definition; its properties are CrossMix32Invertible and CrossMix32Onto) |
| PiHash.CrossMix32Invertible | pihash.c:223-227 | the cross-mix of the four lanes loses nothing: undoing its steps in reverse order recovers the lanes |
| PiHash.CrossMix32Onto | pihash.c:223-227 | every lane state is the cross-mix of some state, so the cross-mix is a bijection |
| PiHash.Fold32 | pihash.c:228-233 | each lane gains its mix32 and, from x on, the lane before it; the result is the xor of the four (definition) |
| PiHash.Hash32 | pihash.c:187-235 | piHash32 of a non-empty input of fewer than 2^64 bytes: the block loop, the tail step, the cross-mix and the fold (definition; PiHash32 is proved to compute it) |
| PiHash.PiHash32 | pihash.c:187-235 | piHash32 returns Hash32 of the size input bytes and writes nothing |
| PiHash.Hash32OfSameEnds | pihash.c:200-221 | two inputs of one size that agree on their first four and last four bytes have the same piHash32 |
| PiHash.Hash32IgnoresMiddle | pihash.c:201-207 | changing a byte strictly between the first four and the last four leaves piHash32 unchanged |
| PiHash.Absorb32Invertible | pihash.c:202-206 | one iteration of the block loop loses nothing of its block: from the lanes before it, its position and the lanes after it the four fetched words are recovered |
| PiHash.Absorb32Injective | pihash.c:202-206 | from the same lanes at the same position, two blocks leave the same lanes exactly when their fetched words are equal |
| PiHash.Loop32AdvancingOfShort | pihash.c:200-207 | for inputs of 1 to 8 bytes the loop as written and the advancing loop leave the same lanes |
| PiHash.Hash32AdvancingOfShort | pihash.c:187-235 | for inputs of 1 to 8 bytes piHash32 as written and with the advancing loop give the same hash |
| PiHash.BlocksAdvancing32OfSamePrefix | pihash.c:195-207 | the advancing loop after n iterations depends only on the first 4n bytes |
| PiHash.FetchedBlock32Differs | pihash.c:202-205 | two inputs that differ at a byte of block k fetch different words from it |
| PiHash.BlockReachesLanes32 | pihash.c:195-207 | with the advancing loop, two inputs that agree before block j and differ at a byte of it leave iteration j with different lanes: every block reaches the state |
| PiHash.Absorb64 | pihash.c:259-263 | one iteration of piHash64's loop body on four fetched 64-bit words at position pos, with the rotations by 61, 16, 13 and 19 (definition; its properties are Absorb64Invertible and Absorb64Injective) |
| PiHash.Blocks64Next | pihash.c:259-263 | the loop body takes the lanes from iteration j to iteration j + 1 |
| PiHash.BlockLoop64 | pihash.c:257-264 | the block loop leaves the lanes of floor((size - 1) / 8) iterations, each on bytes 0..7 |
| PiHash.Loop64OfSameFirst | pihash.c:257-264 | the block loop depends on the input only through its size and its first eight bytes |
| PiHash.TailStep64 | pihash.c:274-278 | the lane updates on the four 16-bit words of tail[], at position size modulo 2^64 (definition) |
| PiHash.CrossMix64 | pihash.c:280-283 | the 64-bit cross-mix (definition) |
| PiHash.CrossMix64Invertible | pihash.c:280-283 | the 64-bit cross-mix is undone by its steps in reverse order |
| PiHash.CrossMix64Onto | pihash.c:280-283 | every 64-bit lane state is the cross-mix of some state |
| PiHash.Fold64 | pihash.c:285-290 | the 64-bit fold with mix64 (definition) |
| PiHash.Hash64 | pihash.c:244-292 | piHash64 of a non-empty input of fewer than 2^64 bytes (definition; PiHash64 is proved to compute it) |
| PiHash.PiHash64 | pihash.c:244-292 | piHash64 returns Hash64 of the size input bytes and writes nothing |
| PiHash.Hash64OfSameEnds | pihash.c:257-278 | two inputs of one size that agree on their first and last eight bytes have the same piHash64 |
| PiHash.Hash64IgnoresMiddle | pihash.c:258-264 | a byte strictly between the first and the last eight does not reach piHash64 |
| PiHash.Absorb64Invertible | pihash.c:259-263 | one iteration of piHash64's block loop loses nothing of its block: the four fetched words are recovered from the lanes before and after it |
| PiHash.Absorb64Injective | pihash.c:259-263 | from the same lanes at the same position, two blocks leave the same lanes exactly when their fetched words are equal |
| PiHash.Loop64AdvancingOfShort | pihash.c:257-264 | for inputs of 1 to 16 bytes the two loops leave the same lanes |
| PiHash.Hash64AdvancingOfShort | pihash.c:244-292 | for inputs of 1 to 16 bytes piHash64 as written and with the advancing loop give the same hash |
| PiHash.FetchedBlock64OfSameBytes | pihash.c:259-262 | two inputs with the same eight bytes in a block fetch the same four words from it |
| PiHash.BlocksAdvancing64OfSamePrefix | pihash.c:252-264 | the advancing loop after n iterations depends only on the first 8n bytes |
| PiHash.FetchedBlock64Differs | pihash.c:259-262 | two inputs that differ at a byte of block k fetch different words from it |
| PiHash.BlockReachesLanes64 | pihash.c:252-264 | with the advancing loop, two inputs that agree before block j and differ at a byte of it leave iteration j with different lanes |
| PiHash.Absorb128 | pihash.c:310-315 | one iteration of piHash128's loop body: each lane takes its rotated word times its constant plus the xor of the position or the lane before with the lane, then the permutation (definition; its properties are Absorb128Invertible and Absorb128Injective) |
| PiHash.Blocks128Next | pihash.c:310-315 | the loop body takes the lanes from iteration j to iteration j + 1 |
| PiHash.BlockLoop128 | pihash.c:307-316 | the block loop leaves the lanes of floor((size - 1) / 16) iterations, each on bytes 0..15 |
| PiHash.Loop128OfSameFirst | pihash.c:307-316 | the block loop depends on the input only through its size and its first sixteen bytes |
| PiHash.TailStep128 | pihash.c:326-331 | the tail step of piHash128, whose constants 0x0356ac85, 0x0f7527d9, 0x1b873593, 0x21914047 differ from the block loop's and which adds no position (definition) |
| PiHash.Final128 | pihash.c:338-346 | the four output words: hash[0] is mix32(w) plus size truncated to 32 bits, each later word mix32 of its lane plus the word before; always four words |
| PiHash.Hash128 | pihash.c:294-347 | the four words piHash128 writes for a non-empty input (definition; PiHash128 is proved to store them) |
| PiHash.Finalise128 | pihash.c:338-346 | the chained finalisation writes mix32 of each lane plus the previous word (plus size for the first) into hash[0..3] and nothing else |
| PiHash.PiHash128 | pihash.c:294-347 | piHash128 writes Hash128 of the size input bytes into hash[0..3] and leaves the rest of the array unchanged |
| PiHash.Lanes128OfSameEnds | pihash.c:307-336 | two inputs of one size that agree on their first and last sixteen bytes reach the finalisation with the same lanes |
| PiHash.Hash128OfSameEnds | pihash.c:307-346 | such inputs have the same piHash128 |
| PiHash.Hash128IgnoresMiddle | pihash.c:308-316 | a byte strictly between the first and the last sixteen does not reach piHash128 |
| PiHash.Absorb128Invertible | pihash.c:310-315 | one iteration of piHash128's block loop loses nothing of its block: the four fetched words are recovered from the lanes before and after it |
| PiHash.Absorb128Injective | pihash.c:310-315 | from the same lanes at the same position, two blocks leave the same lanes exactly when their fetched words are equal |
| PiHash.Loop128AdvancingOfShort | pihash.c:307-316 | for inputs of 1 to 32 bytes the two loops leave the same lanes |
| PiHash.Hash128AdvancingOfShort | pihash.c:294-347 | for inputs of 1 to 32 bytes piHash128 as written and with the advancing loop give the same four words |
| PiHash.FetchedBlock128OfSameBytes | pihash.c:310-313 | two inputs with the same sixteen bytes in a block fetch the same four words from it |
| PiHash.BlocksAdvancing128OfSamePrefix | pihash.c:302-316 | the advancing loop after n iterations depends only on the first 16n bytes |
| PiHash.FetchedBlock128Differs | pihash.c:310-313 | two inputs that differ at a byte of block k fetch different words from it |
| PiHash.BlockReachesLanes128 | pihash.c:302-316 | with the advancing loop, two inputs that agree before block j and differ at a byte of it leave iteration j with different lanes |
| Ah1.SeedIsPiHash128Seed | hash.c:71-74 | ah1 seeds hash[0..3] with the four seeds of piHash128 |
| Ah1.Mix | hash.c:42-62 | mix: multiply by 0x483b86d5, xor with the left rotation by 11, then MixShiftAdd, MixMulRot and MixShiftMul (definition; its property is MixNotInjective) |
| Ah1.MixShiftAdd | hash.c:52 | the third statement of mix: xor with 0x3af1de9b times the word shifted right by 13, plus 0x28330d1b (definition) |
| Ah1.MixMulRot | hash.c:53 | the fourth statement: the word times its right rotation by 7 (definition) |
| Ah1.MixShiftMul | hash.c:54 | the fifth statement: xor with 0x13a7ce59 times the word, shifted left by 17 (definition) |
| Ah1.Stir | hash.c:89-92 | the second half of each round, also hash.c:127-130: each word in turn gains (or is xor-ed with) the mix of the next times a rotation of the one after, the later steps seeing the new hash[0] and hash[1] (definition) |
| Ah1.BlockRound | hash.c:84-92 | one iteration's eight updates of hash[0..3] from blocks[0..3], chain[] and the counter truncated to 32 bits (definition; its properties are the BlockStep and BlockLoop contracts) |
| Ah1.FinalRound | hash.c:122-130 | the final round on tail[], whose third step mixes hash[1] times chain[2] and xors in tail[3] (definition) |
| Ah1.Feedback | hash.c:94-97 | chain[] takes hash[3], hash[2], hash[0], hash[1] (definition) |
| Ah1.MixNotInjective | hash.c:42-62 | mix maps every input and a different twin to the same word |
| Ah1.WordsOf | hash.c:76 | the buffer seen through a uint32_t pointer has |mem| / 4 words (a trailing partial word is not one of them), word i being the little-endian value of bytes 4i..4i+3 |
| Ah1.FullBlocks | hash.c:77-78 | full_blocks = (size / 4) / 4 is the number of whole 16-byte blocks, and size % 16 bytes remain after them |
| Ah1.Rounds | hash.c:83-100 | hash[] and chain[] after n iterations of the block loop, from the seeds and the initial chain (definition) |
| Ah1.Round | hash.c:84-97 | one iteration takes the state of iteration iter to that of iter + 1 |
| Ah1.BlockStep | hash.c:84-99 | the loop body on the arrays: hash[0..3] and chain[] go from iteration iter to iter + 1, and after it chain[] holds hash[3], hash[2], hash[0], hash[1] of the new hash (the feedback of lines 94-97); hash[4..] is untouched |
| Ah1.BlockLoop | hash.c:83-100 | after the loop hash[] and chain[] hold the state of full_blocks iterations and `blocks` points at word 4 * full_blocks |
| Ah1.TailAsWritten | hash.c:104-120 | tail[] as the fall-through switch leaves it: tail[j] ORs the words blocks[4j + 3] down to blocks[4j] below size & 15, shifted by 24, 16, 8 and 0 (definition; its properties are TailOfWholeBlocks and TailReadsPastInput) |
| Ah1.SwitchWord | hash.c:104-120 | the cases of the switch that write tail[j] OR in the words of `blocks` below size & 15, shifted by 8 times their position in the word |
| Ah1.BuildTail | hash.c:102-120 | the zeroed tail[] after the fall-through switch is TailAsWritten of the words at `blocks` |
| Ah1.TailOfWholeBlocks | hash.c:104-120 | when size is a multiple of 16 the switch leaves tail[] zero |
| Ah1.ReadableWords | hash.c:76-120 | the bytes ah1 needs hold every word the block loop and the switch index |
| Ah1.Ah1Hash | hash.c:69-135 | hash[0..3] as ah1 leaves them: the block loop over the whole 16-byte blocks, the switch and the final round with full_blocks truncated to 32 bits (definition; Ah1 is proved to store it) |
| Ah1.Final | hash.c:122-130 | the final round on the state after the loop and on tail[] gives Ah1Hash |
| Ah1.Finish | hash.c:102-130 | the switch and the final round leave Ah1Hash in hash[0..3] and leave hash[4..] unchanged |
| Ah1.Ah1 | hash.c:69-135 | ah1 writes Ah1Hash of the input into hash[0..3] and nothing else |
| Ah1.TailByteWordIsPadded | hash.c:104-120 | one word of the byte-indexed tail is the little-endian word of the remaining bytes padded with zeros |
| Ah1.TailIntendedIsPadded | hash.c:102-120 | the byte-indexed tail[] is the remaining size % 16 bytes followed by zeros, read as four little-endian words |
| Ah1.TailReadsPastInput | hash.c:104-120 | two buffers whose one input byte is equal, differing only past the input, give different tails with the switch as written; only one of them is the byte-indexed tail |
| Ah1.WordsOfPrefix | hash.c:76 | buffers with the same first 4n bytes have the same first n words |
| Ah1.RoundsOfSamePrefix | hash.c:83-100 | the block loop reads only its own blocks: word sequences with the same first 4n words give the same state after n iterations |
| Ah1.Ah1OfWholeBlocks | hash.c:69-135 | for a size that is a multiple of 16, ah1 as written reads only its input and equals the byte-indexed hash Ah1Intended |
| Hamming.TestHamming32 | tests/mix.c:38-49 | test_hamming32's score is the number of bit positions in which the two words differ; it is at most 32 and zero exactly when the words are equal (test_hamming of test_mix.c:30-41 is the same loop over unsigned int) |
| Hamming.TestHamming64 | tests/mix.c:51-62 | test_hamming64's score is the number of differing bit positions of two 64-bit words, at most 64 and zero exactly when the words are equal |
| TestMix.Murmur1 | test_mix.c:11-28 | murmur1: xor-shift by 16, multiply by 0x3af1de9b, xor-shift by 13, multiply by 0x13a7ce59, xor-shift by 16 (definition; its properties are Murmur1Invertible, Murmur1Onto and Murmur1Injective) |
| TestMix.XorShr16Involutive | test_mix.c:18 | the xor-shift by 16 is its own inverse |
| TestMix.XorShr13Inverse | test_mix.c:20 | the xor-shift by 13 is undone by xor with the shifts by 13 and by 26, in both orders |
| TestMix.MulLInverse | test_mix.c:19 | multiplication by 0x3af1de9b is undone modulo 2^32 by 0x658bd793, in both orders |
| TestMix.MulRInverse | test_mix.c:21 | multiplication by 0x13a7ce59 is undone modulo 2^32 by 0xb74299e9, in both orders |
| TestMix.Murmur1Invertible | test_mix.c:11-28 | murmur1 has an inverse: Unmurmur1 recovers its input |
| TestMix.Murmur1Onto | test_mix.c:11-28 | every word is murmur1 of its Unmurmur1 |
| TestMix.Murmur1Injective | test_mix.c:11-28 | murmur1 maps two words to the same value exactly when they are equal |
| TestMix.Mix | test_mix.c:43-74 | test_mix.c's mix as clang compiles it, each of its five statements transcribed anew (definition; its properties are MixAgrees and MixCollides) |
| TestMix.RotatedXorAgrees | test_mix.c:46-60 | the second statement of mix gives the same word with the builtin rotation and with the shift-or macro |
| TestMix.MulRotatedAgrees | test_mix.c:46-62 | the same for the fourth statement and the right rotation by 7 |
| TestMix.ShiftAddAgrees | test_mix.c:61 | the third statement of test_mix.c's mix is that of hash.c:52 |
| TestMix.ShiftMulAgrees | test_mix.c:63 | the fifth statement is that of hash.c:54 |
| TestMix.MixAgrees | test_mix.c:43-74 | test_mix.c's mix, compiled with clang's builtins, is hash.c's mix for every input, statement by statement |
| TestMix.MixCollides | test_mix.c:43-74 | unlike murmur1, mix maps two different words to the same value |

## Left out

- Hamming.TestHamming32: returns the integer score. The division by the word width into a `float` is not modelled, because the model has no floating point.
- Hamming.TestHamming64: the same; the integer score only.
- The `main` functions of tests/mix.c and test_mix.c are not modelled. They draw random inputs, average floating-point scores and print or assert on them.
- The average-score (avalanche) tolerance those mains assert is a statistical property over random inputs; no contract states it.
- piHash256, the commented-out fetch64, and the digest, dictionary and REPL programs are not part of this model.
- `ah1_print` and all printing are not modelled (I/O).
- The byte-swapping macros of a big-endian host (`WORDS_BIGENDIAN`, `bswap_32`, `bswap_64`) are left out; the model fixes a little-endian host.
- PiHash.PiHash32, PiHash.PiHash64, PiHash.PiHash128: require size >= 1. With size == 0 the C code's `size - 1` wraps in size_t, and the block loop would read 2^64 - c bytes past an empty buffer. `PiHash.ChunksCount` states the wrapped bound.
- Ah1.Ah1: requires the 3 * (size % 16) bytes past the input that the switch reads as written to be readable. What unallocated memory would give is not modelled.
- `last_blocks` (hash.c:79) is computed and never used; it is not modelled.
- The model stores into byte and word arrays as Dafny arrays. The C `restrict` pointers and `void *` casts carry no aliasing or alignment model beyond `hash` and `chain` being distinct arrays.
- The helpers of `Bits` that only serve proofs (the population-count chunk lemmas, `Pow2Add`, the `LowBits` lemmas, the add, subtract and xor cancellation lemmas, and one rotation-inverse lemma per rotation amount) have no row of their own, and neither do these proof steps of the pihash and ah1 models:
  - `PiHash.PrefixSplits`, a fact about sequence slices;
  - `PiHash.Blocks32Step`, `Blocks64Step`, `Blocks128Step` and
    `Blocks32One`, `Blocks64One`, `Blocks128One`, which unfold one
    iteration of the loops as written;
  - `PiHash.BlocksAdvancing32Step`, `BlocksAdvancing64Step`,
    `BlocksAdvancing128Step` and `BlocksAdvancing32One`,
    `BlocksAdvancing64One`, `BlocksAdvancing128One`, the same for the
    advancing loops;
  - `PiHash.Absorb64OfSame` and `Absorb128OfSame`: one step on equal
    arguments;
  - `Ah1.RoundsStep` and `Ah1.RoundsFeedChain`, which unfold `Ah1.Rounds`.
    The chain feedback of hash.c:94-97 is stated on `Ah1.BlockStep`, and
    `Ah1.BlockLoop` carries it through the loop.
- The advancing loops are stated as functions only (`PiHash.BlocksAdvancing32` and the same for 64 and 128). No method with an advancing pointer is modelled, since the C code has none.
- PiHash.BlockReachesLanes32, PiHash.BlockReachesLanes64, PiHash.BlockReachesLanes128: say that a changed block changes the lanes right after it, not that the final hash changes. Later blocks could still bring the lanes together again.

## Findings

| source | as written | input that shows it | evidently intended | confidence | as-written member | corrected member |
|---|---|---|---|---|---|---|
| hash.c:104-120 | the switch ORs `blocks[k]`, the k-th 32-bit word after the whole blocks, into tail[k / 4]; for size % 16 = r it reads 4r bytes where r remain, and whole words are ORed in below the intended byte lanes | size = 1, byte 0x01, with memory 0x01 0x01 0x00 0x00 (switch gives tail[0] = 0x101) versus 0x01 0x00 0x00 0x00 (gives 1) | case k + 1 ORs byte k of the remaining input, so tail[] holds the remaining bytes padded with zeros | high, from reading the code; not executed | Ah1.TailReadsPastInput | Ah1.TailIntendedIsPadded |
| pihash.c:200-207 | the loop fetches `bytes` to `bytes + 3` in every iteration and never moves `bytes`, so only bytes 0..3 and the last four reach piHash32 | a 12-byte input with byte 5 changed gives the same piHash32 | each iteration reads the next 4-byte block, as the comment on the loop says; then a changed block changes the lanes after it | high, from reading the code; not executed | PiHash.Hash32IgnoresMiddle | PiHash.BlockReachesLanes32 |
| pihash.c:257-264 | the same in piHash64: every iteration fetches bytes 0..7 | a 24-byte input with byte 9 changed gives the same piHash64 | each iteration reads the next 8-byte block | high, from reading the code; not executed | PiHash.Hash64IgnoresMiddle | PiHash.BlockReachesLanes64 |
| pihash.c:307-316 | the same in piHash128: every iteration fetches bytes 0..15 | a 48-byte input with byte 17 changed gives the same piHash128 | each iteration reads the next 16-byte block | high, from reading the code; not executed | PiHash.Hash128IgnoresMiddle | PiHash.BlockReachesLanes128 |
