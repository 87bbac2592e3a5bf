/** The XXH3 hashes as values: the short-key functions, the finalisation of the long ones, the secret
    derived from a seed, and the one-shot entry points of the 64- and 128-bit variants. */
module Xxh3Hash {
  import opened Words
  import opened Mult128
  import Xxh64
  import opened Xxh3Kernel
  import opened Xxh3Long

  const SECRET_DEFAULT_SIZE: nat := 192
  const MIDSIZE_MAX: nat := 240
  const MIDSIZE_STARTOFFSET: nat := 3
  const MIDSIZE_LASTOFFSET: nat := 17
  const MERGEACCS_START: nat := 11

  const PRIME_MX1: u64 := 0x165667919E3779F9
  const PRIME_MX2: u64 := 0x9FB21C651E98DF25

  /** The default secret, four 48-byte pieces. */
  function KSecret(): (s: Secret)
    ensures |s| == SECRET_DEFAULT_SIZE
  {
    KSecretA() + KSecretB() + KSecretC() + KSecretD()
  }

  function KSecretA(): (s: seq<byte>)
    ensures |s| == 48
  {
    [0xb8, 0xfe, 0x6c, 0x39, 0x23, 0xa4, 0x4b, 0xbe, 0x7c, 0x01, 0x81, 0x2c, 0xf7, 0x21, 0xad, 0x1c,
     0xde, 0xd4, 0x6d, 0xe9, 0x83, 0x90, 0x97, 0xdb, 0x72, 0x40, 0xa4, 0xa4, 0xb7, 0xb3, 0x67, 0x1f,
     0xcb, 0x79, 0xe6, 0x4e, 0xcc, 0xc0, 0xe5, 0x78, 0x82, 0x5a, 0xd0, 0x7d, 0xcc, 0xff, 0x72, 0x21]
  }

  function KSecretB(): (s: seq<byte>)
    ensures |s| == 48
  {
    [0xb8, 0x08, 0x46, 0x74, 0xf7, 0x43, 0x24, 0x8e, 0xe0, 0x35, 0x90, 0xe6, 0x81, 0x3a, 0x26, 0x4c,
     0x3c, 0x28, 0x52, 0xbb, 0x91, 0xc3, 0x00, 0xcb, 0x88, 0xd0, 0x65, 0x8b, 0x1b, 0x53, 0x2e, 0xa3,
     0x71, 0x64, 0x48, 0x97, 0xa2, 0x0d, 0xf9, 0x4e, 0x38, 0x19, 0xef, 0x46, 0xa9, 0xde, 0xac, 0xd8]
  }

  function KSecretC(): (s: seq<byte>)
    ensures |s| == 48
  {
    [0xa8, 0xfa, 0x76, 0x3f, 0xe3, 0x9c, 0x34, 0x3f, 0xf9, 0xdc, 0xbb, 0xc7, 0xc7, 0x0b, 0x4f, 0x1d,
     0x8a, 0x51, 0xe0, 0x4b, 0xcd, 0xb4, 0x59, 0x31, 0xc8, 0x9f, 0x7e, 0xc9, 0xd9, 0x78, 0x73, 0x64,
     0xea, 0xc5, 0xac, 0x83, 0x34, 0xd3, 0xeb, 0xc3, 0xc5, 0x81, 0xa0, 0xff, 0xfa, 0x13, 0x63, 0xeb]
  }

  function KSecretD(): (s: seq<byte>)
    ensures |s| == 48
  {
    [0x17, 0x0d, 0xdd, 0x51, 0xb7, 0xf0, 0xda, 0x49, 0xd3, 0x16, 0x55, 0x26, 0x29, 0xd4, 0x68, 0x9e,
     0x2b, 0x16, 0xbe, 0x58, 0x7d, 0x47, 0xa1, 0xfc, 0x8f, 0xf8, 0xb8, 0xd1, 0x7a, 0xd0, 0x31, 0xce,
     0x45, 0xcb, 0x3a, 0x8f, 0x95, 0x16, 0x04, 0x28, 0xaf, 0xd7, 0xfb, 0xca, 0xbb, 0x4b, 0x40, 0x7e]
  }

  // ---- mixing ----

  function Xorshift64(v: u64, shift: nat): u64
    requires shift < 64
  {
    v ^ (v >> shift)
  }

  function Avalanche(h: u64): u64 { Xorshift64(Xorshift64(h, 37) * PRIME_MX1, 32) }

  function Rrmxmx(h: u64, len: u64): u64 {
    var h1 := (h ^ (Rotl64(h, 49) ^ Rotl64(h, 24))) * PRIME_MX2;
    var h2 := (h1 ^ ((h1 >> 35) + len)) * PRIME_MX2;
    Xorshift64(h2, 28)
  }

  function Mix16B(input: seq<byte>, i: nat, secret: seq<byte>, j: nat, seed: u64): u64
    requires i + 16 <= |input| && j + 16 <= |secret|
  {
    Mul128Fold64(ReadLE64(input, i) ^ (ReadLE64(secret, j) + seed),
                 ReadLE64(input, i + 8) ^ (ReadLE64(secret, j + 8) - seed))
  }

  // ---- 64-bit short keys ----

  function Len1to3_64(input: seq<byte>, secret: Secret, seed: u64): u64
    requires 1 <= |input| <= 3
  {
    var len := |input|;
    var combined := (input[0] as u32 << 16) | (input[len / 2] as u32 << 24) | input[len - 1] as u32 | (Low32(len) << 8);
    Xxh64.Avalanche(combined as u64 ^ ((ReadLE32(secret, 0) ^ ReadLE32(secret, 4)) as u64 + seed))
  }

  function SwappedSeed(seed: u64): u64 { seed ^ (Swap32((seed & 0xFFFFFFFF) as u32) as u64 << 32) }

  function Len4to8_64(input: seq<byte>, secret: Secret, seed: u64): u64
    requires 4 <= |input| <= 8
  {
    var len := |input|;
    var bitflip := (ReadLE64(secret, 8) ^ ReadLE64(secret, 16)) - SwappedSeed(seed);
    var input64 := ReadLE32(input, len - 4) as u64 + (ReadLE32(input, 0) as u64 << 32);
    Rrmxmx(input64 ^ bitflip, Low64(len))
  }

  function Len9to16_64(input: seq<byte>, secret: Secret, seed: u64): u64
    requires 9 <= |input| <= 16
  {
    var len := |input|;
    var lo := ReadLE64(input, 0) ^ ((ReadLE64(secret, 24) ^ ReadLE64(secret, 32)) + seed);
    var hi := ReadLE64(input, len - 8) ^ ((ReadLE64(secret, 40) ^ ReadLE64(secret, 48)) - seed);
    Avalanche(Low64(len) + Swap64(lo) + hi + Mul128Fold64(lo, hi))
  }

  function Len0to16_64(input: seq<byte>, secret: Secret, seed: u64): u64
    requires |input| <= 16
  {
    if |input| > 8 then Len9to16_64(input, secret, seed)
    else if |input| >= 4 then Len4to8_64(input, secret, seed)
    else if |input| > 0 then Len1to3_64(input, secret, seed)
    else Xxh64.Avalanche(seed ^ (ReadLE64(secret, 56) ^ ReadLE64(secret, 64)))
  }

  /** The pair of 16-byte mixes at distance `16 * i` from both ends. */
  function MixEnds(input: seq<byte>, i: nat, secret: Secret, seed: u64): u64
    requires i < 4 && 16 * (i + 1) <= |input|
  {
    Mix16B(input, 16 * i, secret, 32 * i, seed) + Mix16B(input, |input| - 16 * (i + 1), secret, 32 * i + 16, seed)
  }

  function Len17to128_64(input: seq<byte>, secret: Secret, seed: u64): u64
    requires 17 <= |input| <= 128
  {
    var len := |input|;
    var acc := Low64(len) * PRIME64_1;
    var acc := if len > 96 then acc + MixEnds(input, 3, secret, seed) else acc;
    var acc := if len > 64 then acc + MixEnds(input, 2, secret, seed) else acc;
    var acc := if len > 32 then acc + MixEnds(input, 1, secret, seed) else acc;
    Avalanche(acc + MixEnds(input, 0, secret, seed))
  }

  /** `n` consecutive 16-byte mixes from input offset `i` and secret offset `j`. */
  function MixRun(input: seq<byte>, i: nat, secret: Secret, j: nat, seed: u64, n: nat): u64
    requires i + 16 * n <= |input| && j + 16 * n <= |secret|
  {
    if n == 0 then 0
    else MixRun(input, i, secret, j, seed, n - 1) + Mix16B(input, i + 16 * (n - 1), secret, j + 16 * (n - 1), seed)
  }

  function Len129to240_64(input: seq<byte>, secret: Secret, seed: u64): u64
    requires 129 <= |input| <= 240
  {
    var len := |input|;
    var nbRounds := len / 16;
    var acc := Avalanche(Low64(len) * PRIME64_1 + MixRun(input, 0, secret, 0, seed, 8));
    var accEnd := Mix16B(input, len - 16, secret, SECRET_SIZE_MIN - MIDSIZE_LASTOFFSET, seed);
    Avalanche(acc + (accEnd + MixRun(input, 128, secret, MIDSIZE_STARTOFFSET, seed, nbRounds - 8)))
  }

  // ---- 128-bit short keys ----

  function Len1to3_128(input: seq<byte>, secret: Secret, seed: u64): Hash128
    requires 1 <= |input| <= 3
  {
    var len := |input|;
    var combinedl :=
      (input[0] as u32 << 16) | (input[len / 2] as u32 << 24) | input[len - 1] as u32 | (Low32(len) << 8);
    var combinedh := Rotl32(Swap32(combinedl), 13);
    Hash128(Xxh64.Avalanche(combinedl as u64 ^ ((ReadLE32(secret, 0) ^ ReadLE32(secret, 4)) as u64 + seed)),
            Xxh64.Avalanche(combinedh as u64 ^ ((ReadLE32(secret, 8) ^ ReadLE32(secret, 12)) as u64 - seed)))
  }

  function Len4to8_128(input: seq<byte>, secret: Secret, seed: u64): Hash128
    requires 4 <= |input| <= 8
  {
    var len := |input|;
    var input64 := ReadLE32(input, 0) as u64 + (ReadLE32(input, len - 4) as u64 << 32);
    var keyed := input64 ^ ((ReadLE64(secret, 16) ^ ReadLE64(secret, 24)) + SwappedSeed(seed));
    var m := Mult64to128(keyed, PRIME64_1 + (Low64(len) << 2));
    var high := m.high64 + (m.low64 << 1);
    var low := m.low64 ^ (high >> 3);
    Hash128(Xorshift64(Xorshift64(low, 35) * PRIME_MX2, 28), Avalanche(high))
  }

  function Len9to16_128(input: seq<byte>, secret: Secret, seed: u64): Hash128
    requires 9 <= |input| <= 16
  {
    var len := |input|;
    var inputLo := ReadLE64(input, 0);
    var inputHi := ReadLE64(input, len - 8);
    var bitflipl := (ReadLE64(secret, 32) ^ ReadLE64(secret, 40)) - seed;
    var bitfliph := (ReadLE64(secret, 48) ^ ReadLE64(secret, 56)) + seed;
    var m := Mult64to128((inputLo ^ inputHi) ^ bitflipl, PRIME64_1);
    var hi := inputHi ^ bitfliph;
    var high := m.high64 + (hi + (hi & 0xFFFFFFFF) * (PRIME32_2 as u64 - 1));
    var low := (m.low64 + (Low64(len - 1) << 54)) ^ Swap64(high);
    var h := Mult64to128(low, PRIME64_2);
    Hash128(Avalanche(h.low64), Avalanche(h.high64 + high * PRIME64_2))
  }

  function Len0to16_128(input: seq<byte>, secret: Secret, seed: u64): Hash128
    requires |input| <= 16
  {
    if |input| > 8 then Len9to16_128(input, secret, seed)
    else if |input| >= 4 then Len4to8_128(input, secret, seed)
    else if |input| > 0 then Len1to3_128(input, secret, seed)
    else Hash128(Xxh64.Avalanche(seed ^ (ReadLE64(secret, 64) ^ ReadLE64(secret, 72))),
                 Xxh64.Avalanche(seed ^ (ReadLE64(secret, 80) ^ ReadLE64(secret, 88))))
  }

  function Mix32B(acc: Hash128, input: seq<byte>, i1: nat, i2: nat, secret: seq<byte>, j: nat, seed: u64): Hash128
    requires i1 + 16 <= |input| && i2 + 16 <= |input| && j + 32 <= |secret|
  {
    Hash128((acc.low64 + Mix16B(input, i1, secret, j, seed)) ^ (ReadLE64(input, i2) + ReadLE64(input, i2 + 8)),
            (acc.high64 + Mix16B(input, i2, secret, j + 16, seed)) ^ (ReadLE64(input, i1) + ReadLE64(input, i1 + 8)))
  }

  function FinishMid128(acc: Hash128, len: nat, seed: u64): Hash128 {
    Hash128(Avalanche(acc.low64 + acc.high64),
            0 - Avalanche(acc.low64 * PRIME64_1 + acc.high64 * PRIME64_4 + (Low64(len) - seed) * PRIME64_2))
  }

  function MixBoth(acc: Hash128, input: seq<byte>, i: nat, secret: Secret, seed: u64): Hash128
    requires i < 4 && 16 * (i + 1) <= |input|
  {
    Mix32B(acc, input, 16 * i, |input| - 16 * (i + 1), secret, 32 * i, seed)
  }

  function Len17to128_128(input: seq<byte>, secret: Secret, seed: u64): Hash128
    requires 17 <= |input| <= 128
  {
    var len := |input|;
    var acc := Hash128(Low64(len) * PRIME64_1, 0);
    var acc := if len > 96 then MixBoth(acc, input, 3, secret, seed) else acc;
    var acc := if len > 64 then MixBoth(acc, input, 2, secret, seed) else acc;
    var acc := if len > 32 then MixBoth(acc, input, 1, secret, seed) else acc;
    FinishMid128(MixBoth(acc, input, 0, secret, seed), len, seed)
  }

  /** `n` consecutive 32-byte mixes. */
  function MixRun128(acc: Hash128, input: seq<byte>, i: nat, secret: Secret, j: nat, seed: u64, n: nat): Hash128
    requires i + 32 * n <= |input| && j + 32 * n <= |secret|
  {
    if n == 0 then acc
    else Mix32B(MixRun128(acc, input, i, secret, j, seed, n - 1), input, i + 32 * (n - 1), i + 32 * (n - 1) + 16,
                secret, j + 32 * (n - 1), seed)
  }

  /** The second run goes on while `160 + 32 * k <= len`, so the last 32 bytes may be mixed twice. */
  function Len129to240_128(input: seq<byte>, secret: Secret, seed: u64): Hash128
    requires 129 <= |input| <= 240
  {
    var len := |input|;
    var acc := MixRun128(Hash128(Low64(len) * PRIME64_1, 0), input, 0, secret, 0, seed, 4);
    var acc := Hash128(Avalanche(acc.low64), Avalanche(acc.high64));
    var acc := MixRun128(acc, input, 128, secret, MIDSIZE_STARTOFFSET, seed, (len - 128) / 32);
    var acc := Mix32B(acc, input, len - 16, len - 32, secret, SECRET_SIZE_MIN - MIDSIZE_LASTOFFSET - 16, 0 - seed);
    FinishMid128(acc, len, seed)
  }

  // ---- long inputs ----

  function Mix2Accs(acc: Lanes, i: nat, secret: seq<byte>, j: nat): u64
    requires i + 2 <= 8 && j + 16 <= |secret|
  {
    Mul128Fold64(acc[i] ^ ReadLE64(secret, j), acc[i + 1] ^ ReadLE64(secret, j + 8))
  }

  function MergeAccs(acc: Lanes, secret: seq<byte>, j: nat, start: u64): u64
    requires j + 64 <= |secret|
  {
    Avalanche(start + Mix2Accs(acc, 0, secret, j) + Mix2Accs(acc, 2, secret, j + 16)
              + Mix2Accs(acc, 4, secret, j + 32) + Mix2Accs(acc, 6, secret, j + 48))
  }

  function FinalizeLong64(acc: Lanes, secret: Secret, len: u64): u64 {
    MergeAccs(acc, secret, MERGEACCS_START, len * PRIME64_1)
  }

  function FinalizeLong128(acc: Lanes, secret: Secret, len: u64): Hash128 {
    Hash128(FinalizeLong64(acc, secret, len),
            MergeAccs(acc, secret, |secret| - STRIPE_LEN - MERGEACCS_START, !(len * PRIME64_2)))
  }

  function HashLong64(input: seq<byte>, secret: Secret): u64
    requires |input| > MIDSIZE_MAX
  {
    FinalizeLong64(LongAcc(input, secret), secret, Low64(|input|))
  }

  function HashLong128(input: seq<byte>, secret: Secret): Hash128
    requires |input| > MIDSIZE_MAX
  {
    FinalizeLong128(LongAcc(input, secret), secret, Low64(|input|))
  }

  function Short64(input: seq<byte>, secret: Secret, seed: u64): u64
    requires |input| <= MIDSIZE_MAX
  {
    if |input| <= 16 then Len0to16_64(input, secret, seed)
    else if |input| <= 128 then Len17to128_64(input, secret, seed)
    else Len129to240_64(input, secret, seed)
  }

  function Short128(input: seq<byte>, secret: Secret, seed: u64): Hash128
    requires |input| <= MIDSIZE_MAX
  {
    if |input| <= 16 then Len0to16_128(input, secret, seed)
    else if |input| <= 128 then Len17to128_128(input, secret, seed)
    else Len129to240_128(input, secret, seed)
  }
}
