/** XXH3 in one call: the four ways to key it, and the secret derived from a seed. */
module Xxh3Oneshot {
  import opened Words
  import opened Mult128
  import opened Xxh3Kernel
  import opened Xxh3Long
  import opened Xxh3Hash

  // ---- the secret derived from a seed ----

  /** The first `n` 16-byte rounds of the derived secret. */
  function DerivedPrefix(seed: u64, n: nat): (r: seq<byte>)
    requires n <= 12
    ensures |r| == 16 * n
  {
    if n == 0 then []
    else DerivedPrefix(seed, n - 1) + WriteLE64(DerivedLo(seed, n - 1)) + WriteLE64(DerivedHi(seed, n - 1))
  }

  function DerivedLo(seed: u64, i: nat): u64
    requires i < 12
  {
    ReadLE64(KSecret(), 16 * i) + seed
  }

  function DerivedHi(seed: u64, i: nat): u64
    requires i < 12
  {
    ReadLE64(KSecret(), 16 * i + 8) - seed
  }

  function DerivedSecret(seed: u64): (s: Secret)
    ensures |s| == SECRET_DEFAULT_SIZE
  {
    DerivedPrefix(seed, 12)
  }

  lemma StoreTwo(s: seq<byte>, at: nat, lo: seq<byte>, hi: seq<byte>)
    requires |lo| == 8 && |hi| == 8 && at + 16 <= |s|
    ensures Overwrite(Overwrite(s, at, lo), at + 8, hi)[..at + 16] == s[..at] + lo + hi
  {
  }

  method InitCustomSecret(customSecret: array<byte>, seed: u64)
    requires customSecret.Length == SECRET_DEFAULT_SIZE
    modifies customSecret
    ensures customSecret[..] == DerivedSecret(seed)
  {
    hide WriteLE64, DerivedLo, DerivedHi, KSecret, Overwrite;
    var nbRounds := SECRET_DEFAULT_SIZE / 16;
    for i := 0 to nbRounds
      invariant customSecret[..16 * i] == DerivedPrefix(seed, i)
    {
      ghost var was := customSecret[..];
      var lo, hi := WriteLE64(DerivedLo(seed, i)), WriteLE64(DerivedHi(seed, i));
      Memcpy(customSecret, 16 * i, lo);
      Memcpy(customSecret, 16 * i + 8, hi);
      StoreTwo(was, 16 * i, lo, hi);
    }
    assert customSecret[..] == customSecret[..16 * 12];
  }

  lemma ZeroSeedWords(i: nat)
    requires i < 12
    ensures DerivedLo(0, i) == ReadLE64(KSecret(), 16 * i)
    ensures DerivedHi(0, i) == ReadLE64(KSecret(), 16 * i + 8)
  {
    hide KSecret, ReadLE64;
  }

  lemma {:induction false} ZeroSeedPrefix(n: nat)
    requires n <= 12
    ensures DerivedPrefix(0, n) == KSecret()[..16 * n]
  {
    hide KSecret, WriteLE64, ReadLE64, DerivedLo, DerivedHi;
    if n > 0 {
      ZeroSeedPrefix(n - 1);
      ZeroSeedWords(n - 1);
      WriteRead64(KSecret(), 16 * (n - 1));
      WriteRead64(KSecret(), 16 * (n - 1) + 8);
      ThreeSlices(KSecret(), 16 * (n - 1));
    }
  }

  lemma ThreeSlices(k: seq<byte>, i: nat)
    requires i + 16 <= |k|
    ensures k[..i + 16] == k[..i] + (k[i..i + 8] + k[i + 8..i + 16]) == k[..i] + k[i..i + 8] + k[i + 8..i + 16]
  {
  }

  /** Seed zero derives the default secret. */
  lemma ZeroSeedSecret()
    ensures DerivedSecret(0) == KSecret()
  {
    hide KSecret, DerivedPrefix;
    ZeroSeedPrefix(12);
  }

  // ---- entry points ----

  /** How a hash is keyed. */
  datatype Mode = Default | Seeded(seed: u64) | Keyed(secret: Secret) | KeyedSeeded(secret: Secret, seed: u64)

  /** The secret a long input is hashed with. */
  function LongSecret(mode: Mode): Secret {
    match mode
    case Default => KSecret()
    case Seeded(seed) => if seed == 0 then KSecret() else DerivedSecret(seed)
    case Keyed(secret) => secret
    case KeyedSeeded(secret, _) => secret
  }

  function ShortSecret(mode: Mode): Secret {
    if mode.Keyed? then mode.secret else KSecret()
  }

  function ShortSeed(mode: Mode): u64 {
    match mode
    case Seeded(seed) => seed
    case KeyedSeeded(_, seed) => seed
    case _ => 0
  }

  /** The 64-bit hash of a byte string. */
  function OneShot64(mode: Mode, input: seq<byte>): u64 {
    if |input| <= MIDSIZE_MAX then Short64(input, ShortSecret(mode), ShortSeed(mode))
    else HashLong64(input, LongSecret(mode))
  }

  /** The 128-bit hash of a byte string. */
  function OneShot128(mode: Mode, input: seq<byte>): Hash128 {
    if |input| <= MIDSIZE_MAX then Short128(input, ShortSecret(mode), ShortSeed(mode))
    else HashLong128(input, LongSecret(mode))
  }

  /** A secret generated from a seed, passed with that seed, gives the with-seed hash at every length. */
  lemma GeneratedSecretIsSeed(input: seq<byte>, seed: u64)
    ensures OneShot64(KeyedSeeded(DerivedSecret(seed), seed), input) == OneShot64(Seeded(seed), input)
    ensures OneShot128(KeyedSeeded(DerivedSecret(seed), seed), input) == OneShot128(Seeded(seed), input)
  {
    hide KSecret, DerivedSecret, Short64, Short128, HashLong64, HashLong128;
    ZeroSeedSecret();
  }

  /** The long hash as it is computed: block by block into eight accumulators. */
  method HashLong(input: seq<byte>, secret: Secret) returns (h64: u64, h128: Hash128)
    requires |input| > MIDSIZE_MAX
    ensures h64 == HashLong64(input, secret)
    ensures h128 == HashLong128(input, secret)
  {
    hide InitAcc, LongAcc, FinalizeLong64, FinalizeLong128;
    var start := InitAcc();
    var acc := new u64[8](i requires 0 <= i < 8 => start[i]);
    assert acc[..] == start;
    HashLongInternalLoop(acc, input, secret);
    h64 := FinalizeLong64(acc[..], secret, Low64(|input|));
    h128 := FinalizeLong128(acc[..], secret, Low64(|input|));
  }
}
