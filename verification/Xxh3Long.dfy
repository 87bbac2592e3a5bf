/** XXH3 on inputs longer than 240 bytes: a stripe-at-a-time reference machine, and the block loop of
    the one-shot hash and the resumable stripe consumer of the streaming hash, both proved against it. */
module Xxh3Long {
  import opened Words
  import opened Xxh3Kernel

  const SECRET_SIZE_MIN: nat := 136
  const LASTACC_START: nat := 7

  type Secret = s: seq<byte> | |s| >= 136 witness seq(136, _ => 0)

  function StripesPerBlock(secret: Secret): (n: nat)
    ensures n >= 9 && 8 * n + 64 <= |secret|
  {
    (|secret| - STRIPE_LEN) / CONSUME_RATE
  }

  function InitAcc(): Lanes {
    [PRIME32_3 as u64, PRIME64_1, PRIME64_2, PRIME64_3, PRIME64_4, PRIME32_2 as u64, PRIME64_5, PRIME32_1 as u64]
  }

  method InitAccs(acc: array<u64>)
    requires acc.Length == 8
    modifies acc
    ensures acc[..] == InitAcc()
  {
    hide InitAcc;
    var init := InitAcc();
    for k := 0 to 8
      invariant acc[..k] == init[..k]
    {
      acc[k] := init[k];
    }
  }

  /** The accumulators, and how many stripes of the current block they hold. */
  datatype Progress = Progress(acc: Lanes, inBlock: nat)

  function StripeAt(data: seq<byte>, k: nat): Stripe
    requires 64 * (k + 1) <= |data|
  {
    data[64 * k..64 * k + 64]
  }

  /** One stripe: accumulate it, and scramble when it completes a block. */
  function Absorb1(p: Progress, stripe: Stripe, secret: Secret): (q: Progress)
    requires p.inBlock < StripesPerBlock(secret)
    ensures q.inBlock < StripesPerBlock(secret)
  {
    var acc := Accumulate512(p.acc, stripe, secret[8 * p.inBlock..8 * p.inBlock + 64]);
    if p.inBlock + 1 == StripesPerBlock(secret) then Progress(Scramble(acc, secret[|secret| - 64..]), 0)
    else Progress(acc, p.inBlock + 1)
  }

  /** The reference: the first `n` stripes of `data`, one after the other, from progress `p`. */
  function Absorb(p: Progress, data: seq<byte>, secret: Secret, n: nat): (q: Progress)
    requires p.inBlock < StripesPerBlock(secret)
    requires 64 * n <= |data|
    ensures q.inBlock < StripesPerBlock(secret)
  {
    if n == 0 then p else Absorb1(Absorb(p, data, secret, n - 1), StripeAt(data, n - 1), secret)
  }

  /** Only the consumed bytes matter. */
  lemma {:induction false} AbsorbPrefix(p: Progress, data: seq<byte>, data': seq<byte>, secret: Secret, n: nat)
    requires p.inBlock < StripesPerBlock(secret)
    requires 64 * n <= |data| && 64 * n <= |data'|
    requires data[..64 * n] == data'[..64 * n]
    ensures Absorb(p, data, secret, n) == Absorb(p, data', secret, n)
  {
    hide Absorb1;
    if n > 0 {
      assert data[..64 * (n - 1)] == data[..64 * n][..64 * (n - 1)];
      assert data'[..64 * (n - 1)] == data'[..64 * n][..64 * (n - 1)];
      AbsorbPrefix(p, data, data', secret, n - 1);
      assert StripeAt(data, n - 1) == data[..64 * n][64 * (n - 1)..];
      assert StripeAt(data', n - 1) == data'[..64 * n][64 * (n - 1)..];
    }
  }

  /** Absorbing composes: `m` stripes and then `n` more are `m + n` stripes. */
  lemma {:induction false} AbsorbSplit(p: Progress, data: seq<byte>, secret: Secret, m: nat, n: nat)
    requires p.inBlock < StripesPerBlock(secret)
    requires 64 * (m + n) <= |data|
    ensures Absorb(Absorb(p, data, secret, m), data[64 * m..], secret, n) == Absorb(p, data, secret, m + n)
  {
    hide Absorb1;
    if n > 0 {
      AbsorbSplit(p, data, secret, m, n - 1);
      assert StripeAt(data[64 * m..], n - 1) == StripeAt(data, m + n - 1);
      assert Absorb(p, data, secret, m + n) ==
        Absorb1(Absorb(p, data, secret, m + n - 1), StripeAt(data, m + n - 1), secret);
    }
  }

  /** Within a block the reference is plain accumulation, the scramble coming only at its end. */
  lemma {:induction false} AbsorbInBlock(p: Progress, data: seq<byte>, secret: Secret, n: nat)
    requires p.inBlock + n <= StripesPerBlock(secret)
    requires p.inBlock < StripesPerBlock(secret)
    requires 64 * n <= |data|
    ensures var acc := Accumulate(p.acc, data, secret[8 * p.inBlock..], n);
            Absorb(p, data, secret, n) ==
            if p.inBlock + n == StripesPerBlock(secret) then Progress(Scramble(acc, secret[|secret| - 64..]), 0)
            else Progress(acc, p.inBlock + n)
  {
    hide Accumulate512, Scramble, StripesPerBlock;
    if n > 0 {
      AbsorbInBlock(p, data, secret, n - 1);
      assert secret[8 * p.inBlock..][8 * (n - 1)..8 * (n - 1) + 64] ==
             secret[8 * (p.inBlock + n - 1)..8 * (p.inBlock + n - 1) + 64];
    }
  }

  /** One more run inside a block, on top of `done` stripes already absorbed. */
  lemma AbsorbRun(p: Progress, data: seq<byte>, secret: Secret, done: nat, n: nat)
    requires p.inBlock < StripesPerBlock(secret)
    requires 64 * (done + n) <= |data|
    requires Absorb(p, data, secret, done).inBlock + n <= StripesPerBlock(secret)
    ensures var q := Absorb(p, data, secret, done);
            var acc := Accumulate(q.acc, data[64 * done..], secret[8 * q.inBlock..], n);
            Absorb(p, data, secret, done + n) ==
            if q.inBlock + n == StripesPerBlock(secret) then Progress(Scramble(acc, secret[|secret| - 64..]), 0)
            else Progress(acc, q.inBlock + n)
  {
    hide *;
    AbsorbSplit(p, data, secret, done, n);
    AbsorbInBlock(Absorb(p, data, secret, done), data[64 * done..], secret, n);
  }

  method ConsumeStripes(acc: array<u64>, soFar: nat, perBlock: nat, input: seq<byte>, nbStripes: nat,
                        secret: Secret, secretLimit: nat) returns (soFar': nat, pos: nat)
    requires acc.Length == 8
    requires perBlock == StripesPerBlock(secret) && secretLimit == |secret| - 64
    requires soFar < perBlock
    requires 64 * nbStripes <= |input|
    modifies acc
    ensures Progress(acc[..], soFar') == Absorb(Progress(old(acc[..]), soFar), input, secret, nbStripes)
    ensures pos == 64 * nbStripes
  {
    hide Accumulate512, Scramble, Absorb1, Absorb, Accumulate, StripesPerBlock;
    ghost var p0 := Progress(acc[..], soFar);
    assert Absorb(p0, input, secret, 0) == p0 by { AbsorbNone(p0, input, secret); }
    soFar', pos := soFar, 0;
    var left := nbStripes;
    var keyStart := 8 * soFar;
    if left >= perBlock - soFar {
      var thisIter := perBlock - soFar;
      while left >= thisIter
        invariant soFar' < perBlock && thisIter == perBlock - soFar' && keyStart == 8 * soFar'
        invariant 0 <= left <= nbStripes && pos == 64 * (nbStripes - left)
        invariant Progress(acc[..], soFar') == Absorb(p0, input, secret, nbStripes - left)
        decreases left
      {
        AbsorbRun(p0, input, secret, nbStripes - left, thisIter);
        AccumulateScalar(acc, input[pos..], secret[keyStart..], thisIter);
        ScrambleScalar(acc, secret[secretLimit..]);
        pos := pos + 64 * thisIter;
        left := left - thisIter;
        thisIter := perBlock;
        keyStart := 0;
        soFar' := 0;
      }
    }
    if left > 0 {
      AbsorbRun(p0, input, secret, nbStripes - left, left);
      AccumulateScalar(acc, input[pos..], secret[keyStart..], left);
      pos := pos + 64 * left;
      soFar' := soFar' + left;
    }
  }

  lemma AbsorbNone(p: Progress, data: seq<byte>, secret: Secret)
    requires p.inBlock < StripesPerBlock(secret)
    ensures Absorb(p, data, secret, 0) == p
  {
  }

  // ---- the one-shot loop ----

  /** All accumulators of a long input: every stripe but the last partial one, then its last 64 bytes. */
  function LongAcc(data: seq<byte>, secret: Secret): Lanes
    requires |data| > 64
  {
    Accumulate512(Absorb(Progress(InitAcc(), 0), data, secret, (|data| - 1) / 64).acc, data[|data| - 64..],
                  secret[|secret| - 64 - LASTACC_START..|secret| - LASTACC_START])
  }

  /** `nb_blocks`: the blocks that are certainly not the last one. */
  function BlockCount(len: nat, blockLen: nat): nat
    requires len > 0 && blockLen > 0
  {
    (len - 1) / blockLen
  }

  function BlockStart(n: nat, blockLen: nat): nat { n * blockLen }

  /** Each block before the count lies inside the input, and what follows them is less than a block. */
  lemma BlocksFit(len: nat, blockLen: nat, n: nat)
    requires len > 0 && blockLen > 0 && n <= BlockCount(len, blockLen)
    ensures BlockStart(0, blockLen) == 0
    ensures BlockStart(n + 1, blockLen) == BlockStart(n, blockLen) + blockLen
    ensures n < BlockCount(len, blockLen) ==> BlockStart(n, blockLen) + blockLen <= len - 1
    ensures n == BlockCount(len, blockLen) ==> BlockStart(n, blockLen) <= len - 1 < BlockStart(n, blockLen) + blockLen
  {
    var count := BlockCount(len, blockLen);
    assert len - 1 == blockLen * count + (len - 1) % blockLen;
    if n < count {
      assert (n + 1) * blockLen <= count * blockLen;
    }
  }

  /** One iteration of the block loop: from a block boundary to the next. */
  method HashBlock(acc: array<u64>, input: seq<byte>, at: nat, secret: Secret, perBlock: nat, ghost done: nat)
    requires acc.Length == 8
    requires perBlock == StripesPerBlock(secret)
    requires at == 64 * done && at + 64 * perBlock <= |input|
    requires Absorb(Progress(InitAcc(), 0), input, secret, done) == Progress(acc[..], 0)
    modifies acc
    ensures Absorb(Progress(InitAcc(), 0), input, secret, done + perBlock) == Progress(acc[..], 0)
  {
    hide Accumulate512, Scramble, Absorb1, Absorb, Accumulate, StripesPerBlock, InitAcc;
    AbsorbRun(Progress(InitAcc(), 0), input, secret, done, perBlock);
    assert secret[8 * 0..] == secret;
    AccumulateScalar(acc, input[at..], secret, perBlock);
    ScrambleScalar(acc, secret[|secret| - STRIPE_LEN..]);
  }

  /** The last partial block and the last stripe. */
  method HashTail(acc: array<u64>, input: seq<byte>, at: nat, secret: Secret, nbStripes: nat, ghost done: nat)
    requires acc.Length == 8 && |input| > 64
    requires at == 64 * done && at <= |input| - 1
    requires nbStripes < StripesPerBlock(secret)
    requires nbStripes == ((|input| - 1) - at) / STRIPE_LEN
    requires Absorb(Progress(InitAcc(), 0), input, secret, done) == Progress(acc[..], 0)
    modifies acc
    ensures acc[..] == LongAcc(input, secret)
  {
    hide Accumulate512, Scramble, Absorb1, Absorb, Accumulate, StripesPerBlock, InitAcc;
    AbsorbRun(Progress(InitAcc(), 0), input, secret, done, nbStripes);
    assert secret[8 * 0..] == secret;
    AccumulateScalar(acc, input[at..], secret, nbStripes);
    Accumulate512Scalar(acc, input[|input| - STRIPE_LEN..],
                        secret[|secret| - STRIPE_LEN - LASTACC_START..|secret| - LASTACC_START]);
  }

  method HashLongInternalLoop(acc: array<u64>, input: seq<byte>, secret: Secret)
    requires acc.Length == 8 && acc[..] == InitAcc()
    requires |input| > 64
    modifies acc
    ensures acc[..] == LongAcc(input, secret)
  {
    hide LongAcc, Absorb, StripesPerBlock, InitAcc, BlockCount, BlockStart;
    var perBlock := StripesPerBlock(secret);
    var blockLen := STRIPE_LEN * perBlock;
    var nbBlocks := BlockCount(|input|, blockLen);
    ghost var done := 0;
    BlocksFit(|input|, blockLen, 0);
    AbsorbNone(Progress(InitAcc(), 0), input, secret);
    for n := 0 to nbBlocks
      invariant BlockStart(n, blockLen) == 64 * done && 64 * done <= |input|
      invariant Absorb(Progress(InitAcc(), 0), input, secret, done) == Progress(acc[..], 0)
    {
      BlocksFit(|input|, blockLen, n);
      HashBlock(acc, input, BlockStart(n, blockLen), secret, perBlock, done);
      done := done + perBlock;
    }
    BlocksFit(|input|, blockLen, nbBlocks);
    var nbStripes := ((|input| - 1) - BlockStart(nbBlocks, blockLen)) / STRIPE_LEN;
    HashTail(acc, input, BlockStart(nbBlocks, blockLen), secret, nbStripes, done);
  }
}
