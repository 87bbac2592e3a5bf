/** The NEON form of XXH3's accumulate and scramble, for every even split of the eight lanes between the
    vector unit and the scalar one, proved equal to the lane-parallel reference. */
module Xxh3Neon {
  import opened Words
  import opened Xxh3Kernel

  datatype U64x2 = U64x2(e0: u64, e1: u64)
  datatype U32x2 = U32x2(s0: u32, s1: u32)
  datatype U32x4 = U32x4(w0: u32, w1: u32, w2: u32, w3: u32)

  // ---- the intrinsics used ----

  function LowHalf(x: u64): u32 { (x & 0xFFFFFFFF) as u32 }

  function HighHalf(x: u64): u32 { (x >> 32) as u32 }

  function Widen(x: u32, y: u32): u64 { Mul64(x as u64, y as u64) }

  function Load(s: Stripe, pair: nat): U64x2
    requires pair < 4
  {
    U64x2(LaneOf(s, 2 * pair), LaneOf(s, 2 * pair + 1))
  }

  function Ext1(v: U64x2): U64x2 { U64x2(v.e1, v.e0) }

  function Eor(v: U64x2, w: U64x2): U64x2 { U64x2(Xor64(v.e0, w.e0), Xor64(v.e1, w.e1)) }

  function AddQ(v: U64x2, w: U64x2): U64x2 { U64x2(Add64(v.e0, w.e0), Add64(v.e1, w.e1)) }

  function AsU32(v: U64x2): U32x4 { U32x4(LowHalf(v.e0), HighHalf(v.e0), LowHalf(v.e1), HighHalf(v.e1)) }

  function AsU64(v: U32x4): U64x2 { U64x2(Join64(v.w0, v.w1), Join64(v.w2, v.w3)) }

  function UnzipEven(v: U32x4, w: U32x4): U32x4 { U32x4(v.w0, v.w2, w.w0, w.w2) }

  function UnzipOdd(v: U32x4, w: U32x4): U32x4 { U32x4(v.w1, v.w3, w.w1, w.w3) }

  function Narrow(v: U64x2): U32x2 { U32x2(LowHalf(v.e0), LowHalf(v.e1)) }

  function ShiftNarrow32(v: U64x2): U32x2 { U32x2(HighHalf(v.e0), HighHalf(v.e1)) }

  function MulAdd(acc: U64x2, x: U32x2, y: U32x2): U64x2 {
    U64x2(Add64(acc.e0, Widen(x.s0, y.s0)), Add64(acc.e1, Widen(x.s1, y.s1)))
  }

  function MulAddLow(acc: U64x2, x: U32x4, y: U32x4): U64x2 {
    U64x2(Add64(acc.e0, Widen(x.w0, y.w0)), Add64(acc.e1, Widen(x.w1, y.w1)))
  }

  function MulAddHigh(acc: U64x2, x: U32x4, y: U32x4): U64x2 {
    U64x2(Add64(acc.e0, Widen(x.w2, y.w2)), Add64(acc.e1, Widen(x.w3, y.w3)))
  }

  function MulQ32(v: U32x4, w: U32x4): U32x4 {
    U32x4(Mul32(v.w0, w.w0), Mul32(v.w1, w.w1), Mul32(v.w2, w.w2), Mul32(v.w3, w.w3))
  }

  // ---- accumulate ----

  /** The two lanes of a pair as the reference has them. */
  function PairSum(acc: Lanes, stripe: Stripe, key: Stripe, pair: nat): U64x2
    requires pair < 4
  {
    var sum := Accumulate512(acc, stripe, key);
    U64x2(sum[2 * pair], sum[2 * pair + 1])
  }

  lemma HalfValues(x: u64)
    ensures LowHalf(x) as u64 == x & 0xFFFFFFFF
    ensures HighHalf(x) as u64 == x >> 32
  {
  }

  lemma WidenHalves(dataKey: u64)
    ensures Widen(LowHalf(dataKey), HighHalf(dataKey)) == HalvesProduct(dataKey)
  {
    hide Mul64, LowHalf, HighHalf;
    HalfValues(dataKey);
  }

  /** Adding the swapped data to the product first changes nothing. */
  lemma VectorLane(acc: u64, swapped: u64, dataKey: u64)
    ensures Add64(acc, Add64(swapped, Widen(LowHalf(dataKey), HighHalf(dataKey)))) ==
      LaneSum(acc, swapped, HalvesProduct(dataKey))
  {
    hide Add64, Widen, LowHalf, HighHalf, HalvesProduct;
    WidenHalves(dataKey);
    Add64Assoc(acc, swapped, HalvesProduct(dataKey));
  }

  lemma VectorPair(acc: Lanes, stripe: Stripe, key: Stripe, pair: nat)
    requires pair < 4
    ensures var dataKey := Eor(Load(stripe, pair), Load(key, pair));
            var data := Ext1(Load(stripe, pair));
            PairSum(acc, stripe, key, pair) ==
            U64x2(Add64(acc[2 * pair], Add64(data.e0, Widen(LowHalf(dataKey.e0), HighHalf(dataKey.e0)))),
                  Add64(acc[2 * pair + 1], Add64(data.e1, Widen(LowHalf(dataKey.e1), HighHalf(dataKey.e1)))))
  {
    hide LaneOf, HalvesProduct, LaneSum, Add64, Widen, LowHalf, HighHalf, Xor64;
    var dataKey := Eor(Load(stripe, pair), Load(key, pair));
    VectorLane(acc[2 * pair], LaneOf(stripe, 2 * pair + 1), dataKey.e0);
    VectorLane(acc[2 * pair + 1], LaneOf(stripe, 2 * pair), dataKey.e1);
    assert Partner(2 * pair) == 2 * pair + 1 && Partner(2 * pair + 1) == 2 * pair;
  }

  method StorePair(acc: array<u64>, pair: nat, v: U64x2)
    requires acc.Length == 8 && pair < 4
    modifies acc
    ensures acc[2 * pair] == v.e0 && acc[2 * pair + 1] == v.e1
    ensures forall k | 0 <= k < 8 && k / 2 != pair :: acc[k] == old(acc[k])
  {
    acc[2 * pair] := v.e0;
    acc[2 * pair + 1] := v.e1;
  }

  function LoadPair(acc: array<u64>, pair: nat): U64x2
    requires acc.Length == 8 && pair < 4
    reads acc
  {
    U64x2(acc[2 * pair], acc[2 * pair + 1])
  }

  /** Two vectors, four lanes: de-interleave low and high halves with one unzip. */
  method FourLanes(acc: array<u64>, stripe: Stripe, key: Stripe, i: nat, ghost was: Lanes)
    requires acc.Length == 8 && i + 1 < 4
    requires forall k | 2 * i <= k < 2 * i + 4 :: acc[k] == was[k]
    modifies acc
    ensures LoadPair(acc, i) == PairSum(was, stripe, key, i) && LoadPair(acc, i + 1) == PairSum(was, stripe, key, i + 1)
    ensures forall k | 0 <= k < 8 && !(2 * i <= k < 2 * i + 4) :: acc[k] == old(acc[k])
  {
    hide PairSum, LaneOf, Add64, Widen, LowHalf, HighHalf, Xor64;
    var data1, data2 := Load(stripe, i), Load(stripe, i + 1);
    var dataKey1, dataKey2 := Eor(data1, Load(key, i)), Eor(data2, Load(key, i + 1));
    var lo, hi := UnzipEven(AsU32(dataKey1), AsU32(dataKey2)), UnzipOdd(AsU32(dataKey1), AsU32(dataKey2));
    var sum1, sum2 := MulAddLow(Ext1(data1), lo, hi), MulAddHigh(Ext1(data2), lo, hi);
    VectorPair(was, stripe, key, i);
    VectorPair(was, stripe, key, i + 1);
    StorePair(acc, i, AddQ(LoadPair(acc, i), sum1));
    StorePair(acc, i + 1, AddQ(LoadPair(acc, i + 1), sum2));
  }

  /** One vector, two lanes. */
  method TwoLanes(acc: array<u64>, stripe: Stripe, key: Stripe, i: nat, ghost was: Lanes)
    requires acc.Length == 8 && i < 4
    requires forall k | 2 * i <= k < 2 * i + 2 :: acc[k] == was[k]
    modifies acc
    ensures LoadPair(acc, i) == PairSum(was, stripe, key, i)
    ensures forall k | 0 <= k < 8 && k / 2 != i :: acc[k] == old(acc[k])
  {
    hide PairSum, LaneOf, Add64, Widen, LowHalf, HighHalf, Xor64;
    var data := Load(stripe, i);
    var dataKey := Eor(data, Load(key, i));
    var sum := MulAdd(Ext1(data), Narrow(dataKey), ShiftNarrow32(dataKey));
    VectorPair(was, stripe, key, i);
    StorePair(acc, i, AddQ(LoadPair(acc, i), sum));
  }

  /** Pairs below `i` hold their sums, the vector part from `i` on is as before, and the scalar lanes are done. */
  ghost predicate Partly(acc: array<u64>, was: Lanes, stripe: Stripe, key: Stripe, neonLanes: nat, i: nat)
    requires acc.Length == 8 && i <= neonLanes / 2 && neonLanes <= 8
    reads acc
  {
    && (forall p | 0 <= p < i :: LoadPair(acc, p) == PairSum(was, stripe, key, p))
    && (forall k | 2 * i <= k < neonLanes :: acc[k] == was[k])
    && (forall k | neonLanes <= k < 8 :: acc[k] == Accumulate512(was, stripe, key)[k])
  }

  method FourMore(acc: array<u64>, stripe: Stripe, key: Stripe, neonLanes: nat, i: nat, ghost was: Lanes)
    requires acc.Length == 8 && i + 2 <= neonLanes / 2 && neonLanes <= 8 && neonLanes % 2 == 0
    requires Partly(acc, was, stripe, key, neonLanes, i)
    modifies acc
    ensures Partly(acc, was, stripe, key, neonLanes, i + 2)
  {
    hide LaneOf, LaneProduct, LaneSum, Add64, PairSum, Accumulate512;
    FourLanes(acc, stripe, key, i, was);
  }

  method TwoMore(acc: array<u64>, stripe: Stripe, key: Stripe, neonLanes: nat, i: nat, ghost was: Lanes)
    requires acc.Length == 8 && i + 1 <= neonLanes / 2 && neonLanes <= 8 && neonLanes % 2 == 0
    requires Partly(acc, was, stripe, key, neonLanes, i)
    modifies acc
    ensures Partly(acc, was, stripe, key, neonLanes, i + 1)
  {
    hide LaneOf, LaneProduct, LaneSum, Add64, PairSum, Accumulate512;
    TwoLanes(acc, stripe, key, i, was);
  }

  method Accumulate512Neon(acc: array<u64>, stripe: Stripe, key: Stripe, neonLanes: nat)
    requires acc.Length == 8 && 0 < neonLanes <= ACC_NB && neonLanes % 2 == 0
    modifies acc
    ensures acc[..] == Accumulate512(old(acc[..]), stripe, key)
  {
    hide LaneOf, LaneProduct, LaneSum, Add64, PairSum, Accumulate512;
    ghost var was: Lanes := acc[..];
    ScalarLanes(acc, stripe, key, neonLanes);
    var i := 0;
    while i + 1 < neonLanes / 2
      invariant i <= neonLanes / 2
      invariant Partly(acc, was, stripe, key, neonLanes, i)
    {
      FourMore(acc, stripe, key, neonLanes, i, was);
      i := i + 2;
    }
    while i < neonLanes / 2
      invariant i <= neonLanes / 2
      invariant Partly(acc, was, stripe, key, neonLanes, i)
    {
      TwoMore(acc, stripe, key, neonLanes, i, was);
      i := i + 1;
    }
    PairsAreLanes(acc, Accumulate512(was, stripe, key), was, stripe, key, neonLanes);
  }

  lemma PairsAreLanes(acc: array<u64>, sum: Lanes, was: Lanes, stripe: Stripe, key: Stripe, neonLanes: nat)
    requires acc.Length == 8 && neonLanes <= 8 && neonLanes % 2 == 0
    requires sum == Accumulate512(was, stripe, key)
    requires forall p | 0 <= p < neonLanes / 2 :: LoadPair(acc, p) == PairSum(was, stripe, key, p)
    requires forall k | neonLanes <= k < 8 :: acc[k] == sum[k]
    ensures acc[..] == sum
  {
    hide Accumulate512;
    forall k | 0 <= k < 8
      ensures acc[k] == sum[k]
    {
      if k < neonLanes {
        assert LoadPair(acc, k / 2) == PairSum(was, stripe, key, k / 2);
      }
    }
  }

  // ---- scramble ----

  /** The prime times the high half of a word, modulo 2^32. */
  function HighProduct(x: u64): u32 { ((x >> 32) as u32) * 0x9E3779B1 }

  /** The prime times the low half of a word. */
  function LowProduct(x: u64): u64 { (x & 0xFFFFFFFF) * 0x9E3779B1 }

  /** What the two vector multiplies leave in one lane. */
  function VectorProduct(x: u64): u64 {
    Add64(Join64(Mul32(LowHalf(x), 0), Mul32(HighHalf(x), 0x9E3779B1)), Widen(LowHalf(x), 0x9E3779B1))
  }

  lemma HighIsProduct(x: u64)
    ensures Mul32(HighHalf(x), 0x9E3779B1) == HighProduct(x)
  {
    calc {
      Mul32(HighHalf(x), 0x9E3779B1);
      Mul32((x >> 32) as u32, 0x9E3779B1);
      ((x >> 32) as u32) * 0x9E3779B1;
      HighProduct(x);
    }
  }

  lemma LowIsProduct(x: u64)
    ensures Widen(LowHalf(x), 0x9E3779B1) == LowProduct(x)
  {
    calc {
      Widen(LowHalf(x), 0x9E3779B1);
      Widen((x & 0xFFFFFFFF) as u32, 0x9E3779B1);
      (((x & 0xFFFFFFFF) as u32) as u64) * 0x9E3779B1;
      LowProduct(x);
    }
  }

  lemma HighInPlace(x: u32, hi: u32)
    ensures Join64(Mul32(x, 0), hi) == (hi as u64) << 32
  {
    assert Mul32(x, 0) == 0;
  }

  lemma SplitWord(x: u64)
    ensures x == ((x >> 32) << 32) + (x & 0xFFFFFFFF)
  {
  }

  lemma SameProduct(x: u64, y: u64)
    requires x == y
    ensures x * 0x9E3779B1 == y * 0x9E3779B1
  {
  }

  lemma SumOfProducts(x: u64)
    ensures ((x >> 32) << 32) * 0x9E3779B1 + (x & 0xFFFFFFFF) * 0x9E3779B1 == x * 0x9E3779B1
  {
    SplitWord(x);
    SameProduct(x, ((x >> 32) << 32) + (x & 0xFFFFFFFF));
  }

  /** The prime times the word with its low half cleared. */
  function TopProduct(x: u64): u64 { ((x >> 32) << 32) * 0x9E3779B1 }

  lemma HighIsTop(x: u64)
    ensures (HighProduct(x) as u64) << 32 == TopProduct(x)
  {
    calc {
      (HighProduct(x) as u64) << 32;
      ((((x >> 32) as u32) * 0x9E3779B1) as u64) << 32;
      ((x >> 32) << 32) * 0x9E3779B1;
      TopProduct(x);
    }
  }

  lemma TopPlusLow(x: u64)
    ensures Add64(TopProduct(x), LowProduct(x)) == TimesPrime(x)
  {
    calc {
      Add64(TopProduct(x), LowProduct(x));
      TopProduct(x) + LowProduct(x);
      ((x >> 32) << 32) * 0x9E3779B1 + LowProduct(x);
      ((x >> 32) << 32) * 0x9E3779B1 + (x & 0xFFFFFFFF) * 0x9E3779B1;
      { SumOfProducts(x); }
      x * 0x9E3779B1;
      TimesPrime(x);
    }
  }

  /** `lo * prime` plus `hi * prime` moved up is the 64-bit product by the 32-bit prime. */
  lemma SplitMultiply(x: u64)
    ensures VectorProduct(x) == TimesPrime(x)
  {
    hide Join64, Mul32, LowHalf, HighHalf, Widen, HighProduct, LowProduct, TopProduct, TimesPrime, Add64;
    HighIsProduct(x);
    LowIsProduct(x);
    HighInPlace(LowHalf(x), HighProduct(x));
    HighIsTop(x);
    TopPlusLow(x);
  }

  method ScrambleNeon(acc: array<u64>, key: Stripe, neonLanes: nat)
    requires acc.Length == 8 && 0 < neonLanes <= ACC_NB && neonLanes % 2 == 0
    modifies acc
    ensures acc[..] == Scramble(old(acc[..]), key)
  {
    hide LaneOf, ScrambleLane;
    for i := neonLanes to 8
      invariant forall k | neonLanes <= k < i :: acc[k] == ScrambleLane(old(acc[k]), LaneOf(key, k))
      invariant forall k | 0 <= k < neonLanes || i <= k < 8 :: acc[k] == old(acc[k])
    {
      acc[i] := ScrambleLane(acc[i], LaneOf(key, i));
    }
    for i := 0 to neonLanes / 2
      invariant forall k | 0 <= k < 2 * i || neonLanes <= k < 8 :: acc[k] == ScrambleLane(old(acc[k]), LaneOf(key, k))
      invariant forall k | 2 * i <= k < neonLanes :: acc[k] == old(acc[k])
    {
      var v := ScramblePair(LoadPair(acc, i), Load(key, i));
      StorePair(acc, i, v);
    }
  }

  method ScramblePair(acc: U64x2, key: U64x2) returns (v: U64x2)
    ensures v == U64x2(ScrambleLane(acc.e0, key.e0), ScrambleLane(acc.e1, key.e1))
  {
    hide Fold47, Add64, Join64, Mul32, LowHalf, HighHalf, Widen, Xor64, TimesPrime;
    var dataKey := Eor(U64x2(Fold47(acc.e0), Fold47(acc.e1)), key);
    var prodHi := MulQ32(AsU32(dataKey), U32x4(0, 0x9E3779B1, 0, 0x9E3779B1));
    v := MulAdd(AsU64(prodHi), Narrow(dataKey), U32x2(0x9E3779B1, 0x9E3779B1));
    SplitMultiply(dataKey.e0);
    SplitMultiply(dataKey.e1);
  }

  /** Any number of stripes, at any split of the lanes, is the reference accumulation. */
  method AccumulateNeon(acc: array<u64>, input: seq<byte>, secret: seq<byte>, nbStripes: nat, neonLanes: nat)
    requires acc.Length == 8 && 0 < neonLanes <= ACC_NB && neonLanes % 2 == 0
    requires STRIPE_LEN * nbStripes <= |input|
    requires nbStripes > 0 ==> CONSUME_RATE * (nbStripes - 1) + STRIPE_LEN <= |secret|
    modifies acc
    ensures acc[..] == Accumulate(old(acc[..]), input, secret, nbStripes)
  {
    hide Accumulate512;
    for n := 0 to nbStripes
      invariant acc[..] == Accumulate(old(acc[..]), input, secret, n)
    {
      Accumulate512Neon(acc, input[64 * n..64 * (n + 1)], secret[8 * n..8 * n + 64], neonLanes);
    }
  }
}
