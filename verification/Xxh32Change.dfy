/** XXH32 never misses a local change: every mixing step is a permutation of the 32-bit words, so two
    inputs of one length that differ inside one aligned word, or in one byte, hash differently. */
module Xxh32Change {
  import opened Words
  import opened BlockFold
  import opened Xxh32

  // ---- the steps are permutations ----

  function Sub32(x: u32, y: u32): u32 { x - y }

  lemma UndoAdd(x: u32, c: u32)
    ensures Sub32(Add32(x, c), c) == x
  {
    calc {
      Sub32(Add32(x, c), c);
      Sub32(x + c, c);
      (x + c) - c;
      x;
    }
  }

  lemma AddInjective(x: u32, y: u32, c: u32)
    requires Add32(x, c) == Add32(y, c)
    ensures x == y
  {
    hide Add32, Sub32;
    UndoAdd(x, c);
    UndoAdd(y, c);
  }

  lemma AddCommutes(x: u32, y: u32)
    ensures Add32(x, y) == Add32(y, x)
  {
  }

  lemma AddInjectiveRight(c: u32, x: u32, y: u32)
    requires Add32(c, x) == Add32(c, y)
    ensures x == y
  {
    hide Add32;
    AddCommutes(c, x);
    AddCommutes(c, y);
    AddInjective(x, y, c);
  }

  lemma MulAssociates(x: u32, p: u32, q: u32)
    ensures (x * p) * q == x * (p * q)
  {
  }

  lemma UndoMul(x: u32, p: u32, inverse: u32)
    requires p * inverse == 1
    ensures Mul32(Mul32(x, p), inverse) == x
  {
    calc {
      Mul32(Mul32(x, p), inverse);
      Mul32(x * p, inverse);
      (x * p) * inverse;
      { MulAssociates(x, p, inverse); }
      x * (p * inverse);
      x * 1;
      x;
    }
  }

  /** Each prime is odd, so multiplying by it can be undone. */
  lemma MulInjective(x: u32, y: u32, p: u32)
    requires p in {PRIME32_1, PRIME32_2, PRIME32_3, PRIME32_4, PRIME32_5}
    requires Mul32(x, p) == Mul32(y, p)
    ensures x == y
  {
    hide Mul32;
    var inverse: u32 :=
      if p == PRIME32_1 then 0x0e8b2f51 else if p == PRIME32_2 then 0xb6c92f47 else if p == PRIME32_3 then 0xa89ed915
      else if p == PRIME32_4 then 0xa0fe3bcf else 0xae398151;
    UndoMul(x, p, inverse);
    UndoMul(y, p, inverse);
  }

  // A rotation is undone by rotating on to the full width.

  lemma UndoRotate1(x: u32)
    ensures Rotl32(Rotl32(x, 1), 31) == x
  {
    calc {
      Rotl32(Rotl32(x, 1), 31);
      Rotl32((x << 1) | (x >> 31), 31);
      (((x << 1) | (x >> 31)) << 31) | (((x << 1) | (x >> 31)) >> 1);
      x;
    }
  }

  lemma RotateInjective1(x: u32, y: u32)
    requires Rotl32(x, 1) == Rotl32(y, 1)
    ensures x == y
  {
    hide Rotl32;
    UndoRotate1(x);
    UndoRotate1(y);
  }

  lemma UndoRotate7(x: u32)
    ensures Rotl32(Rotl32(x, 7), 25) == x
  {
    calc {
      Rotl32(Rotl32(x, 7), 25);
      Rotl32((x << 7) | (x >> 25), 25);
      (((x << 7) | (x >> 25)) << 25) | (((x << 7) | (x >> 25)) >> 7);
      x;
    }
  }

  lemma RotateInjective7(x: u32, y: u32)
    requires Rotl32(x, 7) == Rotl32(y, 7)
    ensures x == y
  {
    hide Rotl32;
    UndoRotate7(x);
    UndoRotate7(y);
  }

  lemma UndoRotate11(x: u32)
    ensures Rotl32(Rotl32(x, 11), 21) == x
  {
    calc {
      Rotl32(Rotl32(x, 11), 21);
      Rotl32((x << 11) | (x >> 21), 21);
      (((x << 11) | (x >> 21)) << 21) | (((x << 11) | (x >> 21)) >> 11);
      x;
    }
  }

  lemma RotateInjective11(x: u32, y: u32)
    requires Rotl32(x, 11) == Rotl32(y, 11)
    ensures x == y
  {
    hide Rotl32;
    UndoRotate11(x);
    UndoRotate11(y);
  }

  lemma UndoRotate12(x: u32)
    ensures Rotl32(Rotl32(x, 12), 20) == x
  {
    calc {
      Rotl32(Rotl32(x, 12), 20);
      Rotl32((x << 12) | (x >> 20), 20);
      (((x << 12) | (x >> 20)) << 20) | (((x << 12) | (x >> 20)) >> 12);
      x;
    }
  }

  lemma RotateInjective12(x: u32, y: u32)
    requires Rotl32(x, 12) == Rotl32(y, 12)
    ensures x == y
  {
    hide Rotl32;
    UndoRotate12(x);
    UndoRotate12(y);
  }

  lemma UndoRotate13(x: u32)
    ensures Rotl32(Rotl32(x, 13), 19) == x
  {
    calc {
      Rotl32(Rotl32(x, 13), 19);
      Rotl32((x << 13) | (x >> 19), 19);
      (((x << 13) | (x >> 19)) << 19) | (((x << 13) | (x >> 19)) >> 13);
      x;
    }
  }

  lemma RotateInjective13(x: u32, y: u32)
    requires Rotl32(x, 13) == Rotl32(y, 13)
    ensures x == y
  {
    hide Rotl32;
    UndoRotate13(x);
    UndoRotate13(y);
  }

  lemma UndoRotate17(x: u32)
    ensures Rotl32(Rotl32(x, 17), 15) == x
  {
    calc {
      Rotl32(Rotl32(x, 17), 15);
      Rotl32((x << 17) | (x >> 15), 15);
      (((x << 17) | (x >> 15)) << 15) | (((x << 17) | (x >> 15)) >> 17);
      x;
    }
  }

  lemma RotateInjective17(x: u32, y: u32)
    requires Rotl32(x, 17) == Rotl32(y, 17)
    ensures x == y
  {
    hide Rotl32;
    UndoRotate17(x);
    UndoRotate17(y);
  }

  lemma UndoRotate18(x: u32)
    ensures Rotl32(Rotl32(x, 18), 14) == x
  {
    calc {
      Rotl32(Rotl32(x, 18), 14);
      Rotl32((x << 18) | (x >> 14), 14);
      (((x << 18) | (x >> 14)) << 14) | (((x << 18) | (x >> 14)) >> 18);
      x;
    }
  }

  lemma RotateInjective18(x: u32, y: u32)
    requires Rotl32(x, 18) == Rotl32(y, 18)
    ensures x == y
  {
    hide Rotl32;
    UndoRotate18(x);
    UndoRotate18(y);
  }

  lemma XorCancels(x: u32, y: u32, z: u32)
    ensures ((x ^ y) ^ (y ^ z)) ^ z == x
  {
  }

  /** `x ^ (x >> r)` is undone by xoring its own shifts by `r` and `2 * r`, once `3 * r` exceeds the width. */
  function Undo15(z: u32): u32 { (z ^ (z >> 15)) ^ (z >> 30) }

  function Undo13(z: u32): u32 { (z ^ (z >> 13)) ^ (z >> 26) }

  function Undo16(z: u32): u32 { z ^ (z >> 16) }

  lemma ShiftOnce15(x: u32)
    ensures (x ^ (x >> 15)) >> 15 == (x >> 15) ^ (x >> 30)
  {
  }

  lemma ShiftTwice15(x: u32)
    ensures (x ^ (x >> 15)) >> 30 == x >> 30
  {
  }

  lemma UndoShift15(x: u32)
    ensures Undo15(Xorshift32(x, 15)) == x
  {
    calc {
      Undo15(Xorshift32(x, 15));
      Undo15(x ^ (x >> 15));
      ((x ^ (x >> 15)) ^ ((x ^ (x >> 15)) >> 15)) ^ ((x ^ (x >> 15)) >> 30);
      { ShiftOnce15(x); ShiftTwice15(x); }
      ((x ^ (x >> 15)) ^ ((x >> 15) ^ (x >> 30))) ^ (x >> 30);
      { XorCancels(x, x >> 15, x >> 30); }
      x;
    }
  }

  lemma ShiftOnce13(x: u32)
    ensures (x ^ (x >> 13)) >> 13 == (x >> 13) ^ (x >> 26)
  {
  }

  lemma ShiftTwice13(x: u32)
    ensures (x ^ (x >> 13)) >> 26 == x >> 26
  {
  }

  lemma UndoShift13(x: u32)
    ensures Undo13(Xorshift32(x, 13)) == x
  {
    calc {
      Undo13(Xorshift32(x, 13));
      Undo13(x ^ (x >> 13));
      ((x ^ (x >> 13)) ^ ((x ^ (x >> 13)) >> 13)) ^ ((x ^ (x >> 13)) >> 26);
      { ShiftOnce13(x); ShiftTwice13(x); }
      ((x ^ (x >> 13)) ^ ((x >> 13) ^ (x >> 26))) ^ (x >> 26);
      { XorCancels(x, x >> 13, x >> 26); }
      x;
    }
  }

  lemma ShiftOnce16(x: u32)
    ensures (x ^ (x >> 16)) >> 16 == x >> 16
  {
  }

  lemma XorTwice(x: u32, y: u32)
    ensures (x ^ y) ^ y == x
  {
  }

  lemma UndoShift16(x: u32)
    ensures Undo16(Xorshift32(x, 16)) == x
  {
    calc {
      Undo16(Xorshift32(x, 16));
      Undo16(x ^ (x >> 16));
      (x ^ (x >> 16)) ^ ((x ^ (x >> 16)) >> 16);
      { ShiftOnce16(x); }
      (x ^ (x >> 16)) ^ (x >> 16);
      { XorTwice(x, x >> 16); }
      x;
    }
  }

  lemma AvalancheInjective(x: u32, y: u32)
    requires Avalanche(x) == Avalanche(y)
    ensures x == y
  {
    hide Xorshift32, Mul32, Undo13, Undo15, Undo16;
    var x1, y1 := Xorshift32(x, 15), Xorshift32(y, 15);
    var x2, y2 := Mul32(x1, PRIME32_2), Mul32(y1, PRIME32_2);
    var x3, y3 := Xorshift32(x2, 13), Xorshift32(y2, 13);
    var x4, y4 := Mul32(x3, PRIME32_3), Mul32(y3, PRIME32_3);
    UndoShift16(x4);
    UndoShift16(y4);
    MulInjective(x3, y3, PRIME32_3);
    UndoShift13(x2);
    UndoShift13(y2);
    MulInjective(x1, y1, PRIME32_2);
    UndoShift15(x);
    UndoShift15(y);
  }

  // ---- a round, a tail step: injective in the accumulator and in the input ----

  lemma RoundInjective(a: u32, b: u32, x: u32, y: u32)
    requires Round(a, x) == Round(b, y)
    ensures x == y ==> a == b
    ensures a == b ==> x == y
  {
    hide Add32, Mul32, Rotl32;
    var p, q := Mul32(x, PRIME32_2), Mul32(y, PRIME32_2);
    MulInjective(Rotl32(Add32(a, p), 13), Rotl32(Add32(b, q), 13), PRIME32_1);
    RotateInjective13(Add32(a, p), Add32(b, q));
    if x == y { AddInjective(a, b, p); }
    if a == b { AddInjectiveRight(a, p, q); MulInjective(x, y, PRIME32_2); }
  }

  lemma Process4Injective(a: u32, b: u32, x: u32, y: u32)
    requires Process4(a, x) == Process4(b, y)
    ensures x == y ==> a == b
    ensures a == b ==> x == y
  {
    hide Add32, Mul32, Rotl32;
    var p, q := Mul32(x, PRIME32_3), Mul32(y, PRIME32_3);
    MulInjective(Rotl32(Add32(a, p), 17), Rotl32(Add32(b, q), 17), PRIME32_4);
    RotateInjective17(Add32(a, p), Add32(b, q));
    if x == y { AddInjective(a, b, p); }
    if a == b { AddInjectiveRight(a, p, q); MulInjective(x, y, PRIME32_3); }
  }

  lemma WidenInjective(x: byte, y: byte)
    requires x as u32 == y as u32
    ensures x == y
  {
  }

  lemma Process1Injective(a: u32, b: u32, x: byte, y: byte)
    requires Process1(a, x) == Process1(b, y)
    ensures x == y ==> a == b
    ensures a == b ==> x == y
  {
    hide Add32, Mul32, Rotl32;
    var p, q := Mul32(x as u32, PRIME32_5), Mul32(y as u32, PRIME32_5);
    MulInjective(Rotl32(Add32(a, p), 11), Rotl32(Add32(b, q), 11), PRIME32_1);
    RotateInjective11(Add32(a, p), Add32(b, q));
    if x == y { AddInjective(a, b, p); }
    if a == b { AddInjectiveRight(a, p, q); MulInjective(x as u32, y as u32, PRIME32_5); WidenInjective(x, y); }
  }

  /** Different bytes make different words. */
  lemma LoadInjective(s: seq<byte>, t: seq<byte>, i: nat)
    requires i + 4 <= |s| && i + 4 <= |t| && ReadLE32(s, i) == ReadLE32(t, i)
    ensures s[i..i + 4] == t[i..i + 4]
  {
    hide Join32, WriteLE32;
    SplitJoin32(s[i], s[i + 1], s[i + 2], s[i + 3]);
    SplitJoin32(t[i], t[i + 1], t[i + 2], t[i + 3]);
    assert s[i..i + 4] == [s[i], s[i + 1], s[i + 2], s[i + 3]];
    assert t[i..i + 4] == [t[i], t[i + 1], t[i + 2], t[i + 3]];
  }

  lemma LoadEqual(s: seq<byte>, t: seq<byte>, i: nat, j: nat)
    requires i + 4 <= |s| && j + 4 <= |t| && s[i..i + 4] == t[j..j + 4]
    ensures ReadLE32(s, i) == ReadLE32(t, j)
  {
    hide Join32;
    assert s[i] == s[i..i + 4][0] && t[j] == t[j..j + 4][0];
    assert s[i + 1] == s[i..i + 4][1] && t[j + 1] == t[j..j + 4][1];
    assert s[i + 2] == s[i..i + 4][2] && t[j + 2] == t[j..j + 4][2];
    assert s[i + 3] == s[i..i + 4][3] && t[j + 3] == t[j..j + 4][3];
  }

  // ---- one local change ----

  /** The two strings differ inside the aligned word at `i`, and nowhere else. */
  predicate WordChange(x: seq<byte>, y: seq<byte>, i: nat) {
    && |x| == |y| && i % 4 == 0 && i + 4 <= |x|
    && x[..i] == y[..i] && x[i..i + 4] != y[i..i + 4] && x[i + 4..] == y[i + 4..]
  }

  /** They differ in one byte, after the last complete word, and nowhere else. */
  predicate TailByteChange(x: seq<byte>, y: seq<byte>, i: nat) {
    && |x| == |y| && |x| - |x| % 4 <= i < |x|
    && x[..i] == y[..i] && x[i] != y[i] && x[i + 1..] == y[i + 1..]
  }

  predicate Change(x: seq<byte>, y: seq<byte>, i: nat) {
    WordChange(x, y, i) || TailByteChange(x, y, i)
  }

  /** The pieces of a string around `i`, after `k` bytes are cut off the front. */
  lemma SlicesAfter(x: seq<byte>, i: nat, k: nat, n: nat)
    requires k <= i <= i + n <= |x|
    ensures x[k..][..i - k] == x[..i][k..]
    ensures x[k..][i - k..i - k + n] == x[i..i + n]
    ensures x[k..][i - k + n..] == x[i + n..]
    ensures x[..k] == x[..i][..k]
  {
  }

  lemma WordAfter(x: seq<byte>, y: seq<byte>, i: nat, k: nat)
    requires WordChange(x, y, i) && k <= i && k % 4 == 0
    ensures WordChange(x[k..], y[k..], i - k)
    ensures x[..k] == y[..k]
  {
    SlicesAfter(x, i, k, 4);
    SlicesAfter(y, i, k, 4);
  }

  lemma TailByteAfter(x: seq<byte>, y: seq<byte>, i: nat, k: nat)
    requires TailByteChange(x, y, i) && k <= i && k % 4 == 0
    ensures TailByteChange(x[k..], y[k..], i - k)
    ensures x[..k] == y[..k]
  {
    SlicesAfter(x, i, k, 1);
    SlicesAfter(y, i, k, 1);
  }

  /** Cutting equal bytes off the front, a multiple of four of them, leaves the same change. */
  lemma ChangeAfter(x: seq<byte>, y: seq<byte>, i: nat, k: nat)
    requires Change(x, y, i) && k <= i && k % 4 == 0
    ensures Change(x[k..], y[k..], i - k)
    ensures x[..k] == y[..k]
  {
    if WordChange(x, y, i) {
      WordAfter(x, y, i, k);
    } else {
      TailByteAfter(x, y, i, k);
    }
  }

  lemma {:induction false} FinalizeInjective(a: u32, b: u32, tail: seq<byte>)
    requires Finalize(a, tail) == Finalize(b, tail)
    ensures a == b
    decreases |tail|
  {
    hide Process4, Process1, Avalanche, ReadLE32;
    if |tail| >= 4 {
      var word := ReadLE32(tail, 0);
      FinalizeInjective(Process4(a, word), Process4(b, word), tail[4..]);
      Process4Injective(a, b, word, word);
    } else if |tail| > 0 {
      FinalizeInjective(Process1(a, tail[0]), Process1(b, tail[0]), tail[1..]);
      Process1Injective(a, b, tail[0], tail[0]);
    } else {
      AvalancheInjective(a, b);
    }
  }

  lemma FinalizeWord(hash: u32, x: seq<byte>)
    requires |x| >= 4
    ensures Finalize(hash, x) == Finalize(Process4(hash, ReadLE32(x, 0)), x[4..])
  {
    hide Process4, Process1, Avalanche, ReadLE32;
  }

  lemma FinalizeByte(hash: u32, x: seq<byte>)
    requires 0 < |x| < 4
    ensures Finalize(hash, x) == Finalize(Process1(hash, x[0]), x[1..])
  {
    hide Process4, Process1, Avalanche, ReadLE32;
  }

  /** A change within the first word changes the hash. */
  lemma FinalizeFirst(hash: u32, x: seq<byte>, y: seq<byte>)
    requires |x| == |y| >= 4 && x[0..4] != y[0..4] && x[4..] == y[4..]
    ensures Finalize(hash, x) != Finalize(hash, y)
  {
    hide Process4, ReadLE32, Finalize;
    FinalizeWord(hash, x);
    FinalizeWord(hash, y);
    if Finalize(hash, x) == Finalize(hash, y) {
      FinalizeInjective(Process4(hash, ReadLE32(x, 0)), Process4(hash, ReadLE32(y, 0)), x[4..]);
      Process4Injective(hash, hash, ReadLE32(x, 0), ReadLE32(y, 0));
      LoadInjective(x, y, 0);
    }
  }

  /** A change near the front is within the first word. */
  lemma FirstWord(x: seq<byte>, y: seq<byte>, i: nat)
    requires Change(x, y, i) && |x| >= 4 && i < 4
    ensures |x| == |y| && x[0..4] != y[0..4] && x[4..] == y[4..]
  {
  }

  lemma LaterChange(x: seq<byte>, y: seq<byte>, i: nat)
    requires Change(x, y, i) && i >= 4
    ensures |x| == |y| >= 4 && ReadLE32(x, 0) == ReadLE32(y, 0) && Change(x[4..], y[4..], i - 4)
  {
    hide ReadLE32;
    ChangeAfter(x, y, i, 4);
    assert x[0..4] == x[..4] == y[..4] == y[0..4];
    LoadEqual(x, y, 0, 0);
  }

  lemma ByteChange(x: seq<byte>, y: seq<byte>, i: nat)
    requires Change(x, y, i) && |x| < 4
    ensures |x| == |y| && i < |x| && x[..i] == y[..i] && x[i] != y[i] && x[i + 1..] == y[i + 1..]
  {
  }

  /** A change in the last bytes changes the hash. */
  lemma {:induction false} FinalizeChange(hash: u32, x: seq<byte>, y: seq<byte>, i: nat)
    requires Change(x, y, i)
    ensures Finalize(hash, x) != Finalize(hash, y)
    decreases |x|
  {
    hide Process4, ReadLE32, Finalize, Change;
    if |x| < 4 {
      ByteChange(x, y, i);
      FinalizeByteChange(hash, x, y, i);
    } else if i < 4 {
      FirstWord(x, y, i);
      FinalizeFirst(hash, x, y);
    } else {
      LaterChange(x, y, i);
      FinalizeWord(hash, x);
      FinalizeWord(hash, y);
      FinalizeChange(Process4(hash, ReadLE32(x, 0)), x[4..], y[4..], i - 4);
    }
  }

  lemma {:induction false} FinalizeByteChange(hash: u32, x: seq<byte>, y: seq<byte>, i: nat)
    requires |x| == |y| < 4 && i < |x|
    requires x[..i] == y[..i] && x[i] != y[i] && x[i + 1..] == y[i + 1..]
    ensures Finalize(hash, x) != Finalize(hash, y)
    decreases |x|
  {
    hide Process1, Finalize;
    FinalizeByte(hash, x);
    FinalizeByte(hash, y);
    if i > 0 {
      assert x[0] == x[..i][0] && y[0] == y[..i][0];
      SlicesAfter(x, i, 1, 1);
      SlicesAfter(y, i, 1, 1);
      FinalizeByteChange(Process1(hash, x[0]), x[1..], y[1..], i - 1);
    } else if Finalize(hash, x) == Finalize(hash, y) {
      FinalizeInjective(Process1(hash, x[0]), Process1(hash, y[0]), x[1..]);
      Process1Injective(hash, hash, x[0], y[0]);
    }
  }

  // ---- one lane ----

  /** Exactly one lane differs. */
  predicate OneLane(a: Lanes, b: Lanes) {
    || (a.v0 != b.v0 && a.v1 == b.v1 && a.v2 == b.v2 && a.v3 == b.v3)
    || (a.v0 == b.v0 && a.v1 != b.v1 && a.v2 == b.v2 && a.v3 == b.v3)
    || (a.v0 == b.v0 && a.v1 == b.v1 && a.v2 != b.v2 && a.v3 == b.v3)
    || (a.v0 == b.v0 && a.v1 == b.v1 && a.v2 == b.v2 && a.v3 != b.v3)
  }

  lemma RoundKeepsDifference(a: u32, b: u32, x: u32)
    ensures a == b <==> Round(a, x) == Round(b, x)
  {
    hide Round;
    if Round(a, x) == Round(b, x) { RoundInjective(a, b, x, x); }
  }

  /** The same block keeps a difference in the lane it is in. */
  lemma BlockKeepsLane(a: Lanes, b: Lanes, block: seq<byte>)
    requires OneLane(a, b)
    ensures OneLane(BlockStep(a, block), BlockStep(b, block))
  {
    hide Round, ReadLE32;
    if |block| == BLOCK {
      RoundKeepsDifference(a.v0, b.v0, ReadLE32(block, 0));
      RoundKeepsDifference(a.v1, b.v1, ReadLE32(block, 4));
      RoundKeepsDifference(a.v2, b.v2, ReadLE32(block, 8));
      RoundKeepsDifference(a.v3, b.v3, ReadLE32(block, 12));
    }
  }

  /** Whether the words at `k` are equal, given that only the one at `i` differs. */
  lemma WordOf(x: seq<byte>, y: seq<byte>, i: nat, k: nat)
    requires |x| == |y| && i % 4 == 0 && k % 4 == 0 && i + 4 <= |x| && k + 4 <= |x|
    requires x[..i] == y[..i] && x[i..i + 4] != y[i..i + 4]
    requires forall j | i + 4 <= j < |x| :: x[j] == y[j]
    ensures ReadLE32(x, k) == ReadLE32(y, k) <==> k != i
  {
    hide ReadLE32;
    if k == i {
      if ReadLE32(x, k) == ReadLE32(y, k) { LoadInjective(x, y, k); }
    } else {
      if k < i {
        assert x[k..k + 4] == x[..i][k..k + 4] && y[k..k + 4] == y[..i][k..k + 4];
      } else {
        assert x[k..k + 4] == y[k..k + 4];
      }
      LoadEqual(x, y, k, k);
    }
  }

  lemma RoundSeesWord(a: u32, x: u32, y: u32)
    ensures x == y <==> Round(a, x) == Round(a, y)
  {
    hide Round;
    if Round(a, x) == Round(a, y) { RoundInjective(a, a, x, y); }
  }

  /** A changed word of a block reaches exactly the lane that takes it. */
  lemma BlockMakesLane(a: Lanes, x: seq<byte>, y: seq<byte>, i: nat)
    requires |x| == |y| == 16 && i % 4 == 0 && i < 16
    requires x[..i] == y[..i] && x[i..i + 4] != y[i..i + 4] && x[i + 4..] == y[i + 4..]
    ensures OneLane(BlockStep(a, x), BlockStep(a, y))
  {
    hide Round, ReadLE32;
    forall j | i + 4 <= j < 16
      ensures x[j] == y[j]
    {
      assert x[j] == x[i + 4..][j - (i + 4)] && y[j] == y[i + 4..][j - (i + 4)];
    }
    WordOf(x, y, i, 0);
    WordOf(x, y, i, 4);
    WordOf(x, y, i, 8);
    WordOf(x, y, i, 12);
    RoundSeesWord(a.v0, ReadLE32(x, 0), ReadLE32(y, 0));
    RoundSeesWord(a.v1, ReadLE32(x, 4), ReadLE32(y, 4));
    RoundSeesWord(a.v2, ReadLE32(x, 8), ReadLE32(y, 8));
    RoundSeesWord(a.v3, ReadLE32(x, 12), ReadLE32(y, 12));
  }

  lemma {:induction false} FoldKeepsLane(a: Lanes, b: Lanes, data: seq<byte>)
    requires OneLane(a, b)
    ensures OneLane(Fold(BlockStep, BLOCK, a, data), Fold(BlockStep, BLOCK, b, data))
    decreases |data|
  {
    hide BlockStep, OneLane;
    if |data| >= BLOCK {
      BlockKeepsLane(a, b, data[..BLOCK]);
      FoldKeepsLane(BlockStep(a, data[..BLOCK]), BlockStep(b, data[..BLOCK]), data[BLOCK..]);
    }
  }

  /** Wherever the change is, it ends up either in exactly one lane or in the bytes after the last block. */
  lemma {:induction false} FoldChange(a: Lanes, x: seq<byte>, y: seq<byte>, i: nat) returns (inTail: bool, j: nat)
    requires Change(x, y, i)
    ensures inTail ==>
      Fold(BlockStep, BLOCK, a, x) == Fold(BlockStep, BLOCK, a, y) && Change(Rest(BLOCK, x), Rest(BLOCK, y), j)
    ensures !inTail ==>
      OneLane(Fold(BlockStep, BLOCK, a, x), Fold(BlockStep, BLOCK, a, y)) && Rest(BLOCK, x) == Rest(BLOCK, y)
    ensures !inTail ==> |x| >= 16
    decreases |x|
  {
    hide BlockStep, OneLane, Change;
    assert |x| == |y| by { ChangeLength(x, y, i); }
    if |x| < 16 {
      inTail, j := true, i;
    } else if i >= 16 {
      ChangeAfter(x, y, i, 16);
      inTail, j := FoldChange(BlockStep(a, x[..16]), x[16..], y[16..], i - 16);
    } else {
      inTail, j := false, 0;
      ChangeInBlock(a, x, y, i);
      FoldKeepsLane(BlockStep(a, x[..16]), BlockStep(a, y[..16]), x[16..]);
    }
  }

  lemma ChangeLength(x: seq<byte>, y: seq<byte>, i: nat)
    requires Change(x, y, i)
    ensures |x| == |y| && i < |x|
  {
  }

  lemma ChangeInBlock(a: Lanes, x: seq<byte>, y: seq<byte>, i: nat)
    requires Change(x, y, i) && i < 16 <= |x|
    ensures OneLane(BlockStep(a, x[..16]), BlockStep(a, y[..16]))
    ensures |x| == |y| && x[16..] == y[16..]
  {
    hide BlockStep, OneLane;
    assert x[16..] == x[i + 4..][12 - i..] && y[16..] == y[i + 4..][12 - i..];
    assert x[..16][..i] == x[..i] && y[..16][..i] == y[..i];
    assert x[..16][i..i + 4] == x[i..i + 4] && y[..16][i..i + 4] == y[i..i + 4];
    assert x[..16][i + 4..] == x[i + 4..][..12 - i] && y[..16][i + 4..] == y[i + 4..][..12 - i];
    BlockMakesLane(a, x[..16], y[..16], i);
  }

  /** The merge is a sum of rotated lanes, so one changed lane changes it. */
  lemma MergeSeesLane(a: Lanes, b: Lanes)
    requires OneLane(a, b)
    ensures MergeLanes(a) != MergeLanes(b)
  {
    hide Add32, Rotl32;
    var p0, p1, p2, p3 := Rotl32(a.v0, 1), Rotl32(a.v1, 7), Rotl32(a.v2, 12), Rotl32(a.v3, 18);
    var q0, q1, q2, q3 := Rotl32(b.v0, 1), Rotl32(b.v1, 7), Rotl32(b.v2, 12), Rotl32(b.v3, 18);
    if MergeLanes(a) == MergeLanes(b) {
      if a.v3 != b.v3 {
        AddInjectiveRight(Add32(Add32(p0, p1), p2), p3, q3);
        RotateInjective18(a.v3, b.v3);
      } else {
        AddInjective(Add32(Add32(p0, p1), p2), Add32(Add32(q0, q1), q2), p3);
        ThreeLanes(a, b);
      }
    }
  }

  lemma ThreeLanes(a: Lanes, b: Lanes)
    requires a.v0 == b.v0 || a.v1 == b.v1
    requires a.v2 == b.v2 || (a.v0 == b.v0 && a.v1 == b.v1)
    requires Add32(Add32(Rotl32(a.v0, 1), Rotl32(a.v1, 7)), Rotl32(a.v2, 12))
             == Add32(Add32(Rotl32(b.v0, 1), Rotl32(b.v1, 7)), Rotl32(b.v2, 12))
    ensures a.v0 == b.v0 && a.v1 == b.v1 && a.v2 == b.v2
  {
    hide Add32, Rotl32;
    var p0, p1, p2 := Rotl32(a.v0, 1), Rotl32(a.v1, 7), Rotl32(a.v2, 12);
    var q0, q1, q2 := Rotl32(b.v0, 1), Rotl32(b.v1, 7), Rotl32(b.v2, 12);
    if a.v2 == b.v2 {
      AddInjective(Add32(p0, p1), Add32(q0, q1), p2);
      TwoLanes(a.v0, a.v1, b.v0, b.v1);
    } else {
      AddInjectiveRight(Add32(p0, p1), p2, q2);
      RotateInjective12(a.v2, b.v2);
    }
  }

  lemma TwoLanes(a0: u32, a1: u32, b0: u32, b1: u32)
    requires a0 == b0 || a1 == b1
    requires Add32(Rotl32(a0, 1), Rotl32(a1, 7)) == Add32(Rotl32(b0, 1), Rotl32(b1, 7))
    ensures a0 == b0 && a1 == b1
  {
    hide Add32, Rotl32;
    if a0 == b0 {
      AddInjectiveRight(Rotl32(a0, 1), Rotl32(a1, 7), Rotl32(b1, 7));
      RotateInjective7(a1, b1);
    } else {
      AddInjective(Rotl32(a0, 1), Rotl32(b0, 1), Rotl32(a1, 7));
      RotateInjective1(a0, b0);
    }
  }

  /** A change inside one complete aligned word, or of one byte after the last of them, changes the hash. */
  lemma ChangeDetected(x: seq<byte>, y: seq<byte>, seed: u32, i: nat)
    requires Change(x, y, i)
    ensures Hash(x, seed) != Hash(y, seed)
  {
    hide Finalize, Change, OneLane, MergeLanes, Add32, Fold, BlockStep, InitLanes, Rest;
    ChangeLength(x, y, i);
    var init := InitLanes(seed);
    var inTail, j := FoldChange(init, x, y, i);
    var a, b := Fold(BlockStep, BLOCK, init, x), Fold(BlockStep, BLOCK, init, y);
    if inTail {
      FinalizeChange(HeadHash(a, seed, |x|), Rest(BLOCK, x), Rest(BLOCK, y), j);
    } else if Hash(x, seed) == Hash(y, seed) {
      FinalizeInjective(HeadHash(a, seed, |x|), HeadHash(b, seed, |x|), Rest(BLOCK, x));
      MergeSeesLane(a, b);
      AddInjective(MergeLanes(a), MergeLanes(b), Low32(|x|));
    }
  }

  /** Two inputs of one length that differ in exactly one byte never collide. */
  lemma OneByteDetected(x: seq<byte>, y: seq<byte>, seed: u32, k: nat)
    requires |x| == |y| && k < |x|
    requires x[k] != y[k] && forall j | 0 <= j < |x| && j != k :: x[j] == y[j]
    ensures Hash(x, seed) != Hash(y, seed)
  {
    hide Hash;
    var i := k - k % 4;
    if i + 4 <= |x| {
      assert x[i..i + 4][k - i] != y[i..i + 4][k - i];
      assert WordChange(x, y, i);
      ChangeDetected(x, y, seed, i);
    } else {
      assert TailByteChange(x, y, k);
      ChangeDetected(x, y, seed, k);
    }
  }
}
