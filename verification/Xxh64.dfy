/** XXH64: the one-shot hash and the streaming state. */
module Xxh64 {
  import opened Words
  import opened BlockFold

  const BLOCK: nat := 32

  datatype Lanes = Lanes(v0: u64, v1: u64, v2: u64, v3: u64)

  function Round(acc: u64, input: u64): u64 { Rotl64(acc + input * PRIME64_2, 31) * PRIME64_1 }

  function MergeRound(acc: u64, val: u64): u64 { (acc ^ Round(0, val)) * PRIME64_1 + PRIME64_4 }

  function Avalanche(hash: u64): u64 {
    var h := (hash ^ (hash >> 33)) * PRIME64_2;
    var h := (h ^ (h >> 29)) * PRIME64_3;
    h ^ (h >> 32)
  }

  function InitLanes(seed: u64): Lanes {
    Lanes(seed + PRIME64_1 + PRIME64_2, seed + PRIME64_2, seed, seed - PRIME64_1)
  }

  function MergeLanes(acc: Lanes): u64 {
    var h := Rotl64(acc.v0, 1) + Rotl64(acc.v1, 7) + Rotl64(acc.v2, 12) + Rotl64(acc.v3, 18);
    MergeRound(MergeRound(MergeRound(MergeRound(h, acc.v0), acc.v1), acc.v2), acc.v3)
  }

  /** One 32-byte block: each lane takes one of its four words. */
  function BlockStep(acc: Lanes, block: seq<byte>): Lanes {
    if |block| != BLOCK then acc
    else Lanes(Round(acc.v0, ReadLE64(block, 0)), Round(acc.v1, ReadLE64(block, 8)),
               Round(acc.v2, ReadLE64(block, 16)), Round(acc.v3, ReadLE64(block, 24)))
  }

  function Process8(hash: u64, word: u64): u64 { Rotl64(hash ^ Round(0, word), 27) * PRIME64_1 + PRIME64_4 }

  function Process4(hash: u64, word: u32): u64 {
    Rotl64(hash ^ ((word as u64) * PRIME64_1), 23) * PRIME64_2 + PRIME64_3
  }

  function Process1(hash: u64, b: byte): u64 { Rotl64(hash ^ ((b as u64) * PRIME64_5), 11) * PRIME64_1 }

  /** The last bytes: 8-byte words, at most one 4-byte word, single bytes, then the avalanche. */
  function Finalize(hash: u64, tail: seq<byte>): u64
    decreases |tail|
  {
    if |tail| >= 8 then Finalize(Process8(hash, ReadLE64(tail, 0)), tail[8..])
    else if |tail| >= 4 then Finalize(Process4(hash, ReadLE32(tail, 0)), tail[4..])
    else if |tail| > 0 then Finalize(Process1(hash, tail[0]), tail[1..])
    else Avalanche(hash)
  }

  function LongHead(acc: Lanes, len: u64): u64 { MergeLanes(acc) + len }

  function ShortHead(seed: u64, len: u64): u64 { (seed + PRIME64_5) + len }

  /** What the blocks, the seed and the length give before the last bytes. */
  function HeadHash(acc: Lanes, seed: u64, len: nat): u64 {
    if len >= 32 then LongHead(acc, Low64(len)) else ShortHead(seed, Low64(len))
  }

  /** The hash of a byte string, block by block. */
  function Hash(data: seq<byte>, seed: u64): u64 {
    Finalize(HeadHash(Fold(BlockStep, BLOCK, InitLanes(seed), data), seed, |data|), Rest(BLOCK, data))
  }

  // ---- as computed ----

  function LanesOf(acc: array<u64>): Lanes
    requires acc.Length == 4
    reads acc
  {
    Lanes(acc[0], acc[1], acc[2], acc[3])
  }

  method InitAccs(acc: array<u64>, seed: u64)
    requires acc.Length == 4
    modifies acc
    ensures LanesOf(acc) == InitLanes(seed)
  {
    var init := InitLanes(seed);
    hide InitLanes;
    acc[0], acc[1], acc[2], acc[3] := init.v0, init.v1, init.v2, init.v3;
  }

  /** At least one block, then as many as fit. */
  method ConsumeLong(acc: array<u64>, input: seq<byte>) returns (pos: nat)
    requires acc.Length == 4 && |input| >= 32
    modifies acc
    ensures pos <= |input| < pos + 32 && Whole(BLOCK, input[..pos])
    ensures LanesOf(acc) == Fold(BlockStep, BLOCK, old(LanesOf(acc)), input[..pos])
  {
    hide Fold, BlockStep;
    pos := 0;
    ghost var was := LanesOf(acc);
    FoldNone(was);
    while pos < |input| - 31
      invariant pos <= |input| && Whole(BLOCK, input[..pos])
      invariant LanesOf(acc) == Fold(BlockStep, BLOCK, was, input[..pos])
    {
      FoldBlock(BlockStep, BLOCK, was, input[..pos], input[pos..pos + 32]);
      assert input[..pos] + input[pos..pos + 32] == input[..pos + 32];
      OneBlock(acc, input, pos);
      pos := pos + 32;
    }
  }

  method OneBlock(acc: array<u64>, input: seq<byte>, pos: nat)
    requires acc.Length == 4 && pos + 32 <= |input|
    modifies acc
    ensures LanesOf(acc) == BlockStep(old(LanesOf(acc)), input[pos..pos + 32])
  {
    hide Round, Join32;
    acc[0] := Round(acc[0], ReadLE64(input, pos));
    acc[1] := Round(acc[1], ReadLE64(input, pos + 8));
    acc[2] := Round(acc[2], ReadLE64(input, pos + 16));
    acc[3] := Round(acc[3], ReadLE64(input, pos + 24));
  }

  lemma FoldNone(acc: Lanes)
    ensures Fold(BlockStep, BLOCK, acc, []) == acc
  {
    hide BlockStep;
  }

  method FinalizeLoop(hash: u64, tail: seq<byte>) returns (h: u64)
    requires |tail| < 32
    ensures h == Finalize(hash, tail)
  {
    hide Process8, Process4, Process1, Avalanche, ReadLE32, ReadLE64;
    h := hash;
    var at := 0;
    while |tail| - at >= 8
      invariant at <= |tail|
      invariant Finalize(h, tail[at..]) == Finalize(hash, tail)
    {
      assert tail[at..][8..] == tail[at + 8..];
      h := Process8(h, ReadLE64(tail[at..], 0));
      at := at + 8;
    }
    if |tail| - at >= 4 {
      assert tail[at..][4..] == tail[at + 4..];
      h := Process4(h, ReadLE32(tail[at..], 0));
      at := at + 4;
    }
    while |tail| - at > 0
      invariant at <= |tail| < at + 4
      invariant Finalize(h, tail[at..]) == Finalize(hash, tail)
    {
      assert tail[at..][1..] == tail[at + 1..];
      h := Process1(h, tail[at]);
      at := at + 1;
    }
    h := Avalanche(h);
  }

  lemma HashSplit(blocks: seq<byte>, tail: seq<byte>, seed: u64)
    requires Whole(BLOCK, blocks) && |tail| < 32
    ensures Hash(blocks + tail, seed) ==
            Finalize(HeadHash(Fold(BlockStep, BLOCK, InitLanes(seed), blocks), seed, |blocks| + |tail|), tail)
  {
    hide Finalize, HeadHash, InitLanes, BlockStep;
    FoldSplit(BlockStep, BLOCK, InitLanes(seed), blocks, tail);
  }

  method OneShot(input: seq<byte>, seed: u64) returns (h: u64)
    ensures h == Hash(input, seed)
  {
    hide Finalize, Fold, LongHead, ShortHead, InitLanes, BlockStep, Hash, Rest;
    if |input| >= 32 {
      var acc := new u64[4];
      InitAccs(acc, seed);
      var pos := ConsumeLong(acc, input);
      HashSplit(input[..pos], input[pos..], seed);
      assert input[..pos] + input[pos..] == input;
      h := FinalizeLoop(LongHead(LanesOf(acc), Low64(|input|)), input[pos..]);
    } else {
      HashSplit([], input, seed);
      assert [] + input == input;
      h := FinalizeLoop(ShortHead(seed, Low64(|input|)), input);
    }
  }

  // ---- streaming ----

  class State {
    var totalLen: nat
    const acc: array<u64>
    const buffer: array<byte>
    var bufferedSize: nat

    ghost var seed: u64
    ghost var done: seq<byte>     // the bytes already folded

    ghost function Data(): seq<byte>
      requires bufferedSize <= buffer.Length
      reads this, buffer
    {
      done + buffer[..bufferedSize]
    }

    /** The lanes are the fold of the bytes already consumed, which are complete blocks. */
    ghost predicate Folding()
      reads this`seed, this`done, acc
    {
      && acc.Length == 4 && buffer.Length == 32
      && Whole(BLOCK, done)
      && LanesOf(acc) == Fold(BlockStep, BLOCK, InitLanes(seed), done)
    }

    ghost predicate Valid()
      reads this, acc, buffer
    {
      && Folding() && bufferedSize < 32
      && totalLen == |Data()| % TWO64
    }

    constructor (seed: u64)
      ensures Valid() && this.seed == seed && Data() == []
      ensures fresh(acc) && fresh(buffer)
    {
      hide InitLanes, BlockStep, Fold;
      acc := new u64[4];
      buffer := new byte[32];
      totalLen, bufferedSize := 0, 0;
      this.seed, done := seed, [];
      new;
      InitAccs(acc, seed);
      FoldNone(InitLanes(seed));
    }

    method Update(input: seq<byte>)
      requires Valid()
      modifies this, acc, buffer
      ensures Valid() && seed == old(seed) && Data() == old(Data()) + input
    {
      hide Folding, Overwrite, Whole, Fold;
      FoldingFacts();
      ghost var all := Data() + input;
      CountBytes(|Data()|, |input|);
      totalLen := (totalLen + |input|) % TWO64;
      if |input| < 32 - bufferedSize {
        BufferFrom(input, 0);
        assert input[0..] == input;
      } else {
        FoldAndBuffer(input);
      }
      assert Data() == all;
    }

    /** The input completes at least one block. */
    method FoldAndBuffer(input: seq<byte>)
      requires Folding() && bufferedSize < 32 <= bufferedSize + |input|
      modifies this`bufferedSize, this`done, acc, buffer
      ensures Folding() && bufferedSize < 32 && Data() == old(Data()) + input
    {
      hide Folding, Overwrite, Whole, Fold;
      FoldingFacts();
      ghost var was := Data();
      var at := 0;
      if bufferedSize > 0 {
        at := CompleteBuffer(input);
      }
      assert done == was + input[..at];
      if |input| - at >= 32 {
        AppendSlice(was, input, at, at);
        at := TakeOn(input, at, was);
      }
      AppendSlice(was, input, at, |input|);
      assert input[..|input|] == input && input[at..|input|] == input[at..];
      if at < |input| {
        BufferFrom(input, at);
      }
    }

    /** Take the whole blocks behind `from`. */
    method TakeOn(input: seq<byte>, from: nat, ghost was: seq<byte>) returns (at: nat)
      requires Folding() && from + 32 <= |input| && done == was + input[..from]
      modifies this`done, acc
      ensures Folding() && from <= at <= |input| < at + 32 && done == was + input[..at]
    {
      hide Folding;
      at := TakeBlocks(input, from);
      AppendSlice(was, input, from, at);
    }

    /** Append the rest of the input to what is buffered; it fits. */
    method BufferFrom(input: seq<byte>, at: nat)
      requires buffer.Length == 32 && at <= |input| && bufferedSize + (|input| - at) < 32
      modifies this`bufferedSize, buffer
      ensures bufferedSize == old(bufferedSize) + (|input| - at)
      ensures Data() == old(Data()) + input[at..]
    {
      hide Overwrite;
      Memcpy(buffer, bufferedSize, input[at..]);
      bufferedSize := bufferedSize + (|input| - at);
      assert buffer[..bufferedSize] == old(buffer[..bufferedSize]) + input[at..];
    }

    lemma FoldingFacts()
      requires Folding()
      ensures acc.Length == 4 && buffer.Length == 32
    {
    }

    /** Complete the buffer from the input and fold it. */
    method CompleteBuffer(input: seq<byte>) returns (at: nat)
      requires Folding() && 0 < bufferedSize < 32 <= bufferedSize + |input|
      modifies this`bufferedSize, this`done, acc, buffer
      ensures Folding() && bufferedSize == 0
      ensures at == 32 - old(bufferedSize) && done == old(Data()) + input[..at]
    {
      hide Overwrite, InitLanes, BlockStep, Fold;
      at := 32 - bufferedSize;
      Memcpy(buffer, bufferedSize, input[..at]);
      assert buffer[..] == old(buffer[..bufferedSize]) + input[..at];
      var pos := ConsumeLong(acc, buffer[..]);
      FullBuffer(buffer[..], pos);
      FoldAppend(BlockStep, BLOCK, InitLanes(seed), done, buffer[..]);
      WholeAppend(BLOCK, done, buffer[..]);
      done := done + buffer[..];
      bufferedSize := 0;
    }

    /** Fold every complete block of the remaining input. */
    method TakeBlocks(input: seq<byte>, from: nat) returns (at: nat)
      requires Folding() && from + 32 <= |input|
      modifies this`done, acc
      ensures Folding() && from <= at <= |input| < at + 32
      ensures done == old(done) + input[from..at]
    {
      hide InitLanes, BlockStep, Fold;
      var pos := ConsumeLong(acc, input[from..]);
      at := from + pos;
      assert input[from..][..pos] == input[from..at];
      FoldAppend(BlockStep, BLOCK, InitLanes(seed), done, input[from..at]);
      WholeAppend(BLOCK, done, input[from..at]);
      done := done + input[from..at];
    }

    /** The number of bytes left over is recomputed from the total. */
    method Digest() returns (h: u64)
      requires Valid() && |Data()| < TWO64
      ensures h == Hash(Data(), seed)
    {
      hide Finalize, LongHead, ShortHead, BlockStep, Hash, InitLanes, Low64;
      WholeLength(done);
      assert totalLen % 32 == bufferedSize;
      var tail := buffer[..totalLen % 32];
      HashSplit(done, tail, seed);
      if totalLen >= 32 {
        h := FinalizeLoop(LongHead(LanesOf(acc), Low64(totalLen)), tail);
      } else {
        WholeShort(done);
        SeedLane(seed);
        h := FinalizeLoop(ShortHead(acc[2], Low64(totalLen)), tail);
      }
    }
  }

  lemma {:induction false} WholeLength(blocks: seq<byte>)
    requires Whole(BLOCK, blocks)
    ensures |blocks| % 32 == 0
    decreases |blocks|
  {
    if blocks != [] {
      WholeLength(blocks[32..]);
    }
  }

  lemma FullBuffer(buffer: seq<byte>, pos: nat)
    requires |buffer| == 32 && pos <= 32 < pos + 32 && Whole(BLOCK, buffer[..pos])
    ensures pos == 32 && buffer[..pos] == buffer
  {
  }

  /** With nothing folded yet the third lane is still the seed. */
  lemma SeedLane(seed: u64)
    ensures Fold(BlockStep, BLOCK, InitLanes(seed), []).v2 == seed
  {
  }

  lemma WholeShort(blocks: seq<byte>)
    requires Whole(BLOCK, blocks) && |blocks| < 32
    ensures blocks == []
  {
  }

  lemma CountBytes(total: nat, len: nat)
    ensures (total % TWO64 + len) % TWO64 == (total + len) % TWO64
  {
  }

  /** Any way of cutting the input into pieces gives the hash of the whole. */
  method HashPieces(pieces: seq<seq<byte>>, seed: u64) returns (h: u64)
    requires |Flatten(pieces)| < TWO64
    ensures h == Hash(Flatten(pieces), seed)
  {
    hide Hash;
    var s := new State(seed);
    for i := 0 to |pieces|
      invariant fresh(s) && fresh(s.acc) && fresh(s.buffer)
      invariant s.Valid() && s.seed == seed && s.Data() == Flatten(pieces[..i])
    {
      s.Update(pieces[i]);
      assert pieces[..i + 1][..i] == pieces[..i];
    }
    assert pieces[..|pieces|] == pieces;
    h := s.Digest();
  }
}
