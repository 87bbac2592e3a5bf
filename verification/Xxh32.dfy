/** XXH32: the one-shot hash and the streaming state. */
module Xxh32 {
  import opened Words
  import opened BlockFold

  const BLOCK: nat := 16

  datatype Lanes = Lanes(v0: u32, v1: u32, v2: u32, v3: u32)

  function Round(acc: u32, input: u32): u32 {
    Mul32(Rotl32(Add32(acc, Mul32(input, PRIME32_2)), 13), PRIME32_1)
  }

  function Avalanche(hash: u32): u32 {
    Xorshift32(Mul32(Xorshift32(Mul32(Xorshift32(hash, 15), PRIME32_2), 13), PRIME32_3), 16)
  }

  function InitLanes(seed: u32): Lanes {
    Lanes(seed + PRIME32_1 + PRIME32_2, seed + PRIME32_2, seed, seed - PRIME32_1)
  }

  function MergeLanes(acc: Lanes): u32 {
    Add32(Add32(Add32(Rotl32(acc.v0, 1), Rotl32(acc.v1, 7)), Rotl32(acc.v2, 12)), Rotl32(acc.v3, 18))
  }

  /** One 16-byte block: each lane takes one of its four words. */
  function BlockStep(acc: Lanes, block: seq<byte>): Lanes {
    if |block| != BLOCK then acc
    else Lanes(Round(acc.v0, ReadLE32(block, 0)), Round(acc.v1, ReadLE32(block, 4)),
               Round(acc.v2, ReadLE32(block, 8)), Round(acc.v3, ReadLE32(block, 12)))
  }

  function Process4(hash: u32, word: u32): u32 {
    Mul32(Rotl32(Add32(hash, Mul32(word, PRIME32_3)), 17), PRIME32_4)
  }

  function Process1(hash: u32, b: byte): u32 {
    Mul32(Rotl32(Add32(hash, Mul32(b as u32, PRIME32_5)), 11), PRIME32_1)
  }

  /** The last bytes: whole words, then single bytes, then the avalanche. */
  function Finalize(hash: u32, tail: seq<byte>): u32
    decreases |tail|
  {
    if |tail| >= 4 then Finalize(Process4(hash, ReadLE32(tail, 0)), tail[4..])
    else if |tail| > 0 then Finalize(Process1(hash, tail[0]), tail[1..])
    else Avalanche(hash)
  }

  function LongHead(acc: Lanes, len: u32): u32 { Add32(MergeLanes(acc), len) }

  function ShortHead(seed: u32, len: u32): u32 { Add32(Add32(seed, PRIME32_5), len) }

  /** What the blocks, the seed and the length give before the last bytes. */
  function HeadHash(acc: Lanes, seed: u32, len: nat): u32 {
    if len >= 16 then LongHead(acc, Low32(len)) else ShortHead(seed, Low32(len))
  }

  /** The hash of a byte string, block by block. */
  function Hash(data: seq<byte>, seed: u32): u32 {
    Finalize(HeadHash(Fold(BlockStep, BLOCK, InitLanes(seed), data), seed, |data|), Rest(BLOCK, data))
  }

  // ---- as computed ----

  function LanesOf(acc: array<u32>): Lanes
    requires acc.Length == 4
    reads acc
  {
    Lanes(acc[0], acc[1], acc[2], acc[3])
  }

  method InitAccs(acc: array<u32>, seed: u32)
    requires acc.Length == 4
    modifies acc
    ensures LanesOf(acc) == InitLanes(seed)
  {
    var init := InitLanes(seed);
    hide InitLanes;
    acc[0], acc[1], acc[2], acc[3] := init.v0, init.v1, init.v2, init.v3;
  }

  /** At least one block, then as many as fit. */
  method ConsumeLong(acc: array<u32>, input: seq<byte>) returns (pos: nat)
    requires acc.Length == 4 && |input| >= 16
    modifies acc
    ensures pos <= |input| < pos + 16 && Whole(BLOCK, input[..pos])
    ensures LanesOf(acc) == Fold(BlockStep, BLOCK, old(LanesOf(acc)), input[..pos])
  {
    hide Fold, BlockStep;
    pos := 0;
    ghost var was := LanesOf(acc);
    FoldNone(was);
    while pos < |input| - 15
      invariant pos <= |input| && Whole(BLOCK, input[..pos])
      invariant LanesOf(acc) == Fold(BlockStep, BLOCK, was, input[..pos])
    {
      FoldBlock(BlockStep, BLOCK, was, input[..pos], input[pos..pos + 16]);
      assert input[..pos] + input[pos..pos + 16] == input[..pos + 16];
      OneBlock(acc, input, pos);
      pos := pos + 16;
    }
  }

  method OneBlock(acc: array<u32>, input: seq<byte>, pos: nat)
    requires acc.Length == 4 && pos + 16 <= |input|
    modifies acc
    ensures LanesOf(acc) == BlockStep(old(LanesOf(acc)), input[pos..pos + 16])
  {
    hide Round, Join32;
    acc[0] := Round(acc[0], ReadLE32(input, pos));
    acc[1] := Round(acc[1], ReadLE32(input, pos + 4));
    acc[2] := Round(acc[2], ReadLE32(input, pos + 8));
    acc[3] := Round(acc[3], ReadLE32(input, pos + 12));
  }

  lemma FoldNone(acc: Lanes)
    ensures Fold(BlockStep, BLOCK, acc, []) == acc
  {
    hide BlockStep;
  }

  method FinalizeLoop(hash: u32, tail: seq<byte>) returns (h: u32)
    requires |tail| < 16
    ensures h == Finalize(hash, tail)
  {
    hide Process4, Process1, Avalanche, ReadLE32;
    h := hash;
    var at := 0;
    while |tail| - at >= 4
      invariant at <= |tail|
      invariant Finalize(h, tail[at..]) == Finalize(hash, tail)
    {
      assert tail[at..][4..] == tail[at + 4..];
      h := Process4(h, ReadLE32(tail[at..], 0));
      at := at + 4;
    }
    while |tail| - at > 0
      invariant at <= |tail| < at + 4
      invariant Finalize(h, tail[at..]) == Finalize(hash, tail)
    {
      assert tail[at..][1..] == tail[at + 1..];
      h := Process1(h, tail[at]);
      at := at + 1;
    }
    h := Avalanche(h);
  }

  lemma HashSplit(blocks: seq<byte>, tail: seq<byte>, seed: u32)
    requires Whole(BLOCK, blocks) && |tail| < 16
    ensures Hash(blocks + tail, seed) ==
            Finalize(HeadHash(Fold(BlockStep, BLOCK, InitLanes(seed), blocks), seed, |blocks| + |tail|), tail)
  {
    hide Finalize, HeadHash, InitLanes, BlockStep;
    FoldSplit(BlockStep, BLOCK, InitLanes(seed), blocks, tail);
  }

  method OneShot(input: seq<byte>, seed: u32) returns (h: u32)
    ensures h == Hash(input, seed)
  {
    hide Finalize, Fold, LongHead, ShortHead, InitLanes, BlockStep, Hash, Rest;
    if |input| >= 16 {
      var acc := new u32[4];
      InitAccs(acc, seed);
      var pos := ConsumeLong(acc, input);
      HashSplit(input[..pos], input[pos..], seed);
      assert input[..pos] + input[pos..] == input;
      h := FinalizeLoop(LongHead(LanesOf(acc), Low32(|input|)), input[pos..]);
    } else {
      HashSplit([], input, seed);
      assert [] + input == input;
      h := FinalizeLoop(ShortHead(seed, Low32(|input|)), input);
    }
  }

  // ---- streaming ----

  /** The two length fields after `total` bytes: the total modulo 2^32, and whether it ever reached 16. */
  ghost predicate Counts(total: nat, total32: nat, large: bool) {
    total32 == total % TWO32 && (large <==> total >= 16)
  }

  class State {
    var totalLen32: nat
    var largeLen: bool
    const acc: array<u32>
    const buffer: array<byte>
    var bufferedSize: nat

    ghost var seed: u32
    ghost var done: seq<byte>     // the bytes already folded

    ghost function Data(): seq<byte>
      requires bufferedSize <= buffer.Length
      reads this, buffer
    {
      done + buffer[..bufferedSize]
    }

    /** The lanes are the fold of the bytes already consumed, which are complete blocks. */
    ghost predicate Folding()
      reads this`seed, this`done, acc
    {
      && acc.Length == 4 && buffer.Length == 16
      && Whole(BLOCK, done)
      && LanesOf(acc) == Fold(BlockStep, BLOCK, InitLanes(seed), done)
    }

    ghost predicate Valid()
      reads this, acc, buffer
    {
      && Folding() && bufferedSize < 16
      && Counts(|Data()|, totalLen32, largeLen)
    }

    constructor (seed: u32)
      ensures Valid() && this.seed == seed && Data() == []
      ensures fresh(acc) && fresh(buffer)
    {
      hide InitLanes, BlockStep, Fold;
      acc := new u32[4];
      buffer := new byte[16];
      totalLen32, largeLen, bufferedSize := 0, false, 0;
      this.seed, done := seed, [];
      new;
      InitAccs(acc, seed);
      FoldNone(InitLanes(seed));
    }

    /** The 32-bit total wraps; the flag remembers that the true total has reached 16. */
    method Update(input: seq<byte>)
      requires Valid()
      modifies this, acc, buffer
      ensures Valid() && seed == old(seed) && Data() == old(Data()) + input
    {
      hide Folding, Overwrite, Whole, Fold, Counts;
      FoldingFacts();
      ghost var all := Data() + input;
      CountBytes(|Data()|, totalLen32, largeLen, |input|);
      totalLen32 := (totalLen32 + |input| % TWO32) % TWO32;
      largeLen := largeLen || |input| >= 16 || totalLen32 >= 16;
      if |input| < 16 - bufferedSize {
        BufferFrom(input, 0);
        assert input[0..] == input;
      } else {
        FoldAndBuffer(input);
      }
      assert Data() == all;
    }

    /** The input completes at least one block. */
    method FoldAndBuffer(input: seq<byte>)
      requires Folding() && bufferedSize < 16 <= bufferedSize + |input|
      modifies this`bufferedSize, this`done, acc, buffer
      ensures Folding() && bufferedSize < 16 && Data() == old(Data()) + input
    {
      hide Folding, Overwrite, Whole, Fold, Counts;
      FoldingFacts();
      ghost var was := Data();
      var at := 0;
      if bufferedSize > 0 {
        at := CompleteBuffer(input);
      }
      assert done == was + input[..at];
      if |input| - at >= 16 {
        AppendSlice(was, input, at, at);
        at := TakeOn(input, at, was);
      }
      AppendSlice(was, input, at, |input|);
      assert input[..|input|] == input && input[at..|input|] == input[at..];
      if at < |input| {
        BufferFrom(input, at);
      }
    }

    /** Take the whole blocks behind `from`. */
    method TakeOn(input: seq<byte>, from: nat, ghost was: seq<byte>) returns (at: nat)
      requires Folding() && from + 16 <= |input| && done == was + input[..from]
      modifies this`done, acc
      ensures Folding() && from <= at <= |input| < at + 16 && done == was + input[..at]
    {
      hide Folding;
      at := TakeBlocks(input, from);
      AppendSlice(was, input, from, at);
    }

    /** Append the rest of the input to what is buffered; it fits. */
    method BufferFrom(input: seq<byte>, at: nat)
      requires buffer.Length == 16 && at <= |input| && bufferedSize + (|input| - at) < 16
      modifies this`bufferedSize, buffer
      ensures bufferedSize == old(bufferedSize) + (|input| - at)
      ensures Data() == old(Data()) + input[at..]
    {
      hide Overwrite;
      Memcpy(buffer, bufferedSize, input[at..]);
      bufferedSize := bufferedSize + (|input| - at);
      assert buffer[..bufferedSize] == old(buffer[..bufferedSize]) + input[at..];
    }

    lemma FoldingFacts()
      requires Folding()
      ensures acc.Length == 4 && buffer.Length == 16
    {
    }

    /** Complete the buffer from the input and fold it. */
    method CompleteBuffer(input: seq<byte>) returns (at: nat)
      requires Folding() && 0 < bufferedSize < 16 <= bufferedSize + |input|
      modifies this`bufferedSize, this`done, acc, buffer
      ensures Folding() && bufferedSize == 0
      ensures at == 16 - old(bufferedSize) && done == old(Data()) + input[..at]
    {
      hide Overwrite, InitLanes, BlockStep, Fold;
      at := 16 - bufferedSize;
      Memcpy(buffer, bufferedSize, input[..at]);
      assert buffer[..] == old(buffer[..bufferedSize]) + input[..at];
      var pos := ConsumeLong(acc, buffer[..]);
      FullBuffer(buffer[..], pos);
      FoldAppend(BlockStep, BLOCK, InitLanes(seed), done, buffer[..]);
      WholeAppend(BLOCK, done, buffer[..]);
      done := done + buffer[..];
      bufferedSize := 0;
    }

    /** Fold every complete block of the remaining input. */
    method TakeBlocks(input: seq<byte>, from: nat) returns (at: nat)
      requires Folding() && from + 16 <= |input|
      modifies this`done, acc
      ensures Folding() && from <= at <= |input| < at + 16
      ensures done == old(done) + input[from..at]
    {
      hide InitLanes, BlockStep, Fold;
      var pos := ConsumeLong(acc, input[from..]);
      at := from + pos;
      assert input[from..][..pos] == input[from..at];
      FoldAppend(BlockStep, BLOCK, InitLanes(seed), done, input[from..at]);
      WholeAppend(BLOCK, done, input[from..at]);
      done := done + input[from..at];
    }

    method Digest() returns (h: u32)
      requires Valid()
      ensures h == Hash(Data(), seed)
    {
      hide Finalize, LongHead, ShortHead, BlockStep, Hash, InitLanes, Low32;
      LowLow(|Data()|);
      var tail := buffer[..bufferedSize];
      HashSplit(done, tail, seed);
      if largeLen {
        h := FinalizeLoop(LongHead(LanesOf(acc), Low32(totalLen32)), tail);
      } else {
        WholeShort(done);
        SeedLane(seed);
        h := FinalizeLoop(ShortHead(acc[2], Low32(totalLen32)), tail);
      }
    }
  }

  lemma FullBuffer(buffer: seq<byte>, pos: nat)
    requires |buffer| == 16 && pos <= 16 < pos + 16 && Whole(BLOCK, buffer[..pos])
    ensures pos == 16 && buffer[..pos] == buffer
  {
  }

  /** With nothing folded yet the third lane is still the seed. */
  lemma SeedLane(seed: u32)
    ensures Fold(BlockStep, BLOCK, InitLanes(seed), []).v2 == seed
  {
  }

  lemma LowLow(n: nat)
    ensures Low32(n % TWO32) == Low32(n)
  {
  }

  lemma WholeShort(blocks: seq<byte>)
    requires Whole(BLOCK, blocks) && |blocks| < 16
    ensures blocks == []
  {
  }

  lemma SumMod(a: nat, b: nat)
    ensures (a % TWO32 + b % TWO32) % TWO32 == (a + b) % TWO32
  {
  }

  lemma CountBytes(total: nat, total32: nat, large: bool, len: nat)
    requires Counts(total, total32, large)
    ensures var total32' := (total32 + len % TWO32) % TWO32;
            Counts(total + len, total32', large || len >= 16 || total32' >= 16)
  {
    SumMod(total, len);
  }

  /** Any way of cutting the input into pieces gives the hash of the whole. */
  method HashPieces(pieces: seq<seq<byte>>, seed: u32) returns (h: u32)
    ensures h == Hash(Flatten(pieces), seed)
  {
    hide Hash;
    var s := new State(seed);
    for i := 0 to |pieces|
      invariant fresh(s) && fresh(s.acc) && fresh(s.buffer)
      invariant s.Valid() && s.seed == seed && s.Data() == Flatten(pieces[..i])
    {
      s.Update(pieces[i]);
      assert pieces[..i + 1][..i] == pieces[..i];
    }
    assert pieces[..|pieces|] == pieces;
    h := s.Digest();
  }
}
