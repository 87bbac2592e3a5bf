/** Cutting a byte string into blocks of a fixed size: what is folded, what is left, and how both behave
    when the string arrives in pieces. */
module BlockFold {
  import opened Words

  /** Folds `step` over the complete blocks of `data`. */
  function Fold<T>(step: (T, seq<byte>) -> T, size: nat, a: T, data: seq<byte>): T
    requires size > 0
    decreases |data|
  {
    if |data| < size then a else Fold(step, size, step(a, data[..size]), data[size..])
  }

  /** The bytes after the last complete block. */
  function Rest(size: nat, data: seq<byte>): (r: seq<byte>)
    requires size > 0
    ensures |r| < size && |r| <= |data|
    decreases |data|
  {
    if |data| < size then data else Rest(size, data[size..])
  }

  /** `data` is complete blocks and nothing else. */
  predicate Whole(size: nat, data: seq<byte>)
    requires size > 0
    decreases |data|
  {
    data == [] || (|data| >= size && Whole(size, data[size..]))
  }

  /** Complete blocks can be folded first. */
  lemma {:induction false} FoldAppend<T>(step: (T, seq<byte>) -> T, size: nat, a: T, blocks: seq<byte>, more: seq<byte>)
    requires size > 0 && Whole(size, blocks)
    ensures Fold(step, size, a, blocks + more) == Fold(step, size, Fold(step, size, a, blocks), more)
    ensures Rest(size, blocks + more) == Rest(size, more)
    decreases |blocks|
  {
    if blocks == [] {
      assert blocks + more == more;
    } else {
      assert (blocks + more)[..size] == blocks[..size];
      assert (blocks + more)[size..] == blocks[size..] + more;
      FoldAppend(step, size, step(a, blocks[..size]), blocks[size..], more);
    }
  }

  lemma {:induction false} WholeAppend(size: nat, x: seq<byte>, y: seq<byte>)
    requires size > 0 && Whole(size, x) && Whole(size, y)
    ensures Whole(size, x + y)
    decreases |x|
  {
    if x == [] {
      assert x + y == y;
    } else {
      assert (x + y)[size..] == x[size..] + y;
      WholeAppend(size, x[size..], y);
    }
  }

  /** One more block. */
  lemma FoldBlock<T>(step: (T, seq<byte>) -> T, size: nat, a: T, blocks: seq<byte>, block: seq<byte>)
    requires size > 0 && Whole(size, blocks) && |block| == size
    ensures Whole(size, blocks + block)
    ensures Fold(step, size, a, blocks + block) == step(Fold(step, size, a, blocks), block)
  {
    FoldAppend(step, size, a, blocks, block);
    assert block[..size] == block && block[size..] == [];
    WholeAppend(size, blocks, block);
  }

  /** Blocks already folded, plus fewer bytes than a block: the fold and the rest of it all. */
  lemma FoldSplit<T>(step: (T, seq<byte>) -> T, size: nat, a: T, blocks: seq<byte>, tail: seq<byte>)
    requires size > 0 && Whole(size, blocks) && |tail| < size
    ensures Fold(step, size, a, blocks + tail) == Fold(step, size, a, blocks)
    ensures Rest(size, blocks + tail) == tail
  {
    FoldAppend(step, size, a, blocks, tail);
  }

  /** The concatenation of some pieces. */
  function Flatten(pieces: seq<seq<byte>>): seq<byte> {
    if pieces == [] then [] else Flatten(pieces[..|pieces| - 1]) + pieces[|pieces| - 1]
  }
}
