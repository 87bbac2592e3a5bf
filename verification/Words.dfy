/** Machine words as xxHash uses them: little-endian loads and stores, rotations and byte swaps. */
module Words {
  type byte = bv8
  type u32 = bv32
  type u64 = bv64

  const TWO32: nat := 0x1_0000_0000
  const TWO64: nat := 0x1_0000_0000_0000_0000

  const PRIME32_1: u32 := 0x9E3779B1
  const PRIME32_2: u32 := 0x85EBCA77
  const PRIME32_3: u32 := 0xC2B2AE3D
  const PRIME32_4: u32 := 0x27D4EB2F
  const PRIME32_5: u32 := 0x165667B1

  const PRIME64_1: u64 := 0x9E3779B185EBCA87
  const PRIME64_2: u64 := 0xC2B2AE3D27D4EB4F
  const PRIME64_3: u64 := 0x165667B19E3779F9
  const PRIME64_4: u64 := 0x85EBCA77C2B2AE63
  const PRIME64_5: u64 := 0x27D4EB2F165667C5

  /** A size cast to 32 bits, as `(xxh_u32)len` truncates it. */
  function Low32(n: nat): u32 { (n % TWO32) as bv32 }

  /** A size cast to 64 bits. */
  function Low64(n: nat): u64 { (n % TWO64) as bv64 }

  /** Wrapping sum and exclusive or, as named operations. */
  function Add64(x: u64, y: u64): u64 { x + y }

  function Xor64(x: u64, y: u64): u64 { x ^ y }

  function Add32(x: u32, y: u32): u32 { x + y }

  function Mul32(x: u32, y: u32): u32 { x * y }

  function Mul64(x: u64, y: u64): u64 { x * y }

  function Xorshift32(x: u32, r: nat): u32
    requires r < 32
  {
    x ^ (x >> r)
  }

  function Rotl32(x: u32, r: nat): u32
    requires 0 < r < 32
  {
    (x << r) | (x >> (32 - r))
  }

  function Rotl64(x: u64, r: nat): u64
    requires 0 < r < 64
  {
    (x << r) | (x >> (64 - r))
  }

  function Swap32(x: u32): u32 {
    ((x << 24) & 0xff000000) | ((x << 8) & 0x00ff0000) | ((x >> 8) & 0x0000ff00) | ((x >> 24) & 0x000000ff)
  }

  function Swap64(x: u64): u64 {
    ((x << 56) & 0xff00000000000000) | ((x << 40) & 0x00ff000000000000) |
    ((x << 24) & 0x0000ff0000000000) | ((x << 8) & 0x000000ff00000000) |
    ((x >> 8) & 0x00000000ff000000) | ((x >> 24) & 0x0000000000ff0000) |
    ((x >> 40) & 0x000000000000ff00) | ((x >> 56) & 0x00000000000000ff)
  }

  function Join32(b0: byte, b1: byte, b2: byte, b3: byte): u32 {
    b0 as u32 | (b1 as u32 << 8) | (b2 as u32 << 16) | (b3 as u32 << 24)
  }

  function Join64(lo: u32, hi: u32): u64 { lo as u64 | (hi as u64 << 32) }

  function ReadLE32(s: seq<byte>, i: nat): u32
    requires i + 4 <= |s|
  {
    Join32(s[i], s[i + 1], s[i + 2], s[i + 3])
  }

  function ReadLE64(s: seq<byte>, i: nat): u64
    requires i + 8 <= |s|
  {
    Join64(ReadLE32(s, i), ReadLE32(s, i + 4))
  }

  function WriteLE32(x: u32): (r: seq<byte>)
    ensures |r| == 4
  {
    [(x & 0xff) as byte, ((x >> 8) & 0xff) as byte, ((x >> 16) & 0xff) as byte, ((x >> 24) & 0xff) as byte]
  }

  function WriteLE64(x: u64): (r: seq<byte>)
    ensures |r| == 8
  {
    WriteLE32((x & 0xffffffff) as u32) + WriteLE32((x >> 32) as u32)
  }

  /** Appending a prefix and the piece behind it is appending the longer prefix. */
  lemma AppendSlice(a: seq<byte>, s: seq<byte>, i: nat, j: nat)
    requires i <= j <= |s|
    ensures a + s[..i] + s[i..j] == a + s[..j]
  {
    assert s[..j] == s[..i] + s[i..j];
  }

  lemma Add64Comm(x: u64, y: u64)
    ensures Add64(x, y) == Add64(y, x)
  {
  }

  lemma Add64Assoc(x: u64, y: u64, z: u64)
    ensures Add64(Add64(x, y), z) == Add64(x, Add64(y, z))
  {
    calc {
      Add64(Add64(x, y), z);
      Add64(x + y, z);
      (x + y) + z;
      x + (y + z);
      Add64(x, y + z);
      Add64(x, Add64(y, z));
    }
  }

  lemma JoinBytes(x: u32)
    ensures Join32((x & 0xff) as byte, ((x >> 8) & 0xff) as byte, ((x >> 16) & 0xff) as byte,
      ((x >> 24) & 0xff) as byte) == x
  {
  }

  lemma JoinHalves(x: u64)
    ensures Join64((x & 0xffffffff) as u32, (x >> 32) as u32) == x
  {
  }

  lemma SplitJoin32(b0: byte, b1: byte, b2: byte, b3: byte)
    ensures WriteLE32(Join32(b0, b1, b2, b3)) == [b0, b1, b2, b3]
  {
  }

  lemma SplitJoin64(lo: u32, hi: u32)
    ensures (Join64(lo, hi) & 0xffffffff) as u32 == lo
    ensures (Join64(lo, hi) >> 32) as u32 == hi
  {
  }

  /** A store followed by a load gives the word back. */
  lemma ReadWrite64(x: u64)
    ensures ReadLE64(WriteLE64(x), 0) == x
  {
    JoinBytes((x & 0xffffffff) as u32);
    JoinBytes((x >> 32) as u32);
    JoinHalves(x);
  }

  /** A load followed by a store gives the bytes back. */
  lemma WriteRead64(s: seq<byte>, i: nat)
    requires i + 8 <= |s|
    ensures WriteLE64(ReadLE64(s, i)) == s[i..i + 8]
  {
    SplitJoin32(s[i], s[i + 1], s[i + 2], s[i + 3]);
    SplitJoin32(s[i + 4], s[i + 5], s[i + 6], s[i + 7]);
    SplitJoin64(ReadLE32(s, i), ReadLE32(s, i + 4));
  }

  // ---- byte buffers ----

  /** `s` with the bytes of `src` stored at offset `at`. */
  function Overwrite(s: seq<byte>, at: nat, src: seq<byte>): (r: seq<byte>)
    requires at + |src| <= |s|
    ensures |r| == |s|
    ensures r[..at] == s[..at] && r[at..at + |src|] == src && r[at + |src|..] == s[at + |src|..]
  {
    s[..at] + src + s[at + |src|..]
  }

  method Memcpy(dst: array<byte>, at: nat, src: seq<byte>)
    requires at + |src| <= dst.Length
    modifies dst
    ensures dst[..] == Overwrite(old(dst[..]), at, src)
  {
    for k := 0 to |src|
      invariant dst[..at] == old(dst[..at])
      invariant dst[at..at + k] == src[..k]
      invariant dst[at + |src|..] == old(dst[at + |src|..])
    {
      dst[at + k] := src[k];
      assert dst[at..at + k + 1] == dst[at..at + k] + [dst[at + k]];
    }
    assert dst[..] == dst[..at] + dst[at..at + |src|] + dst[at + |src|..];
  }
}
