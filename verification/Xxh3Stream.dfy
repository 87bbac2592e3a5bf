/** XXH3 streaming: the 256-byte buffer, the stripe counter carried across calls, the cached secret,
    and the proof that every digest is the one-shot hash of the bytes fed since the last reset. */
module Xxh3Stream {
  import opened Words
  import opened Mult128
  import opened Xxh3Kernel
  import opened Xxh3Long
  import opened Xxh3Hash
  import opened Xxh3Oneshot

  const INTERNALBUFFER_SIZE: nat := 256
  const INTERNALBUFFER_STRIPES: nat := 4

  // ---- what the buffer and the accumulators mean ----

  function Start(): Progress { Progress(InitAcc(), 0) }

  /** Nothing is buffered: `data` is `stripes` whole stripes, all absorbed, and the last of them is
      still in the last 64 bytes of the buffer. */
  ghost predicate Aligned(data: seq<byte>, stripes: nat, secret: Secret, p: Progress, buffer: seq<byte>) {
    && |buffer| == INTERNALBUFFER_SIZE
    && |data| == 64 * stripes
    && p == Absorb(Start(), data, secret, stripes)
    && (stripes > 0 ==> buffer[192..] == data[|data| - 64..])
  }

  /** `stripes` stripes are absorbed, the remaining bytes are at the front of the buffer, at least one of
      them whenever anything was absorbed, and if they are fewer than 64 then the end of the buffer holds
      the bytes that complete the last stripe. */
  ghost predicate Buffered(data: seq<byte>, stripes: nat, secret: Secret, p: Progress, buffer: seq<byte>, size: nat) {
    && |buffer| == INTERNALBUFFER_SIZE && size <= INTERNALBUFFER_SIZE
    && |data| == 64 * stripes + size
    && p == Absorb(Start(), data, secret, stripes)
    && buffer[..size] == data[64 * stripes..]
    && (stripes > 0 ==> |data| > INTERNALBUFFER_SIZE && size > 0)
    && (stripes > 0 && size < 64 ==> buffer[192 + size..] == data[|data| - 64..64 * stripes])
  }

  /** Stripes absorbed from elsewhere, on top of `data`, are the stripes of the concatenation. */
  lemma AbsorbAppend(data: seq<byte>, stripes: nat, more: seq<byte>, n: nat, secret: Secret)
    requires |data| == 64 * stripes && 64 * n <= |more|
    ensures Absorb(Absorb(Start(), data, secret, stripes), more, secret, n) ==
            Absorb(Start(), data + more[..64 * n], secret, stripes + n)
  {
    hide Absorb, StripesPerBlock, InitAcc;
    var all := data + more[..64 * n];
    assert all[64 * stripes..] == more[..64 * n];
    assert all[..64 * stripes] == data == data[..64 * stripes];
    AbsorbPrefix(Start(), data, all, secret, stripes);
    AbsorbSplit(Start(), all, secret, stripes, n);
    assert more[..64 * n][..64 * n] == more[..64 * n];
    AbsorbPrefix(Absorb(Start(), data, secret, stripes), more[..64 * n], more, secret, n);
  }

  /** Input that fits is appended to the buffer. */
  lemma FillKeeps(data: seq<byte>, stripes: nat, secret: Secret, p: Progress, buffer: seq<byte>, size: nat,
    input: seq<byte>)
    requires Buffered(data, stripes, secret, p, buffer, size)
    requires size + |input| <= INTERNALBUFFER_SIZE
    ensures Buffered(data + input, stripes, secret, p, Overwrite(buffer, size, input), size + |input|)
  {
    hide Absorb, StripesPerBlock, InitAcc, Overwrite;
    var all, buffer' := data + input, Overwrite(buffer, size, input);
    assert all[..64 * stripes] == data[..64 * stripes];
    AbsorbPrefix(Start(), data, all, secret, stripes);
    assert buffer'[..size + |input|] == buffer'[..size] + buffer'[size..size + |input|];
    assert all[64 * stripes..] == data[64 * stripes..] + input;
    if stripes > 0 && size + |input| < 64 {
      assert buffer'[192 + (size + |input|)..] == buffer'[size + |input|..][192..];
      assert buffer[192 + (size + |input|)..] == buffer[size + |input|..][192..];
      assert buffer[192 + (size + |input|)..] == buffer[192 + size..][|input|..];
      assert all[|all| - 64..64 * stripes] == data[|data| - 64..64 * stripes][|input|..];
    }
  }

  /** A full buffer drains into the accumulators. */
  lemma DrainKeeps(data: seq<byte>, stripes: nat, secret: Secret, p: Progress, buffer: seq<byte>)
    requires Buffered(data, stripes, secret, p, buffer, INTERNALBUFFER_SIZE)
    ensures p.inBlock < StripesPerBlock(secret)
    ensures Aligned(data, stripes + 4, secret, Absorb(p, buffer, secret, 4), buffer)
  {
    hide Absorb, StripesPerBlock, InitAcc;
    var done := data[..64 * stripes];
    assert done[..64 * stripes] == data[..64 * stripes];
    AbsorbPrefix(Start(), data, done, secret, stripes);
    assert buffer[..64 * 4] == buffer == data[64 * stripes..];
    AbsorbAppend(done, stripes, buffer, 4, secret);
    assert done + buffer[..64 * 4] == data;
    assert data[|data| - 64..] == data[64 * stripes..][192..];
  }

  /** Whole stripes taken straight from the input, the last one copied to the end of the buffer. */
  lemma BulkKeeps(data: seq<byte>, stripes: nat, secret: Secret, p: Progress, buffer: seq<byte>, input: seq<byte>,
    n: nat)
    requires Aligned(data, stripes, secret, p, buffer)
    requires 0 < n && 64 * n <= |input|
    ensures p.inBlock < StripesPerBlock(secret)
    ensures Aligned(data + input[..64 * n], stripes + n, secret, Absorb(p, input, secret, n),
                    Overwrite(buffer, 192, input[64 * n - 64..64 * n]))
  {
    hide Absorb, StripesPerBlock, InitAcc, Overwrite;
    AbsorbAppend(data, stripes, input, n, secret);
    var all := data + input[..64 * n];
    var buffer' := Overwrite(buffer, 192, input[64 * n - 64..64 * n]);
    assert all[|all| - 64..] == input[64 * n - 64..64 * n];
    assert buffer'[192..] == buffer'[192..192 + 64];
  }

  /** What is left of the input, at most a buffer and at least a byte, is buffered. */
  lemma RestKeeps(data: seq<byte>, stripes: nat, secret: Secret, p: Progress, buffer: seq<byte>, rest: seq<byte>)
    requires Aligned(data, stripes, secret, p, buffer)
    requires 0 < |rest| <= INTERNALBUFFER_SIZE < |data| + |rest|
    ensures Buffered(data + rest, stripes, secret, p, Overwrite(buffer, 0, rest), |rest|)
  {
    hide Absorb, StripesPerBlock, InitAcc, Overwrite;
    var all, buffer' := data + rest, Overwrite(buffer, 0, rest);
    assert all[..64 * stripes] == data == data[..64 * stripes];
    AbsorbPrefix(Start(), data, all, secret, stripes);
    assert all[64 * stripes..] == rest;
    assert buffer'[..|rest|] == buffer'[0..0 + |rest|];
    if stripes > 0 && |rest| < 64 {
      assert buffer'[192 + |rest|..] == buffer'[|rest|..][192..];
      assert buffer[192 + |rest|..] == buffer[|rest|..][192..] == buffer[192..][|rest|..];
      assert all[|all| - 64..64 * stripes] == data[|data| - 64..][|rest|..];
    }
  }

  /** The last 64 bytes of everything fed, as the digest reassembles them. */
  lemma LastStripe(data: seq<byte>, stripes: nat, secret: Secret, p: Progress, buffer: seq<byte>, size: nat)
    requires Buffered(data, stripes, secret, p, buffer, size)
    requires |data| > MIDSIZE_MAX
    ensures size >= 64 ==> buffer[size - 64..size] == data[|data| - 64..]
    ensures size < 64 ==> stripes > 0 && size > 0 && buffer[192 + size..] + buffer[..size] == data[|data| - 64..]
  {
    hide Absorb, StripesPerBlock, InitAcc;
    if size >= 64 {
      assert buffer[size - 64..size] == buffer[..size][size - 64..];
      assert data[|data| - 64..] == data[64 * stripes..][size - 64..];
    } else {
      assert data[|data| - 64..] == data[|data| - 64..64 * stripes] + data[64 * stripes..];
    }
  }

  /** Consuming what is buffered, all but its last partial stripe, completes the long hash. */
  lemma DigestStripes(data: seq<byte>, stripes: nat, secret: Secret, p: Progress, buffer: seq<byte>, size: nat)
    requires Buffered(data, stripes, secret, p, buffer, size)
    requires |data| > MIDSIZE_MAX && size > 0
    ensures p.inBlock < StripesPerBlock(secret)
    ensures var n := if size >= 64 then (size - 1) / 64 else 0;
            Absorb(p, buffer, secret, n) == Absorb(Start(), data, secret, (|data| - 1) / 64)
  {
    hide Absorb, StripesPerBlock, InitAcc;
    var n := if size >= 64 then (size - 1) / 64 else 0;
    var done := data[..64 * stripes];
    assert done[..64 * stripes] == data[..64 * stripes];
    AbsorbPrefix(Start(), data, done, secret, stripes);
    AbsorbAppend(done, stripes, buffer, n, secret);
    assert buffer[..64 * n] == buffer[..size][..64 * n] == data[64 * stripes..][..64 * n];
    assert done + buffer[..64 * n] == data[..64 * (stripes + n)];
    assert data[..64 * (stripes + n)][..64 * (stripes + n)] == data[..64 * (stripes + n)];
    AbsorbPrefix(Start(), data, data[..64 * (stripes + n)], secret, stripes + n);
    assert (|data| - 1) / 64 == stripes + n;
  }
}
