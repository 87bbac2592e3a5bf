/** The XXH3 streaming state as an object, and whole sessions on it. */
module Xxh3State {
  import opened Options
  import opened Words
  import opened Mult128
  import opened Xxh3Kernel
  import opened Xxh3Long
  import opened Xxh3Hash
  import opened Xxh3Oneshot
  import opened Xxh3Stream

  class State {
    const acc: array<u64>
    const customSecret: array<byte>
    const buffer: array<byte>
    var bufferedSize: nat
    var useSeed: bool
    var nbStripesSoFar: nat
    var totalLen: nat
    var nbStripesPerBlock: nat
    var secretLimit: nat
    var seed: u64
    var extSecret: Option<seq<byte>>

    ghost var mode: Option<Mode>  // how the last reset keyed the state, if it succeeded
    ghost var data: seq<byte>     // the bytes fed since then
    ghost var stripes: nat        // how many stripes of them are absorbed

    ghost predicate Shape() {
      && acc.Length == 8 && buffer.Length == INTERNALBUFFER_SIZE && customSecret.Length == SECRET_DEFAULT_SIZE
      && buffer != customSecret
    }

    /** What holds at all times, whether or not a reset has succeeded: the shape, and the secret cache. */
    ghost predicate Valid()
      reads this`seed, this`extSecret, customSecret
    {
      && Shape()
      && (extSecret.None? && seed != 0 ==> customSecret[..] == DerivedSecret(seed))
    }

    /** The secret in use. */
    function SecretBytes(): seq<byte>
      reads this`extSecret, customSecret
    {
      if extSecret.None? then customSecret[..] else extSecret.value
    }

    /** The flags that select the short-input function agree with the mode. */
    ghost predicate Keys(m: Mode)
      reads this`seed, this`useSeed, this`extSecret
    {
      match m
      case Default => !useSeed && extSecret == Some(KSecret())
      case Seeded(s) =>
        if s == 0 then !useSeed && extSecret == Some(KSecret())
        else useSeed && seed == s && extSecret.None?
      case Keyed(secret) => !useSeed && extSecret == Some(secret)
      case KeyedSeeded(secret, s) => useSeed && seed == s && extSecret == Some(secret)
    }

    /** A reset has succeeded: the secret in use and the numbers computed from its size are those of the mode. */
    ghost predicate Configured()
      reads this`mode, this`seed, this`useSeed, this`extSecret, this`nbStripesPerBlock, this`secretLimit, customSecret
    {
      && Valid() && mode.Some? && Keys(mode.value)
      && SecretBytes() == LongSecret(mode.value)
      && nbStripesPerBlock == StripesPerBlock(LongSecret(mode.value))
      && secretLimit == |LongSecret(mode.value)| - STRIPE_LEN
    }

    /** And the accumulators and the buffer track the bytes fed since. */
    ghost predicate Ready()
      reads this, customSecret, acc, buffer
    {
      && Configured()
      && totalLen == |data| % TWO64
      && Buffered(data, stripes, LongSecret(mode.value), Progress(acc[..], nbStripesSoFar), buffer[..], bufferedSize)
    }

    /** `XXH3_createState`: the seed is zeroed and no secret is referenced; nothing else is set. */
    constructor ()
      ensures Valid() && mode.None?
      ensures fresh(acc) && fresh(customSecret) && fresh(buffer)
    {
      acc := new u64[8];
      customSecret := new byte[SECRET_DEFAULT_SIZE];
      buffer := new byte[INTERNALBUFFER_SIZE];
      seed := 0;
      extSecret := None;
      mode := None;
    }

    /** `XXH3_reset_internal`; the size is what the caller says, even when it is too small. */
    method ResetInternal(seed: u64, secret: Option<seq<byte>>, secretSize: nat, ghost m: Option<Mode>)
      requires Shape()
      requires secret.None? && seed != 0 ==> customSecret[..] == DerivedSecret(seed)
      modifies this, acc
      ensures Valid()
      ensures this.seed == seed && useSeed == (seed != 0) && extSecret == secret
      ensures secretLimit == (secretSize + TWO64 - STRIPE_LEN) % TWO64
      ensures nbStripesPerBlock == secretLimit / CONSUME_RATE
      ensures mode == m && data == [] && stripes == 0
      ensures bufferedSize == 0 && nbStripesSoFar == 0 && totalLen == 0 && acc[..] == InitAcc()
    {
      hide InitAcc, DerivedSecret;
      bufferedSize, useSeed, nbStripesSoFar, totalLen := 0, seed != 0, 0, 0;
      InitAccs(acc);
      this.seed := seed;
      extSecret := secret;
      secretLimit := (secretSize + TWO64 - STRIPE_LEN) % TWO64;
      nbStripesPerBlock := secretLimit / CONSUME_RATE;
      mode, data, stripes := m, [], 0;
    }

    method Reset()
      requires Valid()
      modifies this, acc
      ensures Ready() && mode == Some(Default) && data == []
    {
      hide KSecret, InitAcc, DerivedSecret, Absorb;
      ResetInternal(0, Some(KSecret()), SECRET_DEFAULT_SIZE, Some(Default));
      FreshBuffer(KSecret(), acc[..], buffer[..]);
    }

    /** The internal reset runs before the arguments are checked. */
    method ResetWithSecret(secret: Option<seq<byte>>, secretSize: nat) returns (ok: bool)
      requires Valid()
      requires secret.Some? ==> secretSize == |secret.value| < TWO64
      modifies this, acc
      ensures Valid()
      ensures ok <==> secret.Some? && secretSize >= SECRET_SIZE_MIN
      ensures ok ==> Ready() && mode == Some(Keyed(secret.value)) && data == []
      ensures !ok ==> mode.None?
    {
      hide KSecret, InitAcc, DerivedSecret, Absorb;
      ok := secret.Some? && secretSize >= SECRET_SIZE_MIN;
      ResetInternal(0, secret, secretSize, if ok then Some(Keyed(secret.value)) else None);
      if secret.None? { return false; }
      if secretSize < SECRET_SIZE_MIN { return false; }
      FreshBuffer(secret.value, acc[..], buffer[..]);
      return true;
    }

    /** The secret is derived again only if the cached one may belong to something else. */
    method ResetWithSeed(seed: u64)
      requires Valid()
      modifies this, acc, customSecret
      ensures Ready() && mode == Some(Seeded(seed)) && data == []
    {
      hide KSecret, InitAcc, DerivedSecret, Absorb;
      if seed == 0 {
        Reset();
        mode := Some(Seeded(0));
        return;
      }
      if seed != this.seed || extSecret.Some? {
        InitCustomSecret(customSecret, seed);
      }
      ResetInternal(seed, None, SECRET_DEFAULT_SIZE, Some(Seeded(seed)));
      FreshBuffer(DerivedSecret(seed), acc[..], buffer[..]);
    }

    method ResetWithSecretAndSeed(secret: Option<seq<byte>>, secretSize: nat, seed: u64) returns (ok: bool)
      requires Valid()
      requires secret.Some? ==> secretSize == |secret.value| < TWO64
      modifies this, acc
      ensures Valid()
      ensures ok <==> secret.Some? && secretSize >= SECRET_SIZE_MIN
      ensures ok ==> Ready() && mode == Some(KeyedSeeded(secret.value, seed)) && data == []
      ensures !ok ==> unchanged(this) && unchanged(acc)
    {
      hide KSecret, InitAcc, DerivedSecret, Absorb;
      if secret.None? { return false; }
      if secretSize < SECRET_SIZE_MIN { return false; }
      ResetInternal(seed, secret, secretSize, Some(KeyedSeeded(secret.value, seed)));
      useSeed := true;
      FreshBuffer(secret.value, acc[..], buffer[..]);
      return true;
    }

    /** `XXH3_update`, for inputs of any length: append to the buffer if the input fits; otherwise complete
        and consume the buffer, take whole stripes straight from the input, and buffer the rest. */
    method Update(input: seq<byte>)
      requires Ready() && |input| < TWO64
      modifies this, acc, buffer
      ensures Ready() && mode == old(mode) && data == old(data) + input
    {
      hide Absorb, LongSecret, Buffered, Aligned, Overwrite, Configured, Keys, StripesPerBlock;
      ConfiguredFacts();
      BufferedFacts(data, stripes, LongSecret(mode.value), Progress(acc[..], nbStripesSoFar), buffer[..], bufferedSize);
      AddLength(|data|, |input|);
      totalLen := (totalLen + |input|) % TWO64;
      if |input| <= INTERNALBUFFER_SIZE - bufferedSize {
        Fill(input);
      } else {
        Consume(input);
      }
    }

    /** The input fits the buffer. */
    method Fill(input: seq<byte>)
      requires Configured() && bufferedSize + |input| <= INTERNALBUFFER_SIZE
      requires Buffered(data, stripes, LongSecret(mode.value), Progress(acc[..], nbStripesSoFar), buffer[..],
        bufferedSize)
      modifies this`bufferedSize, this`data, buffer
      ensures Configured() && data == old(data) + input
      ensures Buffered(data, stripes, LongSecret(mode.value), Progress(acc[..], nbStripesSoFar), buffer[..],
        bufferedSize)
    {
      hide Absorb, LongSecret, Buffered, Aligned, Overwrite, Configured, Keys, StripesPerBlock;
      ConfiguredFacts();
      ghost var lanes := acc[..];
      FillKeeps(data, stripes, LongSecret(mode.value), Progress(lanes, nbStripesSoFar), buffer[..], bufferedSize,
        input);
      Memcpy(buffer, bufferedSize, input);
      assert acc[..] == lanes;
      bufferedSize := bufferedSize + |input|;
      data := data + input;
    }

    /** The input does not fit the buffer: complete and consume it, take stripes, and buffer the rest. */
    method Consume(input: seq<byte>)
      requires Configured() && bufferedSize <= INTERNALBUFFER_SIZE < bufferedSize + |input|
      requires Buffered(data, stripes, LongSecret(mode.value), Progress(acc[..], nbStripesSoFar), buffer[..],
        bufferedSize)
      modifies this`bufferedSize, this`nbStripesSoFar, this`data, this`stripes, acc, buffer
      ensures Configured() && data == old(data) + input
      ensures Buffered(data, stripes, LongSecret(mode.value), Progress(acc[..], nbStripesSoFar), buffer[..],
        bufferedSize)
    {
      hide Absorb, LongSecret, Buffered, Aligned, Overwrite, Configured, Keys, StripesPerBlock;
      ConfiguredFacts();
      BufferedFacts(data, stripes, LongSecret(mode.value), Progress(acc[..], nbStripesSoFar), buffer[..], bufferedSize);
      ghost var was := data;
      var at := 0;
      if bufferedSize > 0 {
        at := CompleteBuffer(input);
      }
      if |input| - at > INTERNALBUFFER_SIZE {
        AppendSlice(was, input, at, at);
        ghost var from := at;
        at := TakeStripes(input, at);
        AppendSlice(was, input, from, at);
      }
      BufferRest(input, at);
      AppendSlice(was, input, at, |input|);
      assert input[..|input|] == input && input[at..|input|] == input[at..];
    }

    lemma ConfiguredFacts()
      requires Configured()
      ensures acc.Length == 8 && buffer.Length == INTERNALBUFFER_SIZE && customSecret.Length == SECRET_DEFAULT_SIZE
      ensures mode.Some? && SecretBytes() == LongSecret(mode.value)
      ensures nbStripesPerBlock == StripesPerBlock(LongSecret(mode.value))
      ensures secretLimit == |LongSecret(mode.value)| - STRIPE_LEN
    {
      hide LongSecret, StripesPerBlock, Keys;
    }

    /** Nothing is buffered and the bytes so far are all absorbed. */
    ghost predicate Drained()
      reads this, customSecret, acc, buffer
    {
      && Configured() && bufferedSize == 0
      && Aligned(data, stripes, LongSecret(mode.value), Progress(acc[..], nbStripesSoFar), buffer[..])
    }

    /** There is always some input left, and it fits the buffer. */
    method BufferRest(input: seq<byte>, at: nat)
      requires Drained() && at < |input| <= at + INTERNALBUFFER_SIZE < |data| + |input|
      modifies this`bufferedSize, this`data, buffer
      ensures Configured() && data == old(data) + input[at..]
      ensures Buffered(data, stripes, LongSecret(mode.value), Progress(acc[..], nbStripesSoFar), buffer[..],
        bufferedSize)
    {
      hide Absorb, LongSecret, Buffered, Aligned, Overwrite, Configured, Keys, StripesPerBlock;
      ConfiguredFacts();
      RestKeeps(data, stripes, LongSecret(mode.value), Progress(acc[..], nbStripesSoFar), buffer[..], input[at..]);
      ghost var lanes := acc[..];
      Memcpy(buffer, 0, input[at..]);
      assert acc[..] == lanes;
      bufferedSize := |input| - at;
      data := data + input[at..];
    }

    /** Fill the rest of the buffer from the input and consume all four of its stripes. */
    method CompleteBuffer(input: seq<byte>) returns (at: nat)
      requires Configured() && bufferedSize <= INTERNALBUFFER_SIZE < bufferedSize + |input|
      requires Buffered(data, stripes, LongSecret(mode.value), Progress(acc[..], nbStripesSoFar), buffer[..],
        bufferedSize)
      modifies this`bufferedSize, this`nbStripesSoFar, this`data, this`stripes, acc, buffer
      ensures Drained()
      ensures at == INTERNALBUFFER_SIZE - old(bufferedSize) && data == old(data) + input[..at]
      ensures |data| >= INTERNALBUFFER_SIZE
    {
      hide Absorb, LongSecret, Buffered, Aligned, Overwrite, Configured, Keys, StripesPerBlock;
      ConfiguredFacts();
      at := INTERNALBUFFER_SIZE - bufferedSize;
      FillKeeps(data, stripes, LongSecret(mode.value), Progress(acc[..], nbStripesSoFar), buffer[..], bufferedSize,
        input[..at]);
      Memcpy(buffer, bufferedSize, input[..at]);
      data := data + input[..at];
      BufferedFacts(data, stripes, LongSecret(mode.value), Progress(acc[..], nbStripesSoFar), buffer[..],
        INTERNALBUFFER_SIZE);
      DrainKeeps(data, stripes, LongSecret(mode.value), Progress(acc[..], nbStripesSoFar), buffer[..]);
      ghost var whole := buffer[..];
      var soFar, _ := ConsumeStripes(acc, nbStripesSoFar, nbStripesPerBlock, buffer[..], INTERNALBUFFER_STRIPES,
        SecretBytes(), secretLimit);
      assert buffer[..] == whole;
      nbStripesSoFar := soFar;
      stripes := stripes + 4;
      bufferedSize := 0;
    }

    /** Consume all whole stripes of the input but keep at least one byte, and remember the last stripe. */
    method TakeStripes(input: seq<byte>, from: nat) returns (at: nat)
      requires Drained() && from + INTERNALBUFFER_SIZE < |input|
      modifies this`nbStripesSoFar, this`data, this`stripes, acc, buffer
      ensures Drained()
      ensures from <= at < |input| <= at + INTERNALBUFFER_SIZE && data == old(data) + input[from..at]
    {
      hide Absorb, LongSecret, Buffered, Aligned, Overwrite, Configured, Keys, StripesPerBlock;
      ConfiguredFacts();
      var nbStripes := (|input| - 1 - from) / STRIPE_LEN;
      BulkKeeps(data, stripes, LongSecret(mode.value), Progress(acc[..], nbStripesSoFar), buffer[..], input[from..],
        nbStripes);
      ghost var tail := input[from..][64 * nbStripes - 64..64 * nbStripes];
      ghost var whole := buffer[..];
      var soFar, pos := ConsumeStripes(acc, nbStripesSoFar, nbStripesPerBlock, input[from..], nbStripes, SecretBytes(),
        secretLimit);
      assert buffer[..] == whole;
      nbStripesSoFar := soFar;
      at := from + pos;
      assert input[at - STRIPE_LEN..at] == tail;
      Memcpy(buffer, buffer.Length - STRIPE_LEN, input[at - STRIPE_LEN..at]);
      assert input[from..][..64 * nbStripes] == input[from..at];
      data := data + input[from..at];
      stripes := stripes + nbStripes;
    }

    /** `XXH3_digest_long`: finish on a copy of the accumulators, leaving the state as it was. */
    method DigestLong() returns (lanes: Lanes)
      requires Ready() && |data| > MIDSIZE_MAX
      ensures lanes == LongAcc(data, LongSecret(mode.value))
    {
      hide Absorb, LongSecret, Buffered, Configured, Keys, StripesPerBlock, InitAcc, Accumulate512;
      ConfiguredFacts();
      ghost var p := Progress(acc[..], nbStripesSoFar);
      BufferedFacts(data, stripes, LongSecret(mode.value), p, buffer[..], bufferedSize);
      LastStripe(data, stripes, LongSecret(mode.value), p, buffer[..], bufferedSize);
      DigestStripes(data, stripes, LongSecret(mode.value), p, buffer[..], bufferedSize);
      var secret: Secret := SecretBytes();
      var copy := new u64[8](i requires 0 <= i < 8 reads this, acc => if acc.Length == 8 then acc[i] else 0);
      assert copy[..] == acc[..];
      var lastStripe: Stripe;
      if bufferedSize >= STRIPE_LEN {
        var nbStripes := (bufferedSize - 1) / STRIPE_LEN;
        var _, _ := ConsumeStripes(copy, nbStripesSoFar, nbStripesPerBlock, buffer[..], nbStripes, secret, secretLimit);
        assert buffer[bufferedSize - STRIPE_LEN..bufferedSize] == buffer[..][bufferedSize - STRIPE_LEN..bufferedSize];
        lastStripe := buffer[bufferedSize - STRIPE_LEN..bufferedSize];
      } else {
        AbsorbNone(p, buffer[..], secret);
        var catchup := STRIPE_LEN - bufferedSize;
        assert buffer[buffer.Length - catchup..] == buffer[..][192 + bufferedSize..];
        assert buffer[..bufferedSize] == buffer[..][..bufferedSize];
        lastStripe := buffer[buffer.Length - catchup..] + buffer[..bufferedSize];
      }
      Accumulate512Scalar(copy, lastStripe, secret[secretLimit - LASTACC_START..secretLimit - LASTACC_START + 64]);
      lanes := copy[..];
    }

    /** What is buffered is all there is, while the input is short. */
    lemma ShortIsBuffered()
      requires Ready() && |data| <= MIDSIZE_MAX
      ensures buffer[..|data|] == data
    {
      hide Absorb, LongSecret, Configured, StripesPerBlock, InitAcc;
      assert buffer[..|data|] == buffer[..][..|data|];
    }

    lemma ShortKeys()
      requires Configured()
      ensures useSeed ==> ShortSeed(mode.value) == seed && ShortSecret(mode.value) == KSecret()
      ensures !useSeed ==>
        ShortSeed(mode.value) == 0 && ShortSecret(mode.value) == SecretBytes() == LongSecret(mode.value)
    {
      hide KSecret, DerivedSecret, StripesPerBlock;
    }

    method Digest64() returns (h: u64)
      requires Ready() && |data| < TWO64
      ensures h == OneShot64(mode.value, data)
    {
      hide Short64, HashLong64, LongSecret, ShortSecret, ShortSeed, Buffered, Configured, KSecret, FinalizeLong64,
        LongAcc, Keys, StripesPerBlock, DerivedSecret;
      ConfiguredFacts();
      if totalLen > MIDSIZE_MAX {
        var lanes := DigestLong();
        LongHash64(data, LongSecret(mode.value));
        return FinalizeLong64(lanes, SecretBytes(), Low64(totalLen));
      }
      ShortIsBuffered();
      ShortKeys();
      if useSeed {
        return Short64(buffer[..totalLen], KSecret(), seed);
      }
      return Short64(buffer[..totalLen], SecretBytes(), 0);
    }

    method Digest128() returns (h: Hash128)
      requires Ready() && |data| < TWO64
      ensures h == OneShot128(mode.value, data)
    {
      hide Short128, HashLong128, LongSecret, ShortSecret, ShortSeed, Buffered, Configured, KSecret, FinalizeLong128,
        LongAcc;
      ConfiguredFacts();
      if totalLen > MIDSIZE_MAX {
        var lanes := DigestLong();
        LongHash128(data, LongSecret(mode.value));
        return FinalizeLong128(lanes, SecretBytes(), Low64(totalLen));
      }
      ShortIsBuffered();
      ShortKeys();
      if useSeed {
        return Short128(buffer[..totalLen], KSecret(), seed);
      }
      return Short128(buffer[..totalLen], SecretBytes(), 0);
    }
  }

  lemma LongHash64(data: seq<byte>, secret: Secret)
    requires |data| > MIDSIZE_MAX
    ensures HashLong64(data, secret) == FinalizeLong64(LongAcc(data, secret), secret, Low64(|data|))
  {
    hide FinalizeLong64, LongAcc;
  }

  lemma LongHash128(data: seq<byte>, secret: Secret)
    requires |data| > MIDSIZE_MAX
    ensures HashLong128(data, secret) == FinalizeLong128(LongAcc(data, secret), secret, Low64(|data|))
  {
    hide FinalizeLong128, LongAcc;
  }

  lemma AddLength(a: nat, b: nat)
    ensures (a % TWO64 + b) % TWO64 == (a + b) % TWO64
  {
  }

  lemma BufferedFacts(data: seq<byte>, stripes: nat, secret: Secret, p: Progress, buffer: seq<byte>, size: nat)
    requires Buffered(data, stripes, secret, p, buffer, size)
    ensures |buffer| == INTERNALBUFFER_SIZE && size <= INTERNALBUFFER_SIZE
    ensures |data| == 64 * stripes + size
    ensures p.inBlock < StripesPerBlock(secret)
    ensures size == 0 ==> Aligned(data, stripes, secret, p, buffer)
  {
    hide InitAcc, StripesPerBlock;
  }

  /** Right after a reset nothing is fed and nothing is buffered. */
  lemma FreshBuffer(secret: Secret, acc: Lanes, buffer: seq<byte>)
    requires acc == InitAcc() && |buffer| == INTERNALBUFFER_SIZE
    ensures Buffered([], 0, secret, Progress(acc, 0), buffer, 0)
    ensures (|secret| + TWO64 - STRIPE_LEN) % TWO64 == |secret| - STRIPE_LEN || |secret| >= TWO64
  {
    hide InitAcc;
  }
}
