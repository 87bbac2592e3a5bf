/** Whole sessions on one XXH3 state: any interleaving of resets, updates and digests. */
module Xxh3Session {
  import opened Options
  import opened Words
  import opened Mult128
  import opened Xxh3Long
  import opened Xxh3Hash
  import opened Xxh3Oneshot
  import opened Xxh3Stream
  import opened Xxh3State

  datatype Op =
    | Reset
    | ResetSeed(seed: u64)
    | ResetSecret(secret: Option<seq<byte>>, size: nat)
    | ResetSecretSeed(secret: Option<seq<byte>>, size: nat, seed: u64)
    | Feed(bytes: seq<byte>)
    | Digest64
    | Digest128

  datatype Out = Out64(h64: u64) | Out128(h128: Hash128)

  /** All a caller needs to know: how the hash is keyed, and the bytes fed since. */
  datatype Abstract = Abstract(mode: Option<Mode>, fed: seq<byte>)

  function Good(secret: Option<seq<byte>>, size: nat): bool { secret.Some? && size >= SECRET_SIZE_MIN }

  /** What the documentation asks of the caller. */
  predicate Legal(a: Abstract, op: Op) {
    match op
    case ResetSecret(secret, size) => secret.Some? ==> size == |secret.value| < TWO64
    case ResetSecretSeed(secret, size, _) => secret.Some? ==> size == |secret.value| < TWO64
    case Feed(bytes) => a.mode.Some? && |bytes| < TWO64
    case Digest64 => a.mode.Some? && |a.fed| < TWO64
    case Digest128 => a.mode.Some? && |a.fed| < TWO64
    case _ => true
  }

  function Next(a: Abstract, op: Op): Abstract
    requires Legal(a, op)
  {
    match op
    case Reset => Abstract(Some(Default), [])
    case ResetSeed(seed) => Abstract(Some(Seeded(seed)), [])
    case ResetSecret(secret, size) =>
      if Good(secret, size) then Abstract(Some(Keyed(secret.value)), []) else Abstract(None, [])
    case ResetSecretSeed(secret, size, seed) =>
      if Good(secret, size) then Abstract(Some(KeyedSeeded(secret.value, seed)), []) else a
    case Feed(bytes) => Abstract(a.mode, a.fed + bytes)
    case Digest64 => a
    case Digest128 => a
  }

  /** Digests, and only they, produce something: the one-shot hash of everything fed. */
  function Answer(a: Abstract, op: Op): seq<Out>
    requires Legal(a, op)
  {
    match op
    case Digest64 => [Out64(OneShot64(a.mode.value, a.fed))]
    case Digest128 => [Out128(OneShot128(a.mode.value, a.fed))]
    case _ => []
  }

  predicate LegalRun(a: Abstract, ops: seq<Op>)
    decreases |ops|
  {
    ops == [] || (Legal(a, ops[0]) && LegalRun(Next(a, ops[0]), ops[1..]))
  }

  function Answers(a: Abstract, ops: seq<Op>): seq<Out>
    requires LegalRun(a, ops)
    decreases |ops|
  {
    if ops == [] then [] else Answer(a, ops[0]) + Answers(Next(a, ops[0]), ops[1..])
  }

  /** The object is in the abstract state `a`. */
  ghost predicate Represents(s: State, a: Abstract)
    reads s, s.acc, s.buffer, s.customSecret
  {
    && s.mode == a.mode
    && (if a.mode.Some? then s.Ready() && s.data == a.fed else s.Valid())
  }

  lemma RepresentsValid(s: State, a: Abstract)
    requires Represents(s, a)
    ensures s.Valid()
  {
    hide State.Valid, State.Keys, LongSecret, Buffered, StripesPerBlock;
  }

  method StepReset(s: State, op: Op, ghost a: Abstract)
    requires Represents(s, a) && Legal(a, op)
    requires op.Reset? || op.ResetSeed? || op.ResetSecret? || op.ResetSecretSeed?
    modifies s, s.acc, s.customSecret
    ensures Represents(s, Next(a, op))
  {
    hide State.Ready, State.Valid;
    RepresentsValid(s, a);
    match op {
      case Reset => s.Reset();
      case ResetSeed(seed) => s.ResetWithSeed(seed);
      case ResetSecret(secret, size) => var _ := s.ResetWithSecret(secret, size);
      case ResetSecretSeed(secret, size, seed) => var _ := s.ResetWithSecretAndSeed(secret, size, seed);
    }
  }

  method Step(s: State, op: Op, ghost a: Abstract) returns (out: seq<Out>)
    requires Represents(s, a) && Legal(a, op)
    modifies s, s.acc, s.buffer, s.customSecret
    ensures Represents(s, Next(a, op))
    ensures out == Answer(a, op)
  {
    hide State.Ready, State.Valid, OneShot64, OneShot128;
    out := [];
    match op {
      case Feed(bytes) => s.Update(bytes);
      case Digest64 => var h := s.Digest64(); out := [Out64(h)];
      case Digest128 => var h := s.Digest128(); out := [Out128(h)];
      case _ => StepReset(s, op, a);
    }
  }

  lemma AnswersStep(a: Abstract, ops: seq<Op>, outs: seq<Out>)
    requires ops != [] && LegalRun(a, ops)
    ensures Legal(a, ops[0]) && LegalRun(Next(a, ops[0]), ops[1..])
    ensures outs + Answers(a, ops) == outs + Answer(a, ops[0]) + Answers(Next(a, ops[0]), ops[1..])
  {
    hide Answer, Next, Legal;
  }

  lemma AnswersEnd(a: Abstract, outs: seq<Out>)
    ensures LegalRun(a, []) && outs + Answers(a, []) == outs
  {
  }

  /** From a freshly created state, whatever the caller does, the digests are exactly the one-shot hashes. */
  method Run(ops: seq<Op>) returns (outs: seq<Out>)
    requires LegalRun(Abstract(None, []), ops)
    ensures outs == Answers(Abstract(None, []), ops)
  {
    hide Represents, Answer, Next, Legal, LegalRun, Answers;
    var s := new State();
    ghost var a := Abstract(None, []);
    Created(s);
    outs := [];
    var i := 0;
    while i < |ops|
      invariant 0 <= i <= |ops|
      invariant fresh(s) && fresh(s.acc) && fresh(s.buffer) && fresh(s.customSecret)
      invariant Represents(s, a) && LegalRun(a, ops[i..])
      invariant outs + Answers(a, ops[i..]) == Answers(Abstract(None, []), ops)
    {
      AnswersStep(a, ops[i..], outs);
      var out := Step(s, ops[i], a);
      outs := outs + out;
      a := Next(a, ops[i]);
      assert ops[i..][1..] == ops[i + 1..];
      i := i + 1;
    }
    assert ops[i..] == [];
    AnswersEnd(a, outs);
  }

  lemma Created(s: State)
    requires s.Valid() && s.mode.None?
    ensures Represents(s, Abstract(None, []))
  {
  }
}
