/** What the XML encoder guarantees about its output, for every byte string. */
module XmlLaws {
  import opened Options
  import opened XmlEncode

  type Bytes = seq<Byte>

  // ---- decoding ----

  predicate EntityText(e: Bytes) { e == LT_ENTITY || e == AMP_ENTITY || e == GT_ENTITY || e == QUOT_ENTITY }

  function EntityAt(t: Bytes): (r: Option<(Byte, nat)>)
    ensures r.Some? ==> 0 < r.value.1 <= |t|
  {
    if LT_ENTITY <= t then Some((LESS, 4))
    else if AMP_ENTITY <= t then Some((AMP, 5))
    else if GT_ENTITY <= t then Some((GREATER, 4))
    else if QUOT_ENTITY <= t then Some((QUOT, 6))
    else None
  }

  /** Replaces the four entities by what they stand for. */
  function Decoded(t: Bytes): Bytes {
    if t == [] then []
    else
      match EntityAt(t)
      case Some((c, n)) => [c] + Decoded(t[n..])
      case None => [t[0]] + Decoded(t[1..])
  }

  predicate Lacks(t: Bytes, c: Byte) { forall k | 0 <= k < |t| :: t[k] != c }

  lemma NoEntity(t: Bytes)
    requires t != [] && t[0] != AMP
    ensures EntityAt(t) == None
  {
  }

  lemma DecodedOne(c: Byte, rest: Bytes)
    requires c != AMP
    ensures Decoded([c] + rest) == [c] + Decoded(rest)
  {
    NoEntity([c] + rest);
    hide EntityAt;
    assert ([c] + rest)[1..] == rest;
  }

  lemma {:induction false} DecodedPlain(p: Bytes, rest: Bytes)
    requires Lacks(p, AMP)
    ensures Decoded(p + rest) == p + Decoded(rest)
  {
    hide Decoded;
    if p == [] {
      assert p + rest == rest;
    } else {
      DecodedPlain(p[1..], rest);
      DecodedOne(p[0], p[1..] + rest);
      assert p + rest == [p[0]] + (p[1..] + rest);
      assert p + Decoded(rest) == [p[0]] + (p[1..] + Decoded(rest));
    }
  }

  lemma DecodedEntity(e: Bytes, c: Byte, rest: Bytes)
    requires (e, c) in {(LT_ENTITY, LESS), (AMP_ENTITY, AMP), (GT_ENTITY, GREATER), (QUOT_ENTITY, QUOT)}
    ensures Decoded(e + rest) == [c] + Decoded(rest)
  {
    var t := e + rest;
    assert t[..|e|] == e && t[|e|..] == rest;
    assert t[1] == e[1];
  }

  lemma AcceptedBytes(u: Bytes)
    requires Accepted(u)
    ensures forall k | 0 <= k < |u| :: u[k] >= 0x80
  {
    hide Refused, Value;
  }

  /** Copied bytes: one ordinary byte, or a lead byte and continuations. */
  lemma CopiedBytes(s: Bytes, i: nat, target: Target)
    requires i < |s| && UnitAt(s, i, target).Copy?
    ensures var w := s[i..Next(s, i, target)];
            && w == Written(s, i, target) && Lacks(w, AMP) && Lacks(w, LESS)
            && (forall k | 0 <= k < |w| :: !IsControl(w[k]))
            && (|w| == 1 || forall k | 0 <= k < |w| :: w[k] >= 0x80)
  {
    hide Accepted;
    var w := s[i..Next(s, i, target)];
    if |w| == 1 {
      assert w == [s[i]];
    } else {
      AcceptedBytes(w);
    }
  }

  lemma HexBytes(c: Byte)
    ensures |HexEscape(c)| == 4
    ensures forall k | 0 <= k < 4 ::
      0x30 <= HexEscape(c)[k] < 0x7F && HexEscape(c)[k] !in {LESS, AMP, GREATER, BRACKET, QUOT}
  {
    HexDigitIs(c / 16);
    HexDigitIs(c % 16);
    hide HexDigit;
  }

  lemma HexDigitIs(d: nat)
    requires d < 16
    ensures 0x30 <= HexDigit(d) < 0x3A || 0x41 <= HexDigit(d) < 0x47
  {
  }

  /** What is legible of one unit. */
  function LegibleUnit(s: Bytes, i: nat, target: Target): Bytes
    requires i < |s|
  {
    if UnitAt(s, i, target).Hex? then HexEscape(s[i]) else s[i..Next(s, i, target)]
  }

  lemma DecodedUnit(s: Bytes, i: nat, target: Target, rest: Bytes)
    requires i < |s|
    ensures Decoded(Written(s, i, target) + rest) == LegibleUnit(s, i, target) + Decoded(rest)
  {
    hide Decoded, HexEscape, Accepted, IsControl;
    var j := Next(s, i, target);
    match UnitAt(s, i, target)
    case Copy(_) =>
      CopiedBytes(s, i, target);
      DecodedPlain(s[i..j], rest);
    case Entity(e) =>
      DecodedEntity(e, s[i], rest);
      assert s[i..j] == [s[i]];
    case Hex =>
      HexBytes(s[i]);
      DecodedPlain(HexEscape(s[i]), rest);
  }

  /** Decoding gives back the input, with only its control and rejected bytes in hex. */
  lemma {:induction false} DecodedEncoded(s: Bytes, i: nat, target: Target)
    requires i <= |s|
    ensures Decoded(Encoded(s, i, target)) == Legible(s, i, target)
    decreases |s| - i
  {
    if i < |s| {
      hide Decoded, HexEscape, UnitAt, Written;
      var j := Next(s, i, target);
      DecodedEncoded(s, j, target);
      DecodedUnit(s, i, target, Encoded(s, j, target));
    }
  }

  // ---- what the output never holds ----

  /** Every ampersand begins an entity, and there is no less-than sign and no control byte. */
  predicate Tame(t: Bytes) {
    forall k | 0 <= k < |t| :: t[k] != LESS && !IsControl(t[k]) && (t[k] == AMP ==> EntityAt(t[k..]).Some?)
  }

  lemma TameAppend(a: Bytes, b: Bytes)
    requires Tame(a) && Tame(b)
    ensures Tame(a + b)
  {
    var t := a + b;
    forall k | 0 <= k < |t| ensures t[k] != LESS && !IsControl(t[k]) && (t[k] == AMP ==> EntityAt(t[k..]).Some?) {
      if k < |a| {
        assert t[k..] == a[k..] + b;
        EntityKept(a[k..], b);
      } else {
        assert t[k..] == b[k - |a|..];
      }
    }
  }

  lemma EntityKept(a: Bytes, b: Bytes)
    ensures EntityAt(a).Some? ==> EntityAt(a + b).Some?
  {
    assert LT_ENTITY <= a ==> LT_ENTITY <= a + b;
    assert AMP_ENTITY <= a ==> AMP_ENTITY <= a + b;
    assert GT_ENTITY <= a ==> GT_ENTITY <= a + b;
    assert QUOT_ENTITY <= a ==> QUOT_ENTITY <= a + b;
  }

  lemma EntityTame(e: Bytes)
    requires EntityText(e)
    ensures Tame(e) && Lacks(e, GREATER) && Lacks(e, QUOT) && e[|e| - 1] != BRACKET
  {
    assert EntityAt(e).Some?;
    hide EntityAt;
    assert e[0..] == e;
    assert forall k | 0 < k < |e| :: e[k] != AMP && e[k] != LESS && !IsControl(e[k]);
  }

  lemma WrittenTame(s: Bytes, i: nat, target: Target)
    requires i < |s|
    ensures Tame(Written(s, i, target))
    ensures target == ForAttributes ==> Lacks(Written(s, i, target), QUOT)
  {
    hide Accepted, EntityAt, HexEscape;
    match UnitAt(s, i, target)
    case Copy(_) =>
      CopiedBytes(s, i, target);
    case Entity(e) =>
      EntityTame(e);
    case Hex =>
      HexBytes(s[i]);
  }

  /** In the output every raw ampersand begins an entity and no markup or control byte is left; attribute values hold no
      quote either. */
  lemma {:induction false} EncodedTame(s: Bytes, i: nat, target: Target)
    requires i <= |s|
    ensures Tame(Encoded(s, i, target))
    ensures target == ForAttributes ==> Lacks(Encoded(s, i, target), QUOT)
    decreases |s| - i
  {
    if i < |s| {
      hide Written, Tame;
      WrittenTame(s, i, target);
      EncodedTame(s, Next(s, i, target), target);
      TameAppend(Written(s, i, target), Encoded(s, Next(s, i, target), target));
    }
  }

  // ---- the end of a CDATA section ----

  /** How many closing brackets the text ends with. */
  function Trail(t: Bytes): nat {
    if t == [] || t[|t| - 1] != BRACKET then 0 else 1 + Trail(t[..|t| - 1])
  }

  /** The text holds two closing brackets and a greater-than sign in a row. */
  predicate HoldsEnd(t: Bytes) {
    t != [] && (HoldsEnd(t[..|t| - 1]) || (t[|t| - 1] == GREATER && Trail(t[..|t| - 1]) >= 2))
  }

  const CDATA_END: Bytes := [0x5D, 0x5D, 0x3E]

  predicate EndAt(t: Bytes, k: nat) { k + 3 <= |t| && t[k] == BRACKET && t[k + 1] == BRACKET && t[k + 2] == GREATER }

  lemma {:induction false} HoldsEndMeans(t: Bytes)
    ensures HoldsEnd(t) <==> exists k: nat :: EndAt(t, k)
  {
    if t != [] {
      var n := |t| - 1;
      var f := t[..n];
      HoldsEndMeans(f);
      TrailTwo(f);
      forall k: nat ensures EndAt(t, k) <==> EndAt(f, k) || (k + 2 == n && t[n] == GREATER && Trail(f) >= 2) {
        EndAtPush(f, t[n], k);
        assert f + [t[n]] == t;
      }
      if n >= 2 {
        assert EndAt(t, n - 2) <==> EndAt(f, n - 2) || (t[n] == GREATER && Trail(f) >= 2);
      }
    }
  }

  lemma EndAtPush(f: Bytes, c: Byte, k: nat)
    ensures EndAt(f + [c], k) <==> EndAt(f, k) || (k + 2 == |f| && c == GREATER && Trail(f) >= 2)
  {
    var t := f + [c];
    TrailTwo(f);
    hide Trail;
  }

  lemma TrailTwo(f: Bytes)
    ensures Trail(f) >= 2 <==> |f| >= 2 && f[|f| - 1] == BRACKET && f[|f| - 2] == BRACKET
  {
    if |f| >= 2 {
      var g := f[..|f| - 1];
      assert g[|g| - 1] == f[|f| - 2];
    }
  }

  lemma {:induction false} HoldsEndPlain(a: Bytes, p: Bytes)
    requires Lacks(p, GREATER)
    ensures HoldsEnd(a + p) == HoldsEnd(a)
  {
    if p == [] {
      assert a + p == a;
    } else {
      assert (a + p)[..|a + p| - 1] == a + p[..|p| - 1];
      HoldsEndPlain(a, p[..|p| - 1]);
    }
  }

  lemma TrailReset(a: Bytes, p: Bytes)
    requires p != [] && p[|p| - 1] != BRACKET
    ensures Trail(a + p) == 0
  {
  }

  lemma TrailPush(a: Bytes, c: Byte)
    ensures Trail(a + [c]) == if c == BRACKET then Trail(a) + 1 else 0
    ensures HoldsEnd(a + [c]) <==> HoldsEnd(a) || (c == GREATER && Trail(a) >= 2)
  {
    assert (a + [c])[..|a|] == a;
  }

  /** One unit: the trailing brackets of the output stay those of the input, and a raw end appears only when it is the
      first thing in the input. */
  lemma EndStep(s: Bytes, i: nat, target: Target, out: Bytes)
    requires i < |s| && Trail(out) == Trail(s[..i])
    ensures var j := Next(s, i, target); var w := Written(s, i, target);
            && Trail(out + w) == Trail(s[..j])
            && (HoldsEnd(out + w) <==> HoldsEnd(out) || (i == 2 && CDATA_END <= s))
  {
    var j := Next(s, i, target);
    var w := Written(s, i, target);
    hide HoldsEnd, Trail, Accepted, HexEscape;
    TrailTwo(s[..i]);
    assert s[..j] == s[..i] + s[i..j];
    match UnitAt(s, i, target)
    case Copy(n) =>
      CopiedBytes(s, i, target);
      if n == 1 {
        assert s[i..j] == [s[i]];
        TrailPush(out, s[i]);
        TrailPush(s[..i], s[i]);
        CdataFirst(s, i);
      } else {
        HoldsEndPlain(out, w);
        TrailReset(out, w);
        TrailReset(s[..i], w);
      }
    case Entity(e) =>
      EntityTame(e);
      assert s[i..j] == [s[i]];
      TrailPush(s[..i], s[i]);
      HoldsEndPlain(out, e);
      TrailReset(out, e);
    case Hex =>
      HexBytes(s[i]);
      assert s[i..j] == [s[i]];
      TrailPush(s[..i], s[i]);
      HoldsEndPlain(out, w);
      TrailReset(out, w);
  }

  lemma CdataFirst(s: Bytes, i: nat)
    requires i < |s|
    ensures i == 2 && CDATA_END <= s <==> i == 2 && s[0] == BRACKET && s[1] == BRACKET && s[2] == GREATER
  {
  }

  lemma LeadingEndUnits(s: Bytes, i: nat, target: Target)
    requires i < 2 && CDATA_END <= s
    ensures Next(s, i, target) == i + 1
  {
    assert s[0] == BRACKET && s[1] == BRACKET;
  }

  lemma {:induction false} EndFrom(s: Bytes, i: nat, target: Target, out: Bytes)
    requires i <= |s| && Trail(out) == Trail(s[..i]) && (HoldsEnd(out) <==> i > 2 && CDATA_END <= s)
    ensures HoldsEnd(out + Encoded(s, i, target)) <==> CDATA_END <= s
    decreases |s| - i
  {
    hide Written, Next, Trail, HoldsEnd;
    if i == |s| {
      assert out + [] == out;
    } else {
      var j, w := Next(s, i, target), Written(s, i, target);
      EndStep(s, i, target, out);
      if i < 2 && CDATA_END <= s {
        LeadingEndUnits(s, i, target);
      }
      EndFrom(s, j, target, out + w);
      assert out + (w + Encoded(s, j, target)) == out + w + Encoded(s, j, target);
    }
  }

  /** The output holds the end of a CDATA section exactly when the input begins with it. */
  lemma OnlyLeadingEnd(s: Bytes, target: Target)
    ensures (exists k: nat :: EndAt(Encoded(s, 0, target), k)) <==> CDATA_END <= s
  {
    assert s[..0] == [];
    EndFrom(s, 0, target, []);
    HoldsEndMeans(Encoded(s, 0, target));
    assert [] + Encoded(s, 0, target) == Encoded(s, 0, target);
  }

  // ---- which multi-byte sequences are copied ----

  /** The UTF-8 form of a value that needs more than one byte (section 3 of RFC 3629, surrogates included). */
  function Utf8(v: nat): Bytes
    requires 0x80 <= v < 0x110000
  {
    var w := v / 64;
    var x := w / 64;
    if v < 0x800 then [0xC0 + w, 0x80 + v % 64]
    else if v < 0x10000 then [0xE0 + x, 0x80 + w % 64, 0x80 + v % 64]
    else [0xF0 + x / 64, 0x80 + x % 64, 0x80 + w % 64, 0x80 + v % 64]
  }

  /** The one overlong form that passes: 0x800 in four bytes. */
  const OVERLONG: Bytes := [0xF0, 0x80, 0xA0, 0x80]

  lemma HeaderIs(a: Byte)
    requires IsLead(a)
    ensures HeaderValue(a) == a - if a < 0xE0 then 0xC0 else if a < 0xF0 then 0xE0 else 0xF0
  {
  }

  lemma PushDigit(x: nat, b: Byte)
    requires 0x80 <= b < 0xC0
    ensures b % 64 == b - 0x80 && (x * 64 + b % 64) / 64 == x && (x * 64 + b % 64) % 64 == b - 0x80
  {
  }

  lemma ValuePush(u: Bytes, b: Byte)
    requires u != [] && IsLead(u[0]) && 0x80 <= b < 0xC0
    ensures Value(u + [b]) / 64 == Value(u) && Value(u + [b]) % 64 == b - 0x80
    ensures Value(u + [b]) == Value(u) * 64 + (b - 0x80)
  {
    assert (u + [b])[..|u|] == u;
    PushDigit(Value(u), b);
  }

  lemma ValueOne(a: Byte)
    requires IsLead(a)
    ensures Value([a]) == a - if a < 0xE0 then 0xC0 else if a < 0xF0 then 0xE0 else 0xF0
  {
    HeaderIs(a);
  }

  lemma TwoBytes(a: Byte, b: Byte)
    requires 0xC0 <= a < 0xE0 && 0x80 <= b < 0xC0
    ensures var v := Value([a, b]); 0x80 <= v < 0x110000 && !Refused(v, 2) ==> Utf8(v) == [a, b]
  {
    hide Value;
    ValueOne(a);
    ValuePush([a], b);
    assert [a] + [b] == [a, b];
  }

  lemma ThreeBytes(a: Byte, b: Byte, c: Byte)
    requires 0xE0 <= a < 0xF0 && 0x80 <= b < 0xC0 && 0x80 <= c < 0xC0
    ensures var v := Value([a, b, c]); 0x80 <= v < 0x110000 && !Refused(v, 3) ==> Utf8(v) == [a, b, c]
  {
    hide Value;
    ValueOne(a);
    ValuePush([a], b);
    assert [a] + [b] == [a, b];
    ValuePush([a, b], c);
    assert [a, b] + [c] == [a, b, c];
  }

  lemma FourBytes(a: Byte, b: Byte, c: Byte, d: Byte)
    requires 0xF0 <= a < 0xF8 && 0x80 <= b < 0xC0 && 0x80 <= c < 0xC0 && 0x80 <= d < 0xC0
    ensures var v := Value([a, b, c, d]);
            !Refused(v, 4) ==>
              if v == 0x800 then [a, b, c, d] == OVERLONG
              else 0x10000 <= v < 0x110000 && Utf8(v) == [a, b, c, d]
  {
    hide Value;
    ValueOne(a);
    ValuePush([a], b);
    assert [a] + [b] == [a, b];
    ValuePush([a, b], c);
    assert [a, b] + [c] == [a, b, c];
    ValuePush([a, b, c], d);
    assert [a, b, c] + [d] == [a, b, c, d];
  }

  lemma Utf8Value(v: nat)
    requires 0x80 <= v < 0x110000
    ensures IsLead(Utf8(v)[0]) && Value(Utf8(v)) == v
  {
    hide Value;
    var w := v / 64;
    var x := w / 64;
    if v < 0x800 {
      ValueOne(0xC0 + w);
      ValuePush([0xC0 + w], 0x80 + v % 64);
      assert [0xC0 + w] + [0x80 + v % 64] == Utf8(v);
    } else if v < 0x10000 {
      ValueOne(0xE0 + x);
      ValuePush([0xE0 + x], 0x80 + w % 64);
      ValuePush([0xE0 + x] + [0x80 + w % 64], 0x80 + v % 64);
      assert [0xE0 + x] + [0x80 + w % 64] + [0x80 + v % 64] == Utf8(v);
    } else {
      ValueOne(0xF0 + x / 64);
      ValuePush([0xF0 + x / 64], 0x80 + x % 64);
      ValuePush([0xF0 + x / 64] + [0x80 + x % 64], 0x80 + w % 64);
      ValuePush([0xF0 + x / 64] + [0x80 + x % 64] + [0x80 + w % 64], 0x80 + v % 64);
      assert [0xF0 + x / 64] + [0x80 + x % 64] + [0x80 + w % 64] + [0x80 + v % 64] == Utf8(v);
    }
  }

  /** Every UTF-8 form is copied whole. */
  lemma Utf8Accepted(v: nat)
    requires 0x80 <= v < 0x110000
    ensures Accepted(Utf8(v))
  {
    hide Value;
    Utf8Value(v);
  }

  lemma OverlongAccepted()
    ensures Accepted(OVERLONG) && Value(OVERLONG) == 0x800
  {
    hide Value;
    ValueOne(0xF0);
    ValuePush([0xF0], 0x80);
    ValuePush([0xF0] + [0x80], 0xA0);
    ValuePush([0xF0] + [0x80] + [0xA0], 0x80);
    assert [0xF0] + [0x80] + [0xA0] + [0x80] == OVERLONG;
  }

  lemma AcceptedForm(u: Bytes)
    requires Accepted(u) && u != OVERLONG
    ensures 0x80 <= Value(u) < 0x110000 && u == Utf8(Value(u))
  {
    hide Value;
    if |u| == 2 {
      TwoBytes(u[0], u[1]);
      assert u == [u[0], u[1]];
    } else if |u| == 3 {
      ThreeBytes(u[0], u[1], u[2]);
      assert u == [u[0], u[1], u[2]];
    } else {
      FourBytes(u[0], u[1], u[2], u[3]);
      assert u == [u[0], u[1], u[2], u[3]];
    }
  }

  /** A multi-byte sequence is copied if and only if it is the UTF-8 form of a value or that one overlong form. */
  lemma AcceptedIsUtf8(u: Bytes)
    ensures Accepted(u) <==> u == OVERLONG || exists v: nat | 0x80 <= v < 0x110000 :: u == Utf8(v)
  {
    hide Value, Utf8;
    OverlongAccepted();
    if Accepted(u) && u != OVERLONG {
      AcceptedForm(u);
    }
    if v: nat :| 0x80 <= v < 0x110000 && u == Utf8(v) {
      Utf8Accepted(v);
    }
  }
}
