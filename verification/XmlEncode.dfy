/** Escaping bytes for XML: markup becomes entities, control and rejected bytes become hex, the rest is copied
    in runs. */
module XmlEncode {
  import opened Options

  type Byte = x: int | 0 <= x < 256

  datatype Target = ForTextNodes | ForAttributes

  const LESS: Byte := 0x3C
  const AMP: Byte := 0x26
  const GREATER: Byte := 0x3E
  const QUOT: Byte := 0x22
  const BRACKET: Byte := 0x5D

  const LT_ENTITY: seq<Byte> := [0x26, 0x6C, 0x74, 0x3B]
  const AMP_ENTITY: seq<Byte> := [0x26, 0x61, 0x6D, 0x70, 0x3B]
  const GT_ENTITY: seq<Byte> := [0x26, 0x67, 0x74, 0x3B]
  const QUOT_ENTITY: seq<Byte> := [0x26, 0x71, 0x75, 0x6F, 0x74, 0x3B]

  // ---- the units of the input ----

  predicate IsControl(c: Byte) { c < 0x09 || 0x0D < c < 0x20 || c == 0x7F }

  predicate IsLead(c: Byte) { 0xC0 <= c < 0xF8 }

  function TrailingBytes(c: Byte): (n: nat)
    requires IsLead(c)
    ensures 2 <= n <= 4
  {
    if c < 0xE0 then 2 else if c < 0xF0 then 3 else 4
  }

  function HeaderValue(c: Byte): nat
    requires IsLead(c)
  {
    if c < 0xE0 then c % 32 else if c < 0xF0 then c % 16 else c % 8
  }

  /** The value of a lead byte and the n - 1 bytes after it. */
  function Value(u: seq<Byte>): nat
    requires u != [] && IsLead(u[0])
  {
    if |u| == 1 then HeaderValue(u[0]) else Value(u[..|u| - 1]) * 64 + u[|u| - 1] % 64
  }

  predicate Continuations(u: seq<Byte>) { forall k | 1 <= k < |u| :: 0x80 <= u[k] < 0xC0 }

  /** The value is refused for the length it was written with. */
  predicate Refused(value: nat, length: nat) {
    || value < 0x80
    || (0x80 <= value < 0x800 && length > 2)
    || (0x800 < value < 0x10000 && length > 3)
    || value >= 0x110000
  }

  /** A multi-byte sequence that is copied. */
  predicate Accepted(u: seq<Byte>) {
    u != [] && IsLead(u[0]) && |u| == TrailingBytes(u[0]) && Continuations(u) && !Refused(Value(u), |u|)
  }

  datatype Unit = Copy(length: nat) | Entity(text: seq<Byte>) | Hex

  function UnitAt(s: seq<Byte>, i: nat, target: Target): (u: Unit)
    requires i < |s|
    ensures u.Copy? ==> 0 < u.length <= |s| - i
  {
    var c := s[i];
    if c == LESS then Entity(LT_ENTITY)
    else if c == AMP then Entity(AMP_ENTITY)
    else if c == GREATER then
      if i > 2 && s[i - 1] == BRACKET && s[i - 2] == BRACKET then Entity(GT_ENTITY) else Copy(1)
    else if c == QUOT then if target == ForAttributes then Entity(QUOT_ENTITY) else Copy(1)
    else if IsControl(c) then Hex
    else if c < 0x7F then Copy(1)
    else if !IsLead(c) then Hex
    else
      var n := TrailingBytes(c);
      if i + n <= |s| && Accepted(s[i..i + n]) then Copy(n) else Hex
  }

  function Length(u: Unit): nat { if u.Copy? then u.length else 1 }

  function HexDigit(d: nat): Byte
    requires d < 16
  {
    if d < 10 then 0x30 + d else 0x37 + d
  }

  /** `\x` and two upper-case digits. */
  function HexEscape(c: Byte): seq<Byte> { [0x5C, 0x78, HexDigit(c / 16), HexDigit(c % 16)] }

  function Written(s: seq<Byte>, i: nat, target: Target): seq<Byte>
    requires i < |s|
  {
    match UnitAt(s, i, target)
    case Copy(n) => s[i..i + n]
    case Entity(e) => e
    case Hex => HexEscape(s[i])
  }

  function Next(s: seq<Byte>, i: nat, target: Target): (j: nat)
    requires i < |s|
    ensures i < j <= |s|
  {
    i + Length(UnitAt(s, i, target))
  }

  /** Unit by unit: what is written for the input from i on. */
  function Encoded(s: seq<Byte>, i: nat, target: Target): seq<Byte>
    requires i <= |s|
    decreases |s| - i
  {
    if i == |s| then [] else Written(s, i, target) + Encoded(s, Next(s, i, target), target)
  }

  /** The input with nothing but its control and rejected bytes in hex. */
  function Legible(s: seq<Byte>, i: nat, target: Target): seq<Byte>
    requires i <= |s|
    decreases |s| - i
  {
    if i == |s| then []
    else
      (if UnitAt(s, i, target).Hex? then HexEscape(s[i]) else s[i..Next(s, i, target)])
      + Legible(s, Next(s, i, target), target)
  }

  // ---- as written: runs are copied when an escape interrupts them ----

  method WriteRun(os: seq<Byte>, s: seq<Byte>, lastStart: nat, idx: nat) returns (os': seq<Byte>, lastStart': nat)
    requires idx <= |s|
    ensures os' == os + (if lastStart < idx then s[lastStart..idx] else []) && lastStart' == idx + 1
  {
    os' := os;
    if lastStart < idx {
      os' := os' + s[lastStart..idx];
    }
    lastStart' := idx + 1;
  }

  /** The check of a multi-byte sequence, byte by byte. */
  method CheckSequence(s: seq<Byte>, idx: nat) returns (ok: bool, encBytes: nat)
    requires idx < |s| && IsLead(s[idx])
    ensures encBytes == TrailingBytes(s[idx])
    ensures ok <==> idx + encBytes <= |s| && Accepted(s[idx..idx + encBytes])
  {
    encBytes := TrailingBytes(s[idx]);
    if idx + encBytes - 1 >= |s| {
      return false, encBytes;
    }
    var valid := true;
    var value: nat := HeaderValue(s[idx]);
    assert s[idx..idx + 1] == [s[idx]];
    for n := 1 to encBytes
      invariant valid <==> Continuations(s[idx..idx + n])
      invariant value == Value(s[idx..idx + n])
    {
      var nc := s[idx + n];
      assert s[idx..idx + n + 1] == s[idx..idx + n] + [nc];
      assert s[idx..idx + n + 1][..n] == s[idx..idx + n];
      valid := valid && 0x80 <= nc < 0xC0;
      value := value * 64 + nc % 64;
    }
    ok := valid && !(|| value < 0x80
                     || (0x80 <= value < 0x800 && encBytes > 2)
                     || (0x800 < value < 0x10000 && encBytes > 3)
                     || value >= 0x110000);
  }

  /** What the switch decides for the byte at idx: an escape to write, or how many bytes to leave in the run. */
  method Classify(s: seq<Byte>, idx: nat, target: Target) returns (escape: Option<seq<Byte>>, length: nat)
    requires idx < |s|
    ensures match UnitAt(s, idx, target)
            case Copy(n) => escape == None && length == n
            case Entity(e) => escape == Some(e) && length == 1
            case Hex => escape == Some(HexEscape(s[idx])) && length == 1
  {
    hide Accepted, HexEscape;
    var c := s[idx];
    escape, length := None, 1;
    if c == LESS {
      escape := Some(LT_ENTITY);
    } else if c == AMP {
      escape := Some(AMP_ENTITY);
    } else if c == GREATER {
      if idx > 2 && s[idx - 1] == BRACKET && s[idx - 2] == BRACKET {
        escape := Some(GT_ENTITY);
      }
    } else if c == QUOT {
      if target == ForAttributes {
        escape := Some(QUOT_ENTITY);
      }
    } else if c < 0x09 || 0x0D < c < 0x20 || c == 0x7F {
      escape := Some(HexEscape(c));
    } else if c >= 0x7F {
      if c < 0xC0 || c >= 0xF8 {
        escape := Some(HexEscape(c));
      } else {
        var ok, encBytes := CheckSequence(s, idx);
        if ok {
          length := encBytes;
        } else {
          escape := Some(HexEscape(c));
        }
      }
    }
  }

  method EncodeTo(s: seq<Byte>, target: Target) returns (os: seq<Byte>)
    ensures os == Encoded(s, 0, target)
  {
    hide UnitAt, Encoded, HexEscape;
    os := [];
    var lastStart: nat := 0;
    var idx := 0;
    while idx < |s|
      invariant lastStart <= idx <= |s|
      invariant os + s[lastStart..idx] + Encoded(s, idx, target) == Encoded(s, 0, target)
    {
      var escape, length := Classify(s, idx, target);
      EncodedStep(s, idx, target, os, lastStart);
      if escape.Some? {
        os, lastStart := WriteRun(os, s, lastStart, idx);
        os := os + escape.value;
      }
      idx := idx + length;
    }
    EncodedEnd(s, target);
    os, lastStart := WriteRun(os, s, lastStart, |s|);
  }

  lemma EncodedEnd(s: seq<Byte>, target: Target)
    ensures Encoded(s, |s|, target) == []
  {
  }

  lemma UnfoldEncoded(s: seq<Byte>, i: nat, target: Target)
    requires i < |s|
    ensures Encoded(s, i, target) == Written(s, i, target) + Encoded(s, Next(s, i, target), target)
  {
    hide UnitAt, Written;
  }

  lemma WrittenIs(s: seq<Byte>, i: nat, target: Target)
    requires i < |s|
    ensures var u, w := UnitAt(s, i, target), Written(s, i, target);
            && (u.Copy? ==> w == s[i..Next(s, i, target)])
            && (u.Entity? ==> w == u.text) && (u.Hex? ==> w == HexEscape(s[i]))
  {
    hide UnitAt, HexEscape;
  }

  /** A copied unit extends the run. */
  lemma RunGrows(s: seq<Byte>, os: seq<Byte>, start: nat, i: nat, j: nat, rest: seq<Byte>)
    requires start <= i <= j <= |s|
    ensures os + s[start..j] + rest == os + s[start..i] + (s[i..j] + rest)
  {
    assert s[start..j] == s[start..i] + s[i..j];
    Regroup(os, s[start..i], s[i..j], rest);
  }

  /** An escape ends it. */
  lemma RunEnds(s: seq<Byte>, os: seq<Byte>, run: seq<Byte>, w: seq<Byte>, j: nat, rest: seq<Byte>)
    requires j <= |s|
    ensures os + run + w + s[j..j] + rest == os + run + (w + rest)
  {
    assert s[j..j] == [];
    Regroup(os, run, w, rest);
  }

  /** One unit more: an escape ends the run, anything else extends it. */
  lemma EncodedStep(s: seq<Byte>, i: nat, target: Target, os: seq<Byte>, start: nat)
    requires start <= i < |s|
    ensures var u, j, all := UnitAt(s, i, target), Next(s, i, target), os + s[start..i] + Encoded(s, i, target);
            && (u.Copy? ==> os + s[start..j] + Encoded(s, j, target) == all)
            && (u.Entity? ==> os + s[start..i] + u.text + s[j..j] + Encoded(s, j, target) == all)
            && (u.Hex? ==> os + s[start..i] + HexEscape(s[i]) + s[j..j] + Encoded(s, j, target) == all)
  {
    UnfoldEncoded(s, i, target);
    WrittenIs(s, i, target);
    hide Encoded, UnitAt, HexEscape, Written, Next;
    var u, j, rest := UnitAt(s, i, target), Next(s, i, target), Encoded(s, Next(s, i, target), target);
    if u.Copy? {
      RunGrows(s, os, start, i, j, rest);
    } else {
      RunEnds(s, os, s[start..i], Written(s, i, target), j, rest);
    }
  }

  lemma Regroup(a: seq<Byte>, b: seq<Byte>, c: seq<Byte>, d: seq<Byte>)
    ensures a + b + (c + d) == a + b + c + d && a + (b + c) + d == a + b + c + d
    ensures a + b + c + [] + d == a + b + c + d
  {
  }
}
