/** The test-spec parser: a five-mode character machine that collects filters of name and tag patterns. */
module SpecParser {
  datatype Mode = NoMode | Name | QuotedName | Tag | EscapedName

  /** A pattern keeps the token it matches and the text it was written as. */
  datatype Pattern = NamePattern(token: string, text: string) | TagPattern(token: string, text: string)

  datatype Filter = Filter(required: seq<Pattern>, forbidden: seq<Pattern>)

  datatype TestSpec = TestSpec(filters: seq<Filter>, invalidSpecs: seq<string>)

  const NO_FILTER := Filter([], [])
  const EXCLUDE := "exclude:"

  /** The fields that visiting a character may change. */
  datatype Scan = Scan(mode: Mode, lastMode: Mode, exclusion: bool, realPatternPos: nat, substring: string,
                       patternName: string, escapeChars: seq<nat>, current: Filter, filters: seq<Filter>)

  // ---- what each step means ----

  predicate IsControl(mode: Mode, c: char) {
    match mode
    case NoMode => c == '~'
    case Name => c == '['
    case EscapedName => true
    case QuotedName => c == '\"'
    case Tag => c == '[' || c == ']'
  }

  function AddChar(s: Scan, c: char): Scan {
    s.(substring := s.substring + [c], patternName := s.patternName + [c], realPatternPos := s.realPatternPos + 1)
  }

  /** The characters of p at the positions that es does not list. */
  function Without(p: string, es: seq<nat>): string {
    if p == "" then ""
    else Without(p[..|p| - 1], es) + if |p| - 1 in es then "" else [p[|p| - 1]]
  }

  function AddPattern(s: Scan, p: Pattern): Scan {
    if s.exclusion then s.(current := s.current.(forbidden := s.current.forbidden + [p]))
    else s.(current := s.current.(required := s.current.required + [p]))
  }

  /** The token of the pattern read so far, and the state after it is taken. */
  function TakeToken(s: Scan): (string, Scan) {
    var token := Without(s.patternName, s.escapeChars);
    var t := s.(escapeChars := [], patternName := "", realPatternPos := 0);
    if EXCLUDE <= token then (token[|EXCLUDE|..], t.(exclusion := true)) else (token, t)
  }

  function Settle(s: Scan): Scan { s.(substring := "", exclusion := false, mode := NoMode) }

  function AddName(s: Scan): Scan {
    var (token, t) := TakeToken(s);
    Settle(if token == "" then t else AddPattern(t, NamePattern(token, t.substring)))
  }

  /** A hidden tag `.foo` stands for the two tags `.` and `foo`. */
  function AddTag(s: Scan): Scan {
    var (token, t) := TakeToken(s);
    Settle(if token == "" then t
           else if |token| > 1 && token[0] == '.' then
             AddPattern(AddPattern(t, TagPattern(".", t.substring)), TagPattern(token[1..], t.substring))
           else AddPattern(t, TagPattern(token, t.substring)))
  }

  function Ended(s: Scan): Scan {
    match s.mode
    case Name => AddName(s)
    case QuotedName => AddName(s)
    case Tag => AddTag(s)
    case EscapedName => s.(mode := s.lastMode)
    case NoMode => s
  }

  function Filed(s: Scan): Scan {
    if s.current == NO_FILTER then s else s.(filters := s.filters + [s.current], current := NO_FILTER)
  }

  function Separated(s: Scan): (bool, Scan) {
    if s.mode == QuotedName || s.mode == Tag then
      (false, s.(mode := NoMode, substring := "", patternName := "", realPatternPos := 0))
    else (true, Filed(Ended(s)))
  }

  /** The character goes to the text and, unless it steers the mode, to the pattern. */
  function Keep(s: Scan, c: char): Scan {
    if IsControl(s.mode, c) then s.(substring := s.substring + [c]) else AddChar(s, c)
  }

  function StartFrom(s: Scan, c: char): Scan {
    if c == '~' then s.(exclusion := true)
    else s.(mode := if c == '[' then Tag else if c == '\"' then QuotedName else Name)
  }

  function InName(s: Scan, c: char): Scan {
    if c != '[' then s
    else if s.substring == EXCLUDE then s.(exclusion := true, mode := Tag)
    else Ended(s).(mode := Tag)
  }

  /** One character: whether the spec is still acceptable, and the next state. */
  function Visit(s: Scan, c: char): (bool, Scan) {
    if s.mode != EscapedName && c == '\\' then
      (true, AddChar(s.(lastMode := s.mode, mode := EscapedName, escapeChars := s.escapeChars + [s.realPatternPos]), c))
    else if s.mode != EscapedName && c == ',' then Separated(s)
    else
      match s.mode
      case NoMode => (true, if c == ' ' then s else Keep(StartFrom(s, c), c))
      case Name => (true, Keep(InName(s, c), c))
      case EscapedName => (true, AddChar(Ended(s), c))
      case _ => (true, if IsControl(s.mode, c) then Ended(s.(substring := s.substring + [c])) else Keep(s, c))
  }

  /** The characters in order; nothing is visited after a character that was refused. */
  function VisitAll(s: Scan, text: string): (bool, Scan) {
    if text == "" then (true, s)
    else
      var r := VisitAll(s, text[..|text| - 1]);
      if r.0 then Visit(r.1, text[|text| - 1]) else r
  }

  function Reset(s: Scan): Scan { s.(mode := NoMode, exclusion := false, escapeChars := [], realPatternPos := 0) }

  lemma VisitedNone(s: Scan, text: string)
    ensures VisitAll(s, text[..0]) == (true, s)
  {
  }

  lemma VisitedNext(s: Scan, text: string, n: nat)
    requires n < |text| && VisitAll(s, text[..n]).0
    ensures VisitAll(s, text[..n + 1]) == Visit(VisitAll(s, text[..n]).1, text[n])
  {
    assert text[..n + 1][..n] == text[..n];
  }

  lemma {:induction false} Refused(s: Scan, text: string, n: nat)
    requires n <= |text| && !VisitAll(s, text[..n]).0
    ensures VisitAll(s, text) == VisitAll(s, text[..n])
  {
    if n == |text| {
      assert text[..n] == text;
    } else {
      var shorter := text[..|text| - 1];
      assert shorter[..n] == text[..n];
      Refused(s, shorter, n);
    }
  }

  // ---- the escape bookkeeping ----

  predicate Increasing(es: seq<nat>) { forall i, j | 0 <= i < j < |es| :: es[i] < es[j] }

  /** Escapes are recorded in order and lie in the pattern. */
  predicate Tidy(s: Scan) {
    && s.realPatternPos <= |s.patternName|
    && Increasing(s.escapeChars)
    && forall i | 0 <= i < |s.escapeChars| :: s.escapeChars[i] < s.realPatternPos
  }

  lemma AddCharTidy(s: Scan, c: char)
    requires Tidy(s)
    ensures Tidy(AddChar(s, c))
  {
  }

  lemma EscapeTidy(s: Scan, c: char)
    requires Tidy(s)
    ensures Tidy(AddChar(s.(escapeChars := s.escapeChars + [s.realPatternPos]), c))
  {
  }

  lemma EndedTidy(s: Scan)
    requires Tidy(s)
    ensures Tidy(Ended(s))
  {
    hide Without;
  }

  lemma VisitTidy(s: Scan, c: char)
    requires Tidy(s)
    ensures Visit(s, c).0 ==> Tidy(Visit(s, c).1)
  {
    EndedTidy(s);
    hide Ended, Increasing;
    if s.mode != EscapedName && c == '\\' {
      EscapeTidy(s, c);
    } else if s.mode != EscapedName && c == ',' {
    } else {
      hide AddChar;
      match s.mode
      case NoMode =>
        AddCharTidy(StartFrom(s, c), c);
      case Name =>
        AddCharTidy(InName(s, c), c);
      case EscapedName =>
        AddCharTidy(Ended(s), c);
      case _ =>
        AddCharTidy(s, c);
        EndedTidy(s.(substring := s.substring + [c]));
    }
  }

  lemma {:induction false} WithoutTail(p: string, es: seq<nat>, k: nat)
    requires k <= |p| && forall e | e in es :: e < k
    ensures Without(p, es) == Without(p[..k], es) + p[k..]
  {
    if k == |p| {
      assert p[..k] == p;
    } else {
      var q := p[..|p| - 1];
      assert q[..k] == p[..k] && q[k..] + [p[|p| - 1]] == p[k..];
      WithoutTail(q, es, k);
    }
  }

  lemma {:induction false} WithoutBeyond(p: string, es: seq<nat>, k: nat)
    requires |p| <= k
    ensures Without(p, es + [k]) == Without(p, es)
  {
    if p != "" {
      WithoutBeyond(p[..|p| - 1], es, k);
    }
  }

  /** Dropping one more character: position k of the text is position k - |es| of what is left. */
  lemma {:induction false} WithoutNext(p: string, es: seq<nat>, k: nat)
    requires k < |p| && Increasing(es) && (forall e | e in es :: e < k)
    ensures |Without(p[..k], es)| == k - |es|
    ensures Without(p, es + [k]) == Without(p[..k], es) + p[k + 1..]
  {
    WithoutLength(p[..k], es);
    WithoutBeyond(p[..k], es, k);
    WithoutTail(p, es + [k], k + 1);
    assert p[..k + 1][..k] == p[..k];
  }

  /** One shifting delete. */
  lemma WithoutStep(p: string, es: seq<nat>, i: nat)
    requires i < |es| && Increasing(es) && es[i] < |p|
    ensures var token := Without(p, es[..i]);
            i <= es[i] && es[i] - i < |token| && Without(p, es[..i + 1]) == token[..es[i] - i] + token[es[i] - i + 1..]
  {
    hide Without;
    var before, e := es[..i], es[i];
    assert forall k | k in before :: k < e;
    WithoutTail(p, before, e);
    WithoutNext(p, before, e);
    assert es[..i + 1] == before + [e];
    Cut(Without(p[..e], before), p[e..]);
    assert p[e..][1..] == p[e + 1..];
  }

  lemma Cut(a: string, b: string)
    requires b != ""
    ensures (a + b)[..|a|] + (a + b)[|a| + 1..] == a + b[1..]
  {
  }

  lemma {:induction false} WithoutLength(p: string, es: seq<nat>)
    requires Increasing(es) && forall e | e in es :: e < |p|
    ensures |Without(p, es)| == |p| - |es|
  {
    if es == [] {
      WithoutNone(p);
    } else {
      var last := |es| - 1;
      assert es[last] in es;
      WithoutTail(p, es, es[last] + 1);
      WithoutLength(p[..es[last]], es[..last]);
      WithoutBeyond(p[..es[last]], es[..last], es[last]);
      assert es == es[..last] + [es[last]];
      assert p[..es[last] + 1][..es[last]] == p[..es[last]];
    }
  }

  lemma {:induction false} WithoutNone(p: string)
    ensures Without(p, []) == p
  {
    if p != "" {
      WithoutNone(p[..|p| - 1]);
    }
  }
}
