/** One test-spec parser reads several arguments: when each is read as if it were alone. */
module SpecArguments {
  import opened SpecParser
  import opened SpecParserState

  /** No text is left over from the arguments before. */
  predicate Clean(s: Scan) { s.substring == "" && s.patternName == "" }

  /** A parser that kept nothing but the filters. */
  function Begin(current: Filter, filters: seq<Filter>): Scan {
    Scan(NoMode, NoMode, false, 0, "", "", [], current, filters)
  }

  function Read(s: Scan, arg: string): Scan { Ended(VisitAll(Reset(s), arg).1) }

  /** The argument as a parser without leftovers reads it. */
  function Alone(arg: string, current: Filter, filters: seq<Filter>): Scan { Read(Begin(current, filters), arg) }

  predicate Accepts(arg: string) { VisitAll(Begin(NO_FILTER, []), arg).0 }

  /** The argument stops behind a backslash, or with text that begins no name, quote or tag. */
  predicate Loose(arg: string) {
    var r := VisitAll(Begin(NO_FILTER, []), arg);
    r.0 && (r.1.mode == EscapedName || (r.1.mode == NoMode && r.1.substring != ""))
  }

  // ---- what reading depends on ----

  /** Equal but for the filters; the last mode only matters inside an escape. */
  predicate Alike(s: Scan, t: Scan) {
    && s.mode == t.mode && s.exclusion == t.exclusion && s.realPatternPos == t.realPatternPos
    && s.substring == t.substring && s.patternName == t.patternName && s.escapeChars == t.escapeChars
    && (s.mode == EscapedName ==> s.lastMode == t.lastMode)
  }

  predicate SameFilters(s: Scan, t: Scan) { s.current == t.current && s.filters == t.filters }

  /** No escape within an escape, and a pattern is part of the text. */
  predicate Sane(s: Scan) {
    && s.lastMode != EscapedName
    && (s.patternName != "" ==> s.substring != "")
    && (s.mode == EscapedName ==> s.patternName != "")
  }

  /** One pair of steps keeps two states alike. */
  predicate StaysAlike(s: Scan, t: Scan, s': Scan, t': Scan) {
    Alike(s', t') && (SameFilters(s, t) ==> SameFilters(s', t'))
  }

  lemma TakeAlike(s: Scan, t: Scan)
    requires Alike(s, t)
    ensures TakeToken(s).0 == TakeToken(t).0 && StaysAlike(s, t, TakeToken(s).1, TakeToken(t).1)
  {
    hide Without;
  }

  lemma PatternAlike(s: Scan, t: Scan, p: Pattern)
    requires Alike(s, t)
    ensures StaysAlike(s, t, AddPattern(s, p), AddPattern(t, p))
  {
  }

  lemma SettleAlike(s: Scan, t: Scan)
    requires Alike(s, t)
    ensures StaysAlike(s, t, Settle(s), Settle(t))
  {
  }

  lemma NameAlike(s: Scan, t: Scan)
    requires Alike(s, t)
    ensures StaysAlike(s, t, AddName(s), AddName(t))
  {
    hide TakeToken, AddPattern, Settle;
    TakeAlike(s, t);
    var (token, s1) := TakeToken(s);
    var t1 := TakeToken(t).1;
    var p := NamePattern(token, s1.substring);
    PatternAlike(s1, t1, p);
    SettleAlike(s1, t1);
    SettleAlike(AddPattern(s1, p), AddPattern(t1, p));
  }

  lemma TagAlike(s: Scan, t: Scan)
    requires Alike(s, t)
    ensures StaysAlike(s, t, AddTag(s), AddTag(t))
  {
    hide TakeToken, AddPattern, Settle;
    TakeAlike(s, t);
    var (token, s1) := TakeToken(s);
    var t1 := TakeToken(t).1;
    SettleAlike(s1, t1);
    if |token| > 1 && token[0] == '.' {
      var p, q := TagPattern(".", s1.substring), TagPattern(token[1..], s1.substring);
      PatternAlike(s1, t1, p);
      PatternAlike(AddPattern(s1, p), AddPattern(t1, p), q);
      SettleAlike(AddPattern(AddPattern(s1, p), q), AddPattern(AddPattern(t1, p), q));
    } else {
      var p := TagPattern(token, s1.substring);
      PatternAlike(s1, t1, p);
      SettleAlike(AddPattern(s1, p), AddPattern(t1, p));
    }
  }

  lemma EndedAlike(s: Scan, t: Scan)
    requires Alike(s, t) && Sane(s)
    ensures StaysAlike(s, t, Ended(s), Ended(t))
  {
    NameAlike(s, t);
    TagAlike(s, t);
    hide AddName, AddTag;
  }

  lemma KeepAlike(s: Scan, t: Scan, c: char)
    requires Alike(s, t)
    ensures StaysAlike(s, t, Keep(s, c), Keep(t, c)) && StaysAlike(s, t, AddChar(s, c), AddChar(t, c))
  {
  }

  lemma StartAlike(s: Scan, t: Scan, c: char)
    requires Alike(s, t) && s.mode == NoMode
    ensures StaysAlike(s, t, StartFrom(s, c), StartFrom(t, c))
  {
  }

  lemma InNameAlike(s: Scan, t: Scan, c: char)
    requires Alike(s, t) && Sane(s)
    ensures StaysAlike(s, t, InName(s, c), InName(t, c))
  {
    EndedAlike(s, t);
    hide Ended;
  }

  lemma SeparatedAlike(s: Scan, t: Scan)
    requires Alike(s, t) && Sane(s)
    ensures Separated(s).0 == Separated(t).0 && StaysAlike(s, t, Separated(s).1, Separated(t).1)
  {
    EndedAlike(s, t);
    hide Ended;
  }

  lemma EscapeAlike(s: Scan, t: Scan, c: char)
    requires Alike(s, t) && s.mode != EscapedName && c == '\\'
    ensures StaysAlike(s, t, Visit(s, c).1, Visit(t, c).1)
  {
    hide Separated, StartFrom, InName, Keep, Ended;
  }

  lemma SettledSane(s: Scan)
    requires s.patternName == "" && s.lastMode != EscapedName
    ensures Sane(Settle(s))
  {
  }

  lemma TakeLeaves(s: Scan)
    ensures var t := TakeToken(s).1; t.patternName == "" && t.lastMode == s.lastMode
  {
    hide Without;
  }

  lemma PatternLeaves(s: Scan, p: Pattern)
    ensures var t := AddPattern(s, p); t.patternName == s.patternName && t.lastMode == s.lastMode
  {
  }

  lemma NameSane(s: Scan)
    requires Sane(s)
    ensures Sane(AddName(s)) && AddName(s).mode == NoMode
  {
    TakeLeaves(s);
    hide TakeToken, AddPattern;
    var (token, t) := TakeToken(s);
    SettledSane(t);
    PatternLeaves(t, NamePattern(token, t.substring));
    SettledSane(AddPattern(t, NamePattern(token, t.substring)));
  }

  lemma TagSane(s: Scan)
    requires Sane(s)
    ensures Sane(AddTag(s)) && AddTag(s).mode == NoMode
  {
    TakeLeaves(s);
    hide TakeToken, AddPattern;
    var (token, t) := TakeToken(s);
    SettledSane(t);
    if |token| > 1 && token[0] == '.' {
      var p, q := TagPattern(".", t.substring), TagPattern(token[1..], t.substring);
      PatternLeaves(t, p);
      PatternLeaves(AddPattern(t, p), q);
      SettledSane(AddPattern(AddPattern(t, p), q));
    } else {
      PatternLeaves(t, TagPattern(token, t.substring));
      SettledSane(AddPattern(t, TagPattern(token, t.substring)));
    }
  }

  lemma EndedSane(s: Scan)
    requires Sane(s)
    ensures Sane(Ended(s)) && Ended(s).mode != EscapedName
  {
    NameSane(s);
    TagSane(s);
    hide AddName, AddTag;
  }

  lemma KeepSane(s: Scan, c: char)
    requires Sane(s) && s.mode != EscapedName
    ensures Sane(Keep(s, c)) && Sane(AddChar(s, c))
  {
  }

  lemma SeparatedSane(s: Scan)
    requires Sane(s)
    ensures Sane(Separated(s).1)
  {
    EndedSane(s);
    hide Ended;
  }

  lemma InNameSane(s: Scan, c: char)
    requires Sane(s) && s.mode == Name
    ensures Sane(InName(s, c)) && InName(s, c).mode != EscapedName
  {
    EndedSane(s);
    hide Ended;
  }

  lemma StartSane(s: Scan, c: char)
    requires Sane(s) && s.mode == NoMode
    ensures Sane(StartFrom(s, c)) && StartFrom(s, c).mode != EscapedName
  {
  }

  lemma EscapeSane(s: Scan, c: char)
    requires Sane(s) && s.mode != EscapedName && c == '\\'
    ensures Sane(Visit(s, c).1)
  {
    hide Separated, StartFrom, InName, Keep, Ended;
  }

  lemma VisitSane(s: Scan, c: char)
    requires Sane(s)
    ensures Sane(Visit(s, c).1)
  {
    var longer := s.(substring := s.substring + [c]);
    assert Sane(longer);
    if s.mode != EscapedName && c == '\\' {
      EscapeSane(s, c);
    } else if s.mode != EscapedName && c == ',' {
      hide Separated;
      SeparatedSane(s);
    } else {
      EndedSane(s);
      hide Separated, StartFrom, InName, Keep, Ended, AddChar, Sane;
      match s.mode
      case NoMode =>
        StartSane(s, c);
        KeepSane(StartFrom(s, c), c);
      case Name =>
        InNameSane(s, c);
        KeepSane(InName(s, c), c);
      case EscapedName =>
        KeepSane(Ended(s), c);
      case _ =>
        KeepSane(s, c);
        EndedSane(longer);
    }
  }

  lemma VisitAlike(s: Scan, t: Scan, c: char)
    requires Alike(s, t) && Sane(s) && Sane(t)
    ensures Visit(s, c).0 == Visit(t, c).0 && StaysAlike(s, t, Visit(s, c).1, Visit(t, c).1)
  {
    var longerS, longerT := s.(substring := s.substring + [c]), t.(substring := t.substring + [c]);
    assert Alike(longerS, longerT) && Sane(longerS) && (SameFilters(s, t) ==> SameFilters(longerS, longerT));
    if s.mode != EscapedName && c == '\\' {
      EscapeAlike(s, t, c);
    } else if s.mode != EscapedName && c == ',' {
      hide Separated;
      SeparatedAlike(s, t);
    } else {
      EndedAlike(s, t);
      hide Separated, StartFrom, InName, Keep, Ended, AddChar, Sane, SameFilters;
      match s.mode
      case NoMode =>
        StartAlike(s, t, c);
        KeepAlike(StartFrom(s, c), StartFrom(t, c), c);
      case Name =>
        InNameAlike(s, t, c);
        KeepAlike(InName(s, c), InName(t, c), c);
      case EscapedName =>
        KeepAlike(Ended(s), Ended(t), c);
      case _ =>
        KeepAlike(s, t, c);
        EndedAlike(longerS, longerT);
    }
  }

  lemma {:induction false} VisitAllAlike(s: Scan, t: Scan, text: string)
    requires Alike(s, t) && Sane(s) && Sane(t)
    ensures var q, r := VisitAll(s, text), VisitAll(t, text);
            && q.0 == r.0 && Alike(q.1, r.1) && (SameFilters(s, t) ==> SameFilters(q.1, r.1))
            && Sane(q.1) && Sane(r.1)
  {
    hide Visit, Alike, SameFilters, Sane;
    if text != "" {
      var n := |text| - 1;
      VisitAllAlike(s, t, text[..n]);
      var q, r := VisitAll(s, text[..n]), VisitAll(t, text[..n]);
      if q.0 {
        VisitAlike(q.1, r.1, text[n]);
        VisitSane(q.1, text[n]);
        VisitSane(r.1, text[n]);
      }
    }
  }

  // ---- one argument after another ----

  /** Refusing an argument clears what was read of it. */
  lemma {:induction false} RefusedIsClean(s: Scan, text: string)
    requires !VisitAll(s, text).0
    ensures var r := VisitAll(s, text).1; Clean(r) && r.mode == NoMode
  {
    hide Ended;
    var n := |text| - 1;
    if !VisitAll(s, text[..n]).0 {
      RefusedIsClean(s, text[..n]);
    }
  }

  /** Nothing is left over if and only if the argument is not loose, whatever was read before. */
  lemma CleanAfter(s: Scan, arg: string)
    requires Clean(s) && Sane(s)
    ensures Clean(Read(s, arg)) <==> !Loose(arg)
    ensures Sane(Read(s, arg)) && (VisitAll(Reset(s), arg).0 <==> Accepts(arg))
  {
    hide VisitAll;
    var b := Begin(NO_FILTER, []);
    VisitAllAlike(Reset(s), b, arg);
    var q := VisitAll(Reset(s), arg);
    if !q.0 {
      RefusedIsClean(Reset(s), arg);
    }
    EndedSane(q.1);
    hide Without;
  }

  /** Without leftovers an argument is read as if it were alone. */
  lemma ReadsAlone(s: Scan, arg: string)
    requires Clean(s) && Sane(s)
    ensures SameFilters(Read(s, arg), Alone(arg, s.current, s.filters))
  {
    hide VisitAll, Ended;
    var b := Begin(s.current, s.filters);
    VisitAllAlike(Reset(s), Reset(b), arg);
    EndedAlike(VisitAll(Reset(s), arg).1, VisitAll(Reset(b), arg).1);
  }

  /** Two arguments that leave something over. */
  lemma LooseArguments()
    ensures Loose("\\") && Loose("~")
  {
    assert "\\"[..0] == "" && "~"[..0] == "";
  }

  const QUOTED_X := "\"x\""

  lemma ReadQuotedX(s: Scan)
    ensures var t := Reset(s);
            VisitAll(t, QUOTED_X) == (true, Ended(t.(mode := QuotedName, realPatternPos := 1,
                                      substring := s.substring + QUOTED_X, patternName := s.patternName + "x")))
  {
    var t := Reset(s);
    var t1 := t.(mode := QuotedName, substring := t.substring + "\"");
    var t2 := AddChar(t1, 'x');
    assert QUOTED_X[..2][..1][..0] == "";
    assert QUOTED_X[..2][..1] == "\"" && QUOTED_X[..2] == "\"x";
    hide Ended;
    assert VisitAll(t, "") == (true, t);
    assert VisitAll(t, "\"") == Visit(t, '\"') == (true, t1);
    assert VisitAll(t, "\"x") == Visit(t1, 'x') == (true, t2);
    assert t2.substring + ['\"'] == s.substring + QUOTED_X;
  }

  lemma QuotedXShows(s: Scan, t: Scan)
    requires SameFilters(s, t) && s.substring != "" && Clean(t)
    ensures Read(s, QUOTED_X).current != Read(t, QUOTED_X).current
  {
    hide VisitAll, AddName;
    ReadQuotedX(s);
    ReadQuotedX(t);
    var s1 := Reset(s).(mode := QuotedName, realPatternPos := 1, substring := s.substring + QUOTED_X,
                        patternName := s.patternName + "x");
    var t1 := Reset(t).(mode := QuotedName, realPatternPos := 1, substring := QUOTED_X, patternName := "x");
    assert "" + QUOTED_X == QUOTED_X && "" + "x" == "x";
    FiledName(s1);
    FiledName(t1);
    FiledX(t1);
    assert Ended(AddName(s1)) == AddName(s1) && Ended(AddName(t1)) == AddName(t1);
    assert |s1.substring| > |t1.substring|;
    assert AddName(t1).current.required[|t.current.required|].text == t1.substring;
  }

  /** A name is filed with the whole text, or not at all. */
  lemma FiledName(s: Scan)
    ensures AddName(s).mode == NoMode
    ensures var n, required := |s.current.required|, AddName(s).current.required;
            |required| == n || (|required| == n + 1 && required[n].text == s.substring)
  {
    hide Without;
  }

  lemma FiledX(s: Scan)
    requires s.patternName == "x" && s.escapeChars == [] && !s.exclusion
    ensures AddName(s).current == s.current.(required := s.current.required + [NamePattern("x", s.substring)])
  {
    WithoutNone("x");
    hide Without;
    assert |EXCLUDE| > |"x"|;
  }

  /** What a loose argument leaves over changes how a next argument is read, so the condition is exact. */
  lemma LooseShows(s: Scan, arg: string)
    requires Clean(s) && Sane(s) && Loose(arg)
    ensures var t := Read(s, arg); Read(t, QUOTED_X).current != Alone(QUOTED_X, t.current, t.filters).current
  {
    hide VisitAll, Ended;
    CleanAfter(s, arg);
    var t := Read(s, arg);
    QuotedXShows(t, Begin(t.current, t.filters));
  }

  /** Every argument on its own, one after the other. */
  function AllAlone(args: seq<(string, string)>): (Filter, seq<Filter>) {
    if args == [] then (NO_FILTER, [])
    else
      var (current, filters) := AllAlone(args[..|args| - 1]);
      var s := Alone(args[|args| - 1].1, current, filters);
      (s.current, s.filters)
  }

  function Invalid(args: seq<(string, string)>): seq<string> {
    if args == [] then []
    else
      var last := args[|args| - 1];
      Invalid(args[..|args| - 1]) + if Accepts(last.1) then [] else [last.0]
  }

  ghost predicate NoneLoose(args: seq<(string, string)>, n: nat)
    requires n <= |args|
  {
    forall k | 0 <= k < n :: !Loose(args[k].1)
  }

  /** All arguments of the command line, each with its aliases expanded: if none but the last is loose, the
      filters and the invalid arguments are those of reading every argument alone. */
  method ParseAll(args: seq<(string, string)>) returns (spec: TestSpec)
    ensures NoneLoose(args, if args == [] then 0 else |args| - 1) ==>
              spec == TestSpec(Filed(Begin(AllAlone(args).0, AllAlone(args).1)).filters, Invalid(args))
  {
    hide VisitAll, Ended, Loose, Accepts, Alone;
    var parser := new Parser();
    ghost var before := 0;
    for i := 0 to |args|
      invariant fresh(parser) && before == if i == 0 then 0 else i - 1
      invariant NoneLoose(args, before) ==>
                  && (parser.State().current, parser.State().filters) == AllAlone(args[..i])
                  && parser.testSpec.invalidSpecs == Invalid(args[..i])
      invariant NoneLoose(args, i) ==> Clean(parser.State()) && Sane(parser.State())
    {
      assert args[..i + 1][..i] == args[..i];
      if NoneLoose(args, i) {
        CleanAfter(parser.State(), args[i].1);
        ReadsAlone(parser.State(), args[i].1);
      }
      parser.Parse(args[i].0, args[i].1);
      before := i;
    }
    assert args[..|args|] == args;
    spec := parser.TakeTestSpec();
  }
}
