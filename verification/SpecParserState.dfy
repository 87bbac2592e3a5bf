/** The test-spec parser as an object whose fields each character updates. */
module SpecParserState {
  import opened SpecParser

  class Parser {
    var mode: Mode
    var lastMode: Mode
    var exclusion: bool
    var pos: nat
    var realPatternPos: nat
    var arg: string
    var substring: string
    var patternName: string
    var escapeChars: seq<nat>
    var currentFilter: Filter
    var testSpec: TestSpec

    function State(): Scan
      reads this
    {
      Scan(mode, lastMode, exclusion, realPatternPos, substring, patternName, escapeChars, currentFilter,
        testSpec.filters)
    }

    constructor ()
      ensures State() == Scan(NoMode, NoMode, false, 0, "", "", [], NO_FILTER, []) && testSpec.invalidSpecs == []
    {
      mode, lastMode, exclusion, pos, realPatternPos := NoMode, NoMode, false, 0, 0;
      arg, substring, patternName, escapeChars := "", "", "", [];
      currentFilter, testSpec := NO_FILTER, TestSpec([], []);
    }

    /** `expanded` is what the alias registry makes of `text`. */
    method Parse(text: string, expanded: string)
      modifies this
      ensures var r := VisitAll(Reset(old(State())), expanded);
              && State() == Ended(r.1)
              && testSpec.invalidSpecs == old(testSpec.invalidSpecs) + if r.0 then [] else [text]
    {
      hide VisitAll, Visit, Ended;
      mode, exclusion, arg, escapeChars, realPatternPos := NoMode, false, expanded, [], 0;
      ghost var start := State();
      pos := 0;
      VisitedNone(start, expanded);
      while pos < |arg|
        invariant pos <= |arg| && arg == expanded && Tidy(State())
        invariant VisitAll(start, expanded[..pos]) == (true, State())
        invariant testSpec.invalidSpecs == old(testSpec.invalidSpecs)
        decreases |arg| - pos
      {
        VisitedNext(start, expanded, pos);
        VisitTidy(State(), arg[pos]);
        ghost var at := pos;
        var ok := VisitChar(arg[pos]);
        if !ok {
          testSpec := testSpec.(invalidSpecs := testSpec.invalidSpecs + [text]);
          Refused(start, expanded, at + 1);
          EndMode();
          return;
        }
        pos := pos + 1;
      }
      assert expanded[..pos] == expanded;
      EndMode();
    }

    /** Hands over the filters read so far, the one being read included. */
    method TakeTestSpec() returns (spec: TestSpec)
      modifies this
      ensures spec == TestSpec(Filed(old(State())).filters, old(testSpec.invalidSpecs))
    {
      AddFilter();
      spec := testSpec;
    }

    method VisitChar(c: char) returns (ok: bool)
      requires Tidy(State())
      modifies this
      ensures (ok, State()) == Visit(old(State()), c) && Rest(old(testSpec), old(arg))
      ensures if ok then pos == old(pos) else mode == NoMode
    {
      hide Tidy, Ended;
      if mode != EscapedName && c == '\\' {
        Escape();
        AddCharToPattern(c);
        return true;
      } else if mode != EscapedName && c == ',' {
        ok := Separate();
        return;
      }
      var done := false;
      match mode {
        case NoMode => done := ProcessNoneChar(c);
        case Name => ProcessNameChar(c);
        case EscapedName => EndMode(); AddCharToPattern(c); done := true;
        case _ => done := ProcessOtherChar(c);
      }
      if !done {
        if IsControl(mode, c) {
          substring := substring + [c];
        } else {
          AddCharToPattern(c);
        }
      }
      return true;
    }

    /** What visiting a character leaves alone. */
    predicate Rest(spec: TestSpec, text: string)
      reads this
    {
      testSpec.invalidSpecs == spec.invalidSpecs && arg == text
    }

    method AddCharToPattern(c: char)
      modifies this`substring, this`patternName, this`realPatternPos
      ensures State() == AddChar(old(State()), c)
    {
      substring, patternName, realPatternPos := substring + [c], patternName + [c], realPatternPos + 1;
    }

    method ProcessNoneChar(c: char) returns (done: bool)
      requires mode == NoMode
      modifies this`mode, this`exclusion
      ensures done == (c == ' ') && State() == if done then old(State()) else StartFrom(old(State()), c)
    {
      match c {
        case ' ' => return true;
        case '~' => exclusion := true;
        case '[' => mode := Tag;
        case '\"' => mode := QuotedName;
        case _ => mode := Name;
      }
      return false;
    }

    method ProcessNameChar(c: char)
      requires mode == Name && Tidy(State())
      modifies this
      ensures State() == InName(old(State()), c) && Rest(old(testSpec), old(arg)) && pos == old(pos)
    {
      hide Ended;
      if c == '[' {
        if substring == EXCLUDE {
          exclusion := true;
        } else {
          EndMode();
        }
        mode := Tag;
      }
    }

    method ProcessOtherChar(c: char) returns (done: bool)
      requires (mode == QuotedName || mode == Tag) && Tidy(State())
      modifies this
      ensures done == IsControl(old(mode), c) && Rest(old(testSpec), old(arg)) && pos == old(pos)
      ensures State() == if done then Ended(old(State()).(substring := old(substring) + [c])) else old(State())
    {
      hide Ended;
      if !IsControl(mode, c) { return false; }
      substring := substring + [c];
      EndMode();
      return true;
    }

    method EndMode()
      requires mode == NoMode || Tidy(State())
      modifies this
      ensures State() == Ended(old(State())) && Rest(old(testSpec), old(arg)) && pos == old(pos)
    {
      hide AddName, AddTag, Tidy;
      match mode {
        case Name => AddNamePattern();
        case QuotedName => AddNamePattern();
        case Tag => AddTagPattern();
        case EscapedName => mode := lastMode;
        case NoMode => mode := NoMode;
      }
    }

    method Escape()
      modifies this`mode, this`lastMode, this`escapeChars
      ensures lastMode == old(mode) && mode == EscapedName && escapeChars == old(escapeChars) + [realPatternPos]
    {
      lastMode := mode;
      mode := EscapedName;
      escapeChars := escapeChars + [realPatternPos];
    }

    method AddFilter()
      modifies this`testSpec, this`currentFilter
      ensures State() == Filed(old(State())) && testSpec.invalidSpecs == old(testSpec.invalidSpecs)
    {
      if currentFilter.required != [] || currentFilter.forbidden != [] {
        testSpec := testSpec.(filters := testSpec.filters + [currentFilter]);
        currentFilter := NO_FILTER;
      }
    }

    method Separate() returns (ok: bool)
      requires Tidy(State())
      modifies this
      ensures (ok, State()) == Separated(old(State())) && Rest(old(testSpec), old(arg))
      ensures if ok then pos == old(pos) else mode == NoMode
    {
      hide Ended, Tidy;
      if mode == QuotedName || mode == Tag {
        mode := NoMode;
        pos := |arg|;
        substring, patternName, realPatternPos := "", "", 0;
        return false;
      }
      EndMode();
      AddFilter();
      return true;
    }

    /** The shifting deletes drop exactly the recorded escape characters. */
    method PreprocessPattern() returns (token: string)
      requires Tidy(State())
      modifies this`escapeChars, this`exclusion, this`patternName, this`realPatternPos
      ensures (token, State()) == TakeToken(old(State()))
    {
      token := DropEscapes();
      escapeChars := [];
      if EXCLUDE <= token {
        exclusion := true;
        token := token[|EXCLUDE|..];
      }
      patternName, realPatternPos := "", 0;
    }

    method DropEscapes() returns (token: string)
      requires Tidy(State())
      ensures token == Without(patternName, escapeChars)
    {
      hide Without, Increasing;
      token := patternName;
      WithoutNone(patternName);
      for i := 0 to |escapeChars|
        invariant token == Without(patternName, escapeChars[..i])
      {
        var e := escapeChars[i];
        WithoutStep(patternName, escapeChars, i);
        token := token[..e - i] + token[e - i + 1..];
      }
      assert escapeChars[..|escapeChars|] == escapeChars;
    }

    method AddToFilter(p: Pattern)
      modifies this`currentFilter
      ensures State() == AddPattern(old(State()), p)
    {
      if exclusion {
        currentFilter := currentFilter.(forbidden := currentFilter.forbidden + [p]);
      } else {
        currentFilter := currentFilter.(required := currentFilter.required + [p]);
      }
    }

    method AddNamePattern()
      requires Tidy(State())
      modifies this
      ensures State() == AddName(old(State())) && Rest(old(testSpec), old(arg)) && pos == old(pos)
    {
      hide TakeToken, Tidy;
      var token := PreprocessPattern();
      if token != "" {
        AddToFilter(NamePattern(token, substring));
      }
      substring, exclusion, mode := "", false, NoMode;
    }

    method AddTagPattern()
      requires Tidy(State())
      modifies this
      ensures State() == AddTag(old(State())) && Rest(old(testSpec), old(arg)) && pos == old(pos)
    {
      hide TakeToken, Tidy;
      var token := PreprocessPattern();
      if token != "" {
        if |token| > 1 && token[0] == '.' {
          token := token[1..];
          AddToFilter(TagPattern(".", substring));
        }
        AddToFilter(TagPattern(token, substring));
      }
      substring, exclusion, mode := "", false, NoMode;
    }
  }
}
