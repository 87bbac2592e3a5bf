/** Wrapping a text into the lines of a column. */
module TextFlow {
  import opened Options

  predicate IsWhitespace(c: char) { c == ' ' || c == '\t' || c == '\n' || c == '\r' }

  predicate BreakableBefore(c: char) { c in "[({<|" }

  predicate BreakableAfter(c: char) { c in "])}>.,:;*+-=&/\\" }

  predicate IsBoundary(s: string, at: nat)
    requires 0 < at <= |s|
  {
    || at == |s|
    || (IsWhitespace(s[at]) && !IsWhitespace(s[at - 1]))
    || BreakableBefore(s[at])
    || BreakableAfter(s[at - 1])
  }

  datatype Column = Column(text: string, width: nat, indent: nat, initialIndent: Option<nat>)
  {
    /** What the iterator asserts of its column. */
    predicate Sound() { indent < width && (initialIndent.Some? ==> initialIndent.value < width) }

    function IndentAt(start: nat): nat { if start == 0 && initialIndent.Some? then initialIndent.value else indent }

    /** How many characters the line that starts here can hold. */
    function Capacity(start: nat): (n: nat)
      requires Sound()
      ensures n > 0
    {
      width - IndentAt(start)
    }
  }

  // ---- where a line should end ----

  /** Where the counted characters of a line begin: behind a newline that opens it. */
  function From(s: string, start: nat): nat
    requires start < |s|
  {
    if s[start] == '\n' then start + 1 else start
  }

  predicate NoNewline(s: string, from: nat, to: nat) { forall k | from <= k < to && k < |s| :: s[k] != '\n' }

  predicate Blank(s: string, from: nat, to: nat) { forall k | from <= k < to && k < |s| :: IsWhitespace(s[k]) }

  /** `to` is where the text or its line ends, less than a capacity away. */
  predicate ShortLine(s: string, from: nat, to: nat, capacity: nat) {
    from <= to < from + capacity && to <= |s| && NoNewline(s, from, to) && (to < |s| ==> s[to] == '\n')
  }

  /** The last place before `to` where the text may be broken. */
  predicate LastBoundary(s: string, from: nat, to: nat, b: nat) {
    from < b <= to <= |s| && IsBoundary(s, b) && forall k | b < k <= to :: !IsBoundary(s, k)
  }

  /** `end` is where the text up to b ends when blanks are trimmed. */
  predicate Trimmed(s: string, from: nat, end: nat, b: nat) {
    from < end <= b <= |s| && !IsWhitespace(s[end - 1]) && Blank(s, end, b)
  }

  /** No place to break: there is no boundary, or only blanks before the last one. */
  predicate NoBreak(s: string, from: nat, to: nat) {
    to <= |s| && forall b | from < b <= to && LastBoundary(s, from, to, b) :: Blank(s, from, b)
  }

  predicate GoodBreak(s: string, from: nat, to: nat, end: nat) {
    exists b | from < b <= to :: LastBoundary(s, from, to, b) && Trimmed(s, from, end, b)
  }

  /** The rule for the end of a line: a short line ends at the newline or the end of the text; a full one at the
      last boundary, blanks trimmed; and when there is none one character is given up for a hyphen. */
  predicate EndsWell(s: string, start: nat, capacity: nat, end: nat, hyphen: bool)
    requires start < |s|
  {
    var from := From(s, start);
    var to := from + capacity;
    || (!hyphen && ShortLine(s, from, end, capacity))
    || (&& to <= |s| && NoNewline(s, from, to)
        && if hyphen then NoBreak(s, from, to) && end == to - 1
           else GoodBreak(s, from, to, end))
  }

  /** The line that starts here moves on. With room for two characters it always does. */
  predicate MovesOn(col: Column, start: nat)
    requires col.Sound() && start < |col.text|
  {
    col.Capacity(start) >= 2 || col.text[start] == '\n' ||
      (IsBoundary(col.text, start + 1) && !IsWhitespace(col.text[start]))
  }

  /** The iterator would show an empty line here for ever. */
  predicate Stuck(col: Column, start: nat)
    requires col.Sound() && start < |col.text|
  {
    !MovesOn(col, start) && !IsWhitespace(col.text[start])
  }

  /** By the rule a line is empty exactly when its start does not move on. */
  lemma EmptyLines(col: Column, start: nat, end: nat, hyphen: bool)
    requires col.Sound() && start < |col.text| && EndsWell(col.text, start, col.Capacity(start), end, hyphen)
    ensures start <= end <= |col.text|
    ensures start < end <==> MovesOn(col, start)
  {
    var s, n := col.text, col.Capacity(start);
    if n == 1 && s[start] != '\n' && hyphen && IsBoundary(s, start + 1) {
      assert LastBoundary(s, start, start + 1, start + 1);
    }
  }

  // ---- the rule determines the line ----

  function ScanTo(s: string, from: nat, capacity: nat): (to: nat)
    requires from <= |s|
    ensures from <= to <= from + capacity && to <= |s| && NoNewline(s, from, to)
    ensures to == from + capacity || ShortLine(s, from, to, capacity)
    decreases capacity
  {
    if capacity == 0 || from == |s| || s[from] == '\n' then from else ScanTo(s, from + 1, capacity - 1)
  }

  /** The last boundary behind `from`, or `from` when there is none. */
  function BoundaryTo(s: string, from: nat, to: nat): (b: nat)
    requires from <= to <= |s|
    ensures from <= b <= to && forall k | b < k <= to :: !IsBoundary(s, k)
    ensures b > from ==> LastBoundary(s, from, to, b)
  {
    if from == to then from else if IsBoundary(s, to) then to else BoundaryTo(s, from, to - 1)
  }

  function TrimTo(s: string, from: nat, b: nat): (e: nat)
    requires from <= b <= |s|
    ensures from <= e <= b && Blank(s, e, b)
    ensures e > from ==> Trimmed(s, from, e, b)
  {
    if from == b then from else if !IsWhitespace(s[b - 1]) then b else TrimTo(s, from, b - 1)
  }

  /** The end of the line and whether it has a hyphen. */
  function TheEnd(s: string, start: nat, capacity: nat): (r: (nat, bool))
    requires start < |s| && capacity > 0
  {
    var from := From(s, start);
    var to := ScanTo(s, from, capacity);
    if to < from + capacity then (to, false)
    else
      var e := TrimTo(s, from, BoundaryTo(s, from, to));
      if e == from then (to - 1, true) else (e, false)
  }

  lemma EndExists(s: string, start: nat, capacity: nat)
    requires start < |s| && capacity > 0
    ensures EndsWell(s, start, capacity, TheEnd(s, start, capacity).0, TheEnd(s, start, capacity).1)
  {
    var from := From(s, start);
    var to := ScanTo(s, from, capacity);
    if to == from + capacity {
      var b := BoundaryTo(s, from, to);
      var e := TrimTo(s, from, b);
      hide IsBoundary, Blank;
      if e == from {
        OnlyBlanks(s, from, to, b);
      } else {
        assert LastBoundary(s, from, to, b) && Trimmed(s, from, e, b);
      }
    }
  }

  lemma OnlyBlanks(s: string, from: nat, to: nat, b: nat)
    requires from <= b <= to <= |s| && Blank(s, from, b) && (forall k | b < k <= to :: !IsBoundary(s, k))
    requires b > from ==> LastBoundary(s, from, to, b)
    ensures NoBreak(s, from, to)
  {
  }

  lemma ShortIsNotFull(s: string, from: nat, end: nat, capacity: nat)
    requires ShortLine(s, from, end, capacity)
    ensures !(from + capacity <= |s| && NoNewline(s, from, from + capacity))
  {
  }

  lemma ShortIsOne(s: string, from: nat, end: nat, end': nat, capacity: nat)
    requires ShortLine(s, from, end, capacity) && ShortLine(s, from, end', capacity)
    ensures end == end'
  {
  }

  lemma TrimmedIsLast(s: string, from: nat, end: nat, end': nat, b: nat)
    requires Trimmed(s, from, end, b) && from < end' <= b && !IsWhitespace(s[end' - 1])
    ensures end' <= end && !Blank(s, from, b)
  {
  }

  lemma BreaksAreOne(s: string, from: nat, to: nat, end: nat, end': nat)
    requires GoodBreak(s, from, to, end)
    ensures !NoBreak(s, from, to) && (GoodBreak(s, from, to, end') ==> end == end')
  {
    hide IsBoundary, Blank;
    var b :| from < b <= to && LastBoundary(s, from, to, b) && Trimmed(s, from, end, b);
    TrimmedIsLast(s, from, end, end, b);
    if GoodBreak(s, from, to, end') {
      var b' :| from < b' <= to && LastBoundary(s, from, to, b') && Trimmed(s, from, end', b');
      assert b == b';
      TrimmedIsLast(s, from, end, end', b);
      TrimmedIsLast(s, from, end', end, b);
    }
  }

  /** There is exactly one end that follows the rule. */
  lemma OneEnd(s: string, start: nat, capacity: nat, end: nat, hyphen: bool, end': nat, hyphen': bool)
    requires start < |s| && capacity > 0
    requires EndsWell(s, start, capacity, end, hyphen) && EndsWell(s, start, capacity, end', hyphen')
    ensures end == end' && hyphen == hyphen'
  {
    hide NoBreak, GoodBreak;
    var from := From(s, start);
    var to := from + capacity;
    hide ShortLine, NoNewline;
    if ShortLine(s, from, end, capacity) {
      ShortIsNotFull(s, from, end, capacity);
      ShortIsOne(s, from, end, end', capacity);
    } else if ShortLine(s, from, end', capacity) {
      ShortIsNotFull(s, from, end', capacity);
    } else {
      if !hyphen {
        BreaksAreOne(s, from, to, end, end');
      } else if !hyphen' {
        BreaksAreOne(s, from, to, end', end);
      }
    }
  }

  // ---- the run of the iteration ----

  function SkipBlanks(s: string, p: nat): (q: nat)
    requires p <= |s|
    ensures p <= q <= |s| && Blank(s, p, q) && (q < |s| ==> !IsWhitespace(s[q]))
    decreases |s| - p
  {
    if p < |s| && IsWhitespace(s[p]) then SkipBlanks(s, p + 1) else p
  }

  /** Where the line after one that ends here starts. */
  function NextStart(s: string, end: nat): (q: nat)
    requires end <= |s|
    ensures end <= q <= |s| && Blank(s, end, q)
  {
    if end < |s| && s[end] == '\n' then end + 1 else SkipBlanks(s, end)
  }

  function LineFrom(col: Column, start: nat): (l: Line)
    requires col.Sound() && start < |col.text|
    ensures l.start == start && start <= l.end <= |col.text| && GoodLine(col, l)
  {
    var r := TheEnd(col.text, start, col.Capacity(start));
    EndExists(col.text, start, col.Capacity(start));
    EmptyLines(col, start, r.0, r.1);
    Line(start, r.0, r.1)
  }

  lemma LineIs(col: Column, start: nat, end: nat, hyphen: bool)
    requires col.Sound() && start < |col.text| && EndsWell(col.text, start, col.Capacity(start), end, hyphen)
    ensures LineFrom(col, start) == Line(start, end, hyphen)
  {
    hide EndsWell, TheEnd;
    var l := LineFrom(col, start);
    OneEnd(col.text, start, col.Capacity(start), end, hyphen, l.end, l.hyphen);
  }

  function Step(col: Column, start: nat): (q: nat)
    requires col.Sound() && start < |col.text|
    ensures start <= q <= |col.text|
  {
    NextStart(col.text, LineFrom(col, start).end)
  }

  /** Where the iteration stands after n lines. */
  function Position(col: Column, n: nat): (p: nat)
    requires col.Sound()
    ensures p <= |col.text|
  {
    if n == 0 then (if col.text != "" && MovesOn(col, 0) then 0 else |col.text|)
    else
      var p := Position(col, n - 1);
      if p == |col.text| then p else Step(col, p)
  }

  ghost predicate Ends(col: Column)
    requires col.Sound()
  {
    exists n: nat :: Position(col, n) == |col.text|
  }

  /** No line that the iteration reaches is stuck. */
  ghost predicate NeverStuck(col: Column)
    requires col.Sound()
  {
    forall n: nat :: !StuckAt(col, n)
  }

  predicate StuckAt(col: Column, n: nat)
    requires col.Sound()
  {
    Position(col, n) < |col.text| && Stuck(col, Position(col, n))
  }

  /** A step stays in place exactly at a stuck line. */
  lemma StepStays(col: Column, start: nat)
    requires col.Sound() && start < |col.text|
    ensures Step(col, start) == start <==> Stuck(col, start)
  {
    var l := LineFrom(col, start);
    EmptyLines(col, start, l.end, l.hyphen);
    hide EndsWell, IsBoundary, TheEnd;
  }

  lemma {:induction false} StuckForEver(col: Column, n: nat, m: nat)
    requires col.Sound() && n <= m && StuckAt(col, n)
    ensures Position(col, m) == Position(col, n)
  {
    hide Stuck, Step;
    if n < m {
      StuckForEver(col, n, m - 1);
      StepStays(col, Position(col, n));
    }
  }

  lemma {:induction false} Climbs(col: Column, n: nat, m: nat)
    requires col.Sound() && n <= m
    ensures Position(col, n) <= Position(col, m)
  {
    hide Step, MovesOn;
    if n < m {
      Climbs(col, n, m - 1);
    }
  }

  lemma {:induction false} ClimbsBy(col: Column, n: nat)
    requires col.Sound() && NeverStuck(col)
    ensures Position(col, n) == |col.text| || Position(col, n) >= n
  {
    hide Step, MovesOn, Stuck;
    if n > 0 {
      ClimbsBy(col, n - 1);
      var p := Position(col, n - 1);
      assert !StuckAt(col, n - 1);
      if p < |col.text| {
        StepStays(col, p);
      }
    }
  }

  /** The iteration ends if and only if it reaches no stuck line. */
  lemma EndsIff(col: Column)
    requires col.Sound()
    ensures Ends(col) <==> NeverStuck(col)
  {
    hide Stuck, Step, MovesOn;
    if Ends(col) {
      var m: nat :| Position(col, m) == |col.text|;
      forall n: nat ensures !StuckAt(col, n) {
        if StuckAt(col, n) {
          if n <= m {
            StuckForEver(col, n, m);
          } else {
            Climbs(col, m, n);
          }
        }
      }
    }
    if NeverStuck(col) {
      ClimbsBy(col, |col.text|);
      assert Position(col, |col.text|) == |col.text|;
    }
  }

  /** Room for two characters on every line is enough. */
  lemma WideEnds(col: Column)
    requires col.Sound() && col.indent + 2 <= col.width
    requires col.initialIndent.Some? ==> col.initialIndent.value + 2 <= col.width
    ensures Ends(col) && (col.text == "" || MovesOn(col, 0))
  {
    hide Ends, Position, IsBoundary;
    forall n: nat ensures !StuckAt(col, n) {
      if Position(col, n) < |col.text| {
        assert MovesOn(col, Position(col, n));
      }
    }
    EndsIff(col);
  }

  // ---- the iterator ----

  /** A line as the iterator holds it. */
  datatype Line = Line(start: nat, end: nat, hyphen: bool)

  predicate GoodLine(col: Column, l: Line)
    requires col.Sound()
  {
    l.start < |col.text| && l.start <= l.end <= |col.text| &&
      EndsWell(col.text, l.start, col.Capacity(l.start), l.end, l.hyphen)
  }

  function Spaces(n: nat): (s: string)
    ensures |s| == n
  {
    seq(n, _ => ' ')
  }

  function Show(col: Column, l: Line): string
    requires l.start <= l.end <= |col.text|
  {
    Spaces(col.IndentAt(l.start)) + col.text[l.start..l.end] + if l.hyphen then "-" else ""
  }

  class LineIterator {
    const column: Column
    var lineStart: nat
    var lineEnd: nat
    var parsedTo: nat
    var addHyphen: bool

    predicate Valid()
      reads this
    {
      && column.Sound() && lineStart <= |column.text|
      && (lineStart < |column.text| ==> GoodLine(column, Line(lineStart, lineEnd, addHyphen)))
    }

    /** The first line; there is none when it does not move on. */
    constructor (column: Column)
      requires column.Sound()
      ensures Valid() && this.column == column
      ensures lineStart == Position(column, 0)
    {
      this.column := column;
      lineStart, lineEnd, parsedTo, addHyphen := 0, 0, 0, false;
      new;
      CalcLength();
      if lineStart < |column.text| {
        EmptyLines(column, lineStart, lineEnd, addHyphen);
      }
      if lineStart == lineEnd {
        lineStart := |column.text|;
      }
    }

    method CalcLength()
      requires column.Sound() && lineStart <= |column.text|
      modifies this`lineEnd, this`parsedTo, this`addHyphen
      ensures lineStart == |column.text| ==> lineEnd == lineStart && !addHyphen
      ensures lineStart < |column.text| ==>
                EndsWell(column.text, lineStart, column.Capacity(lineStart), lineEnd, addHyphen)
    {
      hide NoBreak, GoodBreak, ShortLine, NoNewline;
      addHyphen := false;
      parsedTo := lineStart;
      var s := column.text;
      if parsedTo == |s| {
        lineEnd := parsedTo;
        return;
      }
      if s[lineStart] == '\n' {
        parsedTo := parsedTo + 1;
      }
      ghost var from := parsedTo;
      var maxLineLength := column.width - column.IndentAt(lineStart);
      var lineLength := ScanLine(maxLineLength);
      lineEnd := parsedTo;
      if lineLength >= maxLineLength {
        BreakLine(from, lineLength);
      }
    }

    /** Moves on until the line is full or over. */
    method ScanLine(maxLineLength: nat) returns (lineLength: nat)
      requires parsedTo <= |column.text|
      modifies this`parsedTo
      ensures old(parsedTo) + lineLength == parsedTo && lineLength <= maxLineLength
      ensures NoNewline(column.text, old(parsedTo), parsedTo)
      ensures lineLength == maxLineLength || ShortLine(column.text, old(parsedTo), parsedTo, maxLineLength)
      ensures parsedTo <= |column.text|
    {
      lineLength := 0;
      while parsedTo != |column.text| && lineLength < maxLineLength && column.text[parsedTo] != '\n'
        invariant old(parsedTo) + lineLength == parsedTo <= |column.text| && lineLength <= maxLineLength
        invariant NoNewline(column.text, old(parsedTo), parsedTo)
        decreases |column.text| - parsedTo
      {
        parsedTo := parsedTo + 1;
        lineLength := lineLength + 1;
      }
    }

    /** Breaks a full line at its last boundary, or with a hyphen. */
    method BreakLine(ghost from: nat, length: nat)
      requires from + length == lineEnd == parsedTo <= |column.text| && length > 0 && !addHyphen
      modifies this`lineEnd, this`addHyphen
      ensures if addHyphen then NoBreak(column.text, from, parsedTo) && lineEnd == parsedTo - 1
              else GoodBreak(column.text, from, parsedTo, lineEnd)
    {
      var lineLength := BackToBoundary(from, length);
      ghost var b := lineEnd;
      assert b > from ==> LastBoundary(column.text, from, parsedTo, b);
      lineLength := TrimBlanks(from, lineLength);
      if lineLength == 0 {
        assert NoBreak(column.text, from, parsedTo);
        addHyphen := true;
        lineEnd := parsedTo - 1;
      }
    }

    method BackToBoundary(ghost from: nat, length: nat) returns (lineLength: nat)
      requires from + length == lineEnd <= |column.text|
      modifies this`lineEnd
      ensures from + lineLength == lineEnd <= old(lineEnd)
      ensures lineLength > 0 ==> LastBoundary(column.text, from, old(lineEnd), lineEnd)
      ensures lineLength == 0 ==> forall k | from < k <= old(lineEnd) :: !IsBoundary(column.text, k)
    {
      lineLength := length;
      while lineLength > 0 && !IsBoundary(column.text, lineEnd)
        invariant from + lineLength == lineEnd <= old(lineEnd)
        invariant forall k | lineEnd < k <= old(lineEnd) :: !IsBoundary(column.text, k)
      {
        lineLength, lineEnd := lineLength - 1, lineEnd - 1;
      }
    }

    method TrimBlanks(ghost from: nat, length: nat) returns (lineLength: nat)
      requires from + length == lineEnd <= |column.text|
      modifies this`lineEnd
      ensures from + lineLength == lineEnd <= old(lineEnd)
      ensures if lineLength > 0 then Trimmed(column.text, from, lineEnd, old(lineEnd))
              else Blank(column.text, from, old(lineEnd))
    {
      lineLength := length;
      while lineLength > 0 && IsWhitespace(column.text[lineEnd - 1])
        invariant from + lineLength == lineEnd <= old(lineEnd)
        invariant Blank(column.text, lineEnd, old(lineEnd))
      {
        lineLength, lineEnd := lineLength - 1, lineEnd - 1;
      }
    }

    /** The line as it is written. */
    method Current() returns (line: string)
      requires Valid() && lineStart < |column.text|
      ensures line == Show(column, Line(lineStart, lineEnd, addHyphen))
    {
      line := Spaces(column.IndentAt(lineStart));
      line := line + column.text[lineStart..lineEnd];
      if addHyphen {
        line := line + "-";
      }
    }

    /** The next line. The iterator stays where it is exactly when the line is empty and no blank follows. */
    method Next()
      requires Valid() && lineStart < |column.text|
      modifies this
      ensures Valid() && old(lineStart) <= old(lineEnd) <= lineStart && Blank(column.text, old(lineEnd), lineStart)
      ensures lineStart == Step(column, old(lineStart))
    {
      hide EndsWell, TheEnd, LineFrom, MovesOn;
      EmptyLines(column, lineStart, lineEnd, addHyphen);
      LineIs(column, lineStart, lineEnd, addHyphen);
      lineStart := lineEnd;
      var s := column.text;
      if lineStart != |s| && s[lineStart] == '\n' {
        lineStart := lineStart + 1;
      } else {
        while lineStart != |s| && IsWhitespace(s[lineStart])
          invariant old(lineEnd) <= lineStart <= |s| && SkipBlanks(s, old(lineEnd)) == SkipBlanks(s, lineStart)
          decreases |s| - lineStart
        {
          lineStart := lineStart + 1;
        }
      }
      if lineStart != |s| {
        CalcLength();
        EmptyLines(column, lineStart, lineEnd, addHyphen);
      }
    }
  }

  // ---- the whole text ----

  /** The characters that are not white space. */
  function Visible(s: string): string {
    if s == "" then ""
    else Visible(s[..|s| - 1]) + if IsWhitespace(s[|s| - 1]) then "" else [s[|s| - 1]]
  }

  lemma {:induction false} VisibleAppend(a: string, b: string)
    ensures Visible(a + b) == Visible(a) + Visible(b)
  {
    if b == "" {
      assert a + b == a;
    } else {
      assert (a + b)[..|a + b| - 1] == a + b[..|b| - 1];
      VisibleAppend(a, b[..|b| - 1]);
    }
  }

  lemma {:induction false} VisibleBlank(s: string, from: nat, to: nat)
    requires from <= to <= |s| && Blank(s, from, to)
    ensures Visible(s[from..to]) == ""
  {
    if from < to {
      assert s[from..to][..to - from - 1] == s[from..to - 1];
      VisibleBlank(s, from, to - 1);
    }
  }

  /** The text of the lines, without indents and hyphens. */
  function Bodies(col: Column, lines: seq<Line>): string
    requires forall i | 0 <= i < |lines| :: lines[i].start <= lines[i].end <= |col.text|
  {
    if lines == [] then ""
    else
      var l := lines[|lines| - 1];
      Bodies(col, lines[..|lines| - 1]) + col.text[l.start..l.end]
  }

  /** A written line follows the rule and is at most as long as the column is wide; a newline that opens it is not
      counted. */
  predicate Fits(col: Column, l: Line, written: string)
    requires col.Sound()
  {
    GoodLine(col, l) && written == Show(col, l) && |written| <= col.width + if col.text[l.start] == '\n' then 1 else 0
  }

  lemma GoodLineFits(col: Column, l: Line)
    requires col.Sound() && GoodLine(col, l)
    ensures Fits(col, l, Show(col, l))
  {
  }

  predicate AllFit(col: Column, lines: seq<Line>, written: seq<string>)
    requires col.Sound()
  {
    |written| == |lines| && forall i | 0 <= i < |lines| :: Fits(col, lines[i], written[i])
  }

  /** The lines hold the visible characters of the text up to here. */
  predicate Holds(col: Column, lines: seq<Line>, upTo: nat) {
    && upTo <= |col.text| && (forall i | 0 <= i < |lines| :: lines[i].start <= lines[i].end <= |col.text|)
    && Visible(Bodies(col, lines)) == Visible(col.text[..upTo])
  }

  lemma HoldsNext(col: Column, lines: seq<Line>, l: Line, next: nat)
    requires Holds(col, lines, l.start) && l.start <= l.end <= next <= |col.text| && Blank(col.text, l.end, next)
    ensures Holds(col, lines + [l], next)
  {
    var s, more := col.text, lines + [l];
    assert more[..|more| - 1] == lines;
    VisibleAppend(Bodies(col, lines), s[l.start..l.end]);
    VisibleUpTo(s, l.start, l.end);
    VisibleUpTo(s, l.end, next);
    VisibleBlank(s, l.end, next);
    hide Visible;
  }

  lemma VisibleUpTo(s: string, a: nat, b: nat)
    requires a <= b <= |s|
    ensures Visible(s[..b]) == Visible(s[..a]) + Visible(s[a..b])
  {
    VisibleAppend(s[..a], s[a..b]);
    assert s[..b] == s[..a] + s[a..b];
  }

  /** Writing a column whose iteration ends, whatever its text and widths: the written lines follow the line-end
      rule and fit the column, and apart from indents and hyphens they hold every visible character of the text
      in order, if and only if the first line moves on or there is nothing visible. */
  method Write(col: Column) returns (written: seq<string>, lines: seq<Line>)
    requires col.Sound() && Ends(col)
    ensures AllFit(col, lines, written)
    ensures Holds(col, lines, |col.text|) <==> col.text == "" || MovesOn(col, 0) || Visible(col.text) == ""
  {
    hide GoodLine, EndsWell, IsBoundary, IsWhitespace, Blank, Show, Holds, Fits, Position, Step, MovesOn, Ends, Stuck,
         Visible;
    EndsIff(col);
    var it := new LineIterator(col);
    written, lines := [], [];
    ghost var kept := it.lineStart == 0;
    ghost var n := 0;
    HoldsNone(col);
    FirstPosition(col);
    while it.lineStart != |col.text|
      invariant it.Valid() && it.column == col && fresh(it) && it.lineStart == Position(col, n)
      invariant AllFit(col, lines, written) && (kept ==> Holds(col, lines, it.lineStart))
      invariant !kept ==> it.lineStart == |col.text| && lines == []
      decreases |col.text| - it.lineStart
    {
      var l := Line(it.lineStart, it.lineEnd, it.addHyphen);
      GoodLineInText(col, l);
      GoodLineFits(col, l);
      assert !StuckAt(col, n);
      StepStays(col, it.lineStart);
      NextPosition(col, n);
      var line := it.Current();
      written, lines := written + [line], lines + [l];
      it.Next();
      n := n + 1;
      HoldsNext(col, lines[..|lines| - 1], l, it.lineStart);
      assert lines[..|lines| - 1] + [l] == lines;
    }
    NothingHeld(col);
  }

  lemma NextPosition(col: Column, n: nat)
    requires col.Sound() && Position(col, n) < |col.text|
    ensures Position(col, n + 1) == Step(col, Position(col, n))
  {
  }

  lemma FirstPosition(col: Column)
    requires col.Sound()
    ensures Position(col, 0) == if col.text == "" || MovesOn(col, 0) then 0 else |col.text|
  {
  }

  /** Without lines the text is held when there is nothing to see in it. */
  lemma NothingHeld(col: Column)
    ensures Holds(col, [], |col.text|) <==> Visible(col.text) == ""
  {
    assert col.text[..|col.text|] == col.text;
  }

  lemma HoldsNone(col: Column)
    ensures Holds(col, [], 0)
  {
    assert col.text[..0] == "";
  }

  lemma GoodLineInText(col: Column, l: Line)
    requires col.Sound() && GoodLine(col, l)
    ensures l.start < |col.text| && l.start <= l.end <= |col.text|
  {
  }

  // ---- columns at the edge ----

  const NARROW := Column("a bc", 1, 0, None)

  lemma NarrowFirst()
    ensures LineFrom(NARROW, 0) == Line(0, 1, false) && MovesOn(NARROW, 0)
  {
    var s := NARROW.text;
    assert IsBoundary(s, 1);
    assert LastBoundary(s, 0, 1, 1) && Trimmed(s, 0, 1, 1);
    assert GoodBreak(s, 0, 1, 1);
    LineIs(NARROW, 0, 1, false);
  }

  lemma NarrowStuck()
    ensures NARROW.Sound() && Stuck(NARROW, 2)
  {
    assert !IsBoundary(NARROW.text, 3);
  }

  lemma NarrowSkip()
    ensures NextStart(NARROW.text, 1) == 2
  {
    assert SkipBlanks(NARROW.text, 2) == 2;
  }

  lemma NarrowSecond()
    ensures NARROW.Sound() && Position(NARROW, 1) == 2
  {
    NarrowFirst();
    NarrowSkip();
    hide LineFrom, NextStart, MovesOn, GoodLine;
    assert Position(NARROW, 0) == 0;
  }

  /** Room for one character, and a word of two behind a blank: the iteration never ends. */
  lemma NeverEnds()
    ensures NARROW.Sound() && Stuck(NARROW, 2) && !Ends(NARROW)
  {
    NarrowSecond();
    NarrowStuck();
    EndsIff(NARROW);
    assert StuckAt(NARROW, 1);
    hide Ends, Stuck, Position;
  }

  const WIDE_FIRST := Column("hello", 10, 9, Some(0))

  /** A wide indent for the other lines does no harm when the first line takes the whole text. */
  lemma EndsAtOnce()
    ensures WIDE_FIRST.Sound() && Stuck(WIDE_FIRST, 1) && Ends(WIDE_FIRST)
  {
    WideFirst();
    hide LineFrom, EndsWell, GoodLine;
    assert Position(WIDE_FIRST, 1) == 5;
  }

  lemma WideFirst()
    ensures LineFrom(WIDE_FIRST, 0) == Line(0, 5, false)
  {
    assert ShortLine(WIDE_FIRST.text, 0, 5, 10);
    LineIs(WIDE_FIRST, 0, 5, false);
  }
}
