/** Printing filters as a test spec, and what parsing the print gives back. */
module SpecRoundTrip {
  import opened SpecParser
  import opened SpecParserState

  /** A pattern to print: a quoted name or a bracketed tag, required or forbidden. */
  datatype Item = Item(forbidden: bool, tag: bool, token: string)

  function ModeOf(it: Item): Mode { if it.tag then Tag else QuotedName }

  // ---- the printer ----

  predicate Special(mode: Mode, c: char) { c == ',' || c == '\\' || IsControl(mode, c) }

  function EscapedChar(mode: Mode, c: char): string { if Special(mode, c) then ['\\', c] else [c] }

  function Escaped(mode: Mode, t: string): string {
    if t == "" then "" else Escaped(mode, t[..|t| - 1]) + EscapedChar(mode, t[|t| - 1])
  }

  function Opening(it: Item): string { (if it.forbidden then "~" else "") + if it.tag then "[" else "\"" }

  function Closing(it: Item): char { if it.tag then ']' else '\"' }

  function PrintItem(it: Item): string { Opening(it) + Escaped(ModeOf(it), it.token) + [Closing(it)] }

  /** The items of one filter, blanks between them. */
  function PrintItems(items: seq<Item>): string {
    if items == [] then ""
    else if |items| == 1 then PrintItem(items[0])
    else PrintItems(items[..|items| - 1]) + " " + PrintItem(items[|items| - 1])
  }

  function Print(filters: seq<seq<Item>>): string {
    if filters == [] then ""
    else if |filters| == 1 then PrintItems(filters[0])
    else Print(filters[..|filters| - 1]) + "," + PrintItems(filters[|filters| - 1])
  }

  // ---- what the parser keeps of an item ----

  function MakePattern(it: Item, token: string): Pattern {
    if it.tag then TagPattern(token, PrintItem(it)) else NamePattern(token, PrintItem(it))
  }

  predicate Excluding(it: Item) { it.forbidden || EXCLUDE <= it.token }

  function Token(it: Item): string { if EXCLUDE <= it.token then it.token[|EXCLUDE|..] else it.token }

  function Stored(it: Item): seq<Pattern> {
    var token := Token(it);
    if token == "" then []
    else if it.tag && |token| > 1 && token[0] == '.' then [MakePattern(it, "."), MakePattern(it, token[1..])]
    else [MakePattern(it, token)]
  }

  function StoreItem(f: Filter, it: Item): Filter {
    if Excluding(it) then f.(forbidden := f.forbidden + Stored(it)) else f.(required := f.required + Stored(it))
  }

  function StoreItems(f: Filter, items: seq<Item>): Filter {
    if items == [] then f else StoreItem(StoreItems(f, items[..|items| - 1]), items[|items| - 1])
  }

  function FileFilter(fs: seq<Filter>, f: Filter): seq<Filter> { if f == NO_FILTER then fs else fs + [f] }

  function StoreAll(filters: seq<seq<Item>>): seq<Filter> {
    if filters == [] then []
    else FileFilter(StoreAll(filters[..|filters| - 1]), StoreItems(NO_FILTER, filters[|filters| - 1]))
  }

  // ---- reading back ----

  /** Between patterns: nothing is pending. */
  predicate Ready(s: Scan) {
    && s.mode == NoMode && !s.exclusion && s.realPatternPos == 0
    && s.substring == "" && s.patternName == "" && s.escapeChars == []
  }

  lemma {:induction false} VisitAppend(s: Scan, a: string, b: string)
    requires VisitAll(s, a).0
    ensures VisitAll(s, a + b) == VisitAll(VisitAll(s, a).1, b)
  {
    if b == "" {
      assert a + b == a;
    } else {
      var n := |b| - 1;
      assert (a + b)[..|a + b| - 1] == a + b[..n];
      VisitAppend(s, a, b[..n]);
    }
  }

  lemma VisitOne(s: Scan, c: char)
    ensures VisitAll(s, [c]) == Visit(s, c)
  {
    assert [c][..0] == "";
  }

  /** Where the escape characters of an escaped token stand. */
  function Marks(mode: Mode, t: string): seq<nat> {
    if t == "" then []
    else
      var rest := t[..|t| - 1];
      Marks(mode, rest) + if Special(mode, t[|t| - 1]) then [|Escaped(mode, rest)|] else []
  }

  lemma {:induction false} MarksInside(mode: Mode, t: string)
    ensures forall e | e in Marks(mode, t) :: e < |Escaped(mode, t)|
  {
    if t != "" {
      MarksInside(mode, t[..|t| - 1]);
    }
  }

  /** Dropping the escape characters of an escaped token gives the token. */
  lemma {:induction false} DropMarks(mode: Mode, t: string)
    ensures Without(Escaped(mode, t), Marks(mode, t)) == t
  {
    if t != "" {
      var rest, c := t[..|t| - 1], t[|t| - 1];
      var e, m := Escaped(mode, rest), Marks(mode, rest);
      DropMarks(mode, rest);
      MarksInside(mode, rest);
      assert t == rest + [c];
      hide Without;
      if Special(mode, c) {
        DropLast(e, m, c);
      } else {
        KeepLast(e, m, c);
        assert m + [] == m;
      }
    }
  }

  lemma KeepLast(e: string, m: seq<nat>, c: char)
    requires |e| !in m
    ensures Without(e + [c], m) == Without(e, m) + [c]
  {
    assert (e + [c])[..|e|] == e;
  }

  lemma DropLast(e: string, m: seq<nat>, c: char)
    requires forall k | k in m :: k < |e|
    ensures Without(e + ['\\', c], m + [|e|]) == Without(e, m) + [c]
  {
    var d := e + ['\\'];
    assert e + ['\\', c] == d + [c] && d[..|e|] == e;
    KeepLast(d, m + [|e|], c);
    WithoutBeyond(e, m, |e|);
  }

  /** The state inside a quoted name or a tag, after an escaped token was read. */
  predicate Inside(s: Scan, open: Scan, mode: Mode, t: string) {
    var e := Escaped(mode, t);
    s == open.(lastMode := s.lastMode, substring := open.substring + e, patternName := e, escapeChars := Marks(mode, t),
               realPatternPos := |e|)
  }

  lemma {:induction false} ReadToken(open: Scan, t: string)
    requires (open.mode == QuotedName || open.mode == Tag)
    requires open.patternName == "" && open.escapeChars == [] && open.realPatternPos == 0
    ensures var r := VisitAll(open, Escaped(open.mode, t)); r.0 && Inside(r.1, open, open.mode, t)
  {
    var mode := open.mode;
    if t != "" {
      var rest, c := t[..|t| - 1], t[|t| - 1];
      ReadToken(open, rest);
      var s := VisitAll(open, Escaped(mode, rest)).1;
      ReadChar(s, open, mode, rest, c);
      VisitAppend(open, Escaped(mode, rest), EscapedChar(mode, c));
      assert t == rest + [c];
    } else {
      assert open.substring + "" == open.substring;
    }
  }

  lemma ReadChar(s: Scan, open: Scan, mode: Mode, rest: string, c: char)
    requires mode == open.mode && (mode == QuotedName || mode == Tag) && Inside(s, open, mode, rest)
    ensures var r := VisitAll(s, EscapedChar(mode, c)); r.0 && Inside(r.1, open, mode, rest + [c])
  {
    var e := Escaped(mode, rest);
    var t := rest + [c];
    assert t[..|t| - 1] == rest;
    if Special(mode, c) {
      var s1 := Visit(s, '\\').1;
      VisitOne(s, '\\');
      VisitAppend(s, ['\\'], [c]);
      assert ['\\'] + [c] == ['\\', c];
      VisitOne(s1, c);
      assert e + ['\\'] + [c] == e + ['\\', c];
      assert open.substring + e + ['\\'] + [c] == open.substring + (e + ['\\', c]);
    } else {
      VisitOne(s, c);
      assert open.substring + e + [c] == open.substring + (e + [c]);
      assert Marks(mode, t) == Marks(mode, rest) + [];
    }
  }

  lemma ReadOpening(s: Scan, it: Item)
    requires Ready(s)
    ensures VisitAll(s, Opening(it)) ==
      (true, s.(mode := ModeOf(it), exclusion := it.forbidden, substring := Opening(it)))
  {
    var open := if it.tag then '[' else '\"';
    if it.forbidden {
      var s1 := s.(exclusion := true, substring := "~");
      VisitOne(s, '~');
      assert "" + ['~'] == "~";
      VisitAppend(s, "~", [open]);
      VisitOne(s1, open);
    } else {
      VisitOne(s, open);
      assert Opening(it) == [open];
    }
  }

  /** Reading a printed item files exactly its patterns and leaves nothing pending. */
  lemma ReadItem(s: Scan, it: Item)
    requires Ready(s)
    ensures var r := VisitAll(s, PrintItem(it));
            r.0 && Ready(r.1) && r.1.filters == s.filters && r.1.current == StoreItem(s.current, it)
  {
    hide VisitAll, Visit, Escaped, Marks, Without, Opening;
    var mode := ModeOf(it);
    var open := s.(mode := mode, exclusion := it.forbidden, substring := Opening(it));
    var e := Escaped(mode, it.token);
    ReadOpening(s, it);
    ReadToken(open, it.token);
    VisitAppend(s, Opening(it), e);
    var inside := VisitAll(open, e).1;
    VisitAppend(s, Opening(it) + e, [Closing(it)]);
    VisitOne(inside, Closing(it));
    DropMarks(mode, it.token);
    ReadClosing(inside, it, s);
  }

  lemma ReadClosing(inside: Scan, it: Item, s: Scan)
    requires Ready(s) && inside.mode == ModeOf(it) && inside.exclusion == it.forbidden
    requires inside.substring + [Closing(it)] == PrintItem(it)
    requires Without(inside.patternName, inside.escapeChars) == it.token
    requires inside.current == s.current && inside.filters == s.filters
    ensures var r := Visit(inside, Closing(it));
            r.0 && Ready(r.1) && r.1.filters == s.filters && r.1.current == StoreItem(s.current, it)
  {
    hide Without, PrintItem;
  }

  lemma {:induction false} ReadItems(s: Scan, items: seq<Item>)
    requires Ready(s)
    ensures var r := VisitAll(s, PrintItems(items));
            r.0 && Ready(r.1) && r.1.filters == s.filters && r.1.current == StoreItems(s.current, items)
  {
    hide VisitAll, PrintItem, StoreItem;
    VisitNothing(s);
    if |items| == 1 {
      ReadItem(s, items[0]);
      assert StoreItems(s.current, items[..0]) == s.current;
    } else if items != [] {
      var front := items[..|items| - 1];
      ReadItems(s, front);
      var s1 := VisitAll(s, PrintItems(front)).1;
      VisitAppend(s, PrintItems(front), " ");
      VisitOne(s1, ' ');
      ReadItem(s1, items[|items| - 1]);
      VisitAppend(s, PrintItems(front) + " ", PrintItem(items[|items| - 1]));
    }
  }

  lemma VisitNothing(s: Scan)
    ensures VisitAll(s, "") == (true, s)
  {
  }

  /** Reading the whole print: the filters before the last are filed, the last is pending. */
  lemma {:induction false} ReadAll(s: Scan, filters: seq<seq<Item>>)
    requires Ready(s) && s.filters == [] && s.current == NO_FILTER
    ensures var r := VisitAll(s, Print(filters)); r.0 && Ready(r.1) && Filed(r.1).filters == StoreAll(filters)
  {
    hide VisitAll, PrintItems, StoreItems;
    VisitNothing(s);
    if |filters| == 1 {
      ReadItems(s, filters[0]);
      assert StoreAll(filters[..0]) == [];
    } else if filters != [] {
      var front, last := filters[..|filters| - 1], filters[|filters| - 1];
      ReadAll(s, front);
      var s1 := VisitAll(s, Print(front)).1;
      VisitAppend(s, Print(front), ",");
      VisitOne(s1, ',');
      var s2 := Filed(s1);
      assert Visit(s1, ',') == (true, s2);
      ReadItems(s2, last);
      VisitAppend(s, Print(front) + ",", PrintItems(last));
    }
  }

  // ---- when nothing is lost ----

  function IntendItem(f: Filter, it: Item): Filter {
    var p := MakePattern(it, it.token);
    if it.forbidden then f.(forbidden := f.forbidden + [p]) else f.(required := f.required + [p])
  }

  function Intended(items: seq<Item>): Filter {
    if items == [] then NO_FILTER else IntendItem(Intended(items[..|items| - 1]), items[|items| - 1])
  }

  function IntendedAll(filters: seq<seq<Item>>): seq<Filter> {
    if filters == [] then [] else IntendedAll(filters[..|filters| - 1]) + [Intended(filters[|filters| - 1])]
  }

  /** A token the parser takes as it is: not empty, no `exclude:` in front, and no hidden tag. */
  predicate Plain(it: Item) {
    it.token != "" && !(EXCLUDE <= it.token) && !(it.tag && |it.token| > 1 && it.token[0] == '.')
  }

  predicate PlainItems(items: seq<Item>) { forall j | 0 <= j < |items| :: Plain(items[j]) }

  predicate AllPlain(filters: seq<seq<Item>>) {
    forall i | 0 <= i < |filters| :: filters[i] != [] && PlainItems(filters[i])
  }

  /** Shortening a token or splitting it in two lowers its weight, and so does dropping it. */
  function Weight(p: Pattern): nat { if p.token == "" then 1 else 2 * |p.token| - 1 }

  function Load(ps: seq<Pattern>): nat {
    if ps == [] then 0 else Load(ps[..|ps| - 1]) + Weight(ps[|ps| - 1])
  }

  function FilterLoad(f: Filter): nat { Load(f.required) + Load(f.forbidden) }

  function TotalLoad(fs: seq<Filter>): nat {
    if fs == [] then 0 else TotalLoad(fs[..|fs| - 1]) + 1 + FilterLoad(fs[|fs| - 1])
  }

  lemma LoadPush(ps: seq<Pattern>, p: Pattern)
    ensures Load(ps + [p]) == Load(ps) + Weight(p)
  {
    assert (ps + [p])[..|ps|] == ps;
  }

  lemma LoadStored(ps: seq<Pattern>, it: Item)
    ensures Load(ps + Stored(it)) <= Load(ps) + Weight(MakePattern(it, it.token))
    ensures if Plain(it) then Stored(it) == [MakePattern(it, it.token)]
            else Load(ps + Stored(it)) < Load(ps) + Weight(MakePattern(it, it.token))
  {
    hide Load, PrintItem;
    var token := Token(it);
    if token == "" {
      assert ps + [] == ps;
    } else if it.tag && |token| > 1 && token[0] == '.' {
      var p, q := MakePattern(it, "."), MakePattern(it, token[1..]);
      LoadPush(ps, p);
      LoadPush(ps + [p], q);
      assert ps + [p, q] == ps + [p] + [q];
    } else {
      LoadPush(ps, MakePattern(it, token));
    }
  }

  lemma CompareItem(f: Filter, g: Filter, it: Item)
    requires FilterLoad(f) <= FilterLoad(g)
    ensures FilterLoad(StoreItem(f, it)) <= FilterLoad(IntendItem(g, it))
    ensures !Plain(it) || FilterLoad(f) < FilterLoad(g) ==> FilterLoad(StoreItem(f, it)) < FilterLoad(IntendItem(g, it))
    ensures Plain(it) ==> StoreItem(f, it) == IntendItem(f, it)
  {
    hide Load, Stored, Plain, MakePattern, Weight, Excluding;
    LoadStored(f.required, it);
    LoadStored(f.forbidden, it);
    LoadPush(g.required, MakePattern(it, it.token));
    LoadPush(g.forbidden, MakePattern(it, it.token));
    if Plain(it) {
      PlainKeepsSide(it);
    }
  }

  lemma PlainSplit(items: seq<Item>)
    requires items != []
    ensures PlainItems(items) <==> PlainItems(items[..|items| - 1]) && Plain(items[|items| - 1])
  {
    assert items == items[..|items| - 1] + [items[|items| - 1]];
  }

  lemma AllPlainSplit(filters: seq<seq<Item>>)
    requires filters != []
    ensures var last := filters[|filters| - 1];
            AllPlain(filters) <==> AllPlain(filters[..|filters| - 1]) && last != [] && PlainItems(last)
  {
    assert filters == filters[..|filters| - 1] + [filters[|filters| - 1]];
  }

  lemma {:induction false} CompareFilter(items: seq<Item>)
    ensures FilterLoad(StoreItems(NO_FILTER, items)) <= FilterLoad(Intended(items))
    ensures if PlainItems(items) then StoreItems(NO_FILTER, items) == Intended(items)
            else FilterLoad(StoreItems(NO_FILTER, items)) < FilterLoad(Intended(items))
  {
    if items != [] {
      hide FilterLoad, Plain, PlainItems, StoreItem, IntendItem;
      var front, it := items[..|items| - 1], items[|items| - 1];
      CompareFilter(front);
      CompareItem(StoreItems(NO_FILTER, front), Intended(front), it);
      PlainSplit(items);
    }
  }

  lemma PlainKeepsSide(it: Item)
    requires Plain(it)
    ensures Excluding(it) == it.forbidden
  {
  }

  lemma LoadOfFilter(fs: seq<Filter>, f: Filter)
    ensures TotalLoad(fs + [f]) == TotalLoad(fs) + 1 + FilterLoad(f)
  {
    assert (fs + [f])[..|fs|] == fs;
  }

  lemma {:induction false} NotEmpty(items: seq<Item>)
    requires items != []
    ensures Intended(items) != NO_FILTER
  {
  }

  lemma {:induction false} CompareAll(filters: seq<seq<Item>>)
    ensures TotalLoad(StoreAll(filters)) <= TotalLoad(IntendedAll(filters))
    ensures if AllPlain(filters) then StoreAll(filters) == IntendedAll(filters)
            else TotalLoad(StoreAll(filters)) < TotalLoad(IntendedAll(filters))
  {
    if filters != [] {
      hide FilterLoad, AllPlain, PlainItems, StoreItems, Intended, TotalLoad;
      var front, last := filters[..|filters| - 1], filters[|filters| - 1];
      CompareAll(front);
      CompareFilter(last);
      LoadOfFilter(StoreAll(front), StoreItems(NO_FILTER, last));
      LoadOfFilter(IntendedAll(front), Intended(last));
      if last != [] {
        NotEmpty(last);
      } else {
        StoreNone();
      }
      AllPlainSplit(filters);
    }
  }

  lemma StoreNone()
    ensures StoreItems(NO_FILTER, []) == NO_FILTER
  {
  }

  /** The parser gives back exactly what was printed if and only if no filter is empty and every token is plain. */
  lemma RoundTrip(filters: seq<seq<Item>>)
    ensures StoreAll(filters) == IntendedAll(filters) <==> AllPlain(filters)
  {
    CompareAll(filters);
  }

  /** A fresh parser reads any print as the stored filters, and finds nothing invalid. */
  method ParsePrinted(filters: seq<seq<Item>>) returns (spec: TestSpec)
    ensures spec == TestSpec(StoreAll(filters), [])
    ensures spec.filters == IntendedAll(filters) <==> AllPlain(filters)
  {
    hide VisitAll, Print, StoreAll, IntendedAll, AllPlain;
    RoundTrip(filters);
    var text := Print(filters);
    var parser := new Parser();
    ReadAll(Reset(parser.State()), filters);
    parser.Parse(text, text);
    spec := parser.TakeTestSpec();
  }
}
