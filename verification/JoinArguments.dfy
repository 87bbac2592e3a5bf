/** Joining arguments into one Windows command line, against the splitting rules of the Microsoft C runtime. */
module JoinArguments {
  const QUOTE := '\"'
  const BACKSLASH := '\\'
  const SPACE := ' '

  function Backslashes(n: nat): (s: string)
    ensures |s| == n && forall i | 0 <= i < n :: s[i] == BACKSLASH
  {
    seq(n, _ => BACKSLASH)
  }

  /** How many backslashes a string begins with. */
  function Leading(s: string): (n: nat)
    ensures n <= |s| && (forall i | 0 <= i < n :: s[i] == BACKSLASH) && (n < |s| ==> s[n] != BACKSLASH)
  {
    if s == "" || s[0] != BACKSLASH then 0 else 1 + Leading(s[1..])
  }

  // ---- how the runtime splits a command line ----

  predicate Blank(c: char) { c == ' ' || c == '\t' }

  /** Reads one argument: the text read after `acc`, and what follows it. Backslashes are literal unless a
      quote follows; 2n of them and a quote give n and end or begin a quoted part, 2n + 1 give n and a literal
      quote; inside a quoted part two quotes give one. */
  function ReadArgument(s: string, quoted: bool, acc: string): (r: (string, string))
    ensures |r.1| <= |s|
    decreases |s|
  {
    var n := Leading(s);
    if s == "" || (Blank(s[0]) && !quoted) then (acc, s)
    else if n < |s| && s[n] == QUOTE then
      if n % 2 == 1 then ReadArgument(s[n + 1..], quoted, acc + Backslashes(n / 2) + [QUOTE])
      else if quoted && n + 1 < |s| && s[n + 1] == QUOTE then
        ReadArgument(s[n + 2..], quoted, acc + Backslashes(n / 2) + [QUOTE])
      else ReadArgument(s[n + 1..], !quoted, acc + Backslashes(n / 2))
    else if n > 0 then ReadArgument(s[n..], quoted, acc + Backslashes(n))
    else ReadArgument(s[1..], quoted, acc + [s[0]])
  }

  function SkipBlanks(s: string): (r: string)
    ensures |r| <= |s| && (r != "" ==> !Blank(r[0]))
  {
    if s != "" && Blank(s[0]) then SkipBlanks(s[1..]) else s
  }

  lemma ReadProgress(s: string)
    requires s != "" && !Blank(s[0])
    ensures |ReadArgument(s, false, "").1| < |s|
  {
  }

  function Split(s: string): seq<string>
    decreases |s|
  {
    var t := SkipBlanks(s);
    if t == "" then []
    else
      ReadProgress(t);
      var r := ReadArgument(t, false, "");
      [r.0] + Split(r.1)
  }

  // ---- how the arguments are joined ----

  predicate Plain(c: char) { c != ' ' && c != '\t' && c != '\n' && c != '\U{B}' && c != QUOTE }

  predicate NeedsNoQuotes(arg: string) { arg != "" && forall i | 0 <= i < |arg| :: Plain(arg[i]) }

  /** What n backslashes before c become. */
  function Before(n: nat, c: char): string {
    if c == QUOTE then Backslashes(2 * n + 1) else Backslashes(n)
  }

  /** The text between the quotes. */
  function Escaped(arg: string): string
    decreases |arg|
  {
    var n := Leading(arg);
    if n == |arg| then Backslashes(2 * n)
    else Before(n, arg[n]) + [arg[n]] + Escaped(arg[n + 1..])
  }

  function Quoted(arg: string): (s: string)
    ensures s != ""
  {
    if NeedsNoQuotes(arg) then arg else [QUOTE] + Escaped(arg) + [QUOTE]
  }

  function Joined(args: seq<string>): string {
    if args == [] then ""
    else if |args| == 1 then Quoted(args[0])
    else Quoted(args[0]) + [SPACE] + Joined(args[1..])
  }

  lemma Associate(a: string, b: string, c: string, d: string)
    ensures a + (b + c + d) == a + b + c + d
  {
  }

  lemma {:induction false} JoinedPush(args: seq<string>, arg: string)
    ensures Joined(args + [arg]) == if args == [] then Quoted(arg) else Joined(args) + [SPACE] + Quoted(arg)
    ensures args != [] ==> Joined(args) != ""
  {
    hide Quoted;
    if |args| == 1 {
      assert (args + [arg])[1..] == [arg];
    } else if |args| > 1 {
      assert (args + [arg])[1..] == args[1..] + [arg];
      JoinedPush(args[1..], arg);
      Associate(Quoted(args[0]) + [SPACE], Joined(args[1..]), [SPACE], Quoted(arg));
    }
  }

  // ---- splitting undoes joining ----

  lemma {:induction false} LeadingOf(n: nat, t: string)
    requires t == "" || t[0] != BACKSLASH
    ensures Leading(Backslashes(n) + t) == n
  {
    var s := Backslashes(n) + t;
    if n == 0 {
      assert s == t;
    } else {
      assert s[1..] == Backslashes(n - 1) + t;
      LeadingOf(n - 1, t);
    }
  }

  /** What may follow an argument on the line. */
  predicate Boundary(rest: string) { rest == "" || rest[0] == SPACE }

  lemma Halves(n: nat)
    ensures (2 * n) / 2 == n && (2 * n) % 2 == 0 && (2 * n + 1) / 2 == n && (2 * n + 1) % 2 == 1
  {
  }

  /** An odd run of backslashes and a quote, unfolded once. */
  lemma UnfoldOdd(s: string, n: nat, acc: string)
    requires n == Leading(s) < |s| && s[n] == QUOTE && n % 2 == 1
    ensures ReadArgument(s, true, acc) == ReadArgument(s[n + 1..], true, acc + Backslashes(n / 2) + [QUOTE])
  {
    hide Backslashes, Leading;
  }

  /** An even run of backslashes and a quote that no other quote follows, unfolded once. */
  lemma UnfoldEven(s: string, n: nat, acc: string)
    requires n == Leading(s) < |s| && s[n] == QUOTE && n % 2 == 0 && (n + 1 < |s| ==> s[n + 1] != QUOTE)
    ensures ReadArgument(s, true, acc) == ReadArgument(s[n + 1..], false, acc + Backslashes(n / 2))
  {
    hide Backslashes, Leading;
  }

  /** Backslashes, a quote and more: where the quote is, and what follows it. */
  lemma RunAndQuote(n: nat, rest: string)
    ensures var s := Backslashes(n) + [QUOTE] + rest;
            && Leading(s) == n < |s| && s[n] == QUOTE && s[n + 1..] == rest
            && (n + 1 < |s| ==> rest != "" && s[n + 1] == rest[0])
  {
    hide Leading;
    LeadingOf(n, [QUOTE] + rest);
    assert Backslashes(n) + [QUOTE] + rest == Backslashes(n) + ([QUOTE] + rest);
  }

  /** The backslashes before the closing quote are halved and the quote ends the quoted part. */
  lemma ReadClosing(n: nat, rest: string, acc: string)
    requires Boundary(rest)
    ensures ReadArgument(Backslashes(2 * n) + [QUOTE] + rest, true, acc) ==
      ReadArgument(rest, false, acc + Backslashes(n))
  {
    hide Backslashes, Leading, ReadArgument;
    RunAndQuote(2 * n, rest);
    Halves(n);
    UnfoldEven(Backslashes(2 * n) + [QUOTE] + rest, 2 * n, acc);
  }

  /** An escaped quote. */
  lemma ReadEscapedQuote(n: nat, rest: string, acc: string)
    ensures ReadArgument(Backslashes(2 * n + 1) + [QUOTE] + rest, true, acc) ==
      ReadArgument(rest, true, acc + Backslashes(n) + [QUOTE])
  {
    hide Backslashes, Leading, ReadArgument;
    RunAndQuote(2 * n + 1, rest);
    Halves(n);
    UnfoldOdd(Backslashes(2 * n + 1) + [QUOTE] + rest, 2 * n + 1, acc);
  }

  /** Backslashes and an ordinary character. */
  lemma ReadOrdinary(n: nat, c: char, rest: string, quoted: bool, acc: string)
    requires c != QUOTE && c != BACKSLASH && (quoted || !Blank(c))
    ensures ReadArgument(Backslashes(n) + [c] + rest, quoted, acc) ==
      ReadArgument(rest, quoted, acc + Backslashes(n) + [c])
  {
    hide ReadArgument;
    var t := [c] + rest;
    assert Backslashes(n) + [c] + rest == Backslashes(n) + t;
    ReadOne(c, rest, quoted, acc + Backslashes(n));
    if n == 0 {
      assert Backslashes(n) + t == t && acc + Backslashes(n) == acc;
    } else {
      ReadRun(n, t, quoted, acc);
    }
  }

  lemma ReadOne(c: char, rest: string, quoted: bool, acc: string)
    requires c != QUOTE && c != BACKSLASH && (quoted || !Blank(c))
    ensures ReadArgument([c] + rest, quoted, acc) == ReadArgument(rest, quoted, acc + [c])
  {
    assert ([c] + rest)[1..] == rest;
  }

  /** A run of backslashes that no quote follows. */
  lemma ReadRun(n: nat, t: string, quoted: bool, acc: string)
    requires n > 0 && (t == "" || (t[0] != QUOTE && t[0] != BACKSLASH))
    ensures ReadArgument(Backslashes(n) + t, quoted, acc) == ReadArgument(t, quoted, acc + Backslashes(n))
  {
    var s := Backslashes(n) + t;
    LeadingOf(n, t);
    assert s[n..] == t && s[0] == BACKSLASH;
    assert n < |s| ==> s[n] == t[0];
  }

  /** The escaped text, its closing quote and a boundary: the argument is read back. */
  lemma {:induction false} ReadEscaped(arg: string, rest: string, acc: string)
    requires Boundary(rest)
    ensures ReadArgument(Escaped(arg) + [QUOTE] + rest, true, acc) == ReadArgument(rest, false, acc + arg)
    decreases |arg|
  {
    hide ReadArgument;
    var n := Leading(arg);
    if n == |arg| {
      assert arg == Backslashes(n);
      ReadClosing(n, rest, acc);
    } else {
      var c, more := arg[n], arg[n + 1..];
      ReadEscaped(more, rest, acc + Backslashes(n) + [c]);
      ReadEscapedStep(n, c, Escaped(more), rest, acc);
      Regroup(arg, n, acc);
    }
  }

  lemma LeadingPrefix(arg: string)
    ensures arg[..Leading(arg)] == Backslashes(Leading(arg))
  {
  }

  lemma SplitAt(arg: string, n: nat)
    requires n < |arg|
    ensures arg == arg[..n] + [arg[n]] + arg[n + 1..]
  {
  }

  lemma Regroup(arg: string, n: nat, acc: string)
    requires n == Leading(arg) < |arg|
    ensures acc + Backslashes(n) + [arg[n]] + arg[n + 1..] == acc + arg
  {
    hide Backslashes, Leading;
    LeadingPrefix(arg);
    SplitAt(arg, n);
    Reassociate(acc, arg[..n], arg[n], arg[n + 1..]);
  }

  lemma ReadEscapedStep(n: nat, c: char, more: string, rest: string, acc: string)
    requires c != BACKSLASH
    ensures ReadArgument(Before(n, c) + [c] + more + [QUOTE] + rest, true, acc) ==
      ReadArgument(more + [QUOTE] + rest, true, acc + Backslashes(n) + [c])
  {
    hide ReadArgument;
    var e := Before(n, c);
    assert e + [c] + more + [QUOTE] + rest == e + [c] + (more + [QUOTE] + rest);
    if c == QUOTE {
      ReadEscapedQuote(n, more + [QUOTE] + rest, acc);
    } else {
      ReadOrdinary(n, c, more + [QUOTE] + rest, true, acc);
    }
  }

  /** Text without blanks and quotes is read as it is. */
  lemma {:induction false} ReadPlain(arg: string, rest: string, acc: string)
    requires Boundary(rest) && forall i | 0 <= i < |arg| :: Plain(arg[i])
    ensures ReadArgument(arg + rest, false, acc) == ReadArgument(rest, false, acc + arg)
    decreases |arg|
  {
    hide ReadArgument;
    var n := Leading(arg);
    assert arg[..n] == Backslashes(n);
    if n == |arg| {
      assert arg == Backslashes(n);
      ReadTrailing(n, rest, acc);
    } else {
      var c, more := arg[n], arg[n + 1..];
      assert arg == Backslashes(n) + [c] + more;
      assert arg + rest == Backslashes(n) + [c] + (more + rest);
      ReadOrdinary(n, c, more + rest, false, acc);
      ReadPlain(more, rest, acc + Backslashes(n) + [c]);
      assert acc + Backslashes(n) + [c] + more == acc + arg;
    }
  }

  lemma ReadTrailing(n: nat, rest: string, acc: string)
    requires Boundary(rest)
    ensures ReadArgument(Backslashes(n) + rest, false, acc) == ReadArgument(rest, false, acc + Backslashes(n))
  {
    hide ReadArgument;
    if n == 0 {
      assert Backslashes(n) + rest == rest && acc + Backslashes(n) == acc;
    } else {
      ReadRun(n, rest, false, acc);
    }
  }

  lemma ReadOpening(s: string)
    ensures ReadArgument([QUOTE] + s, false, "") == ReadArgument(s, true, "")
  {
    var t := [QUOTE] + s;
    assert t[1..] == s && "" + Backslashes(0) == "";
  }

  lemma ReadNothing(rest: string, acc: string)
    requires Boundary(rest)
    ensures ReadArgument(rest, false, acc) == (acc, rest)
  {
  }

  lemma ReadQuoted(arg: string, rest: string)
    requires Boundary(rest)
    ensures ReadArgument(Quoted(arg) + rest, false, "") == (arg, rest)
    ensures !Blank(Quoted(arg)[0])
  {
    hide ReadArgument, Escaped;
    assert "" + arg == arg;
    ReadNothing(rest, arg);
    if NeedsNoQuotes(arg) {
      ReadPlain(arg, rest, "");
      assert Plain(arg[0]);
    } else {
      assert Quoted(arg) + rest == [QUOTE] + (Escaped(arg) + [QUOTE] + rest);
      ReadOpening(Escaped(arg) + [QUOTE] + rest);
      ReadEscaped(arg, rest, "");
    }
  }

  /** Splitting the joined line gives back exactly the arguments. */
  lemma {:induction false} SplitJoined(args: seq<string>)
    ensures Split(Joined(args)) == args
    ensures Split([SPACE] + Joined(args)) == args
  {
    hide ReadArgument, Quoted, Split;
    SplitNothing();
    if args == [] {
      assert [SPACE] + "" == [SPACE];
    } else {
      var rest := if |args| == 1 then "" else [SPACE] + Joined(args[1..]);
      ReadQuoted(args[0], rest);
      SplitStep(Quoted(args[0]) + rest, args[0], rest);
      if |args| > 1 {
        SplitJoined(args[1..]);
        assert Joined(args) == Quoted(args[0]) + rest;
      } else {
        assert Joined(args) == Quoted(args[0]) + rest;
      }
      assert args == [args[0]] + args[1..];
    }
  }

  lemma SplitNothing()
    ensures Split("") == [] && Split([SPACE]) == []
  {
    assert [SPACE][1..] == "";
  }

  /** One argument is split off, whether a blank stands before it or not. */
  lemma SplitStep(s: string, arg: string, rest: string)
    requires s != "" && !Blank(s[0]) && ReadArgument(s, false, "") == (arg, rest)
    ensures Split(s) == Split([SPACE] + s) == [arg] + Split(rest)
  {
    hide ReadArgument;
    assert ([SPACE] + s)[1..] == s;
    assert SkipBlanks(s) == s && SkipBlanks([SPACE] + s) == s;
  }

  // ---- as written ----

  method FindFirstOfWhitespace(arg: string) returns (found: bool)
    ensures found <==> exists i :: 0 <= i < |arg| && !Plain(arg[i])
  {
    for i := 0 to |arg|
      invariant forall j | 0 <= j < i :: Plain(arg[j])
    {
      if !Plain(arg[i]) { return true; }
    }
    return false;
  }

  /** The quoting loop: count backslashes, then look at what they precede. */
  method AppendEscaped(ret: string, arg: string) returns (r: string)
    ensures r == ret + Escaped(arg)
  {
    hide Escaped;
    r := ret;
    var at := 0;
    assert arg[0..] == arg;
    while true
      invariant at <= |arg| && r + Escaped(arg[at..]) == ret + Escaped(arg)
      decreases |arg| - at
    {
      var start := at;
      while at < |arg| && arg[at] == BACKSLASH
        invariant start <= at <= |arg|
        invariant forall k | start <= k < at :: arg[k] == BACKSLASH
      {
        at := at + 1;
      }
      var n := at - start;
      LeadingIs(arg[start..], n);
      EscapedStep(arg[start..], n, r);
      if at == |arg| {
        r := r + Backslashes(n * 2);
        return;
      } else if arg[at] == QUOTE {
        r := r + Backslashes(n * 2 + 1);
      } else {
        r := r + Backslashes(n);
      }
      r := r + [arg[at]];
      at := at + 1;
      assert arg[start..][n + 1..] == arg[at..];
    }
  }

  lemma EscapedStep(s: string, n: nat, r: string)
    requires n == Leading(s)
    ensures n == |s| ==> r + Escaped(s) == r + Backslashes(n * 2)
    ensures n < |s| ==> r + Escaped(s) == r + Before(n, s[n]) + [s[n]] + Escaped(s[n + 1..])
  {
    hide Backslashes, Leading, Before, Escaped;
    EscapedUnfold(s, n);
    if n < |s| {
      Reassociate(r, Before(n, s[n]), s[n], Escaped(s[n + 1..]));
    }
  }

  lemma EscapedUnfold(s: string, n: nat)
    requires n == Leading(s)
    ensures n == |s| ==> Escaped(s) == Backslashes(n * 2)
    ensures n < |s| ==> Escaped(s) == Before(n, s[n]) + [s[n]] + Escaped(s[n + 1..])
  {
    hide Backslashes, Leading, Before;
  }

  lemma Reassociate(a: string, b: string, c: char, d: string)
    ensures a + (b + [c] + d) == a + b + [c] + d
  {
  }

  lemma LeadingIs(s: string, n: nat)
    requires n <= |s| && (forall k | 0 <= k < n :: s[k] == BACKSLASH) && (n < |s| ==> s[n] != BACKSLASH)
    ensures Leading(s) == n
  {
  }

  method Join(args: seq<string>) returns (ret: string)
    ensures ret == Joined(args)
    ensures Split(ret) == args
  {
    hide Split, Quoted;
    ret := "";
    for i := 0 to |args|
      invariant ret == Joined(args[..i])
    {
      JoinedPush(args[..i], args[i]);
      assert args[..i + 1] == args[..i] + [args[i]];
      if ret != "" {
        ret := ret + [SPACE];
      }
      var q := QuoteOne(args[i]);
      ret := ret + q;
    }
    assert args[..|args|] == args;
    SplitJoined(args);
  }

  method QuoteOne(arg: string) returns (q: string)
    ensures q == Quoted(arg)
  {
    var found := FindFirstOfWhitespace(arg);
    if arg != "" && !found {
      return arg;
    }
    q := AppendEscaped([QUOTE], arg);
    q := q + [QUOTE];
  }
}
