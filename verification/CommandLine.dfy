/**
 * Windows command lines: the quoting that the launcher applies, and the argument rules of the
 * Microsoft C runtime that take the text apart again.
 */
module CommandLine {
  import opened Prelude

  // ---- Building --------------------------------------------------------------------------------

  predicate NeedsQuotes(arg: string) {
    arg == "" || exists i :: 0 <= i < |arg| && (IsWhitespace(arg[i]) || arg[i] == '"')
  }

  /** `"\\".repeat(n)`. */
  function Slashes(n: nat): string {
    if n == 0 then "" else "\\" + Slashes(n - 1)
  }

  /** The text after the opening quote when `pending` backslashes have been read but not written. */
  function Body(s: string, pending: nat): string
    decreases |s|
  {
    if s == "" then Slashes(pending * 2) + "\""
    else if s[0] == '\\' then Body(s[1..], pending + 1)
    else if s[0] == '"' then Slashes(pending * 2 + 1) + "\"" + Body(s[1..], 0)
    else Slashes(pending) + [s[0]] + Body(s[1..], 0)
  }

  function Quoted(arg: string): string {
    if NeedsQuotes(arg) then "\"" + Body(arg, 0) else arg
  }

  function Joined(argv: seq<string>): string {
    if argv == [] then ""
    else if |argv| == 1 then Quoted(argv[0])
    else Quoted(argv[0]) + " " + Joined(argv[1..])
  }

  /** `quote_windows_argument`, character by character. */
  method QuoteWindowsArgument(argument: string) returns (out: string)
    ensures out == Quoted(argument)
  {
    if !NeedsQuotes(argument) {
      return argument;
    }
    out := "\"";
    var slashes := 0;
    for i := 0 to |argument|
      invariant slashes >= 0
      invariant out + Body(argument[i..], slashes) == "\"" + Body(argument, 0)
    {
      var c := argument[i];
      assert argument[i..][1..] == argument[i + 1..];
      if c == '\\' {
        slashes := slashes + 1;
      } else if c == '"' {
        out := out + (Slashes(slashes * 2 + 1) + "\"");
        slashes := 0;
      } else {
        out := out + (Slashes(slashes) + [c]);
        slashes := 0;
      }
    }
    assert argument[|argument|..] == "";
    out := out + Slashes(slashes * 2) + "\"";
  }

  /** `build_windows_command_line`; the terminating NUL is the caller's zero unit. */
  method BuildWindowsCommandLine(argv: seq<string>) returns (r: Option<string>)
    ensures r.None? <==> exists i :: 0 <= i < |argv| && '\0' in argv[i]
    ensures r.Some? ==> r.value == Joined(argv) + "\0"
  {
    if exists i :: 0 <= i < |argv| && '\0' in argv[i] {
      return None;
    }
    var text := JoinQuoted(argv);
    return Some(text + "\0");
  }

  /** What joining still has to append after the first `k` arguments. */
  function JoinRest(argv: seq<string>, k: nat): string
    requires k <= |argv|
  {
    if k == |argv| then "" else " " + Joined(argv[k..])
  }

  lemma RestStep(argv: seq<string>, k: nat)
    requires k < |argv|
    ensures JoinRest(argv, k) == " " + Quoted(argv[k]) + JoinRest(argv, k + 1)
  {
    hide Quoted;
    assert argv[k..][1..] == argv[k + 1..];
    if k + 1 == |argv| {
      assert Joined(argv[k..]) == Quoted(argv[k]);
      assert " " + Quoted(argv[k]) + "" == " " + Quoted(argv[k]);
    } else {
      var rest := Joined(argv[k + 1..]);
      assert Joined(argv[k..]) == Quoted(argv[k]) + " " + rest;
      Continue(Quoted(argv[k]), rest);
    }
  }

  lemma Continue(quoted: string, rest: string)
    ensures " " + (quoted + " " + rest) == " " + quoted + (" " + rest)
  {
  }

  lemma FirstJoined(argv: seq<string>)
    requires argv != []
    ensures Joined(argv) == Quoted(argv[0]) + JoinRest(argv, 1)
  {
    hide Quoted;
    var first := Quoted(argv[0]);
    if |argv| > 1 {
      var rest := Joined(argv[1..]);
      assert first + " " + rest == first + (" " + rest);
    } else {
      assert first + "" == first;
    }
  }

  /** Quoting every argument and joining with single spaces. */
  method JoinQuoted(argv: seq<string>) returns (text: string)
    ensures text == Joined(argv)
  {
    hide Quoted, JoinRest, Joined;
    if argv == [] {
      EmptyJoined();
      return "";
    }
    text := QuoteWindowsArgument(argv[0]);
    FirstJoined(argv);
    for k := 1 to |argv|
      invariant text + JoinRest(argv, k) == Joined(argv)
    {
      var quoted := QuoteWindowsArgument(argv[k]);
      RestStep(argv, k);
      assert text + (" " + quoted + JoinRest(argv, k + 1)) == text + " " + quoted + JoinRest(argv, k + 1);
      text := text + " " + quoted;
    }
    NothingRests(argv);
  }

  lemma EmptyJoined()
    ensures Joined([]) == ""
  {
  }

  lemma NothingRests(argv: seq<string>)
    ensures JoinRest(argv, |argv|) == ""
  {
  }

  /** Quoting keeps a quote at both ends and never shortens. */
  lemma {:induction false} BodyShape(s: string, pending: nat)
    ensures |Body(s, pending)| >= |s| + pending + 1
    ensures Body(s, pending)[|Body(s, pending)| - 1] == '"'
    decreases |s|
  {
    SlashCount(pending);
    SlashCount(pending * 2);
    SlashCount(pending * 2 + 1);
    if s != "" {
      BodyShape(s[1..], if s[0] == '\\' then pending + 1 else 0);
    }
  }

  lemma {:induction false} SlashCount(n: nat)
    ensures |Slashes(n)| == n
  {
    if n > 0 {
      SlashCount(n - 1);
    }
  }

  /** The characters that Unicode counts as white space, and the quote. */
  const SPECIAL: set<int> :=
    {9, 10, 11, 12, 13, 32, 34, 133, 160, 5760, 8192, 8193, 8194, 8195, 8196, 8197, 8198, 8199, 8200, 8201, 8202,
     8232, 8233, 8239, 8287, 12288}

  /** An argument is left as it is exactly when it has a character and none is special; otherwise quotes enclose it. */
  lemma QuotedExactly(arg: string)
    ensures Quoted(arg) == arg <==> arg != "" && forall i | 0 <= i < |arg| :: arg[i] as int !in SPECIAL
    ensures Quoted(arg) != arg ==>
              |Quoted(arg)| >= |arg| + 2 && Quoted(arg)[0] == '"' && Quoted(arg)[|Quoted(arg)| - 1] == '"'
  {
    hide IsWhitespace;
    BodyShape(arg, 0);
    forall i | 0 <= i < |arg|
      ensures arg[i] as int in SPECIAL <==> IsWhitespace(arg[i]) || arg[i] == '"'
    {
      SpecialExactly(arg[i]);
    }
  }

  lemma SpecialExactly(c: char)
    ensures c as int in SPECIAL <==> IsWhitespace(c) || c == '"'
  {
  }

  // ---- Taking apart ----------------------------------------------------------------------------

  datatype Parsed = Parsed(arg: string, rest: string)

  predicate IsBlank(c: char) {
    c == ' ' || c == '\t'
  }

  function Prepend(t: string, p: Parsed): Parsed {
    Parsed(t + p.arg, p.rest)
  }

  /**
   * One argument after the program name. `pending` backslashes precede `s`. Before a quote each pair
   * of them stands for one and an odd one makes the quote literal; elsewhere they stand for
   * themselves. With `doubled`, a pair of quotes inside a quoted part is one literal quote.
   */
  function ParseArgument(s: string, quoted: bool, pending: nat, doubled: bool): (p: Parsed)
    ensures |p.rest| <= |s|
    ensures s != "" && !IsBlank(s[0]) ==> |p.rest| < |s|
    decreases |s|
  {
    if s == "" then Parsed(Slashes(pending), "")
    else if s[0] == '\\' then ParseArgument(s[1..], quoted, pending + 1, doubled)
    else if s[0] == '"' then
      if pending % 2 == 1 then Prepend(Slashes(pending / 2) + "\"", ParseArgument(s[1..], quoted, 0, doubled))
      else if quoted && doubled && |s| > 1 && s[1] == '"' then
        Prepend(Slashes(pending / 2) + "\"", ParseArgument(s[2..], true, 0, doubled))
      else Prepend(Slashes(pending / 2), ParseArgument(s[1..], !quoted, 0, doubled))
    else if IsBlank(s[0]) && !quoted then Parsed(Slashes(pending), s)
    else Prepend(Slashes(pending) + [s[0]], ParseArgument(s[1..], quoted, 0, doubled))
  }

  function ParseArguments(s: string, doubled: bool): seq<string>
    decreases |s|
  {
    if s == "" then []
    else if IsBlank(s[0]) then ParseArguments(s[1..], doubled)
    else
      var p := ParseArgument(s, false, 0, doubled);
      [p.arg] + ParseArguments(p.rest, doubled)
  }

  /** The program name: quotes only switch whether blanks end it, and nothing escapes them. */
  function ParseProgram(s: string, quoted: bool): (p: Parsed)
    ensures |p.rest| <= |s|
    ensures '"' !in p.arg
  {
    if s == "" then Parsed("", "")
    else if s[0] == '"' then ParseProgram(s[1..], !quoted)
    else if IsBlank(s[0]) && !quoted then Parsed("", s)
    else Prepend([s[0]], ParseProgram(s[1..], quoted))
  }

  function ParseCommandLine(s: string, doubled: bool): seq<string> {
    var p := ParseProgram(s, false);
    [p.arg] + ParseArguments(p.rest, doubled)
  }

  // ---- Arguments come back as they were --------------------------------------------------------

  /** What follows an argument in a built command line. */
  predicate Follows(rest: string) {
    rest == "" || rest[0] == ' '
  }

  lemma {:induction false} SlashesShape(n: nat)
    ensures |Slashes(n)| == n && forall c | c in Slashes(n) :: c == '\\'
  {
    if n > 0 {
      SlashesShape(n - 1);
    }
  }

  lemma {:induction false} SlashesAdd(a: nat, b: nat)
    ensures Slashes(a) + Slashes(b) == Slashes(a + b)
  {
    if a > 0 {
      SlashesAdd(a - 1, b);
    } else {
      assert "" + Slashes(b) == Slashes(b);
    }
  }

  lemma {:induction false} SlashesPend(k: nat, t: string, quoted: bool, pending: nat, doubled: bool)
    ensures ParseArgument(Slashes(k) + t, quoted, pending, doubled) == ParseArgument(t, quoted, pending + k, doubled)
    decreases k
  {
    if k == 0 {
      assert Slashes(0) + t == t;
    } else {
      assert (Slashes(k) + t)[1..] == Slashes(k - 1) + t;
      SlashesPend(k - 1, t, quoted, pending + 1, doubled);
    }
  }

  lemma QuoteEnds(pending: nat, rest: string, doubled: bool)
    requires Follows(rest)
    ensures ParseArgument("\"" + rest, true, pending * 2, doubled) == Parsed(Slashes(pending), rest)
  {
    hide Slashes;
    var s := "\"" + rest;
    assert s[1..] == rest;
    assert Slashes(0) == "" by { NoSlashes(""); }
    assert ParseArgument(rest, false, 0, doubled) == Parsed("", rest);
    assert Slashes(pending) + "" == Slashes(pending);
  }

  lemma QuoteEscaped(pending: nat, t: string, doubled: bool)
    ensures ParseArgument("\"" + t, true, pending * 2 + 1, doubled) ==
            Prepend(Slashes(pending) + "\"", ParseArgument(t, true, 0, doubled))
  {
    assert ("\"" + t)[1..] == t;
    assert (pending * 2 + 1) % 2 == 1 && (pending * 2 + 1) / 2 == pending;
  }

  lemma PlainCharacter(c: char, pending: nat, t: string, doubled: bool)
    requires c != '"' && c != '\\'
    ensures ParseArgument([c] + t, true, pending, doubled) ==
            Prepend(Slashes(pending) + [c], ParseArgument(t, true, 0, doubled))
  {
    assert ([c] + t)[1..] == t;
  }

  lemma BodyCases(s: string, pending: nat)
    ensures s == "" ==> Body(s, pending) == Slashes(pending * 2) + "\""
    ensures s != "" && s[0] == '\\' ==> Body(s, pending) == Body(s[1..], pending + 1)
    ensures s != "" && s[0] == '"' ==> Body(s, pending) == Slashes(pending * 2 + 1) + "\"" + Body(s[1..], 0)
    ensures s != "" && s[0] != '\\' && s[0] != '"' ==> Body(s, pending) == Slashes(pending) + [s[0]] + Body(s[1..], 0)
  {
  }

  lemma Regroup(a: string, b: string, c: string, d: string)
    ensures a + b + c + d == a + (b + (c + d))
  {
    assert a + b + c + d == a + (b + c + d);
    assert b + c + d == b + (c + d);
  }

  lemma BodyEnds(pending: nat, rest: string, doubled: bool)
    requires Follows(rest)
    ensures ParseArgument(Body("", pending) + rest, true, 0, doubled) == Parsed(Slashes(pending), rest)
  {
    hide ParseArgument, Slashes;
    assert Body("", pending) + rest == Slashes(pending * 2) + ("\"" + rest);
    SlashesPend(pending * 2, "\"" + rest, true, 0, doubled);
    QuoteEnds(pending, rest, doubled);
  }

  lemma BodyQuote(t: string, pending: nat, rest: string, doubled: bool, after: string)
    requires ParseArgument(after + rest, true, 0, doubled) == Parsed(t, rest)
    ensures ParseArgument(Slashes(pending * 2 + 1) + "\"" + after + rest, true, 0, doubled) ==
            Parsed(Slashes(pending) + "\"" + t, rest)
  {
    hide ParseArgument, Slashes;
    Regroup(Slashes(pending * 2 + 1), "\"", after, rest);
    SlashesPend(pending * 2 + 1, "\"" + (after + rest), true, 0, doubled);
    QuoteEscaped(pending, after + rest, doubled);
  }

  lemma BodyPlain(c: char, t: string, pending: nat, rest: string, doubled: bool, after: string)
    requires c != '"' && c != '\\'
    requires ParseArgument(after + rest, true, 0, doubled) == Parsed(t, rest)
    ensures ParseArgument(Slashes(pending) + [c] + after + rest, true, 0, doubled) ==
            Parsed(Slashes(pending) + [c] + t, rest)
  {
    hide ParseArgument, Slashes;
    Regroup(Slashes(pending), [c], after, rest);
    SlashesPend(pending, [c] + (after + rest), true, 0, doubled);
    PlainCharacter(c, pending, after + rest, doubled);
  }

  lemma {:induction false} BodyParses(s: string, pending: nat, rest: string, doubled: bool)
    requires Follows(rest)
    ensures ParseArgument(Body(s, pending) + rest, true, 0, doubled) == Parsed(Slashes(pending) + s, rest)
    decreases |s|
  {
    hide ParseArgument, Body, Slashes, Follows;
    if s == "" {
      BodyEnds(pending, rest, doubled);
      assert Slashes(pending) + s == Slashes(pending);
    } else if s[0] == '\\' {
      BodyParses(s[1..], pending + 1, rest, doubled);
      SlashMoves(s, pending);
      BodyCases(s, pending);
    } else {
      BodyParses(s[1..], 0, rest, doubled);
      NoSlashes(s[1..]);
      BodyCases(s, pending);
      BodyStep(s, pending, rest, doubled, Body(s[1..], 0));
    }
  }

  lemma BodyStep(s: string, pending: nat, rest: string, doubled: bool, after: string)
    requires s != "" && s[0] != '\\'
    requires ParseArgument(after + rest, true, 0, doubled) == Parsed(s[1..], rest)
    ensures var text := if s[0] == '"' then Slashes(pending * 2 + 1) + "\"" + after
                        else Slashes(pending) + [s[0]] + after;
            ParseArgument(text + rest, true, 0, doubled) == Parsed(Slashes(pending) + s, rest)
  {
    hide ParseArgument, Slashes;
    assert Slashes(pending) + [s[0]] + s[1..] == Slashes(pending) + s;
    if s[0] == '"' {
      BodyQuote(s[1..], pending, rest, doubled, after);
    } else {
      BodyPlain(s[0], s[1..], pending, rest, doubled, after);
    }
  }

  lemma NoSlashes(s: string)
    ensures Slashes(0) + s == s
  {
  }

  lemma SlashMoves(s: string, pending: nat)
    requires s != "" && s[0] == '\\'
    ensures Slashes(pending + 1) + s[1..] == Slashes(pending) + s
  {
    SlashesAdd(pending, 1);
    assert Slashes(1) + s[1..] == s;
    assert Slashes(pending) + Slashes(1) + s[1..] == Slashes(pending) + (Slashes(1) + s[1..]);
  }

  predicate Plain(s: string) {
    forall i | 0 <= i < |s| :: !IsBlank(s[i]) && s[i] != '"'
  }

  lemma NothingLeft(pending: nat, rest: string, doubled: bool)
    requires Follows(rest)
    ensures ParseArgument(rest, false, pending, doubled) == Parsed(Slashes(pending), rest)
  {
  }

  lemma PlainStep(c: char, t: string, pending: nat, doubled: bool)
    requires !IsBlank(c) && c != '"'
    ensures ParseArgument([c] + t, false, pending, doubled) ==
            if c == '\\' then ParseArgument(t, false, pending + 1, doubled)
            else Prepend(Slashes(pending) + [c], ParseArgument(t, false, 0, doubled))
  {
    assert ([c] + t)[1..] == t;
  }

  lemma {:induction false} PlainParses(s: string, pending: nat, rest: string, doubled: bool)
    requires Plain(s) && Follows(rest)
    ensures ParseArgument(s + rest, false, pending, doubled) == Parsed(Slashes(pending) + s, rest)
    decreases |s|
  {
    hide Slashes, ParseArgument;
    if s == "" {
      NothingLeft(pending, rest, doubled);
      assert s + rest == rest && Slashes(pending) + s == Slashes(pending);
    } else {
      PlainStep(s[0], s[1..] + rest, pending, doubled);
      assert s + rest == [s[0]] + (s[1..] + rest);
      if s[0] == '\\' {
        PlainParses(s[1..], pending + 1, rest, doubled);
        SlashMoves(s, pending);
      } else {
        PlainParses(s[1..], 0, rest, doubled);
        NoSlashes(s[1..]);
        assert Slashes(pending) + [s[0]] + s[1..] == Slashes(pending) + s;
      }
    }
  }

  lemma UnquotedIsPlain(arg: string)
    requires !NeedsQuotes(arg)
    ensures Plain(arg) && arg != "" && '"' !in arg
  {
  }

  /** One quoted argument is read back exactly, under either variant of the rules. */
  lemma ArgumentRoundTrip(arg: string, rest: string, doubled: bool)
    requires Follows(rest)
    ensures ParseArgument(Quoted(arg) + rest, false, 0, doubled) == Parsed(arg, rest)
    ensures Quoted(arg) != "" && !IsBlank(Quoted(arg)[0])
  {
    hide ParseArgument, Body, Slashes, IsWhitespace, NeedsQuotes, Follows;
    NoSlashes(arg);
    if NeedsQuotes(arg) {
      BodyParses(arg, 0, rest, doubled);
      ArgumentOpens(Body(arg, 0) + rest, doubled);
      assert "\"" + Body(arg, 0) + rest == "\"" + (Body(arg, 0) + rest);
    } else {
      UnquotedIsPlain(arg);
      PlainParses(arg, 0, rest, doubled);
    }
  }

  lemma ArgumentOpens(t: string, doubled: bool)
    ensures ParseArgument("\"" + t, false, 0, doubled) == ParseArgument(t, true, 0, doubled)
  {
    assert ("\"" + t)[1..] == t;
    assert Slashes(0) == "";
    var p := ParseArgument(t, true, 0, doubled);
    assert "" + p.arg == p.arg;
  }

  lemma {:induction false} ArgumentsRoundTrip(argv: seq<string>, doubled: bool)
    ensures ParseArguments(Joined(argv), doubled) == argv
  {
    hide ParseArgument, Quoted;
    if argv != [] {
      var rest := if |argv| == 1 then "" else " " + Joined(argv[1..]);
      assert Joined(argv) == Quoted(argv[0]) + rest;
      ArgumentRoundTrip(argv[0], rest, doubled);
      if |argv| > 1 {
        ArgumentsRoundTrip(argv[1..], doubled);
        assert rest[1..] == Joined(argv[1..]);
      }
      assert argv == [argv[0]] + argv[1..];
    }
  }

  // ---- The program name ------------------------------------------------------------------------

  /** Program names that survive: no quote, and no trailing backslash if they have to be quoted. */
  predicate ProgramNameOk(name: string) {
    '"' !in name && (NeedsQuotes(name) && name != "" ==> name[|name| - 1] != '\\')
  }

  function TrailingSlashes(s: string): (n: nat)
    ensures n <= |s|
    ensures n > 0 <==> s != "" && s[|s| - 1] == '\\'
  {
    if s == "" || s[|s| - 1] != '\\' then 0 else 1 + TrailingSlashes(s[..|s| - 1])
  }

  lemma TrailingSnoc(s: string)
    ensures TrailingSlashes(s + "\\") == 1 + TrailingSlashes(s)
  {
    assert (s + "\\")[..|s|] == s;
  }

  lemma SlashesSnoc(n: nat)
    ensures Slashes(n) + "\\" == Slashes(n + 1)
  {
    SlashesAdd(n, 1);
    assert Slashes(1) == "\\" + Slashes(0) == "\\";
  }

  lemma {:induction false} TrailingOfSlashes(n: nat)
    ensures TrailingSlashes(Slashes(n)) == n
  {
    hide Slashes, TrailingSlashes;
    if n == 0 {
      TrailingOfNone();
    } else {
      TrailingOfSlashes(n - 1);
      SlashesSnoc(n - 1);
      TrailingSnoc(Slashes(n - 1));
    }
  }

  lemma TrailingOfNone()
    ensures TrailingSlashes(Slashes(0)) == 0
  {
  }

  lemma {:induction false} TrailingAfter(s: string, t: string)
    requires t != "" && t[0] != '\\'
    ensures TrailingSlashes(s + t) == TrailingSlashes(t)
    decreases |t|
  {
    var u := s + t;
    if t[|t| - 1] == '\\' {
      assert u[..|u| - 1] == s + t[..|t| - 1];
      TrailingAfter(s, t[..|t| - 1]);
    }
  }

  /** Without quotes inside, the quoted text is the argument with its trailing backslashes doubled. */
  lemma {:induction false} BodyWithoutQuotes(s: string, pending: nat)
    requires '"' !in s
    ensures Body(s, pending) == Slashes(pending) + s + Slashes(TrailingSlashes(Slashes(pending) + s)) + "\""
    decreases |s|
  {
    hide Body, Slashes, TrailingSlashes;
    BodyCases(s, pending);
    if s == "" {
      assert Slashes(pending) + s == Slashes(pending);
      TrailingOfSlashes(pending);
      SlashesAdd(pending, pending);
    } else if s[0] == '\\' {
      BodyWithoutQuotes(s[1..], pending + 1);
      SlashMoves(s, pending);
    } else {
      BodyWithoutQuotes(s[1..], 0);
      NoSlashes(s[1..]);
      TrailingAfter(Slashes(pending), s);
      TrailingOfTail(s);
      Reassemble(Slashes(pending), s, Slashes(TrailingSlashes(s[1..])));
    }
  }

  lemma Reassemble(front: string, s: string, padding: string)
    requires s != ""
    ensures front + [s[0]] + (s[1..] + padding + "\"") == front + s + padding + "\""
  {
    assert [s[0]] + s[1..] == s;
    assert [s[0]] + (s[1..] + padding + "\"") == s + padding + "\"";
  }

  lemma {:induction false} TrailingOfTail(s: string)
    requires s != "" && s[0] != '\\'
    ensures TrailingSlashes(s) == TrailingSlashes(s[1..])
    decreases |s|
  {
    if s[|s| - 1] == '\\' {
      TrailingOfTail(s[..|s| - 1]);
      assert s[..|s| - 1][1..] == s[1..][..|s| - 2];
    }
  }

  lemma {:induction false} QuotedProgram(s: string, rest: string)
    requires '"' !in s && Follows(rest)
    ensures ParseProgram(s + "\"" + rest, true) == Parsed(s, rest)
  {
    if s == "" {
      assert s + "\"" + rest == "\"" + rest;
      assert ("\"" + rest)[1..] == rest;
    } else {
      QuotedProgram(s[1..], rest);
      assert (s + "\"" + rest)[1..] == s[1..] + "\"" + rest;
      assert [s[0]] + s[1..] == s;
    }
  }

  lemma {:induction false} PlainProgram(s: string, rest: string)
    requires Plain(s) && Follows(rest)
    ensures ParseProgram(s + rest, false) == Parsed(s, rest)
  {
    if s == "" {
      assert s + rest == rest;
    } else {
      PlainProgram(s[1..], rest);
      assert (s + rest)[1..] == s[1..] + rest;
      assert [s[0]] + s[1..] == s;
    }
  }

  /** A quote-free program name comes back with its trailing backslashes doubled if it was quoted. */
  lemma ProgramParses(name: string, rest: string)
    requires '"' !in name && Follows(rest)
    ensures ParseProgram(Quoted(name) + rest, false) ==
            Parsed(if NeedsQuotes(name) then name + Slashes(TrailingSlashes(name)) else name, rest)
  {
    hide ParseProgram, Body, Slashes, IsWhitespace, NeedsQuotes, TrailingSlashes;
    if NeedsQuotes(name) {
      var padding := Slashes(TrailingSlashes(name));
      BodyWithoutQuotes(name, 0);
      NoSlashes(name);
      SlashesShape(TrailingSlashes(name));
      QuotedProgram(name + padding, rest);
      ProgramOpens(name + padding + "\"" + rest);
      assert Quoted(name) + rest == "\"" + (name + padding + "\"" + rest);
    } else {
      UnquotedIsPlain(name);
      PlainProgram(name, rest);
    }
  }

  lemma ProgramOpens(t: string)
    ensures ParseProgram("\"" + t, false) == ParseProgram(t, true)
  {
    assert ("\"" + t)[1..] == t;
  }

  /**
   * The round trip, exactly: under either variant of the rules the command line gives back the
   * argument vector if and only if the program name has no quote and, if quoted, no trailing backslash.
   */
  lemma CommandLineRoundTrip(argv: seq<string>, doubled: bool)
    requires argv != []
    ensures ParseCommandLine(Joined(argv), doubled) == argv <==> ProgramNameOk(argv[0])
  {
    hide ParseArgument, Quoted, ParseArguments;
    var name := argv[0];
    var rest := if |argv| == 1 then "" else " " + Joined(argv[1..]);
    assert Joined(argv) == Quoted(name) + rest;
    if '"' !in name {
      ProgramParses(name, rest);
      ArgumentsRoundTrip(argv[1..], doubled);
      BlankSkipped(rest, argv[1..], doubled);
      assert argv == [name] + argv[1..];
      SlashesShape(TrailingSlashes(name));
      if NeedsQuotes(name) {
        assert |name + Slashes(TrailingSlashes(name))| == |name| + TrailingSlashes(name);
        if TrailingSlashes(name) == 0 {
          assert name + Slashes(0) == name;
        }
      }
    }
  }

  lemma BlankSkipped(rest: string, tail: seq<string>, doubled: bool)
    requires rest == if tail == [] then "" else " " + Joined(tail)
    ensures ParseArguments(rest, doubled) == ParseArguments(Joined(tail), doubled)
  {
    hide ParseArgument, Quoted;
    if tail != [] {
      assert rest[1..] == Joined(tail);
    }
  }
}
