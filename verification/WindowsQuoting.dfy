/** The Windows command line FleetJob assembles, and what the C runtime on the far side makes of it, by
    Microsoft's documented CommandLineToArgvW / C runtime rules. */
module WindowsQuoting {
  import opened Wrappers
  import opened ShellQuoting

  // ---------------------------------------------------------------- the quoting side

  function Slashes(n: nat): (r: string)
    ensures |r| == n && forall i :: 0 <= i < n ==> r[i] == '\\'
  {
    if n == 0 then "" else Slashes(n - 1) + "\\"
  }

  /** The rest of a quoted argument, with `k` backslashes read but not yet written. */
  function QuotedBody(s: string, k: nat): string {
    if s == "" then Slashes(2 * k) + "\""
    else if s[0] == '\\' then QuotedBody(s[1..], k + 1)
    else if s[0] == '"' then Slashes(2 * k + 1) + "\"" + QuotedBody(s[1..], 0)
    else Slashes(k) + [s[0]] + QuotedBody(s[1..], 0)
  }

  function Quoted(s: string): string { "\"" + QuotedBody(s, 0) }

  /** FleetJob.Quote: one pass with a slash counter and a string builder. */
  method Quote(s: string) returns (b: string)
    ensures b == Quoted(s)
  {
    b := "\"";
    var slashes := 0;
    for i := 0 to |s|
      invariant b + QuotedBody(s[i..], slashes) == Quoted(s)
    {
      var c := s[i];
      assert s[i..][0] == c && s[i..][1..] == s[i + 1..];
      if c == '\\' {
        slashes := slashes + 1;
      } else {
        b := b + Slashes(if c == '"' then slashes * 2 + 1 else slashes) + [c];
        slashes := 0;
      }
    }
    b := b + Slashes(slashes * 2) + "\"";
  }

  function Tail(args: seq<string>): string {
    if args == [] then "" else " " + Quoted(args[0]) + Tail(args[1..])
  }

  function CommandLine(exe: string, args: seq<string>): string { Quoted(exe) + Tail(args) }

  /** `string.Length`: UTF-16 code units. */
  function Units(s: string): nat {
    if s == "" then 0 else (if s[0] as int >= 0x10000 then 2 else 1) + Units(s[1..])
  }

  /** How many characters of `s` take two units. */
  function Astral(s: string): nat {
    if s == "" then 0 else Astral(s[..|s| - 1]) + if s[|s| - 1] as int > 0xFFFF then 1 else 0
  }

  lemma {:induction false} UnitsJoin(a: string, b: string)
    ensures Units(a + b) == Units(a) + Units(b)
  {
    if a == "" {
      assert a + b == b;
    } else {
      assert (a + b)[1..] == a[1..] + b;
      UnitsJoin(a[1..], b);
    }
  }

  /** The length of a string is its characters, and one more for each outside the basic plane. */
  lemma {:induction false} UnitsCount(s: string)
    ensures Units(s) == |s| + Astral(s)
  {
    if s != "" {
      var n := |s| - 1;
      UnitsCount(s[..n]);
      UnitsJoin(s[..n], [s[n]]);
      assert s == s[..n] + [s[n]];
    }
  }

  const MAX_COMMAND_UNITS := 32767

  lemma {:induction false} TailLast(args: seq<string>, a: string)
    ensures Tail(args + [a]) == Tail(args) + " " + Quoted(a)
  {
    hide Quoted;
    if args == [] {
      assert (args + [a])[1..] == [];
    } else {
      TailLast(args[1..], a);
      assert (args + [a])[1..] == args[1..] + [a];
      OneMoreWord(" " + Quoted(args[0]), Tail(args[1..]), Quoted(a));
    }
  }

  lemma OneMoreWord(h: string, t: string, q: string)
    ensures h + (t + " " + q) == h + t + " " + q
  {
  }

  /** The assembly loop of Run: it throws on a command line CreateProcess cannot take. */
  method Assemble(exe: string, args: seq<string>) returns (r: Result<string, ()>)
    ensures r == if Units(CommandLine(exe, args)) >= MAX_COMMAND_UNITS then Err(()) else Ok(CommandLine(exe, args))
  {
    var cmd := Quote(exe);
    for i := 0 to |args|
      invariant cmd == CommandLine(exe, args[..i])
    {
      var q := Quote(args[i]);
      TailLast(args[..i], args[i]);
      assert args[..i + 1] == args[..i] + [args[i]];
      cmd := cmd + " " + q;
    }
    assert args[..|args|] == args;
    r := if Units(cmd) >= MAX_COMMAND_UNITS then Err(()) else Ok(cmd);
  }

  // ---------------------------------------------------------------- the runtime's side

  /** The number of backslashes `s` starts with. */
  function Leading(s: string): (n: nat)
    ensures n <= |s| && s[..n] == Slashes(n) && (n < |s| ==> s[n] != '\\')
  {
    if s == "" || s[0] != '\\' then 0
    else
      var n := Leading(s[1..]);
      assert s[..n + 1] == [s[0]] + s[1..][..n];
      1 + n
  }

  datatype OneArg = OneArg(value: string, rest: string)

  /** One argument, read up to the blank that ends it. Backslashes are literal unless a run of them meets
      a double quote: then each pair is one backslash and an odd one escapes the quote. A pair of quotes
      inside a quoted part is one quote. */
  function ReadArg(s: string, inQuotes: bool, acc: string): (r: OneArg)
    ensures |r.rest| <= |s|
    ensures s != "" && (inQuotes || !IsBlank(s[0])) ==> |r.rest| < |s|
    decreases |s|
  {
    var n := Leading(s);
    if n == |s| then OneArg(acc + Slashes(n), "")
    else if s[n] == '"' then
      if n % 2 == 1 then ReadArg(s[n + 1..], inQuotes, acc + Slashes(n / 2) + "\"")
      else if inQuotes && n + 1 < |s| && s[n + 1] == '"' then ReadArg(s[n + 2..], inQuotes, acc + Slashes(n / 2) + "\"")
      else ReadArg(s[n + 1..], !inQuotes, acc + Slashes(n / 2))
    else if !inQuotes && IsBlank(s[n]) then OneArg(acc + Slashes(n), s[n..])
    else ReadArg(s[n + 1..], inQuotes, acc + Slashes(n) + [s[n]])
  }

  function ReadArgs(s: string): seq<string>
    decreases |s|
  {
    if s == "" then []
    else if IsBlank(s[0]) then ReadArgs(s[1..])
    else
      var a := ReadArg(s, false, "");
      [a.value] + ReadArgs(a.rest)
  }

  function AfterQuote(s: string): string {
    if s == "" then "" else if s[0] == '"' then s[1..] else AfterQuote(s[1..])
  }

  function AfterBlank(s: string): string {
    if s == "" || IsBlank(s[0]) then s else AfterBlank(s[1..])
  }

  /** How the program name is told from the arguments; neither way knows escapes. CommandLineToArgvW ends a
      name that opens with a quote at the next one, and any other at a blank. The C runtime lets quotes toggle
      and ends the name at the first blank outside them. */
  datatype ProgramRule = ArgvW | CRuntime

  function AfterToggled(s: string, inQuotes: bool): string {
    if s == "" then ""
    else if s[0] == '"' then AfterToggled(s[1..], !inQuotes)
    else if !inQuotes && IsBlank(s[0]) then s
    else AfterToggled(s[1..], inQuotes)
  }

  /** What follows the program name. */
  function AfterProgram(rule: ProgramRule, s: string): string {
    match rule
    case ArgvW => if s != "" && s[0] == '"' then AfterQuote(s[1..]) else AfterBlank(s)
    case CRuntime => AfterToggled(s, false)
  }

  /** The arguments after the program name of a command line, which ends at its first NUL. */
  function RuntimeReads(rule: ProgramRule, command: string): seq<string> {
    ReadArgs(AfterProgram(rule, UpToNul(command)))
  }

  // ---------------------------------------------------------------- the round trip

  lemma LeadingExact(n: nat, rest: string)
    requires rest != "" && rest[0] != '\\'
    ensures Leading(Slashes(n) + rest) == n
  {
    var s := Slashes(n) + rest;
    assert s[n] == rest[0];
    if Leading(s) > n {
      assert s[..Leading(s)][n] == Slashes(Leading(s))[n];
    }
  }

  /** One step of the reader: a run of backslashes and the character it meets. */
  lemma ReadStep(n: nat, c: char, u: string, inQuotes: bool, acc: string)
    requires c != '\\'
    requires c == '"' && n % 2 == 0 ==> !(inQuotes && u != "" && u[0] == '"')
    requires c != '"' ==> inQuotes
    ensures ReadArg(Slashes(n) + ([c] + u), inQuotes, acc) ==
            if c != '"' then ReadArg(u, inQuotes, acc + Slashes(n) + [c])
            else if n % 2 == 1 then ReadArg(u, inQuotes, acc + Slashes(n / 2) + "\"")
            else ReadArg(u, !inQuotes, acc + Slashes(n / 2))
  {
    var s := Slashes(n) + ([c] + u);
    LeadingExact(n, [c] + u);
    assert s[n] == c && s[n + 1..] == u;
  }

  lemma ClosingQuote(k: nat, rest: string)
    ensures QuotedBody("", k) + rest == Slashes(2 * k) + (['"'] + rest)
  {
    hide Slashes;
  }

  lemma ClosingQuoteIsRead(k: nat, rest: string, acc: string)
    requires rest == "" || IsBlank(rest[0])
    ensures ReadArg(QuotedBody("", k) + rest, true, acc) == OneArg(acc + Slashes(k), rest)
  {
    hide QuotedBody, ReadArg, Slashes;
    ClosingQuote(k, rest);
    ReadStep(2 * k, '"', rest, true, acc);
    assert 2 * k / 2 == k && 2 * k % 2 == 0;
    EndOfArg(rest, acc + Slashes(k));
  }

  /** Reading back the quoted form of one argument, from inside its quotes. */
  lemma {:induction false} QuotedBodyIsRead(s: string, k: nat, rest: string, acc: string)
    requires rest == "" || IsBlank(rest[0])
    ensures ReadArg(QuotedBody(s, k) + rest, true, acc) == OneArg(acc + Slashes(k) + s, rest)
    decreases |s|
  {
    if s == "" {
      ClosingQuoteIsRead(k, rest, acc);
      assert acc + Slashes(k) + s == acc + Slashes(k);
    } else if s[0] == '\\' {
      hide ReadArg;
      QuotedBodyIsRead(s[1..], k + 1, rest, acc);
      Regroup(acc + Slashes(k), s);
      assert acc + Slashes(k + 1) == acc + Slashes(k) + [s[0]];
    } else {
      hide ReadArg, QuotedBody;
      QuotedCharIsRead(s, k, rest, acc);
      QuotedBodyIsRead(s[1..], 0, rest, acc + Slashes(k) + [s[0]]);
      Regroup(acc + Slashes(k), s);
      assert acc + Slashes(k) + [s[0]] + Slashes(0) == acc + Slashes(k) + [s[0]];
    }
  }

  lemma Regroup(acc: string, s: string)
    requires s != ""
    ensures acc + [s[0]] + s[1..] == acc + s
  {
  }

  lemma QuotedCharIsRead(s: string, k: nat, rest: string, acc: string)
    requires s != "" && s[0] != '\\'
    ensures ReadArg(QuotedBody(s, k) + rest, true, acc)
            == ReadArg(QuotedBody(s[1..], 0) + rest, true, acc + Slashes(k) + [s[0]])
  {
    var body := QuotedBody(s[1..], 0);
    var u := body + rest;
    if s[0] == '"' {
      Reassociate(Slashes(2 * k + 1), '"', body, rest);
      ReadStep(2 * k + 1, '"', u, true, acc);
      assert (2 * k + 1) / 2 == k;
    } else {
      Reassociate(Slashes(k), s[0], body, rest);
      ReadStep(k, s[0], u, true, acc);
    }
  }

  lemma Reassociate(a: string, c: char, b: string, rest: string)
    ensures a + [c] + b + rest == a + ([c] + (b + rest))
  {
  }

  lemma EndOfArg(rest: string, acc: string)
    requires rest == "" || IsBlank(rest[0])
    ensures ReadArg(rest, false, acc) == OneArg(acc, rest)
  {
    assert acc + Slashes(0) == acc;
    if rest != "" { LeadingExact(0, rest); assert Slashes(0) + rest == rest; }
  }

  /** A quoted argument is read back whole, up to the blank behind it. */
  lemma QuotedIsRead(a: string, rest: string)
    requires rest == "" || IsBlank(rest[0])
    ensures ReadArg(Quoted(a) + rest, false, "") == OneArg(a, rest)
  {
    var body := QuotedBody(a, 0) + rest;
    assert Quoted(a) + rest == Slashes(0) + (['"'] + body);
    ReadStep(0, '"', body, false, "");
    assert "" + Slashes(0) == "";
    QuotedBodyIsRead(a, 0, rest, "");
    assert "" + Slashes(0) + a == a;
  }

  lemma ReadArgsStep(a: string, rest: string)
    requires rest == "" || IsBlank(rest[0])
    ensures ReadArgs(Quoted(a) + rest) == [a] + ReadArgs(rest)
  {
    QuotedIsRead(a, rest);
    assert (Quoted(a) + rest)[0] == '"';
    hide ReadArg, Quoted;
  }

  lemma BlankIsSkipped(s: string)
    ensures ReadArgs([' '] + s) == ReadArgs(s)
  {
    hide ReadArg;
    assert ([' '] + s)[1..] == s;
  }

  lemma {:induction false} TailIsRead(args: seq<string>)
    ensures ReadArgs(Tail(args)) == args
  {
    if args != [] {
      var a, rest := args[0], Tail(args[1..]);
      TailIsRead(args[1..]);
      assert Tail(args) == [' '] + (Quoted(a) + rest);
      BlankIsSkipped(Quoted(a) + rest);
      ReadArgsStep(a, rest);
      hide ReadArgs, Quoted;
      assert [a] + args[1..] == args;
    }
  }

  lemma {:induction false} BodyWithoutQuote(s: string, k: nat, rest: string)
    requires '"' !in s
    ensures AfterQuote(QuotedBody(s, k) + rest) == rest
    decreases |s|
  {
    var t := QuotedBody(s, k) + rest;
    if s == "" {
      assert t == Slashes(2 * k) + ("\"" + rest);
      SkipSlashes(2 * k, "\"" + rest);
    } else if s[0] == '\\' {
      BodyWithoutQuote(s[1..], k + 1, rest);
    } else {
      var u := QuotedBody(s[1..], 0) + rest;
      assert t == Slashes(k) + ([s[0]] + u);
      SkipSlashes(k, [s[0]] + u);
      BodyWithoutQuote(s[1..], 0, rest);
    }
  }

  lemma {:induction false} SkipSlashes(n: nat, rest: string)
    ensures AfterQuote(Slashes(n) + rest) == AfterQuote(rest)
  {
    if n == 0 {
      assert Slashes(0) + rest == rest;
    } else {
      SkipSlashes(n - 1, rest);
      assert (Slashes(n) + rest)[1..] == Slashes(n - 1) + rest;
    }
  }

  lemma {:induction false} BodyNulFree(s: string, k: nat)
    requires '\0' !in s
    ensures '\0' !in QuotedBody(s, k)
    decreases |s|
  {
    if s != "" { BodyNulFree(s[1..], if s[0] == '\\' then k + 1 else 0); }
  }

  lemma {:induction false} TailNulFree(args: seq<string>)
    requires NulFree(args)
    ensures '\0' !in Tail(args)
  {
    if args != [] {
      BodyNulFree(args[0], 0);
      TailNulFree(args[1..]);
    }
  }

  lemma {:induction false} ReadArgNulFree(s: string, inQuotes: bool, acc: string)
    requires '\0' !in s && '\0' !in acc
    ensures '\0' !in ReadArg(s, inQuotes, acc).value && '\0' !in ReadArg(s, inQuotes, acc).rest
    decreases |s|
  {
    var n := Leading(s);
    if n < |s| {
      if s[n] == '"' {
        ReadArgNulFree(s[n + 1..], inQuotes, acc + Slashes(n / 2) + "\"");
        ReadArgNulFree(s[n + 1..], !inQuotes, acc + Slashes(n / 2));
        if n + 1 < |s| { ReadArgNulFree(s[n + 2..], inQuotes, acc + Slashes(n / 2) + "\""); }
      } else {
        ReadArgNulFree(s[n + 1..], inQuotes, acc + Slashes(n) + [s[n]]);
      }
    }
  }

  lemma {:induction false} ReadArgsNulFree(s: string)
    requires '\0' !in s
    ensures NulFree(ReadArgs(s))
    decreases |s|
  {
    if s != "" {
      if IsBlank(s[0]) {
        ReadArgsNulFree(s[1..]);
      } else {
        ReadArgNulFree(s, false, "");
        ReadArgsNulFree(ReadArg(s, false, "").rest);
      }
    }
  }

  lemma {:induction false} AfterQuoteIsSuffix(s: string)
    ensures |AfterQuote(s)| <= |s| && AfterQuote(s) == s[|s| - |AfterQuote(s)|..]
  {
    if s != "" && s[0] != '"' { AfterQuoteIsSuffix(s[1..]); }
  }

  lemma {:induction false} ToggledIsSuffix(s: string, inQuotes: bool)
    ensures var r := AfterToggled(s, inQuotes); |r| <= |s| && r == s[|s| - |r|..]
  {
    if s != "" {
      ToggledIsSuffix(s[1..], !inQuotes);
      ToggledIsSuffix(s[1..], inQuotes);
    }
  }

  lemma {:induction false} SlashesToggleNothing(n: nat, rest: string)
    ensures AfterToggled(Slashes(n) + rest, true) == AfterToggled(rest, true)
  {
    if n == 0 {
      assert Slashes(0) + rest == rest;
    } else {
      SlashesToggleNothing(n - 1, rest);
      assert (Slashes(n) + rest)[1..] == Slashes(n - 1) + rest;
    }
  }

  lemma {:induction false} ToggledBody(s: string, k: nat, rest: string)
    requires '"' !in s
    ensures AfterToggled(QuotedBody(s, k) + rest, true) == AfterToggled(rest, false)
    decreases |s|
  {
    var t := QuotedBody(s, k) + rest;
    if s == "" {
      assert t == Slashes(2 * k) + (['"'] + rest);
      SlashesToggleNothing(2 * k, ['"'] + rest);
      assert (['"'] + rest)[1..] == rest;
    } else if s[0] == '\\' {
      ToggledBody(s[1..], k + 1, rest);
    } else {
      var u := QuotedBody(s[1..], 0) + rest;
      assert t == Slashes(k) + ([s[0]] + u);
      SlashesToggleNothing(k, [s[0]] + u);
      assert ([s[0]] + u)[1..] == u;
      ToggledBody(s[1..], 0, rest);
    }
  }

  /** Both rules find the end of a quoted path that holds no quote. */
  lemma ProgramIsRead(rule: ProgramRule, exe: string, args: seq<string>)
    requires '"' !in exe
    ensures AfterProgram(rule, CommandLine(exe, args)) == Tail(args)
  {
    var command := CommandLine(exe, args);
    assert command[1..] == QuotedBody(exe, 0) + Tail(args);
    match rule
    case ArgvW => BodyWithoutQuote(exe, 0, Tail(args));
    case CRuntime =>
      ToggledBody(exe, 0, Tail(args));
      if args != [] { assert Tail(args)[0] == ' '; }
  }

  lemma ProgramNulFree(rule: ProgramRule, s: string)
    requires '\0' !in s
    ensures '\0' !in AfterProgram(rule, s)
  {
    match rule
    case ArgvW =>
      if s != "" { AfterQuoteIsSuffix(s[1..]); }
      AfterBlankIsSuffix(s);
    case CRuntime => ToggledIsSuffix(s, false);
  }

  lemma {:induction false} AfterBlankIsSuffix(s: string)
    ensures |AfterBlank(s)| <= |s| && AfterBlank(s) == s[|s| - |AfterBlank(s)|..]
  {
    if s != "" && !IsBlank(s[0]) { AfterBlankIsSuffix(s[1..]); }
  }

  /** Windows quoting is undone. Behind the path of an existing file, which holds neither a double quote nor a
      NUL, the far side reads back exactly the argument list, by either program-name rule, for exactly the lists
      that hold no NUL. */
  lemma RuntimeUndoesQuoting(rule: ProgramRule, exe: string, args: seq<string>)
    requires '"' !in exe && '\0' !in exe
    ensures RuntimeReads(rule, CommandLine(exe, args)) == args <==> NulFree(args)
  {
    var command := CommandLine(exe, args);
    if NulFree(args) {
      BodyNulFree(exe, 0);
      TailNulFree(args);
      UpToNulWhole(command);
      ProgramIsRead(rule, exe, args);
      TailIsRead(args);
    }
    UpToNulHasNone(command);
    ProgramNulFree(rule, UpToNul(command));
    ReadArgsNulFree(AfterProgram(rule, UpToNul(command)));
  }

  /** Why the path must hold no quote: by CommandLineToArgvW's rule it ends the name early, and already an empty
      argument list comes back as something else. The code only ever passes the path of a file it has found, and
      Windows file names hold none. */
  lemma QuoteInProgramPathIsMisread(exe: string)
    requires '"' in exe && '\0' !in exe
    ensures RuntimeReads(ArgvW, CommandLine(exe, [])) != []
  {
    var command := CommandLine(exe, []);
    assert command == Quoted(exe);
    BodyNulFree(exe, 0);
    UpToNulWhole(command);
    assert command[1..] == QuotedBody(exe, 0);
    LeftoverAfterQuote(exe, 0);
    ReadsSomething(AfterQuote(QuotedBody(exe, 0)));
  }

  /** The two rules differ there: the C runtime's takes all of a quoted `a"b` for the name. */
  lemma CRuntimeReadsAQuoteInTheName()
    ensures RuntimeReads(CRuntime, CommandLine("a\"b", [])) == []
  {
    var command := CommandLine("a\"b", []);
    QuotedQuote();
    hide QuotedBody, Quoted, CommandLine;
    UpToNulWhole(command);
    assert AfterToggled("", true) == "";
    assert AfterToggled("\"", false) == "";
    assert AfterToggled("b\"", false) == "";
    assert AfterToggled("\"b\"", true) == "";
    assert AfterToggled("\\\"b\"", true) == "";
    assert AfterToggled("a\\\"b\"", true) == "";
    assert AfterToggled(command, false) == "";
  }

  lemma QuotedQuote()
    ensures CommandLine("a\"b", []) == "\"a\\\"b\""
  {
    assert QuotedBody("b", 0) == "b" + QuotedBody("", 0) == "b\"";
    assert Slashes(1) == "\\";
    assert QuotedBody("\"b", 0) == "\\\"" + QuotedBody("b", 0) == "\\\"b\"";
    assert QuotedBody("a\"b", 0) == "a" + QuotedBody("\"b", 0) == "a\\\"b\"";
  }

  lemma {:induction false} LeftoverAfterQuote(s: string, k: nat)
    requires '"' in s
    ensures AfterQuote(QuotedBody(s, k)) != ""
    ensures !IsBlank(AfterQuote(QuotedBody(s, k))[|AfterQuote(QuotedBody(s, k))| - 1])
    decreases |s|
  {
    if s[0] == '\\' {
      LeftoverAfterQuote(s[1..], k + 1);
    } else {
      var u := QuotedBody(s[1..], 0);
      var n := if s[0] == '"' then 2 * k + 1 else k;
      assert QuotedBody(s, k) == Slashes(n) + ([s[0]] + u);
      SkipSlashes(n, [s[0]] + u);
      assert ([s[0]] + u)[1..] == u;
      if s[0] == '"' { BodyEndsInQuote(s[1..], 0); } else { LeftoverAfterQuote(s[1..], 0); }
    }
  }

  lemma {:induction false} BodyEndsInQuote(s: string, k: nat)
    ensures QuotedBody(s, k) != "" && QuotedBody(s, k)[|QuotedBody(s, k)| - 1] == '"'
    decreases |s|
  {
    if s != "" { BodyEndsInQuote(s[1..], if s[0] == '\\' then k + 1 else 0); }
  }

  lemma {:induction false} ReadsSomething(s: string)
    requires s != "" && !IsBlank(s[|s| - 1])
    ensures ReadArgs(s) != []
  {
    if IsBlank(s[0]) { ReadsSomething(s[1..]); }
  }
}
