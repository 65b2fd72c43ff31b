/** The POSIX command line the origin hands to ssh, and what the shell on the far side makes of it:
    token recognition and quote removal as in sections 2.2.2, 2.2.3 and 2.3 of the Shell Command Language
    of POSIX.1-2017. */
module ShellQuoting {
  import opened Wrappers
  import opened Text

  // ---------------------------------------------------------------- the quoting side

  /** The content of the quotes: each single quote leaves them, is written in double quotes, and
      re-enters. */
  function Escaped(s: string): string {
    if s == "" then ""
    else (if s[0] == '\'' then "'\"'\"'" else [s[0]]) + Escaped(s[1..])
  }

  function ShellQuote(s: string): string { "'" + Escaped(s) + "'" }

  function QuoteAll(words: seq<string>): seq<string> {
    if words == [] then [] else [ShellQuote(words[0])] + QuoteAll(words[1..])
  }

  function JoinSpace(words: seq<string>): string {
    if words == [] then ""
    else if |words| == 1 then words[0]
    else words[0] + " " + JoinSpace(words[1..])
  }

  function Utf8Length(s: string): nat {
    if s == "" then 0
    else
      var n := s[0] as int;
      (if n < 0x80 then 1 else if n < 0x800 then 2 else if n < 0x10000 then 3 else 4) + Utf8Length(s[1..])
  }

  /** How many characters of `s` lie at or above a code point. */
  function From(s: string, low: int): nat {
    if s == "" then 0 else From(s[..|s| - 1], low) + if s[|s| - 1] as int >= low then 1 else 0
  }

  lemma {:induction false} Utf8Join(a: string, b: string)
    ensures Utf8Length(a + b) == Utf8Length(a) + Utf8Length(b)
  {
    if a == "" {
      assert a + b == b;
    } else {
      assert (a + b)[1..] == a[1..] + b;
      Utf8Join(a[1..], b);
    }
  }

  /** One byte for each character, and one more at each of the places where UTF-8 grows. */
  lemma {:induction false} Utf8Count(s: string)
    ensures Utf8Length(s) == |s| + From(s, 0x80) + From(s, 0x800) + From(s, 0x10000)
  {
    if s != "" {
      var n := |s| - 1;
      Utf8Count(s[..n]);
      Utf8Join(s[..n], [s[n]]);
      assert s == s[..n] + [s[n]];
    }
  }

  const MAX_COMMAND_BYTES := 65536

  function RemoteWords(runner: string, timeoutSec: nat, argv: seq<string>): seq<string> {
    ["exec", "/usr/bin/perl", "-e", runner, "--", Decimal(timeoutSec)] + argv
  }

  /** The remote command of accessSshArgv for a target that is not Windows. */
  function RemoteCommand(runner: string, timeoutSec: nat, argv: seq<string>): Result<string, ()> {
    var command := JoinSpace(QuoteAll(RemoteWords(runner, timeoutSec, argv)));
    if Utf8Length(command) > MAX_COMMAND_BYTES then Err(()) else Ok(command)
  }

  // ---------------------------------------------------------------- the shell's side

  datatype Mode = Unquoted | InSingle | InDouble

  predicate IsBlank(c: char) { c == ' ' || c == '\t' }

  /** Characters that mean something to the shell unless quoted (section 2.2), quotes and blanks apart. */
  predicate IsSpecial(c: char) {
    c in {'|', '&', ';', '<', '>', '(', ')', '$', '`', '\\', '\n', '*', '?', '[', '#', '~', '=', '%', '!', '{', '}'}
  }

  function AddChar(word: Option<string>, c: char): Option<string> {
    match word
    case None => Some([c])
    case Some(w) => Some(w + [c])
  }

  /** The words of a simple command. None when the shell would do anything beyond splitting and removing
      quotes: an expansion, an operator, a comment, an unterminated quote. */
  function Words(mode: Mode, s: string, word: Option<string>): Option<seq<string>>
    decreases |s|
  {
    match mode
    case Unquoted =>
      if s == "" then Some(if word.Some? then [word.value] else [])
      else if IsBlank(s[0]) then
        (match Words(Unquoted, s[1..], None)
         case None => None
         case Some(rest) => Some((if word.Some? then [word.value] else []) + rest))
      else if s[0] == '\'' then Words(InSingle, s[1..], Some(if word.Some? then word.value else ""))
      else if s[0] == '"' then Words(InDouble, s[1..], Some(if word.Some? then word.value else ""))
      else if IsSpecial(s[0]) then None
      else Words(Unquoted, s[1..], AddChar(word, s[0]))
    case InSingle =>
      if s == "" then None
      else if s[0] == '\'' then Words(Unquoted, s[1..], word)
      else Words(InSingle, s[1..], AddChar(word, s[0]))
    case InDouble =>
      if s == "" then None
      else if s[0] == '"' then Words(Unquoted, s[1..], word)
      else if s[0] == '$' || s[0] == '`' || s[0] == '\\' then None
      else Words(InDouble, s[1..], AddChar(word, s[0]))
  }

  /** A command travels as a C string: it ends at the first NUL. */
  function UpToNul(s: string): string {
    if s == "" || s[0] == '\0' then "" else [s[0]] + UpToNul(s[1..])
  }

  function ShellReads(command: string): Option<seq<string>> { Words(Unquoted, UpToNul(command), None) }

  // ---------------------------------------------------------------- the round trip

  predicate NulFree(words: seq<string>) { forall i :: 0 <= i < |words| ==> '\0' !in words[i] }

  lemma {:induction false} QuotedRunIsRead(s: string, rest: string, acc: string)
    ensures Words(InSingle, Escaped(s) + "'" + rest, Some(acc)) == Words(Unquoted, rest, Some(acc + s))
  {
    if s == "" {
      assert Escaped(s) + "'" + rest == "'" + rest;
      assert acc + s == acc;
    } else {
      var tail := Escaped(s[1..]) + "'" + rest;
      QuotedRunIsRead(s[1..], rest, acc + [s[0]]);
      assert acc + [s[0]] + s[1..] == acc + s;
      if s[0] == '\'' {
        assert Escaped(s) + "'" + rest == "'\"'\"'" + tail;
        ReenterQuotes(tail, acc);
      } else {
        assert Escaped(s) + "'" + rest == [s[0]] + tail;
      }
    }
  }

  /** Leaving the quotes, one quoted single quote, and back in. */
  lemma ReenterQuotes(tail: string, acc: string)
    ensures Words(InSingle, "'\"'\"'" + tail, Some(acc)) == Words(InSingle, tail, Some(acc + "'"))
  {
    var s := "'\"'\"'" + tail;
    assert s[1..] == "\"'\"'" + tail;
    assert s[1..][1..] == "'\"'" + tail;
    assert s[1..][1..][1..] == "\"'" + tail;
    assert s[1..][1..][1..][1..] == "'" + tail;
    assert s[1..][1..][1..][1..][1..] == tail;
    calc {
      Words(InSingle, s, Some(acc));
      Words(Unquoted, "\"'\"'" + tail, Some(acc));
      Words(InDouble, "'\"'" + tail, Some(acc));
      Words(InDouble, "\"'" + tail, Some(acc + "'"));
      Words(Unquoted, "'" + tail, Some(acc + "'"));
      Words(InSingle, tail, Some(acc + "'"));
    }
  }

  lemma {:induction false} JoinedWordsAreRead(words: seq<string>)
    ensures Words(Unquoted, JoinSpace(QuoteAll(words)), None) == Some(words)
  {
    if words != [] {
      var w := words[0];
      var more := QuoteAll(words[1..]);
      var rest := if |words| == 1 then "" else " " + JoinSpace(more);
      assert QuoteAll(words) == [ShellQuote(w)] + more;
      assert QuoteAll(words)[1..] == more;
      assert JoinSpace(QuoteAll(words)) == "'" + (Escaped(w) + "'" + rest);
      QuotedRunIsRead(w, rest, "");
      assert "" + w == w;
      if |words| > 1 {
        JoinedWordsAreRead(words[1..]);
        assert rest[1..] == JoinSpace(more);
        assert [w] + words[1..] == words;
      } else {
        assert words == [w];
      }
    }
  }

  lemma {:induction false} UpToNulWhole(s: string)
    requires '\0' !in s
    ensures UpToNul(s) == s
  {
    if s != "" {
      UpToNulWhole(s[1..]);
      assert [s[0]] + s[1..] == s;
    }
  }

  lemma {:induction false} UpToNulHasNone(s: string)
    ensures '\0' !in UpToNul(s)
  {
    if s != "" && s[0] != '\0' { UpToNulHasNone(s[1..]); }
  }

  lemma {:induction false} EscapedNulFree(s: string)
    requires '\0' !in s
    ensures '\0' !in Escaped(s)
  {
    if s != "" { EscapedNulFree(s[1..]); }
  }

  lemma {:induction false} JoinedNulFree(words: seq<string>)
    requires NulFree(words)
    ensures '\0' !in JoinSpace(QuoteAll(words))
  {
    if words != [] {
      EscapedNulFree(words[0]);
      JoinedNulFree(words[1..]);
      assert QuoteAll(words)[1..] == QuoteAll(words[1..]);
    }
  }

  /** What the shell reads never holds a NUL it was not given. */
  lemma {:induction false} WordsNulFree(mode: Mode, s: string, word: Option<string>)
    requires '\0' !in s && (word.Some? ==> '\0' !in word.value)
    ensures Words(mode, s, word).Some? ==> NulFree(Words(mode, s, word).value)
    decreases |s|
  {
    if s != "" {
      var t := s[1..];
      match mode {
        case Unquoted =>
          if IsBlank(s[0]) {
            WordsNulFree(Unquoted, t, None);
          } else if s[0] == '\'' {
            WordsNulFree(InSingle, t, Some(if word.Some? then word.value else ""));
          } else if s[0] == '"' {
            WordsNulFree(InDouble, t, Some(if word.Some? then word.value else ""));
          } else {
            WordsNulFree(Unquoted, t, AddChar(word, s[0]));
          }
        case InSingle =>
          WordsNulFree(Unquoted, t, word);
          WordsNulFree(InSingle, t, AddChar(word, s[0]));
        case InDouble =>
          WordsNulFree(Unquoted, t, word);
          WordsNulFree(InDouble, t, AddChar(word, s[0]));
      }
    }
  }

  /** POSIX quoting is undone: the shell reads back exactly the argument list, for exactly the lists that
      hold no NUL. */
  lemma ShellUndoesQuoting(words: seq<string>)
    ensures ShellReads(JoinSpace(QuoteAll(words))) == Some(words) <==> NulFree(words)
  {
    var command := JoinSpace(QuoteAll(words));
    if NulFree(words) {
      JoinedNulFree(words);
      UpToNulWhole(command);
      JoinedWordsAreRead(words);
    }
    UpToNulHasNone(command);
    WordsNulFree(Unquoted, UpToNul(command), None);
  }

  lemma RemoteWordsNulFree(runner: string, timeoutSec: nat, argv: seq<string>)
    requires '\0' !in runner && NulFree(argv)
    ensures NulFree(RemoteWords(runner, timeoutSec, argv))
  {
    var words := RemoteWords(runner, timeoutSec, argv);
    forall i | 0 <= i < |words| ensures '\0' !in words[i] {
      if i >= 6 { assert words[i] == argv[i - 6]; }
    }
  }

  /** So the far side runs perl with the runner, the deadline and the caller's argv, each byte in place. */
  lemma RemoteArgvArrives(runner: string, timeoutSec: nat, argv: seq<string>)
    requires '\0' !in runner && NulFree(argv)
    requires RemoteCommand(runner, timeoutSec, argv).Ok?
    ensures ShellReads(RemoteCommand(runner, timeoutSec, argv).value)
            == Some(["exec", "/usr/bin/perl", "-e", runner, "--", Decimal(timeoutSec)] + argv)
  {
    RemoteWordsNulFree(runner, timeoutSec, argv);
    hide ShellReads, JoinSpace, QuoteAll, Utf8Length, NulFree;
    ShellUndoesQuoting(RemoteWords(runner, timeoutSec, argv));
  }

  /** A command is refused exactly if it is longer than 64 KiB. */
  lemma LongCommandsAreRefused(runner: string, timeoutSec: nat, argv: seq<string>)
    ensures RemoteCommand(runner, timeoutSec, argv).Err? <==>
              Utf8Length(JoinSpace(QuoteAll(["exec", "/usr/bin/perl", "-e", runner, "--", Decimal(timeoutSec)] + argv)))
              > 64 * 1024
  {
    hide JoinSpace, QuoteAll, Utf8Length;
  }
}
