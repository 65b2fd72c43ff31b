/** The option field in front of a key, as the "AUTHORIZED_KEYS FILE FORMAT" section of sshd(8) lays it out:
    options separated by commas, values in double quotes, a quote inside a value behind a backslash, and no blank
    outside quotes. */
module SshdOptions {
  import opened Wrappers
  import opened Text

  /** What a backslash inside quotes takes the meaning from: the quote alone, as sshd has it, or a backslash too. */
  datatype Dequoting = QuoteOnly | QuoteAndBackslash

  datatype Opt = Flag(name: string) | Setting(name: string, value: string)

  /** A line that is read: its options, and the rest from the key on. */
  datatype Permit = Permit(options: seq<Opt>, key: string)

  predicate OptionChar(c: char) { 'a' <= c <= 'z' || 'A' <= c <= 'Z' || c == '-' }

  predicate OptionName(name: string) { name != "" && forall i :: 0 <= i < |name| ==> OptionChar(name[i]) }

  function NameLength(s: string): (n: nat)
    ensures n <= |s|
  {
    if s == "" || !OptionChar(s[0]) then 0 else 1 + NameLength(s[1..])
  }

  predicate Escaped(rule: Dequoting, s: string) {
    |s| >= 2 && s[0] == '\\' && (s[1] == '"' || (rule.QuoteAndBackslash? && s[1] == '\\'))
  }

  /** A quoted value from behind its opening quote: the value, and what follows the closing quote. */
  function Dequoted(rule: Dequoting, s: string): (r: Option<(string, string)>)
    ensures r.Some? ==> |r.value.1| < |s|
    decreases |s|
  {
    if s == "" then None
    else if s[0] == '"' then Some(("", s[1..]))
    else
      var n := if Escaped(rule, s) then 2 else 1;
      match Dequoted(rule, s[n..])
      case None => None
      case Some((value, rest)) => Some(([s[n - 1]] + value, rest))
  }

  function ReadOption(rule: Dequoting, s: string): (r: Option<(Opt, string)>)
    ensures r.Some? ==> |r.value.1| < |s|
  {
    var n := NameLength(s);
    if n == 0 then None
    else if n == |s| || s[n] != '=' then Some((Flag(s[..n]), s[n..]))
    else if n + 1 < |s| && s[n + 1] == '"' then
      match Dequoted(rule, s[n + 2..])
      case None => None
      case Some((value, rest)) => Some((Setting(s[..n], value), rest))
    else None
  }

  function Before(o: Opt, more: Option<(seq<Opt>, string)>): Option<(seq<Opt>, string)> {
    if more.None? then None else Some(([o] + more.value.0, more.value.1))
  }

  /** Options up to the first blank outside quotes. */
  function ReadOptions(rule: Dequoting, s: string): Option<(seq<Opt>, string)>
    decreases |s|
  {
    match ReadOption(rule, s)
    case None => None
    case Some((o, rest)) =>
      if rest == "" || rest[0] == ' ' || rest[0] == '\t' then Some(([o], rest))
      else if rest[0] != ',' then None
      else
        Before(o, ReadOptions(rule, rest[1..]))
  }

  function SkipBlanks(s: string): string {
    if s != "" && (s[0] == ' ' || s[0] == '\t') then SkipBlanks(s[1..]) else s
  }

  /** A line that starts with options. */
  function Reads(rule: Dequoting, line: string): Option<Permit> {
    match ReadOptions(rule, SkipBlanks(line))
    case None => None
    case Some((options, rest)) => Some(Permit(options, SkipBlanks(rest)))
  }

  lemma NoBlankToSkip(s: string)
    requires s != "" && s[0] != ' ' && s[0] != '\t'
    ensures SkipBlanks(s) == s
  {
  }

  lemma OneBlankToSkip(s: string)
    ensures SkipBlanks(" " + s) == SkipBlanks(s)
  {
    assert (" " + s)[1..] == s;
  }

  /** The patterns of a value that is a list. */
  function Patterns(value: string): seq<string> {
    if value == "" then [""]
    else if value[0] == ',' then [""] + Patterns(value[1..])
    else
      var rest := Patterns(value[1..]);
      if rest == [] then [] else [[value[0]] + rest[0]] + rest[1..]
  }

  // ---------------------------------------------------------------- values that are read as they stand

  predicate Unquoted(s: string) { '"' !in s && '\\' !in s }

  lemma {:induction false} PlainValue(rule: Dequoting, v: string, t: string)
    requires Unquoted(v)
    ensures Dequoted(rule, v + ("\"" + t)) == Some((v, t))
  {
    var s := v + ("\"" + t);
    if v == "" {
      assert s == "\"" + t && s[1..] == t;
    } else {
      assert s[1..] == v[1..] + ("\"" + t);
      PlainValue(rule, v[1..], t);
      assert [v[0]] + v[1..] == v;
    }
  }

  function Then(c: char, r: Option<(string, string)>): Option<(string, string)> {
    if r.None? then None else Some(([c] + r.value.0, r.value.1))
  }

  lemma PlainCharacter(rule: Dequoting, c: char, s: string)
    requires c != '"' && !Escaped(rule, [c] + s)
    ensures Dequoted(rule, [c] + s) == Then(c, Dequoted(rule, s))
  {
    assert ([c] + s)[1..] == s;
  }

  lemma EscapedCharacter(rule: Dequoting, c: char, s: string)
    requires Escaped(rule, ['\\', c] + s)
    ensures Dequoted(rule, ['\\', c] + s) == Then(c, Dequoted(rule, s))
  {
    assert (['\\', c] + s)[2..] == s;
  }

  /** Without a quote to end it a value is not read. */
  lemma {:induction false} UnendedValue(rule: Dequoting, s: string)
    requires '"' !in s
    ensures Dequoted(rule, s) == None
    decreases |s|
  {
    if s != "" { UnendedValue(rule, s[if Escaped(rule, s) then 2 else 1..]); }
  }

  /** By sshd's rule two backslashes are two characters, and the second takes the meaning from a quote behind. */
  lemma TwoBackslashes(s: string)
    requires s != "" && s[0] != '"'
    ensures Dequoted(QuoteOnly, ['\\', '\\'] + s) == Then('\\', Then('\\', Dequoted(QuoteOnly, s)))
  {
    var s1 := ['\\'] + s;
    assert ['\\', '\\'] + s == ['\\'] + s1;
    hide Dequoted;
    PlainCharacter(QuoteOnly, '\\', s1);
    PlainCharacter(QuoteOnly, '\\', s);
  }

  lemma TwoBackslashesAndQuote(t: string)
    requires '"' !in t
    ensures Dequoted(QuoteOnly, ['\\', '\\', '"'] + t) == None
  {
    var s1 := ['\\', '"'] + t;
    assert ['\\', '\\', '"'] + t == ['\\'] + s1;
    hide Dequoted;
    PlainCharacter(QuoteOnly, '\\', s1);
    EscapedCharacter(QuoteOnly, '"', t);
    UnendedValue(QuoteOnly, t);
  }

  lemma {:induction false} NameIsRead(name: string, rest: string)
    requires forall i :: 0 <= i < |name| ==> OptionChar(name[i])
    requires rest == "" || !OptionChar(rest[0])
    ensures NameLength(name + rest) == |name|
  {
    if name == "" {
      assert name + rest == rest;
    } else {
      assert (name + rest)[1..] == name[1..] + rest;
      NameIsRead(name[1..], rest);
    }
  }

  /** A setting whose quoted text reads as `value`. */
  lemma SettingIsRead(rule: Dequoting, name: string, quoted: string, value: string, rest: string)
    requires OptionName(name)
    requires Dequoted(rule, quoted) == Some((value, rest))
    ensures ReadOption(rule, name + ("=\"" + quoted)) == Some((Setting(name, value), rest))
  {
    var s := name + ("=\"" + quoted);
    NameIsRead(name, "=\"" + quoted);
    assert s[..|name|] == name && s[|name|] == '=' && s[|name| + 1] == '"' && s[|name| + 2..] == quoted;
  }

  /** A setting whose quoted text never ends is not read, and neither is the line. */
  lemma SettingIsRefused(rule: Dequoting, name: string, quoted: string)
    requires OptionName(name)
    requires Dequoted(rule, quoted) == None
    ensures ReadOption(rule, name + ("=\"" + quoted)) == None
  {
    var s := name + ("=\"" + quoted);
    NameIsRead(name, "=\"" + quoted);
    assert s[..|name|] == name && s[|name|] == '=' && s[|name| + 1] == '"' && s[|name| + 2..] == quoted;
  }

  lemma FlagIsRead(rule: Dequoting, name: string, rest: string)
    requires OptionName(name)
    requires rest != "" && !OptionChar(rest[0]) && rest[0] != '='
    ensures ReadOption(rule, name + rest) == Some((Flag(name), rest))
  {
    NameIsRead(name, rest);
    assert (name + rest)[..|name|] == name && (name + rest)[|name|..] == rest;
  }

  lemma LastOption(rule: Dequoting, s: string, o: Opt, rest: string)
    requires ReadOption(rule, s) == Some((o, rest)) && rest != "" && rest[0] == ' '
    ensures ReadOptions(rule, s) == Some(([o], rest))
  {
  }

  lemma OptionThenMore(rule: Dequoting, s: string, o: Opt, rest: string)
    requires ReadOption(rule, s) == Some((o, "," + rest))
    ensures ReadOptions(rule, s) == Before(o, ReadOptions(rule, rest))
  {
    hide ReadOption;
    assert ("," + rest)[1..] == rest;
  }

  lemma FlagThenMore(rule: Dequoting, name: string, rest: string)
    requires OptionName(name)
    ensures ReadOptions(rule, name + ("," + rest)) == Before(Flag(name), ReadOptions(rule, rest))
  {
    FlagIsRead(rule, name, "," + rest);
    OptionThenMore(rule, name + ("," + rest), Flag(name), rest);
  }

  lemma SettingThenMore(rule: Dequoting, name: string, value: string, rest: string)
    requires OptionName(name) && Unquoted(value)
    ensures ReadOptions(rule, name + ("=\"" + (value + ("\"" + ("," + rest)))))
            == Before(Setting(name, value), ReadOptions(rule, rest))
  {
    var quoted := value + ("\"" + ("," + rest));
    PlainValue(rule, value, "," + rest);
    SettingIsRead(rule, name, quoted, value, "," + rest);
    OptionThenMore(rule, name + ("=\"" + quoted), Setting(name, value), rest);
  }

  /** A setting that comes last: read if its quoted text is, refused if not. */
  lemma LastSetting(rule: Dequoting, name: string, quoted: string)
    requires OptionName(name)
    requires var r := Dequoted(rule, quoted); r.Some? ==> r.value.1 != "" && r.value.1[0] == ' '
    ensures ReadOptions(rule, name + ("=\"" + quoted)) ==
            var r := Dequoted(rule, quoted);
            if r.None? then None else Some(([Setting(name, r.value.0)], r.value.1))
  {
    var r := Dequoted(rule, quoted);
    if r.None? {
      SettingIsRefused(rule, name, quoted);
    } else {
      SettingIsRead(rule, name, quoted, r.value.0, r.value.1);
      LastOption(rule, name + ("=\"" + quoted), Setting(name, r.value.0), r.value.1);
    }
  }

  lemma {:induction false} OnePattern(v: string)
    requires ',' !in v
    ensures Patterns(v) == [v]
  {
    if v != "" {
      OnePattern(v[1..]);
      assert [v[0]] + v[1..] == v;
    }
  }

  lemma {:induction false} TwoPatterns(v: string, w: string)
    requires ',' !in v && ',' !in w
    ensures Patterns(v + ("," + w)) == [v, w]
  {
    var s := v + ("," + w);
    if v == "" {
      assert s == "," + w && s[1..] == w;
      OnePattern(w);
    } else {
      assert s[1..] == v[1..] + ("," + w);
      TwoPatterns(v[1..], w);
      assert [v[0]] + v[1..] == v;
    }
  }
}
