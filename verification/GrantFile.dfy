/** The grants in `authorized_keys`. The file belongs to the user and holds keys for unrelated services; the
    fleet may touch only the lines that end in its own marker, one machine's at a time. */
module GrantFile {
  import opened Wrappers
  import opened PublicKey
  import opened SshdOptions
  import opened Text

  // ---------------------------------------------------------------- markers

  const MARKER_PREFIX := "# sukarfleet:"

  function Marker(machine: string): string { MARKER_PREFIX + machine }

  predicate NameChar(c: char) {
    'A' <= c <= 'Z' || 'a' <= c <= 'z' || IsDigit(c) || c == '.' || c == '_' || c == '-'
  }

  /** MACHINE_NAME_RE. */
  predicate ValidName(name: string) {
    1 <= |name| <= 64 && forall i :: 0 <= i < |name| ==> NameChar(name[i])
  }

  predicate EndsWith(s: string, t: string) { |t| <= |s| && s[|s| - |t|..] == t }

  /** `line.trimEnd().endsWith(marker)`. */
  predicate Marked(line: string, machine: string) { EndsWith(TrimEnd(line), Marker(machine)) }

  predicate Blank(line: string) { Trim(line) == "" }

  /** The '#' that opens a marker is found nowhere else in a valid name's marker, so of two markers that end
      the same text the valid name's is not the longer one. */
  lemma MarkerIsShortest(t: string, m: string, n: string)
    requires ValidName(n) && EndsWith(t, Marker(m)) && EndsWith(t, Marker(n))
    ensures |n| <= |m|
  {
    forall i | 0 < i < |Marker(n)|
      ensures Marker(n)[i] != '#'
    {
      if i >= |MARKER_PREFIX| {
        assert Marker(n)[i] == n[i - |MARKER_PREFIX|];
      }
    }
    var j := |t| - |Marker(n)|;
    assert forall i :: 0 <= i < |Marker(n)| ==> t[j + i] == t[j..][i] == Marker(n)[i];
    var k := |t| - |Marker(m)|;
    assert t[k] == t[k..][0] == '#';
    assert forall i :: j < i < |t| ==> t[i] == t[j..][i - j] == Marker(n)[i - j] != '#';
  }

  /** No valid name's marker is the end of another's: a line is marked for one machine at most. */
  lemma MarkedForOne(line: string, m: string, n: string)
    requires ValidName(m) && ValidName(n) && Marked(line, m) && Marked(line, n)
    ensures m == n
  {
    var t := TrimEnd(line);
    MarkerIsShortest(t, m, n);
    MarkerIsShortest(t, n, m);
    assert m == t[|t| - |m|..] && n == t[|t| - |n|..];
  }

  // ---------------------------------------------------------------- replacing lines

  function NonBlank(lines: seq<string>): (r: seq<string>)
    ensures forall i :: 0 <= i < |r| ==> r[i] in lines && !Blank(r[i])
  {
    if lines == [] then []
    else NonBlank(lines[..|lines| - 1]) + if Blank(lines[|lines| - 1]) then [] else [lines[|lines| - 1]]
  }

  function Unmarked(lines: seq<string>, machine: string): (r: seq<string>)
    ensures forall i :: 0 <= i < |r| ==> r[i] in lines && !Marked(r[i], machine)
  {
    if lines == [] then []
    else Unmarked(lines[..|lines| - 1], machine)
         + if Marked(lines[|lines| - 1], machine) then [] else [lines[|lines| - 1]]
  }

  /** replaceMarkedLines. */
  function ReplaceMarked(existing: string, machine: string, replacement: seq<string>): string {
    var out := Unmarked(NonBlank(Split(existing)), machine) + replacement;
    if out != [] then Join(out) + "\n" else ""
  }

  /** What a file says: its lines that are not blank. */
  function Body(text: string): (r: seq<string>)
    ensures forall i :: 0 <= i < |r| ==> '\n' !in r[i] && !Blank(r[i])
  {
    NonBlank(Split(text))
  }

  lemma {:induction false} NonBlankAll(lines: seq<string>)
    requires forall i :: 0 <= i < |lines| ==> !Blank(lines[i])
    ensures NonBlank(lines) == lines
  {
    if lines != [] {
      NonBlankAll(lines[..|lines| - 1]);
    }
  }

  /** The bytes of an edited file: the kept lines and the replacement, each ended by a newline. */
  lemma ReplacedText(existing: string, machine: string, replacement: seq<string>)
    ensures ReplaceMarked(existing, machine, replacement) == Unlines(Unmarked(Body(existing), machine) + replacement)
  {
    var out := Unmarked(Body(existing), machine) + replacement;
    if out != [] { JoinNewlineIsUnlines(out); }
  }

  /** Lines that are not blank are what a text made of them says. */
  lemma BodyOfUnlines(lines: seq<string>)
    requires forall i :: 0 <= i < |lines| ==> '\n' !in lines[i] && !Blank(lines[i])
    ensures Body(Unlines(lines)) == lines
  {
    SplitUnlines(lines);
    assert Blank("");
    assert (lines + [""])[..|lines|] == lines;
    hide Split, Unlines, Blank;
    NonBlankAll(lines);
  }

  /** Replacing drops the machine's lines, puts the replacement last, and leaves every other line as it was. */
  lemma ReplaceMarkedBody(existing: string, machine: string, replacement: seq<string>)
    requires forall i :: 0 <= i < |replacement| ==> '\n' !in replacement[i] && !Blank(replacement[i])
    ensures Body(ReplaceMarked(existing, machine, replacement)) == Unmarked(Body(existing), machine) + replacement
  {
    hide ReplaceMarked, Unlines, Body, Unmarked, Blank;
    var kept := Unmarked(Body(existing), machine);
    var out := kept + replacement;
    forall i | 0 <= i < |out| ensures '\n' !in out[i] && !Blank(out[i]) {
      if i < |kept| { assert kept[i] in Body(existing); } else { assert out[i] == replacement[i - |kept|]; }
    }
    BodyOfUnlines(out);
    ReplacedText(existing, machine, replacement);
  }

  // ---------------------------------------------------------------- a grant line

  predicate MeshChar(c: char) { IsDigit(c) || 'A' <= c <= 'F' || 'a' <= c <= 'f' || c == '.' || c == ':' }

  /** MESH_ADDR_RE. */
  predicate ValidAddress(addr: string) {
    1 <= |addr| <= 64 && forall i :: 0 <= i < |addr| ==> MeshChar(addr[i])
  }

  /** escapeOptionValue. */
  function Escape(v: string): string {
    if v == "" then ""
    else (if v[0] == '\\' || v[0] == '"' then ['\\', v[0]] else [v[0]]) + Escape(v[1..])
  }

  /** The machine the file is on: whether it is the anchor, and its forced command. */
  datatype Site = Site(anchor: bool, command: string)

  datatype Peer = Peer(name: string, meshIp: string, sshPublicKey: Option<string>, paired: bool)

  function PeerKey(peer: Peer): Option<string> {
    NormalizeKey(if peer.sshPublicKey.Some? then peer.sshPublicKey.value else "")
  }

  /** What writeAuthorizedKey refuses by throwing. */
  predicate Grantable(peer: Peer) {
    PeerKey(peer).Some? && ValidName(peer.name) && ValidAddress(peer.meshIp)
  }

  function Options(site: Site, peer: Peer): string {
    "from=\"" + peer.meshIp + (if site.anchor then ",127.0.0.1" else "") + "\",restrict,command=\""
  }

  /** The close of the command's quotes, and the key. */
  function KeyField(key: string): string { "\" " + key + " " }

  /** Everything before the marker. */
  function GrantHead(site: Site, peer: Peer, key: string): string {
    Options(site, peer) + (Escape(site.command) + KeyField(key))
  }

  function GrantLine(site: Site, peer: Peer): string
    requires PeerKey(peer).Some?
  {
    GrantHead(site, peer, PeerKey(peer).value) + Marker(peer.name)
  }

  /** Neither starts a marker nor ends the line. */
  predicate Plain(s: string) { '#' !in s && '\n' !in s }

  lemma OptionsPlain(site: Site, peer: Peer)
    requires ValidAddress(peer.meshIp)
    ensures Plain(Options(site, peer))
  {
    assert Plain("from=\"") && Plain(",127.0.0.1") && Plain("\",restrict,command=\"");
    assert Plain(peer.meshIp);
  }

  lemma KeyFieldPlain(key: string)
    requires IsKey(key)
    ensures Plain(KeyField(key)) && KeyField(key)[0] == '"'
  {
    TokenQuoteless(key);
    assert key[..|key|] == key;
  }

  lemma MarkerFacts(name: string)
    ensures MARKER_PREFIX[0] == '#' && '"' !in MARKER_PREFIX && '\\' !in MARKER_PREFIX && '\n' !in MARKER_PREFIX
    ensures ValidName(name) ==> '\n' !in Marker(name)
  {
  }

  lemma {:induction false} EscapeOneLine(v: string)
    requires '\n' !in v
    ensures '\n' !in Escape(v)
  {
    if v != "" {
      EscapeOneLine(v[1..]);
    }
  }

  lemma {:induction false} EscapePrefix(v: string, sub: string)
    requires '"' !in sub && '\\' !in sub && sub <= Escape(v)
    ensures sub <= v
  {
    if sub != "" {
      assert sub[0] == Escape(v)[0];
      assert sub[1..] <= Escape(v)[1..];
      assert v[0] == sub[0];
      assert Escape(v)[1..] == Escape(v[1..]);
      EscapePrefix(v[1..], sub[1..]);
    }
  }

  /** Escaping does not make a marker out of a text that has none. */
  lemma {:induction false} EscapeFree(v: string, sub: string)
    requires sub != "" && '"' !in sub && '\\' !in sub && !Contains(v, sub)
    ensures !Contains(Escape(v), sub)
  {
    if v != "" {
      EscapeFree(v[1..], sub);
      var e := Escape(v);
      if sub <= e { EscapePrefix(v, sub); }
      if |e| == 2 + |Escape(v[1..])| {
        assert e[1..] == [v[0]] + Escape(v[1..]);
        assert e[1..][1..] == Escape(v[1..]);
        assert sub[0] != v[0] == e[1..][0];
        assert Find(e[1..], sub) == -1;
      } else {
        assert e[1..] == Escape(v[1..]);
      }
    }
  }

  lemma {:induction false} FindSkips(a: string, t: string, sub: string)
    requires sub != "" && sub[0] !in a && Find(t, sub) >= 0
    ensures Find(a + t, sub) == |a| + Find(t, sub)
  {
    if a == "" {
      assert a + t == t;
    } else {
      assert (a + t)[0] == a[0];
      assert (a + t)[1..] == a[1..] + t;
      FindSkips(a[1..], t, sub);
    }
  }

  /** A search does not run on past a character it does not contain. */
  lemma PrefixPast(c: string, t: string, sub: string)
    requires t != "" && t[0] !in sub
    ensures sub <= c + t ==> sub <= c
  {
    if sub <= c + t {
      assert forall i :: 0 <= i < |sub| ==> sub[i] == (c + t)[i];
      assert (c + t)[|c|] == t[0];
      assert sub == (c + t)[..|sub|] == c[..|sub|];
    }
  }

  lemma {:induction false} FindPast(c: string, t: string, sub: string)
    requires !Contains(c, sub) && t != "" && t[0] !in sub && Find(t, sub) >= 0
    ensures Find(c + t, sub) == |c| + Find(t, sub)
  {
    if c == "" {
      assert c + t == t;
    } else {
      assert (c + t)[1..] == c[1..] + t;
      FindPast(c[1..], t, sub);
      PrefixPast(c, t, sub);
    }
  }

  lemma FindAfterQuoted(c: string, k: string, m: string, sub: string)
    requires sub != "" && sub[0] == '#' && '"' !in sub && sub <= m
    requires Plain(k) && k != "" && k[0] == '"' && !Contains(c, sub)
    ensures Find(c + (k + m), sub) == |c| + |k|
  {
    assert Find(m, sub) == 0;
    FindSkips(k, m, sub);
    var t := k + m;
    assert t[0] == k[0];
    FindPast(c, t, sub);
  }

  lemma Regroup(o: string, c: string, k: string, m: string)
    ensures o + (c + k) + m == o + (c + (k + m))
  {
  }

  /** The first marker prefix in a grant is its own marker. */
  lemma MarkerPosition(site: Site, peer: Peer, key: string, rest: string)
    requires ValidAddress(peer.meshIp) && IsKey(key) && !Contains(site.command, MARKER_PREFIX)
    ensures Find(GrantHead(site, peer, key) + (MARKER_PREFIX + rest), MARKER_PREFIX) == |GrantHead(site, peer, key)|
  {
    MarkerFacts("");
    KeyFieldPlain(key);
    EscapeFree(site.command, MARKER_PREFIX);
    OptionsPlain(site, peer);
    var o, c, k, m := Options(site, peer), Escape(site.command), KeyField(key), MARKER_PREFIX + rest;
    FindAfterQuoted(c, k, m, MARKER_PREFIX);
    FindSkips(o, c + (k + m), MARKER_PREFIX);
    Regroup(o, c, k, m);
  }

  lemma GrantOneLine(site: Site, peer: Peer)
    requires Grantable(peer) && '\n' !in site.command
    ensures '\n' !in GrantLine(site, peer)
  {
    NormalizedIsKey(if peer.sshPublicKey.Some? then peer.sshPublicKey.value else "");
    KeyFieldPlain(PeerKey(peer).value);
    OptionsPlain(site, peer);
    EscapeOneLine(site.command);
    MarkerFacts(peer.name);
  }

  lemma EndsWithMarker(head: string, name: string)
    requires ValidName(name)
    ensures var line := head + Marker(name);
            !Blank(line) && TrimEnd(line) == line && Marked(line, name)
  {
    var line := head + Marker(name);
    assert line[|line| - 1] == name[|name| - 1];
    assert line[|line| - |Marker(name)|..] == Marker(name);
    TrimKeeps(line, |line| - 1);
  }

  // ---------------------------------------------------------------- what sshd is told

  predicate EndsInBackslash(v: string) { v != "" && v[|v| - 1] == '\\' }

  /** Every backslash twice. */
  function Doubled(v: string): string {
    if v == "" then "" else (if v[0] == '\\' then ['\\', '\\'] else [v[0]]) + Doubled(v[1..])
  }

  lemma EscapeStep(v: string, t: string)
    requires v != ""
    ensures Escape(v) + t == (if v[0] == '\\' || v[0] == '"' then ['\\', v[0]] else [v[0]]) + (Escape(v[1..]) + t)
  {
  }

  /** The escaping undoes a reader that takes a backslash before a quote and before a backslash. */
  lemma {:induction false} EscapeIsUndone(v: string, t: string)
    ensures Dequoted(QuoteAndBackslash, Escape(v) + ("\"" + t)) == Some((v, t))
  {
    var s := Escape(v) + ("\"" + t);
    if v == "" {
      assert s == "\"" + t && s[1..] == t;
    } else {
      EscapeIsUndone(v[1..], t);
      EscapeStep(v, "\"" + t);
      var n := if v[0] == '\\' || v[0] == '"' then 2 else 1;
      assert s[n..] == Escape(v[1..]) + ("\"" + t);
      assert [v[0]] + v[1..] == v;
    }
  }

  /** By sshd's rule a backslash is read as it stands, so every backslash of the value comes back twice; and one
      at its end swallows the closing quote. */
  lemma {:induction false} SshdReadsEscaped(v: string, t: string)
    requires '"' !in t
    ensures Dequoted(QuoteOnly, Escape(v) + ("\"" + t)) == if EndsInBackslash(v) then None else Some((Doubled(v), t))
  {
    var s := Escape(v) + ("\"" + t);
    if v == "" {
      assert s == "\"" + t && s[1..] == t;
    } else {
      SshdReadsEscaped(v[1..], t);
      EscapeStep(v, "\"" + t);
      var u := Escape(v[1..]) + ("\"" + t);
      if v[0] == '\\' {
        BackslashIsReadTwice(v, t, u);
      } else if v[0] == '"' {
        assert s[2..] == u;
      } else {
        assert s[1..] == u;
      }
    }
  }

  /** The backslash at the head of `v`, before what the rest of `v` is written as. */
  lemma BackslashIsReadTwice(v: string, t: string, u: string)
    requires v != "" && v[0] == '\\' && '"' !in t && u == Escape(v[1..]) + ("\"" + t)
    requires Dequoted(QuoteOnly, u) == if EndsInBackslash(v[1..]) then None else Some((Doubled(v[1..]), t))
    ensures Dequoted(QuoteOnly, ['\\', '\\'] + u) == if EndsInBackslash(v) then None else Some((Doubled(v), t))
  {
    hide Dequoted;
    EscapedStarts(v[1..], t);
    if |v| == 1 {
      hide Escape;
      assert ['\\', '\\'] + u == ['\\', '\\', '"'] + t;
      TwoBackslashesAndQuote(t);
    } else {
      hide Escape;
      assert EndsInBackslash(v) == EndsInBackslash(v[1..]);
      DoubledStep(v);
      hide EndsInBackslash, Doubled;
      TwoBackslashes(u);
    }
  }

  lemma EscapedStarts(v: string, t: string)
    ensures v == "" ==> Escape(v) + ("\"" + t) == ['"'] + t
    ensures v != "" ==> Escape(v) != "" && (Escape(v) + ("\"" + t))[0] != '"'
  {
    if v == "" { assert Escape(v) + ("\"" + t) == "\"" + t; }
  }

  lemma DoubledStep(v: string)
    requires v != "" && v[0] == '\\'
    ensures Doubled(v) == ['\\'] + (['\\'] + Doubled(v[1..]))
  {
    assert ['\\', '\\'] + Doubled(v[1..]) == ['\\'] + (['\\'] + Doubled(v[1..]));
  }

  lemma {:induction false} DoubledIsLonger(v: string)
    ensures |Doubled(v)| >= |v|
    ensures Doubled(v) == v <==> '\\' !in v
  {
    if v != "" {
      DoubledIsLonger(v[1..]);
      if v[0] != '\\' { assert Doubled(v)[1..] == Doubled(v[1..]) && ([v[0]] + v[1..]) == v; }
    }
  }

  /** Where a key may be used from: the peer's mesh address and, on the anchor, its own loopback. */
  function Sources(site: Site, peer: Peer): seq<string> {
    [peer.meshIp] + if site.anchor then ["127.0.0.1"] else []
  }

  function SourceList(site: Site, peer: Peer): string {
    if site.anchor then peer.meshIp + ("," + "127.0.0.1") else peer.meshIp
  }

  /** The option field and what follows it. */
  function Field(sources: string, command: string, rest: string): string {
    "from" + ("=\"" + (sources + ("\"" + ("," + ("restrict" + ("," + CommandField(command, rest)))))))
  }

  function CommandField(command: string, rest: string): string {
    "command" + ("=\"" + (Escape(command) + ("\"" + rest)))
  }

  function CommandRead(rule: Dequoting, command: string): Option<string> {
    if rule.QuoteAndBackslash? then Some(command)
    else if EndsInBackslash(command) then None else Some(Doubled(command))
  }

  /** What a reader of the option field makes of a peer's grant: the key is good from those addresses, for
      nothing but the forced command, with every other right withheld. */
  function Granted(rule: Dequoting, site: Site, peer: Peer): Option<Permit>
    requires PeerKey(peer).Some?
  {
    var command := CommandRead(rule, site.command);
    if command.None? then None
    else Some(Permit([Setting("from", SourceList(site, peer)), Flag("restrict"), Setting("command", command.value)],
                     PeerKey(peer).value + " " + Marker(peer.name)))
  }

  lemma SourcesAreListed(site: Site, peer: Peer)
    requires ValidAddress(peer.meshIp)
    ensures Patterns(SourceList(site, peer)) == Sources(site, peer)
    ensures Unquoted(SourceList(site, peer))
  {
    assert ',' !in peer.meshIp && Unquoted(peer.meshIp);
    OnePattern(peer.meshIp);
    TwoPatterns(peer.meshIp, "127.0.0.1");
  }

  lemma KeyFieldAndMarker(key: string, m: string)
    ensures KeyField(key) + m == "\"" + (" " + (key + " " + m))
  {
    assert "\" " == "\"" + " ";
    Assoc("\" " + key, " ", m);
    Assoc("\" ", key, " " + m);
    Assoc("\"", " ", key + (" " + m));
    Assoc(key, " ", m);
  }

  lemma GrantLineParts(site: Site, peer: Peer)
    requires PeerKey(peer).Some?
    ensures GrantLine(site, peer)
            == Field(SourceList(site, peer), site.command, " " + (PeerKey(peer).value + " " + Marker(peer.name)))
  {
    var key, m, c := PeerKey(peer).value, Marker(peer.name), Escape(site.command);
    var rest := " " + (key + " " + m);
    KeyFieldAndMarker(key, m);
    assert GrantLine(site, peer) == Options(site, peer) + (c + KeyField(key)) + m;
    hide PeerKey, Marker, Escape, Options, SourceList, KeyField, GrantLine;
    OptionsParts(site, peer, c + ("\"" + rest));
    Regroup(Options(site, peer), c, KeyField(key), m);
  }

  lemma Assoc(a: string, b: string, c: string)
    ensures (a + b) + c == a + (b + c)
  {
  }

  lemma OptionWords()
    ensures "from=\"" == "from" + "=\""
    ensures "\",restrict,command=\"" == "\"" + ("," + ("restrict" + ("," + ("command" + "=\""))))
  {
  }

  lemma BehindTheSources(t: string)
    ensures "\",restrict,command=\"" + t == "\"" + ("," + ("restrict" + ("," + ("command" + ("=\"" + t)))))
  {
    OptionWords();
    Assoc("\"", "," + ("restrict" + ("," + ("command" + "=\""))), t);
    Assoc(",", "restrict" + ("," + ("command" + "=\"")), t);
    Assoc("restrict", "," + ("command" + "=\""), t);
    Assoc(",", "command" + "=\"", t);
    Assoc("command", "=\"", t);
  }

  lemma SourceText(site: Site, peer: Peer)
    ensures Options(site, peer) == "from=\"" + SourceList(site, peer) + "\",restrict,command=\""
  {
    if site.anchor {
      Assoc("from=\"", peer.meshIp, ",127.0.0.1");
      assert "," + "127.0.0.1" == ",127.0.0.1";
    } else {
      assert "from=\"" + peer.meshIp + "" == "from=\"" + peer.meshIp;
    }
  }

  lemma OptionsParts(site: Site, peer: Peer, t: string)
    ensures Options(site, peer) + t == "from" + ("=\"" + (SourceList(site, peer) + ("\"" + ("," + ("restrict" + ("," +
              ("command" + ("=\"" + t))))))))
  {
    SourceText(site, peer);
    BehindTheSources(t);
    OptionWords();
    hide Options, SourceList;
    var src, w := SourceList(site, peer), "\",restrict,command=\"";
    Assoc("from=\"" + src, w, t);
    Assoc("from=\"", src, w + t);
    Assoc("from", "=\"", src + (w + t));
  }

  lemma QuoteFree(a: string, b: string)
    requires '"' !in a && '"' !in b
    ensures '"' !in a + b
  {
  }

  lemma BehindTheCommand(peer: Peer)
    requires Grantable(peer)
    ensures '"' !in " " + (PeerKey(peer).value + " " + Marker(peer.name))
    ensures SkipBlanks(" " + (PeerKey(peer).value + " " + Marker(peer.name)))
            == PeerKey(peer).value + " " + Marker(peer.name)
  {
    var key, m := PeerKey(peer).value, Marker(peer.name);
    NormalizedIsKey(if peer.sshPublicKey.Some? then peer.sshPublicKey.value else "");
    KeyFieldPlain(key);
    assert '"' !in key by { TokenQuoteless(key); assert key[..|key|] == key; }
    assert '"' !in m by { MarkerFacts(peer.name); QuoteFree(MARKER_PREFIX, peer.name); }
    KeyIsTight(key);
    hide PeerKey, Marker, Grantable, IsKey;
    QuoteFree(" ", m);
    QuoteFree(key, " " + m);
    Assoc(key, " ", m);
    QuoteFree(" ", key + " " + m);
    assert (key + " " + m)[0] == key[0];
    NoBlankToSkip(key + " " + m);
    OneBlankToSkip(key + " " + m);
  }

  lemma CommandFieldIsRead(rule: Dequoting, command: string, rest: string)
    requires '"' !in rest && rest != "" && rest[0] == ' '
    ensures ReadOptions(rule, CommandField(command, rest)) ==
            var r := CommandRead(rule, command);
            if r.None? then None else Some(([Setting("command", r.value)], rest))
  {
    SshdReadsEscaped(command, rest);
    EscapeIsUndone(command, rest);
    hide ReadOptions, Escape, EndsInBackslash, Doubled, Dequoted;
    LastSetting(rule, "command", Escape(command) + ("\"" + rest));
  }

  lemma FieldIsRead(rule: Dequoting, sources: string, command: string, rest: string)
    requires Unquoted(sources) && '"' !in rest && rest != "" && rest[0] == ' '
    ensures ReadOptions(rule, Field(sources, command, rest)) ==
            var r := CommandRead(rule, command);
            if r.None? then None
            else Some(([Setting("from", sources), Flag("restrict"), Setting("command", r.value)], rest))
  {
    hide ReadOptions, CommandField, CommandRead, Unquoted;
    var last := CommandField(command, rest);
    CommandFieldIsRead(rule, command, rest);
    FlagThenMore(rule, "restrict", last);
    SettingThenMore(rule, "from", sources, "restrict" + ("," + last));
    var r := CommandRead(rule, command);
    if r.Some? {
      assert [Setting("from", sources)] + ([Flag("restrict")] + [Setting("command", r.value)])
          == [Setting("from", sources), Flag("restrict"), Setting("command", r.value)];
    }
  }

  /** Whatever the forced command, sshd reads a grant as the mesh address, plus the loopback on the anchor;
      `restrict`; and one forced command; and then the key. The command is the one meant exactly if it holds no
      backslash; one that ends in a backslash makes the line unreadable, which lets nobody in. */
  lemma SshdReadsTheGrant(rule: Dequoting, site: Site, peer: Peer)
    requires Grantable(peer)
    ensures Reads(rule, GrantLine(site, peer)) == Granted(rule, site, peer)
    ensures Patterns(SourceList(site, peer)) == Sources(site, peer)
  {
    var rest := " " + (PeerKey(peer).value + " " + Marker(peer.name));
    BehindTheCommand(peer);
    SourcesAreListed(site, peer);
    GrantLineParts(site, peer);
    assert GrantLine(site, peer)[0] == 'f' by { assert Field(SourceList(site, peer), site.command, rest)[0] == 'f'; }
    hide PeerKey, Marker, Grantable, Field, GrantLine, Patterns, Unquoted, SourceList, CommandRead, ReadOptions;
    NoBlankToSkip(GrantLine(site, peer));
    FieldIsRead(rule, SourceList(site, peer), site.command, rest);
  }

  /** The forced command sshd runs is the one meant exactly if it holds no backslash. The escaping is made for a
      reader that takes a backslash before a backslash too: for that one every command is. */
  lemma CommandIsReadExactly(rule: Dequoting, site: Site, peer: Peer)
    requires Grantable(peer)
    ensures (exists p :: Reads(rule, GrantLine(site, peer)) == Some(p) && Setting("command", site.command) in p.options)
            <==> rule.QuoteAndBackslash? || '\\' !in site.command
  {
    SshdReadsTheGrant(rule, site, peer);
    DoubledIsLonger(site.command);
    hide Reads, GrantLine, PeerKey, Doubled, Grantable;
    var read := Reads(rule, GrantLine(site, peer));
    if read.Some? {
      assert read.value.options[2].Setting?;
      assert read == Some(read.value);
      assert Setting("command", site.command) in read.value.options <==> read.value.options[2].value == site.command;
    }
  }

  /** The failing input: a path with one backslash in it is run with two. */
  lemma BackslashIsRunTwice(site: Site, peer: Peer)
    requires Grantable(peer) && site.command == "a\\b"
    ensures var read := Reads(QuoteOnly, GrantLine(site, peer));
            read.Some? && |read.value.options| == 3 && read.value.options[2] == Setting("command", "a\\\\b")
  {
    SshdReadsTheGrant(QuoteOnly, site, peer);
    assert Doubled("b") == "b" && Doubled("\\b") == "\\\\b" && Doubled("a\\b") == "a\\\\b";
  }

  // ---------------------------------------------------------------- edits

  /** Every operation on the file is a run of these. */
  datatype Edit = Clear(name: string) | Put(peer: Peer)

  function About(e: Edit): string { match e case Clear(n) => n case Put(p) => p.name }

  predicate Fits(e: Edit) { e.Put? ==> Grantable(e.peer) }

  predicate AllFit(edits: seq<Edit>) { forall i :: 0 <= i < |edits| ==> Fits(edits[i]) }

  predicate NamesValid(edits: seq<Edit>) { forall i :: 0 <= i < |edits| ==> ValidName(About(edits[i])) }

  function Written(site: Site, e: Edit): seq<string>
    requires Fits(e)
  {
    match e case Clear(_) => [] case Put(p) => [GrantLine(site, p)]
  }

  function AfterEdits(site: Site, text: string, edits: seq<Edit>): string
    requires AllFit(edits)
  {
    if edits == [] then text
    else
      var e := edits[|edits| - 1];
      ReplaceMarked(AfterEdits(site, text, edits[..|edits| - 1]), About(e), Written(site, e))
  }

  /** The last edit about a machine. */
  function LastAbout(edits: seq<Edit>, machine: string): Option<Edit> {
    if edits == [] then None
    else if About(edits[|edits| - 1]) == machine then Some(edits[|edits| - 1])
    else LastAbout(edits[..|edits| - 1], machine)
  }

  /** The lines marked for a machine. */
  function Grants(lines: seq<string>, machine: string): seq<string> {
    if lines == [] then []
    else Grants(lines[..|lines| - 1], machine)
         + if Marked(lines[|lines| - 1], machine) then [lines[|lines| - 1]] else []
  }

  ghost predicate MarkedForAny(line: string, names: set<string>) {
    exists n :: n in names && Marked(line, n)
  }

  /** The lines marked for none of these names. */
  ghost function Others(lines: seq<string>, names: set<string>): seq<string> {
    if lines == [] then []
    else Others(lines[..|lines| - 1], names)
         + if MarkedForAny(lines[|lines| - 1], names) then [] else [lines[|lines| - 1]]
  }

  lemma EditBody(site: Site, text: string, e: Edit)
    requires Fits(e) && '\n' !in site.command
    ensures Body(ReplaceMarked(text, About(e), Written(site, e))) == Unmarked(Body(text), About(e)) + Written(site, e)
    ensures forall i :: 0 <= i < |Written(site, e)| ==> Marked(Written(site, e)[i], About(e))
  {
    if e.Put? {
      GrantOneLine(site, e.peer);
      EndsWithMarker(GrantHead(site, e.peer, PeerKey(e.peer).value), e.peer.name);
    }
    ReplaceMarkedBody(text, About(e), Written(site, e));
  }

  lemma {:induction false} OthersOfUnmarked(lines: seq<string>, name: string, names: set<string>)
    requires name in names
    ensures Others(Unmarked(lines, name), names) == Others(lines, names)
  {
    if lines != [] {
      var init, last := lines[..|lines| - 1], lines[|lines| - 1];
      OthersOfUnmarked(init, name, names);
      var u := Unmarked(init, name);
      if Marked(last, name) {
        assert Unmarked(lines, name) == u;
      } else {
        assert Unmarked(lines, name) == u + [last];
        assert (u + [last])[..|u|] == u;
      }
    }
  }

  lemma OthersOfWritten(lines: seq<string>, written: seq<string>, name: string, names: set<string>)
    requires |written| <= 1 && name in names && (written != [] ==> Marked(written[0], name))
    ensures Others(lines + written, names) == Others(lines, names)
  {
    if written == [] {
      assert lines + written == lines;
    } else {
      assert (lines + written)[..|lines|] == lines;
    }
  }

  /** Whatever operations run, every line that is not blank and carries none of their markers stays, byte for
      byte and in order. */
  lemma {:induction false} OtherLinesStay(site: Site, text: string, edits: seq<Edit>, names: set<string>)
    requires AllFit(edits) && '\n' !in site.command
    requires forall i :: 0 <= i < |edits| ==> About(edits[i]) in names
    ensures Others(Body(AfterEdits(site, text, edits)), names) == Others(Body(text), names)
  {
    if edits != [] {
      var init, e := edits[..|edits| - 1], edits[|edits| - 1];
      OtherLinesStay(site, text, init, names);
      var before := AfterEdits(site, text, init);
      EditBody(site, before, e);
      OthersOfUnmarked(Body(before), About(e), names);
      OthersOfWritten(Unmarked(Body(before), About(e)), Written(site, e), About(e), names);
    }
  }

  lemma {:induction false} GrantsOfUnmarked(lines: seq<string>, name: string, machine: string)
    requires ValidName(name) && ValidName(machine)
    ensures Grants(Unmarked(lines, name), machine) == if name == machine then [] else Grants(lines, machine)
  {
    if lines != [] {
      var init, last := lines[..|lines| - 1], lines[|lines| - 1];
      GrantsOfUnmarked(init, name, machine);
      var u := Unmarked(init, name);
      if Marked(last, name) {
        assert Unmarked(lines, name) == u;
        if name != machine && Marked(last, machine) { MarkedForOne(last, name, machine); }
      } else {
        assert Unmarked(lines, name) == u + [last];
        assert (u + [last])[..|u|] == u;
      }
    }
  }

  lemma GrantsOfWritten(lines: seq<string>, written: seq<string>, name: string, machine: string)
    requires |written| <= 1 && (written != [] ==> Marked(written[0], name))
    requires ValidName(name) && ValidName(machine)
    ensures Grants(lines + written, machine) == Grants(lines, machine) + if name == machine then written else []
  {
    if written == [] {
      assert lines + written == lines;
    } else {
      assert (lines + written)[..|lines|] == lines;
      if name != machine && Marked(written[0], machine) { MarkedForOne(written[0], name, machine); }
    }
  }

  /** What the file says of a machine is decided by the last edit about it alone: the one line written for it,
      or nothing, or what it said before any of them. So a machine that was written never has two grants, and
      an edit about one machine never touches another's. */
  lemma {:induction false} LastEditDecides(site: Site, text: string, edits: seq<Edit>, machine: string)
    requires AllFit(edits) && NamesValid(edits) && ValidName(machine) && '\n' !in site.command
    ensures Grants(Body(AfterEdits(site, text, edits)), machine) ==
            match LastAbout(edits, machine)
            case None => Grants(Body(text), machine)
            case Some(e) => assert Fits(e) by { LastIsAnEdit(edits, machine); } Written(site, e)
  {
    if edits != [] {
      var init, e := edits[..|edits| - 1], edits[|edits| - 1];
      LastEditDecides(site, text, init, machine);
      LastIsAnEdit(init, machine);
      var before := AfterEdits(site, text, init);
      EditBody(site, before, e);
      GrantsOfUnmarked(Body(before), About(e), machine);
      GrantsOfWritten(Unmarked(Body(before), About(e)), Written(site, e), About(e), machine);
    }
  }

  lemma {:induction false} LastIsAnEdit(edits: seq<Edit>, machine: string)
    ensures var e := LastAbout(edits, machine); e.Some? ==> e.value in edits && About(e.value) == machine
  {
    if edits != [] && About(edits[|edits| - 1]) != machine {
      LastIsAnEdit(edits[..|edits| - 1], machine);
    }
  }

  // ---------------------------------------------------------------- recovering keys

  /** What a line's text before and after its first marker prefix says. */
  function ReadGrant(before: string, after: string): Option<(string, string)> {
    var machine := Trim(after);
    if !ValidName(machine) then None
    else
      match LastToken(before)
      case None => None
      case Some(token) =>
        match NormalizeKey(token)
        case None => None
        case Some(key) => Some((machine, key))
  }

  /** One line of recoverStoredPeerKeys: the machine and the key, if the line is a grant. */
  function RecoverLine(line: string): Option<(string, string)> {
    var i := Find(line, MARKER_PREFIX);
    if i < 0 then None else ReadGrant(line[..i], line[i + |MARKER_PREFIX|..])
  }

  /** The map it returns: for each machine, the last line that says anything. */
  function Recovered(lines: seq<string>): map<string, string> {
    if lines == [] then map[]
    else
      var m := Recovered(lines[..|lines| - 1]);
      match RecoverLine(lines[|lines| - 1])
      case None => m
      case Some((machine, key)) => m[machine := key]
  }

  lemma BlankRecoversNothing(line: string)
    requires Blank(line)
    ensures RecoverLine(line).None?
  {
    var i := Find(line, MARKER_PREFIX);
    if i >= 0 {
      assert line[i] == line[i..][0] == '#';
      TrimKeeps(line, i);
    }
  }

  lemma {:induction false} RecoveredNonBlank(lines: seq<string>)
    ensures Recovered(NonBlank(lines)) == Recovered(lines)
  {
    if lines != [] {
      var init, last := lines[..|lines| - 1], lines[|lines| - 1];
      RecoveredNonBlank(init);
      if Blank(last) {
        BlankRecoversNothing(last);
        assert NonBlank(lines) == NonBlank(init);
      } else {
        assert NonBlank(lines) == NonBlank(init) + [last];
        assert (NonBlank(init) + [last])[..|NonBlank(init)|] == NonBlank(init);
      }
    }
  }

  lemma KeyFieldParts(key: string)
    ensures KeyField(key) == ['"'] + ([' '] + (key + " "))
  {
  }

  lemma KeyAlone(key: string)
    requires IsKey(key)
    ensures LastToken(KeyField(key)) == Some(key)
  {
    KeyThenSpace(key);
    KeyFieldParts(key);
    hide LastToken, IsKey, KeyField;
    SkipOne(' ', key + " ");
    SkipOne('"', [' '] + (key + " "));
  }

  /** The key is found past any look-alike in the options: nothing that can be part of a key runs across the
      quote that closes the command. */
  lemma {:induction false} KeyIsLastToken(a: string, key: string)
    requires IsKey(key)
    ensures LastToken(a + KeyField(key)) == Some(key)
    decreases |a|
  {
    hide TokenLength, IsKey;
    var t := KeyField(key);
    if a == "" {
      KeyAlone(key);
      assert a + t == t;
    } else {
      var s := a + t;
      var n := TokenLength(s);
      TokenStopsAtQuote(a, t);
      var d := if n == 0 then 1 else n;
      assert s[d..] == a[d..] + t;
      KeyIsLastToken(a[d..], key);
    }
  }

  lemma HeadToken(site: Site, peer: Peer, key: string)
    requires IsKey(key)
    ensures LastToken(GrantHead(site, peer, key)) == Some(key)
  {
    var o, c := Options(site, peer), Escape(site.command);
    assert GrantHead(site, peer, key) == o + (c + KeyField(key));
    hide *;
    Assoc(o, c, KeyField(key));
    KeyIsLastToken(o + c, key);
  }

  lemma Around(head: string, m: string, name: string)
    ensures var line := head + (m + name);
            line[..|head|] == head && line[|head| + |m|..] == name
  {
  }

  lemma ReadsAs(head: string, name: string, key: string)
    requires ValidName(name) && LastToken(head) == Some(key) && NormalizeKey(key) == Some(key)
    ensures ReadGrant(head, name) == Some((name, key))
  {
    TrimTight(name);
  }

  lemma LineReadsBack(head: string, name: string, key: string)
    requires Find(head + Marker(name), MARKER_PREFIX) == |head| && ValidName(name)
    requires LastToken(head) == Some(key) && NormalizeKey(key) == Some(key)
    ensures RecoverLine(head + Marker(name)) == Some((name, key))
  {
    Around(head, MARKER_PREFIX, name);
    ReadsAs(head, name, key);
  }

  /** Where a marked line's own marker starts, and what follows it. */
  lemma MarkedShape(line: string, name: string) returns (j: nat)
    requires Marked(line, name)
    ensures j + |MARKER_PREFIX| <= |line| && MARKER_PREFIX <= line[j..]
    ensures exists w :: AllSpace(w) && line[j + |MARKER_PREFIX|..] == name + w
  {
    var t := TrimEnd(line);
    TrimEndDropsSpace(line);
    j := |t| - |Marker(name)|;
    assert t[j..] == Marker(name);
    assert line[j..] == Marker(name) + line[|t|..];
    assert line[j + |MARKER_PREFIX|..] == name + line[|t|..];
  }

  /** A line marked for one machine is never read as another's grant. */
  lemma MarkedReadsAsItself(line: string, name: string)
    requires ValidName(name) && Marked(line, name)
    ensures RecoverLine(line).Some? ==> RecoverLine(line).value.0 == name
  {
    var j := MarkedShape(line, name);
    FindFirst(line, MARKER_PREFIX, j);
    var i := Find(line, MARKER_PREFIX);
    if i == j {
      var w :| AllSpace(w) && line[j + |MARKER_PREFIX|..] == name + w;
      TrimPadding(name, w);
    } else {
      HashPastPrefix(line, i, j);
    }
  }

  lemma TrimPadding(s: string, w: string)
    requires s != "" && Tight(s) && AllSpace(w)
    ensures Trim(s + w) == s
  {
    assert (s + w)[0] == s[0];
    TrimEndPadding(s, w);
  }

  /** A second marker after the first leaves no valid name behind the first. */
  lemma HashPastPrefix(line: string, i: nat, j: nat)
    requires i < j <= |line| && MARKER_PREFIX <= line[i..] && MARKER_PREFIX <= line[j..]
    ensures !ValidName(Trim(line[i + |MARKER_PREFIX|..]))
  {
    var p := |MARKER_PREFIX|;
    assert line[j] == line[j..][0] == '#';
    assert forall d :: 0 < d < p ==> line[i + d] == line[i..][d] == MARKER_PREFIX[d] != '#';
    assert i + p <= j;
    var rest := line[i + p..];
    assert rest[j - i - p] == '#';
    TrimKeeps(rest, j - i - p);
  }

  lemma {:induction false} EscapeKeepsPrefix(v: string, sub: string)
    requires '"' !in sub && '\\' !in sub && sub <= v
    ensures sub <= Escape(v)
  {
    if sub != "" {
      assert sub[0] == v[0];
      EscapeKeepsPrefix(v[1..], sub[1..]);
      assert Escape(v) == [v[0]] + Escape(v[1..]);
      assert sub == [sub[0]] + sub[1..];
    }
  }

  lemma {:induction false} EscapeKeeps(v: string, sub: string) returns (k: nat)
    requires sub != "" && '"' !in sub && '\\' !in sub && Contains(v, sub)
    ensures k <= |Escape(v)| && sub <= Escape(v)[k..]
  {
    if sub <= v {
      EscapeKeepsPrefix(v, sub);
      k := 0;
      assert Escape(v)[0..] == Escape(v);
    } else {
      k := EscapeKeeps(v[1..], sub);
      var d := |Escape(v)| - |Escape(v[1..])|;
      assert Escape(v)[d..] == Escape(v[1..]);
      assert Escape(v)[d + k..] == Escape(v[1..])[k..];
      k := d + k;
    }
  }

  lemma Inside(o: string, c: string, t: string, sub: string, k: nat)
    requires k <= |c| && sub <= c[k..]
    ensures sub <= (o + (c + t))[|o| + k..]
  {
    assert (o + (c + t))[|o| + k..] == c[k..] + t;
  }

  lemma CommandMarkerAt(site: Site, peer: Peer) returns (i: nat)
    requires PeerKey(peer).Some? && Contains(site.command, MARKER_PREFIX)
    ensures i < |GrantHead(site, peer, PeerKey(peer).value)|
    ensures MARKER_PREFIX <= GrantLine(site, peer)[i..]
  {
    var o, c, k, m := Options(site, peer), Escape(site.command), KeyField(PeerKey(peer).value), Marker(peer.name);
    MarkerFacts("");
    var p := EscapeKeeps(site.command, MARKER_PREFIX);
    Regroup(o, c, k, m);
    Inside(o, c, k + m, MARKER_PREFIX, p);
    i := |o| + p;
  }

  /** A marker prefix in the forced command hides the marker proper. */
  lemma CommandHidesMarker(site: Site, peer: Peer)
    requires Grantable(peer) && Contains(site.command, MARKER_PREFIX)
    ensures RecoverLine(GrantLine(site, peer)).None?
  {
    var i := CommandMarkerAt(site, peer);
    var head := GrantHead(site, peer, PeerKey(peer).value);
    assert GrantLine(site, peer) == head + Marker(peer.name);
    hide GrantHead, GrantLine, PeerKey, Contains;
    EarlierMarkerHides(head, peer.name, i);
  }

  lemma EarlierMarkerHides(head: string, name: string, i: nat)
    requires i < |head| && MARKER_PREFIX <= (head + Marker(name))[i..]
    ensures RecoverLine(head + Marker(name)).None?
  {
    var line := head + Marker(name);
    FindFirst(line, MARKER_PREFIX, i);
    assert line[|head|..] == Marker(name);
    hide ValidName, Find;
    HashPastPrefix(line, Find(line, MARKER_PREFIX), |head|);
  }

  /** A grant reads back as the machine and the key it was written for, unless the forced command's own text
      holds a marker prefix: then it does not read back at all. */
  lemma GrantReadsBack(site: Site, peer: Peer)
    requires Grantable(peer)
    ensures RecoverLine(GrantLine(site, peer)) ==
            if Contains(site.command, MARKER_PREFIX) then None else Some((peer.name, PeerKey(peer).value))
  {
    if Contains(site.command, MARKER_PREFIX) {
      CommandHidesMarker(site, peer);
      return;
    }
    NormalizedIsKey(if peer.sshPublicKey.Some? then peer.sshPublicKey.value else "");
    var key := PeerKey(peer).value;
    MarkerPosition(site, peer, key, peer.name);
    HeadToken(site, peer, key);
    NormalizeKeyFixed(key);
    LineReadsBack(GrantHead(site, peer, key), peer.name, key);
  }

  lemma {:induction false} RecoveredOfUnmarked(lines: seq<string>, name: string, machine: string)
    requires ValidName(name) && machine != name && machine in Recovered(lines)
    ensures machine in Recovered(Unmarked(lines, name))
    ensures Recovered(Unmarked(lines, name))[machine] == Recovered(lines)[machine]
  {
    if lines != [] {
      var init, last := lines[..|lines| - 1], lines[|lines| - 1];
      var u := Unmarked(init, name);
      if Marked(last, name) {
        assert Unmarked(lines, name) == u;
        MarkedReadsAsItself(last, name);
        RecoveredOfUnmarked(init, name, machine);
      } else {
        assert Unmarked(lines, name) == u + [last];
        assert (u + [last])[..|u|] == u;
        if machine in Recovered(init) { RecoveredOfUnmarked(init, name, machine); }
      }
    }
  }

  lemma RecoveredOfWritten(lines: seq<string>, line: string)
    ensures Recovered(lines + [line]) ==
            match RecoverLine(line) case None => Recovered(lines) case Some((m, k)) => Recovered(lines)[m := k]
  {
    assert (lines + [line])[..|lines|] == lines;
  }

  lemma WrittenKeepsRecovered(site: Site, kept: seq<string>, e: Edit, machine: string)
    requires Fits(e) && About(e) != machine && !Contains(site.command, MARKER_PREFIX) && machine in Recovered(kept)
    ensures var m := Recovered(kept + Written(site, e)); machine in m && m[machine] == Recovered(kept)[machine]
  {
    if e.Put? {
      GrantReadsBack(site, e.peer);
      hide Recovered, GrantLine, RecoverLine, Grantable, Contains;
      RecoveredOfWritten(kept, GrantLine(site, e.peer));
    } else {
      hide Recovered, Contains;
      assert kept + Written(site, e) == kept;
    }
  }

  lemma EditKeepsRecovered(site: Site, text: string, e: Edit, machine: string)
    requires Fits(e) && ValidName(About(e)) && About(e) != machine
    requires '\n' !in site.command && !Contains(site.command, MARKER_PREFIX)
    requires machine in Recovered(Body(text))
    ensures var m := Recovered(Body(ReplaceMarked(text, About(e), Written(site, e))));
            machine in m && m[machine] == Recovered(Body(text))[machine]
  {
    hide Body, ReplaceMarked, Unmarked, Recovered, ValidName, Contains, Written;
    EditBody(site, text, e);
    RecoveredOfUnmarked(Body(text), About(e), machine);
    WrittenKeepsRecovered(site, Unmarked(Body(text), About(e)), e, machine);
  }

  lemma PutIsRecovered(site: Site, text: string, peer: Peer)
    requires Grantable(peer) && '\n' !in site.command && !Contains(site.command, MARKER_PREFIX)
    ensures var m := Recovered(Body(ReplaceMarked(text, peer.name, [GrantLine(site, peer)])));
            peer.name in m && m[peer.name] == PeerKey(peer).value
  {
    EditBody(site, text, Put(peer));
    GrantReadsBack(site, peer);
    RecoveredOfWritten(Unmarked(Body(text), peer.name), GrantLine(site, peer));
  }

  /** The key recovered for a machine is the key last written for it, however many edits about other machines
      came before or after, as long as the forced command itself holds no marker prefix. */
  lemma {:induction false} RecoverReadsBack(site: Site, text: string, edits: seq<Edit>, peer: Peer)
    requires AllFit(edits) && NamesValid(edits) && '\n' !in site.command && !Contains(site.command, MARKER_PREFIX)
    requires LastAbout(edits, peer.name) == Some(Put(peer))
    ensures var m := Recovered(Split(AfterEdits(site, text, edits)));
            PeerKey(peer).Some? && peer.name in m && m[peer.name] == PeerKey(peer).value
  {
    var init, e := edits[..|edits| - 1], edits[|edits| - 1];
    var before := AfterEdits(site, text, init);
    if About(e) == peer.name {
      PutIsRecovered(site, before, peer);
    } else {
      RecoverReadsBack(site, text, init, peer);
      RecoveredNonBlank(Split(before));
      EditKeepsRecovered(site, before, e, peer.name);
    }
    RecoveredNonBlank(Split(AfterEdits(site, text, edits)));
  }

  // ---------------------------------------------------------------- the operations

  /** What a removal reports: replaceMarkedLines also drops blank lines and closes the last line, so the text
      changes, and a removal is reported, exactly if there was a grant or the text was not in that form. */
  lemma ChangedWhen(text: string, name: string)
    ensures ReplaceMarked(text, name, []) != text <==> Grants(Body(text), name) != [] || text != Unlines(Body(text))
  {
    var body := Body(text);
    var kept := Unmarked(body, name);
    ReplaceMarkedBody(text, name, []);
    assert kept + [] == kept;
    UnmarkedLength(body, name);
    if kept != [] { JoinNewlineIsUnlines(kept); }
    assert ReplaceMarked(text, name, []) == Unlines(kept);
  }

  lemma {:induction false} UnmarkedLength(lines: seq<string>, name: string)
    ensures |Unmarked(lines, name)| + |Grants(lines, name)| == |lines|
    ensures Grants(lines, name) == [] ==> Unmarked(lines, name) == lines
  {
    if lines != [] {
      UnmarkedLength(lines[..|lines| - 1], name);
    }
  }

  /** A line is marked for a machine exactly if, white space at its end apart, it ends in the machine's marker. */
  lemma MarkedExactly(line: string, name: string)
    requires ValidName(name)
    ensures Marked(line, name) <==> exists head, pad :: line == head + ("# sukarfleet:" + name) + pad && AllSpace(pad)
  {
    if Marked(line, name) {
      var t := TrimEnd(line);
      TrimEndDropsSpace(line);
      var head := t[..|t| - |Marker(name)|];
      assert t == head + Marker(name) && line == t + line[|t|..];
      assert line == head + ("# sukarfleet:" + name) + line[|t|..];
    }
    if head, pad :| line == head + ("# sukarfleet:" + name) + pad && AllSpace(pad) {
      EndsWithMarker(head, name);
      TrimEndPadding(head + Marker(name), pad);
      assert (head + Marker(name))[|head|..] == Marker(name);
    }
  }

  function Clears(peers: seq<Peer>): (r: seq<Edit>)
    ensures |r| == |peers| && forall i :: 0 <= i < |r| ==> r[i] == Clear(peers[i].name)
  {
    if peers == [] then [] else Clears(peers[..|peers| - 1]) + [Clear(peers[|peers| - 1].name)]
  }

  /** The names whose removal changed the text. */
  function Removed(site: Site, text: string, peers: seq<Peer>): seq<string> {
    if peers == [] then []
    else
      var init, name := peers[..|peers| - 1], peers[|peers| - 1].name;
      var before := AfterEdits(site, text, Clears(init));
      Removed(site, text, init) + if ReplaceMarked(before, name, []) != before then [name] else []
  }

  /** What opening the door writes: a grant for each peer with a usable key, up to the first whose name or
      address writeAuthorizedKey refuses. */
  function Openings(peers: seq<Peer>): (r: seq<Edit>)
    ensures AllFit(r)
  {
    if peers == [] then []
    else if PeerKey(peers[0]).None? then Openings(peers[1..])
    else if !Grantable(peers[0]) then []
    else [Put(peers[0])] + Openings(peers[1..])
  }

  predicate Opens(peers: seq<Peer>) {
    forall i :: 0 <= i < |peers| ==> PeerKey(peers[i]).Some? ==> Grantable(peers[i])
  }

  lemma AfterOneMore(site: Site, text: string, edits: seq<Edit>, e: Edit)
    requires AllFit(edits) && Fits(e)
    ensures AllFit(edits + [e])
    ensures AfterEdits(site, text, edits + [e]) ==
            ReplaceMarked(AfterEdits(site, text, edits), About(e), Written(site, e))
  {
    assert (edits + [e])[..|edits|] == edits;
  }

  lemma ClearsOneMore(site: Site, text: string, peers: seq<Peer>, i: nat)
    requires i < |peers|
    ensures var before := AfterEdits(site, text, Clears(peers[..i]));
            var after := ReplaceMarked(before, peers[i].name, []);
            && AfterEdits(site, text, Clears(peers[..i + 1])) == after
            && Removed(site, text, peers[..i + 1]) ==
               Removed(site, text, peers[..i]) + if after != before then [peers[i].name] else []
  {
    assert peers[..i + 1][..i] == peers[..i];
    AfterOneMore(site, text, Clears(peers[..i]), Clear(peers[i].name));
  }

  /** Operations one after another are one run of edits, so what is proved of a run holds of any sequence of
      grants, closings, openings and revocations. */
  lemma {:induction false} EditsCompose(site: Site, text: string, first: seq<Edit>, second: seq<Edit>)
    requires AllFit(first) && AllFit(second)
    ensures AllFit(first + second)
    ensures AfterEdits(site, AfterEdits(site, text, first), second) == AfterEdits(site, text, first + second)
  {
    AllFitSum(first, second);
    if second == [] {
      hide ReplaceMarked, Grantable;
      assert first + second == first;
    } else {
      hide AfterEdits, ReplaceMarked, AllFit, Fits;
      var init, e := second[..|second| - 1], second[|second| - 1];
      assert second == init + [e] && first + second == (first + init) + [e];
      AllFitParts(init, e);
      EditsCompose(site, text, first, init);
      AfterOneMore(site, text, first + init, e);
      AfterOneMore(site, AfterEdits(site, text, first), init, e);
    }
  }

  lemma AllFitSum(first: seq<Edit>, second: seq<Edit>)
    requires AllFit(first) && AllFit(second)
    ensures AllFit(first + second)
  {
    hide Fits;
  }

  lemma AllFitParts(init: seq<Edit>, e: Edit)
    requires AllFit(init + [e])
    ensures AllFit(init) && Fits(e)
  {
    hide Fits;
    assert (init + [e])[|init|] == e;
    assert forall i :: 0 <= i < |init| ==> (init + [e])[i] == init[i];
  }

  /** The names reported for a run of edits. */
  function Abouts(edits: seq<Edit>): (r: seq<string>)
    ensures |r| == |edits|
  {
    if edits == [] then [] else Abouts(edits[..|edits| - 1]) + [About(edits[|edits| - 1])]
  }

  lemma OneMorePut(site: Site, text: string, edits: seq<Edit>, peer: Peer)
    requires AllFit(edits) && Grantable(peer)
    ensures AllFit(edits + [Put(peer)])
    ensures AfterEdits(site, AfterEdits(site, text, edits), [Put(peer)]) == AfterEdits(site, text, edits + [Put(peer)])
    ensures Abouts(edits + [Put(peer)]) == Abouts(edits) + [peer.name]
  {
    assert (edits + [Put(peer)])[..|edits|] == edits;
    AfterOneMore(site, text, edits, Put(peer));
    AfterOneMore(site, AfterEdits(site, text, edits), [], Put(peer));
    assert [] + [Put(peer)] == [Put(peer)];
  }

  /** The paired peers whose key the machine does not hold. */
  function Keyless(peers: seq<Peer>): seq<string> {
    if peers == [] then []
    else
      var p := peers[|peers| - 1];
      Keyless(peers[..|peers| - 1]) + if PeerKey(p).None? && p.paired then [p.name] else []
  }

  /** A closed door: no configured peer has a grant left. */
  lemma ClosedDoorGrantsNobody(site: Site, text: string, peers: seq<Peer>, i: nat)
    requires i < |peers| && '\n' !in site.command && forall p :: p in peers ==> ValidName(p.name)
    ensures Grants(Body(AfterEdits(site, text, Clears(peers))), peers[i].name) == []
  {
    var edits := Clears(peers);
    ClearedLast(peers, i);
    LastEditDecides(site, text, edits, peers[i].name);
  }

  lemma {:induction false} ClearedLast(peers: seq<Peer>, i: nat)
    requires i < |peers|
    ensures LastAbout(Clears(peers), peers[i].name) == Some(Clear(peers[i].name))
  {
    var n := |peers| - 1;
    assert Clears(peers) == Clears(peers[..n]) + [Clear(peers[n].name)];
    assert (Clears(peers[..n]) + [Clear(peers[n].name)])[..n] == Clears(peers[..n]);
    if peers[n].name != peers[i].name { ClearedLast(peers[..n], i); }
  }

  /** What opening writes, peer by peer: a grant for exactly each peer whose key is usable, as long as neither it nor
      one before it with a usable key has a name or an address that is refused. */
  lemma {:induction false} OpeningsExactly(peers: seq<Peer>, q: Peer)
    ensures Put(q) in Openings(peers) <==>
              exists i :: 0 <= i < |peers| && peers[i] == q && PeerKey(q).Some? && Opens(peers[..i + 1])
  {
    hide PeerKey, Grantable;
    if peers != [] {
      var rest := peers[1..];
      OpeningsExactly(rest, q);
      if i :| 0 <= i < |rest| && rest[i] == q && PeerKey(q).Some? && Opens(rest[..i + 1]) {
        OpensWithHead(peers[0], rest[..i + 1]);
        assert peers[i + 1] == q && peers[..i + 2] == [peers[0]] + rest[..i + 1];
      }
      if i :| 0 <= i < |peers| && peers[i] == q && PeerKey(q).Some? && Opens(peers[..i + 1]) {
        assert peers[..i + 1][0] == peers[0];
        if i > 0 {
          assert peers[..i + 1] == [peers[0]] + rest[..i];
          OpensWithHead(peers[0], rest[..i]);
          assert rest[i - 1] == q;
        }
      }
      assert peers[..1] == [peers[0]];
    }
  }

  lemma OpensWithHead(p: Peer, rest: seq<Peer>)
    ensures Opens([p] + rest) <==> (PeerKey(p).Some? ==> Grantable(p)) && Opens(rest)
  {
    hide PeerKey, Grantable;
    var all := [p] + rest;
    assert forall i :: 0 <= i < |rest| ==> all[i + 1] == rest[i];
    assert all[0] == p;
    if Opens(all) {
      forall i | 0 <= i < |rest| && PeerKey(rest[i]).Some? ensures Grantable(rest[i]) { assert all[i + 1] == rest[i]; }
    }
  }

  /** An opened door: a peer with a usable key, under a name of its own, has exactly the one grant written for it. */
  lemma OpenedDoorGrants(site: Site, text: string, peers: seq<Peer>, p: Peer)
    requires Opens(peers) && p in peers && PeerKey(p).Some? && '\n' !in site.command
    requires forall q :: q in peers && q.name == p.name ==> q == p
    ensures Grants(Body(AfterEdits(site, text, Openings(peers))), p.name) == [GrantLine(site, p)]
  {
    var edits := Openings(peers);
    OpensUpToAll(peers, p);
    OpeningsExactly(peers, p);
    OpeningsAreGrants(peers);
    assert ValidName(p.name);
    hide *;
    AboutIsFound(edits, Put(p));
    LastIsAnEdit(edits, p.name);
    LastEditDecides(site, text, edits, p.name);
    AboutPut(p);
    var e := LastAbout(edits, p.name).value;
    AboutPut(e.peer);
    assert e == Put(p);
    WrittenPut(site, p);
  }

  lemma AboutPut(p: Peer)
    ensures About(Put(p)) == p.name
  {
  }

  lemma WrittenPut(site: Site, p: Peer)
    requires Fits(Put(p))
    ensures PeerKey(p).Some? && Written(site, Put(p)) == [GrantLine(site, p)]
  {
  }

  /** And the lines of every other machine are as they were. */
  lemma OpenedDoorLeavesOthers(site: Site, text: string, peers: seq<Peer>, machine: string)
    requires '\n' !in site.command && ValidName(machine)
    requires forall p :: p in peers && p.name == machine ==> PeerKey(p).None?
    ensures Grants(Body(AfterEdits(site, text, Openings(peers))), machine) == Grants(Body(text), machine)
  {
    var edits := Openings(peers);
    OpeningsAreGrants(peers);
    hide PeerKey, Grantable, GrantLine, Grants, Openings, Body, AfterEdits;
    LastIsAnEdit(edits, machine);
    LastEditDecides(site, text, edits, machine);
  }

  lemma OpensUpToAll(peers: seq<Peer>, p: Peer)
    requires Opens(peers) && p in peers
    ensures exists i :: 0 <= i < |peers| && peers[i] == p && Opens(peers[..i + 1])
  {
    hide PeerKey, Grantable;
    var i :| 0 <= i < |peers| && peers[i] == p;
    assert Opens(peers[..i + 1]);
  }

  lemma {:induction false} AboutIsFound(edits: seq<Edit>, e: Edit)
    requires e in edits
    ensures LastAbout(edits, About(e)).Some?
  {
    var n := |edits| - 1;
    if About(edits[n]) != About(e) { AboutIsFound(edits[..n], e); }
  }

  lemma {:induction false} OpeningsAreGrants(peers: seq<Peer>)
    ensures NamesValid(Openings(peers))
    ensures forall e :: e in Openings(peers) ==> e.Put? && e.peer in peers && PeerKey(e.peer).Some?
  {
    if peers != [] {
      OpeningsAreGrants(peers[1..]);
    }
  }

  /** The peers reported without a key: exactly the paired ones whose key is unusable. */
  lemma {:induction false} KeylessExactly(peers: seq<Peer>, name: string)
    ensures name in Keyless(peers) <==>
              exists p :: p in peers && p.name == name && p.paired && PeerKey(p).None?
  {
    hide PeerKey;
    if peers != [] {
      var n := |peers| - 1;
      KeylessExactly(peers[..n], name);
      assert peers == peers[..n] + [peers[n]];
    }
  }

  /** Where opening the door stands after `i` peers: `done` written, the rest still to come. */
  ghost predicate Opening(peers: seq<Peer>, i: nat, done: seq<Edit>, missing: seq<string>) {
    && i <= |peers| && AllFit(done) && done + Openings(peers[i..]) == Openings(peers)
    && Opens(peers[..i]) && missing == Keyless(peers[..i])
  }

  lemma OpeningsFrom(peers: seq<Peer>, i: nat)
    requires i < |peers|
    ensures Openings(peers[i..]) ==
            if PeerKey(peers[i]).None? then Openings(peers[i + 1..])
            else if !Grantable(peers[i]) then [] else [Put(peers[i])] + Openings(peers[i + 1..])
  {
    hide PeerKey, Grantable;
    assert peers[i..][0] == peers[i] && peers[i..][1..] == peers[i + 1..];
  }

  lemma KeylessUpTo(peers: seq<Peer>, i: nat)
    requires i < |peers|
    ensures Keyless(peers[..i + 1]) ==
            Keyless(peers[..i]) + if PeerKey(peers[i]).None? && peers[i].paired then [peers[i].name] else []
  {
    hide PeerKey;
    assert peers[..i + 1][..i] == peers[..i];
  }

  lemma OpensUpTo(peers: seq<Peer>, i: nat)
    requires i < |peers| && Opens(peers[..i]) && (PeerKey(peers[i]).Some? ==> Grantable(peers[i]))
    ensures Opens(peers[..i + 1])
  {
    hide PeerKey, Grantable;
    assert peers[..i + 1] == peers[..i] + [peers[i]];
  }

  lemma OpeningSkips(peers: seq<Peer>, i: nat, done: seq<Edit>, missing: seq<string>)
    requires Opening(peers, i, done, missing) && i < |peers| && PeerKey(peers[i]).None?
    ensures Opening(peers, i + 1, done, missing + if peers[i].paired then [peers[i].name] else [])
  {
    hide PeerKey, Grantable, Opens, Openings, Keyless;
    OpeningsFrom(peers, i);
    KeylessUpTo(peers, i);
    OpensUpTo(peers, i);
  }

  lemma OpeningWrites(peers: seq<Peer>, i: nat, done: seq<Edit>, missing: seq<string>)
    requires Opening(peers, i, done, missing) && i < |peers| && PeerKey(peers[i]).Some? && Grantable(peers[i])
    ensures Opening(peers, i + 1, done + [Put(peers[i])], missing)
  {
    hide PeerKey, Grantable, Opens, Openings, Keyless;
    OpeningsFrom(peers, i);
    KeylessUpTo(peers, i);
    OpensUpTo(peers, i);
    var p, rest := peers[i], Openings(peers[i + 1..]);
    assert done + ([Put(p)] + rest) == (done + [Put(p)]) + rest;
  }

  lemma OpeningStops(peers: seq<Peer>, i: nat, done: seq<Edit>, missing: seq<string>)
    requires Opening(peers, i, done, missing) && i < |peers| && PeerKey(peers[i]).Some? && !Grantable(peers[i])
    ensures done == Openings(peers) && !Opens(peers)
  {
    hide PeerKey, Grantable, Openings, Keyless;
    OpeningsFrom(peers, i);
    assert done + [] == done;
  }

  lemma OpeningEnds(peers: seq<Peer>, done: seq<Edit>, missing: seq<string>)
    requires Opening(peers, |peers|, done, missing)
    ensures done == Openings(peers) && Opens(peers) && missing == Keyless(peers)
  {
    hide PeerKey, Grantable;
    assert peers[..|peers|] == peers;
    assert done + [] == done;
  }

  lemma {:induction false} NothingToClear(site: Site, text: string, peers: seq<Peer>)
    requires text == ""
    ensures AfterEdits(site, text, Clears(peers)) == text && Removed(site, text, peers) == []
  {
    if peers != [] {
      var init := peers[..|peers| - 1];
      NothingToClear(site, text, init);
      AfterOneMore(site, text, Clears(init), Clear(peers[|peers| - 1].name));
      assert Split(text) == [""] && Blank("");
    }
  }

  class GrantFiles {
    const site: Site
    var authorizedKeys: string
    var knownHosts: string

    constructor (site: Site, authorizedKeys: string, knownHosts: string)
      ensures this.site == site && this.authorizedKeys == authorizedKeys && this.knownHosts == knownHosts
    {
      this.site, this.authorizedKeys, this.knownHosts := site, authorizedKeys, knownHosts;
    }

    method WriteAuthorizedKey(peer: Peer) returns (ok: bool)
      modifies this`authorizedKeys
      ensures ok <==> Grantable(peer)
      ensures authorizedKeys == AfterEdits(site, old(authorizedKeys), if ok then [Put(peer)] else [])
      ensures ok && '\n' !in site.command ==>
                var lines := Body(authorizedKeys);
                lines != [] && lines[..|lines| - 1] == Unmarked(Body(old(authorizedKeys)), peer.name)
                && forall rule :: Reads(rule, lines[|lines| - 1]) == Granted(rule, site, peer)
    {
      var key := PeerKey(peer);
      if key.None? || !ValidName(peer.name) || !ValidAddress(peer.meshIp) { return false; }
      AfterOneMore(site, authorizedKeys, [], Put(peer));
      assert [] + [Put(peer)] == [Put(peer)];
      if '\n' !in site.command { EditBody(site, authorizedKeys, Put(peer)); }
      forall rule ensures Reads(rule, GrantLine(site, peer)) == Granted(rule, site, peer) {
        SshdReadsTheGrant(rule, site, peer);
      }
      authorizedKeys := ReplaceMarked(authorizedKeys, peer.name, [GrantLine(site, peer)]);
      return true;
    }

    method CloseInboundDoor(peers: seq<Peer>) returns (removed: seq<string>)
      modifies this`authorizedKeys
      ensures authorizedKeys == AfterEdits(site, old(authorizedKeys), Clears(peers))
      ensures removed == Removed(site, old(authorizedKeys), peers)
    {
      removed := [];
      var existing := authorizedKeys;
      if existing == "" {
        NothingToClear(site, existing, peers);
        return;
      }
      var next := existing;
      for i := 0 to |peers|
        invariant authorizedKeys == existing
        invariant next == AfterEdits(site, existing, Clears(peers[..i]))
        invariant removed == Removed(site, existing, peers[..i])
      {
        ClearsOneMore(site, existing, peers, i);
        var after := ReplaceMarked(next, peers[i].name, []);
        if after != next { removed := removed + [peers[i].name]; }
        next := after;
      }
      assert peers[..|peers|] == peers;
      if next != existing { authorizedKeys := next; }
    }

    method OpenInboundDoor(peers: seq<Peer>) returns (ok: bool, restored: seq<string>, missingKey: seq<string>)
      modifies this`authorizedKeys
      ensures authorizedKeys == AfterEdits(site, old(authorizedKeys), Openings(peers))
      ensures ok <==> Opens(peers)
      ensures restored == Abouts(Openings(peers))
      ensures ok ==> missingKey == Keyless(peers)
    {
      restored, missingKey := [], [];
      ghost var done: seq<Edit> := [];
      for i := 0 to |peers|
        invariant Opening(peers, i, done, missingKey)
        invariant authorizedKeys == AfterEdits(site, old(authorizedKeys), done)
        invariant restored == Abouts(done)
      {
        if PeerKey(peers[i]).None? {
          OpeningSkips(peers, i, done, missingKey);
          if peers[i].paired { missingKey := missingKey + [peers[i].name]; }
        } else {
          var written := WriteAuthorizedKey(peers[i]);
          if !written {
            OpeningStops(peers, i, done, missingKey);
            return false, restored, missingKey;
          }
          OpeningWrites(peers, i, done, missingKey);
          OneMorePut(site, old(authorizedKeys), done, peers[i]);
          done := done + [Put(peers[i])];
          restored := restored + [peers[i].name];
        }
      }
      OpeningEnds(peers, done, missingKey);
      ok := true;
    }

    method RevokePeer(machine: string) returns (ok: bool)
      modifies this`authorizedKeys, this`knownHosts
      ensures ok <==> ValidName(machine)
      ensures authorizedKeys == AfterEdits(site, old(authorizedKeys), if ok then [Clear(machine)] else [])
      ensures knownHosts == AfterEdits(site, old(knownHosts), if ok then [Clear(machine)] else [])
    {
      if !ValidName(machine) { return false; }
      AfterOneMore(site, authorizedKeys, [], Clear(machine));
      AfterOneMore(site, knownHosts, [], Clear(machine));
      assert [] + [Clear(machine)] == [Clear(machine)];
      assert Split("") == [""] && Blank("");
      if authorizedKeys != "" { authorizedKeys := ReplaceMarked(authorizedKeys, machine, []); }
      if knownHosts != "" { knownHosts := ReplaceMarked(knownHosts, machine, []); }
      return true;
    }

    method RecoverStoredPeerKeys() returns (found: map<string, string>)
      ensures found == Recovered(Split(authorizedKeys))
    {
      found := map[];
      var lines := Split(authorizedKeys);
      for i := 0 to |lines|
        invariant found == Recovered(lines[..i])
      {
        assert lines[..i + 1][..i] == lines[..i];
        var grant := RecoverLine(lines[i]);
        if grant.Some? { found := found[grant.value.0 := grant.value.1]; }
      }
      assert lines[..|lines|] == lines;
    }
  }
}
