/** The JavaScript string operations the fleet's file formats are built from: line splitting and
    joining, trimming, codepoint comparison and decimal rendering. */
module Text {

  // ---------------------------------------------------------------- characters

  /** The characters JavaScript's `\s` and `trim()` treat as white space. */
  predicate IsSpace(c: char) {
    var n := c as int;
    9 <= n <= 13 || n == 0x20 || n == 0xA0 || n == 0x1680 || 0x2000 <= n <= 0x200A
    || n == 0x2028 || n == 0x2029 || n == 0x202F || n == 0x205F || n == 0x3000 || n == 0xFEFF
  }

  predicate IsDigit(c: char) { '0' <= c <= '9' }

  predicate NoSpace(s: string) { forall i :: 0 <= i < |s| ==> !IsSpace(s[i]) }

  // ---------------------------------------------------------------- trimming

  function TrimStart(s: string): string {
    if s != "" && IsSpace(s[0]) then TrimStart(s[1..]) else s
  }

  function TrimEnd(s: string): string {
    if s != "" && IsSpace(s[|s| - 1]) then TrimEnd(s[..|s| - 1]) else s
  }

  function Trim(s: string): string { TrimEnd(TrimStart(s)) }

  /** A string that neither starts nor ends with white space. */
  predicate Tight(s: string) {
    s != "" ==> !IsSpace(s[0]) && !IsSpace(s[|s| - 1])
  }

  lemma TrimTight(s: string)
    requires Tight(s)
    ensures Trim(s) == s
  {
  }

  predicate AllSpace(s: string) { forall i :: 0 <= i < |s| ==> IsSpace(s[i]) }

  lemma {:induction false} TrimEndDropsSpace(s: string)
    ensures TrimEnd(s) <= s && AllSpace(s[|TrimEnd(s)|..])
  {
    if s != "" && IsSpace(s[|s| - 1]) {
      TrimEndDropsSpace(s[..|s| - 1]);
    }
  }

  lemma {:induction false} TrimStartDropsSpace(s: string)
    ensures |TrimStart(s)| <= |s|
    ensures s[|s| - |TrimStart(s)|..] == TrimStart(s) && AllSpace(s[..|s| - |TrimStart(s)|])
  {
    if s != "" && IsSpace(s[0]) {
      TrimStartDropsSpace(s[1..]);
    }
  }

  /** Trimming takes the white space off both ends, all of it and nothing else. */
  lemma TrimExactly(s: string)
    ensures Tight(Trim(s))
    ensures exists before, after :: s == before + Trim(s) + after && AllSpace(before) && AllSpace(after)
  {
    TrimStartDropsSpace(s);
    var t := TrimStart(s);
    TrimEndDropsSpace(t);
    TrimmedStarts(s);
    TrimmedEnds(t);
    assert Trim(s) == TrimEnd(t);
    hide TrimStart, TrimEnd, Trim, AllSpace;
    InMiddle(s, t, Trim(s));
    assert AllSpace(s[..|s| - |t|]) && AllSpace(t[|Trim(s)|..]);
  }

  lemma InMiddle(s: string, t: string, u: string)
    requires |t| <= |s| && s[|s| - |t|..] == t && u <= t
    ensures s == s[..|s| - |t|] + u + t[|u|..]
  {
    assert t == u + t[|u|..];
  }

  lemma {:induction false} TrimmedStarts(s: string)
    ensures TrimStart(s) != "" ==> !IsSpace(TrimStart(s)[0])
  {
    if s != "" && IsSpace(s[0]) { TrimmedStarts(s[1..]); }
  }

  lemma {:induction false} TrimmedEnds(s: string)
    ensures TrimEnd(s) != "" ==> !IsSpace(TrimEnd(s)[|TrimEnd(s)| - 1])
  {
    if s != "" && IsSpace(s[|s| - 1]) { TrimmedEnds(s[..|s| - 1]); }
  }

  /** Trimming loses no character that is not white space. */
  lemma TrimKeeps(s: string, i: nat)
    requires i < |s| && !IsSpace(s[i])
    ensures s[i] in Trim(s)
  {
    TrimStartDropsSpace(s);
    var t := TrimStart(s);
    var k := |s| - |t|;
    assert i >= k;
    assert t[i - k] == s[i];
    TrimEndDropsSpace(t);
    var u := TrimEnd(t);
    forall j | |u| <= j < |t|
      ensures IsSpace(t[j])
    {
      assert t[|u|..][j - |u|] == t[j];
    }
    assert u[i - k] == s[i];
  }

  lemma {:induction false} TrimEndPadding(s: string, w: string)
    requires AllSpace(w) && (s != "" ==> !IsSpace(s[|s| - 1]))
    ensures TrimEnd(s + w) == s
  {
    if w == "" {
      assert s + w == s;
    } else {
      assert (s + w)[..|s + w| - 1] == s + w[..|w| - 1];
      TrimEndPadding(s, w[..|w| - 1]);
    }
  }

  // ---------------------------------------------------------------- searching

  /** `s.indexOf(sub)`. */
  function Find(s: string, sub: string): (r: int)
    ensures -1 <= r <= |s| && (r >= 0 ==> sub <= s[r..])
  {
    if sub <= s then 0
    else if s == "" then -1
    else var r := Find(s[1..], sub); if r < 0 then -1 else r + 1
  }

  predicate Contains(s: string, sub: string) { Find(s, sub) >= 0 }

  /** The position found is the first one. */
  lemma {:induction false} FindFirst(s: string, sub: string, k: nat)
    requires k <= |s| && sub <= s[k..]
    ensures 0 <= Find(s, sub) <= k
  {
    if !(sub <= s) {
      assert k > 0 && s[k..] == s[1..][k - 1..];
      FindFirst(s[1..], sub, k - 1);
    }
  }

  // ---------------------------------------------------------------- lines

  /** `s.split('\n')`. */
  function Split(s: string): (r: seq<string>)
    ensures r != []
    ensures forall i :: 0 <= i < |r| ==> '\n' !in r[i]
  {
    if s == "" then [""]
    else
      var rest := Split(s[1..]);
      if s[0] == '\n' then [""] + rest else [[s[0]] + rest[0]] + rest[1..]
  }

  /** `lines.join('\n')`. */
  function Join(lines: seq<string>): string {
    if lines == [] then ""
    else if |lines| == 1 then lines[0]
    else lines[0] + "\n" + Join(lines[1..])
  }

  /** `lines.join('\n') + '\n'`, or nothing for no lines: how every line file here is written. */
  function Unlines(lines: seq<string>): string {
    if lines == [] then "" else lines[0] + "\n" + Unlines(lines[1..])
  }

  lemma {:induction false} JoinNewlineIsUnlines(lines: seq<string>)
    requires lines != []
    ensures Join(lines) + "\n" == Unlines(lines)
  {
    if |lines| == 1 {
      assert lines[1..] == [];
    } else {
      JoinNewlineIsUnlines(lines[1..]);
      assert Join(lines) + "\n" == lines[0] + "\n" + (Join(lines[1..]) + "\n");
    }
  }

  lemma SplitHead(c: char, s: string)
    ensures Split([c] + s) ==
            if c == '\n' then [""] + Split(s) else [[c] + Split(s)[0]] + Split(s)[1..]
  {
    assert ([c] + s)[1..] == s;
  }

  lemma {:induction false} SplitLine(line: string, rest: string)
    requires '\n' !in line
    ensures Split(line + "\n" + rest) == [line] + Split(rest)
  {
    var s := line + "\n" + rest;
    if line == "" {
      assert s[1..] == rest;
    } else {
      SplitLine(line[1..], rest);
      assert s[1..] == line[1..] + "\n" + rest;
      assert [line[0]] + line[1..] == line;
    }
  }

  lemma {:induction false} SplitLast(line: string)
    requires '\n' !in line
    ensures Split(line) == [line]
  {
    if line != "" {
      SplitLast(line[1..]);
      assert [line[0]] + line[1..] == line;
    }
  }

  /** Splitting what `Unlines` wrote gives the lines back, plus the empty piece after the last newline. */
  lemma {:induction false} SplitUnlines(lines: seq<string>)
    requires forall i :: 0 <= i < |lines| ==> '\n' !in lines[i]
    ensures Split(Unlines(lines)) == lines + [""]
  {
    if lines != [] {
      SplitUnlines(lines[1..]);
      SplitLine(lines[0], Unlines(lines[1..]));
      assert [lines[0]] + (lines[1..] + [""]) == lines + [""];
    }
  }

  lemma {:induction false} SplitJoin(lines: seq<string>)
    requires lines != []
    requires forall i :: 0 <= i < |lines| ==> '\n' !in lines[i]
    ensures Split(Join(lines)) == lines
  {
    if |lines| == 1 {
      SplitLast(lines[0]);
    } else {
      SplitJoin(lines[1..]);
      SplitLine(lines[0], Join(lines[1..]));
    }
  }

  /** Splitting a text that ends a line, followed by more text, splits the two parts separately. */
  lemma {:induction false} SplitConcat(a: string, b: string)
    ensures Split(a + "\n" + b) == Split(a) + Split(b)
  {
    if a == "" {
      SplitLine("", b);
      assert "" + "\n" + b == "\n" + b;
    } else {
      var t := a[1..] + "\n" + b;
      assert a + "\n" + b == [a[0]] + t;
      assert [a[0]] + a[1..] == a;
      hide Split;
      SplitConcat(a[1..], b);
      SplitHead(a[0], t);
      SplitHead(a[0], a[1..]);
    }
  }

  // ---------------------------------------------------------------- separators

  /** A separator that neither tail contains splits the text in one way only. */
  lemma SplitAtLast(a1: string, t1: string, a2: string, t2: string, sep: char)
    requires a1 + [sep] + t1 == a2 + [sep] + t2
    requires sep !in t1 && sep !in t2
    ensures a1 == a2 && t1 == t2
  {
    var s := a1 + [sep] + t1;
    if |a1| < |a2| {
      SeparatorInside(a1, t1, a2, t2, sep);
    } else if |a2| < |a1| {
      SeparatorInside(a2, t2, a1, t1, sep);
    }
    assert a1 == s[..|a1|] && a2 == s[..|a2|];
    assert t1 == s[|a1| + 1..] && t2 == s[|a2| + 1..];
  }

  lemma SeparatorInside(a1: string, t1: string, a2: string, t2: string, sep: char)
    requires a1 + [sep] + t1 == a2 + [sep] + t2 && |a1| < |a2|
    ensures sep in t1
  {
    assert (a1 + [sep] + t1)[|a2|] == (a2 + [sep] + t2)[|a2|] == sep;
    assert t1[|a2| - |a1| - 1] == sep;
  }

  // ---------------------------------------------------------------- codepoint order

  /** `codepointCompare(a, b) < 0`. */
  predicate Less(a: string, b: string) {
    b != "" && (a == "" || a[0] < b[0] || (a[0] == b[0] && Less(a[1..], b[1..])))
  }

  lemma {:induction false} LessTotal(a: string, b: string)
    ensures a == b || Less(a, b) || Less(b, a)
  {
    if a != "" && b != "" && a[0] == b[0] {
      LessTotal(a[1..], b[1..]);
      if a[1..] == b[1..] {
        assert a == [a[0]] + a[1..] && b == [b[0]] + b[1..];
      }
    }
  }

  lemma {:induction false} LessAsymmetric(a: string, b: string)
    requires Less(a, b)
    ensures !Less(b, a) && a != b
  {
    if a != "" && a[0] == b[0] {
      LessAsymmetric(a[1..], b[1..]);
    }
  }

  lemma {:induction false} LessTransitive(a: string, b: string, c: string)
    requires Less(a, b) && Less(b, c)
    ensures Less(a, c)
  {
    if a != "" && a[0] == b[0] && b[0] == c[0] {
      LessTransitive(a[1..], b[1..], c[1..]);
    }
  }

  /** The comparison loop every file here carries its own copy of: negative, zero or positive exactly
      as the codepoint order says. */
  method CodepointCompare(a: string, b: string) returns (r: int)
    ensures r < 0 <==> Less(a, b)
    ensures r == 0 <==> a == b
    ensures r > 0 <==> Less(b, a)
  {
    var len := if |a| < |b| then |a| else |b|;
    for i := 0 to len
      invariant a[..i] == b[..i]
    {
      if a[i] != b[i] {
        LessAfterPrefix(a, b, i);
        LessAfterPrefix(b, a, i);
        return a[i] as int - b[i] as int;
      }
    }
    LessAfterPrefix(a, b, len);
    LessAfterPrefix(b, a, len);
    assert a == a[..len] + a[len..] && b == b[..len] + b[len..];
    r := |a| - |b|;
  }

  lemma {:induction false} LessAfterPrefix(a: string, b: string, i: nat)
    requires i <= |a| && i <= |b| && a[..i] == b[..i]
    ensures Less(a, b) <==> Less(a[i..], b[i..])
  {
    if i != 0 {
      assert a[0] == a[..i][0] == b[..i][0] == b[0];
      assert a[1..][..i - 1] == a[..i][1..] == b[..i][1..] == b[1..][..i - 1];
      LessAfterPrefix(a[1..], b[1..], i - 1);
      assert a[1..][i - 1..] == a[i..] && b[1..][i - 1..] == b[i..];
    }
  }

  /** Codepoint order: at the first place where two strings differ the lower code point comes first, and a string
      comes before any longer one that begins with it. */
  lemma LessExactly(a: string, b: string)
    ensures Less(a, b) <==>
              exists i :: 0 <= i <= |a| && i < |b| && a[..i] == b[..i] && (i == |a| || a[i] < b[i])
  {
    if Less(a, b) { FirstDifference(a, b); }
    if i :| 0 <= i <= |a| && i < |b| && a[..i] == b[..i] && (i == |a| || a[i] < b[i]) {
      LessAfterPrefix(a, b, i);
    }
  }

  lemma {:induction false} FirstDifference(a: string, b: string)
    requires Less(a, b)
    ensures exists i :: 0 <= i <= |a| && i < |b| && a[..i] == b[..i] && (i == |a| || a[i] < b[i])
  {
    if a != "" && a[0] == b[0] {
      FirstDifference(a[1..], b[1..]);
      var i :| 0 <= i <= |a[1..]| && i < |b[1..]| && a[1..][..i] == b[1..][..i]
               && (i == |a[1..]| || a[1..][i] < b[1..][i]);
      assert a[..i + 1] == [a[0]] + a[1..][..i] && b[..i + 1] == [b[0]] + b[1..][..i];
    } else {
      assert a[..0] == b[..0];
    }
  }

  // ---------------------------------------------------------------- decimal rendering

  function Digit(d: nat): (c: char)
    requires d < 10
    ensures IsDigit(c) && c as int == '0' as int + d
  {
    ('0' as int + d) as char
  }

  /** `String(n)` for a non-negative integer. */
  function Decimal(n: nat): (s: string)
    ensures s != ""
    ensures forall i :: 0 <= i < |s| ==> IsDigit(s[i])
  {
    if n < 10 then [Digit(n)] else Decimal(n / 10) + [Digit(n % 10)]
  }

  function DecimalValue(s: string): nat
    requires forall i :: 0 <= i < |s| ==> IsDigit(s[i])
  {
    if s == "" then 0 else
      assert IsDigit(s[|s| - 1]);
      DecimalValue(s[..|s| - 1]) * 10 + (s[|s| - 1] as int - '0' as int)
  }

  lemma {:induction false} DecimalRoundTrip(n: nat)
    ensures DecimalValue(Decimal(n)) == n
  {
    if n >= 10 {
      DecimalRoundTrip(n / 10);
      assert Decimal(n)[..|Decimal(n)| - 1] == Decimal(n / 10);
    } else {
      assert Decimal(n)[..0] == "";
    }
  }

  lemma DecimalInjective(m: nat, n: nat)
    requires Decimal(m) == Decimal(n)
    ensures m == n
  {
    DecimalRoundTrip(m);
    DecimalRoundTrip(n);
  }
}
