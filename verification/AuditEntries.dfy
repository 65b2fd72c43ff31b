/** Audit entries, the line file they are kept in, and the fingerprints the accept baselines match on. */
module AuditEntries {
  import opened Wrappers
  import opened Text

  /** One signed entry. `payload` stands for the remaining signed fields (tsMs, kind, detail). */
  datatype Entry = Entry(machine: string, seqNo: nat, prev: Option<string>, payload: string, sigB64: string)

  /** What this module needs of its collaborators: `encode` is canonicalJson (it throws, here None, on
      a number that overflowed to Infinity while being parsed), `decode` is JSON.parse followed by the
      shape test, `sha256` the hash. */
  datatype Codec = Codec(encode: Entry -> Option<string>, decode: string -> Option<Entry>, sha256: string -> string)

  predicate Encodable(c: Codec, e: Entry) { c.encode(e).Some? }

  predicate AllEncodable(c: Codec, es: seq<Entry>) {
    forall i :: 0 <= i < |es| ==> Encodable(c, es[i])
  }

  /** The bytes of one line. */
  function Bytes(c: Codec, e: Entry): string
    requires Encodable(c, e)
  {
    c.encode(e).value
  }

  /** A JSON object on one line: no control characters, opening and closing brace in place. */
  predicate ObjectLine(b: string) {
    |b| >= 2 && b[0] == '{' && b[|b| - 1] == '}' && '\n' !in b && '\0' !in b
  }

  /** The laws of the canonical encoding: what was encoded is decoded again, and it is one object line. */
  ghost predicate Lawful(c: Codec) {
    forall e :: Encodable(c, e) ==> ObjectLine(Bytes(c, e)) && c.decode(Bytes(c, e)) == Some(e)
  }

  lemma BytesInjective(c: Codec, a: Entry, b: Entry)
    requires Lawful(c) && Encodable(c, a) && Encodable(c, b) && Bytes(c, a) == Bytes(c, b)
    ensures a == b
  {
    assert c.decode(Bytes(c, a)) == Some(a) && c.decode(Bytes(c, b)) == Some(b);
  }

  // ---------------------------------------------------------------- parsing

  datatype Parsed = Parsed(entries: seq<Entry>, malformed: nat, malformedBytes: nat)

  function ParseLine(c: Codec, line: string, p: Parsed): Parsed {
    var t := Trim(line);
    if t == "" then p
    else match c.decode(t)
      case Some(e) => p.(entries := p.entries + [e])
      case None => p.(malformed := p.malformed + 1, malformedBytes := p.malformedBytes + |line|)
  }

  function ParseLines(c: Codec, lines: seq<string>): Parsed {
    if lines == [] then Parsed([], 0, 0)
    else ParseLine(c, lines[|lines| - 1], ParseLines(c, lines[..|lines| - 1]))
  }

  function Parse(c: Codec, raw: string): Parsed { ParseLines(c, Split(raw)) }

  /** parseJsonlLines: one pass over the lines, blank ones skipped, unreadable ones counted. */
  method ParseJsonl(c: Codec, raw: string) returns (p: Parsed)
    ensures p == Parse(c, raw)
  {
    p := Parsed([], 0, 0);
    var lines := Split(raw);
    for i := 0 to |lines|
      invariant p == ParseLines(c, lines[..i])
    {
      assert lines[..i + 1][..i] == lines[..i];
      p := ParseLine(c, lines[i], p);
    }
    assert lines[..|lines|] == lines;
  }

  lemma {:induction false} ParseLinesConcat(c: Codec, a: seq<string>, b: seq<string>)
    ensures ParseLines(c, a + b).entries == ParseLines(c, a).entries + ParseLines(c, b).entries
    ensures ParseLines(c, a + b).malformed == ParseLines(c, a).malformed + ParseLines(c, b).malformed
    ensures ParseLines(c, a + b).malformedBytes == ParseLines(c, a).malformedBytes + ParseLines(c, b).malformedBytes
  {
    if b == [] {
      assert a + b == a;
    } else {
      var n := |b| - 1;
      assert (a + b)[..|a + b| - 1] == a + b[..n];
      ParseLinesConcat(c, a, b[..n]);
    }
  }

  /** What each line adds to the whole, in its place: nothing if it is blank, one entry if its text decodes, and
      one damaged line of its length otherwise. */
  lemma EveryLineCounts(c: Codec, before: seq<string>, line: string, after: seq<string>)
    ensures var p, q := ParseLines(c, before), ParseLines(c, after);
            var t := Trim(line);
            ParseLines(c, before + [line] + after) ==
            if t == "" then
              Parsed(p.entries + q.entries, p.malformed + q.malformed, p.malformedBytes + q.malformedBytes)
            else if c.decode(t).Some? then
              Parsed(p.entries + [c.decode(t).value] + q.entries,
                     p.malformed + q.malformed, p.malformedBytes + q.malformedBytes)
            else Parsed(p.entries + q.entries,
                        p.malformed + 1 + q.malformed, p.malformedBytes + |line| + q.malformedBytes)
  {
    ParseLinesConcat(c, before + [line], after);
    assert (before + [line])[..|before|] == before;
  }

  /** How every writer here extends a file: a missing final newline is supplied first. */
  function Merge(a: string, b: string): string {
    if a == "" || a[|a| - 1] == '\n' then a + b else a + "\n" + b
  }

  lemma ParseMerge(c: Codec, a: string, b: string)
    ensures Parse(c, Merge(a, b)).entries == Parse(c, a).entries + Parse(c, b).entries
  {
    if a == "" {
      assert Merge(a, b) == b;
      assert ParseLines(c, [""][..0]) == Parsed([], 0, 0);
    } else if a[|a| - 1] == '\n' {
      var a' := a[..|a| - 1];
      assert a == a' + "\n" + "" && a + b == a' + "\n" + b;
      SplitConcat(a', "");
      SplitConcat(a', b);
      ParseLinesConcat(c, Split(a'), Split(b));
      ParseLinesConcat(c, Split(a'), [""]);
      assert ParseLines(c, [""][..0]) == Parsed([], 0, 0);
    } else {
      SplitConcat(a, b);
      ParseLinesConcat(c, Split(a), Split(b));
    }
  }

  // ---------------------------------------------------------------- rendering

  function AllBytes(c: Codec, es: seq<Entry>): (r: seq<string>)
    requires AllEncodable(c, es)
    ensures |r| == |es|
    ensures forall i :: 0 <= i < |es| ==> r[i] == Bytes(c, es[i])
  {
    seq(|es|, i requires 0 <= i < |es| => assert Encodable(c, es[i]); Bytes(c, es[i]))
  }

  function Render(c: Codec, es: seq<Entry>): string
    requires AllEncodable(c, es)
  {
    Unlines(AllBytes(c, es))
  }

  /** Reading back what was rendered gives the same entries, in the same order, with no damage. */
  lemma ParseRender(c: Codec, es: seq<Entry>)
    requires Lawful(c) && AllEncodable(c, es)
    ensures Parse(c, Render(c, es)) == Parsed(es, 0, 0)
  {
    var bs := AllBytes(c, es);
    assert forall i :: 0 <= i < |bs| ==> bs[i] == Bytes(c, es[i]) && Encodable(c, es[i]) && '\n' !in bs[i];
    SplitUnlines(bs);
    ParseBytes(c, es);
    assert (bs + [""])[..|bs|] == bs;
  }

  lemma {:induction false} ParseBytes(c: Codec, es: seq<Entry>)
    requires Lawful(c) && AllEncodable(c, es)
    ensures ParseLines(c, AllBytes(c, es)) == Parsed(es, 0, 0)
  {
    if es != [] {
      var n := |es| - 1;
      var b := Bytes(c, es[n]);
      assert AllEncodable(c, es[..n]);
      ParseBytes(c, es[..n]);
      assert AllBytes(c, es)[..n] == AllBytes(c, es[..n]);
      assert Encodable(c, es[n]) && Tight(b);
      TrimTight(b);
      assert es[..n] + [es[n]] == es;
    }
  }

  // ---------------------------------------------------------------- keys and fingerprints

  /** `${machine} ${seq}`, the key forks are grouped under. */
  function KeyOf(machine: string, seqNo: nat): string { machine + " " + Decimal(seqNo) }

  lemma KeyInjective(m1: string, s1: nat, m2: string, s2: nat)
    requires KeyOf(m1, s1) == KeyOf(m2, s2)
    ensures m1 == m2 && s1 == s2
  {
    SplitAtLast(m1, Decimal(s1), m2, Decimal(s2), ' ');
    DecimalInjective(s1, s2);
  }

  /** The text forkFingerprint feeds the hash: the key, then each variant behind a NUL. */
  function ForkPreimage(key: string, variants: seq<string>): string {
    if variants == [] then key
    else ForkPreimage(key, variants[..|variants| - 1]) + "\0" + variants[|variants| - 1]
  }

  predicate ObjectLines(bs: seq<string>) { forall i :: 0 <= i < |bs| ==> ObjectLine(bs[i]) }

  lemma PreimageEnd(key: string, variants: seq<string>)
    requires key != "" && IsDigit(key[|key| - 1]) && ObjectLines(variants)
    ensures ForkPreimage(key, variants) != ""
    ensures ForkPreimage(key, variants)[|ForkPreimage(key, variants)| - 1] == '}' <==> variants != []
  {
    if variants != [] {
      assert ObjectLine(variants[|variants| - 1]);
    }
  }

  /** A machine name may itself hold a NUL, yet the preimage still determines key and variants: a key
      ends in a digit and a variant in a brace. */
  lemma {:induction false} ForkPreimageInjective(k1: string, v1: seq<string>, k2: string, v2: seq<string>)
    requires k1 != "" && IsDigit(k1[|k1| - 1]) && k2 != "" && IsDigit(k2[|k2| - 1])
    requires ObjectLines(v1) && ObjectLines(v2)
    requires ForkPreimage(k1, v1) == ForkPreimage(k2, v2)
    ensures k1 == k2 && v1 == v2
  {
    PreimageEnd(k1, v1);
    PreimageEnd(k2, v2);
    if v1 != [] {
      var n1, n2 := |v1| - 1, |v2| - 1;
      SplitAtLast(ForkPreimage(k1, v1[..n1]), v1[n1], ForkPreimage(k2, v2[..n2]), v2[n2], '\0');
      ForkPreimageInjective(k1, v1[..n1], k2, v2[..n2]);
      assert v1 == v1[..n1] + [v1[n1]] && v2 == v2[..n2] + [v2[n2]];
    }
  }

  /** The text gapFingerprint feeds the hash. */
  function GapPreimage(machine: string, fromExclusive: nat, toExclusive: nat): string {
    machine + "\0" + Decimal(fromExclusive) + "\0" + Decimal(toExclusive)
  }

  lemma GapPreimageInjective(m1: string, f1: nat, t1: nat, m2: string, f2: nat, t2: nat)
    requires GapPreimage(m1, f1, t1) == GapPreimage(m2, f2, t2)
    ensures m1 == m2 && f1 == f2 && t1 == t2
  {
    SplitAtLast(m1 + "\0" + Decimal(f1), Decimal(t1), m2 + "\0" + Decimal(f2), Decimal(t2), '\0');
    SplitAtLast(m1, Decimal(f1), m2, Decimal(f2), '\0');
    DecimalInjective(f1, f2);
    DecimalInjective(t1, t2);
  }
}
