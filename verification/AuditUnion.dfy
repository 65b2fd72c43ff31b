/** The union log: whatever soup of lines git's line merge leaves behind, regeneration turns it into one
    canonical text. The text is a function of the SET of entries, so regeneration is a join. */
module AuditUnion {
  import opened Wrappers
  import opened Text
  import opened Sorting
  import opened AuditEntries

  // ---------------------------------------------------------------- the order of the file

  function BytesOrEmpty(c: Codec, e: Entry): string {
    if Encodable(c, e) then Bytes(c, e) else ""
  }

  /** The comparator of the file: machine, then seq, then bytes. */
  predicate Before(c: Codec, a: Entry, b: Entry) {
    Less(a.machine, b.machine)
    || (a.machine == b.machine
        && (a.seqNo < b.seqNo || (a.seqNo == b.seqNo && Less(BytesOrEmpty(c, a), BytesOrEmpty(c, b)))))
  }

  function FileOrder(c: Codec): (Entry, Entry) -> bool { (a, b) => Before(c, a, b) }

  function EncodableIn(c: Codec): Entry -> bool { e => Encodable(c, e) }

  lemma FileOrderTotal(c: Codec)
    requires Lawful(c)
    ensures StrictTotalOn(FileOrder(c), EncodableIn(c))
  {
    var less, dom := FileOrder(c), EncodableIn(c);
    forall a | dom(a) ensures !less(a, a) {
      if Less(a.machine, a.machine) { LessAsymmetric(a.machine, a.machine); }
      if Less(Bytes(c, a), Bytes(c, a)) { LessAsymmetric(Bytes(c, a), Bytes(c, a)); }
    }
    forall a, b | dom(a) && dom(b) ensures a == b || less(a, b) || less(b, a) {
      LessTotal(a.machine, b.machine);
      LessTotal(Bytes(c, a), Bytes(c, b));
      if Bytes(c, a) == Bytes(c, b) { BytesInjective(c, a, b); }
    }
    forall x, y, z | dom(x) && dom(y) && dom(z) && less(x, y) && less(y, z) ensures less(x, z) {
      if Less(x.machine, y.machine) && Less(y.machine, z.machine) {
        LessTransitive(x.machine, y.machine, z.machine);
      }
      if Less(Bytes(c, x), Bytes(c, y)) && Less(Bytes(c, y), Bytes(c, z)) {
        LessTransitive(Bytes(c, x), Bytes(c, y), Bytes(c, z));
      }
    }
  }

  // ---------------------------------------------------------------- the canonical text

  /** The distinct entries in file order. */
  function Canon(c: Codec, es: seq<Entry>): seq<Entry> { SortedSet(FileOrder(c), es) }

  lemma CanonShape(c: Codec, es: seq<Entry>)
    requires Lawful(c) && AllEncodable(c, es)
    ensures AllEncodable(c, Canon(c, es))
    ensures SameElements(Canon(c, es), es) && Ascending(FileOrder(c), Canon(c, es))
  {
    FileOrderTotal(c);
    SortedSetCorrect(FileOrder(c), EncodableIn(c), es);
    forall i | 0 <= i < |Canon(c, es)| ensures Encodable(c, Canon(c, es)[i]) {
      assert Canon(c, es)[i] in Canon(c, es);
    }
  }

  /** What regeneration leaves in a file holding `raw`; canonicalJson throws on an entry it cannot encode. */
  function Regenerated(c: Codec, raw: string): Result<string, ()>
    requires Lawful(c)
  {
    var es := Parse(c, raw).entries;
    if !AllEncodable(c, es) then Err(()) else
      CanonShape(c, es);
      Ok(Render(c, Canon(c, es)))
  }

  /** Regeneration never fails on entries the canonical encoding accepts, and fails on any other text. */
  lemma RegeneratedFails(c: Codec, raw: string)
    requires Lawful(c)
    ensures Regenerated(c, raw).Err? <==> exists e :: e in Parse(c, raw).entries && !Encodable(c, e)
  {
    var es := Parse(c, raw).entries;
    if !AllEncodable(c, es) {
      var i :| 0 <= i < |es| && !Encodable(c, es[i]);
      assert es[i] in es;
    }
  }

  /** One parsed number that overflowed is enough: a line holding it stops the regeneration of every
      file it is appended to. */
  lemma OverflowStopsRegeneration(c: Codec, raw: string, line: string, e: Entry)
    requires Lawful(c) && ObjectLine(line) && c.decode(line) == Some(e) && !Encodable(c, e)
    ensures Regenerated(c, Merge(raw, line)).Err?
  {
    ParseMerge(c, raw, line);
    SplitLast(line);
    TrimTight(line);
    assert ParseLines(c, [line][..0]) == Parsed([], 0, 0);
    assert e in Parse(c, Merge(raw, line)).entries;
    RegeneratedFails(c, Merge(raw, line));
  }

  // ---------------------------------------------------------------- regeneration is a join

  /** Two texts regenerate to the same bytes exactly when they hold the same set of entries, whatever
      the order, the repetitions, the damaged lines and the white space. */
  lemma BytesAreAFunctionOfTheSet(c: Codec, a: string, b: string)
    requires Lawful(c) && Regenerated(c, a).Ok? && Regenerated(c, b).Ok?
    ensures Regenerated(c, a) == Regenerated(c, b)
       <==> SameElements(Parse(c, a).entries, Parse(c, b).entries)
  {
    var ea, eb := Parse(c, a).entries, Parse(c, b).entries;
    CanonShape(c, ea);
    CanonShape(c, eb);
    if SameElements(ea, eb) {
      FileOrderTotal(c);
      SortedSetDependsOnSet(FileOrder(c), EncodableIn(c), ea, eb);
    }
    if Regenerated(c, a) == Regenerated(c, b) {
      ParseRender(c, Canon(c, ea));
      ParseRender(c, Canon(c, eb));
    }
  }

  /** The regenerated text lists its entries by machine in codepoint order, then by seq as a number, then, where
      two share both, by their bytes. */
  lemma RegeneratedIsInOrder(c: Codec, raw: string, i: nat, j: nat)
    requires Lawful(c) && Regenerated(c, raw).Ok?
    requires i < j < |Parse(c, Regenerated(c, raw).value).entries|
    ensures var es := Parse(c, Regenerated(c, raw).value).entries;
            && Encodable(c, es[i]) && Encodable(c, es[j])
            && (|| Less(es[i].machine, es[j].machine)
                || (es[i].machine == es[j].machine && es[i].seqNo < es[j].seqNo)
                || (es[i].machine == es[j].machine && es[i].seqNo == es[j].seqNo
                    && Less(Bytes(c, es[i]), Bytes(c, es[j]))))
  {
    var es := Parse(c, raw).entries;
    CanonShape(c, es);
    ParseRender(c, Canon(c, es));
    var canon := Canon(c, es);
    hide Canon;
    assert FileOrder(c)(canon[i], canon[j]);
    assert Encodable(c, canon[i]) && Encodable(c, canon[j]);
  }

  /** The regenerated text holds exactly the entries that were there, no line of it is damaged, and
      regenerating it again changes nothing. */
  lemma RegeneratedKeepsEveryEntry(c: Codec, raw: string)
    requires Lawful(c) && Regenerated(c, raw).Ok?
    ensures SameElements(Parse(c, Regenerated(c, raw).value).entries, Parse(c, raw).entries)
    ensures Parse(c, Regenerated(c, raw).value).malformed == 0
    ensures Regenerated(c, Regenerated(c, raw).value) == Regenerated(c, raw)
  {
    var es := Parse(c, raw).entries;
    CanonShape(c, es);
    ParseRender(c, Canon(c, es));
    FileOrderTotal(c);
    SortedSetDependsOnSet(FileOrder(c), EncodableIn(c), es, Canon(c, es));
  }

  /** Regenerating one side first makes no difference to what merging it with more lines regenerates to;
      nor does the order of the two sides. */
  lemma JoinLaws(c: Codec, a: string, b: string, d: string)
    requires Lawful(c)
    requires Regenerated(c, a).Ok? && Regenerated(c, b).Ok? && Regenerated(c, d).Ok?
    ensures Regenerated(c, Merge(Regenerated(c, a).value, b)) == Regenerated(c, Merge(a, b))
    ensures Regenerated(c, Merge(a, b)) == Regenerated(c, Merge(b, a))
    ensures Regenerated(c, Merge(Merge(a, b), d)) == Regenerated(c, Merge(a, Merge(b, d)))
    ensures Regenerated(c, Merge(a, a)) == Regenerated(c, a)
    ensures Regenerated(c, Merge(a, b)).Ok?
  {
    var ra := Regenerated(c, a).value;
    RegeneratedKeepsEveryEntry(c, a);
    MergedEntries(c, a, b);
    MergedEntries(c, b, a);
    MergedEntries(c, ra, b);
    MergedEntries(c, Merge(a, b), d);
    MergedEntries(c, b, d);
    MergedEntries(c, a, Merge(b, d));
    MergedEntries(c, a, a);
    hide Regenerated, Merge, Parse;
    BytesAreAFunctionOfTheSet(c, Merge(ra, b), Merge(a, b));
    BytesAreAFunctionOfTheSet(c, Merge(a, b), Merge(b, a));
    BytesAreAFunctionOfTheSet(c, Merge(Merge(a, b), d), Merge(a, Merge(b, d)));
    BytesAreAFunctionOfTheSet(c, Merge(a, a), a);
  }

  /** Merging two texts that regenerate gives one that does, with the entries of both. */
  lemma MergedEntries(c: Codec, a: string, b: string)
    requires Lawful(c) && Regenerated(c, a).Ok? && Regenerated(c, b).Ok?
    ensures Regenerated(c, Merge(a, b)).Ok?
    ensures Parse(c, Merge(a, b)).entries == Parse(c, a).entries + Parse(c, b).entries
  {
    ParseMerge(c, a, b);
  }

  // ---------------------------------------------------------------- flushing the local log

  /** What flushing the local log `local` leaves in a union file holding `union`. */
  function Flushed(c: Codec, local: string, union: string): Result<string, ()>
    requires Lawful(c)
  {
    var es := Parse(c, local).entries;
    if !AllEncodable(c, es) then Err(())
    else if es == [] then Regenerated(c, union)
    else Regenerated(c, Merge(union, Render(c, es)))
  }

  /** A flush adds exactly the local entries; flushing twice equals flushing once; and two machines that
      flush their logs into each other's files, in either order, end with the same bytes. */
  lemma FlushLaws(c: Codec, local: string, other: string, union: string)
    requires Lawful(c)
    requires Flushed(c, local, union).Ok? && Flushed(c, other, union).Ok?
    ensures SameElements(Parse(c, Flushed(c, local, union).value).entries,
                         Parse(c, union).entries + Parse(c, local).entries)
    ensures Flushed(c, local, Flushed(c, local, union).value) == Flushed(c, local, union)
    ensures Flushed(c, other, Flushed(c, local, union).value) == Flushed(c, local, Flushed(c, other, union).value)
  {
    var f, g := Flushed(c, local, union).value, Flushed(c, other, union).value;
    FlushElements(c, local, union);
    FlushElements(c, other, union);
    FlushElements(c, local, f);
    FlushElements(c, other, f);
    FlushElements(c, local, g);
    assert SameElements(Parse(c, Flushed(c, other, f).value).entries, Parse(c, Flushed(c, local, g).value).entries);
    FixedPoint(c, Flushed(c, other, f).value, Flushed(c, local, g).value);
    FixedPoint(c, Flushed(c, local, f).value, f);
  }

  /** A text that is already canonical. */
  ghost predicate Canonical(c: Codec, raw: string)
    requires Lawful(c)
  {
    Regenerated(c, raw) == Ok(raw)
  }

  lemma FixedPoint(c: Codec, a: string, b: string)
    requires Lawful(c) && Canonical(c, a) && Canonical(c, b)
    requires SameElements(Parse(c, a).entries, Parse(c, b).entries)
    ensures a == b
  {
    BytesAreAFunctionOfTheSet(c, a, b);
  }

  lemma FlushElements(c: Codec, local: string, union: string)
    requires Lawful(c) && AllEncodable(c, Parse(c, local).entries)
    requires AllEncodable(c, Parse(c, union).entries) || Flushed(c, local, union).Ok?
    ensures Flushed(c, local, union).Ok? && Canonical(c, Flushed(c, local, union).value)
    ensures AllEncodable(c, Parse(c, Flushed(c, local, union).value).entries)
    ensures SameElements(Parse(c, Flushed(c, local, union).value).entries,
                         Parse(c, union).entries + Parse(c, local).entries)
  {
    var es := Parse(c, local).entries;
    if es == [] {
      RegeneratedKeepsEveryEntry(c, union);
    } else {
      ParseMerge(c, union, Render(c, es));
      ParseRender(c, es);
      RegeneratedKeepsEveryEntry(c, Merge(union, Render(c, es)));
    }
  }

  // ---------------------------------------------------------------- forks

  /** The distinct lines held under one key. */
  ghost function Variants(c: Codec, es: seq<Entry>, key: string): set<string> {
    set e | e in es && KeyOf(e.machine, e.seqNo) == key :: BytesOrEmpty(c, e)
  }

  /** `forkFingerprint(key, lines)`. */
  function ForkFingerprint(c: Codec, key: string, lines: seq<string>): string {
    c.sha256(ForkPreimage(key, SortedSet(StringOrder(), lines)))
  }

  ghost function SeqOfSet(S: set<string>): (r: seq<string>)
    ensures Distinct(r) && forall x :: x in r <==> x in S
  {
    if S == {} then [] else var x :| x in S; [x] + SeqOfSet(S - {x})
  }

  /** The fingerprint of a set of lines; the order in which the lines were met plays no part in it. */
  ghost function SetFingerprint(c: Codec, key: string, variants: set<string>): string {
    ForkFingerprint(c, key, SeqOfSet(variants))
  }

  lemma FingerprintOfSet(c: Codec, key: string, lines: seq<string>, variants: set<string>)
    requires variants == set l | l in lines
    ensures ForkFingerprint(c, key, lines) == SetFingerprint(c, key, variants)
  {
    StringOrderTotal();
    SortedSetDependsOnSet(StringOrder(), AnyString(), lines, SeqOfSet(variants));
  }

  datatype ForkRecord = ForkRecord(key: string, fingerprint: string)

  /** `f` records a fork that is really there: two or more distinct lines under its key. */
  ghost predicate IsForkOf(c: Codec, es: seq<Entry>, f: ForkRecord) {
    && |Variants(c, es, f.key)| > 1
    && f.fingerprint == SetFingerprint(c, f.key, Variants(c, es, f.key))
  }

  /** No two records are of one key. */
  predicate OnePerKey(forks: seq<ForkRecord>) {
    forall i, j :: 0 <= i < j < |forks| ==> forks[i].key != forks[j].key
  }

  function Unaccepted(forks: seq<ForkRecord>, accepted: set<string>): (r: seq<ForkRecord>)
    ensures forall f :: f in r <==> f in forks && f.fingerprint !in accepted
    ensures OnePerKey(forks) ==> OnePerKey(r)
  {
    if forks == [] then []
    else
      assert forall f :: f in forks <==> f == forks[0] || f in forks[1..];
      (if forks[0].fingerprint in accepted then [] else [forks[0]]) + Unaccepted(forks[1..], accepted)
  }

  // ---------------------------------------------------------------- the regenerator

  datatype RegenerateResult = RegenerateResult(
    entries: seq<Entry>, changed: bool, droppedDuplicates: nat, droppedMalformed: nat,
    conflictingForks: nat, forks: seq<ForkRecord>, unacceptedForks: nat)

  function WithKey(es: seq<Entry>, key: string): seq<Entry> {
    if es == [] then []
    else
      var last := es[|es| - 1];
      var rest := WithKey(es[..|es| - 1], key);
      if KeyOf(last.machine, last.seqNo) == key then rest + [last] else rest
  }

  lemma {:induction false} WithKeyElements(es: seq<Entry>, key: string)
    ensures forall e :: e in WithKey(es, key) <==> e in es && KeyOf(e.machine, e.seqNo) == key
  {
    if es != [] {
      WithKeyElements(es[..|es| - 1], key);
      assert forall e :: e in es <==> e in es[..|es| - 1] || e == es[|es| - 1];
    }
  }

  /** The number of entries held under the given keys. */
  function CountUnder(es: seq<Entry>, keys: seq<string>): nat {
    if keys == [] then 0
    else CountUnder(es, keys[..|keys| - 1]) + |WithKey(es, keys[|keys| - 1])|
  }

  lemma {:induction false} CountUnderAll(es: seq<Entry>, keys: seq<string>)
    requires Distinct(keys)
    requires forall e :: e in es ==> KeyOf(e.machine, e.seqNo) in keys
    ensures CountUnder(es, keys) == |es|
  {
    if es == [] {
      CountUnderEmpty(keys);
    } else {
      var init, last := es[..|es| - 1], es[|es| - 1];
      CountUnderAll(init, keys);
      assert last in es;
      CountUnderStep(es, keys);
    }
  }

  lemma {:induction false} CountUnderEmpty(keys: seq<string>)
    ensures CountUnder([], keys) == 0
  {
    if keys != [] { CountUnderEmpty(keys[..|keys| - 1]); }
  }

  lemma {:induction false} CountUnderStep(es: seq<Entry>, keys: seq<string>)
    requires es != [] && Distinct(keys)
    ensures var last := es[|es| - 1];
            CountUnder(es, keys) == CountUnder(es[..|es| - 1], keys)
                                       + if KeyOf(last.machine, last.seqNo) in keys then 1 else 0
  {
    if keys != [] {
      var n := |keys| - 1;
      CountUnderStep(es, keys[..n]);
      assert keys == keys[..n] + [keys[n]];
      assert keys[n] !in keys[..n];
    }
  }

  class UnionFile {
    var text: string

    constructor (text: string)
      ensures this.text == text
    {
      this.text := text;
    }

    /** regenerateUnionLog: group by key, keep every distinct line of each group, sort, rewrite. */
    method Regenerate(c: Codec, accepted: set<string>) returns (r: Result<RegenerateResult, ()>)
      requires Lawful(c)
      modifies this
      ensures var es := old(Parse(c, text).entries);
              if !AllEncodable(c, es) then r.Err? && text == old(text)
              else
                && Ok(text) == Regenerated(c, old(text))
                && r.Ok? && r.value.entries == Canon(c, es) && r.value.changed == (text != old(text))
                && |r.value.entries| + r.value.droppedDuplicates == |es|
                && r.value.droppedMalformed == old(Parse(c, text).malformed)
                && r.value.conflictingForks == |r.value.forks|
                && r.value.unacceptedForks == |Unaccepted(r.value.forks, accepted)|
                && OnePerKey(r.value.forks) && (forall f :: f in r.value.forks ==> IsForkOf(c, es, f))
                && (forall e :: e in es && |Variants(c, es, KeyOf(e.machine, e.seqNo))| > 1
                      ==> HasFork(r.value.forks, KeyOf(e.machine, e.seqNo)))
    {
      var raw := text;
      var parsed := ParseJsonl(c, raw);
      var es := parsed.entries;
      var grouped, groups, order := GroupByKey(c, es);
      if !grouped { return Err(()); }
      var kept, duplicates, forks := KeepDistinct(c, es, groups, order);
      FileOrderTotal(c);
      assert AllIn(EncodableIn(c), kept);
      SortedSetLength(FileOrder(c), EncodableIn(c), kept);
      SortedSetDependsOnSet(FileOrder(c), EncodableIn(c), kept, es);
      CanonShape(c, es);
      var sorted := SortedSet(FileOrder(c), kept);
      var finalContent := Render(c, sorted);
      var changed := finalContent != raw;
      if changed { text := finalContent; }
      r := Ok(RegenerateResult(sorted, changed, duplicates, parsed.malformed, |forks|, forks,
                               |Unaccepted(forks, accepted)|));
    }

    /** flushLocalToUnion: append the local entries' lines, then regenerate. */
    method FlushLocal(c: Codec, local: string, accepted: set<string>) returns (ok: bool)
      requires Lawful(c)
      modifies this
      ensures ok == Flushed(c, local, old(text)).Ok?
      ensures ok ==> Ok(text) == Flushed(c, local, old(text))
    {
      var parsed := ParseJsonl(c, local);
      if !AllEncodable(c, parsed.entries) { return false; }
      if parsed.entries != [] {
        text := Merge(text, Render(c, parsed.entries));
      }
      var r := Regenerate(c, accepted);
      ok := r.Ok?;
    }
  }

  ghost predicate Grouped(es: seq<Entry>, groups: map<string, seq<Entry>>, order: seq<string>) {
    && Distinct(order) && (forall k :: k in order <==> k in groups)
    && (forall k :: k in groups ==> groups[k] == WithKey(es, k))
    && (forall e :: e in es ==> KeyOf(e.machine, e.seqNo) in order)
  }

  /** The first loop: encode every entry and group them by key, in order of first appearance. */
  method GroupByKey(c: Codec, es: seq<Entry>)
    returns (ok: bool, groups: map<string, seq<Entry>>, order: seq<string>)
    requires Lawful(c)
    ensures ok == AllEncodable(c, es)
    ensures ok ==> Grouped(es, groups, order)
  {
    ok, groups, order := true, map[], [];
    for i := 0 to |es|
      invariant AllEncodable(c, es[..i])
      invariant Distinct(order) && (forall k :: k in order <==> k in groups)
      invariant forall k :: k in groups ==> groups[k] == WithKey(es[..i], k)
      invariant forall k :: k !in groups ==> WithKey(es[..i], k) == []
    {
      var e := es[i];
      if !Encodable(c, e) { ok := false; return; }
      var key := KeyOf(e.machine, e.seqNo);
      assert es[..i + 1][..i] == es[..i];
      if key in groups {
        groups := groups[key := groups[key] + [e]];
      } else {
        groups := groups[key := [e]];
        order := order + [key];
      }
    }
    assert es[..|es|] == es;
    forall e | e in es ensures KeyOf(e.machine, e.seqNo) in order {
      WithKeyElements(es, KeyOf(e.machine, e.seqNo));
    }
  }

  ghost predicate HasFork(forks: seq<ForkRecord>, key: string) { exists f :: f in forks && f.key == key }

  /** The forks recorded are real, one for each forked key among these and none for another. */
  ghost predicate ForksUnder(c: Codec, es: seq<Entry>, keys: seq<string>, forks: seq<ForkRecord>) {
    && OnePerKey(forks)
    && (forall f :: f in forks ==> IsForkOf(c, es, f) && f.key in keys)
    && (forall k :: k in keys && |Variants(c, es, k)| > 1 ==> HasFork(forks, k))
  }

  lemma ForksOneMore(c: Codec, es: seq<Entry>, keys: seq<string>, key: string, forks: seq<ForkRecord>, f: ForkRecord)
    requires ForksUnder(c, es, keys, forks) && key !in keys
    ensures |Variants(c, es, key)| <= 1 ==> ForksUnder(c, es, keys + [key], forks)
    ensures IsForkOf(c, es, f) && f.key == key ==> ForksUnder(c, es, keys + [key], forks + [f])
  {
    hide IsForkOf, Variants;
    forall k | HasFork(forks, k) ensures HasFork(forks + [f], k) {
      var g :| g in forks && g.key == k;
      assert g in forks + [f];
    }
    assert f in forks + [f];
  }

  /** The entries kept are those under these keys, each once. */
  ghost predicate KeptUnder(es: seq<Entry>, keys: seq<string>, kept: seq<Entry>) {
    Distinct(kept) && forall e :: e in kept <==> e in es && KeyOf(e.machine, e.seqNo) in keys
  }

  lemma KeptOneMore(es: seq<Entry>, keys: seq<string>, key: string, kept: seq<Entry>, distinct: seq<Entry>)
    requires KeptUnder(es, keys, kept) && key !in keys && Distinct(distinct)
    requires forall e :: e in distinct <==> e in es && KeyOf(e.machine, e.seqNo) == key
    ensures KeptUnder(es, keys + [key], kept + distinct)
  {
    hide KeyOf;
    var both := kept + distinct;
    forall i, j | 0 <= i < j < |both| ensures both[i] != both[j] {
      if i < |kept| <= j {
        assert both[i] in kept && both[j] in distinct;
      }
    }
  }

  /** One group: its distinct entries, and the record of its fork if it is one. */
  method GroupLines(c: Codec, es: seq<Entry>, group: seq<Entry>, key: string)
    returns (distinct: seq<Entry>, f: ForkRecord)
    requires Lawful(c) && AllEncodable(c, es) && group == WithKey(es, key)
    ensures Distinct(distinct) && |distinct| <= |group| && |distinct| == |Variants(c, es, key)|
    ensures forall e :: e in distinct <==> e in es && KeyOf(e.machine, e.seqNo) == key
    ensures f.key == key && (|distinct| > 1 ==> IsForkOf(c, es, f))
  {
    WithKeyElements(es, key);
    hide KeyOf, WithKey;
    forall i | 0 <= i < |group| ensures Encodable(c, group[i]) { assert group[i] in group; }
    distinct := DistinctLines(c, group);
    LinesOfDistinct(c, es, distinct, key);
    var lines := LinesOf(c, distinct);
    FingerprintOfSet(c, key, lines, Variants(c, es, key));
    f := ForkRecord(key, ForkFingerprint(c, key, lines));
  }

  /** The second loop: every distinct line of every group is kept, the repetitions are counted, and a
      group with more than one distinct line is a fork. */
  method KeepDistinct(c: Codec, es: seq<Entry>, groups: map<string, seq<Entry>>, order: seq<string>)
    returns (kept: seq<Entry>, duplicates: nat, forks: seq<ForkRecord>)
    requires Lawful(c) && AllEncodable(c, es) && Grouped(es, groups, order)
    ensures Distinct(kept) && SameElements(kept, es) && |kept| + duplicates == |es|
    ensures OnePerKey(forks) && forall f :: f in forks ==> IsForkOf(c, es, f)
    ensures forall e :: e in es && |Variants(c, es, KeyOf(e.machine, e.seqNo))| > 1
              ==> HasFork(forks, KeyOf(e.machine, e.seqNo))
  {
    hide Variants, KeyOf, ForksUnder, KeptUnder, WithKey, IsForkOf, AllEncodable, Lawful, Grouped, Distinct, CountUnder;
    kept, duplicates, forks := [], 0, [];
    NothingVisited(c, es, order);
    for j := 0 to |order|
      invariant KeptUnder(es, order[..j], kept)
      invariant |kept| + duplicates == CountUnder(es, order[..j])
      invariant ForksUnder(c, es, order[..j], forks)
    {
      var key := order[j];
      NextGroup(es, groups, order, j);
      CountOneMore(es, order, j);
      assert order[..j + 1] == order[..j] + [key];
      var distinct, f := GroupLines(c, es, groups[key], key);
      ForksOneMore(c, es, order[..j], key, forks, f);
      KeptOneMore(es, order[..j], key, kept, distinct);
      kept := kept + distinct;
      duplicates := duplicates + (|groups[key]| - |distinct|);
      if |distinct| > 1 {
        forks := forks + [f];
      }
    }
    assert order[..|order|] == order;
    EveryKeyVisited(c, es, groups, order, kept, forks);
  }

  lemma NothingVisited(c: Codec, es: seq<Entry>, order: seq<string>)
    ensures KeptUnder(es, order[..0], []) && CountUnder(es, order[..0]) == 0 && ForksUnder(c, es, order[..0], [])
  {
  }

  lemma CountOneMore(es: seq<Entry>, keys: seq<string>, j: nat)
    requires j < |keys|
    ensures CountUnder(es, keys[..j + 1]) == CountUnder(es, keys[..j]) + |WithKey(es, keys[j])|
  {
    assert keys[..j + 1][..j] == keys[..j];
  }

  lemma NextGroup(es: seq<Entry>, groups: map<string, seq<Entry>>, order: seq<string>, j: nat)
    requires Grouped(es, groups, order) && j < |order|
    ensures order[j] in groups && groups[order[j]] == WithKey(es, order[j]) && order[j] !in order[..j]
  {
    hide WithKey, KeyOf;
  }

  lemma EveryKeyVisited(c: Codec, es: seq<Entry>, groups: map<string, seq<Entry>>, order: seq<string>,
                        kept: seq<Entry>, forks: seq<ForkRecord>)
    requires Grouped(es, groups, order) && KeptUnder(es, order, kept) && ForksUnder(c, es, order, forks)
    ensures Distinct(kept) && SameElements(kept, es) && CountUnder(es, order) == |es|
    ensures OnePerKey(forks) && forall f :: f in forks ==> IsForkOf(c, es, f)
    ensures forall e :: e in es && |Variants(c, es, KeyOf(e.machine, e.seqNo))| > 1
              ==> HasFork(forks, KeyOf(e.machine, e.seqNo))
  {
    CountUnderAll(es, order);
    hide WithKey, KeyOf, Variants, IsForkOf;
  }

  /** The first entry for each distinct line of one group. */
  method DistinctLines(c: Codec, group: seq<Entry>) returns (r: seq<Entry>)
    requires Lawful(c) && AllEncodable(c, group)
    ensures Distinct(r) && SameElements(r, group) && |r| <= |group|
  {
    r := [];
    var seen: set<string> := {};
    for i := 0 to |group|
      invariant Distinct(r) && SameElements(r, group[..i]) && |r| <= i
      invariant forall l :: l in seen <==> exists e :: e in r && BytesOrEmpty(c, e) == l
    {
      var e := group[i];
      assert group[..i + 1] == group[..i] + [e];
      if Bytes(c, e) !in seen {
        assert forall x :: x in r ==> BytesOrEmpty(c, x) in seen;
        assert forall x :: x in r + [e] <==> x in r || x == e;
        assert BytesOrEmpty(c, e) == Bytes(c, e);
        seen := seen + {Bytes(c, e)};
        r := r + [e];
      } else {
        var e' :| e' in r && BytesOrEmpty(c, e') == Bytes(c, e);
        var k :| 0 <= k < i && group[k] == e';
        BytesInjective(c, e', e);
      }
    }
    assert group[..|group|] == group;
  }

  function LinesOf(c: Codec, es: seq<Entry>): (r: seq<string>)
    ensures |r| == |es|
    ensures forall i :: 0 <= i < |es| ==> r[i] == BytesOrEmpty(c, es[i])
  {
    seq(|es|, i requires 0 <= i < |es| => BytesOrEmpty(c, es[i]))
  }

  lemma LinesOfDistinct(c: Codec, es: seq<Entry>, distinct: seq<Entry>, key: string)
    requires Lawful(c) && AllEncodable(c, es) && Distinct(distinct)
    requires forall e :: e in distinct <==> e in es && KeyOf(e.machine, e.seqNo) == key
    ensures Distinct(LinesOf(c, distinct))
    ensures (set l | l in LinesOf(c, distinct)) == Variants(c, es, key)
    ensures |Variants(c, es, key)| == |distinct|
  {
    var ls := LinesOf(c, distinct);
    forall i | 0 <= i < |distinct| ensures Encodable(c, distinct[i]) && ls[i] in Variants(c, es, key) {
      assert distinct[i] in distinct;
    }
    forall i, j | 0 <= i < j < |ls| ensures ls[i] != ls[j] {
      if ls[i] == ls[j] { BytesInjective(c, distinct[i], distinct[j]); }
    }
    forall l | l in Variants(c, es, key) ensures l in ls {
      var e :| e in es && KeyOf(e.machine, e.seqNo) == key && BytesOrEmpty(c, e) == l;
      var i :| 0 <= i < |distinct| && distinct[i] == e;
      assert ls[i] == l;
    }
    DistinctCardinality(ls);
  }

  lemma {:induction false} DistinctCardinality<T>(s: seq<T>)
    requires Distinct(s)
    ensures |set x | x in s| == |s|
  {
    if s != [] {
      DistinctCardinality(s[1..]);
      assert (set x | x in s) == (set x | x in s[1..]) + {s[0]};
    }
  }
}
