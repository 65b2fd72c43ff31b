/** The cross-check reader: signature, fork, chain and gap passes over an assembled entry set, and the
    machine-local baselines of forks and gaps an operator has accepted. */
module AuditCheck {
  import opened Wrappers
  import opened Text
  import opened Sorting
  import opened AuditEntries
  import opened AuditUnion
  import opened AuditGaps
  import opened AuditChain

  datatype Options = Options(trust: Trust, acceptedForks: set<string>, acceptedGaps: set<string>)

  datatype Flag =
    | UnverifiableSigner(entry: Entry)
    | SignatureInvalid(entry: Entry)
    | SeqFork(machine: string, seqNo: nat)
    | BrokenChain(entry: Entry)
    | SeqGap(machine: string, fromExclusive: nat, toExclusive: nat)
  {
    /** The machine a flag concerns. */
    function About(): string {
      match this
      case SeqFork(m, _) => m
      case SeqGap(m, _, _) => m
      case UnverifiableSigner(e) => e.machine
      case SignatureInvalid(e) => e.machine
      case BrokenChain(e) => e.machine
    }
  }

  // ---------------------------------------------------------------- what is flagged

  ghost predicate Forked(c: Codec, es: seq<Entry>, machine: string, seqNo: nat) {
    |Variants(c, es, KeyOf(machine, seqNo))| > 1
  }

  ghost function ForkPrint(c: Codec, es: seq<Entry>, machine: string, seqNo: nat): string {
    SetFingerprint(c, KeyOf(machine, seqNo), Variants(c, es, KeyOf(machine, seqNo)))
  }

  /** The report, flag by flag. */
  ghost predicate Flagged(c: Codec, o: Options, es: seq<Entry>, f: Flag) {
    match f
    case UnverifiableSigner(e) => e in es && e.machine !in o.trust.keys
    case SignatureInvalid(e) => e in es && e.machine in o.trust.keys && !Verified(o.trust, e)
    case SeqFork(m, s) => Forked(c, es, m, s) && ForkPrint(c, es, m, s) !in o.acceptedForks
    case BrokenChain(e) => ChainBroken(c, VerifiedOf(o.trust, es, e.machine), e)
    case SeqGap(m, f, t) => IsGap(SeqsOf(es, m), f, t) && GapFingerprint(c, m, f, t) !in o.acceptedGaps
  }

  // ---------------------------------------------------------------- the verification pass

  ghost predicate CollisionFree(c: Codec) {
    forall a, b :: c.sha256(a) == c.sha256(b) ==> a == b
  }

  /** A cache that only ever held digests of entries that verified, under these keys. */
  ghost predicate HonestCache(c: Codec, t: Trust, digests: set<string>) {
    forall e :: Encodable(c, e) && e.machine in t.keys && Digest(c, e) in digests ==> Verified(t, e)
  }

  class DigestCache {
    var digests: set<string>

    constructor ()
      ensures digests == {}
    {
      digests := {};
    }
  }

  ghost predicate SignatureFlags(c: Codec, o: Options, es: seq<Entry>, flags: seq<Flag>) {
    forall f :: f in flags <==> (f.UnverifiableSigner? || f.SignatureInvalid?) && Flagged(c, o, es, f)
  }

  /** One entry: an unknown machine is flagged, a cached digest taken on trust, anything else checked, and
      remembered if good. */
  method VerifyEntry(c: Codec, o: Options, e: Entry, cache: DigestCache) returns (flag: Option<Flag>)
    requires Lawful(c) && Encodable(c, e) && CollisionFree(c) && HonestCache(c, o.trust, cache.digests)
    modifies cache
    ensures HonestCache(c, o.trust, cache.digests)
    ensures cache.digests == old(cache.digests) + if Verified(o.trust, e) then {Digest(c, e)} else {}
    ensures flag == Some(UnverifiableSigner(e)) <==> e.machine !in o.trust.keys
    ensures flag == Some(SignatureInvalid(e)) <==>
              e.machine in o.trust.keys && !o.trust.verifies(e, o.trust.keys[e.machine])
    ensures flag == None || flag == Some(UnverifiableSigner(e)) || flag == Some(SignatureInvalid(e))
  {
    if e.machine !in o.trust.keys { return Some(UnverifiableSigner(e)); }
    if Digest(c, e) in cache.digests { return None; }
    if !o.trust.verifies(e, o.trust.keys[e.machine]) { return Some(SignatureInvalid(e)); }
    forall x | Encodable(c, x) && Digest(c, x) == Digest(c, e) ensures x == e {
      BytesInjective(c, x, e);
    }
    cache.digests := cache.digests + {Digest(c, e)};
    return None;
  }

  /** The digests of the verified entries. */
  ghost function VerifiedDigests(c: Codec, t: Trust, es: seq<Entry>): set<string> {
    set e | e in es && Verified(t, e) :: Digest(c, e)
  }

  /** One pass over the entries. The flags are those of a pass with no cache at all. */
  method VerifyPass(c: Codec, o: Options, es: seq<Entry>, cache: DigestCache)
    returns (flags: seq<Flag>, verified: set<Entry>)
    requires Lawful(c) && AllEncodable(c, es) && CollisionFree(c)
    requires HonestCache(c, o.trust, cache.digests)
    modifies cache
    ensures HonestCache(c, o.trust, cache.digests)
    ensures cache.digests == old(cache.digests) + VerifiedDigests(c, o.trust, es)
    ensures verified == set e | e in es && Verified(o.trust, e)
    ensures SignatureFlags(c, o, es, flags)
  {
    flags, verified := [], {};
    for i := 0 to |es|
      invariant HonestCache(c, o.trust, cache.digests)
      invariant cache.digests == old(cache.digests) + VerifiedDigests(c, o.trust, es[..i])
      invariant verified == set e | e in es[..i] && Verified(o.trust, e)
      invariant SignatureFlags(c, o, es[..i], flags)
    {
      hide HonestCache, CollisionFree, Lawful, Digest, Verified;
      var e := es[i];
      assert es[..i + 1] == es[..i] + [e];
      assert Encodable(c, e);
      var flag := VerifyEntry(c, o, e, cache);
      SignatureFlagsOneMore(c, o, es[..i], e, flags, flag);
      match flag {
        case Some(f) => flags := flags + [f];
        case None => verified := verified + {e};
      }
      VerifiedNeedsKey(o.trust, e);
      hide SignatureFlags;
    }
    assert es[..|es|] == es;
  }

  lemma VerifiedNeedsKey(t: Trust, e: Entry)
    ensures Verified(t, e) ==> e.machine in t.keys
  {
  }

  lemma SignatureFlagsOneMore(c: Codec, o: Options, es: seq<Entry>, e: Entry, flags: seq<Flag>, flag: Option<Flag>)
    requires SignatureFlags(c, o, es, flags)
    requires flag == if e.machine !in o.trust.keys then Some(UnverifiableSigner(e))
                     else if Verified(o.trust, e) then None else Some(SignatureInvalid(e))
    ensures SignatureFlags(c, o, es + [e], if flag.Some? then flags + [flag.value] else flags)
  {
    hide Verified, Forked, ChainBroken, IsGap;
  }

  // ---------------------------------------------------------------- grouping

  /** The entries held under each seq. */
  ghost predicate BySeq(es: seq<Entry>, groups: map<nat, seq<Entry>>, order: seq<nat>) {
    && (forall s :: s in order <==> s in groups)
    && (forall e :: e in es ==> e.seqNo in groups && e in groups[e.seqNo])
    && (forall s :: s in groups ==> groups[s] != [] && forall e :: e in groups[s] ==> e in es && e.seqNo == s)
  }

  method GroupBySeq(es: seq<Entry>) returns (groups: map<nat, seq<Entry>>, order: seq<nat>)
    ensures BySeq(es, groups, order)
  {
    groups, order := map[], [];
    for i := 0 to |es|
      invariant BySeq(es[..i], groups, order)
    {
      var e := es[i];
      assert es[..i + 1] == es[..i] + [e];
      if e.seqNo in groups {
        groups := groups[e.seqNo := groups[e.seqNo] + [e]];
      } else {
        groups := groups[e.seqNo := [e]];
        order := order + [e.seqNo];
      }
    }
    assert es[..|es|] == es;
  }

  // ---------------------------------------------------------------- the fork pass

  ghost predicate ForkFlags(c: Codec, o: Options, es: seq<Entry>, machine: string, flags: seq<Flag>) {
    forall f :: f in flags <==> f.SeqFork? && f.machine == machine && Flagged(c, o, es, f)
  }

  /** The distinct lines under one seq: how many, and their fingerprint. */
  method SeqLines(c: Codec, es: seq<Entry>, machine: string, s: nat, group: seq<Entry>) returns (n: nat, fp: string)
    requires Lawful(c) && AllEncodable(c, es)
    requires forall e :: e in group <==> e in es && e.machine == machine && e.seqNo == s
    ensures n == |Variants(c, es, KeyOf(machine, s))| && fp == ForkPrint(c, es, machine, s)
  {
    var key := KeyOf(machine, s);
    forall j | 0 <= j < |group| ensures Encodable(c, group[j]) { assert group[j] in group; }
    var distinct := DistinctLines(c, group);
    forall e ensures e in distinct <==> e in es && KeyOf(e.machine, e.seqNo) == key {
      if e in es && KeyOf(e.machine, e.seqNo) == key { KeyInjective(e.machine, e.seqNo, machine, s); }
    }
    hide KeyOf;
    LinesOfDistinct(c, es, distinct, key);
    var lines := LinesOf(c, distinct);
    FingerprintOfSet(c, key, lines, Variants(c, es, key));
    n, fp := |distinct|, ForkFingerprint(c, key, lines);
  }

  lemma GroupOfSeq(es: seq<Entry>, machine: string, mine: seq<Entry>, groups: map<nat, seq<Entry>>, order: seq<nat>,
                   s: nat)
    requires BySeq(mine, groups, order) && s in order
    requires forall e :: e in mine <==> e in es && e.machine == machine
    ensures s in groups && forall e :: e in groups[s] <==> e in es && e.machine == machine && e.seqNo == s
  {
  }

  method ForkPass(c: Codec, o: Options, es: seq<Entry>, machine: string, mine: seq<Entry>,
                  groups: map<nat, seq<Entry>>, order: seq<nat>) returns (flags: seq<Flag>)
    requires Lawful(c) && AllEncodable(c, es) && BySeq(mine, groups, order)
    requires forall e :: e in mine <==> e in es && e.machine == machine
    ensures ForkFlags(c, o, es, machine, flags)
  {
    flags := [];
    for i := 0 to |order|
      invariant forall f :: f in flags <==>
        f.SeqFork? && f.machine == machine && f.seqNo in order[..i] && Flagged(c, o, es, f)
    {
      hide Variants, KeyOf, ForkPrint, Lawful, AllEncodable, BySeq;
      var s := order[i];
      assert order[..i + 1] == order[..i] + [s];
      GroupOfSeq(es, machine, mine, groups, order, s);
      var n, fp := SeqLines(c, es, machine, s, groups[s]);
      if n > 1 && fp !in o.acceptedForks {
        flags := flags + [SeqFork(machine, s)];
      }
    }
    assert order[..|order|] == order;
    forall f: Flag | f.SeqFork? && f.machine == machine && Flagged(c, o, es, f) ensures f.seqNo in order {
      VariantsNamed(c, es, machine, f.seqNo);
    }
  }

  lemma VariantsNamed(c: Codec, es: seq<Entry>, machine: string, s: nat)
    requires Variants(c, es, KeyOf(machine, s)) != {}
    ensures exists e :: e in es && e.machine == machine && e.seqNo == s
  {
    var l :| l in Variants(c, es, KeyOf(machine, s));
    var e :| e in es && KeyOf(e.machine, e.seqNo) == KeyOf(machine, s) && BytesOrEmpty(c, e) == l;
    KeyInjective(e.machine, e.seqNo, machine, s);
  }

  // ---------------------------------------------------------------- the chain pass

  ghost predicate ChainFlags(c: Codec, v: set<Entry>, flags: seq<Flag>) {
    forall f :: f in flags <==> f.BrokenChain? && ChainBroken(c, v, f.entry)
  }

  /** The lowest seq that carries a link, if any does. */
  ghost predicate IsGenesis(v: set<Entry>, g: Option<nat>) {
    match g
    case None => forall e :: e in v ==> e.prev.None?
    case Some(s) => (exists e :: e in v && e.prev.Some? && e.seqNo == s)
                    && forall e :: e in v && e.prev.Some? ==> s <= e.seqNo
  }

  function ElementsOf(es: seq<Entry>): set<Entry> { set e | e in es }

  method FindGenesis(chain: seq<Entry>) returns (g: Option<nat>)
    ensures IsGenesis(ElementsOf(chain), g)
  {
    g := None;
    for i := 0 to |chain|
      invariant IsGenesis(ElementsOf(chain[..i]), g)
    {
      var e := chain[i];
      assert chain[..i + 1] == chain[..i] + [e];
      assert ElementsOf(chain[..i + 1]) == ElementsOf(chain[..i]) + {e};
      if e.prev.Some? && (g.None? || e.seqNo < g.value) { g := Some(e.seqNo); }
    }
    assert chain[..|chain|] == chain;
  }

  /** One entry: broken if it lies above the genesis, something is held under the seq before it, and none of
      that is what it links to. */
  lemma BrokenEntry(c: Codec, chain: seq<Entry>, groups: map<nat, seq<Entry>>, order: seq<nat>, genesis: nat, e: Entry)
    requires BySeq(chain, groups, order) && IsGenesis(ElementsOf(chain), Some(genesis)) && e in chain
    ensures ChainBroken(c, ElementsOf(chain), e) <==>
            e.seqNo > genesis && e.seqNo - 1 in groups
            && (e.prev.None? || e.prev.value !in set p | p in groups[e.seqNo - 1] :: Digest(c, p))
  {
    hide Digest;
    var v := ElementsOf(chain);
    assert AboveGenesis(v, e) <==> e.seqNo > genesis;
    if e.seqNo > genesis && e.seqNo - 1 in groups {
      var group := groups[e.seqNo - 1];
      assert group[0] in group;
      assert HasParent(v, e);
      assert LinkedTo(c, v, e) <==> e.prev.Some? && e.prev.value in set p | p in group :: Digest(c, p);
    }
  }

  method ChainPass(c: Codec, mine: seq<Entry>, verified: set<Entry>) returns (flags: seq<Flag>)
    ensures ChainFlags(c, (set e | e in mine && e in verified), flags)
  {
    var chain: seq<Entry> := [];
    for i := 0 to |mine|
      invariant forall e :: e in chain <==> e in mine[..i] && e in verified
    {
      assert mine[..i + 1] == mine[..i] + [mine[i]];
      if mine[i] in verified { chain := chain + [mine[i]]; }
    }
    assert mine[..|mine|] == mine;
    ghost var v := ElementsOf(chain);
    assert (set e | e in mine && e in verified) == v;
    var groups, order := GroupBySeq(chain);
    var genesis := FindGenesis(chain);
    flags := [];
    if genesis.None? { return; }
    for i := 0 to |chain|
      invariant forall f :: f in flags <==> f.BrokenChain? && f.entry in chain[..i] && ChainBroken(c, v, f.entry)
    {
      hide ChainBroken, Digest, BySeq, IsGenesis, ElementsOf;
      var e := chain[i];
      assert chain[..i + 1] == chain[..i] + [e];
      BrokenEntry(c, chain, groups, order, genesis.value, e);
      if e.seqNo > genesis.value {
        if e.seqNo - 1 in groups {
          var targets := set p | p in groups[e.seqNo - 1] :: Digest(c, p);
          if e.prev.None? || e.prev.value !in targets {
            flags := flags + [BrokenChain(e)];
          }
        }
      }
    }
    assert chain[..|chain|] == chain;
  }

  // ---------------------------------------------------------------- the gap pass

  ghost predicate GapFlags(c: Codec, o: Options, es: seq<Entry>, machine: string, flags: seq<Flag>) {
    forall f :: f in flags <==> f.SeqGap? && f.machine == machine && Flagged(c, o, es, f)
  }

  method GapPass(c: Codec, o: Options, es: seq<Entry>, machine: string, order: seq<nat>) returns (flags: seq<Flag>)
    requires SetOf(order) == SeqsOf(es, machine)
    ensures GapFlags(c, o, es, machine, flags)
  {
    var gaps := SeqGapsOf(c, machine, order);
    flags := [];
    for i := 0 to |gaps|
      invariant forall f :: f in flags <==>
        f.SeqGap? && f.machine == machine && f.fromExclusive < f.toExclusive
        && MakeGap(c, machine, f.fromExclusive, f.toExclusive) in gaps[..i]
        && GapFingerprint(c, machine, f.fromExclusive, f.toExclusive) !in o.acceptedGaps
    {
      var g := gaps[i];
      assert gaps[..i + 1] == gaps[..i] + [g];
      assert g in gaps;
      if g.fingerprint !in o.acceptedGaps {
        flags := flags + [SeqGap(machine, g.fromExclusive, g.toExclusive)];
      }
    }
    assert gaps[..|gaps|] == gaps;
  }

  // ---------------------------------------------------------------- the report

  ghost predicate MachineFlags(c: Codec, o: Options, es: seq<Entry>, machines: seq<string>, flags: seq<Flag>) {
    forall f :: f in flags <==>
      !f.UnverifiableSigner? && !f.SignatureInvalid? && f.About() in machines && Flagged(c, o, es, f)
  }

  method MachinePass(c: Codec, o: Options, es: seq<Entry>, machine: string, verified: set<Entry>)
    returns (flags: seq<Flag>)
    requires Lawful(c) && AllEncodable(c, es)
    requires verified == set e | e in es && Verified(o.trust, e)
    ensures MachineFlags(c, o, es, [machine], flags)
  {
    var mine := MineOf(es, machine);
    var groups, order := GroupBySeq(mine);
    assert SetOf(order) == SeqsOf(es, machine) by {
      forall s | s in order ensures s in SeqsOf(es, machine) {
        assert groups[s][0] in groups[s];
      }
    }
    var forks := ForkPass(c, o, es, machine, mine, groups, order);
    var chain := ChainPass(c, mine, verified);
    assert (set e | e in mine && e in verified) == VerifiedOf(o.trust, es, machine);
    var gaps := GapPass(c, o, es, machine, order);
    flags := forks + chain + gaps;
  }

  /** The entries one machine signed, in the order they were handed over. */
  function MineOf(es: seq<Entry>, machine: string): (r: seq<Entry>)
    ensures forall e :: e in r <==> e in es && e.machine == machine
  {
    if es == [] then []
    else
      assert forall e :: e in es <==> e == es[0] || e in es[1..];
      (if es[0].machine == machine then [es[0]] else []) + MineOf(es[1..], machine)
  }

  /** The entries of one machine that carry a good signature under the key held for it. */
  ghost function Genuine(o: Options, es: seq<Entry>, machine: string): set<Entry> {
    set x | x in es && x.machine == machine && machine in o.trust.keys
            && o.trust.verifies(x, o.trust.keys[machine])
  }

  /** Two different entries under one seq. */
  ghost predicate TwoUnder(es: seq<Entry>, machine: string, seqNo: nat) {
    exists a, b :: a in es && b in es && a != b
                   && a.machine == b.machine == machine && a.seqNo == b.seqNo == seqNo
  }

  /** The machine was observed at `hi`, and at `lo` or that is 0, and at nothing in between although something
      belongs there. */
  ghost predicate MissingBetween(es: seq<Entry>, machine: string, lo: nat, hi: nat) {
    && lo + 1 < hi
    && (exists e :: e in es && e.machine == machine && e.seqNo == hi)
    && (lo == 0 || exists e :: e in es && e.machine == machine && e.seqNo == lo)
    && forall e :: e in es && e.machine == machine ==> e.seqNo <= lo || hi <= e.seqNo
  }

  lemma GapMeansMissing(es: seq<Entry>, machine: string, lo: nat, hi: nat)
    ensures IsGap(SeqsOf(es, machine), lo, hi) <==> MissingBetween(es, machine, lo, hi)
  {
    var seqs := SeqsOf(es, machine);
    assert forall e :: e in es && e.machine == machine ==> e.seqNo in seqs;
    assert forall n :: n in seqs ==> exists e :: e in es && e.machine == machine && e.seqNo == n;
  }

  /** The flags in the reader's own terms: keys, signatures and the entries themselves. */
  lemma FlagsSpelledOut(c: Codec, o: Options, es: seq<Entry>)
    requires Lawful(c) && AllEncodable(c, es)
    ensures forall e :: Flagged(c, o, es, UnverifiableSigner(e)) <==> e in es && e.machine !in o.trust.keys
    ensures forall e :: Flagged(c, o, es, SignatureInvalid(e)) <==>
              e in es && e.machine in o.trust.keys && !o.trust.verifies(e, o.trust.keys[e.machine])
    ensures forall m, s :: Flagged(c, o, es, SeqFork(m, s)) <==>
              TwoUnder(es, m, s) && ForkPrint(c, es, m, s) !in o.acceptedForks
    ensures forall e :: Flagged(c, o, es, BrokenChain(e)) <==> ChainBroken(c, Genuine(o, es, e.machine), e)
    ensures forall m, lo, hi :: Flagged(c, o, es, SeqGap(m, lo, hi)) <==>
              MissingBetween(es, m, lo, hi) && GapFingerprint(c, m, lo, hi) !in o.acceptedGaps
  {
    forall m, lo: nat, hi: nat ensures IsGap(SeqsOf(es, m), lo, hi) <==> MissingBetween(es, m, lo, hi) {
      GapMeansMissing(es, m, lo, hi);
    }
    forall m, s ensures Forked(c, es, m, s) <==> TwoUnder(es, m, s) {
      ForkedMeansTwo(c, es, m, s);
    }
    forall m ensures Genuine(o, es, m) == VerifiedOf(o.trust, es, m) {}
    hide Forked, TwoUnder, ForkPrint, ChainBroken, IsGap, Genuine, VerifiedOf, MissingBetween, GapFingerprint, SeqsOf;
  }

  lemma ForkedMeansTwo(c: Codec, es: seq<Entry>, m: string, s: nat)
    requires Lawful(c) && AllEncodable(c, es)
    ensures Forked(c, es, m, s) <==> TwoUnder(es, m, s)
  {
    var vs := Variants(c, es, KeyOf(m, s));
    if TwoUnder(es, m, s) {
      var a, b :| a in es && b in es && a != b && a.machine == b.machine == m && a.seqNo == b.seqNo == s;
      if !Forked(c, es, m, s) { NoForkOneEntry(c, es, m, a, b); }
    }
    if Forked(c, es, m, s) {
      var l, k := TwoOf(vs);
      var a :| a in es && KeyOf(a.machine, a.seqNo) == KeyOf(m, s) && BytesOrEmpty(c, a) == l;
      var b :| b in es && KeyOf(b.machine, b.seqNo) == KeyOf(m, s) && BytesOrEmpty(c, b) == k;
      KeyInjective(a.machine, a.seqNo, m, s);
      KeyInjective(b.machine, b.seqNo, m, s);
      assert a != b;
    }
  }

  lemma TwoOf(s: set<string>) returns (a: string, b: string)
    requires |s| > 1
    ensures a in s && b in s && a != b
  {
    a :| a in s;
    assert |s - {a}| == |s| - 1;
    b :| b in s - {a};
  }

  /** An entry whose signature does not check out, or whose machine is unknown, adds its own signature flag and
      leaves every other signature flag and every chain flag as it was. */
  lemma BadSignatureIsInert(c: Codec, o: Options, es: seq<Entry>, x: Entry, f: Flag)
    requires x.machine !in o.trust.keys || !o.trust.verifies(x, o.trust.keys[x.machine])
    ensures f.BrokenChain? ==> (Flagged(c, o, es + [x], f) <==> Flagged(c, o, es, f))
    ensures f.UnverifiableSigner? || f.SignatureInvalid? ==>
              (Flagged(c, o, es + [x], f) <==>
                 Flagged(c, o, es, f)
                 || f == if x.machine in o.trust.keys then SignatureInvalid(x) else UnverifiableSigner(x))
  {
    if f.BrokenChain? {
      assert VerifiedOf(o.trust, es + [x], f.entry.machine) == VerifiedOf(o.trust, es, f.entry.machine);
    }
  }

  /** crossCheckAuditLog without its job-matching pass. The report holds exactly the flags of
      `Flagged`, whatever the cache held: signature flags by the held keys alone, chain flags over the entries
      whose signature is good, fork flags for two entries under one seq. The cache stays honest. */
  method CrossCheck(c: Codec, o: Options, es: seq<Entry>, cache: DigestCache) returns (r: Result<seq<Flag>, ()>)
    requires Lawful(c) && CollisionFree(c) && HonestCache(c, o.trust, cache.digests)
    modifies cache
    ensures HonestCache(c, o.trust, cache.digests)
    ensures r.Ok? <==> AllEncodable(c, es)
    ensures r.Ok? ==> forall f :: f in r.value <==> Flagged(c, o, es, f)
    ensures r.Ok? ==> forall e :: UnverifiableSigner(e) in r.value <==> e in es && e.machine !in o.trust.keys
    ensures r.Ok? ==> forall e :: SignatureInvalid(e) in r.value <==>
              e in es && e.machine in o.trust.keys && !o.trust.verifies(e, o.trust.keys[e.machine])
    ensures r.Ok? ==> forall e :: BrokenChain(e) in r.value <==> ChainBroken(c, Genuine(o, es, e.machine), e)
    ensures r.Ok? ==> forall m, s :: SeqFork(m, s) in r.value <==>
              TwoUnder(es, m, s) && ForkPrint(c, es, m, s) !in o.acceptedForks
    ensures r.Ok? ==> forall m, lo, hi :: SeqGap(m, lo, hi) in r.value <==>
              MissingBetween(es, m, lo, hi) && GapFingerprint(c, m, lo, hi) !in o.acceptedGaps
  {
    var machines: seq<string> := [];
    for i := 0 to |es|
      invariant AllEncodable(c, es[..i])
      invariant forall m :: m in machines <==> exists e :: e in es[..i] && e.machine == m
    {
      assert es[..i + 1] == es[..i] + [es[i]];
      if !Encodable(c, es[i]) { return Err(()); }
      if es[i].machine !in machines { machines := machines + [es[i].machine]; }
    }
    assert es[..|es|] == es;
    var flags, verified := VerifyPass(c, o, es, cache);
    var rest: seq<Flag> := [];
    for i := 0 to |machines|
      invariant MachineFlags(c, o, es, machines[..i], rest)
      invariant HonestCache(c, o.trust, cache.digests)
    {
      assert machines[..i + 1] == machines[..i] + [machines[i]];
      var more := MachinePass(c, o, es, machines[i], verified);
      rest := rest + more;
    }
    assert machines[..|machines|] == machines;
    forall f | Flagged(c, o, es, f) ensures f.About() in machines {
      FlagNamesMachine(c, o, es, f);
    }
    r := Ok(flags + rest);
    FlagsSpelledOut(c, o, es);
  }

  lemma FlagNamesMachine(c: Codec, o: Options, es: seq<Entry>, f: Flag)
    requires Flagged(c, o, es, f)
    ensures exists e :: e in es && e.machine == f.About()
  {
    if f.SeqFork? { VariantsNamed(c, es, f.machine, f.seqNo); }
  }

  // ---------------------------------------------------------------- tamper evidence of the report

  /** A report that names no flag for a machine, with empty baselines, is tamper-evident for it. */
  lemma CleanReportIsTamperEvident(c: Codec, o: Options, es: seq<Entry>, machine: string,
                                   log: seq<Entry>, pre: nat, e: Entry)
    requires Lawful(c) && AllEncodable(c, es) && HashSeparates(c, es, log)
    requires o.acceptedForks == {} && o.acceptedGaps == {}
    requires forall f :: Flagged(c, o, es, f) ==> f.About() != machine
    requires AppendedLog(c, machine, log, pre) && log != [] && log[|log| - 1] in es
    requires forall i :: 0 <= i < |log| ==> log[i].seqNo == i + 1
    requires forall x :: x in es && x.machine == machine ==> x.seqNo <= |log|
    requires e in es && e.machine == machine
    requires e.prev.Some? || AboveGenesis(VerifiedOf(o.trust, es, machine), e)
    ensures 1 <= e.seqNo && e == log[e.seqNo - 1]
  {
    CleanReportIsUnflagged(c, o, es, machine);
    hide Flagged, Unflagged, HashSeparates, AllEncodable, Lawful;
    TamperEvidence(c, o.trust, es, machine, log, pre, e);
  }

  /** No fork flag: entries under one seq are one entry. */
  lemma NoForkOneEntry(c: Codec, es: seq<Entry>, machine: string, a: Entry, b: Entry)
    requires Lawful(c) && AllEncodable(c, es) && !Forked(c, es, machine, a.seqNo)
    requires a in es && b in es && a.machine == machine && b.machine == machine && a.seqNo == b.seqNo
    ensures a == b
  {
    var vs := Variants(c, es, KeyOf(machine, a.seqNo));
    assert BytesOrEmpty(c, a) in vs && BytesOrEmpty(c, b) in vs;
    if BytesOrEmpty(c, a) != BytesOrEmpty(c, b) {
      AtLeastTwo(vs, BytesOrEmpty(c, a), BytesOrEmpty(c, b));
    }
    assert Encodable(c, a) && Encodable(c, b);
    BytesInjective(c, a, b);
  }

  lemma CleanReportIsUnflagged(c: Codec, o: Options, es: seq<Entry>, machine: string)
    requires Lawful(c) && AllEncodable(c, es)
    requires o.acceptedForks == {} && o.acceptedGaps == {}
    requires forall f :: Flagged(c, o, es, f) ==> f.About() != machine
    ensures Unflagged(c, o.trust, es, machine)
  {
    hide Lawful, BytesOrEmpty, KeyOf;
    forall x | x in es && x.machine == machine ensures Encodable(c, x) && Verified(o.trust, x) {
      assert !Flagged(c, o, es, UnverifiableSigner(x)) && !Flagged(c, o, es, SignatureInvalid(x));
    }
    forall a, b | a in es && b in es && a.machine == machine && b.machine == machine && a.seqNo == b.seqNo
      ensures a == b
    {
      assert !Flagged(c, o, es, SeqFork(machine, a.seqNo));
      NoForkOneEntry(c, es, machine, a, b);
    }
    forall f: nat, to: nat ensures !IsGap(SeqsOf(es, machine), f, to) {
      assert !Flagged(c, o, es, SeqGap(machine, f, to));
    }
    forall x ensures !ChainBroken(c, VerifiedOf(o.trust, es, machine), x) {
      assert Flagged(c, o, es, BrokenChain(x)) ==> x.machine != machine;
    }
  }

  lemma AtLeastTwo(s: set<string>, a: string, b: string)
    requires a in s && b in s && a != b
    ensures |s| > 1
  {
    assert {a, b} <= s;
    assert s == {a} + (s - {a});
    assert b in s - {a};
  }

  // ---------------------------------------------------------------- the accept baselines

  /** The baseline an operator has taken on `es`, its gaps included or not, on top of what was accepted before. */
  ghost predicate AcceptedOn(c: Codec, es: seq<Entry>, withGaps: bool, before: Options, after: Options) {
    && after.trust == before.trust
    && (forall p :: p in after.acceptedForks <==>
          p in before.acceptedForks || exists m, s :: Forked(c, es, m, s) && p == ForkPrint(c, es, m, s))
    && (forall p :: p in after.acceptedGaps <==>
          p in before.acceptedGaps
          || (withGaps && exists m: string, f: nat, t: nat ::
                IsGap(SeqsOf(es, m), f, t) && p == GapFingerprint(c, m, f, t)))
  }

  /** audit-baseline: regenerate the file, even in a dry run, then accept every fork found and, with --gaps, every
      gap left. A dry run accepts nothing. */
  method TakeBaseline(c: Codec, file: UnionFile, acceptGaps: bool, dryRun: bool, before: Options)
    returns (r: Result<Options, ()>)
    requires Lawful(c)
    modifies file
    ensures r.Ok? <==> AllEncodable(c, old(Parse(c, file.text).entries))
    ensures if r.Ok? then Ok(file.text) == Regenerated(c, old(file.text)) else file.text == old(file.text)
    ensures r.Ok? && dryRun ==> r.value == before
    ensures r.Ok? && !dryRun ==> AcceptedOn(c, old(Parse(c, file.text).entries), acceptGaps, before, r.value)
  {
    ghost var es := Parse(c, file.text).entries;
    var res := file.Regenerate(c, before.acceptedForks);
    if res.Err? { return Err(()); }
    CanonShape(c, es);
    hide *;
    var gapPrints: set<string> := {};
    if acceptGaps {
      var gaps := AllSeqGaps(c, res.value.entries);
      gapPrints := set g | g in gaps :: g.fingerprint;
      GapPrintsAreTheGaps(c, es, res.value.entries, gaps);
    }
    if dryRun { return Ok(before); }
    var forkPrints := set f | f in res.value.forks :: f.fingerprint;
    ForkPrintsAreTheForks(c, es, res.value.forks);
    BaselineTaken(c, es, acceptGaps, before, forkPrints, gapPrints);
    r := Ok(before.(acceptedForks := before.acceptedForks + forkPrints,
                    acceptedGaps := before.acceptedGaps + gapPrints));
  }

  ghost predicate PrintsOfForks(c: Codec, es: seq<Entry>, prints: set<string>) {
    forall p :: p in prints <==> exists m, s :: Forked(c, es, m, s) && p == ForkPrint(c, es, m, s)
  }

  ghost predicate PrintsOfGaps(c: Codec, es: seq<Entry>, prints: set<string>) {
    forall p :: p in prints <==>
      exists m: string, f: nat, t: nat :: IsGap(SeqsOf(es, m), f, t) && p == GapFingerprint(c, m, f, t)
  }

  lemma BaselineTaken(c: Codec, es: seq<Entry>, withGaps: bool, before: Options, forks: set<string>, gaps: set<string>)
    requires PrintsOfForks(c, es, forks) && if withGaps then PrintsOfGaps(c, es, gaps) else gaps == {}
    ensures AcceptedOn(c, es, withGaps, before,
                       before.(acceptedForks := before.acceptedForks + forks,
                               acceptedGaps := before.acceptedGaps + gaps))
  {
    hide Forked, ForkPrint, IsGap, GapFingerprint, SeqsOf;
  }

  lemma GapPrintsAreTheGaps(c: Codec, es: seq<Entry>, kept: seq<Entry>, gaps: seq<GapRecord>)
    requires SameElements(kept, es) && forall g :: g in gaps <==> IsGapOf(c, kept, g)
    ensures PrintsOfGaps(c, es, set g | g in gaps :: g.fingerprint)
  {
    forall m ensures SeqsOf(kept, m) == SeqsOf(es, m) {}
    forall m: string, f: nat, t: nat | IsGap(SeqsOf(es, m), f, t)
      ensures GapFingerprint(c, m, f, t) in (set g | g in gaps :: g.fingerprint)
    {
      assert MakeGap(c, m, f, t) in gaps;
    }
  }

  lemma ForkPrintsAreTheForks(c: Codec, es: seq<Entry>, forks: seq<ForkRecord>)
    requires forall f :: f in forks ==> IsForkOf(c, es, f)
    requires forall e :: e in es && |Variants(c, es, KeyOf(e.machine, e.seqNo))| > 1
               ==> HasFork(forks, KeyOf(e.machine, e.seqNo))
    ensures PrintsOfForks(c, es, set f | f in forks :: f.fingerprint)
  {
    hide Variants, KeyOf, IsForkOf, Forked, ForkPrint, HasFork;
    forall f | f in forks ensures exists m, s :: Forked(c, es, m, s) && f.fingerprint == ForkPrint(c, es, m, s) {
      ForkHasPrint(c, es, f);
    }
    forall m, s | Forked(c, es, m, s) ensures ForkPrint(c, es, m, s) in (set f | f in forks :: f.fingerprint) {
      ForkIsListed(c, es, forks, m, s);
    }
  }

  lemma ForkHasPrint(c: Codec, es: seq<Entry>, f: ForkRecord)
    requires IsForkOf(c, es, f)
    ensures exists m, s :: Forked(c, es, m, s) && f.fingerprint == ForkPrint(c, es, m, s)
  {
    var l :| l in Variants(c, es, f.key);
    var e :| e in es && KeyOf(e.machine, e.seqNo) == f.key && BytesOrEmpty(c, e) == l;
    assert Forked(c, es, e.machine, e.seqNo) && f.fingerprint == ForkPrint(c, es, e.machine, e.seqNo);
  }

  lemma ForkIsListed(c: Codec, es: seq<Entry>, forks: seq<ForkRecord>, m: string, s: nat)
    requires Forked(c, es, m, s) && forall f :: f in forks ==> IsForkOf(c, es, f)
    requires forall e :: e in es && |Variants(c, es, KeyOf(e.machine, e.seqNo))| > 1
               ==> HasFork(forks, KeyOf(e.machine, e.seqNo))
    ensures ForkPrint(c, es, m, s) in (set f | f in forks :: f.fingerprint)
  {
    VariantsNamed(c, es, m, s);
    var f :| f in forks && f.key == KeyOf(m, s);
    assert f.fingerprint == ForkPrint(c, es, m, s);
  }

  /** Acceptance agrees with the alarm. After a baseline was taken on `es`, a later check of `now` flags a
      fork unless it was accepted before or is, key and variants alike, one of `es`; and a gap unless it was
      accepted before or, if gaps were taken too, has the edges of one of `es`. A fork that gained a variant and a
      gap that widened are flagged again; every other flag is untouched. */
  lemma AcceptanceAgreesWithAlarm(c: Codec, es: seq<Entry>, withGaps: bool, before: Options, after: Options,
                                  now: seq<Entry>, f: Flag)
    requires Lawful(c) && CollisionFree(c) && AllEncodable(c, es) && AllEncodable(c, now)
    requires AcceptedOn(c, es, withGaps, before, after)
    ensures match f
            case SeqFork(m, s) =>
              Flagged(c, after, now, f)
              <==> Flagged(c, before, now, f) && Variants(c, now, KeyOf(m, s)) != Variants(c, es, KeyOf(m, s))
            case SeqGap(m, lo, hi) =>
              Flagged(c, after, now, f)
              <==> Flagged(c, before, now, f) && !(withGaps && IsGap(SeqsOf(es, m), lo, hi))
            case _ => Flagged(c, after, now, f) <==> Flagged(c, before, now, f)
  {
    match f
    case SeqFork(m, s) =>
      if Forked(c, now, m, s) && Variants(c, now, KeyOf(m, s)) == Variants(c, es, KeyOf(m, s)) {
        assert Forked(c, es, m, s) && ForkPrint(c, now, m, s) == ForkPrint(c, es, m, s);
      }
      if Forked(c, now, m, s) && ForkPrint(c, now, m, s) in after.acceptedForks
         && ForkPrint(c, now, m, s) !in before.acceptedForks {
        var m2, s2 :| Forked(c, es, m2, s2) && ForkPrint(c, now, m, s) == ForkPrint(c, es, m2, s2);
        ForkPrintInjective(c, now, m, s, es, m2, s2);
      }
    case SeqGap(m, lo, hi) =>
      if GapFingerprint(c, m, lo, hi) in after.acceptedGaps && GapFingerprint(c, m, lo, hi) !in before.acceptedGaps {
        var m2: string, lo2: nat, hi2: nat :| IsGap(SeqsOf(es, m2), lo2, hi2)
          && GapFingerprint(c, m, lo, hi) == GapFingerprint(c, m2, lo2, hi2);
        GapPreimageInjective(m, lo, hi, m2, lo2, hi2);
      }
    case _ =>
  }

  lemma ForkPrintInjective(c: Codec, a: seq<Entry>, m1: string, s1: nat, b: seq<Entry>, m2: string, s2: nat)
    requires Lawful(c) && CollisionFree(c) && AllEncodable(c, a) && AllEncodable(c, b)
    requires ForkPrint(c, a, m1, s1) == ForkPrint(c, b, m2, s2)
    ensures m1 == m2 && s1 == s2 && Variants(c, a, KeyOf(m1, s1)) == Variants(c, b, KeyOf(m2, s2))
  {
    var k1, k2 := KeyOf(m1, s1), KeyOf(m2, s2);
    var v1, v2 := Variants(c, a, k1), Variants(c, b, k2);
    var l1, l2 := SortedSet(StringOrder(), SeqOfSet(v1)), SortedSet(StringOrder(), SeqOfSet(v2));
    StringOrderTotal();
    SortedSetCorrect(StringOrder(), AnyString(), SeqOfSet(v1));
    SortedSetCorrect(StringOrder(), AnyString(), SeqOfSet(v2));
    VariantsAreObjects(c, a, k1, l1);
    VariantsAreObjects(c, b, k2, l2);
    assert k1[|k1| - 1] == Decimal(s1)[|Decimal(s1)| - 1];
    assert k2[|k2| - 1] == Decimal(s2)[|Decimal(s2)| - 1];
    ForkPreimageInjective(k1, l1, k2, l2);
    KeyInjective(m1, s1, m2, s2);
    assert forall x :: x in v1 <==> x in l1;
    assert forall x :: x in v2 <==> x in l2;
  }

  lemma VariantsAreObjects(c: Codec, es: seq<Entry>, key: string, lines: seq<string>)
    requires Lawful(c) && AllEncodable(c, es)
    requires SameElements(lines, SeqOfSet(Variants(c, es, key)))
    ensures ObjectLines(lines)
  {
    forall i | 0 <= i < |lines| ensures ObjectLine(lines[i]) {
      assert lines[i] in lines && lines[i] in Variants(c, es, key);
      var e :| e in es && BytesOrEmpty(c, e) == lines[i];
      var j :| 0 <= j < |es| && es[j] == e;
      assert Encodable(c, es[j]);
    }
  }
}
