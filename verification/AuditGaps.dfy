/** Gaps in one machine's observed sequence numbers. */
module AuditGaps {
  import opened Text
  import opened Sorting
  import opened AuditEntries

  datatype GapRecord = GapRecord(machine: string, fromExclusive: nat, toExclusive: nat, missing: nat,
                                 fingerprint: string)

  function GapFingerprint(c: Codec, machine: string, from: nat, to: nat): string {
    c.sha256(GapPreimage(machine, from, to))
  }

  function MakeGap(c: Codec, machine: string, from: nat, to: nat): GapRecord
    requires from < to
  {
    GapRecord(machine, from, to, to - from - 1, GapFingerprint(c, machine, from, to))
  }

  /** The maximal runs of unobserved numbers below an observed one; a log starts at 1, so 0 bounds the
      first of them. */
  ghost predicate IsGap(seqs: set<nat>, from: nat, to: nat) {
    to in seqs && from + 1 < to && (from in seqs || from == 0) && forall n: nat :: from < n < to ==> n !in seqs
  }

  /** The gaps are exactly the missing numbers: each number from 1 up to the highest observed one that
      was not observed lies strictly inside one gap, and nothing else lies inside any. */
  lemma GapsAreTheMissingNumbers(seqs: set<nat>, n: nat)
    ensures (exists f: nat, t: nat :: IsGap(seqs, f, t) && f < n < t)
       <==> n !in seqs && n >= 1 && exists top :: top in seqs && n < top
  {
    if n !in seqs && n >= 1 && exists top :: top in seqs && n < top {
      var top :| top in seqs && n < top;
      var f := Below(seqs, n);
      var t := Above(seqs, n, top);
      assert IsGap(seqs, f, t);
    }
  }

  /** Two gaps that share a number are the same gap. */
  lemma GapsAreDisjoint(seqs: set<nat>, f1: nat, t1: nat, f2: nat, t2: nat, n: nat)
    requires IsGap(seqs, f1, t1) && IsGap(seqs, f2, t2) && f1 < n < t1 && f2 < n < t2
    ensures f1 == f2 && t1 == t2
  {
    assert !(f1 < t2 < t1) && !(f2 < t1 < t2);
    assert !(f1 in seqs && f2 < f1 < t2) && !(f2 in seqs && f1 < f2 < t1);
  }

  lemma Below(seqs: set<nat>, n: nat) returns (f: nat)
    requires n !in seqs && n >= 1
    ensures f < n && (f in seqs || f == 0) && forall k: nat :: f < k <= n ==> k !in seqs
  {
    f := n - 1;
    while f > 0 && f !in seqs
      invariant f < n && forall k: nat :: f < k <= n ==> k !in seqs
    {
      f := f - 1;
    }
  }

  lemma Above(seqs: set<nat>, n: nat, top: nat) returns (t: nat)
    requires n !in seqs && top in seqs && n < top
    ensures n < t && t in seqs && forall k: nat :: n <= k < t ==> k !in seqs
  {
    t := n;
    while t !in seqs
      invariant n <= t <= top && forall k: nat :: n <= k < t ==> k !in seqs
      decreases top - t
    {
      t := t + 1;
    }
  }

  // ---------------------------------------------------------------- seqGapsOf

  function InsertNumber(n: nat, s: seq<nat>): seq<nat> {
    if s == [] || n <= s[0] then [n] + s else [s[0]] + InsertNumber(n, s[1..])
  }

  /** `[...seqs].sort((a, b) => a - b)`. */
  function SortNumbers(s: seq<nat>): seq<nat> {
    if s == [] then [] else InsertNumber(s[0], SortNumbers(s[1..]))
  }

  predicate NonDescending(s: seq<nat>) { forall i, j :: 0 <= i < j < |s| ==> s[i] <= s[j] }

  lemma {:induction false} InsertNumberElements(n: nat, s: seq<nat>)
    ensures multiset(InsertNumber(n, s)) == multiset(s) + multiset{n}
  {
    if s != [] && n > s[0] {
      InsertNumberElements(n, s[1..]);
      assert s == [s[0]] + s[1..];
    }
  }

  lemma {:induction false} InsertNumberShape(n: nat, s: seq<nat>)
    requires NonDescending(s)
    ensures NonDescending(InsertNumber(n, s))
    ensures forall x :: x in InsertNumber(n, s) ==> x == n || x in s
  {
    if s != [] && n > s[0] {
      InsertNumberShape(n, s[1..]);
      LeastFirst(s[0], InsertNumber(n, s[1..]));
    }
  }

  lemma LeastFirst(least: nat, s: seq<nat>)
    requires NonDescending(s) && forall x :: x in s ==> least <= x
    ensures NonDescending([least] + s)
  {
    var all := [least] + s;
    forall i, j | 0 <= i < j < |all| ensures all[i] <= all[j] {
      assert all[j] == s[j - 1] && s[j - 1] in s;
    }
  }

  lemma {:induction false} SortNumbersShape(s: seq<nat>)
    ensures NonDescending(SortNumbers(s)) && multiset(SortNumbers(s)) == multiset(s)
  {
    if s != [] {
      SortNumbersShape(s[1..]);
      InsertNumberShape(s[0], SortNumbers(s[1..]));
      InsertNumberElements(s[0], SortNumbers(s[1..]));
      assert s == [s[0]] + s[1..];
    }
  }

  function SetOf(s: seq<nat>): set<nat> { set n | n in s }

  ghost predicate Lists(c: Codec, machine: string, seqs: set<nat>, gaps: seq<GapRecord>) {
    forall g :: g in gaps <==>
      g.fromExclusive < g.toExclusive && IsGap(seqs, g.fromExclusive, g.toExclusive)
      && g == MakeGap(c, machine, g.fromExclusive, g.toExclusive)
  }

  ghost predicate ListsUpTo(c: Codec, machine: string, seqs: set<nat>, top: nat, gaps: seq<GapRecord>) {
    forall g :: g in gaps <==>
      g.fromExclusive < g.toExclusive <= top && IsGap(seqs, g.fromExclusive, g.toExclusive)
      && g == MakeGap(c, machine, g.fromExclusive, g.toExclusive)
  }

  /** Between two neighbouring observed numbers there is one gap or none. */
  lemma NeighbourGap(seqs: set<nat>, prev: nat, cur: nat, f: nat, t: nat)
    requires prev in seqs && cur in seqs && prev <= cur && forall n :: n in seqs ==> n <= prev || cur <= n
    ensures IsGap(seqs, f, t) && prev < t <= cur <==> f == prev && t == cur && cur - prev > 1
  {
  }

  lemma ExtendList(c: Codec, machine: string, seqs: set<nat>, prev: nat, cur: nat, gaps: seq<GapRecord>)
    requires ListsUpTo(c, machine, seqs, prev, gaps)
    requires prev in seqs && cur in seqs && prev <= cur && forall n :: n in seqs ==> n <= prev || cur <= n
    ensures ListsUpTo(c, machine, seqs, cur, if cur - prev > 1 then gaps + [MakeGap(c, machine, prev, cur)] else gaps)
  {
    forall f: nat, t: nat
      ensures IsGap(seqs, f, t) && prev < t <= cur <==> f == prev && t == cur && cur - prev > 1
    {
      NeighbourGap(seqs, prev, cur, f, t);
    }
  }

  lemma StartList(c: Codec, machine: string, seqs: set<nat>, low: nat)
    requires low in seqs && forall n :: n in seqs ==> low <= n
    ensures ListsUpTo(c, machine, seqs, low, if low > 1 then [MakeGap(c, machine, 0, low)] else [])
  {
  }

  /** What holds of the sorted list: its members are the set, and nothing lies between neighbours. */
  lemma SortedNeighbours(seqs: seq<nat>, sorted: seq<nat>, i: nat)
    requires sorted == SortNumbers(seqs) && i < |sorted|
    ensures sorted[i] in SetOf(seqs)
    ensures i > 0 ==> sorted[i - 1] <= sorted[i]
                      && forall n :: n in SetOf(seqs) ==> n <= sorted[i - 1] || sorted[i] <= n
    ensures i == 0 ==> forall n :: n in SetOf(seqs) ==> sorted[0] <= n
    ensures i == |sorted| - 1 ==> forall n :: n in SetOf(seqs) ==> n <= sorted[i]
  {
    SortNumbersShape(seqs);
    hide SortNumbers;
    assert sorted[i] in multiset(sorted) && sorted[i] in multiset(seqs);
    forall n | n in SetOf(seqs) ensures n in sorted {
      assert n in multiset(seqs);
      assert n in multiset(sorted);
    }
    forall n | n in SetOf(seqs) ensures n <= sorted[i] || (i < |sorted| - 1 && sorted[i + 1] <= n) {
      var k :| 0 <= k < |sorted| && sorted[k] == n;
    }
    forall n | n in SetOf(seqs) ensures sorted[i] <= n || (i > 0 && n <= sorted[i - 1]) {
      var k :| 0 <= k < |sorted| && sorted[k] == n;
    }
  }

  /** seqGapsOf: the gaps of a list of numbers, whatever its order and repetitions, lowest first. */
  method SeqGapsOf(c: Codec, machine: string, seqs: seq<nat>) returns (gaps: seq<GapRecord>)
    ensures Lists(c, machine, SetOf(seqs), gaps)
    ensures forall i, j :: 0 <= i < j < |gaps| ==> gaps[i].toExclusive <= gaps[j].fromExclusive
  {
    var sorted := SortNumbers(seqs);
    gaps := [];
    if |sorted| == 0 {
      SortNumbersShape(seqs);
      assert forall n :: n in SetOf(seqs) ==> n in multiset(seqs);
      return;
    }
    hide *;
    SortedNeighbours(seqs, sorted, 0);
    StartList(c, machine, SetOf(seqs), sorted[0]);
    if sorted[0] > 1 {
      gaps := [MakeGap(c, machine, 0, sorted[0])];
    }
    for i := 1 to |sorted|
      invariant ListsUpTo(c, machine, SetOf(seqs), sorted[i - 1], gaps)
      invariant forall a, b :: 0 <= a < b < |gaps| ==> gaps[a].toExclusive <= gaps[b].fromExclusive
    {
      var prev, cur := sorted[i - 1], sorted[i];
      SortedNeighbours(seqs, sorted, i - 1);
      SortedNeighbours(seqs, sorted, i);
      ExtendList(c, machine, SetOf(seqs), prev, cur, gaps);
      OrderStays(c, machine, SetOf(seqs), prev, cur, gaps);
      if cur - prev > 1 {
        gaps := gaps + [MakeGap(c, machine, prev, cur)];
      }
    }
    SortedNeighbours(seqs, sorted, |sorted| - 1);
    ListsAll(c, machine, SetOf(seqs), sorted[|sorted| - 1], gaps);
  }

  /** One more gap above those listed keeps the order. */
  lemma OrderStays(c: Codec, machine: string, seqs: set<nat>, prev: nat, cur: nat, gaps: seq<GapRecord>)
    requires ListsUpTo(c, machine, seqs, prev, gaps)
    requires forall a, b :: 0 <= a < b < |gaps| ==> gaps[a].toExclusive <= gaps[b].fromExclusive
    ensures prev < cur ==> var more := gaps + [MakeGap(c, machine, prev, cur)];
              forall a, b :: 0 <= a < b < |more| ==> more[a].toExclusive <= more[b].fromExclusive
  {
    ListedBelow(c, machine, seqs, prev, gaps);
    hide ListsUpTo, GapFingerprint;
  }

  lemma ListedBelow(c: Codec, machine: string, seqs: set<nat>, top: nat, gaps: seq<GapRecord>)
    requires ListsUpTo(c, machine, seqs, top, gaps)
    ensures forall k :: 0 <= k < |gaps| ==> gaps[k].toExclusive <= top
  {
    hide IsGap;
    assert forall k :: 0 <= k < |gaps| ==> gaps[k] in gaps;
  }

  lemma ListsAll(c: Codec, machine: string, seqs: set<nat>, top: nat, gaps: seq<GapRecord>)
    requires ListsUpTo(c, machine, seqs, top, gaps) && forall n :: n in seqs ==> n <= top
    ensures Lists(c, machine, seqs, gaps)
  {
  }

  // ---------------------------------------------------------------- allSeqGaps

  /** The numbers one machine was observed at. */
  function SeqsOf(es: seq<Entry>, machine: string): set<nat> {
    set e | e in es && e.machine == machine :: e.seqNo
  }

  /** The numbers by machine, and the machines in order of first appearance. */
  ghost predicate ByMachine(es: seq<Entry>, byMachine: map<string, seq<nat>>, found: seq<string>) {
    && (forall m :: m in byMachine <==> m in found)
    && (forall m :: m in byMachine ==> SetOf(byMachine[m]) == SeqsOf(es, m))
    && (forall m :: m !in byMachine ==> SeqsOf(es, m) == {})
  }

  lemma SeqsOfOneMore(es: seq<Entry>, e: Entry, m: string)
    ensures SeqsOf(es + [e], m) == SeqsOf(es, m) + if e.machine == m then {e.seqNo} else {}
  {
    assert forall x :: x in es + [e] <==> x in es || x == e;
  }

  function AddNumber(byMachine: map<string, seq<nat>>, e: Entry): map<string, seq<nat>> {
    byMachine[e.machine := if e.machine in byMachine then byMachine[e.machine] + [e.seqNo] else [e.seqNo]]
  }

  lemma AddNumberFits(es: seq<Entry>, e: Entry, byMachine: map<string, seq<nat>>, found: seq<string>)
    requires ByMachine(es, byMachine, found)
    ensures ByMachine(es + [e], AddNumber(byMachine, e), if e.machine in byMachine then found else found + [e.machine])
  {
    forall m ensures SeqsOf(es + [e], m) == SeqsOf(es, m) + (if e.machine == m then {e.seqNo} else {}) {
      SeqsOfOneMore(es, e, m);
    }
  }

  method GroupByMachine(es: seq<Entry>) returns (byMachine: map<string, seq<nat>>, found: seq<string>)
    ensures ByMachine(es, byMachine, found)
  {
    byMachine, found := map[], [];
    for i := 0 to |es|
      invariant ByMachine(es[..i], byMachine, found)
    {
      assert es[..i + 1] == es[..i] + [es[i]];
      AddNumberFits(es[..i], es[i], byMachine, found);
      if es[i].machine !in byMachine { found := found + [es[i].machine]; }
      byMachine := AddNumber(byMachine, es[i]);
    }
    assert es[..|es|] == es;
  }

  ghost predicate IsGapOf(c: Codec, es: seq<Entry>, g: GapRecord) {
    g.fromExclusive < g.toExclusive && IsGap(SeqsOf(es, g.machine), g.fromExclusive, g.toExclusive)
    && g == MakeGap(c, g.machine, g.fromExclusive, g.toExclusive)
  }

  lemma GapsOfMachine(c: Codec, es: seq<Entry>, m: string, gaps: seq<GapRecord>)
    requires Lists(c, m, SeqsOf(es, m), gaps)
    ensures forall g :: g in gaps <==> g.machine == m && IsGapOf(c, es, g)
  {
  }

  /** Lower machine first, and within a machine lower edges first. */
  predicate ListedBefore(g: GapRecord, h: GapRecord) {
    Less(g.machine, h.machine) || (g.machine == h.machine && g.toExclusive <= h.fromExclusive)
  }

  lemma MachineByMachine(gaps: seq<GapRecord>, more: seq<GapRecord>, machines: seq<string>, i: nat)
    requires i < |machines| && Ascending(StringOrder(), machines)
    requires Ascending(ListedBefore, gaps) && forall g :: g in gaps ==> g.machine in machines[..i]
    requires forall g :: g in more ==> g.machine == machines[i]
    requires forall a, b :: 0 <= a < b < |more| ==> more[a].toExclusive <= more[b].fromExclusive
    ensures Ascending(ListedBefore, gaps + more)
  {
    var both := gaps + more;
    forall a, b | 0 <= a < b < |both| ensures ListedBefore(both[a], both[b]) {
      if a < |gaps| <= b {
        assert both[a] in gaps && both[b] in more;
        var k :| 0 <= k < i && machines[k] == both[a].machine;
        assert StringOrder()(machines[k], machines[i]);
      } else if |gaps| <= a {
        assert both[a] in more && both[b] in more;
      }
    }
  }

  /** allSeqGaps: the gaps of every machine, machine by machine in codepoint order. */
  method AllSeqGaps(c: Codec, es: seq<Entry>) returns (gaps: seq<GapRecord>)
    ensures forall g :: g in gaps <==> IsGapOf(c, es, g)
    ensures Ascending(ListedBefore, gaps)
  {
    var byMachine, found := GroupByMachine(es);
    var machines := SortedSet(StringOrder(), found);
    StringOrderTotal();
    SortedSetCorrect(StringOrder(), AnyString(), found);
    hide SortedSet, IsGapOf, Lists, Ascending;
    gaps := [];
    for i := 0 to |machines|
      invariant forall g :: g in gaps <==> g.machine in machines[..i] && IsGapOf(c, es, g)
      invariant Ascending(ListedBefore, gaps)
    {
      var m := machines[i];
      assert machines[..i + 1] == machines[..i] + [m];
      assert m in byMachine;
      var more := SeqGapsOf(c, m, byMachine[m]);
      GapsOfMachine(c, es, m, more);
      MachineByMachine(gaps, more, machines, i);
      gaps := gaps + more;
    }
    assert machines[..|machines|] == machines;
    GapsHaveMachines(c, es, machines);
  }

  lemma GapsHaveMachines(c: Codec, es: seq<Entry>, machines: seq<string>)
    requires forall m :: m !in machines ==> SeqsOf(es, m) == {}
    ensures forall g :: IsGapOf(c, es, g) ==> g.machine in machines
  {
  }
}
