/** Newest-wins: which tip of each machine counts, which tip wins a conflicted path, and why the order in
    which tips are met never matters. */
module NewestWins {
  import opened Wrappers
  import opened Text
  import opened Sorting

  datatype Tip = Tip(machine: string, sha: string, committerTs: int)

  // ---------------------------------------------------------------- enumerateTips

  /** One line of for-each-ref; `ts` is None when the date is not a finite number. */
  datatype RefLine = RefLine(sha: string, ts: Option<int>, refname: string)

  const SYNC_SEG := "/sync/"

  /** `s.lastIndexOf(sub)`, with -1 for absent. */
  function LastIndexOf(s: string, sub: string): (i: int)
    ensures -1 <= i <= |s| && (i >= 0 ==> i + |sub| <= |s| && s[i..i + |sub|] == sub)
    decreases |s|
  {
    if |s| < |sub| then -1
    else if s[|s| - |sub|..] == sub then |s| - |sub|
    else
      var i := LastIndexOf(s[..|s| - 1], sub);
      assert i >= 0 ==> s[..|s| - 1][i..i + |sub|] == s[i..i + |sub|];
      i
  }

  function MachineFromRef(refname: string): Option<string> {
    var i := LastIndexOf(refname, SYNC_SEG);
    if i < 0 then None
    else
      var m := refname[i + |SYNC_SEG|..];
      if m == "" || '/' in m then None else Some(m)
  }

  /** The tip a line names, if it names one. */
  function TipOf(l: RefLine): Option<Tip> {
    match (MachineFromRef(l.refname), l.ts)
    case (Some(m), Some(t)) => Some(Tip(m, l.sha, t))
    case _ => None
  }

  ghost function Triples(lines: seq<RefLine>): set<Tip> {
    set l | l in lines && TipOf(l).Some? :: TipOf(l).value
  }

  /** Newer commit, or the greater sha on the same second. */
  predicate Newer(a: Tip, b: Tip) {
    a.committerTs > b.committerTs || (a.committerTs == b.committerTs && Less(b.sha, a.sha))
  }

  function MachineOrder(): (Tip, Tip) -> bool { (a: Tip, b: Tip) => Less(a.machine, b.machine) }

  /** The newest tip of each machine, in machine order. */
  ghost predicate IsTipList(triples: set<Tip>, tips: seq<Tip>) {
    Ascending(MachineOrder(), tips) && NewestOfEach(triples, tips)
  }

  ghost predicate NewestOfEach(triples: set<Tip>, tips: seq<Tip>) {
    && (forall t :: t in tips ==> IsNewest(triples, t))
    && (forall u :: u in triples ==> Represented(tips, u.machine))
  }

  ghost predicate Represented(tips: seq<Tip>, machine: string) {
    exists t :: t in tips && t.machine == machine
  }

  ghost predicate IsNewest(triples: set<Tip>, t: Tip) {
    t in triples && forall u :: u in triples && u.machine == t.machine ==> !Newer(u, t)
  }

  /** The result depends on the set of (machine, time, sha) triples alone: not on the order of the refs,
      nor on how many remotes carry the same tip. */
  lemma TipListUnique(triples: set<Tip>, a: seq<Tip>, b: seq<Tip>)
    requires IsTipList(triples, a) && IsTipList(triples, b)
    ensures a == b
  {
    forall t ensures t in a <==> t in b {
      if t in a { SameTip(triples, a, b, t); }
      if t in b { SameTip(triples, b, a, t); }
    }
    TipsAscendingUnique(a, b);
  }

  lemma SameTip(triples: set<Tip>, a: seq<Tip>, b: seq<Tip>, t: Tip)
    requires NewestOfEach(triples, a) && NewestOfEach(triples, b) && t in a
    ensures t in b
  {
    assert IsNewest(triples, t);
    assert Represented(b, t.machine);
    var u :| u in b && u.machine == t.machine;
    assert IsNewest(triples, u);
    NeitherNewer(u, t);
  }

  lemma NeitherNewer(a: Tip, b: Tip)
    requires a.machine == b.machine && !Newer(a, b) && !Newer(b, a)
    ensures a == b
  {
    LessTotal(a.sha, b.sha);
  }

  lemma {:induction false} TipsAscendingUnique(a: seq<Tip>, b: seq<Tip>)
    requires Ascending(MachineOrder(), a) && Ascending(MachineOrder(), b) && SameElements(a, b)
    ensures a == b
  {
    if a == [] {
      assert forall k :: 0 <= k < |b| ==> b[k] in b;
    } else {
      assert a[0] in b;
      assert b[0] in a;
      var i :| 0 <= i < |b| && b[i] == a[0];
      var j :| 0 <= j < |a| && a[j] == b[0];
      if i > 0 && j > 0 { LessAsymmetric(a[0].machine, b[0].machine); }
      assert a[0] == b[0];
      TailsAgree(a, b);
      TipsAscendingUnique(a[1..], b[1..]);
      assert a == [a[0]] + a[1..] && b == [b[0]] + b[1..];
    }
  }

  lemma TailsAgree(a: seq<Tip>, b: seq<Tip>)
    requires Ascending(MachineOrder(), a) && Ascending(MachineOrder(), b) && SameElements(a, b)
    requires a != [] && b != [] && a[0] == b[0]
    ensures SameElements(a[1..], b[1..])
  {
    HeadNotInTail(a);
    HeadNotInTail(b);
    forall x ensures x in a[1..] <==> x in b[1..] {
      assert x in a <==> x == a[0] || x in a[1..];
      assert x in b <==> x == b[0] || x in b[1..];
    }
  }

  lemma HeadNotInTail(a: seq<Tip>)
    requires Ascending(MachineOrder(), a) && a != []
    ensures a[0] !in a[1..]
  {
    if a[0] in a[1..] {
      var k :| 1 <= k < |a| && a[k] == a[0];
      LessAsymmetric(a[0].machine, a[k].machine);
    }
  }

  lemma NotNewerChain(a: Tip, b: Tip, c: Tip)
    requires Newer(b, a) && !Newer(c, a)
    ensures !Newer(c, b)
  {
    if Newer(c, b) {
      if Less(b.sha, c.sha) && Less(a.sha, b.sha) { LessTransitive(a.sha, b.sha, c.sha); }
    }
  }

  function Improved(byMachine: map<string, Tip>, t: Tip): map<string, Tip> {
    if t.machine !in byMachine || Newer(t, byMachine[t.machine]) then byMachine[t.machine := t] else byMachine
  }

  lemma TriplesOneMore(lines: seq<RefLine>, line: RefLine)
    ensures Triples(lines + [line]) == Triples(lines) + if TipOf(line).Some? then {TipOf(line).value} else {}
  {
    hide TipOf;
  }

  /** The best of a set, by machine. */
  ghost predicate BestOf(all: set<Tip>, byMachine: map<string, Tip>) {
    && (forall m :: m in byMachine ==>
          byMachine[m].machine == m && byMachine[m] in all
          && forall u :: u in all && u.machine == m ==> !Newer(u, byMachine[m]))
    && (forall u :: u in all ==> u.machine in byMachine)
  }

  lemma ImprovedIsBest(all: set<Tip>, t: Tip, byMachine: map<string, Tip>)
    requires BestOf(all, byMachine)
    ensures BestOf(all + {t}, Improved(byMachine, t))
  {
    hide Newer;
    NewerIrreflexive(t);
    if t.machine in byMachine && Newer(t, byMachine[t.machine]) {
      forall u | u in all && u.machine == t.machine ensures !Newer(u, t) {
        NotNewerChain(byMachine[t.machine], t, u);
      }
    }
  }

  method EnumerateTips(lines: seq<RefLine>) returns (tips: seq<Tip>)
    ensures IsTipList(Triples(lines), tips)
  {
    var byMachine: map<string, Tip> := map[];
    var found: seq<string> := [];
    for i := 0 to |lines|
      invariant BestOf(Triples(lines[..i]), byMachine)
      invariant forall m :: m in found <==> m in byMachine
    {
      hide BestOf, Newer, TipOf, Triples;
      assert lines[..i + 1] == lines[..i] + [lines[i]];
      TriplesOneMore(lines[..i], lines[i]);
      var parsed := TipOf(lines[i]);
      if parsed.Some? {
        if parsed.value.machine !in byMachine { found := found + [parsed.value.machine]; }
        ImprovedIsBest(Triples(lines[..i]), parsed.value, byMachine);
        byMachine := Improved(byMachine, parsed.value);
      }
    }
    assert lines[..|lines|] == lines;
    tips := InMachineOrder(byMachine, found);
    hide Newer, InMachineOrder;
    forall u | u in Triples(lines) ensures Represented(tips, u.machine) {
      assert byMachine[u.machine] in tips;
    }
  }

  lemma NewerIrreflexive(t: Tip)
    ensures !Newer(t, t)
  {
    if Less(t.sha, t.sha) { LessAsymmetric(t.sha, t.sha); }
  }

  /** The values of the map, sorted by machine. */
  function InMachineOrder(byMachine: map<string, Tip>, found: seq<string>): (tips: seq<Tip>)
    requires forall m :: m in found <==> m in byMachine
    requires forall m :: m in byMachine ==> byMachine[m].machine == m
    ensures forall t :: t in tips <==> t.machine in byMachine && byMachine[t.machine] == t
    ensures Ascending(MachineOrder(), tips)
  {
    StringOrderTotal();
    SortedSetCorrect(StringOrder(), AnyString(), found);
    var names := SortedSet(StringOrder(), found);
    var tips := seq(|names|, i requires 0 <= i < |names| => assert names[i] in names; byMachine[names[i]]);
    assert forall i :: 0 <= i < |names| ==> names[i] in names && tips[i].machine == names[i];
    assert forall m :: m in byMachine ==> m in names;
    tips
  }

  /** The tip listed for a machine is its latest commit, and of several in one second the one with the greatest
      sha. */
  lemma ListedTipIsLatest(triples: set<Tip>, tips: seq<Tip>, t: Tip, u: Tip)
    requires IsTipList(triples, tips) && t in tips && u in triples && u.machine == t.machine
    ensures u == t || u.committerTs < t.committerTs || (u.committerTs == t.committerTs && Less(u.sha, t.sha))
  {
    assert IsNewest(triples, t);
    LessTotal(u.sha, t.sha);
  }

  /** A line of for-each-ref names a tip exactly if its ref names a machine and its date is a number. */
  lemma LineNamesTip(l: RefLine, t: Tip)
    ensures TipOf(l) == Some(t) <==> MachineFromRef(l.refname) == Some(t.machine) && l.ts == Some(t.committerTs)
                                     && l.sha == t.sha
  {
    hide MachineFromRef;
  }

  lemma {:induction false} LastIndexOfLast(s: string, sub: string, k: nat)
    requires k + |sub| <= |s| && s[k..k + |sub|] == sub
    ensures LastIndexOf(s, sub) >= k
    decreases |s|
  {
    if s[|s| - |sub|..] != sub {
      assert s[..|s| - 1][k..k + |sub|] == s[k..k + |sub|];
      LastIndexOfLast(s[..|s| - 1], sub, k);
    }
  }

  /** A ref names a machine exactly if it ends in `/sync/` and a name without a slash. */
  lemma RefNamesMachine(refname: string, m: string)
    ensures MachineFromRef(refname) == Some(m) <==>
              m != "" && '/' !in m && exists p :: refname == p + "/sync/" + m
  {
    if MachineFromRef(refname) == Some(m) {
      var i := LastIndexOf(refname, SYNC_SEG);
      hide LastIndexOf, MachineFromRef;
      RefParts(refname, i);
      assert refname == refname[..i] + "/sync/" + m;
    }
    if m != "" && '/' !in m && exists p :: refname == p + "/sync/" + m {
      var p :| refname == p + "/sync/" + m;
      NameBehindLastSegment(p, m);
    }
  }

  lemma RefParts(refname: string, i: nat)
    requires i + |SYNC_SEG| <= |refname| && refname[i..i + |SYNC_SEG|] == SYNC_SEG
    ensures refname == refname[..i] + "/sync/" + refname[i + |SYNC_SEG|..]
  {
    assert refname == refname[..i] + refname[i..i + |SYNC_SEG|] + refname[i + |SYNC_SEG|..];
  }

  lemma NameBehindLastSegment(p: string, m: string)
    requires m != "" && '/' !in m
    ensures MachineFromRef(p + "/sync/" + m) == Some(m)
  {
    var r, n := p + SYNC_SEG + m, |SYNC_SEG|;
    assert r[|p|..|p| + n] == SYNC_SEG && r[|p| + n..] == m;
    LastIndexOfLast(r, SYNC_SEG, |p|);
    var i := LastIndexOf(r, SYNC_SEG);
    hide LastIndexOf;
    if i > |p| { NoSegmentInName(p, m, i); }
  }

  lemma NoSegmentInName(p: string, m: string, k: nat)
    requires '/' !in m && |p| < k <= |p + SYNC_SEG + m| - |SYNC_SEG|
    ensures (p + SYNC_SEG + m)[k..k + |SYNC_SEG|] != SYNC_SEG
  {
    var last := k + |SYNC_SEG| - 1;
    assert (p + SYNC_SEG + m)[k..k + |SYNC_SEG|][|SYNC_SEG| - 1] == m[last - |p| - |SYNC_SEG|] != '/';
    assert SYNC_SEG[|SYNC_SEG| - 1] == '/';
  }

  // ---------------------------------------------------------------- pickWinner

  /** The last author time of a path on a tip; None when the path never was there. */
  type PathTimes = Tip -> Option<int>

  /** `a` takes the path from `b`: later author time, then the lesser machine name. */
  predicate Beats(times: PathTimes, a: Tip, b: Tip) {
    times(a).Some? &&
    (times(b).None? || times(a).value > times(b).value
     || (times(a).value == times(b).value && Less(a.machine, b.machine)))
  }

  ghost predicate IsWinner(times: PathTimes, tips: seq<Tip>, w: Option<Tip>) {
    match w
    case None => forall t :: t in tips ==> times(t).None?
    case Some(x) => x in tips && times(x).Some? && forall t :: t in tips && t != x ==> Beats(times, x, t)
  }

  ghost predicate DistinctMachines(tips: seq<Tip>) {
    forall i, j :: 0 <= i < j < |tips| ==> tips[i].machine != tips[j].machine
  }

  method PickWinner(times: PathTimes, tips: seq<Tip>) returns (best: Option<Tip>)
    requires DistinctMachines(tips)
    ensures IsWinner(times, tips, best)
  {
    best := None;
    for i := 0 to |tips|
      invariant IsWinner(times, tips[..i], best)
    {
      var t := tips[i];
      assert tips[..i + 1] == tips[..i] + [t];
      if times(t).Some? {
        if best.None? || times(t).value > times(best.value).value
           || (times(t).value == times(best.value).value && Less(t.machine, best.value.machine)) {
          if best.Some? {
            forall u | u in tips[..i] && u != best.value ensures Beats(times, t, u) {
              BeatsTransitive(times, t, best.value, u);
            }
          }
          best := Some(t);
        } else {
          var k :| 0 <= k < i && tips[k] == best.value;
          LessTotal(t.machine, best.value.machine);
        }
      }
    }
    assert tips[..|tips|] == tips;
  }

  lemma BeatsTransitive(times: PathTimes, a: Tip, b: Tip, c: Tip)
    requires Beats(times, a, b) && Beats(times, b, c)
    ensures Beats(times, a, c)
  {
    if Less(a.machine, b.machine) && Less(b.machine, c.machine) { LessTransitive(a.machine, b.machine, c.machine); }
  }

  /** The winner does not depend on the order of the tips. */
  lemma WinnerUnique(times: PathTimes, a: seq<Tip>, b: seq<Tip>, wa: Option<Tip>, wb: Option<Tip>)
    requires SameElements(a, b) && IsWinner(times, a, wa) && IsWinner(times, b, wb)
    ensures wa == wb
  {
    if wa.Some? && wb.Some? && wa != wb {
      var x, y := wa.value, wb.value;
      assert Beats(times, x, y) && Beats(times, y, x);
      if Less(x.machine, y.machine) { LessAsymmetric(x.machine, y.machine); }
    }
  }

  // ---------------------------------------------------------------- the syncer's two-way rule

  /** lastAuthorAt: a path that never was there counts as time zero. */
  function AuthorAt(times: PathTimes, t: Tip): int {
    match times(t) case None => 0 case Some(n) => n
  }

  /** The syncer's rule when the machine of `ours` merges `theirs`. */
  predicate OursWins(times: PathTimes, ours: Tip, theirs: Tip) {
    if AuthorAt(times, ours) > AuthorAt(times, theirs) then true
    else if AuthorAt(times, theirs) > AuthorAt(times, ours) then false
    else Less(ours.machine, theirs.machine)
  }

  function Merged(times: PathTimes, ours: Tip, theirs: Tip): Tip {
    if OursWins(times, ours, theirs) then ours else theirs
  }

  /** Two machines with different names that merge each other's tips keep the same side. */
  lemma BothSidesAgree(times: PathTimes, a: Tip, b: Tip)
    requires a.machine != b.machine
    ensures Merged(times, a, b) == Merged(times, b, a)
  {
    LessTotal(a.machine, b.machine);
    if Less(a.machine, b.machine) { LessAsymmetric(a.machine, b.machine); }
    if Less(b.machine, a.machine) { LessAsymmetric(b.machine, a.machine); }
  }

  /** Merging the tips one after another. */
  function MergedAll(times: PathTimes, tips: seq<Tip>): Tip
    requires tips != []
  {
    if |tips| == 1 then tips[0]
    else Merged(times, MergedAll(times, tips[..|tips| - 1]), tips[|tips| - 1])
  }

  /** The total order a two-way merge follows. */
  predicate Ahead(times: PathTimes, a: Tip, b: Tip) {
    AuthorAt(times, a) > AuthorAt(times, b)
    || (AuthorAt(times, a) == AuthorAt(times, b) && Less(a.machine, b.machine))
  }

  lemma {:induction false} MergedAllIsBest(times: PathTimes, tips: seq<Tip>)
    requires tips != [] && DistinctMachines(tips)
    ensures MergedAll(times, tips) in tips
    ensures forall t :: t in tips && t != MergedAll(times, tips) ==> Ahead(times, MergedAll(times, tips), t)
  {
    if |tips| > 1 {
      var n := |tips| - 1;
      var init, last := tips[..n], tips[n];
      MergedAllIsBest(times, init);
      var best := MergedAll(times, init);
      var k :| 0 <= k < n && tips[k] == best;
      LessTotal(best.machine, last.machine);
      forall t | t in tips && t != MergedAll(times, tips) ensures Ahead(times, MergedAll(times, tips), t) {
        if t != last {
          assert t in init;
          if t != best && Less(last.machine, best.machine) && Less(best.machine, t.machine) {
            LessTransitive(last.machine, best.machine, t.machine);
          }
        }
      }
    }
  }

  /** Some tip with a time for the path is ahead of every tip without one, whose time counts as zero. */
  ghost predicate TimedTipLeads(times: PathTimes, tips: seq<Tip>) {
    exists t :: t in tips && times(t).Some? && forall u :: u in tips && times(u).None? ==> Ahead(times, t, u)
  }

  lemma AheadAsymmetric(times: PathTimes, a: Tip, b: Tip)
    requires Ahead(times, a, b)
    ensures !Ahead(times, b, a)
  {
    if Less(a.machine, b.machine) { LessAsymmetric(a.machine, b.machine); }
  }

  /** The derived main and a chain of two-way merges, in any order, settle on the same tip exactly if some tip
      with a time for the path is ahead of every tip without one. */
  lemma DerivedAgreesWithSyncer(times: PathTimes, tips: seq<Tip>, w: Option<Tip>)
    requires tips != [] && DistinctMachines(tips) && IsWinner(times, tips, w)
    ensures w == Some(MergedAll(times, tips)) <==> TimedTipLeads(times, tips)
  {
    var m := MergedAll(times, tips);
    MergedAllIsBest(times, tips);
    if w == Some(m) {
      assert times(m).Some?;
      assert forall u :: u in tips && times(u).None? ==> Ahead(times, m, u);
    }
    if t :| t in tips && times(t).Some? && forall u :: u in tips && times(u).None? ==> Ahead(times, t, u) {
      if t != m { AheadAsymmetric(times, m, t); }
      assert times(m).Some?;
      forall u | u in tips && u != m ensures Beats(times, m, u) {
        assert Ahead(times, m, u);
      }
      assert IsWinner(times, tips, Some(m));
      WinnerUnique(times, tips, tips, w, Some(m));
    }
  }

  /** In particular they agree when every tip has a time, and when one has a time after the epoch. */
  lemma TimesSuffice(times: PathTimes, tips: seq<Tip>)
    requires tips != []
    requires (forall t :: t in tips ==> times(t).Some?)
             || (exists t :: t in tips && times(t).Some? && times(t).value > 0)
    ensures TimedTipLeads(times, tips)
  {
    if forall t :: t in tips ==> times(t).Some? {
      assert tips[0] in tips;
    } else {
      var t :| t in tips && times(t).Some? && times(t).value > 0;
      assert forall u :: u in tips && times(u).None? ==> Ahead(times, t, u);
    }
  }

  /** They part on a path no tip has a time for: the derived main drops it, while a merge still picks a side. */
  lemma NoTimesNoDerivedWinner(times: PathTimes, tips: seq<Tip>, w: Option<Tip>)
    requires tips != [] && IsWinner(times, tips, w) && forall t :: t in tips ==> times(t).None?
    ensures w == None && w != Some(MergedAll(times, tips))
  {
  }

  /** And they part between a tip without a time and a later-named one whose time is the epoch: the derived
      main takes the tip with a time, a merge the lesser name. */
  lemma EpochTimeParts(times: PathTimes, a: Tip, b: Tip, w: Option<Tip>)
    requires times(a).None? && times(b) == Some(0) && Less(a.machine, b.machine) && IsWinner(times, [a, b], w)
    ensures w == Some(b) && MergedAll(times, [a, b]) == a
  {
    assert b in [a, b];
    assert [a, b][..1] == [a];
    assert MergedAll(times, [a]) == a;
  }
}
