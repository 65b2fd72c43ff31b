/** The single-pusher gate of the sync loop: when a roamer takes over pushing from an anchor it reads as
    offline, and when it stands down to another pusher. */
module SyncLoop {
  import opened Wrappers
  import opened DeriveMain

  datatype Role = Anchor | Roamer

  const TAKEOVER_STREAK := 2

  /** anchorDaemonOnlineFromGossip: None with no peers, else whether any peer is online. */
  function AnchorOnline(views: seq<bool>): Option<bool> {
    if views == [] then None else Some(true in views)
  }

  function NextStreak(prev: nat, online: Option<bool>): nat {
    if online == Some(false) then prev + 1 else 0
  }

  predicate ShouldPush(role: Role, online: Option<bool>, streak: nat) {
    role.Anchor? || online.None? || (online == Some(false) && streak >= TAKEOVER_STREAK)
  }

  predicate PushAllowed(role: Role, push: bool, online: Option<bool>, fetchOk: Option<bool>, yielded: bool) {
    push && (role.Anchor? || online != Some(false) || (fetchOk != Some(false) && !yielded))
  }

  /** What one tick sees of one repo: whether origin's main moved under another pusher, and whether the
      fetch reached origin. */
  datatype Visit = Visit(repo: string, moved: bool, fetchOk: Option<bool>)

  /** The takeover streak and the latched sightings. */
  datatype Loop = Loop(streak: nat, seen: map<string, bool>)

  function Seen(l: Loop, repo: string): bool { repo in l.seen && l.seen[repo] }

  /** The yield check of one repo. */
  function Sighting(l: Loop, online: Option<bool>, v: Visit): bool {
    online == Some(false) && (v.moved || Seen(l, v.repo))
  }

  function Visited(l: Loop, role: Role, online: Option<bool>, push: bool, v: Visit): (Loop, bool) {
    if role.Anchor? then (l, PushAllowed(role, push, online, v.fetchOk, false))
    else
      var s := Sighting(l, online, v);
      var standsDown := s && push;
      (Loop(if standsDown then 0 else l.streak, l.seen[v.repo := s && !push]),
       PushAllowed(role, push, online, v.fetchOk, standsDown))
  }

  function VisitAll(l: Loop, role: Role, online: Option<bool>, push: bool, vs: seq<Visit>): (r: (Loop, seq<bool>))
    ensures |r.1| == |vs|
  {
    if vs == [] then (l, [])
    else
      var n := |vs| - 1;
      var before := VisitAll(l, role, online, push, vs[..n]);
      var last := Visited(before.0, role, online, push, vs[n]);
      (last.0, before.1 + [last.1])
  }

  function StreakNow(l: Loop, role: Role, online: Option<bool>): nat {
    if role.Roamer? then NextStreak(l.streak, online) else l.streak
  }

  /** One tick over the configured repos: the decision for each, and what is remembered. */
  function Ticked(l: Loop, role: Role, online: Option<bool>, vs: seq<Visit>): (Loop, seq<bool>) {
    var streak := StreakNow(l, role, online);
    VisitAll(l.(streak := streak), role, online, ShouldPush(role, online, streak), vs)
  }

  /** The loop itself, with its counter and its per-repo latch updated in place. */
  class Daemon {
    const role: Role
    var anchorDownStreak: nat
    var foreignPushSeen: map<string, bool>

    function State(): Loop
      reads this
    {
      Loop(anchorDownStreak, foreignPushSeen)
    }

    constructor (role: Role)
      ensures this.role == role && State() == Loop(0, map[])
    {
      this.role := role;
      anchorDownStreak, foreignPushSeen := 0, map[];
    }

    method Tick(views: seq<bool>, vs: seq<Visit>) returns (allowed: seq<bool>)
      modifies this
      ensures (State(), allowed) == Ticked(old(State()), role, AnchorOnline(views), vs)
    {
      var online := AnchorOnline(views);
      if role.Roamer? { anchorDownStreak := NextStreak(anchorDownStreak, online); }
      var push := ShouldPush(role, online, anchorDownStreak);
      ghost var start := State();
      allowed := [];
      for i := 0 to |vs|
        invariant (State(), allowed) == VisitAll(start, role, online, push, vs[..i])
      {
        assert vs[..i + 1][..i] == vs[..i];
        var v := vs[i];
        var originMovedByOther := false;
        if role.Roamer? {
          var seen := if v.repo in foreignPushSeen then foreignPushSeen[v.repo] else false;
          if online != Some(false) {
            seen := false;
          } else if v.moved {
            seen := true;
          }
          if seen && push {
            originMovedByOther := true;
            seen := false;
            anchorDownStreak := 0;
          }
          foreignPushSeen := foreignPushSeen[v.repo := seen];
        }
        allowed := allowed + [PushAllowed(role, push, online, v.fetchOk, originMovedByOther)];
      }
      assert vs[..|vs|] == vs;
    }
  }

  // ---------------------------------------------------------------- the takeover window

  ghost predicate DistinctRepos(vs: seq<Visit>) {
    forall i, j :: 0 <= i < j < |vs| ==> vs[i].repo != vs[j].repo
  }

  /** A repo that is not visited keeps its latch. */
  lemma {:induction false} NotVisited(l: Loop, online: Option<bool>, push: bool, vs: seq<Visit>, repo: string)
    requires forall i :: 0 <= i < |vs| ==> vs[i].repo != repo
    ensures Seen(VisitAll(l, Roamer, online, push, vs).0, repo) == Seen(l, repo)
  {
    if vs != [] { NotVisited(l, online, push, vs[..|vs| - 1], repo); }
  }

  /** What a tick decides for one visited repo, and what it remembers of it. */
  lemma {:induction false} VisitEffect(l: Loop, online: Option<bool>, push: bool, vs: seq<Visit>, i: nat)
    requires DistinctRepos(vs) && i < |vs|
    ensures var r := VisitAll(l, Roamer, online, push, vs);
            && (r.1[i] ==> push && !Sighting(l, online, vs[i]))
            && Seen(r.0, vs[i].repo) == (Sighting(l, online, vs[i]) && !push)
            && (Sighting(l, online, vs[i]) && push ==> r.0.streak == 0)
  {
    var n := |vs| - 1;
    if i == n {
      NotVisited(l, online, push, vs[..n], vs[n].repo);
    } else {
      VisitEffect(l, online, push, vs[..n], i);
      assert vs[..n][i] == vs[i];
    }
  }

  lemma {:induction false} StreakOnlyFalls(l: Loop, online: Option<bool>, push: bool, vs: seq<Visit>)
    ensures VisitAll(l, Roamer, online, push, vs).0.streak <= l.streak
  {
    if vs != [] { StreakOnlyFalls(l, online, push, vs[..|vs| - 1]); }
  }

  /** Takeover window. When a roamer with at least one peer lets a repo be pushed, it read the anchor
      offline on this tick and on the one before, and on neither tick was the repo's origin main seen
      moved by another pusher. The state before the two ticks is arbitrary, and any repo may reset the
      streak. */
  lemma TakeoverWindow(l: Loop, views0: seq<bool>, vs0: seq<Visit>, views1: seq<bool>, vs1: seq<Visit>, j: nat)
    requires views0 != [] && views1 != [] && DistinctRepos(vs0) && DistinctRepos(vs1) && j < |vs1|
    requires Ticked(Ticked(l, Roamer, AnchorOnline(views0), vs0).0, Roamer, AnchorOnline(views1), vs1).1[j]
    ensures AnchorOnline(views0) == Some(false) && AnchorOnline(views1) == Some(false)
    ensures !vs1[j].moved
    ensures forall i :: 0 <= i < |vs0| && vs0[i].repo == vs1[j].repo ==> !vs0[i].moved
  {
    var on0, on1 := AnchorOnline(views0), AnchorOnline(views1);
    var s0 := StreakNow(l, Roamer, on0);
    var push0 := ShouldPush(Roamer, on0, s0);
    StreakOnlyFalls(l.(streak := s0), on0, push0, vs0);
    var l1 := Ticked(l, Roamer, on0, vs0).0;
    var s1 := StreakNow(l1, Roamer, on1);
    VisitEffect(l1.(streak := s1), on1, ShouldPush(Roamer, on1, s1), vs1, j);
    assert on1 == Some(false) && s1 >= 2 && l1.streak >= 1;
    assert on0 == Some(false);
    assert !Seen(l1, vs1[j].repo);
    forall i | 0 <= i < |vs0| && vs0[i].repo == vs1[j].repo ensures !vs0[i].moved {
      VisitEffect(l.(streak := s0), on0, push0, vs0, i);
      assert !Sighting(l.(streak := s0), on0, vs0[i]);
    }
  }

  /** A daemon that has just started pushes nothing for its first tick. */
  lemma FirstTickDefers(views: seq<bool>, vs: seq<Visit>, j: nat)
    requires views != [] && DistinctRepos(vs) && j < |vs|
    ensures !Ticked(Loop(0, map[]), Roamer, AnchorOnline(views), vs).1[j]
  {
    var online := AnchorOnline(views);
    var streak := StreakNow(Loop(0, map[]), Roamer, online);
    VisitEffect(Loop(streak, map[]), online, ShouldPush(Roamer, online, streak), vs, j);
  }

  /** The tick's inputs. */
  datatype TickInput = TickInput(views: seq<bool>, visits: seq<Visit>)

  function After(ticks: seq<TickInput>): Loop {
    if ticks == [] then Loop(0, map[])
    else
      var n := |ticks| - 1;
      Ticked(After(ticks[..n]), Roamer, AnchorOnline(ticks[n].views), ticks[n].visits).0
  }

  /** In every run of a roamer's ticks. */
  lemma TakeoverWindowInEveryRun(ticks: seq<TickInput>, j: nat)
    requires ticks != [] && j < |ticks[|ticks| - 1].visits|
    requires forall k :: 0 <= k < |ticks| ==> ticks[k].views != [] && DistinctRepos(ticks[k].visits)
    requires var last := ticks[|ticks| - 1];
             Ticked(After(ticks[..|ticks| - 1]), Roamer, AnchorOnline(last.views), last.visits).1[j]
    ensures |ticks| >= 2
    ensures var last, prev := ticks[|ticks| - 1], ticks[|ticks| - 2];
            && AnchorOnline(last.views) == Some(false) && AnchorOnline(prev.views) == Some(false)
            && !last.visits[j].moved
            && forall i ::
                 0 <= i < |prev.visits| && prev.visits[i].repo == last.visits[j].repo ==> !prev.visits[i].moved
  {
    var n := |ticks| - 1;
    var last := ticks[n];
    if n == 0 {
      FirstTickDefers(last.views, last.visits, j);
    } else {
      var prev := ticks[n - 1];
      assert ticks[..n][..n - 1] == ticks[..n - 1];
      TakeoverWindow(After(ticks[..n - 1]), prev.views, prev.visits, last.views, last.visits, j);
    }
  }

  // ---------------------------------------------------------------- who pushes

  /** A tick's decision for one repo of several under different names. An anchor always pushes. So does a roamer
      that has no peers. Any other roamer pushes exactly if it reads the anchor offline on this tick and read it so
      on the one before without standing down, the fetch did not fail, and no foreign push was sighted, on this
      tick or latched. */
  lemma PushExactly(l: Loop, role: Role, views: seq<bool>, vs: seq<Visit>, j: nat)
    requires DistinctRepos(vs) && j < |vs|
    ensures Ticked(l, role, AnchorOnline(views), vs).1[j] <==>
              || role.Anchor?
              || views == []
              || (true !in views && l.streak >= 1 && vs[j].fetchOk != Some(false) && !vs[j].moved
                  && !(vs[j].repo in l.seen && l.seen[vs[j].repo]))
  {
    var online := AnchorOnline(views);
    var l1 := l.(streak := StreakNow(l, role, online));
    DecisionOf(l1, role, online, ShouldPush(role, online, l1.streak), vs, j);
  }

  lemma {:induction false} DecisionOf(l: Loop, role: Role, online: Option<bool>, push: bool, vs: seq<Visit>, j: nat)
    requires DistinctRepos(vs) && j < |vs|
    ensures VisitAll(l, role, online, push, vs).1[j]
            == PushAllowed(role, push, online, vs[j].fetchOk, role.Roamer? && push && Sighting(l, online, vs[j]))
  {
    var n := |vs| - 1;
    if j < n {
      DecisionOf(l, role, online, push, vs[..n], j);
      assert vs[..n][j] == vs[j];
    } else if role.Roamer? {
      NotVisited(l, online, push, vs[..n], vs[n].repo);
    }
  }

  /** A quiet takeover happens: once the anchor reads offline on two ticks in a row and no foreign push is sighted
      on either, every repo whose fetch did not fail is pushed, whatever came before. */
  lemma TakeoverHappens(l: Loop, views0: seq<bool>, vs0: seq<Visit>, views1: seq<bool>, vs1: seq<Visit>, j: nat)
    requires views0 != [] && true !in views0 && views1 != [] && true !in views1
    requires DistinctRepos(vs0) && DistinctRepos(vs1) && j < |vs1|
    requires (forall i :: 0 <= i < |vs0| ==> !vs0[i].moved) && !vs1[j].moved && vs1[j].fetchOk != Some(false)
    requires forall r :: r in l.seen ==> !l.seen[r]
    ensures Ticked(Ticked(l, Roamer, AnchorOnline(views0), vs0).0, Roamer, AnchorOnline(views1), vs1).1[j]
  {
    var l0 := l.(streak := l.streak + 1);
    QuietVisitsKeepQuiet(l0, ShouldPush(Roamer, Some(false), l0.streak), vs0);
    PushExactly(Ticked(l, Roamer, AnchorOnline(views0), vs0).0, Roamer, views1, vs1, j);
  }

  lemma {:induction false} QuietVisitsKeepQuiet(l: Loop, push: bool, vs: seq<Visit>)
    requires (forall i :: 0 <= i < |vs| ==> !vs[i].moved) && forall r :: r in l.seen ==> !l.seen[r]
    ensures var r := VisitAll(l, Roamer, Some(false), push, vs).0;
            r.streak == l.streak && forall x :: x in r.seen ==> !r.seen[x]
  {
    if vs != [] { QuietVisitsKeepQuiet(l, push, vs[..|vs| - 1]); }
  }

  // ---------------------------------------------------------------- configured names

  /** A tick's visits to the configured repos, in their order. */
  ghost predicate Over(names: seq<string>, vs: seq<Visit>) {
    |vs| == |names| && forall i :: 0 <= i < |vs| ==> vs[i].repo == names[i]
  }

  /** The window for repo `j`, told by its place and not by its name. */
  ghost predicate Window(views0: seq<bool>, vs0: seq<Visit>, views1: seq<bool>, vs1: seq<Visit>, j: nat)
    requires j < |vs0| && j < |vs1|
  {
    AnchorOnline(views0) == Some(false) && AnchorOnline(views1) == Some(false) && !vs0[j].moved && !vs1[j].moved
  }

  /** Two ticks over these repos, from any state: whatever is allowed, the window holds of. */
  ghost predicate WindowHolds(names: seq<string>, l: Loop, views0: seq<bool>, vs0: seq<Visit>,
                              views1: seq<bool>, vs1: seq<Visit>)
  {
    views0 != [] && views1 != [] && Over(names, vs0) && Over(names, vs1) ==>
      forall j :: 0 <= j < |names| &&
                  Ticked(Ticked(l, Roamer, AnchorOnline(views0), vs0).0, Roamer, AnchorOnline(views1), vs1).1[j]
                  ==> Window(views0, vs0, views1, vs1, j)
  }

  ghost predicate DistinctNames(names: seq<string>) {
    forall i, j :: 0 <= i < j < |names| ==> names[i] != names[j]
  }

  /** The visits of a tick that sees only repo `j` moved, or none if `j` is past the end. */
  function Sees(names: seq<string>, j: nat): (vs: seq<Visit>)
    ensures |vs| == |names|
    ensures forall i :: 0 <= i < |vs| ==> vs[i] == Visit(names[i], i == j, Some(true))
  {
    if names == [] then []
    else Sees(names[..|names| - 1], j) + [Visit(names[|names| - 1], |names| - 1 == j, Some(true))]
  }

  /** On an offline tick that does not push, the streak stays and every sighting is latched. */
  lemma {:induction false} QuietTickLatches(l: Loop, vs: seq<Visit>, repo: string)
    ensures var r := VisitAll(l, Roamer, Some(false), false, vs).0;
            r.streak == l.streak
            && (Seen(l, repo) || (exists i :: 0 <= i < |vs| && vs[i].repo == repo && vs[i].moved) ==> Seen(r, repo))
  {
    if vs != [] { QuietTickLatches(l, vs[..|vs| - 1], repo); }
  }

  /** On a takeover tick, a visit without a sighting of its own leaves its name's latch down. */
  lemma {:induction false} TakeoverVisitSpends(l: Loop, vs: seq<Visit>, i: nat)
    requires i < |vs| && forall k :: 0 <= k < |vs| ==> !vs[k].moved
    ensures !Seen(VisitAll(l, Roamer, Some(false), true, vs).0, vs[i].repo)
  {
    var n := |vs| - 1;
    if i < n { TakeoverVisitSpends(l, vs[..n], i); }
  }

  /** The decision for one visit depends on the visits before it alone. */
  lemma {:induction false} VisitDecision(l: Loop, push: bool, vs: seq<Visit>, j: nat)
    requires j < |vs|
    ensures VisitAll(l, Roamer, Some(false), push, vs).1[j]
            == Visited(VisitAll(l, Roamer, Some(false), push, vs[..j]).0, Roamer, Some(false), push, vs[j]).1
  {
    var n := |vs| - 1;
    if j < n {
      VisitDecision(l, push, vs[..n], j);
      assert vs[..n][..j] == vs[..j];
    }
  }

  /** Two repos under one name share a latch, and that breaks the window: on the first offline tick after a
      start the second of them is seen moved; on the next the first one spends the sighting, and the second is
      pushed although a foreign push moved it one tick earlier. */
  lemma SharedNameBreaksTheWindow(names: seq<string>, i: nat, j: nat)
    requires i < j < |names| && names[i] == names[j]
    ensures var offline := AnchorOnline([false]);
            && Sees(names, j)[j].moved
            && Ticked(Ticked(Loop(0, map[]), Roamer, offline, Sees(names, j)).0,
                      Roamer, offline, Sees(names, |names|)).1[j]
  {
    assert AnchorOnline([false]) == Some(false) by { assert true !in [false]; }
    SightingIsLatched(names, j);
    hide *;
    SightingIsSpent(Ticked(Loop(0, map[]), Roamer, Some(false), Sees(names, j)).0, names, i, j);
  }

  lemma SightingIsLatched(names: seq<string>, j: nat)
    requires j < |names|
    ensures var l := Ticked(Loop(0, map[]), Roamer, Some(false), Sees(names, j)).0;
            l.streak == 1 && Seen(l, names[j])
  {
    var vs := Sees(names, j);
    assert vs[j].repo == names[j] && vs[j].moved;
    hide Seen, Sees, VisitAll;
    QuietTickLatches(Loop(1, map[]), vs, names[j]);
  }

  lemma SightingIsSpent(l: Loop, names: seq<string>, i: nat, j: nat)
    requires i < j < |names| && names[i] == names[j] && l.streak == 1
    ensures Ticked(l, Roamer, Some(false), Sees(names, |names|)).1[j]
  {
    var vs := Sees(names, |names|);
    assert vs[..j][i] == vs[i] && vs[i].repo == vs[j].repo;
    hide Sees, VisitAll;
    VisitDecision(l.(streak := 2), true, vs, j);
    TakeoverVisitSpends(l.(streak := 2), vs[..j], i);
  }

  /** So the window holds in every two-tick run over the configured repos exactly if their names differ. */
  lemma WindowNeedsDistinctNames(names: seq<string>)
    ensures (forall l, views0, vs0, views1, vs1 :: WindowHolds(names, l, views0, vs0, views1, vs1))
            <==> DistinctNames(names)
  {
    if DistinctNames(names) {
      forall l, views0, vs0, views1, vs1 ensures WindowHolds(names, l, views0, vs0, views1, vs1) {
        DistinctNamesKeepTheWindow(names, l, views0, vs0, views1, vs1);
      }
    } else {
      var i, j :| 0 <= i < j < |names| && names[i] == names[j];
      SharedNameBreaksTheWindow(names, i, j);
      var vs0, vs1 := Sees(names, j), Sees(names, |names|);
      assert Over(names, vs0) && Over(names, vs1);
      assert !WindowHolds(names, Loop(0, map[]), [false], vs0, [false], vs1);
    }
  }

  lemma DistinctNamesKeepTheWindow(names: seq<string>, l: Loop, views0: seq<bool>, vs0: seq<Visit>,
                                   views1: seq<bool>, vs1: seq<Visit>)
    requires DistinctNames(names)
    ensures WindowHolds(names, l, views0, vs0, views1, vs1)
  {
    if views0 != [] && views1 != [] && Over(names, vs0) && Over(names, vs1) {
      var l1 := Ticked(l, Roamer, AnchorOnline(views0), vs0).0;
      forall j | 0 <= j < |names| && Ticked(l1, Roamer, AnchorOnline(views1), vs1).1[j]
        ensures Window(views0, vs0, views1, vs1, j)
      {
        TakeoverWindow(l, views0, vs0, views1, vs1, j);
        assert vs0[j].repo == vs1[j].repo;
      }
    }
  }

  // ---------------------------------------------------------------- the tracking ref

  /** The window in terms of refs. A visit's `moved` is what the observer of DeriveMain answers for the
      machine's memory of the repo, and only that observer writes what was last seen. Then a repo is pushed
      only if origin's main as fetched on this tick is unknown, is what the tick before saw, or is this
      machine's own push; and the same held one tick earlier against what had been seen then. */
  lemma PushLeavesForeignMainsAlone(l: Loop, views0: seq<bool>, vs0: seq<Visit>, views1: seq<bool>, vs1: seq<Visit>,
                                    i: nat, j: nat, n0: Node, n1: Node)
    requires views0 != [] && views1 != [] && DistinctRepos(vs0) && DistinctRepos(vs1) && i < |vs0| && j < |vs1|
    requires Ticked(Ticked(l, Roamer, AnchorOnline(views0), vs0).0, Roamer, AnchorOnline(views1), vs1).1[j]
    requires vs0[i].repo == vs1[j].repo && vs0[i].moved == Observed(n0).1 && vs1[j].moved == Observed(n1).1
    requires n1.lastSeen == Observed(n0).0.lastSeen
    ensures n1.tracking.Some? && n0.tracking.Some? ==>
              n1.tracking.value.sha == n0.tracking.value.sha || n1.lastPushed == Some(n1.tracking.value.sha)
    ensures n0.tracking.Some? && n0.lastSeen.Some? ==>
              n0.tracking.value.sha == n0.lastSeen.value || n0.lastPushed == Some(n0.tracking.value.sha)
  {
    TakeoverWindow(l, views0, vs0, views1, vs1, j);
  }
}
