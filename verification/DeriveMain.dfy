/** Derived main: the commit message that records the inputs, and the pushes of one shared ref by many
    machines under a lease. */
module DeriveMain {
  import opened Wrappers
  import opened Text
  import opened NewestWins

  // ---------------------------------------------------------------- the recorded input set

  function InputLine(t: Tip): string { t.machine + " " + t.sha }

  function InputSet(tips: seq<Tip>): set<string> { set t | t in tips :: InputLine(t) }

  function InputLines(tips: seq<Tip>): (r: seq<string>)
    ensures |r| == |tips| && forall i :: 0 <= i < |r| ==> r[i] == InputLine(tips[i])
  {
    seq(|tips|, i requires 0 <= i < |tips| => InputLine(tips[i]))
  }

  const SUBJECT := "fleet: derived main"

  /** The message a derived commit is given. */
  function Message(tips: seq<Tip>): string { SUBJECT + "\n" + Join(InputLines(tips)) + "\n" }

  /** The message as `git show --format=%B` prints it. */
  function Shown(tips: seq<Tip>): string { Message(tips) + "\n" }

  predicate IsHex(c: char) { IsDigit(c) || 'a' <= c <= 'f' }

  predicate IsSha(s: string) {
    (|s| == 40 || |s| == 64) && forall i :: 0 <= i < |s| ==> IsHex(s[i])
  }

  /** `/^\S+ (?:[0-9a-f]{40}|[0-9a-f]{64})$/`. */
  predicate IsInputLine(t: string) {
    exists i :: 1 <= i < |t| && t[i] == ' ' && NoSpace(t[..i]) && IsSha(t[i + 1..])
  }

  function InputsIn(lines: seq<string>): set<string> {
    set l | l in lines && IsInputLine(Trim(l)) :: Trim(l)
  }

  /** parseInputSet: every line after the subject that has the recorded shape. */
  method ParseInputSet(body: string) returns (inputs: set<string>)
    ensures inputs == InputsIn(Split(body)[1..])
  {
    inputs := {};
    var lines := Split(body);
    hide Split, Trim, IsInputLine;
    for i := 1 to |lines|
      invariant inputs == InputsIn(lines[1..i])
    {
      assert lines[1..i + 1] == lines[1..i] + [lines[i]];
      InputsOneMore(lines[1..i], lines[i]);
      var line := Trim(lines[i]);
      if IsInputLine(line) { inputs := inputs + {line}; }
    }
    assert lines[1..|lines|] == lines[1..];
  }

  lemma InputsOneMore(lines: seq<string>, l: string)
    ensures InputsIn(lines + [l]) == InputsIn(lines) + if IsInputLine(Trim(l)) then {Trim(l)} else {}
  {
    hide Trim, IsInputLine;
    assert forall x :: x in lines + [l] <==> x in lines || x == l;
  }

  /** A tip as enumerateTips yields it: the machine is part of one line of git's output, the sha an
      object name. */
  predicate FromRef(t: Tip) { t.machine != "" && '\n' !in t.machine && IsSha(t.sha) }

  predicate AllFromRefs(tips: seq<Tip>) { forall i :: 0 <= i < |tips| ==> FromRef(tips[i]) }

  lemma ShaIsPlain(s: string)
    requires IsSha(s)
    ensures NoSpace(s) && '\n' !in s && ' ' !in s
  {
  }

  lemma InputLineParts(t: Tip)
    ensures var l, n := InputLine(t), |t.machine|; n < |l| && l[n] == ' ' && l[..n] == t.machine && l[n + 1..] == t.sha
  {
  }

  /** An input line has one separator: its object name holds no space. */
  lemma SeparatorIsUnique(t: Tip, i: nat)
    requires IsSha(t.sha) && 1 <= i < |InputLine(t)| && InputLine(t)[i] == ' ' && IsSha(InputLine(t)[i + 1..])
    ensures InputLine(t)[..i] == t.machine
  {
    var l := InputLine(t);
    InputLineParts(t);
    ShaIsPlain(t.sha);
    ShaIsPlain(l[i + 1..]);
    assert l == l[..i] + [' '] + l[i + 1..];
    assert l == t.machine + [' '] + t.sha;
    SplitAtLast(l[..i], l[i + 1..], t.machine, t.sha, ' ');
  }

  /** The line of a tip has the recorded shape exactly when its machine name holds no white space. */
  lemma InputLineShape(t: Tip)
    requires FromRef(t)
    ensures IsInputLine(InputLine(t)) <==> NoSpace(t.machine)
  {
    hide IsSha, NoSpace, InputLine;
    InputLineParts(t);
    var l := InputLine(t);
    if i :| 1 <= i < |l| && l[i] == ' ' && NoSpace(l[..i]) && IsSha(l[i + 1..]) {
      SeparatorIsUnique(t, i);
    }
  }

  lemma InputLineText(t: Tip)
    requires FromRef(t)
    ensures '\n' !in InputLine(t)
    ensures NoSpace(t.machine) ==> Trim(InputLine(t)) == InputLine(t)
  {
    var l := InputLine(t);
    ShaIsPlain(t.sha);
    if NoSpace(t.machine) {
      assert !IsSpace(l[0]);
      assert l[|l| - 1] == t.sha[|t.sha| - 1];
      TrimTight(l);
    }
  }

  lemma ShownLines(tips: seq<Tip>)
    requires AllFromRefs(tips) && tips != []
    ensures Split(Shown(tips))[1..] == InputLines(tips) + ["", ""]
  {
    var ls := InputLines(tips);
    forall i | 0 <= i < |ls| ensures '\n' !in ls[i] { InputLineText(tips[i]); }
    assert Shown(tips) == SUBJECT + "\n" + (Unlines(ls) + "\n" + "") by {
      JoinNewlineIsUnlines(ls);
      assert Shown(tips) == SUBJECT + "\n" + (Join(ls) + "\n" + "\n");
    }
    SplitLine(SUBJECT, Unlines(ls) + "\n" + "");
    SplitConcat(Unlines(ls), "");
    SplitUnlines(ls);
    assert ls + [""] + [""] == ls + ["", ""];
  }

  lemma EmptyIsNoInput()
    ensures !IsInputLine(Trim(""))
  {
  }

  lemma PlainLine(t: Tip)
    requires FromRef(t) && NoSpace(t.machine)
    ensures IsInputLine(InputLine(t)) && Trim(InputLine(t)) == InputLine(t)
  {
    InputLineText(t);
    InputLineShape(t);
  }

  lemma PlainLinesAreRead(tips: seq<Tip>)
    requires AllFromRefs(tips) && forall i :: 0 <= i < |tips| ==> NoSpace(tips[i].machine)
    ensures InputsIn(InputLines(tips) + ["", ""]) == InputSet(tips)
  {
    hide IsInputLine, Trim, NoSpace, InputLine;
    var all := InputLines(tips) + ["", ""];
    forall i | 0 <= i < |tips| ensures IsInputLine(all[i]) && Trim(all[i]) == all[i] == InputLine(tips[i]) {
      PlainLine(tips[i]);
    }
    EmptyIsNoInput();
    assert forall l :: l in InputsIn(all) ==> l in InputSet(tips);
    forall l | l in InputSet(tips) ensures l in InputsIn(all) {
      var t :| t in tips && InputLine(t) == l;
      var i :| 0 <= i < |tips| && tips[i] == t;
      assert all[i] in all;
    }
  }

  /** Reading back the message gives exactly the inputs it was written from, for exactly the tips whose
      machine names hold no white space. */
  lemma InputSetReadBack(tips: seq<Tip>)
    requires AllFromRefs(tips) && tips != []
    ensures InputsIn(Split(Shown(tips))[1..]) == InputSet(tips) <==> forall t :: t in tips ==> NoSpace(t.machine)
  {
    ShownLines(tips);
    hide IsInputLine, Trim, NoSpace, InputLine, Shown, Split, InputLines;
    if forall t :: t in tips ==> NoSpace(t.machine) {
      PlainLinesAreRead(tips);
    } else {
      var t :| t in tips && !NoSpace(t.machine);
      InputLineShape(t);
      assert InputLine(t) in InputSet(tips);
    }
  }

  // ---------------------------------------------------------------- one machine's memory of one repo

  const MAX_PUSH_RETRIES: nat := 3

  datatype Commit = Commit(sha: string, body: string)

  datatype Owed = Owed(sha: string, attempts: nat)

  /** The two refs and the three module-level maps of derive.ts for one repo, with the derived commits
      minted and the pushes attempted so far. */
  datatype Node = Node(
    derived: Option<Commit>, tracking: Option<Commit>,
    owed: Option<Owed>, lastPushed: Option<string>, lastSeen: Option<string>,
    minted: nat, attempts: nat)

  /** What the outside decides during one call: the sha commit-tree yields (None when a git step throws),
      whether an origin is configured, what ls-remote answers, whether origin takes a push whose lease
      holds, whether the tracking ref can be updated afterwards. */
  datatype Env = Env(mint: Option<string>, hasOrigin: bool, lsRemote: string, accepts: bool, refUpdated: bool)

  /** originMainLease: the tracking ref, or what origin answers; "" expects no main. */
  function Lease(n: Node, env: Env): string {
    match n.tracking case Some(c) => c.sha case None => env.lsRemote
  }

  /** A push under `--force-with-lease` is a compare-and-set. */
  predicate Lands(n: Node, origin: string, env: Env) { env.accepts && origin == Lease(n, env) }

  datatype PushResult = PushResult(node: Node, origin: string, landed: bool)

  function Push(n: Node, origin: string, commit: Commit, env: Env): PushResult {
    var tried := n.(attempts := n.attempts + 1);
    if Lands(n, origin, env) then
      PushResult(tried.(lastPushed := Some(commit.sha), owed := None,
                        tracking := if env.refUpdated then Some(commit) else n.tracking),
                 commit.sha, true)
    else
      var again := n.owed.Some? && n.owed.value.sha == commit.sha;
      PushResult(tried.(owed := Some(Owed(commit.sha, if again then n.owed.value.attempts + 1 else 0))), origin, false)
  }

  function Prior(n: Node): Option<Commit> { if n.derived.Some? then n.derived else n.tracking }

  predicate Unchanged(n: Node, tips: seq<Tip>) {
    match Prior(n)
    case None => false
    case Some(c) => InputsIn(Split(c.body)[1..]) == InputSet(tips)
  }

  predicate RetryDue(n: Node, push: bool) {
    push && n.owed.Some? && Prior(n).Some? && n.owed.value.sha == Prior(n).value.sha
    && n.owed.value.attempts < MAX_PUSH_RETRIES
  }

  datatype Skipped = NoSyncBranches | UnchangedInputs | PushSuppressed | NotSkipped | Threw

  datatype UpdateResult = UpdateResult(node: Node, origin: string, pushed: bool, skipped: Skipped)

  /** updateMain. */
  function Update(n: Node, origin: string, tips: seq<Tip>, push: bool, env: Env): UpdateResult {
    if tips == [] then UpdateResult(n, origin, false, NoSyncBranches)
    else if Unchanged(n, tips) then
      if RetryDue(n, push) then
        var r := Push(n, origin, Prior(n).value, env);
        UpdateResult(r.node, r.origin, r.landed, UnchangedInputs)
      else UpdateResult(n, origin, false, UnchangedInputs)
    else Minted(n, origin, tips, push, env)
  }

  /** Changed inputs: mint a derived commit, and push it if this machine is the pusher. */
  function Minted(n: Node, origin: string, tips: seq<Tip>, push: bool, env: Env): UpdateResult {
    match env.mint
    case None => UpdateResult(n, origin, false, Threw)
    case Some(sha) =>
      var commit := Commit(sha, Shown(tips));
      var minted := n.(derived := Some(commit), owed := None, minted := n.minted + 1);
      if !push then UpdateResult(minted, origin, false, PushSuppressed)
      else if !env.hasOrigin then UpdateResult(minted, origin, false, NotSkipped)
      else
        var r := Push(minted, origin, commit, env);
        UpdateResult(r.node, r.origin, r.landed, NotSkipped)
  }

  // ---------------------------------------------------------------- the code, step by step

  class Origin {
    var main: string

    constructor (main: string)
      ensures this.main == main
    {
      this.main := main;
    }
  }

  /** The module-level state of derive.ts for one repo, updated in place. */
  class Derive {
    var derivedRef: Option<Commit>
    var trackingRef: Option<Commit>
    var owedPush: Option<Owed>
    var lastPushedSha: Option<string>
    var lastSeenOriginMain: Option<string>
    ghost var minted: nat
    ghost var attempts: nat

    ghost function State(): Node
      reads this
    {
      Node(derivedRef, trackingRef, owedPush, lastPushedSha, lastSeenOriginMain, minted, attempts)
    }

    constructor (derived: Option<Commit>, tracking: Option<Commit>)
      ensures State() == Node(derived, tracking, None, None, None, 0, 0)
    {
      derivedRef, trackingRef := derived, tracking;
      owedPush, lastPushedSha, lastSeenOriginMain := None, None, None;
      minted, attempts := 0, 0;
    }

    method PushDerivedMain(origin: Origin, commit: Commit, env: Env) returns (pushed: bool)
      modifies this, origin
      ensures PushResult(State(), origin.main, pushed) == old(Push(State(), origin.main, commit, env))
    {
      var lease := if trackingRef.Some? then trackingRef.value.sha else env.lsRemote;
      attempts := attempts + 1;
      if env.accepts && origin.main == lease {
        origin.main := commit.sha;
        lastPushedSha := Some(commit.sha);
        owedPush := None;
        if env.refUpdated { trackingRef := Some(commit); }
        return true;
      }
      var prevOwed := owedPush;
      owedPush := Some(Owed(commit.sha,
        if prevOwed.Some? && prevOwed.value.sha == commit.sha then prevOwed.value.attempts + 1 else 0));
      return false;
    }

    /** originMainMovedByOther: has origin's main, as last fetched, moved since the previous call to a sha
        this machine did not push? */
    method OriginMainMovedByOther() returns (moved: bool)
      modifies this`lastSeenOriginMain
      ensures State() == old(Observed(State())).0 && moved == old(Observed(State())).1
    {
      if trackingRef.None? { return false; }
      var current := trackingRef.value.sha;
      var prev := lastSeenOriginMain;
      lastSeenOriginMain := Some(current);
      if prev.None? || prev.value == current { return false; }
      moved := lastPushedSha != Some(current);
    }

    method UpdateMain(origin: Origin, tips: seq<Tip>, push: bool, env: Env) returns (pushed: bool, skipped: Skipped)
      modifies this, origin
      ensures UpdateResult(State(), origin.main, pushed, skipped)
              == old(Update(State(), origin.main, tips, push, env))
    {
      if tips == [] { return false, NoSyncBranches; }
      ghost var n := State();
      var inputSet := set t | t in tips :: InputLine(t);
      var prior := if derivedRef.Some? then derivedRef else trackingRef;
      var same := false;
      if prior.Some? {
        var stored := ParseInputSet(prior.value.body);
        same := stored == inputSet;
      }
      assert same == Unchanged(n, tips);
      if same {
        var owed := owedPush;
        if push && owed.Some? && owed.value.sha == prior.value.sha && owed.value.attempts < MAX_PUSH_RETRIES {
          pushed := PushDerivedMain(origin, prior.value, env);
        } else {
          pushed := false;
        }
        return pushed, UnchangedInputs;
      }
      pushed, skipped := MintMain(origin, tips, push, env);
    }

    /** The rest of updateMain, once the inputs are known to have changed. */
    method MintMain(origin: Origin, tips: seq<Tip>, push: bool, env: Env) returns (pushed: bool, skipped: Skipped)
      modifies this, origin
      ensures UpdateResult(State(), origin.main, pushed, skipped) == old(Minted(State(), origin.main, tips, push, env))
    {
      if env.mint.None? { return false, Threw; }
      var commit := Commit(env.mint.value, Shown(tips));
      derivedRef := Some(commit);
      minted := minted + 1;
      owedPush := None;
      if !push { return false, PushSuppressed; }
      if !env.hasOrigin { return false, NotSkipped; }
      pushed := PushDerivedMain(origin, commit, env);
      skipped := NotSkipped;
    }
  }

  function Observed(n: Node): (Node, bool) {
    match n.tracking
    case None => (n, false)
    case Some(c) =>
      (n.(lastSeen := Some(c.sha)),
       n.lastSeen.Some? && n.lastSeen.value != c.sha && n.lastPushed != Some(c.sha))
  }

  // ---------------------------------------------------------------- the fleet

  /** Origin's main and every machine's memory of the repo. */
  datatype Fleet = Fleet(origin: string, nodes: map<string, Node>)

  /** A tick of one machine; a fetch that refreshes its tracking ref; a yield check; a restart, which
      keeps the refs and forgets the maps; a push to origin by hand. */
  datatype Event =
    | Tick(machine: string, tips: seq<Tip>, push: bool, env: Env)
    | Fetch(machine: string, seen: Option<Commit>)
    | Observe(machine: string)
    | Restart(machine: string)
    | HandPush(sha: string)

  predicate Possible(f: Fleet, e: Event) {
    match e
    case Tick(m, tips, _, _) => m in f.nodes && AllFromRefs(tips)
    case Fetch(m, seen) => m in f.nodes && (seen.Some? ==> seen.value.sha == f.origin)
    case Observe(m) => m in f.nodes
    case Restart(m) => m in f.nodes
    case HandPush(_) => true
  }

  function After(f: Fleet, e: Event): Fleet
    requires Possible(f, e)
  {
    match e
    case Tick(m, tips, push, env) =>
      var r := Update(f.nodes[m], f.origin, tips, push, env);
      Fleet(r.origin, f.nodes[m := r.node])
    case Fetch(m, seen) =>
      f.(nodes := f.nodes[m := if seen.Some? then f.nodes[m].(tracking := seen) else f.nodes[m]])
    case Observe(m) => f.(nodes := f.nodes[m := Observed(f.nodes[m]).0])
    case Restart(m) => f.(nodes := f.nodes[m := f.nodes[m].(owed := None, lastPushed := None, lastSeen := None)])
    case HandPush(sha) => f.(origin := sha)
  }

  ghost predicate IsRun(run: seq<Fleet>, events: seq<Event>) {
    |run| == |events| + 1
    && forall i :: 0 <= i < |events| ==> Possible(run[i], events[i]) && run[i + 1] == After(run[i], events[i])
  }

  /** The retries a machine still has to spend. */
  function RetriesLeft(n: Node): int {
    match n.owed case None => 0 case Some(o) => MAX_PUSH_RETRIES - o.attempts
  }

  ghost predicate WithinBudget(n: Node) {
    && RetriesLeft(n) >= 0 && (n.owed.Some? ==> n.derived.Some?)
    && n.attempts + RetriesLeft(n) <= (1 + MAX_PUSH_RETRIES) * n.minted
  }

  lemma EventKeepsBudget(f: Fleet, e: Event, m: string)
    requires Possible(f, e) && m in f.nodes && WithinBudget(f.nodes[m])
    ensures m in After(f, e).nodes && WithinBudget(After(f, e).nodes[m])
  {
  }

  /** In every run of the fleet, across machines, restarts and refused or failed pushes, a machine's push
      attempts are at most (1 + MAX_PUSH_RETRIES) times the derived commits it minted. */
  lemma {:induction false} PushesAreBounded(run: seq<Fleet>, events: seq<Event>, m: string, k: nat)
    requires IsRun(run, events) && k < |run|
    requires m in run[0].nodes && run[0].nodes[m].attempts == 0 && run[0].nodes[m].owed.None?
    ensures m in run[k].nodes && WithinBudget(run[k].nodes[m])
    ensures run[k].nodes[m].attempts <= (1 + MAX_PUSH_RETRIES) * run[k].nodes[m].minted
  {
    if k > 0 {
      PushesAreBounded(run, events, m, k - 1);
      EventKeepsBudget(run[k - 1], events[k - 1], m);
    }
  }

  /** A push lands only on the main the pushing machine last saw, and nothing else a machine does moves
      origin's main. */
  lemma OnlyLeasedPushesMoveOrigin(f: Fleet, e: Event)
    requires Possible(f, e) && After(f, e).origin != f.origin && !e.HandPush?
    ensures e.Tick? && e.env.accepts && f.origin == Lease(f.nodes[e.machine], e.env)
    ensures After(f, e).nodes[e.machine].lastPushed == Some(After(f, e).origin)
    ensures After(f, e).nodes[e.machine].attempts == f.nodes[e.machine].attempts + 1
  {
  }

  /** A tick over the tips a machine derived last mints again exactly when a machine name holds white
      space. */
  lemma UnchangedTipsMintNothing(n: Node, origin: string, tips: seq<Tip>, push: bool, env: Env)
    requires AllFromRefs(tips) && tips != [] && env.mint.Some?
    requires n.derived.Some? && n.derived.value.body == Shown(tips)
    ensures Update(n, origin, tips, push, env).node.minted == n.minted
       <==> forall t :: t in tips ==> NoSpace(t.machine)
  {
    InputSetReadBack(tips);
  }

  /** The node after one tick per environment, over the same tips. */
  function TickMany(n: Node, origin: string, tips: seq<Tip>, push: bool, envs: seq<Env>): Node
    decreases |envs|
  {
    if envs == [] then n
    else
      var r := Update(n, origin, tips, push, envs[0]);
      TickMany(r.node, r.origin, tips, push, envs[1..])
  }

  /** One machine name with white space in it, and a machine never settles: every tick mints. */
  lemma {:induction false} WhiteSpaceNeverSettles(n: Node, origin: string, tips: seq<Tip>, push: bool, envs: seq<Env>)
    requires AllFromRefs(tips) && tips != [] && exists t :: t in tips && !NoSpace(t.machine)
    requires n.derived.Some? && n.derived.value.body == Shown(tips)
    requires forall i :: 0 <= i < |envs| ==> envs[i].mint.Some?
    ensures TickMany(n, origin, tips, push, envs).minted == n.minted + |envs|
    decreases |envs|
  {
    if envs != [] {
      InputSetReadBack(tips);
      var r := Update(n, origin, tips, push, envs[0]);
      assert !Unchanged(n, tips);
      assert r.node.derived.value.body == Shown(tips) && r.node.minted == n.minted + 1;
      WhiteSpaceNeverSettles(r.node, r.origin, tips, push, envs[1..]);
    }
  }

  /** Such a name exists: git allows a no-break space in a ref. */
  lemma NoBreakSpaceIsNotReadBack()
    ensures var tips := [Tip("a\U{A0}b", seq(40, i => '0'), 0)];
            AllFromRefs(tips) && InputsIn(Split(Shown(tips))[1..]) != InputSet(tips)
  {
    var t := Tip("a\U{A0}b", seq(40, i => '0'), 0);
    var tips := [t];
    assert t.machine[1] == '\U{A0}' && IsSpace(t.machine[1]);
    assert t in tips && !NoSpace(t.machine);
    InputSetReadBack(tips);
  }

  // ---------------------------------------------------------------- what a tick does

  /** A tick that mints. Its commit records the tips. If this machine is the pusher and an origin is configured,
      the commit is pushed at once: with the lease on origin's main and origin willing, origin's main is the new
      commit and nothing is owed; otherwise origin is as it was and the commit is owed with no retry spent. If it
      is not the pusher, or there is no origin, nothing is attempted and nothing owed. */
  lemma MintingTick(n: Node, origin: string, tips: seq<Tip>, push: bool, env: Env)
    requires Update(n, origin, tips, push, env).node.minted != n.minted
    ensures var r := Update(n, origin, tips, push, env);
            var attempted := push && env.hasOrigin;
            var taken := attempted && env.accepts
                         && origin == if n.tracking.Some? then n.tracking.value.sha else env.lsRemote;
            && tips != [] && env.mint.Some? && r.node.minted == n.minted + 1
            && r.node.derived == Some(Commit(env.mint.value, Shown(tips)))
            && r.node.attempts == n.attempts + (if attempted then 1 else 0)
            && r.pushed == taken && r.origin == (if taken then env.mint.value else origin)
            && r.node.owed == (if attempted && !taken then Some(Owed(env.mint.value, 0)) else None)
            && r.node.lastPushed == (if taken then env.mint else n.lastPushed)
            && r.node.tracking == (if taken && env.refUpdated then r.node.derived else n.tracking)
            && r.node.lastSeen == n.lastSeen
            && r.skipped == (if push then NotSkipped else PushSuppressed)
  {
    hide Unchanged, Shown;
  }

  /** A tick that finds its tips unchanged. The pusher attempts again exactly if the commit its inputs were
      derived into is owed with fewer than three retries spent; a retry that lands moves origin there, and one
      that is refused is counted. Nothing else changes. */
  lemma UnchangedTick(n: Node, origin: string, tips: seq<Tip>, push: bool, env: Env)
    requires tips != [] && env.mint.Some? && Update(n, origin, tips, push, env).node.minted == n.minted
    ensures var r := Update(n, origin, tips, push, env);
            var prior := if n.derived.Some? then n.derived else n.tracking;
            && prior.Some? && r.skipped == UnchangedInputs
            && var sha := prior.value.sha;
               var due := push && n.owed.Some? && n.owed.value.sha == sha && n.owed.value.attempts < 3;
               var taken := due && env.accepts
                            && origin == if n.tracking.Some? then n.tracking.value.sha else env.lsRemote;
               && r.node.attempts == n.attempts + (if due then 1 else 0)
               && r.pushed == taken && r.origin == (if taken then sha else origin)
               && r.node.owed == (if taken then None
                                  else if due then Some(Owed(sha, n.owed.value.attempts + 1)) else n.owed)
               && r.node.lastPushed == (if taken then Some(sha) else n.lastPushed)
               && r.node.tracking == (if taken && env.refUpdated then prior else n.tracking)
               && r.node.derived == n.derived && r.node.lastSeen == n.lastSeen
  {
    hide InputsIn, InputSet, Split, Shown;
  }

  /** A tick without tips, or one whose git steps throw before the commit is made, does nothing at all. */
  lemma IdleTick(n: Node, origin: string, tips: seq<Tip>, push: bool, env: Env)
    requires tips == [] || (env.mint.None? && Update(n, origin, tips, push, env).skipped.Threw?)
    ensures var r := Update(n, origin, tips, push, env); r.node == n && r.origin == origin && !r.pushed
    ensures tips == [] ==> Update(n, origin, tips, push, env).skipped == NoSyncBranches
  {
    hide Unchanged, Shown;
  }

  /** The tips by what identifies them. */
  function Refs(tips: seq<Tip>): set<(string, string)> { set t | t in tips :: (t.machine, t.sha) }

  lemma RefsAreInputs(a: seq<Tip>, b: seq<Tip>)
    requires AllFromRefs(a) && AllFromRefs(b)
    ensures InputSet(a) == InputSet(b) <==> Refs(a) == Refs(b)
  {
    hide IsSha, InputLine;
    if InputSet(a) == InputSet(b) {
      SameInputsWithin(a, b);
      SameInputsWithin(b, a);
    } else if Refs(a) == Refs(b) {
      forall l ensures l in InputSet(a) <==> l in InputSet(b) {
        if t :| t in a && InputLine(t) == l {
          assert (t.machine, t.sha) in Refs(b);
          var u :| u in b && (u.machine, u.sha) == (t.machine, t.sha);
          LineOfRef(t, u);
        }
        if t :| t in b && InputLine(t) == l {
          assert (t.machine, t.sha) in Refs(a);
          var u :| u in a && (u.machine, u.sha) == (t.machine, t.sha);
          LineOfRef(t, u);
        }
      }
    }
  }

  lemma LineOfRef(t: Tip, u: Tip)
    requires FromRef(t) && FromRef(u)
    ensures InputLine(t) == InputLine(u) <==> (t.machine, t.sha) == (u.machine, u.sha)
  {
    InputLineParts(t);
    InputLineParts(u);
    if InputLine(t) == InputLine(u) { SeparatorIsUnique(t, |u.machine|); }
  }

  lemma SameInputsWithin(a: seq<Tip>, b: seq<Tip>)
    requires AllFromRefs(a) && AllFromRefs(b) && InputSet(a) == InputSet(b)
    ensures Refs(a) <= Refs(b)
  {
    hide IsSha, InputLine;
    forall t | t in a ensures (t.machine, t.sha) in Refs(b) {
      assert InputLine(t) in InputSet(b);
      var u :| u in b && InputLine(u) == InputLine(t);
      LineOfRef(t, u);
    }
  }

  /** A tick mints exactly when the tips differ from those its last derived commit, or failing one the fetched
      main, was made from. */
  lemma MintsExactlyWhenChanged(n: Node, origin: string, before: seq<Tip>, tips: seq<Tip>, push: bool, env: Env)
    requires AllFromRefs(before) && before != [] && (forall t :: t in before ==> NoSpace(t.machine))
    requires AllFromRefs(tips) && tips != [] && env.mint.Some?
    requires var prior := if n.derived.Some? then n.derived else n.tracking;
             prior.Some? && prior.value.body == Shown(before)
    ensures Update(n, origin, tips, push, env).node.minted == n.minted + 1 <==> Refs(tips) != Refs(before)
    ensures Update(n, origin, tips, push, env).node.minted == n.minted <==> Refs(tips) == Refs(before)
  {
    InputSetReadBack(before);
    RefsAreInputs(before, tips);
    hide InputsIn, InputSet, Split, Shown, Refs;
  }

  /** With no commit to compare with, a tick with tips mints. */
  lemma FirstTickMints(n: Node, origin: string, tips: seq<Tip>, push: bool, env: Env)
    requires n.derived.None? && n.tracking.None? && tips != [] && env.mint.Some?
    ensures Update(n, origin, tips, push, env).node.minted == n.minted + 1
  {
    hide Shown;
  }

  /** So in the fleet: the pusher's new main reaches origin in the tick that minted it, whenever origin takes it. */
  lemma NewMainReachesOrigin(f: Fleet, e: Event)
    requires Possible(f, e) && e.Tick? && e.push && e.env.hasOrigin && e.env.accepts
    requires f.origin == (if f.nodes[e.machine].tracking.Some? then f.nodes[e.machine].tracking.value.sha
                          else e.env.lsRemote)
    requires After(f, e).nodes[e.machine].minted != f.nodes[e.machine].minted
    ensures e.env.mint == Some(After(f, e).origin)
    ensures var n' := After(f, e).nodes[e.machine];
            n'.owed == None && n'.attempts == f.nodes[e.machine].attempts + 1 && n'.lastPushed == e.env.mint
  {
    MintingTick(f.nodes[e.machine], f.origin, e.tips, e.push, e.env);
  }

  /** And one that was refused is retried: over unchanged tips a pusher refused every time attempts exactly as
      often as it has retries left, three in all, and no more. */
  lemma {:induction false} RefusedPushIsRetried(n: Node, origin: string, tips: seq<Tip>, envs: seq<Env>)
    requires AllFromRefs(tips) && tips != [] && forall t :: t in tips ==> NoSpace(t.machine)
    requires n.derived.Some? && n.derived.value.body == Shown(tips)
    requires n.owed.Some? && n.owed.value.sha == n.derived.value.sha && n.owed.value.attempts <= 3
    requires forall i :: 0 <= i < |envs| ==> envs[i].mint.Some? && !envs[i].accepts
    ensures TickMany(n, origin, tips, true, envs).attempts
            == n.attempts + if |envs| <= 3 - n.owed.value.attempts then |envs| else 3 - n.owed.value.attempts
    decreases |envs|
  {
    if envs != [] {
      MintsExactlyWhenChanged(n, origin, tips, tips, true, envs[0]);
      UnchangedTick(n, origin, tips, true, envs[0]);
      hide Update, Shown, AllFromRefs;
      var r := Update(n, origin, tips, true, envs[0]);
      RefusedPushIsRetried(r.node, r.origin, tips, envs[1..]);
    }
  }

  /** The observer reports a move of the fetched main once, and only if this machine did not push it. The first
      value it sees is no move. */
  lemma ForeignMoveIsSeenOnce(n: Node)
    ensures Observed(n).1 <==>
              n.tracking.Some? && n.lastSeen.Some? && n.lastSeen.value != n.tracking.value.sha
              && n.lastPushed != Some(n.tracking.value.sha)
    ensures !Observed(Observed(n).0).1
    ensures n.tracking.Some? ==> Observed(n).0.lastSeen == Some(n.tracking.value.sha)
  {
  }

  /** A main this machine pushed itself is never reported as another's. */
  lemma OwnPushIsNotForeign(n: Node, origin: string, tips: seq<Tip>, push: bool, env: Env)
    requires Update(n, origin, tips, push, env).pushed && env.refUpdated
    ensures !Observed(Update(n, origin, tips, push, env).node).1
  {
    hide Unchanged, Shown;
  }

  /** The inputs of machine `m` no longer change from step `from` on, and their names are plain. */
  ghost predicate Settled(events: seq<Event>, m: string, from: nat, tips: seq<Tip>) {
    && tips != [] && AllFromRefs(tips) && (forall t :: t in tips ==> NoSpace(t.machine))
    && forall i :: from <= i < |events| && events[i].Tick? && events[i].machine == m ==> events[i].tips == tips
  }

  ghost predicate HasDerived(n: Node, tips: seq<Tip>) {
    n.derived.Some? && InputsIn(Split(n.derived.value.body)[1..]) == InputSet(tips)
  }

  /** The derived commits and the pushes a machine may still add over fixed inputs. */
  ghost function MintsLeft(n: Node, tips: seq<Tip>): int { if HasDerived(n, tips) then 0 else 1 }

  ghost function PushesLeft(n: Node, tips: seq<Tip>): int {
    if HasDerived(n, tips) then RetriesLeft(n) else 1 + MAX_PUSH_RETRIES
  }

  ghost predicate Spends(n: Node, n': Node, tips: seq<Tip>) {
    && n'.attempts + PushesLeft(n', tips) <= n.attempts + PushesLeft(n, tips)
    && n'.minted + MintsLeft(n', tips) <= n.minted + MintsLeft(n, tips)
  }

  lemma TickSpends(n: Node, origin: string, tips: seq<Tip>, push: bool, env: Env)
    requires WithinBudget(n) && tips != [] && AllFromRefs(tips) && forall t :: t in tips ==> NoSpace(t.machine)
    ensures Spends(n, Update(n, origin, tips, push, env).node, tips)
  {
    if Unchanged(n, tips) {
      if RetryDue(n, push) { assert HasDerived(n, tips); }
    } else {
      InputSetReadBack(tips);
      assert !HasDerived(n, tips);
    }
  }

  lemma EventSpends(f: Fleet, e: Event, m: string, tips: seq<Tip>)
    requires Possible(f, e) && m in f.nodes && WithinBudget(f.nodes[m])
    requires tips != [] && AllFromRefs(tips) && forall t :: t in tips ==> NoSpace(t.machine)
    requires e.Tick? && e.machine == m ==> e.tips == tips
    ensures Spends(f.nodes[m], After(f, e).nodes[m], tips)
  {
    match e
    case Tick(x, ts, push, env) =>
      if x == m { TickSpends(f.nodes[m], f.origin, tips, push, env); }
    case _ =>
  }

  lemma {:induction false} RunSpends(run: seq<Fleet>, events: seq<Event>, m: string, from: nat, k: nat, tips: seq<Tip>)
    requires IsRun(run, events) && from <= k < |run| && Settled(events, m, from, tips)
    requires m in run[from].nodes && WithinBudget(run[from].nodes[m])
    ensures m in run[k].nodes && WithinBudget(run[k].nodes[m])
    ensures Spends(run[from].nodes[m], run[k].nodes[m], tips)
    decreases k
  {
    hide *;
    if k == from {
      SpendsNothing(run[from].nodes[m], tips);
    } else {
      RunSpends(run, events, m, from, k - 1, tips);
      RunHasEvents(run, events);
      EventOfRun(run, events, m, from, k - 1, tips);
      EventKeepsBudget(run[k - 1], events[k - 1], m);
      EventSpends(run[k - 1], events[k - 1], m, tips);
      SpendsChain(run[from].nodes[m], run[k - 1].nodes[m], run[k].nodes[m], tips);
    }
  }

  lemma EventOfRun(run: seq<Fleet>, events: seq<Event>, m: string, from: nat, k: nat, tips: seq<Tip>)
    requires IsRun(run, events) && from <= k < |events| && Settled(events, m, from, tips)
    ensures Possible(run[k], events[k]) && run[k + 1] == After(run[k], events[k])
    ensures tips != [] && AllFromRefs(tips) && forall t :: t in tips ==> NoSpace(t.machine)
    ensures events[k].Tick? && events[k].machine == m ==> events[k].tips == tips
  {
    hide After, Possible, AllFromRefs, NoSpace;
  }

  lemma RunHasEvents(run: seq<Fleet>, events: seq<Event>)
    requires IsRun(run, events)
    ensures |run| == |events| + 1
  {
  }

  lemma SpendsNothing(n: Node, tips: seq<Tip>)
    ensures Spends(n, n, tips)
  {
  }

  lemma SpendsChain(a: Node, b: Node, c: Node, tips: seq<Tip>)
    requires Spends(a, b, tips) && Spends(b, c, tips)
    ensures Spends(a, c, tips)
  {
    hide PushesLeft, MintsLeft;
  }

  /** The fleet settles. From the moment a machine's inputs stop changing it mints at most one more
      derived commit and attempts at most 1 + MAX_PUSH_RETRIES more pushes, in every run, whatever the other
      machines, origin, the network and restarts do. */
  lemma FleetSettles(run: seq<Fleet>, events: seq<Event>, m: string, from: nat, k: nat, tips: seq<Tip>)
    requires IsRun(run, events) && from <= k < |run| && Settled(events, m, from, tips)
    requires m in run[0].nodes && run[0].nodes[m].attempts == 0 && run[0].nodes[m].owed.None?
    ensures m in run[from].nodes && m in run[k].nodes
    ensures run[k].nodes[m].attempts <= run[from].nodes[m].attempts + 1 + MAX_PUSH_RETRIES
    ensures run[k].nodes[m].minted <= run[from].nodes[m].minted + 1
  {
    PushesAreBounded(run, events, m, from);
    RunSpends(run, events, m, from, k, tips);
  }
}
