/** Retiring an orphaned git lock. Other processes take and release locks under the same name all the while, so
    the lock is moved aside first and looked at again before anything is destroyed. */
module LockRetirement {
  import opened Wrappers

  const FS_CLOCK_SLACK_MS := 20

  // ---------------------------------------------------------------- the file system

  type Name = string
  type Obj = nat

  /** What lstat reports. */
  datatype Stat = Stat(ino: nat, dev: nat, size: nat, mtimeMs: int, birthMs: int, uid: int, isFile: bool)

  /** The comparison retireLock makes. */
  predicate SameFile(a: Stat, b: Stat) {
    a.ino == b.ino && a.dev == b.dev && a.size == b.size && a.mtimeMs == b.mtimeMs
  }

  /** Names and the files they stand for; a file without a name is gone. */
  datatype Fs = Fs(dir: map<Name, Obj>, files: map<Obj, Stat>)

  predicate Named(fs: Fs, o: Obj) { exists n :: n in fs.dir && fs.dir[n] == o }

  datatype Rule = OlderThan(ms: int, nowMs: int) | CreatedSince(ms: int)

  /** isCandidate. */
  predicate IsCandidate(st: Stat, rule: Rule) {
    match rule
    case CreatedSince(ms) => st.birthMs > 0 && st.birthMs >= ms - FS_CLOCK_SLACK_MS
    case OlderThan(ms, nowMs) => st.mtimeMs <= nowMs && nowMs - st.mtimeMs >= ms
  }

  /** One retirement: the lock's name, the random name it is moved to, its place in the quarantine, and which
      locks may be retired. */
  datatype Site = Site(lock: Name, aside: Name, dest: Name, rule: Rule, uid: Option<int>)

  predicate Eligible(site: Site, st: Stat) {
    st.isFile && (site.uid.Some? ==> st.uid == site.uid.value) && IsCandidate(st, site.rule)
  }

  // ---------------------------------------------------------------- steps

  datatype Outcome = LeftAlone | Removed | Quarantined(at: Name)

  /** Where the daemon stands; `vetted` is what lstat said of the lock, `moved` the file it moved aside. */
  datatype Pc =
    | Start
    | Vetted(vetted: Stat)
    | Free(vetted: Stat)
    | MovedAside(vetted: Stat, moved: Obj)
    | Same(vetted: Stat, moved: Obj)
    | Differs(vetted: Stat, moved: Obj)
    | Linked(vetted: Stat, moved: Obj)
    | Done(outcome: Outcome)

  datatype State = State(fs: Fs, pc: Pc)

  datatype Action =
    // the daemon; `ok` is whether the operation succeeds where the file system leaves it a choice
    | LstatLock | HolderCheck(free: bool) | MoveAside(ok: bool) | LstatAside
    | LinkBack(ok: bool) | UnlinkBack(ok: bool) | UnlinkEmpty(ok: bool) | Quarantine(ok: bool)
    // everybody else: take the lock, drop it, publish its file under the name it guards, write a file
    | Create(o: Obj, stat: Stat) | Release | Publish(target: Name) | Write(o: Obj, stat: Stat)

  predicate ByDaemon(a: Action) {
    a.LstatLock? || a.HolderCheck? || a.MoveAside? || a.LstatAside? || a.LinkBack? || a.UnlinkBack?
    || a.UnlinkEmpty? || a.Quarantine?
  }

  /** The holder check came back free: nobody has the vetted file open, so nobody writes it any more. */
  predicate Settled(s: State, o: Obj) {
    o in s.fs.files && (s.pc.Free? || s.pc.MovedAside? || s.pc.Same?) && SameFile(s.fs.files[o], s.pc.vetted)
  }

  predicate Enabled(site: Site, s: State, a: Action) {
    match a
    case LstatLock => s.pc.Start?
    case HolderCheck(_) => s.pc.Vetted?
    case MoveAside(_) => s.pc.Free?
    case LstatAside => s.pc.MovedAside?
    case LinkBack(_) => s.pc.Differs?
    case UnlinkBack(_) => s.pc.Linked?
    case UnlinkEmpty(_) => s.pc.Same? && s.pc.vetted.size == 0
    case Quarantine(_) => s.pc.Same? && s.pc.vetted.size > 0
    case Create(o, _) => site.lock !in s.fs.dir && o !in s.fs.files
    case Release => site.lock in s.fs.dir
    case Publish(target) => site.lock in s.fs.dir && target != site.lock && target != site.aside && target != site.dest
    case Write(o, _) => o in s.fs.files && !Settled(s, o)
  }

  predicate Wf(site: Site, s: State) {
    && site.lock != site.aside && site.lock != site.dest && site.aside != site.dest
    && (forall n :: n in s.fs.dir ==> s.fs.dir[n] in s.fs.files)
    // the random aside name is fresh and the quarantine name unused until the daemon takes them
    && (s.pc.Start? || s.pc.Vetted? || s.pc.Free? ==> site.aside !in s.fs.dir)
    && (!s.pc.Done? ==> site.dest !in s.fs.dir)
    && (s.pc.MovedAside? || s.pc.Same? || s.pc.Differs? || s.pc.Linked? ==>
          site.aside in s.fs.dir && s.fs.dir[site.aside] == s.pc.moved)
    && (!s.pc.Start? && !s.pc.Done? ==> Eligible(site, s.pc.vetted))
    && (s.pc.Same? ==> SameFile(s.fs.files[s.pc.moved], s.pc.vetted))
  }

  /** rename(2): the target's old file, if any, loses that name. */
  function Renamed(fs: Fs, from: Name, to: Name): Fs
    requires from in fs.dir
  {
    fs.(dir := (fs.dir - {from})[to := fs.dir[from]])
  }

  function Unlinked(fs: Fs, name: Name): Fs { fs.(dir := fs.dir - {name}) }

  function After(site: Site, s: State, a: Action): State
    requires Wf(site, s) && Enabled(site, s, a)
  {
    var fs := s.fs;
    match a
    case LstatLock =>
      if site.lock in fs.dir && Eligible(site, fs.files[fs.dir[site.lock]])
      then s.(pc := Vetted(fs.files[fs.dir[site.lock]])) else s.(pc := Done(LeftAlone))
    case HolderCheck(free) => s.(pc := if free then Free(s.pc.vetted) else Done(LeftAlone))
    case MoveAside(ok) =>
      if ok && site.lock in fs.dir
      then State(Renamed(fs, site.lock, site.aside), MovedAside(s.pc.vetted, fs.dir[site.lock]))
      else s.(pc := Done(LeftAlone))
    case LstatAside =>
      s.(pc := if SameFile(fs.files[s.pc.moved], s.pc.vetted) then Same(s.pc.vetted, s.pc.moved)
               else Differs(s.pc.vetted, s.pc.moved))
    case LinkBack(ok) =>
      // link(2) refuses an existing name
      if ok && site.lock !in fs.dir
      then State(fs.(dir := fs.dir[site.lock := s.pc.moved]), Linked(s.pc.vetted, s.pc.moved))
      else s.(pc := Done(LeftAlone))
    case UnlinkBack(ok) => State(if ok then Unlinked(fs, site.aside) else fs, Done(LeftAlone))
    case UnlinkEmpty(ok) =>
      if ok then State(Unlinked(fs, site.aside), Done(Removed)) else s.(pc := Done(Quarantined(site.aside)))
    case Quarantine(ok) =>
      if ok then State(Renamed(fs, site.aside, site.dest), Done(Quarantined(site.dest)))
      else s.(pc := Done(Quarantined(site.aside)))
    case Create(o, stat) => s.(fs := Fs(fs.dir[site.lock := o], fs.files[o := stat]))
    case Release => s.(fs := Unlinked(fs, site.lock))
    case Publish(target) => s.(fs := Renamed(fs, site.lock, target))
    case Write(o, stat) => s.(fs := fs.(files := fs.files[o := stat]))
  }

  lemma StepKeepsWf(site: Site, s: State, a: Action)
    requires Wf(site, s) && Enabled(site, s, a)
    ensures Wf(site, After(site, s, a))
  {
  }

  /** What a well-formed state may go on to. */
  ghost predicate Steps(site: Site, s: State, a: Action, s': State) {
    Wf(site, s) ==> Enabled(site, s, a) && s' == After(site, s, a)
  }

  ghost predicate IsRun(site: Site, run: seq<State>, actions: seq<Action>) {
    && |run| == |actions| + 1 && Wf(site, run[0]) && run[0].pc.Start?
    && forall i :: 0 <= i < |actions| ==> Steps(site, run[i], actions[i], run[i + 1])
  }

  lemma {:induction false} RunKeepsWf(site: Site, run: seq<State>, actions: seq<Action>, i: nat)
    requires IsRun(site, run, actions) && i < |run|
    ensures Wf(site, run[i])
  {
    if i > 0 {
      RunKeepsWf(site, run, actions, i - 1);
      assert Steps(site, run[i - 1], actions[i - 1], run[i - 1 + 1]);
      StepKeepsWf(site, run[i - 1], actions[i - 1]);
    }
  }

  // ---------------------------------------------------------------- what is destroyed

  /** A name other than the one dropped still stands for the file. */
  lemma NameStays(fs: Fs, fs': Fs, o: Obj, n: Name)
    requires n in fs.dir && fs.dir[n] == o && n in fs'.dir && fs'.dir[n] == o
    ensures Named(fs', o)
  {
  }

  lemma MovesDestroyNothing(site: Site, s: State, a: Action, o: Obj)
    requires Wf(site, s) && Enabled(site, s, a) && Named(s.fs, o)
    requires a.MoveAside? || a.Quarantine? || a.LinkBack? || a.LstatLock? || a.HolderCheck? || a.LstatAside?
    ensures Named(After(site, s, a).fs, o)
  {
    var n :| n in s.fs.dir && s.fs.dir[n] == o;
    var fs' := After(site, s, a).fs;
    var n' := if n in fs'.dir && fs'.dir[n] == o then n else if a.MoveAside? then site.aside else site.dest;
    assert n' in fs'.dir && fs'.dir[n'] == o;
  }

  lemma UnlinkDestroysOneFile(fs: Fs, name: Name, o: Obj)
    requires Named(fs, o) && name in fs.dir && fs.dir[name] != o
    ensures Named(Unlinked(fs, name), o)
  {
    var n :| n in fs.dir && fs.dir[n] == o;
    assert n in Unlinked(fs, name).dir && Unlinked(fs, name).dir[n] == o;
  }

  /** A lock that may be retired: a plain file of the right owner, and either at least so old, by a clock that is
      not behind its last write, or born no more than a clock tick before the given moment. */
  predicate Retirable(site: Site, st: Stat) {
    && st.isFile
    && (site.uid == None || site.uid == Some(st.uid))
    && match site.rule
       case OlderThan(ms, nowMs) => st.mtimeMs <= nowMs && st.mtimeMs + ms <= nowMs
       case CreatedSince(ms) => 0 < st.birthMs && ms <= st.birthMs + 20
  }

  /** The same file, of the same size and last written at the same moment. */
  predicate Unchanged(before: Stat, after: Stat) {
    (before.ino, before.dev, before.size, before.mtimeMs) == (after.ino, after.dev, after.size, after.mtimeMs)
  }

  lemma EligibleIsRetirable(site: Site, st: Stat)
    ensures Eligible(site, st) <==> Retirable(site, st)
  {
  }

  /** Step `j` found the lock with this lstat. */
  ghost predicate FoundAt(site: Site, run: seq<State>, actions: seq<Action>, j: nat, st: Stat)
    requires j < |actions| < |run|
  {
    actions[j].LstatLock? && site.lock in run[j].fs.dir && run[j].fs.dir[site.lock] in run[j].fs.files
    && run[j].fs.files[run[j].fs.dir[site.lock]] == st
  }

  ghost predicate Vetting(site: Site, run: seq<State>, actions: seq<Action>, i: nat, st: Stat)
    requires i <= |actions| < |run|
  {
    exists j :: 0 <= j < i && FoundAt(site, run, actions, j, st)
  }

  ghost predicate HolderFree(actions: seq<Action>, i: nat)
    requires i <= |actions|
  {
    exists k :: 0 <= k < i && actions[k] == HolderCheck(true)
  }

  /** No lock is moved that was not vetted: behind every state from the verdict on lies an lstat of the lock under
      its name, which found what is remembered, and it was retirable; and a holder check that came back free. */
  lemma {:induction false} NothingMovesUnvetted(site: Site, run: seq<State>, actions: seq<Action>, i: nat)
    requires IsRun(site, run, actions) && i < |run| && !run[i].pc.Start? && !run[i].pc.Done?
    ensures Vetting(site, run, actions, i, run[i].pc.vetted) && Retirable(site, run[i].pc.vetted)
    ensures !run[i].pc.Vetted? ==> HolderFree(actions, i)
  {
    var s, a := run[i - 1], actions[i - 1];
    RunKeepsWf(site, run, actions, i - 1);
    RunKeepsWf(site, run, actions, i);
    EligibleIsRetirable(site, run[i].pc.vetted);
    assert Steps(site, run[i - 1], actions[i - 1], run[i - 1 + 1]);
    if s.pc.Start? {
      assert a.LstatLock?;
      assert FoundAt(site, run, actions, i - 1, run[i].pc.vetted);
    } else {
      NothingMovesUnvetted(site, run, actions, i - 1);
      assert run[i].pc.vetted == s.pc.vetted;
      var j :| 0 <= j < i - 1 && FoundAt(site, run, actions, j, s.pc.vetted);
      assert FoundAt(site, run, actions, j, run[i].pc.vetted);
      if s.pc.Vetted? && !run[i].pc.Vetted? { assert actions[i - 1] == HolderCheck(true); }
    }
  }

  /** In every run, with locks taken, dropped, published and written by others between any two steps, the daemon
      takes a file's last name in two cases only: it is the vetted lock, still as vetted, empty and eligible;
      or the file was put back under its name and its owner dropped that name before the daemon dropped the
      aside one. A file that differs from the vetted one, or a lock with bytes in it, is otherwise never
      deleted and never overwritten. */
  lemma DestroysOnlyTheVettedLock(site: Site, run: seq<State>, actions: seq<Action>, i: nat, o: Obj)
    requires IsRun(site, run, actions) && i < |actions| && ByDaemon(actions[i])
    requires Named(run[i].fs, o) && !Named(run[i + 1].fs, o)
    ensures Wf(site, run[i]) && Enabled(site, run[i], actions[i]) && o in run[i].fs.files
    ensures var st := run[i].fs.files[o];
            || (actions[i].UnlinkEmpty? && st.size == 0 && Unchanged(run[i].pc.vetted, st)
                && Retirable(site, run[i].pc.vetted))
            || (actions[i].UnlinkBack? && o == run[i].pc.moved
                && (site.lock !in run[i].fs.dir || run[i].fs.dir[site.lock] != o))
  {
    RunKeepsWf(site, run, actions, i);
    assert Steps(site, run[i], actions[i], run[i + 1]);
    var s, a := run[i], actions[i];
    if a.UnlinkEmpty? { EligibleIsRetirable(site, s.pc.vetted); }
    if !a.UnlinkEmpty? && !a.UnlinkBack? {
      MovesDestroyNothing(site, s, a, o);
    } else if s.fs.dir[site.aside] != o {
      UnlinkDestroysOneFile(s.fs, site.aside, o);
    } else if site.lock in s.fs.dir && s.fs.dir[site.lock] == o {
      NameStays(s.fs, run[i + 1].fs, o, site.lock);
    }
  }

  /** A name other than the aside one stands for the file. */
  ghost predicate HeldElsewhere(site: Site, fs: Fs, o: Obj) {
    exists n :: n in fs.dir && n != site.aside && fs.dir[n] == o
  }

  /** The second case is exactly a release in the window: the put-back file survives the daemon's last step if
      and only if that step fails or some other name, its own or one it was published under, still holds it. */
  lemma PutBackExact(site: Site, s: State, ok: bool)
    requires Wf(site, s) && s.pc.Linked?
    ensures Named(After(site, s, UnlinkBack(ok)).fs, s.pc.moved) <==>
            !ok || HeldElsewhere(site, s.fs, s.pc.moved)
  {
    var fs' := After(site, s, UnlinkBack(ok)).fs;
    if ok && HeldElsewhere(site, s.fs, s.pc.moved) {
      var n :| n in s.fs.dir && n != site.aside && s.fs.dir[n] == s.pc.moved;
      NameStays(s.fs, fs', s.pc.moved, n);
    } else if ok {
      assert forall n :: n in fs'.dir ==> n in s.fs.dir && n != site.aside && fs'.dir[n] == s.fs.dir[n];
    } else {
      NameStays(s.fs, fs', s.pc.moved, site.aside);
    }
  }

  /** `n` is the file's one name but for the aside one. */
  ghost predicate OnlyAt(site: Site, fs: Fs, o: Obj, n: Name) {
    n in fs.dir && fs.dir[n] == o && forall m :: m in fs.dir && fs.dir[m] == o ==> m == n || m == site.aside
  }

  /** Somebody takes that name: by releasing the lock, or by publishing another file over it. */
  ghost predicate TakesLastName(site: Site, fs: Fs, a: Action, o: Obj) {
    match a
    case Release => OnlyAt(site, fs, o, site.lock)
    case Publish(target) => target != site.lock && OnlyAt(site, fs, o, target)
    case _ => false
  }

  lemma OthersStep(site: Site, s: State, a: Action)
    requires Wf(site, s) && s.pc.Linked? && Enabled(site, s, a) && !ByDaemon(a)
    ensures After(site, s, a).pc == s.pc
    ensures HeldElsewhere(site, After(site, s, a).fs, s.pc.moved)
            <==> HeldElsewhere(site, s.fs, s.pc.moved) && !TakesLastName(site, s.fs, a, s.pc.moved)
  {
    var o, dir, dir' := s.pc.moved, s.fs.dir, After(site, s, a).fs.dir;
    if HeldElsewhere(site, s.fs, o) {
      if TakesLastName(site, s.fs, a, o) {
        assert forall n :: n in dir' && dir'[n] == o ==> n == site.aside;
      } else {
        var n :| n in dir && n != site.aside && dir[n] == o;
        var gone := if a.Release? then site.lock else if a.Publish? then a.target else site.aside;
        if a.Publish? && dir[site.lock] == o {
          assert dir'[a.target] == o;
        } else if n == gone {
          var m :| m in dir && dir[m] == o && m != n && m != site.aside;
          assert dir'[m] == o;
        } else {
          assert dir'[n] == o;
        }
      }
    } else {
      assert forall n :: n in dir' && dir'[n] == o ==> n == site.aside;
    }
  }

  ghost predicate TakenWithin(site: Site, run: seq<State>, actions: seq<Action>, i: nat, k: nat, o: Obj)
    requires k <= |actions| < |run|
  {
    exists j :: i <= j < k && TakesLastName(site, run[j].fs, actions[j], o)
  }

  lemma TakenOneMore(site: Site, run: seq<State>, actions: seq<Action>, i: nat, k: nat, o: Obj)
    requires i <= k < |actions| < |run|
    ensures TakenWithin(site, run, actions, i, k + 1, o)
            <==> TakenWithin(site, run, actions, i, k, o) || TakesLastName(site, run[k].fs, actions[k], o)
  {
  }

  /** Between the link and the daemon's last step. */
  lemma {:induction false} WhileLinked(site: Site, run: seq<State>, actions: seq<Action>, i: nat, k: nat)
    requires IsRun(site, run, actions) && i <= k < |run| && run[i].pc.Linked?
    requires HeldElsewhere(site, run[i].fs, run[i].pc.moved)
    ensures run[k].pc.Done?
            || (run[k].pc == run[i].pc && (HeldElsewhere(site, run[k].fs, run[i].pc.moved)
                                           <==> !TakenWithin(site, run, actions, i, k, run[i].pc.moved)))
  {
    if k > i {
      var s, a := run[k - 1], actions[k - 1];
      WhileLinked(site, run, actions, i, k - 1);
      RunKeepsWf(site, run, actions, k - 1);
      assert Steps(site, run[k - 1], actions[k - 1], run[k - 1 + 1]);
      TakenOneMore(site, run, actions, i, k - 1, run[i].pc.moved);
      hide HeldElsewhere, TakesLastName, TakenWithin;
      if s.pc.Linked? && !ByDaemon(a) { OthersStep(site, s, a); }
    }
  }

  /** In every run in which the daemon puts a lock back, the file survives its last step if and only if the unlink
      fails or nobody, between the link and the unlink, took the file's last name but the aside one: the owner by
      releasing the lock, or a publication by covering the name it was published under. */
  lemma PutBackSurvives(site: Site, run: seq<State>, actions: seq<Action>, i: nat, k: nat)
    requires IsRun(site, run, actions) && i < k < |actions|
    requires actions[i].LinkBack? && run[i + 1].pc.Linked? && actions[k].UnlinkBack?
    ensures Named(run[k + 1].fs, run[i + 1].pc.moved) <==>
            !actions[k].ok || !TakenWithin(site, run, actions, i + 1, k, run[i + 1].pc.moved)
  {
    RunKeepsWf(site, run, actions, i);
    RunKeepsWf(site, run, actions, k);
    assert Steps(site, run[i], actions[i], run[i + 1]);
    assert Steps(site, run[k], actions[k], run[k + 1]);
    assert run[i + 1].fs.dir[site.lock] == run[i + 1].pc.moved;
    WhileLinked(site, run, actions, i + 1, k);
    PutBackExact(site, run[k], actions[k].ok);
  }

  /** The window is real: the owner of the lock that was put back drops it just then, and the daemon takes the
      file's last name. */
  lemma ReleaseInTheWindow(site: Site, s: State)
    requires Wf(site, s) && s.pc.Differs? && site.lock !in s.fs.dir
    requires forall n :: n in s.fs.dir && s.fs.dir[n] == s.pc.moved ==> n == site.aside
    ensures var s1 := After(site, s, LinkBack(true));
            Wf(site, s1) && Enabled(site, s1, Release) &&
            var s2 := After(site, s1, Release);
            Wf(site, s2) && Enabled(site, s2, UnlinkBack(true))
            && !Named(After(site, s2, UnlinkBack(true)).fs, s.pc.moved)
  {
    var s1 := After(site, s, LinkBack(true));
    StepKeepsWf(site, s, LinkBack(true));
    var s2 := After(site, s1, Release);
    StepKeepsWf(site, s1, Release);
    assert forall n :: n in s2.fs.dir && s2.fs.dir[n] == s.pc.moved ==> n == site.aside;
    PutBackExact(site, s2, true);
  }

  // ---------------------------------------------------------------- where files end up

  /** A lock that turned out to be somebody's new one is back at its name or waits at the aside name, and the
      unlink that follows the link leaves it at its name, with the aside name gone if the unlink succeeds. */
  lemma DifferentLockIsPutBack(site: Site, s: State, ok: bool, dropped: bool)
    requires Wf(site, s) && s.pc.Differs?
    ensures var s' := After(site, s, LinkBack(ok));
            && site.aside in s'.fs.dir && s'.fs.dir[site.aside] == s.pc.moved
            && (s'.pc.Linked? <==> ok && site.lock !in s.fs.dir)
            && (s'.pc.Linked? ==> site.lock in s'.fs.dir && s'.fs.dir[site.lock] == s.pc.moved)
            && (forall n :: n in s.fs.dir ==> n in s'.fs.dir && s'.fs.dir[n] == s.fs.dir[n])
            && Wf(site, s') && (s'.pc.Linked? ==>
                 var s'' := After(site, s', UnlinkBack(dropped));
                 s''.pc == Done(LeftAlone)
                 && s''.fs.dir == (if dropped then s.fs.dir - {site.aside} else s.fs.dir)[site.lock := s.pc.moved])
  {
    StepKeepsWf(site, s, LinkBack(ok));
  }

  /** The file the daemon says it quarantined is where it says, byte counts and times as vetted. */
  predicate OutcomeHolds(site: Site, s: State, vetted: Stat) {
    s.pc.Done? && s.pc.outcome.Quarantined? ==>
      var at := s.pc.outcome.at;
      at in s.fs.dir && s.fs.dir[at] in s.fs.files && SameFile(s.fs.files[s.fs.dir[at]], vetted)
  }

  lemma RetiredLockIsKept(site: Site, s: State, a: Action)
    requires Wf(site, s) && s.pc.Same? && ByDaemon(a) && Enabled(site, s, a)
    ensures var s' := After(site, s, a);
            && OutcomeHolds(site, s', s.pc.vetted)
            && (s.pc.vetted.size > 0 ==> s'.pc.outcome.Quarantined? && Named(s'.fs, s.pc.moved))
            && (forall n :: n in s.fs.dir && n != site.aside ==> n in s'.fs.dir && s'.fs.dir[n] == s.fs.dir[n])
  {
    var fs' := After(site, s, a).fs;
    if s.pc.vetted.size > 0 {
      assert a.Quarantine?;
      var at := if a.ok then site.dest else site.aside;
      assert at in fs'.dir && fs'.dir[at] == s.pc.moved;
    }
  }

  // ---------------------------------------------------------------- the code, undisturbed

  /** Which file-system calls succeed where they could fail for reasons of their own. */
  datatype Luck = Luck(rename: bool, link: bool, unlink: bool, quarantine: bool)

  predicate Apart(site: Site, dir: map<Name, Obj>, files: map<Obj, Stat>) {
    && site.lock != site.aside && site.lock != site.dest && site.aside != site.dest
    && site.aside !in dir && site.dest !in dir && forall n :: n in dir ==> dir[n] in files
  }

  /** What retiring does to the directory when nobody interferes: a lock as vetted leaves its name, for nowhere
      if it is empty and for the quarantine if it is not; any other file is back where it was. */
  function Retired(site: Site, dir: map<Name, Obj>, files: map<Obj, Stat>, vetted: Stat, luck: Luck)
    : (map<Name, Obj>, Outcome)
    requires Apart(site, dir, files)
  {
    if !luck.rename || site.lock !in dir then (dir, LeftAlone)
    else
      var o := dir[site.lock];
      var off := dir - {site.lock};
      if !SameFile(files[o], vetted) then
        (if !luck.link then off[site.aside := o] else if luck.unlink then dir else dir[site.aside := o], LeftAlone)
      else if vetted.size == 0 then
        if luck.unlink then (off, Removed) else (off[site.aside := o], Quarantined(site.aside))
      else
        var at := if luck.quarantine then site.dest else site.aside;
        (off[at := o], Quarantined(at))
  }

  /** One lock found: where it is, what its holder check says, and which operations succeed. */
  datatype Job = Job(site: Site, free: bool, luck: Luck)

  /** What reaping does about it, alone. */
  function Reaped(job: Job, dir: map<Name, Obj>, files: map<Obj, Stat>): (map<Name, Obj>, Outcome)
    requires Apart(job.site, dir, files)
  {
    var lock := job.site.lock;
    if lock in dir && Eligible(job.site, files[dir[lock]]) && job.free
    then Retired(job.site, dir, files, files[dir[lock]], job.luck) else (dir, LeftAlone)
  }

  /** Alone, an orphan is retired and nothing else is: a lock that is no retirable file, or may have a holder, stays
      as it is; any other leaves its name, for nowhere if empty and for the quarantine if not. */
  lemma ReapedExactly(job: Job, dir: map<Name, Obj>, files: map<Obj, Stat>)
    requires Apart(job.site, dir, files)
    ensures var lock, o := job.site.lock, if job.site.lock in dir then dir[job.site.lock] else 0;
            var orphan := lock in dir && Retirable(job.site, files[o]) && job.free;
            var (dir', outcome) := Reaped(job, dir, files);
            && (!orphan || !job.luck.rename ==> dir' == dir && outcome == LeftAlone)
            && (orphan && job.luck.rename ==>
                  && (files[o].size == 0 && job.luck.unlink ==> dir' == dir - {lock} && outcome == Removed)
                  && (files[o].size > 0 && job.luck.quarantine ==>
                        dir' == (dir - {lock})[job.site.dest := o] && outcome == Quarantined(job.site.dest))
                  && ((if files[o].size == 0 then !job.luck.unlink else !job.luck.quarantine) ==>
                        dir' == (dir - {lock})[job.site.aside := o] && outcome == Quarantined(job.site.aside)))
  {
    var lock := job.site.lock;
    if lock in dir { EligibleIsRetirable(job.site, files[dir[lock]]); }
  }

  /** Moved aside, the lock is retired exactly if it is the file that was vetted, unchanged; any other is put back. */
  lemma RetiredIffUnchanged(site: Site, dir: map<Name, Obj>, files: map<Obj, Stat>, vetted: Stat, luck: Luck)
    requires Apart(site, dir, files) && site.lock in dir && luck.rename && luck.link && luck.unlink
    ensures var (dir', outcome) := Retired(site, dir, files, vetted, luck);
            if Unchanged(vetted, files[dir[site.lock]]) then site.lock !in dir' && outcome != LeftAlone
            else dir' == dir && outcome == LeftAlone
  {
  }

  function Names(site: Site): set<Name> { {site.lock, site.aside, site.dest} }

  predicate NoneShared(jobs: seq<Job>) {
    forall i, j :: 0 <= i < j < |jobs| ==> Names(jobs[i].site) !! Names(jobs[j].site)
  }

  predicate Outside(jobs: seq<Job>, n: Name) { forall j :: j in jobs ==> n !in Names(j.site) }

  predicate SameAt(a: map<Name, Obj>, b: map<Name, Obj>, n: Name) {
    (n in a <==> n in b) && (n in a ==> a[n] == b[n])
  }

  predicate AgreeOn(site: Site, a: map<Name, Obj>, b: map<Name, Obj>) {
    SameAt(a, b, site.lock) && SameAt(a, b, site.aside) && SameAt(a, b, site.dest)
  }

  lemma ReapedIsLocal(job: Job, a: map<Name, Obj>, b: map<Name, Obj>, files: map<Obj, Stat>)
    requires Apart(job.site, a, files) && Apart(job.site, b, files) && AgreeOn(job.site, a, b)
    ensures Reaped(job, a, files).1 == Reaped(job, b, files).1
    ensures AgreeOn(job.site, Reaped(job, a, files).0, Reaped(job, b, files).0)
  {
  }

  lemma ReapedStaysInside(job: Job, dir: map<Name, Obj>, files: map<Obj, Stat>)
    requires Apart(job.site, dir, files)
    ensures forall n :: n !in Names(job.site) ==> SameAt(Reaped(job, dir, files).0, dir, n)
    ensures forall n :: n in Reaped(job, dir, files).0 ==> Reaped(job, dir, files).0[n] in files
  {
  }

  class FileSystem {
    var dir: map<Name, Obj>
    var files: map<Obj, Stat>

    method Rename(from: Name, to: Name, works: bool) returns (ok: bool)
      modifies this`dir
      ensures ok <==> works && from in old(dir)
      ensures dir == if ok then (old(dir) - {from})[to := old(dir)[from]] else old(dir)
    {
      ok := works && from in dir;
      if ok { dir := (dir - {from})[to := dir[from]]; }
    }

    method Link(from: Name, to: Name, works: bool) returns (ok: bool)
      requires from in dir
      modifies this`dir
      ensures ok <==> works && to !in old(dir)
      ensures dir == if ok then old(dir)[to := old(dir)[from]] else old(dir)
    {
      ok := works && to !in dir;
      if ok { dir := dir[to := dir[from]]; }
    }

    method Unlink(name: Name, works: bool) returns (ok: bool)
      modifies this`dir
      ensures ok == works && dir == if ok then old(dir) - {name} else old(dir)
    {
      ok := works;
      if ok { dir := dir - {name}; }
    }

    method RetireLock(site: Site, vetted: Stat, luck: Luck) returns (outcome: Outcome)
      requires Apart(site, dir, files)
      modifies this`dir
      ensures (dir, outcome) == Retired(site, old(dir), files, vetted, luck)
    {
      var moved := Rename(site.lock, site.aside, luck.rename);
      if !moved { return LeftAlone; }
      ghost var o := dir[site.aside];
      if !SameFile(files[dir[site.aside]], vetted) {
        var linked := Link(site.aside, site.lock, luck.link);
        if linked {
          var _ := Unlink(site.aside, luck.unlink);
          assert luck.unlink ==> dir == old(dir);
          assert !luck.unlink ==> dir == old(dir)[site.aside := o];
        } else {
          assert dir == (old(dir) - {site.lock})[site.aside := o];
        }
        return LeftAlone;
      }
      if vetted.size == 0 {
        var unlinked := Unlink(site.aside, luck.unlink);
        assert unlinked ==> dir == old(dir) - {site.lock};
        return if unlinked then Removed else Quarantined(site.aside);
      }
      var shelved := Rename(site.aside, site.dest, luck.quarantine);
      assert shelved ==> dir == (old(dir) - {site.lock})[site.dest := o];
      return Quarantined(if shelved then site.dest else site.aside);
    }

    /** One lock of reapGitLocks: nothing moves unless it is an eligible file and its holder check is free. */
    method ReapLock(job: Job, ghost others: seq<Job>) returns (outcome: Outcome)
      requires Apart(job.site, dir, files)
      requires forall o :: o in others ==> Apart(o.site, dir, files) && Names(o.site) !! Names(job.site)
      modifies this`dir
      ensures (dir, outcome) == Reaped(job, old(dir), files)
      ensures forall n :: n !in Names(job.site) ==> SameAt(dir, old(dir), n)
      ensures forall o :: o in others ==> Apart(o.site, dir, files)
    {
      ReapedStaysInside(job, dir, files);
      var site := job.site;
      if site.lock !in dir { return LeftAlone; }
      var st := files[dir[site.lock]];
      if !Eligible(site, st) || !job.free { return LeftAlone; }
      outcome := RetireLock(site, st, job.luck);
    }

    /** reapGitLocks: every lock that was found is judged and retired on its own; what becomes of one does not
        depend on the others, and no other name is touched. */
    method ReapGitLocks(jobs: seq<Job>) returns (outcomes: seq<Outcome>)
      requires NoneShared(jobs) && forall k :: 0 <= k < |jobs| ==> Apart(jobs[k].site, dir, files)
      modifies this`dir
      ensures |outcomes| == |jobs|
      ensures forall k :: 0 <= k < |jobs| ==>
                outcomes[k] == Reaped(jobs[k], old(dir), files).1
                && AgreeOn(jobs[k].site, dir, Reaped(jobs[k], old(dir), files).0)
      ensures forall n :: Outside(jobs, n) ==> SameAt(dir, old(dir), n)
    {
      outcomes := [];
      hide Reaped, Apart;
      for i := 0 to |jobs|
        invariant |outcomes| == i
        invariant forall k :: i <= k < |jobs| ==>
                    Apart(jobs[k].site, dir, files) && AgreeOn(jobs[k].site, dir, old(dir))
        invariant forall k :: 0 <= k < i ==>
                    outcomes[k] == Reaped(jobs[k], old(dir), files).1
                    && AgreeOn(jobs[k].site, dir, Reaped(jobs[k], old(dir), files).0)
        invariant forall n :: Outside(jobs, n) ==> SameAt(dir, old(dir), n)
      {
        ReapedIsLocal(jobs[i], dir, old(dir), files);
        label Before:
        var outcome := ReapLock(jobs[i], jobs[i + 1..]);
        outcomes := outcomes + [outcome];
        forall k | 0 <= k < |jobs| && k != i ensures AgreeOn(jobs[k].site, dir, old@Before(dir)) {
          assert Names(jobs[k].site) !! Names(jobs[i].site);
        }
        assert forall n :: Outside(jobs, n) ==> n !in Names(jobs[i].site);
      }
    }
  }

  /** The daemon's own steps from the free verdict on. */
  function AloneFrom(site: Site, s: State, luck: Luck): State
    requires Wf(site, s) && s.pc.Free?
  {
    var s1 := After(site, s, MoveAside(luck.rename));
    StepKeepsWf(site, s, MoveAside(luck.rename));
    if s1.pc.Done? then s1
    else
      var s2 := After(site, s1, LstatAside);
      StepKeepsWf(site, s1, LstatAside);
      if s2.pc.Differs? then
        var s3 := After(site, s2, LinkBack(luck.link));
        StepKeepsWf(site, s2, LinkBack(luck.link));
        if s3.pc.Done? then s3 else After(site, s3, UnlinkBack(luck.unlink))
      else if s2.pc.vetted.size == 0 then After(site, s2, UnlinkEmpty(luck.unlink))
      else After(site, s2, Quarantine(luck.quarantine))
  }

  /** Taken without interruption, the steps of the machine are what RetireLock computes. */
  lemma StepsAloneRetire(site: Site, s: State, luck: Luck)
    requires Wf(site, s) && s.pc.Free?
    ensures Apart(site, s.fs.dir, s.fs.files)
    ensures var (dir, outcome) := Retired(site, s.fs.dir, s.fs.files, s.pc.vetted, luck);
            AloneFrom(site, s, luck) == State(Fs(dir, s.fs.files), Done(outcome))
  {
    var dir := s.fs.dir;
    if luck.rename && site.lock in dir {
      var o := dir[site.lock];
      var off := (dir - {site.lock})[site.aside := o];
      assert off[site.lock := o] - {site.aside} == dir;
      assert off[site.lock := o] == dir[site.aside := o];
      assert off - {site.aside} == dir - {site.lock};
      assert (off - {site.aside})[site.dest := o] == (dir - {site.lock})[site.dest := o];
    }
  }
}
