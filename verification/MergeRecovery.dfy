/** Whose merge is it? The daemon writes a marker naming the tip it is about to merge, and after a crash or a
    failure the next cycle aborts an open merge only if MERGE_HEAD names the same tip. The daemon can die at
    any step; people open and end merges of their own between cycles. */
module MergeRecovery {
  import opened Wrappers

  type Tip = string

  // ---------------------------------------------------------------- ownership

  datatype Ownership = NoMerge | Ours | Theirs

  function OwnershipOf(mergeHead: Option<Tip>, marker: Option<Tip>): Ownership {
    if mergeHead.None? then NoMerge
    else if marker == mergeHead then Ours
    else Theirs
  }

  /** The two files in the git directory that decide. Each call of git is given whether it leaves MERGE_HEAD
      gone. */
  class GitDir {
    var mergeHead: Option<Tip>
    var marker: Option<Tip>

    method MergeOwnership() returns (o: Ownership)
      modifies this`marker
      ensures o == OwnershipOf(mergeHead, old(marker))
      ensures marker == if o.NoMerge? then None else old(marker)
    {
      if mergeHead.None? {
        marker := None;
        return NoMerge;
      }
      return if marker.Some? && marker.value == mergeHead.value then Ours else Theirs;
    }

    /** Aborts the merge in progress if, and only if, it is the daemon's. */
    method AbortOwnMerge(clears: bool) returns (aborted: bool)
      modifies this
      ensures aborted <==> OwnershipOf(old(mergeHead), old(marker)).Ours?
      ensures mergeHead == if aborted && clears then None else old(mergeHead)
      ensures marker == if mergeHead.None? then None else old(marker)
    {
      var o := MergeOwnership();
      if o != Ours { return false; }
      if clears { mergeHead := None; }
      if mergeHead.None? { marker := None; }
      return true;
    }

    /** settleStrandedMerge: whether the cycle may go on to its auto-commit. It may exactly if no merge is
        open any more, and a merge that is not the daemon's is as it was. */
    method SettleStrandedMerge(clears: bool) returns (settled: bool)
      modifies this
      ensures settled <==> mergeHead.None?
      ensures mergeHead == if OwnershipOf(old(mergeHead), old(marker)).Ours? && clears then None else old(mergeHead)
      ensures marker == if settled then None else old(marker)
    {
      var state := MergeOwnership();
      if state == NoMerge { return true; }
      if state == Theirs { return false; }
      var _ := AbortOwnMerge(clears);
      var again := MergeOwnership();
      return again == NoMerge;
    }

    /** mergeTip, from the marker on: the merge as git leaves it, how a merge that did not go through is ended,
        and whether git's abort or commit then clears MERGE_HEAD. Called with no merge open, it leaves a merge
        open only under its own marker; called inside another merge, it takes that merge's marker away. */
    method MergeTip(tip: Tip, merge: Merge, end: End, clears: bool) returns (threw: bool)
      requires mergeHead.Some? ==> merge.NotStarted?
      modifies this
      ensures mergeHead == if merge.Committed? then old(mergeHead) else if !end.Throws? && clears then None
                           else if merge.Opened? then Some(tip) else old(mergeHead)
      ensures marker == if mergeHead.None? then None else Some(tip)
      ensures threw <==> !merge.Committed? && (end.RefusedByHook? || end.Throws? || (end.Resolved? && !clears))
    {
      marker := Some(tip);
      if merge.Opened? { mergeHead := Some(tip); }
      threw := false;
      if !merge.Committed? {
        match end {
          case Throws => threw := true;
          case RefusedByHook => if clears { mergeHead := None; } threw := true;
          case Deferred => if clears { mergeHead := None; }
          case Resolved => if clears { mergeHead := None; } threw := !clears;
        }
      }
      // the `finally`
      if mergeHead.None? { marker := None; }
    }
  }

  /** How a merge that did not go through is ended: aborted and thrown, aborted and deferred, resolved and
      committed, or thrown from a git step in between. */
  datatype End = RefusedByHook | Deferred | Resolved | Throws

  // ---------------------------------------------------------------- steps

  /** Where the daemon is between two file or git operations; Idle stands for between cycles and for dead. */
  datatype Pc =
    | Idle
    | Top                       // about to settle a stranded merge
    | SettleOwned               // found the open merge to be its own
    | SettleAborted
    | Ready                     // about to auto-commit
    | Between                   // between merges
    | MarkerWritten(tip: Tip)
    | Tried(tip: Tip, merged: bool)
    | Leaving(throwing: bool)
    | Failing                   // in the cycle's catch
    | FailOwned
    | FailAborted

  /** `byDaemon` is history: who opened the merge MERGE_HEAD stands for. */
  datatype State = State(mergeHead: Option<Tip>, marker: Option<Tip>, byDaemon: bool, pc: Pc)

  datatype Merge = Committed | Opened | NotStarted

  datatype Action =
    | PersonOpens(tip: Tip) | PersonEnds | Begin | Crash
    | Settle | SettleAbort(clears: bool) | SettleCheck
    | AutoCommit(ok: bool)
    | WriteMarker(tip: Tip) | RunMerge(merge: Merge)
    | MergeDone | AbortAndThrow(clears: bool) | Defer(clears: bool) | Resolve(ok: bool) | Throw
    | Leave
    | PostCommit(commits: bool) | Finish
    | FailCheck | FailAbort(clears: bool) | FailEnd

  predicate Enabled(s: State, a: Action) {
    match a
    case PersonOpens(_) => s.pc.Idle? && s.mergeHead.None?
    case PersonEnds => s.pc.Idle? && s.mergeHead.Some?
    case Begin => s.pc.Idle?
    case Crash => true
    case Settle => s.pc.Top?
    case SettleAbort(_) => s.pc.SettleOwned?
    case SettleCheck => s.pc.SettleAborted?
    case AutoCommit(_) => s.pc.Ready?
    case WriteMarker(_) => s.pc.Between?
    // git refuses to merge while a merge is open
    case RunMerge(merge) => s.pc.MarkerWritten? && (s.mergeHead.Some? ==> merge.NotStarted?)
    case MergeDone => s.pc.Tried? && s.pc.merged
    case AbortAndThrow(_) => s.pc.Tried? && !s.pc.merged
    case Defer(_) => s.pc.Tried? && !s.pc.merged
    case Resolve(_) => s.pc.Tried? && !s.pc.merged
    case Throw => s.pc.Tried? || s.pc.Between? || s.pc.MarkerWritten?
    case Leave => s.pc.Leaving?
    case PostCommit(_) => s.pc.Between?
    case Finish => s.pc.Between?
    case FailCheck => s.pc.Failing?
    case FailAbort(_) => s.pc.FailOwned?
    case FailEnd => s.pc.FailAborted?
  }

  function MarkerAfterCheck(s: State): Option<Tip> { if s.mergeHead.None? then None else s.marker }

  function HeadAfterAbort(s: State, clears: bool): Option<Tip> { if clears then None else s.mergeHead }

  function After(s: State, a: Action): State
    requires Enabled(s, a)
  {
    match a
    case PersonOpens(tip) => s.(mergeHead := Some(tip), byDaemon := false)
    case PersonEnds => s.(mergeHead := None)
    case Begin => s.(pc := Top)
    case Crash => s.(pc := Idle)
    case Settle =>
      s.(marker := MarkerAfterCheck(s),
         pc := match OwnershipOf(s.mergeHead, s.marker)
               case NoMerge => Ready
               case Ours => SettleOwned
               case Theirs => Failing)
    case SettleAbort(clears) => s.(mergeHead := HeadAfterAbort(s, clears), pc := SettleAborted)
    case SettleCheck => s.(marker := MarkerAfterCheck(s), pc := if s.mergeHead.None? then Ready else Failing)
    case AutoCommit(ok) => s.(pc := if ok then Between else Failing)
    case WriteMarker(tip) => s.(marker := Some(tip), pc := MarkerWritten(tip))
    case RunMerge(merge) =>
      if merge.Opened? then s.(mergeHead := Some(s.pc.tip), byDaemon := true, pc := Tried(s.pc.tip, false))
      else s.(pc := Tried(s.pc.tip, merge.Committed?))
    case MergeDone => s.(pc := Leaving(false))
    case AbortAndThrow(clears) => s.(mergeHead := HeadAfterAbort(s, clears), pc := Leaving(true))
    case Defer(clears) => s.(mergeHead := HeadAfterAbort(s, clears), pc := Leaving(false))
    case Resolve(ok) => s.(mergeHead := if ok then None else s.mergeHead, pc := Leaving(!ok))
    case Throw => s.(pc := if s.pc.Between? then Failing else Leaving(true))
    case Leave => s.(marker := MarkerAfterCheck(s), pc := if s.pc.throwing then Failing else Between)
    // a commit while a merge is open concludes that merge with whatever is staged
    case PostCommit(commits) => if commits then s.(mergeHead := None) else s
    case Finish => s.(pc := Idle)
    case FailCheck =>
      s.(marker := MarkerAfterCheck(s), pc := if OwnershipOf(s.mergeHead, s.marker).Ours? then FailOwned else Idle)
    case FailAbort(clears) => s.(mergeHead := HeadAfterAbort(s, clears), pc := FailAborted)
    case FailEnd => s.(marker := MarkerAfterCheck(s), pc := Idle)
  }

  ghost predicate IsRun(run: seq<State>, actions: seq<Action>) {
    && |run| == |actions| + 1
    && forall i :: 0 <= i < |actions| ==> Enabled(run[i], actions[i]) && run[i + 1] == After(run[i], actions[i])
  }

  /** A repository no daemon has run in. */
  predicate Fresh(s: State) { s.marker.None? && s.pc.Idle? && !s.byDaemon }

  /** Settling without interruption, step by step, is what SettleStrandedMerge computes. */
  lemma SettleInSteps(s: State, clears: bool)
    requires s.pc.Top?
    ensures var s1 := After(s, Settle);
            var s2 := if s1.pc.SettleOwned? then After(After(s1, SettleAbort(clears)), SettleCheck) else s1;
            && (s2.pc.Ready? <==> s2.mergeHead.None?) && (s2.pc.Ready? || s2.pc.Failing?)
            && s2.mergeHead == (if OwnershipOf(s.mergeHead, s.marker).Ours? && clears then None else s.mergeHead)
            && s2.marker == (if s2.mergeHead.None? then None else s.marker)
  {
  }

  /** How the step machine ends a merge attempt. */
  function EndAction(merge: Merge, end: End, clears: bool): Action {
    if merge.Committed? then MergeDone
    else
      match end
      case RefusedByHook => AbortAndThrow(clears)
      case Deferred => Defer(clears)
      case Resolved => Resolve(clears)
      case Throws => Throw
  }

  /** A merge attempt without interruption, step by step, is what MergeTip computes. */
  lemma MergeInSteps(s: State, tip: Tip, merge: Merge, end: End, clears: bool)
    requires s.pc.Between? && (s.mergeHead.Some? ==> merge.NotStarted?)
    ensures var s1 := After(After(s, WriteMarker(tip)), RunMerge(merge));
            Enabled(s1, EndAction(merge, end, clears)) &&
            var s2 := After(s1, EndAction(merge, end, clears));
            Enabled(s2, Leave) &&
            var s3 := After(s2, Leave);
            && s3.mergeHead == (if merge.Committed? then s.mergeHead else if !end.Throws? && clears then None
                                else if merge.Opened? then Some(tip) else s.mergeHead)
            && s3.marker == (if s3.mergeHead.None? then None else Some(tip))
            && (s3.pc.Failing? <==>
                  !merge.Committed? && (end.RefusedByHook? || end.Throws? || (end.Resolved? && !clears)))
  {
  }

  // ---------------------------------------------------------------- the auto-commit

  lemma ReadyStep(s: State, a: Action)
    requires Enabled(s, a) && (s.pc.Ready? ==> s.mergeHead.None?)
    ensures After(s, a).pc.Ready? ==> After(s, a).mergeHead.None?
  {
  }

  /** Wherever the daemon dies, whatever people do between cycles and whatever git's aborts leave behind, the
      auto-commit at the top of a cycle never starts while a merge is open. */
  lemma {:induction false} AutoCommitIsSafe(run: seq<State>, actions: seq<Action>, i: nat)
    requires IsRun(run, actions) && Fresh(run[0]) && i < |run|
    ensures run[i].pc.Ready? ==> run[i].mergeHead.None?
  {
    if i > 0 {
      AutoCommitIsSafe(run, actions, i - 1);
      ReadyStep(run[i - 1], actions[i - 1]);
    }
  }

  // ---------------------------------------------------------------- aborts

  predicate IsAbort(a: Action) { a.SettleAbort? || a.AbortAndThrow? || a.Defer? || a.FailAbort? }

  /** A merge the daemon opened is named by the marker, and no merge is open inside a cycle but its own. */
  predicate Inv(s: State) {
    && (s.mergeHead.Some? && s.byDaemon ==> s.marker == s.mergeHead)
    && match s.pc
       case Ready => s.mergeHead.None?
       case Between => s.mergeHead.Some? ==> s.byDaemon
       case MarkerWritten(tip) => s.marker == Some(tip) && (s.mergeHead.Some? ==> s.byDaemon)
       case Tried(tip, merged) => s.marker == Some(tip) && (s.mergeHead.Some? ==> !merged && s.byDaemon)
       case Leaving(throwing) => s.mergeHead.Some? ==> s.byDaemon
       case SettleOwned => s.mergeHead.Some? && s.mergeHead == s.marker
       case FailOwned => s.mergeHead.Some? && s.mergeHead == s.marker
       case _ => true
  }

  /** The marker of an open merge is not written over with another tip. */
  predicate KeepsMarker(s: State, a: Action) {
    a.WriteMarker? ==> s.mergeHead.None? || s.mergeHead == Some(a.tip)
  }

  ghost predicate MarkersKept(run: seq<State>, actions: seq<Action>)
    requires IsRun(run, actions)
  {
    forall i :: 0 <= i < |actions| ==> KeepsMarker(run[i], actions[i])
  }

  lemma StepKeepsInv(s: State, a: Action)
    requires Inv(s) && Enabled(s, a) && KeepsMarker(s, a)
    ensures Inv(After(s, a))
  {
  }

  lemma {:induction false} RunKeepsInv(run: seq<State>, actions: seq<Action>, i: nat)
    requires IsRun(run, actions) && Fresh(run[0]) && MarkersKept(run, actions) && i < |run|
    ensures Inv(run[i])
  {
    if i > 0 {
      RunKeepsInv(run, actions, i - 1);
      StepKeepsInv(run[i - 1], actions[i - 1]);
    }
  }

  /** In every run in which no marker is written over that of another open merge: the daemon aborts only a merge
      whose MERGE_HEAD equals the marker, and a merge it left open is recognised as its own by the next cycle. */
  lemma CrashSafe(run: seq<State>, actions: seq<Action>, i: nat)
    requires IsRun(run, actions) && Fresh(run[0]) && MarkersKept(run, actions) && i < |actions|
    ensures IsAbort(actions[i]) && run[i].mergeHead.Some? ==> run[i].mergeHead == run[i].marker
    ensures actions[i].Settle? && run[i].mergeHead.Some? && run[i].byDaemon ==> run[i + 1].pc.SettleOwned?
  {
    RunKeepsInv(run, actions, i);
  }

  /** The condition is exact, in every state: between merges with one open, writing the next marker leaves the
      open merge recognised after a crash exactly if it names the same tip. */
  lemma OverwrittenMarkerIsLost(s: State, tip: Tip)
    requires s.pc.Between? && s.mergeHead.Some?
    ensures var s' := After(After(After(After(s, WriteMarker(tip)), Crash), Begin), Settle);
            s'.pc.SettleOwned? <==> s.mergeHead == Some(tip)
  {
  }

  /** Were the daemon to die here, the next cycle would recognise the merge it left open, if any. */
  predicate Recoverable(s: State) {
    s.mergeHead.Some? && s.byDaemon ==>
      After(After(After(s, Crash), Begin), Settle).pc.SettleOwned?
  }

  lemma {:induction false} RecoverableKeepsInv(run: seq<State>, actions: seq<Action>, n: nat)
    requires IsRun(run, actions) && Fresh(run[0]) && n < |run|
    requires forall i :: 0 <= i <= n ==> Recoverable(run[i])
    ensures Inv(run[n]) && forall i :: 0 <= i < n ==> KeepsMarker(run[i], actions[i])
  {
    if n > 0 {
      RecoverableKeepsInv(run, actions, n - 1);
      assert Recoverable(run[n]);
      assert KeepsMarker(run[n - 1], actions[n - 1]);
      StepKeepsInv(run[n - 1], actions[n - 1]);
    }
  }

  /** So of every run: the daemon may die anywhere and still recognise its own merge exactly if no marker was
      written over that of another open merge. */
  lemma RecoverableExactly(run: seq<State>, actions: seq<Action>)
    requires IsRun(run, actions) && Fresh(run[0])
    ensures (forall i :: 0 <= i < |run| ==> Recoverable(run[i])) <==> MarkersKept(run, actions)
  {
    if MarkersKept(run, actions) {
      forall i | 0 <= i < |run| ensures Recoverable(run[i]) { RunKeepsInv(run, actions, i); }
    } else if forall i :: 0 <= i < |run| ==> Recoverable(run[i]) {
      RecoverableKeepsInv(run, actions, |actions|);
    }
  }

  /** And so is an abort: the merge of the tip just marked, refused because another is open, ends in an abort
      under a marker that is not the open merge's exactly if the tips differ. */
  lemma OverwrittenMarkerMisaborts(s: State, tip: Tip)
    requires s.pc.Between? && s.mergeHead.Some?
    ensures var s' := After(After(s, WriteMarker(tip)), RunMerge(NotStarted));
            Enabled(s', Defer(true)) && (s'.mergeHead != s'.marker <==> s.mergeHead != Some(tip))
  {
  }

  /** An abort on the way to deferring a merge; its result is ignored, and the next peer's merge follows. */
  predicate DeferralsClear(actions: seq<Action>) {
    forall i :: 0 <= i < |actions| ==> (actions[i].Defer? ==> actions[i].clears)
  }

  /** No merge is open where the next one starts. */
  predicate Clear(s: State) {
    match s.pc
    case Ready => s.mergeHead.None?
    case Between => s.mergeHead.None?
    case MarkerWritten(_) => s.mergeHead.None?
    case Tried(_, merged) => merged ==> s.mergeHead.None?
    case Leaving(throwing) => !throwing ==> s.mergeHead.None?
    case _ => true
  }

  lemma StepKeepsClear(s: State, a: Action)
    requires Clear(s) && Enabled(s, a) && (a.Defer? ==> a.clears)
    ensures Clear(After(s, a)) && KeepsMarker(s, a)
  {
  }

  lemma {:induction false} RunKeepsClear(run: seq<State>, actions: seq<Action>, i: nat)
    requires IsRun(run, actions) && Fresh(run[0]) && DeferralsClear(actions) && i < |run|
    ensures Clear(run[i])
  {
    if i > 0 {
      RunKeepsClear(run, actions, i - 1);
      StepKeepsClear(run[i - 1], actions[i - 1]);
    }
  }

  /** If git's abort clears MERGE_HEAD whenever a merge is deferred, no marker is ever written over another's,
      so everything above holds; and the regenerators' commit never starts inside a merge either. */
  lemma ClearingDeferralsSuffice(run: seq<State>, actions: seq<Action>)
    requires IsRun(run, actions) && Fresh(run[0]) && DeferralsClear(actions)
    ensures MarkersKept(run, actions)
    ensures forall i :: 0 <= i < |actions| && actions[i].PostCommit? ==> run[i].mergeHead.None?
  {
    forall i | 0 <= i < |actions|
      ensures KeepsMarker(run[i], actions[i]) && (actions[i].PostCommit? ==> run[i].mergeHead.None?)
    {
      RunKeepsClear(run, actions, i);
      StepKeepsClear(run[i], actions[i]);
    }
  }

  /** In every state a deferral can be made in: the regenerators' commit that may come next starts inside the
      deferred merge, and concludes it with its conflict markers staged, exactly if the abort left it open. */
  lemma DeferralExact(s: State, clears: bool)
    requires Enabled(s, Defer(clears)) && s.mergeHead.Some?
    ensures var s1 := After(After(s, Defer(clears)), Leave);
            && Enabled(s1, PostCommit(true))
            && (s1.mergeHead == s.mergeHead <==> !clears)
            && After(s1, PostCommit(true)).mergeHead.None?
  {
  }

  /** The failure, step by step: a peer's merge is deferred but its abort fails, the next peer's merge overwrites
      the marker, and the daemon then aborts with MERGE_HEAD and marker apart; if that abort fails too, the next
      cycle takes the daemon's own merge for a person's. */
  lemma FailedDeferralLosesTheMarker(a: Tip, b: Tip)
    requires a != b
    ensures var s := State(Some(a), Some(a), true, Tried(a, false));
            var s1 := After(s, Defer(false));
            var s2 := After(s1, Leave);
            var s3 := After(s2, WriteMarker(b));
            var s4 := After(s3, RunMerge(NotStarted));
            && Inv(s) && Enabled(s4, Defer(false)) && s4.mergeHead != s4.marker
            && OwnershipOf(After(s4, Defer(false)).mergeHead, After(s4, Defer(false)).marker).Theirs?
  {
  }

  // ---------------------------------------------------------------- other people's merges

  /** A person's open merge is never the one the marker names, and a cycle that meets it gets no further. */
  predicate Untouched(s: State) {
    && (s.mergeHead.Some? && !s.byDaemon ==> s.mergeHead != s.marker && (s.pc.Idle? || s.pc.Top? || s.pc.Failing?))
    && ((s.pc.SettleOwned? || s.pc.FailOwned?) && s.mergeHead.Some? ==> s.byDaemon)
  }

  /** People do not open a merge of the very tip a leftover marker names. */
  ghost predicate NobodyMergesTheMarkedTip(run: seq<State>, actions: seq<Action>)
    requires IsRun(run, actions)
  {
    forall i :: 0 <= i < |actions| ==> (actions[i].PersonOpens? ==> run[i].marker != Some(actions[i].tip))
  }

  lemma StepKeepsUntouched(s: State, a: Action)
    requires Untouched(s) && Enabled(s, a) && (a.PersonOpens? ==> s.marker != Some(a.tip))
    ensures Untouched(After(s, a))
  {
  }

  lemma {:induction false} RunKeepsUntouched(run: seq<State>, actions: seq<Action>, i: nat)
    requires IsRun(run, actions) && Fresh(run[0]) && NobodyMergesTheMarkedTip(run, actions) && i < |run|
    ensures Untouched(run[i])
  {
    if i > 0 {
      RunKeepsUntouched(run, actions, i - 1);
      StepKeepsUntouched(run[i - 1], actions[i - 1]);
    }
  }

  /** Then a person's merge is never aborted, whatever git's aborts leave behind: every merge the daemon aborts
      is one it opened. */
  lemma PeoplesMergesSurvive(run: seq<State>, actions: seq<Action>, i: nat)
    requires IsRun(run, actions) && Fresh(run[0]) && NobodyMergesTheMarkedTip(run, actions) && i < |actions|
    ensures IsAbort(actions[i]) && run[i].mergeHead.Some? ==> run[i].byDaemon
  {
    RunKeepsUntouched(run, actions, i);
  }

  /** Exact, in every idle state: the cycle after a person opens a merge takes it for its own, to abort it,
      exactly if a leftover marker names the tip. */
  lemma LeftoverMarkerClaimsAPersonsMerge(s: State, t: Tip)
    requires s.pc.Idle? && s.mergeHead.None?
    ensures var s' := After(After(After(s, PersonOpens(t)), Begin), Settle);
            && !s'.byDaemon && s'.mergeHead == Some(t)
            && (s'.pc.SettleOwned? <==> s.marker == Some(t))
            && (Enabled(s', SettleAbort(true)) <==> s.marker == Some(t))
  {
  }

  /** Were the daemon to die here, the next cycle would leave a person's open merge alone. */
  predicate Spared(s: State) {
    s.mergeHead.Some? && !s.byDaemon ==>
      !After(After(After(s, Crash), Begin), Settle).pc.SettleOwned?
  }

  lemma {:induction false} SparedKeepsUntouched(run: seq<State>, actions: seq<Action>, n: nat)
    requires IsRun(run, actions) && Fresh(run[0]) && n < |run|
    requires forall i :: 0 <= i <= n ==> Spared(run[i])
    ensures Untouched(run[n])
    ensures forall i :: 0 <= i < n ==> (actions[i].PersonOpens? ==> run[i].marker != Some(actions[i].tip))
  {
    if n > 0 {
      SparedKeepsUntouched(run, actions, n - 1);
      assert Spared(run[n]);
      assert actions[n - 1].PersonOpens? ==> run[n - 1].marker != Some(actions[n - 1].tip);
      StepKeepsUntouched(run[n - 1], actions[n - 1]);
    }
  }

  /** The same of every run: wherever the daemon dies, the next cycle leaves a person's merge alone, exactly if
      nobody ever opened a merge of the very tip in the marker. */
  lemma SparedExactly(run: seq<State>, actions: seq<Action>)
    requires IsRun(run, actions) && Fresh(run[0])
    ensures (forall i :: 0 <= i < |run| ==> Spared(run[i])) <==> NobodyMergesTheMarkedTip(run, actions)
  {
    if NobodyMergesTheMarkedTip(run, actions) {
      forall i | 0 <= i < |run| ensures Spared(run[i]) { RunKeepsUntouched(run, actions, i); }
    } else if forall i :: 0 <= i < |run| ==> Spared(run[i]) {
      SparedKeepsUntouched(run, actions, |actions|);
    }
  }

  /** Such a marker is left by dying between writing it and starting the merge, from any state between merges. */
  lemma CrashLeavesTheMarker(s: State, t: Tip)
    requires s.pc.Between? && s.mergeHead.None?
    ensures var s' := After(After(s, WriteMarker(t)), Crash);
            s'.pc.Idle? && s'.mergeHead.None? && s'.marker == Some(t)
  {
  }
}
