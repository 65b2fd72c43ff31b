/** Appending to the local log. Several short-lived processes share a counter file, a log file and a lock
    file; any of them may die between any two steps. */
module AuditAppend {
  import opened Wrappers
  import opened AuditEntries
  import opened AuditGaps
  import opened AuditChain

  // ---------------------------------------------------------------- one append, lock held

  /** The seq minted from the counter file and the process's own floor. */
  function NextSeq(counter: nat, floor: nat): nat { (if counter > floor then counter else floor) + 1 }

  ghost predicate TopBelow(log: seq<Entry>, counter: nat) {
    forall i :: 0 <= i < |log| ==> log[i].seqNo <= counter
  }

  /** What the signing collaborator makes of an unsigned entry: the remaining fields, or a failure. */
  datatype Body = Body(payload: string, sigB64: string)

  function NewEntry(machine: string, seqNo: nat, prev: string, body: Body): Entry {
    Entry(machine, seqNo, Some(prev), body.payload, body.sigB64)
  }

  /** The state directory every process of the machine shares. */
  class StateDir {
    var counter: nat
    var log: seq<Entry>

    ghost predicate Valid(c: Codec, machine: string, pre: nat)
      reads this
    {
      AppendedLog(c, machine, log, pre) && TopBelow(log, counter)
    }
  }

  /** One process's handle on the log. Its methods run while that process holds the lock. */
  class AuditLog {
    const machine: string
    const dir: StateDir
    var seqValue: nat

    constructor (machine: string, dir: StateDir)
      ensures this.machine == machine && this.dir == dir && seqValue == 0
    {
      this.machine, this.dir, seqValue := machine, dir, 0;
    }

    method NextSeqLocked() returns (next: nat)
      modifies this`seqValue, dir`counter
      ensures next == (if old(seqValue) <= old(dir.counter) then old(dir.counter) else old(seqValue)) + 1
      ensures dir.counter == next && seqValue == next
    {
      next := (if dir.counter > seqValue then dir.counter else seqValue) + 1;
      dir.counter := next;
      seqValue := next;
    }

    /** The link of the next entry: the digest of the last entry by seq, the later of two under one seq, or
        the genesis marker. Encoding that entry may fail. */
    method PrevDigestLocked(c: Codec) returns (prev: Result<string, ()>)
      ensures dir.log == [] ==> prev == Ok(GENESIS_PREV)
      ensures forall k: nat :: IsLast(dir.log, k) ==>
                prev == if Encodable(c, dir.log[k]) then Ok(Digest(c, dir.log[k])) else Err(())
      ensures dir.log != [] ==> exists k: nat :: IsLast(dir.log, k)
    {
      var last: Option<Entry> := None;
      ghost var at := 0;
      for i := 0 to |dir.log|
        invariant i > 0 ==> at < i && IsLast(dir.log[..i], at)
        invariant last == if i == 0 then None else Some(dir.log[at])
      {
        var e := dir.log[i];
        if last.None? || e.seqNo >= last.value.seqNo {
          last := Some(e);
          at := i;
        }
      }
      assert dir.log[..|dir.log|] == dir.log;
      if last.None? { return Ok(GENESIS_PREV); }
      assert IsLast(dir.log, at);
      forall k: nat | IsLast(dir.log, k) ensures k == at { OneLast(dir.log, k, at); }
      prev := if Encodable(c, last.value) then Ok(Digest(c, last.value)) else Err(());
    }

    /** append: mint, link, sign and append, whatever the files hold. If linking or signing throws, the seq is
        spent and the log is as it was. Otherwise the log grows by the one entry, and if it was a chain under its
        counter it still is. */
    method AppendLocked(c: Codec, body: Body, ghost pre: nat) returns (r: Result<Entry, ()>)
      modifies this`seqValue, dir
      ensures dir.counter == seqValue
      ensures seqValue == (if old(seqValue) <= old(dir.counter) then old(dir.counter) else old(seqValue)) + 1
      ensures r.Err? ==> dir.log == old(dir.log)
      ensures r.Ok? ==> dir.log == old(dir.log) + [r.value] && Encodable(c, r.value)
      ensures r.Ok? ==> r.value.prev.Some? && r.value == NewEntry(machine, seqValue, r.value.prev.value, body)
      ensures forall k: nat :: IsLast(old(dir.log), k) ==>
                (r.Ok? <==> Encodable(c, old(dir.log)[k])
                            && Encodable(c, NewEntry(machine, seqValue, Digest(c, old(dir.log)[k]), body)))
                && (r.Ok? ==> r.value.prev.value == Digest(c, old(dir.log)[k]))
      ensures old(dir.Valid(c, machine, pre)) ==> dir.Valid(c, machine, pre)
      ensures old(dir.Valid(c, machine, pre)) ==>
                var e := NewEntry(machine, seqValue, LinkTo(c, old(dir.log)), body);
                r == if Encodable(c, e) then Ok(e) else Err(())
    {
      ghost var valid := dir.Valid(c, machine, pre);
      var next := NextSeqLocked();
      var prev := PrevDigestLocked(c);
      if valid && dir.log != [] { AppendedEndsLast(c, machine, dir.log, pre); }
      if prev.Err? { return Err(()); }
      var entry := NewEntry(machine, next, prev.value, body);
      if !Encodable(c, entry) { return Err(()); }
      if valid { ChainExtends(c, machine, dir.log, pre, entry); }
      dir.log := dir.log + [entry];
      r := Ok(entry);
    }
  }

  /** `k` is the place of the entry with the highest seq, the last of them if several share it. */
  predicate IsLast(log: seq<Entry>, k: nat) {
    k < |log| && forall i :: 0 <= i < |log| ==> log[i].seqNo <= log[k].seqNo && (i > k ==> log[i].seqNo < log[k].seqNo)
  }

  lemma OneLast(log: seq<Entry>, j: nat, k: nat)
    requires IsLast(log, j) && IsLast(log, k)
    ensures j == k
  {
    assert log[j].seqNo <= log[k].seqNo && log[k].seqNo <= log[j].seqNo;
  }

  lemma AppendedEndsLast(c: Codec, machine: string, log: seq<Entry>, pre: nat)
    requires AppendedLog(c, machine, log, pre) && log != []
    ensures IsLast(log, |log| - 1) && Encodable(c, log[|log| - 1]) && LinkTo(c, log) == Digest(c, log[|log| - 1])
  {
  }

  lemma ChainExtends(c: Codec, machine: string, log: seq<Entry>, pre: nat, e: Entry)
    requires AppendedLog(c, machine, log, pre)
    requires e.machine == machine && Encodable(c, e) && e.seqNo >= 1
    requires e.prev == Some(LinkTo(c, log)) && forall i :: 0 <= i < |log| ==> log[i].seqNo < e.seqNo
    ensures AppendedLog(c, machine, log + [e], pre)
  {
    var more := log + [e];
    assert more[..|log|] == log;
    forall i | pre <= i < |more| ensures more[i].prev == Some(LinkTo(c, more[..i])) {
      if i < |log| { assert more[..i] == log[..i]; }
    }
  }

  // ---------------------------------------------------------------- processes and steps

  /** Where a process stands in append. Each constructor is one point at which another process may run
      or this one may die. */
  datatype Pc =
    | Idle
    | Locked
    | ReadCounter(next: nat)
    | Minted(next: nat)
    | Linked(next: nat, prev: string)
    | Signed(entry: Entry)
    | ReadLog(entry: Entry, existing: seq<Entry>)
    | Releasing
    | Dead

  datatype Process = Process(pc: Pc, floor: nat)

  /** The lock file: absent, or created by some process. */
  datatype LockFile = Free | Held(owner: nat)

  datatype World = World(lock: LockFile, counter: nat, log: seq<Entry>, procs: map<nat, Process>)

  predicate Critical(pc: Pc) { !pc.Idle? && !pc.Dead? }

  datatype Action =
    | Start | Acquire | BreakStale | DoReadCounter | DoWriteCounter | DoReadLink | DoSign(body: Body)
    | DoReadLog | DoWriteLog | Throw | Release | Crash

  /** When a process standing at `pc` may take the action. A stale break is one step, and finds the
      holder dead: no live holder outlasts the stale limit. */
  predicate CanTake(c: Codec, machine: string, w: World, pc: Pc, a: Action) {
    match a
    case Start => false
    case Acquire => pc.Idle? && w.lock.Free?
    case BreakStale => pc.Idle? && HolderDead(w)
    case DoReadCounter => pc.Locked?
    case DoWriteCounter => pc.ReadCounter?
    case DoReadLink => pc.Minted?
    case DoSign(body) => pc.Linked? && Encodable(c, NewEntry(machine, pc.next, pc.prev, body))
    case DoReadLog => pc.Signed?
    case DoWriteLog => pc.ReadLog?
    case Throw => Critical(pc)
    case Release => pc.Releasing?
    case Crash => !pc.Dead?
  }

  predicate HolderDead(w: World) {
    match w.lock
    case Free => false
    case Held(owner) => owner in w.procs && w.procs[owner].pc.Dead?
  }

  predicate Enabled(c: Codec, machine: string, w: World, p: nat, a: Action) {
    if a.Start? then p !in w.procs else p in w.procs && CanTake(c, machine, w, w.procs[p].pc, a)
  }

  function Moved(w: World, p: nat, pc: Pc): World
    requires p in w.procs
  {
    w.(procs := w.procs[p := w.procs[p].(pc := pc)])
  }

  function Step(c: Codec, machine: string, w: World, p: nat, a: Action): World
    requires Enabled(c, machine, w, p, a)
  {
    match a
    case Start => w.(procs := w.procs[p := Process(Idle, 0)])
    case Acquire => Moved(w, p, Locked).(lock := Held(p))
    case BreakStale => w.(lock := Free)
    case DoReadCounter => Moved(w, p, ReadCounter(NextSeq(w.counter, w.procs[p].floor)))
    case DoWriteCounter =>
      var next := w.procs[p].pc.next;
      w.(counter := next, procs := w.procs[p := Process(Minted(next), next)])
    case DoReadLink => Moved(w, p, Linked(w.procs[p].pc.next, LinkTo(c, w.log)))
    case DoSign(body) => Moved(w, p, Signed(NewEntry(machine, w.procs[p].pc.next, w.procs[p].pc.prev, body)))
    case DoReadLog => Moved(w, p, ReadLog(w.procs[p].pc.entry, w.log))
    case DoWriteLog => Moved(w, p, Releasing).(log := w.procs[p].pc.existing + [w.procs[p].pc.entry])
    case Throw => Moved(w, p, Releasing)
    case Release => Moved(w, p, Idle).(lock := Free)
    case Crash => Moved(w, p, Dead)
  }

  /** One enabled step. */
  ghost predicate Goes(c: Codec, machine: string, w: World, p: nat, a: Action, w': World) {
    Enabled(c, machine, w, p, a) && w' == Step(c, machine, w, p, a)
  }

  predicate At(w: World, p: nat, pc: Pc, floor: nat) { p in w.procs && w.procs[p] == Process(pc, floor) }

  lemma MintInSteps(c: Codec, machine: string, w: World, p: nat, w1: World, w2: World, w3: World)
    requires p in w.procs && w.procs[p].pc.Idle? && Goes(c, machine, w, p, Acquire, w1)
    requires Goes(c, machine, w1, p, DoReadCounter, w2) && Goes(c, machine, w2, p, DoWriteCounter, w3)
    ensures var next := NextSeq(w.counter, w.procs[p].floor);
            At(w3, p, Minted(next), next) && w3.counter == next && w3.log == w.log
  {
  }

  lemma SignInSteps(c: Codec, machine: string, w: World, p: nat, next: nat, body: Body, w1: World, w2: World)
    requires At(w, p, Minted(next), next)
    requires Goes(c, machine, w, p, DoReadLink, w1) && Goes(c, machine, w1, p, DoSign(body), w2)
    ensures At(w2, p, Signed(NewEntry(machine, next, LinkTo(c, w.log), body)), next)
    ensures w2.counter == w.counter && w2.log == w.log
  {
    hide LinkTo, Encodable;
  }

  lemma WriteInSteps(c: Codec, machine: string, w: World, p: nat, e: Entry, floor: nat, w1: World, w2: World, w3: World)
    requires At(w, p, Signed(e), floor) && Goes(c, machine, w, p, DoReadLog, w1)
    requires Goes(c, machine, w1, p, DoWriteLog, w2) && Goes(c, machine, w2, p, Release, w3)
    ensures At(w3, p, Idle, floor) && w3.lock == Free && w3.counter == w.counter && w3.log == w.log + [e]
  {
  }

  /** Undisturbed, the steps of one append do what AppendLocked does. */
  lemma AppendInSteps(c: Codec, machine: string, p: nat, body: Body, run: seq<World>)
    requires |run| == 9 && p in run[0].procs && run[0].procs[p].pc.Idle?
    requires Goes(c, machine, run[0], p, Acquire, run[1]) && Goes(c, machine, run[1], p, DoReadCounter, run[2])
    requires Goes(c, machine, run[2], p, DoWriteCounter, run[3]) && Goes(c, machine, run[3], p, DoReadLink, run[4])
    requires Goes(c, machine, run[4], p, DoSign(body), run[5]) && Goes(c, machine, run[5], p, DoReadLog, run[6])
    requires Goes(c, machine, run[6], p, DoWriteLog, run[7]) && Goes(c, machine, run[7], p, Release, run[8])
    ensures var next := NextSeq(run[0].counter, run[0].procs[p].floor);
            && run[8].log == run[0].log + [NewEntry(machine, next, LinkTo(c, run[0].log), body)]
            && run[8].counter == next && At(run[8], p, Idle, next) && run[8].lock == Free
  {
    hide Goes, NewEntry, LinkTo, NextSeq;
    var next := NextSeq(run[0].counter, run[0].procs[p].floor);
    MintInSteps(c, machine, run[0], p, run[1], run[2], run[3]);
    SignInSteps(c, machine, run[3], p, next, body, run[4], run[5]);
    var entry := NewEntry(machine, next, LinkTo(c, run[3].log), body);
    WriteInSteps(c, machine, run[5], p, entry, next, run[6], run[7], run[8]);
  }

  // ---------------------------------------------------------------- what every run keeps

  /** The lock admits one process at a time to the files. */
  ghost predicate OneInside(w: World) {
    forall p :: p in w.procs && Critical(w.procs[p].pc) ==> w.lock == Held(p)
  }

  /** What the process inside knows at each of its steps. */
  ghost predicate Knows(c: Codec, machine: string, w: World, pc: Pc) {
    match pc
    case ReadCounter(next) => next == w.counter + 1
    case Minted(next) => next == w.counter && AllBelow(w.log, next)
    case Linked(next, prev) => next == w.counter && AllBelow(w.log, next) && prev == LinkTo(c, w.log)
    case Signed(e) => Fits(c, machine, w, e)
    case ReadLog(e, existing) => Fits(c, machine, w, e) && existing == w.log
    case _ => true
  }

  ghost predicate AllBelow(log: seq<Entry>, n: nat) { n >= 1 && forall i :: 0 <= i < |log| ==> log[i].seqNo < n }

  ghost predicate Fits(c: Codec, machine: string, w: World, e: Entry) {
    && e.machine == machine && e.seqNo == w.counter && AllBelow(w.log, e.seqNo)
    && e.prev == Some(LinkTo(c, w.log)) && Encodable(c, e)
  }

  ghost predicate Inv(c: Codec, machine: string, pre: nat, w: World) {
    && AppendedLog(c, machine, w.log, pre)
    && TopBelow(w.log, w.counter)
    && (forall p :: p in w.procs ==> w.procs[p].floor <= w.counter)
    && OneInside(w)
    && (forall p :: p in w.procs ==> Knows(c, machine, w, w.procs[p].pc))
  }

  /** The log and the counter, before what the processes know of them. */
  ghost predicate Files(c: Codec, machine: string, pre: nat, w: World) {
    && AppendedLog(c, machine, w.log, pre) && TopBelow(w.log, w.counter)
    && (forall p :: p in w.procs ==> w.procs[p].floor <= w.counter)
  }

  lemma StepKeepsFiles(c: Codec, machine: string, pre: nat, w: World, p: nat, a: Action)
    requires Inv(c, machine, pre, w) && Enabled(c, machine, w, p, a)
    ensures var w' := Step(c, machine, w, p, a);
            Files(c, machine, pre, w') && w.log <= w'.log && w.counter <= w'.counter
  {
    if a.DoWriteLog? {
      ChainExtends(c, machine, w.log, pre, w.procs[p].pc.entry);
    }
    hide AppendedLog, Encodable, Digest;
  }

  lemma StepKeepsOneInside(c: Codec, machine: string, w: World, p: nat, a: Action)
    requires OneInside(w) && Enabled(c, machine, w, p, a)
    ensures OneInside(Step(c, machine, w, p, a))
  {
    hide LinkTo, Encodable;
  }

  /** The process that takes a step knows what it should afterwards. */
  lemma StepTeaches(c: Codec, machine: string, pre: nat, w: World, p: nat, a: Action)
    requires Inv(c, machine, pre, w) && Enabled(c, machine, w, p, a)
    ensures var w' := Step(c, machine, w, p, a);
            p in w'.procs && Knows(c, machine, w', w'.procs[p].pc)
  {
    hide AppendedLog, Encodable, LinkTo;
  }

  /** What the one process inside knows is about files no other process changes. */
  lemma OthersKnow(c: Codec, machine: string, pre: nat, w: World, p: nat, a: Action, q: nat)
    requires Inv(c, machine, pre, w) && Enabled(c, machine, w, p, a) && q != p
    requires q in Step(c, machine, w, p, a).procs
    ensures var w' := Step(c, machine, w, p, a); Knows(c, machine, w', w'.procs[q].pc)
  {
    hide AppendedLog, Encodable, LinkTo, AllBelow;
    if Critical(w.procs[q].pc) {
      assert w.lock == Held(q);
    }
  }

  /** Every step of every process keeps the invariant, and the log is only ever extended. */
  lemma StepKeepsInv(c: Codec, machine: string, pre: nat, w: World, p: nat, a: Action)
    requires Inv(c, machine, pre, w) && Enabled(c, machine, w, p, a)
    ensures Inv(c, machine, pre, Step(c, machine, w, p, a))
    ensures w.log <= Step(c, machine, w, p, a).log
    ensures w.counter <= Step(c, machine, w, p, a).counter
  {
    var w' := Step(c, machine, w, p, a);
    StepKeepsFiles(c, machine, pre, w, p, a);
    StepKeepsOneInside(c, machine, w, p, a);
    StepTeaches(c, machine, pre, w, p, a);
    hide Step, Enabled, Knows, OneInside, AppendedLog, TopBelow;
    forall q | q in w'.procs ensures Knows(c, machine, w', w'.procs[q].pc) {
      if q != p { OthersKnow(c, machine, pre, w, p, a, q); }
    }
  }

  // ---------------------------------------------------------------- runs

  datatype Move = Move(p: nat, a: Action)

  /** A run: any interleaving of any number of processes. */
  ghost predicate IsRun(c: Codec, machine: string, run: seq<World>, moves: seq<Move>) {
    && |run| == |moves| + 1
    && forall i :: 0 <= i < |moves| ==>
         Enabled(c, machine, run[i], moves[i].p, moves[i].a)
         && run[i + 1] == Step(c, machine, run[i], moves[i].p, moves[i].a)
  }

  /** A state directory no process is using yet. */
  ghost predicate Quiet(c: Codec, machine: string, pre: nat, w: World) {
    AppendedLog(c, machine, w.log, pre) && TopBelow(w.log, w.counter) && w.procs == map[]
  }

  /** In every run, at every moment: seqs strictly ascend, each entry links to the one before it, the
      counter file is never below the log's top seq, and what was logged stays logged. */
  lemma {:induction false} EveryRunIsAChain(c: Codec, machine: string, pre: nat, run: seq<World>, moves: seq<Move>,
                                            i: nat, j: nat)
    requires IsRun(c, machine, run, moves) && Quiet(c, machine, pre, run[0])
    requires i <= j < |run|
    ensures Inv(c, machine, pre, run[j])
    ensures run[i].log <= run[j].log && run[i].counter <= run[j].counter
    decreases j
  {
    if j > 0 {
      EveryRunIsAChain(c, machine, pre, run, moves, if i < j then i else 0, j - 1);
      StepKeepsInv(c, machine, pre, run[j - 1], moves[j - 1].p, moves[j - 1].a);
    }
  }

  // ---------------------------------------------------------------- what becomes of each number

  ghost predicate Logged(log: seq<Entry>, n: nat) { exists i :: 0 <= i < |log| && log[i].seqNo == n }

  /** A process that has minted `n` and not yet written its entry. */
  predicate HoldsNumber(pc: Pc, n: nat) {
    match pc
    case Minted(next) => next == n
    case Linked(next, _) => next == n
    case Signed(e) => e.seqNo == n
    case ReadLog(e, _) => e.seqNo == n
    case _ => false
  }

  ghost predicate Pending(w: World, n: nat) { exists p :: p in w.procs && HoldsNumber(w.procs[p].pc, n) }

  /** An append that minted `n` and fails here: it throws, or its process dies. */
  predicate Abandons(w: World, m: Move, n: nat) {
    (m.a.Throw? || m.a.Crash?) && m.p in w.procs && HoldsNumber(w.procs[m.p].pc, n)
  }

  ghost predicate AbandonedBy(run: seq<World>, moves: seq<Move>, k: nat, n: nat)
    requires k <= |moves| < |run|
  {
    exists i :: 0 <= i < k && Abandons(run[i], moves[i], n)
  }

  /** Exactly one of the three, or the number is not minted yet. */
  predicate OneFate(minted: bool, logged: bool, pending: bool, abandoned: bool) {
    && (minted <==> logged || pending || abandoned)
    && !(logged && pending) && !(logged && abandoned) && !(pending && abandoned)
  }

  /** The process inside is the only one that can hold a number. */
  lemma PendingInside(w: World, p: nat, n: nat)
    requires OneInside(w) && p in w.procs && Critical(w.procs[p].pc)
    ensures Pending(w, n) <==> HoldsNumber(w.procs[p].pc, n)
  {
    if q :| q in w.procs && HoldsNumber(w.procs[q].pc, n) {
      assert Critical(w.procs[q].pc) && w.lock == Held(q) && w.lock == Held(p);
    }
  }

  lemma PendingAfter(c: Codec, machine: string, w: World, p: nat, a: Action, n: nat)
    requires OneInside(w) && Enabled(c, machine, w, p, a) && OneInside(Step(c, machine, w, p, a))
    ensures var w' := Step(c, machine, w, p, a);
            p in w'.procs && (Pending(w', n) <==>
              if p in w.procs && Critical(w.procs[p].pc) then HoldsNumber(w'.procs[p].pc, n) else Pending(w, n))
  {
    hide LinkTo, Encodable, NextSeq;
    var w' := Step(c, machine, w, p, a);
    assert forall q :: q != p ==> (q in w'.procs <==> q in w.procs) && (q in w.procs ==> w'.procs[q] == w.procs[q]);
    if p in w.procs && Critical(w.procs[p].pc) {
      forall q | q in w'.procs && HoldsNumber(w'.procs[q].pc, n) ensures q == p {
        assert q != p ==> Critical(w.procs[q].pc);
        assert w.lock == Held(p);
      }
    } else {
      assert !HoldsNumber(w'.procs[p].pc, n);
      assert p in w.procs ==> !HoldsNumber(w.procs[p].pc, n);
      if q :| q in w.procs && HoldsNumber(w.procs[q].pc, n) { assert q in w'.procs && w'.procs[q] == w.procs[q]; }
    }
  }

  lemma LoggedOneMore(log: seq<Entry>, e: Entry, n: nat)
    ensures Logged(log + [e], n) <==> Logged(log, n) || e.seqNo == n
  {
    var more := log + [e];
    assert more[|log|] == e;
    if i :| 0 <= i < |log| && log[i].seqNo == n { assert more[i].seqNo == n; }
  }

  /** What one step does to a number above those minted before the run: minting it makes it pending, writing its
      entry logs it, a failure abandons it, and nothing else changes its fate. */
  lemma StepMovesFate(c: Codec, machine: string, pre: nat, w: World, m: Move, n: nat, abandoned: bool)
    requires Inv(c, machine, pre, w) && Enabled(c, machine, w, m.p, m.a)
    requires OneFate(n <= w.counter, Logged(w.log, n), Pending(w, n), abandoned)
    ensures var w' := Step(c, machine, w, m.p, m.a);
            OneFate(n <= w'.counter, Logged(w'.log, n), Pending(w', n), abandoned || Abandons(w, m, n))
  {
    StepKeepsOneInside(c, machine, w, m.p, m.a);
    PendingAfter(c, machine, w, m.p, m.a, n);
    if m.p in w.procs && Critical(w.procs[m.p].pc) {
      InsideMovesFate(c, machine, w, m, n, abandoned);
    } else {
      OutsideMovesNothing(c, machine, w, m, n);
    }
  }

  lemma OutsideMovesNothing(c: Codec, machine: string, w: World, m: Move, n: nat)
    requires Enabled(c, machine, w, m.p, m.a) && !(m.p in w.procs && Critical(w.procs[m.p].pc))
    ensures var w' := Step(c, machine, w, m.p, m.a); w'.log == w.log && w'.counter == w.counter
    ensures !Abandons(w, m, n)
  {
    hide LinkTo, Encodable;
  }

  /** A step of the process inside. */
  lemma InsideMovesFate(c: Codec, machine: string, w: World, m: Move, n: nat, abandoned: bool)
    requires OneInside(w) && Enabled(c, machine, w, m.p, m.a)
    requires m.p in w.procs && Critical(w.procs[m.p].pc) && Knows(c, machine, w, w.procs[m.p].pc)
    requires OneFate(n <= w.counter, Logged(w.log, n), Pending(w, n), abandoned)
    ensures var w' := Step(c, machine, w, m.p, m.a);
            OneFate(n <= w'.counter, Logged(w'.log, n), HoldsNumber(w'.procs[m.p].pc, n),
                    abandoned || Abandons(w, m, n))
  {
    PendingInside(w, m.p, n);
    if m.a.DoWriteLog? { LoggedOneMore(w.log, w.procs[m.p].pc.entry, n); }
    hide Pending, Logged, LinkTo, Encodable, AllBelow, OneInside;
  }

  /** Every number minted in a run has exactly one fate: its entry is in the log, or the append that minted it is
      still under way, or that append failed before it wrote. */
  lemma {:induction false} EveryNumberIsAccountedFor(c: Codec, machine: string, pre: nat, run: seq<World>,
                                                     moves: seq<Move>, k: nat, n: nat)
    requires IsRun(c, machine, run, moves) && Quiet(c, machine, pre, run[0]) && k <= |moves|
    requires n > run[0].counter
    ensures OneFate(n <= run[k].counter, Logged(run[k].log, n), Pending(run[k], n), AbandonedBy(run, moves, k, n))
  {
    if k > 0 {
      EveryNumberIsAccountedFor(c, machine, pre, run, moves, k - 1, n);
      EveryRunIsAChain(c, machine, pre, run, moves, 0, k - 1);
      StepOfRun(c, machine, run, moves, k - 1);
      AbandonedOneMore(run, moves, k - 1, n);
      hide *;
      StepMovesFate(c, machine, pre, run[k - 1], moves[k - 1], n, AbandonedBy(run, moves, k - 1, n));
    } else {
      hide AppendedLog, OneFate;
      NothingMintedYet(c, machine, pre, run[0], n);
      assert !AbandonedBy(run, moves, 0, n);
      assert OneFate(false, false, false, false);
    }
  }

  lemma StepOfRun(c: Codec, machine: string, run: seq<World>, moves: seq<Move>, k: nat)
    requires IsRun(c, machine, run, moves) && k < |moves|
    ensures Enabled(c, machine, run[k], moves[k].p, moves[k].a)
    ensures run[k + 1] == Step(c, machine, run[k], moves[k].p, moves[k].a)
  {
    hide Enabled, Step;
  }

  lemma NothingMintedYet(c: Codec, machine: string, pre: nat, w: World, n: nat)
    requires Quiet(c, machine, pre, w) && n > w.counter
    ensures !Logged(w.log, n) && !Pending(w, n)
  {
    hide AppendedLog;
  }

  lemma AbandonedOneMore(run: seq<World>, moves: seq<Move>, k: nat, n: nat)
    requires k < |moves| < |run|
    ensures AbandonedBy(run, moves, k + 1, n) <==> AbandonedBy(run, moves, k, n) || Abandons(run[k], moves[k], n)
  {
  }

  /** A state directory in which nothing was ever minted. */
  predicate Empty(w: World) { w.counter == 0 && w.log == [] && w.procs == map[] }

  /** So a number is missing below the top of the log exactly if the append that minted it failed before it wrote. */
  lemma GapsAreFailedAppends(c: Codec, machine: string, run: seq<World>, moves: seq<Move>, k: nat, n: nat)
    requires IsRun(c, machine, run, moves) && Empty(run[0]) && k <= |moves|
    requires n >= 1 && exists i :: 0 <= i < |run[k].log| && n <= run[k].log[i].seqNo
    ensures (exists f: nat, t: nat :: IsGap(SeqsOf(run[k].log, machine), f, t) && f < n < t)
            <==> AbandonedBy(run, moves, k, n)
  {
    var w := run[k];
    EveryRunIsAChain(c, machine, 0, run, moves, 0, k);
    hide AbandonedBy, AppendedLog, IsRun, SeqsOf, IsGap;
    EveryNumberIsAccountedFor(c, machine, 0, run, moves, k, n);
    if Pending(w, n) { PendingIsOnTop(c, machine, 0, w, n); }
    LoggedIsObserved(c, machine, w.log, 0, n);
    var i :| 0 <= i < |w.log| && n <= w.log[i].seqNo;
    LoggedIsObserved(c, machine, w.log, 0, w.log[i].seqNo);
    GapsAreTheMissingNumbers(SeqsOf(w.log, machine), n);
  }

  /** A failure while the lock is held. */
  predicate FailsInside(w: World, m: Move) {
    (m.a.Throw? || m.a.Crash?) && m.p in w.procs && Critical(w.procs[m.p].pc)
  }

  /** No failure inside the lock, no gap: from nothing, however many processes append, the log holds 1, 2, 3, and
      so on, and no reader finds a number missing. */
  lemma UnbrokenRunsCountUp(c: Codec, machine: string, run: seq<World>, moves: seq<Move>, k: nat)
    requires IsRun(c, machine, run, moves) && Empty(run[0]) && k <= |moves|
    requires forall j :: 0 <= j < k ==> !FailsInside(run[j], moves[j])
    ensures forall i :: 0 <= i < |run[k].log| ==> run[k].log[i].seqNo == i + 1
    ensures forall f: nat, t: nat :: !IsGap(SeqsOf(run[k].log, machine), f, t)
  {
    var log := run[k].log;
    EveryRunIsAChain(c, machine, 0, run, moves, 0, k);
    forall n: nat | n >= 1 && log != [] && n <= log[|log| - 1].seqNo ensures Logged(log, n) {
      EveryNumberIsAccountedFor(c, machine, 0, run, moves, k, n);
      if Pending(run[k], n) { PendingIsOnTop(c, machine, 0, run[k], n); }
      assert TopBelow(log, run[k].counter);
    }
    forall i: nat | i < |log| ensures log[i].seqNo == i + 1 { CountsUp(log, i); }
    forall f: nat, t: nat ensures !IsGap(SeqsOf(log, machine), f, t) {
      GapNeedsAMissingNumber(log, machine, f, t);
    }
  }

  lemma GapNeedsAMissingNumber(log: seq<Entry>, machine: string, f: nat, t: nat)
    requires forall i :: 0 <= i < |log| ==> log[i].machine == machine && log[i].seqNo == i + 1
    ensures !IsGap(SeqsOf(log, machine), f, t)
  {
    var seqs := SeqsOf(log, machine);
    if t in seqs && f + 1 < t {
      var e :| e in log && e.machine == machine && e.seqNo == t;
      assert log[f] in log && log[f].seqNo == f + 1;
      assert f + 1 in seqs;
    }
  }

  /** An ascending log that misses no number below its top counts up from one. */
  lemma {:induction false} CountsUp(log: seq<Entry>, i: nat)
    requires i < |log| && forall a, b :: 0 <= a < b < |log| ==> log[a].seqNo < log[b].seqNo
    requires forall a :: 0 <= a < |log| ==> log[a].seqNo >= 1
    requires forall n: nat :: 1 <= n <= log[|log| - 1].seqNo ==> Logged(log, n)
    ensures log[i].seqNo == i + 1
  {
    if i > 0 { CountsUp(log, i - 1); }
    assert i + 1 <= log[i].seqNo <= log[|log| - 1].seqNo;
    assert Logged(log, i + 1);
    var j :| 0 <= j < |log| && log[j].seqNo == i + 1;
    assert j >= i;
  }

  lemma PendingIsOnTop(c: Codec, machine: string, pre: nat, w: World, n: nat)
    requires Inv(c, machine, pre, w) && Pending(w, n)
    ensures n == w.counter && AllBelow(w.log, n)
  {
    hide AppendedLog, LinkTo, Encodable;
    var p :| p in w.procs && HoldsNumber(w.procs[p].pc, n);
    assert Knows(c, machine, w, w.procs[p].pc);
  }

  lemma LoggedIsObserved(c: Codec, machine: string, log: seq<Entry>, pre: nat, n: nat)
    requires AppendedLog(c, machine, log, pre)
    ensures Logged(log, n) <==> n in SeqsOf(log, machine)
  {
    if i :| 0 <= i < |log| && log[i].seqNo == n { assert log[i] in log; }
  }

  /** So no reader, handed any part of what any run logged and any lines that do not verify, ever raises a
      chain flag for the machine. */
  lemma RunsRaiseNoChainAlarm(c: Codec, machine: string, pre: nat, run: seq<World>, moves: seq<Move>,
                              t: Trust, es: seq<Entry>, e: Entry)
    requires IsRun(c, machine, run, moves) && Quiet(c, machine, pre, run[0])
    requires forall x :: x in es && x.machine == machine && Verified(t, x) ==> x in run[|moves|].log
    ensures !ChainBroken(c, VerifiedOf(t, es, machine), e)
  {
    EveryRunIsAChain(c, machine, pre, run, moves, 0, |moves|);
    NoFalseChainAlarm(c, t, es, machine, run[|moves|].log, pre, e);
  }
}
