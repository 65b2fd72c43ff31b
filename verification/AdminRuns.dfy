/** Remote admin runs. One run id may reach the target any number of times, over two transports, in
    processes that share nothing but an exclusive-create marker file; the origin learns of the outcome from
    whatever part of a reply it captures. */
module AdminRuns {
  import opened Wrappers
  import opened Text

  // ---------------------------------------------------------------- the target

  /** What the target leg yields: an exit code, or None for a refusal or a timeout. */
  type Outcome = Option<int>

  /** Where one process answering a delivery stands. */
  datatype Pc =
    | Arrived
    | Claimed
    | Running
    | Finished(outcome: Outcome)
    | Recorded(outcome: Outcome)
    | Replaying
    | Gone

  datatype Process = Process(runId: string, pc: Pc)

  datatype Reply = Reply(runId: string, exitCode: Option<int>)

  /** The marker directory (a claimed marker is empty until an outcome is recorded in it), the processes,
      and the replies sent so far; `legs` and `exits` are the history the claims are about: how often the
      target leg was started for an id, and what the last one yielded. */
  datatype World = World(
    markers: map<string, Option<Outcome>>, procs: map<nat, Process>, replies: set<Reply>,
    legs: map<string, nat>, exits: map<string, Outcome>)

  function Legs(w: World, id: string): nat { if id in w.legs then w.legs[id] else 0 }

  datatype Action =
    | Deliver(runId: string)
    | Claim
    | ClaimUnusable(created: bool)
    | StartLeg
    | FinishLeg(outcome: Outcome)
    | Record
    | RecordFails
    | SendReply
    | Replay
    | Crash

  datatype Move = Step(p: nat, a: Action) | Prune(runId: string)

  predicate CanTake(w: World, proc: Process, a: Action) {
    match a
    case Deliver(_) => false
    case Claim => proc.pc.Arrived?
    // also stands for a delivery refused before it claims
    case ClaimUnusable(created) => proc.pc.Arrived? && (created ==> proc.runId !in w.markers)
    case StartLeg => proc.pc.Claimed?
    case FinishLeg(_) => proc.pc.Running?
    case Record => proc.pc.Finished?
    case RecordFails => proc.pc.Finished?
    case SendReply => proc.pc.Recorded?
    case Replay => proc.pc.Replaying?
    case Crash => !proc.pc.Gone?
  }

  predicate Enabled(w: World, m: Move) {
    match m
    case Prune(id) => id in w.markers
    case Step(p, a) => if a.Deliver? then p !in w.procs else p in w.procs && CanTake(w, w.procs[p], a)
  }

  /** replayResponse: the recorded exit code, if an outcome was recorded. */
  function Replayed(w: World, id: string): Option<int> {
    if id in w.markers && w.markers[id].Some? then w.markers[id].value else None
  }

  /** Where an action leaves the process that takes it. The exclusive create decides a claim: the first one
      in goes on, the rest replay. */
  function NextPc(w: World, proc: Process, a: Action): Pc
    requires CanTake(w, proc, a)
  {
    match a
    case Claim => if proc.runId in w.markers then Replaying else Claimed
    case StartLeg => Running
    case FinishLeg(outcome) => Finished(outcome)
    case Record => Recorded(proc.pc.outcome)
    case RecordFails => Recorded(proc.pc.outcome)
    case _ => Gone
  }

  /** What an action does to everything but the processes. */
  function Effect(w: World, proc: Process, a: Action): (w': World)
    requires CanTake(w, proc, a)
    ensures w'.procs == w.procs
  {
    var id := proc.runId;
    match a
    case Claim => if id in w.markers then w else w.(markers := w.markers[id := None])
    case ClaimUnusable(created) =>
      w.(replies := w.replies + {Reply(id, None)}, markers := if created then w.markers[id := None] else w.markers)
    case StartLeg => w.(legs := w.legs[id := Legs(w, id) + 1])
    case FinishLeg(outcome) => w.(exits := w.exits[id := outcome])
    case Record => w.(markers := w.markers[id := Some(proc.pc.outcome)])
    case SendReply => w.(replies := w.replies + {Reply(id, proc.pc.outcome)})
    case Replay => w.(replies := w.replies + {Reply(id, Replayed(w, id))})
    case _ => w
  }

  function After(w: World, m: Move): World
    requires Enabled(w, m)
  {
    match m
    case Prune(id) => w.(markers := w.markers - {id})
    case Step(p, a) =>
      if a.Deliver? then w.(procs := w.procs[p := Process(a.runId, Arrived)])
      else Effect(w, w.procs[p], a).(procs := w.procs[p := Process(w.procs[p].runId, NextPc(w, w.procs[p], a))])
  }

  // ---------------------------------------------------------------- at most once

  /** A process that won the claim and has not answered yet. */
  predicate Owns(proc: Process, id: string) {
    proc.runId == id && (proc.pc.Claimed? || proc.pc.Running? || proc.pc.Finished? || proc.pc.Recorded?)
  }

  /** At most one process owns the id, and it holds the marker. */
  ghost predicate OneOwner(w: World, id: string) {
    && (forall p :: p in w.procs && Owns(w.procs[p], id) ==> id in w.markers)
    && (forall p, q :: p in w.procs && q in w.procs && Owns(w.procs[p], id) && Owns(w.procs[q], id) ==> p == q)
  }

  /** What a process working on the id has done so far. */
  ghost predicate PcAgrees(w: World, id: string, pc: Pc) {
    match pc
    case Claimed => Legs(w, id) == 0
    case Running => Legs(w, id) == 1 && id !in w.exits
    case Finished(o) => id in w.exits && w.exits[id] == o
    case Recorded(o) => id in w.exits && w.exits[id] == o
    case _ => true
  }

  ghost predicate PcsAgree(w: World, id: string) {
    forall p :: p in w.procs && w.procs[p].runId == id ==> PcAgrees(w, id, w.procs[p].pc)
  }

  /** Every exit code on the wire is that of the one execution. */
  ghost predicate RepliesAgree(w: World, id: string) {
    forall r :: r in w.replies && r.runId == id && r.exitCode.Some? ==> id in w.exits && w.exits[id] == r.exitCode
  }

  /** The leg started at most once, and only after the claim; the outcome on file is that of the one execution. */
  ghost predicate History(w: World, id: string) {
    && Legs(w, id) <= 1
    && (Legs(w, id) == 1 || id in w.exits ==> id in w.markers)
    && (id in w.exits ==> Legs(w, id) == 1)
    && (id in w.markers && w.markers[id].Some? ==> id in w.exits && w.markers[id].value == w.exits[id])
  }

  ghost predicate Inv(w: World, id: string) {
    OneOwner(w, id) && PcsAgree(w, id) && History(w, id) && RepliesAgree(w, id)
  }

  /** A move changes the process that takes it, and no other. */
  lemma OthersStay(w: World, m: Move, q: nat)
    requires Enabled(w, m) && (m.Step? ==> q != m.p)
    ensures q in After(w, m).procs <==> q in w.procs
    ensures q in w.procs ==> After(w, m).procs[q] == w.procs[q]
  {
  }

  lemma OwnMove(w: World, q: nat, a: Action, id: string)
    requires Enabled(w, Step(q, a)) && Owns(After(w, Step(q, a)).procs[q], id)
    ensures !a.Deliver?
    ensures Owns(w.procs[q], id) || (a.Claim? && id !in w.markers)
  {
  }

  /** An owner owned before, or has just claimed an id nobody had claimed. */
  lemma NewOwner(w: World, m: Move, id: string, q: nat)
    requires Enabled(w, m) && m != Prune(id)
    requires q in After(w, m).procs && Owns(After(w, m).procs[q], id)
    ensures (q in w.procs && Owns(w.procs[q], id)) || (m == Step(q, Claim) && id !in w.markers)
  {
    if m.Step? && m.p == q {
      OwnMove(w, q, m.a, id);
    } else {
      OthersStay(w, m, q);
    }
  }

  lemma MarkersStay(w: World, m: Move, id: string)
    requires Enabled(w, m) && m != Prune(id)
    ensures id in w.markers ==> id in After(w, m).markers
  {
  }

  lemma MoveKeepsOneOwner(w: World, m: Move, id: string)
    requires OneOwner(w, id) && Enabled(w, m) && m != Prune(id)
    ensures OneOwner(After(w, m), id)
  {
    var w' := After(w, m);
    MarkersStay(w, m, id);
    forall p | p in w'.procs && Owns(w'.procs[p], id)
      ensures (p in w.procs && Owns(w.procs[p], id)) || (m == Step(p, Claim) && id !in w.markers)
      ensures id in w'.markers
    {
      NewOwner(w, m, id, p);
    }
  }

  /** A move of a process answering another id. */
  predicate Foreign(w: World, m: Move, id: string) {
    m.Prune? || m.a.Deliver? || (m.p in w.procs && w.procs[m.p].runId != id)
  }

  predicate SameRecord(w: World, w': World, id: string) {
    && (if id in w.markers then id in w'.markers && w'.markers[id] == w.markers[id] else id !in w'.markers)
    && (if id in w.exits then id in w'.exits && w'.exits[id] == w.exits[id] else id !in w'.exits)
    && Legs(w', id) == Legs(w, id)
  }

  lemma EffectElsewhere(w: World, proc: Process, a: Action, id: string)
    requires CanTake(w, proc, a) && proc.runId != id
    ensures SameRecord(w, Effect(w, proc, a), id)
  {
  }

  lemma ForeignMove(w: World, m: Move, id: string)
    requires Enabled(w, m) && m != Prune(id) && Foreign(w, m, id)
    ensures SameRecord(w, After(w, m), id)
  {
    if m.Step? && !m.a.Deliver? {
      EffectElsewhere(w, w.procs[m.p], m.a, id);
    }
  }

  lemma MoveKeepsHistory(w: World, m: Move, id: string)
    requires OneOwner(w, id) && PcsAgree(w, id) && History(w, id) && Enabled(w, m) && m != Prune(id)
    ensures History(After(w, m), id)
  {
    if Foreign(w, m, id) {
      ForeignMove(w, m, id);
    } else {
      assert PcAgrees(w, id, w.procs[m.p].pc);
      assert Owns(w.procs[m.p], id) ==> id in w.markers;
    }
  }

  lemma MoveKeepsReplies(w: World, m: Move, id: string)
    requires PcsAgree(w, id) && History(w, id) && RepliesAgree(w, id) && Enabled(w, m) && m != Prune(id)
    ensures RepliesAgree(After(w, m), id)
  {
    if Foreign(w, m, id) {
      ForeignMove(w, m, id);
    } else {
      assert PcAgrees(w, id, w.procs[m.p].pc);
    }
  }

  lemma OwnPcAgrees(w: World, p: nat, a: Action)
    requires Enabled(w, Step(p, a)) && !a.Deliver?
    requires OneOwner(w, w.procs[p].runId) && History(w, w.procs[p].runId)
    requires PcAgrees(w, w.procs[p].runId, w.procs[p].pc)
    ensures PcAgrees(After(w, Step(p, a)), w.procs[p].runId, After(w, Step(p, a)).procs[p].pc)
  {
  }

  /** A move that changes an id's history is made by its owner. */
  lemma OnlyTheOwnerActs(w: World, p: nat, a: Action)
    requires Enabled(w, Step(p, a)) && !a.Deliver? && !Owns(w.procs[p], w.procs[p].runId)
    ensures var id, w' := w.procs[p].runId, After(w, Step(p, a));
            w'.exits == w.exits && w'.legs == w.legs
  {
  }

  /** Only the owner changes what the others' states are about, and there is only one owner. */
  lemma MoveKeepsPcs(w: World, m: Move, id: string)
    requires OneOwner(w, id) && PcsAgree(w, id) && History(w, id) && Enabled(w, m) && m != Prune(id)
    ensures PcsAgree(After(w, m), id)
  {
    var w' := After(w, m);
    forall q | q in w'.procs && w'.procs[q].runId == id
      ensures PcAgrees(w', id, w'.procs[q].pc)
    {
      if m.Step? && m.p == q {
        if !m.a.Deliver? { OwnPcAgrees(w, q, m.a); }
      } else {
        OthersStay(w, m, q);
        if Foreign(w, m, id) {
          ForeignMove(w, m, id);
        } else if Owns(w.procs[m.p], id) {
          assert !Owns(w.procs[q], id);
        } else {
          OnlyTheOwnerActs(w, m.p, m.a);
        }
      }
    }
  }

  lemma MoveKeepsInv(w: World, m: Move, id: string)
    requires Inv(w, id) && Enabled(w, m) && m != Prune(id)
    ensures Inv(After(w, m), id)
  {
    MoveKeepsOneOwner(w, m, id);
    MoveKeepsHistory(w, m, id);
    MoveKeepsReplies(w, m, id);
    MoveKeepsPcs(w, m, id);
  }

  ghost predicate IsRun(run: seq<World>, moves: seq<Move>) {
    |run| == |moves| + 1
    && forall i :: 0 <= i < |moves| ==> Enabled(run[i], moves[i]) && run[i + 1] == After(run[i], moves[i])
  }

  /** Before the id was ever delivered. */
  predicate Unused(w: World, id: string) {
    && id !in w.markers && id !in w.legs && id !in w.exits
    && (forall p :: p in w.procs ==> w.procs[p].runId != id)
    && (forall r :: r in w.replies ==> r.runId != id)
  }

  /** At most once. However deliveries of one run id are lost, repeated or overlapped, and wherever the
      processes answering them die, the target leg starts at most once while the marker is not pruned; and
      every reply that carries an exit code carries the exit code of that single execution. */
  lemma {:induction false} AtMostOnce(run: seq<World>, moves: seq<Move>, id: string, k: nat)
    requires IsRun(run, moves) && k < |run| && Unused(run[0], id)
    requires forall i :: 0 <= i < |moves| ==> moves[i] != Prune(id)
    ensures Inv(run[k], id) && Legs(run[k], id) <= 1
    ensures forall r :: r in run[k].replies && r.runId == id && r.exitCode.Some? ==>
              Legs(run[k], id) == 1 && id in run[k].exits && run[k].exits[id] == r.exitCode
  {
    if k > 0 {
      AtMostOnce(run, moves, id, k - 1);
      MoveKeepsInv(run[k - 1], moves[k - 1], id);
    }
  }

  /** The marker is what makes it so: after a prune, the next delivery is executed again. */
  lemma PruneAllowsASecondRun(w: World, id: string, p: nat)
    requires id in w.markers && p !in w.procs
    ensures var w1 := After(w, Prune(id));
            var w2 := After(w1, Step(p, Deliver(id)));
            var w3 := After(w2, Step(p, Claim));
            Legs(After(w3, Step(p, StartLeg)), id) == Legs(w, id) + 1
  {
  }

  // ---------------------------------------------------------------- the target's code, undisturbed

  datatype ClaimResult = Won | Duplicate(recorded: Option<Outcome>) | Unusable

  /** The marker directory, and how often the leg was started. */
  class Target {
    var markers: map<string, Option<Outcome>>
    ghost var legs: map<string, nat>

    /** claimRun: the exclusive create decides. */
    method ClaimRun(runId: string, creatable: bool) returns (claim: ClaimResult)
      modifies this`markers
      ensures claim == if runId in old(markers) then Duplicate(old(markers)[runId])
                       else if creatable then Won else Unusable
      ensures markers == if claim.Won? then old(markers)[runId := None] else old(markers)
    {
      if runId in markers { return Duplicate(markers[runId]); }
      if !creatable { return Unusable; }
      markers := markers[runId := None];
      return Won;
    }

    /** execLocal, from the claim on: the leg runs if and only if the claim is won, its outcome is recorded if
        it can be, and a duplicate is answered from the record without running anything. */
    method ExecLocal(runId: string, creatable: bool, leg: Outcome, recordable: bool) returns (reply: Reply)
      modifies this
      ensures runId in old(markers) ==>
                markers == old(markers) && legs == old(legs)
                && reply == Reply(runId, if old(markers)[runId].Some? then old(markers)[runId].value else None)
      ensures runId !in old(markers) && !creatable ==>
                markers == old(markers) && legs == old(legs) && reply == Reply(runId, None)
      ensures runId !in old(markers) && creatable ==>
                markers == old(markers)[runId := if recordable then Some(leg) else None]
                && legs == old(legs)[runId := (if runId in old(legs) then old(legs)[runId] else 0) + 1]
                && reply == Reply(runId, leg)
    {
      var claim := ClaimRun(runId, creatable);
      match claim {
        case Unusable => return Reply(runId, None);
        case Duplicate(recorded) => return Reply(runId, if recorded.Some? then recorded.value else None);
        case Won =>
          legs := legs[runId := (if runId in legs then legs[runId] else 0) + 1];
          if recordable { markers := markers[runId := Some(leg)]; }
          return Reply(runId, leg);
      }
    }
  }

  /** Process `p` answers the run and stands at `pc`. */
  predicate At(w: World, p: nat, runId: string, pc: Pc) { p in w.procs && w.procs[p] == Process(runId, pc) }

  /** One enabled step. */
  ghost predicate Goes(w: World, p: nat, a: Action, w': World) {
    Enabled(w, Step(p, a)) && w' == After(w, Step(p, a))
  }

  lemma ClaimInSteps(w: World, p: nat, runId: string, w0: World, w1: World)
    requires Goes(w, p, Deliver(runId), w0) && Goes(w0, p, Claim, w1)
    ensures At(w1, p, runId, if runId in w.markers then Replaying else Claimed)
    ensures w1.legs == w.legs && w1.replies == w.replies
    ensures w1.markers == if runId in w.markers then w.markers else w.markers[runId := None]
  {
  }

  lemma LegInSteps(w: World, p: nat, runId: string, leg: Outcome, w0: World, w1: World)
    requires At(w, p, runId, Claimed) && Goes(w, p, StartLeg, w0) && Goes(w0, p, FinishLeg(leg), w1)
    ensures At(w1, p, runId, Finished(leg)) && w1.legs == w.legs[runId := Legs(w, runId) + 1]
    ensures w1.markers == w.markers && w1.replies == w.replies
  {
  }

  lemma ReplyInSteps(w: World, p: nat, runId: string, leg: Outcome, recordable: bool, w0: World, w1: World)
    requires At(w, p, runId, Finished(leg))
    requires Goes(w, p, if recordable then Record else RecordFails, w0) && Goes(w0, p, SendReply, w1)
    ensures w1.legs == w.legs && w1.replies == w.replies + {Reply(runId, leg)}
    ensures w1.markers == if recordable then w.markers[runId := Some(leg)] else w.markers
  {
  }

  /** Step by step, an undisturbed delivery that wins the claim does what ExecLocal does. */
  lemma WonInSteps(w: World, p: nat, runId: string, leg: Outcome, recordable: bool,
                   w0: World, w1: World, w2: World, w3: World, w4: World, w5: World)
    requires runId !in w.markers && Goes(w, p, Deliver(runId), w0) && Goes(w0, p, Claim, w1)
    requires Goes(w1, p, StartLeg, w2) && Goes(w2, p, FinishLeg(leg), w3)
    requires Goes(w3, p, if recordable then Record else RecordFails, w4) && Goes(w4, p, SendReply, w5)
    ensures w5.markers == w.markers[runId := if recordable then Some(leg) else None]
    ensures w5.legs == w.legs[runId := Legs(w, runId) + 1] && w5.replies == w.replies + {Reply(runId, leg)}
  {
    hide Goes, Legs;
    ClaimInSteps(w, p, runId, w0, w1);
    LegInSteps(w1, p, runId, leg, w2, w3);
    assert Legs(w1, runId) == Legs(w, runId) by { SameLegs(w1, w, runId); }
    ReplyInSteps(w3, p, runId, leg, recordable, w4, w5);
    assert w.markers[runId := None][runId := Some(leg)] == w.markers[runId := Some(leg)];
  }

  lemma SameLegs(w: World, w': World, runId: string)
    requires w.legs == w'.legs
    ensures Legs(w, runId) == Legs(w', runId)
  {
  }

  /** And one that loses it replays the record and runs nothing. */
  lemma LostInSteps(w: World, p: nat, runId: string, w0: World, w1: World, w2: World)
    requires runId in w.markers && Goes(w, p, Deliver(runId), w0) && Goes(w0, p, Claim, w1) && Goes(w1, p, Replay, w2)
    ensures w2.markers == w.markers && w2.legs == w.legs && w2.replies == w.replies + {Reply(runId, Replayed(w, runId))}
  {
    ClaimInSteps(w, p, runId, w0, w1);
  }

  // ---------------------------------------------------------------- the reply envelope

  function Number(n: int): string { if n < 0 then "-" + Decimal(-n) else Decimal(n) }

  const ENVELOPE_HEAD := "{\"v\":1,\"exitCode\":"

  function ExitText(exit: Option<int>): string {
    match exit case None => "null" case Some(n) => Number(n)
  }

  /** A reply as the target prints it: the fields in the order they are built, the exit code first. */
  function Envelope(exit: Option<int>, fields: string): string {
    ENVELOPE_HEAD + ExitText(exit) + "," + fields + "}"
  }

  /** The length of the run of digits `s` starts with. */
  function DigitRun(s: string): (n: nat)
    ensures n <= |s| && (forall i :: 0 <= i < n ==> IsDigit(s[i])) && (n < |s| ==> !IsDigit(s[n]))
  {
    if s == "" || !IsDigit(s[0]) then 0 else 1 + DigitRun(s[1..])
  }

  predicate EndsField(s: string) { s != "" && (s[0] == ',' || s[0] == '}') }

  function SalvageNumber(s: string, sign: int): Option<int> {
    var n := DigitRun(s);
    if 1 <= n <= 10 && EndsField(s[n..]) then Some(sign * DecimalValue(s[..n])) else None
  }

  function SalvageAt(s: string): Option<Option<int>> {
    if "null" <= s && EndsField(s[4..]) then Some(None)
    else
      var n := if s != "" && s[0] == '-' then SalvageNumber(s[1..], -1) else SalvageNumber(s, 1);
      if n.Some? then Some(n) else None
  }

  /** salvageEnvelopeExitCode: the exit code at the head of a reply cut off by the capture cap. */
  function Salvage(line: string): Option<Option<int>> {
    if ENVELOPE_HEAD <= line then SalvageAt(line[|ENVELOPE_HEAD|..]) else None
  }

  lemma {:induction false} DigitRunExact(d: string, rest: string)
    requires (forall i :: 0 <= i < |d| ==> IsDigit(d[i])) && (rest != "" ==> !IsDigit(rest[0]))
    ensures DigitRun(d + rest) == |d|
  {
    if d == "" {
      assert d + rest == rest;
    } else {
      DigitRunExact(d[1..], rest);
      assert (d + rest)[1..] == d[1..] + rest;
    }
  }

  /** A number cut off part way is never taken for a whole one. */
  lemma NumberCutOff(n: nat, tail: string, sign: int, cut: string)
    requires cut <= Decimal(n) + "," + tail
    ensures SalvageNumber(cut, sign).Some? ==> SalvageNumber(cut, sign) == Some(sign * n)
  {
    var d := Decimal(n);
    var whole := d + "," + tail;
    assert cut == whole[..|cut|];
    if |cut| <= |d| {
      assert cut == d[..|cut|];
      assert cut + "" == cut;
      DigitRunExact(cut, "");
    } else {
      assert cut == d + cut[|d|..];
      assert cut[|d|..][0] == ',';
      DigitRunExact(d, cut[|d|..]);
      assert cut[..|d|] == d;
      DecimalRoundTrip(n);
    }
  }

  lemma DigitsHead(n: nat)
    ensures Decimal(n)[0] != '-' && Decimal(n)[0] != 'n'
  {
    assert IsDigit(Decimal(n)[0]);
  }

  lemma SalvageNull(s: string, tail: string)
    requires s <= "null" + tail
    ensures "null" <= s || (DigitRun(s) == 0 && (s == "" || s[0] != '-'))
  {
    if s != "" { assert s[0] == ("null" + tail)[0]; }
    if |s| >= 4 { assert s[..4] == ("null" + tail)[..4]; }
  }

  lemma SalvageNonNegative(n: nat, tail: string, s: string)
    requires s <= Decimal(n) + "," + tail
    ensures SalvageAt(s).Some? ==> SalvageAt(s) == Some(Some(n))
  {
    if s != "" {
      DigitsHead(n);
      assert s[0] == (Decimal(n) + "," + tail)[0] == Decimal(n)[0];
    }
    NumberCutOff(n, tail, 1, s);
  }

  lemma SalvageNegative(n: int, tail: string, s: string)
    requires 0 < n
    requires s <= "-" + (Decimal(n) + "," + tail)
    ensures SalvageAt(s).Some? ==> SalvageAt(s) == Some(Some(-n))
  {
    if s != "" {
      assert s[0] == ("-" + (Decimal(n) + "," + tail))[0];
      assert s[1..] <= ("-" + (Decimal(n) + "," + tail))[1..];
      assert ("-" + (Decimal(n) + "," + tail))[1..] == Decimal(n) + "," + tail;
      NumberCutOff(n, tail, -1, s[1..]);
    }
  }

  /** What the salvage reads at a value is the value's own exit code, or nothing. */
  lemma SalvageValue(exit: Option<int>, tail: string, s: string)
    requires s <= ExitText(exit) + "," + tail
    ensures SalvageAt(s).Some? ==> SalvageAt(s) == Some(exit)
  {
    match exit
    case None =>
      assert ExitText(exit) + "," + tail == "null" + ("," + tail);
      SalvageNull(s, "," + tail);
    case Some(n) =>
      if n < 0 {
        assert ExitText(exit) + "," + tail == "-" + (Decimal(-n) + "," + tail);
        SalvageNegative(-n, tail, s);
      } else {
        SalvageNonNegative(n, tail, s);
      }
  }

  /** Whatever part of a reply was captured, the exit code salvaged from it, if any, is the one sent. */
  lemma SalvageIsSound(exit: Option<int>, fields: string, captured: string)
    requires captured <= Envelope(exit, fields)
    ensures Salvage(captured).Some? ==> Salvage(captured) == Some(exit)
  {
    if ENVELOPE_HEAD <= captured {
      var s := captured[|ENVELOPE_HEAD|..];
      var body := ExitText(exit) + "," + (fields + "}");
      assert Envelope(exit, fields) == ENVELOPE_HEAD + body;
      assert s == body[..|s|] by {
        assert captured == (ENVELOPE_HEAD + body)[..|captured|];
      }
      SalvageValue(exit, fields + "}", s);
    }
  }

  lemma NumberWhole(n: nat, more: string, sign: int)
    ensures SalvageNumber(Decimal(n) + ("," + more), sign) == if |Decimal(n)| <= 10 then Some(sign * n) else None
  {
    var d := Decimal(n);
    var s := d + ("," + more);
    DigitRunExact(d, "," + more);
    assert s[..|d|] == d && s[|d|..] == "," + more;
    DecimalRoundTrip(n);
  }

  lemma NumberPart(n: nat, cut: string, sign: int)
    requires cut <= Decimal(n)
    ensures SalvageNumber(cut, sign) == None
  {
    assert cut == Decimal(n)[..|cut|];
    DigitRunExact(cut, "");
    assert cut + "" == cut;
  }

  lemma NullExact(s: string, more: string)
    ensures SalvageAt("null" + ("," + more)) == Some(None)
    ensures s <= "null" ==> SalvageAt(s) == None
  {
    var w := "null" + ("," + more);
    assert w[..4] == "null" && w[4..] == "," + more;
    if s <= "null" {
      if s != "" { assert s[0] == "null"[0]; }
      assert |s| == 4 ==> s[4..] == "";
    }
  }

  lemma NonNegativeExact(n: nat, s: string, more: string)
    ensures SalvageAt(Decimal(n) + ("," + more)) == if |Decimal(n)| <= 10 then Some(Some(n)) else None
    ensures s <= Decimal(n) ==> SalvageAt(s) == None
  {
    DigitsHead(n);
    NumberWhole(n, more, 1);
    var w := Decimal(n) + ("," + more);
    assert w[0] == Decimal(n)[0];
    assert !("null" <= w);
    if s <= Decimal(n) {
      NumberPart(n, s, 1);
      if s != "" { assert s[0] == Decimal(n)[0]; }
    }
  }

  lemma SignIsTaken(t: string)
    ensures SalvageAt("-" + t) == var n := SalvageNumber(t, -1); if n.Some? then Some(n) else None
  {
    var s := "-" + t;
    assert s[0] == '-' && s[1..] == t;
    assert !("null" <= s);
    hide SalvageNumber;
  }

  lemma NothingToSalvage()
    ensures SalvageAt("") == None
  {
    assert SalvageNumber("", 1) == None;
  }

  lemma NegativeExact(n: int, s: string, more: string)
    requires n >= 0
    ensures SalvageAt("-" + (Decimal(n) + ("," + more))) == if |Decimal(n)| <= 10 then Some(Some(-n)) else None
    ensures s <= "-" + Decimal(n) ==> SalvageAt(s) == None
  {
    hide *;
    NumberWhole(n, more, -1);
    SignIsTaken(Decimal(n) + ("," + more));
    if s <= "-" + Decimal(n) {
      if s == "" {
        NothingToSalvage();
      } else {
        CutBehindSign(s, Decimal(n));
        NumberPart(n, s[1..], -1);
        SignIsTaken(s[1..]);
      }
    }
  }

  lemma CutBehindSign(s: string, d: string)
    requires s != "" && s <= "-" + d
    ensures s == "-" + s[1..] && s[1..] <= d
  {
    assert s[0] == ("-" + d)[0];
    assert ("-" + d)[1..] == d;
  }

  lemma TextOfNumber(n: int, t: string)
    ensures n < 0 ==> ExitText(Some(n)) == "-" + Decimal(-n) && ExitText(Some(n)) + t == "-" + (Decimal(-n) + t)
    ensures n >= 0 ==> ExitText(Some(n)) == Decimal(n)
  {
    hide Decimal;
  }

  function Digits(exit: Option<int>): nat {
    match exit case None => 0 case Some(n) => |Decimal(if n < 0 then -n else n)|
  }

  lemma ValueExact(exit: Option<int>, s: string, more: string)
    ensures SalvageAt(ExitText(exit) + ("," + more)) == if Digits(exit) <= 10 then Some(exit) else None
    ensures s <= ExitText(exit) ==> SalvageAt(s) == None
  {
    if exit.None? {
      assert ExitText(exit) == "null" && Digits(exit) == 0;
      hide *;
      NullExact(s, more);
    } else {
      NumberExact(exit.value, s, more);
    }
  }

  lemma NumberExact(n: int, s: string, more: string)
    ensures SalvageAt(ExitText(Some(n)) + ("," + more)) == if Digits(Some(n)) <= 10 then Some(Some(n)) else None
    ensures s <= ExitText(Some(n)) ==> SalvageAt(s) == None
  {
    TextOfNumber(n, "," + more);
    DigitsOfNumber(n);
    hide *;
    if n < 0 {
      NegativeText(n, s, more, ExitText(Some(n)), ExitText(Some(n)) + ("," + more));
    } else {
      NonNegativeText(n, s, more, ExitText(Some(n)));
    }
  }

  lemma DigitsOfNumber(n: int)
    ensures n < 0 ==> Digits(Some(n)) == |Decimal(-n)|
    ensures n >= 0 ==> Digits(Some(n)) == |Decimal(n)|
  {
  }

  lemma NegativeText(n: int, s: string, more: string, text: string, whole: string)
    requires n < 0 && text == "-" + Decimal(-n) && whole == "-" + (Decimal(-n) + ("," + more))
    ensures SalvageAt(whole) == if |Decimal(-n)| <= 10 then Some(Some(n)) else None
    ensures s <= text ==> SalvageAt(s) == None
  {
    hide *;
    NegativeExact(-n, s, more);
  }

  lemma NonNegativeText(n: int, s: string, more: string, text: string)
    requires n >= 0 && text == Decimal(n)
    ensures SalvageAt(text + ("," + more)) == if |Decimal(n)| <= 10 then Some(Some(n)) else None
    ensures s <= text ==> SalvageAt(s) == None
  {
    hide *;
    NonNegativeExact(n, s, more);
  }

  /** A salvage succeeds exactly when enough was captured: everything up to the exit code and one character past
      it. Exit codes of more than ten digits, which no process has, are left alone. */
  lemma SalvageExactly(exit: Option<int>, fields: string, captured: string)
    requires captured <= Envelope(exit, fields)
    ensures Salvage(captured) ==
            if |captured| > |ENVELOPE_HEAD| + |ExitText(exit)| && Digits(exit) <= 10 then Some(exit) else None
  {
    var h, t := ENVELOPE_HEAD, ExitText(exit);
    var whole := h + (t + ("," + (fields + "}")));
    assert Envelope(exit, fields) == whole;
    hide ExitText, Digits, SalvageAt;
    assert captured == whole[..|captured|];
    assert |captured| >= |h| ==> captured[..|h|] == whole[..|h|] == h;
    if h <= captured {
      var s := captured[|h|..];
      assert s == (t + ("," + (fields + "}")))[..|s|];
      if |s| > |t| {
        var more := s[|t| + 1..];
        assert s == t + ("," + more);
        ValueExact(exit, s, more);
      } else {
        assert s <= t;
        ValueExact(exit, s, "");
      }
    }
  }

  // ---------------------------------------------------------------- the origin

  /** What one dial leaves the origin with: ssh's exit code, the last line on stdout, ssh's own
      diagnostics in lower case, whether the deadline passed, whether the capture cap cut stdout off. */
  datatype Capture = Capture(code: int, stdout: string, stderr: string, timedOut: bool, truncated: bool)

  predicate PreSessionFailure(stderr: string) {
    Contains(stderr, "connection refused") || Contains(stderr, "no route to host")
    || Contains(stderr, "connection timed out") || Contains(stderr, "could not resolve hostname")
    || Contains(stderr, "permission denied (publickey") || Contains(stderr, "connect to host")
  }

  predicate HostKeyTrouble(stderr: string) {
    Contains(stderr, "host key verification failed") || Contains(stderr, "remote host identification has changed")
    || Contains(stderr, "no matching host key") || Contains(stderr, "key_from_blob")
  }

  datatype Class = TimedOut | Answered | HostKey | ConnectFailure | Unreachable | Nothing

  /** classifySshOutcome. */
  function Classify(c: Capture): Class {
    if c.timedOut then TimedOut
    else if Trim(c.stdout) != "" then Answered
    else if c.code == 0 then Nothing
    else if HostKeyTrouble(c.stderr) then HostKey
    else if c.code == 255 then if PreSessionFailure(c.stderr) then ConnectFailure else Unreachable
    else Nothing
  }

  /** The exit code a dial reports: from the parsed reply, or salvaged from a truncated one. */
  function DialExit(parse: string -> Option<Option<int>>, c: Capture): Option<int> {
    match Classify(c)
    case Answered =>
      (match parse(c.stdout)
       case Some(exit) => exit
       case None =>
         if c.truncated && Salvage(c.stdout).Some? then Salvage(c.stdout).value else None)
    case Nothing => None
    case _ => None
  }

  /** executeRemote: the fallback is dialled only after a proven connect failure. */
  function OriginExit(parse: string -> Option<Option<int>>, first: Capture, fallback: Option<Capture>): Option<int> {
    if Classify(first).ConnectFailure? && fallback.Some? then DialExit(parse, fallback.value)
    else DialExit(parse, first)
  }

  /** JSON.parse reads this reply whole and rejects any proper part of it: an object's text is not the
      beginning of another's. */
  ghost predicate Reads(parse: string -> Option<Option<int>>, exit: Option<int>, fields: string) {
    forall part :: part <= Envelope(exit, fields) && parse(part).Some? ==> parse(part) == Some(exit)
  }

  /** What a dial captured came from a reply the target sent for this run, whole or in part. */
  ghost predicate CameFrom(w: World, id: string, parse: string -> Option<Option<int>>, c: Capture) {
    c.stdout == "" ||
    exists r, fields ::
      r in w.replies && r.runId == id && c.stdout <= Envelope(r.exitCode, fields) && Reads(parse, r.exitCode, fields)
  }

  /** One dial: an exit code it reports was carried by a reply. */
  lemma DialExitIsSent(w: World, id: string, parse: string -> Option<Option<int>>, c: Capture)
    requires CameFrom(w, id, parse, c) && DialExit(parse, c).Some?
    ensures exists r :: r in w.replies && r.runId == id && r.exitCode == DialExit(parse, c)
  {
    assert Classify(c).Answered?;
    assert c.stdout != "" by { assert Trim("") == ""; }
    var r, fields :| r in w.replies && r.runId == id && c.stdout <= Envelope(r.exitCode, fields)
                     && Reads(parse, r.exitCode, fields);
    SalvageIsSound(r.exitCode, fields, c.stdout);
    assert parse(c.stdout).Some? ==> parse(c.stdout) == Some(r.exitCode);
  }

  /** End to end: an exit code the origin reports for a run is the exit code of the single execution on the
      target, over either transport, from a whole reply or a truncated one, first answer or replay. */
  lemma OriginReportsTheExecution(run: seq<World>, moves: seq<Move>, id: string, k: nat,
                                  parse: string -> Option<Option<int>>, first: Capture, fallback: Option<Capture>)
    requires IsRun(run, moves) && k < |run| && Unused(run[0], id)
    requires forall i :: 0 <= i < |moves| ==> moves[i] != Prune(id)
    requires CameFrom(run[k], id, parse, first)
    requires fallback.Some? ==> CameFrom(run[k], id, parse, fallback.value)
    requires OriginExit(parse, first, fallback).Some?
    ensures Legs(run[k], id) == 1 && id in run[k].exits
    ensures run[k].exits[id] == OriginExit(parse, first, fallback)
  {
    AtMostOnce(run, moves, id, k);
    if Classify(first).ConnectFailure? && fallback.Some? {
      DialExitIsSent(run[k], id, parse, fallback.value);
    } else {
      DialExitIsSent(run[k], id, parse, first);
    }
  }

  /** A reply that arrives whole is reported as it is, whatever ssh's own exit code and diagnostics say, unless the
      deadline had passed. */
  lemma WholeReplyIsReported(parse: string -> Option<Option<int>>, c: Capture, exit: Option<int>, fields: string)
    requires c.stdout == Envelope(exit, fields) && parse(c.stdout) == Some(exit) && !c.timedOut
    ensures DialExit(parse, c) == exit
  {
    EnvelopeIsText(exit, fields, c.stdout);
  }

  /** One the capture cap cut off is reported too, if the exit code came through. */
  lemma CutOffReplyIsReported(parse: string -> Option<Option<int>>, c: Capture, exit: Option<int>, fields: string)
    requires c.stdout <= Envelope(exit, fields) && |c.stdout| > |ENVELOPE_HEAD| + |ExitText(exit)|
    requires parse(c.stdout) == None && c.truncated && !c.timedOut && Digits(exit) <= 10
    ensures DialExit(parse, c) == exit
  {
    SalvageExactly(exit, fields, c.stdout);
    EnvelopeIsText(exit, fields, c.stdout);
  }

  lemma EnvelopeIsText(exit: Option<int>, fields: string, captured: string)
    requires captured != "" && captured <= Envelope(exit, fields)
    ensures Trim(captured) != ""
  {
    assert captured[0] == Envelope(exit, fields)[0] == '{';
    TrimKeeps(captured, 0);
  }

  /** Nothing is reported past the deadline, from a silent dial, or from text that is neither a whole reply nor a
      salvageable part of one. */
  lemma NothingElseIsReported(parse: string -> Option<Option<int>>, c: Capture)
    requires c.timedOut || Trim(c.stdout) == ""
             || (parse(c.stdout) == None && (!c.truncated || Salvage(c.stdout) == None))
    ensures DialExit(parse, c) == None
  {
  }

  const BEFORE_A_SESSION := ["connection refused", "no route to host", "connection timed out",
                             "could not resolve hostname", "permission denied (publickey", "connect to host"]

  const WRONG_HOST := ["host key verification failed", "remote host identification has changed",
                       "no matching host key", "key_from_blob"]

  predicate Says(stderr: string, phrases: seq<string>) { exists p :: p in phrases && Contains(stderr, p) }

  /** The dial failed before there was a session: in time, with ssh's own exit code, no output, a diagnostic that
      proves it, and none that casts doubt on the host. */
  predicate NothingRan(c: Capture) {
    !c.timedOut && Trim(c.stdout) == "" && c.code == 255
    && Says(c.stderr, BEFORE_A_SESSION) && !Says(c.stderr, WRONG_HOST)
  }

  /** The second transport counts exactly if the first dial proves that nothing ran; otherwise it is never dialled
      and what the first one left is reported. */
  lemma FallbackExactly(parse: string -> Option<Option<int>>, first: Capture, second: Capture)
    ensures OriginExit(parse, first, Some(second)) ==
            if NothingRan(first) then DialExit(parse, second) else DialExit(parse, first)
    ensures OriginExit(parse, first, None) == DialExit(parse, first)
    ensures NothingRan(first) ==> DialExit(parse, first) == None
  {
    PhrasesAreListed(first.stderr);
    hide Contains, Trim, Salvage;
  }

  lemma PhrasesAreListed(stderr: string)
    ensures PreSessionFailure(stderr) <==> Says(stderr, BEFORE_A_SESSION)
    ensures HostKeyTrouble(stderr) <==> Says(stderr, WRONG_HOST)
  {
    hide Contains;
    var b, h := BEFORE_A_SESSION, WRONG_HOST;
    assert b[0] in b && b[1] in b && b[2] in b && b[3] in b && b[4] in b && b[5] in b;
    assert h[0] in h && h[1] in h && h[2] in h && h[3] in h;
  }

  /** A run nobody disturbs: delivered once, claimed, run, recorded or not, answered, and its reply captured whole,
      it is reported as it ended. */
  lemma CleanRunIsReported(w: World, p: nat, runId: string, leg: Outcome, recordable: bool,
                           w0: World, w1: World, w2: World, w3: World, w4: World, w5: World,
                           parse: string -> Option<Option<int>>, c: Capture, fields: string)
    requires runId !in w.markers && Goes(w, p, Deliver(runId), w0) && Goes(w0, p, Claim, w1)
    requires Goes(w1, p, StartLeg, w2) && Goes(w2, p, FinishLeg(leg), w3)
    requires Goes(w3, p, if recordable then Record else RecordFails, w4) && Goes(w4, p, SendReply, w5)
    requires c.stdout == Envelope(leg, fields) && parse(c.stdout) == Some(leg) && !c.timedOut
    ensures Legs(w5, runId) == Legs(w, runId) + 1 && Reply(runId, leg) in w5.replies
    ensures OriginExit(parse, c, None) == leg
  {
    WonInSteps(w, p, runId, leg, recordable, w0, w1, w2, w3, w4, w5);
    hide Goes, Envelope;
    WholeReplyIsReported(parse, c, leg, fields);
  }
}
