/** Installer enrollments: a store of single-use credentials, kept in memory and rewritten to a file on every
    change. Mint, revoke and burn each run whole, one after another; the file write may fail after the memory
    has changed, and a restart reads back whatever the file holds. */
module Enrollments {
  import opened Wrappers

  const ENROLL_TTL_MS := 86_400_000
  const ENROLL_TOMBSTONE_MS := 604_800_000
  const MAX_LIVE_ENROLLMENTS := 32

  datatype Record = Record(
    id: string, machine: string, meshIp: string, createdMs: int, expiresMs: int,
    usedMs: Option<int>, usedBy: Option<string>, revokedMs: Option<int>)

  datatype EnrollState = Live | Used | Revoked | Expired

  function StateOf(r: Record, nowMs: int): EnrollState {
    if r.revokedMs.Some? then Revoked
    else if r.usedMs.Some? then Used
    else if nowMs > r.expiresMs then Expired
    else Live
  }

  predicate IsLive(r: Record, nowMs: int) { StateOf(r, nowMs).Live? }

  // ---------------------------------------------------------------- the store as a value

  function LiveOf(records: seq<Record>, nowMs: int): (r: seq<Record>) {
    if records == [] then []
    else (if IsLive(records[0], nowMs) then [records[0]] else []) + LiveOf(records[1..], nowMs)
  }

  function Prune(records: seq<Record>, nowMs: int): (r: seq<Record>) {
    if records == [] then []
    else (if records[0].expiresMs > nowMs - ENROLL_TOMBSTONE_MS then [records[0]] else []) + Prune(records[1..], nowMs)
  }

  /** `records.find((r) => r.id === id)`: the place of the first record with the id, or |records|. */
  function FindId(records: seq<Record>, id: string): (k: nat)
    ensures k <= |records| && (k < |records| ==> records[k].id == id)
    ensures forall i :: 0 <= i < k ==> records[i].id != id
  {
    if records == [] || records[0].id == id then 0 else 1 + FindId(records[1..], id)
  }

  /** What a token is minted for. */
  datatype Request = Request(machine: string, meshIp: string)

  datatype Call =
    | Mint(id: string, request: Request)
    | Revoke(id: string)
    | Burn(id: string, peerMachine: string)

  datatype Outcome =
    | Refused          // an error result, or false
    | Done             // the record, or true
    | Thrown           // the file could not be written

  datatype Store = Store(records: seq<Record>, file: seq<Record>)

  predicate MachineTaken(records: seq<Record>, machine: string, nowMs: int) {
    exists r :: r in records && IsLive(r, nowMs) && r.machine == machine
  }

  /** The records a call leaves in memory before pruning, if it changes any. */
  function Changed(records: seq<Record>, call: Call, nowMs: int): Option<seq<Record>> {
    match call
    case Mint(id, request) =>
      if |LiveOf(records, nowMs)| >= MAX_LIVE_ENROLLMENTS || MachineTaken(records, request.machine, nowMs) then None
      else Some(records + [Record(id, request.machine, request.meshIp, nowMs, nowMs + ENROLL_TTL_MS, None, None, None)])
    case Revoke(id) =>
      var k := FindId(records, id);
      if k == |records| || records[k].revokedMs.Some? || records[k].usedMs.Some? then None
      else Some(records[k := records[k].(revokedMs := Some(nowMs))])
    case Burn(id, peer) =>
      var k := FindId(records, id);
      if k == |records| || !IsLive(records[k], nowMs) then None
      else Some(records[k := records[k].(usedMs := Some(nowMs), usedBy := Some(peer))])
  }

  /** One serialised call: change, prune, write. */
  function Next(s: Store, call: Call, nowMs: int, writes: bool): (Store, Outcome) {
    match Changed(s.records, call, nowMs)
    case None => (s, Refused)
    case Some(changed) =>
      var kept := Prune(changed, nowMs);
      if writes then (Store(kept, kept), Done) else (Store(kept, s.file), Thrown)
  }

  // ---------------------------------------------------------------- the object

  class EnrollmentStore {
    var records: seq<Record>
    var file: seq<Record>

    function View(): Store reads this { Store(records, file) }

    /** A store whose first load has finished. */
    constructor (file: seq<Record>)
      ensures View() == Store(file, file)
    {
      this.records, this.file := file, file;
    }

    method LiveRecords(nowMs: int) returns (live: seq<Record>)
      ensures live == LiveOf(records, nowMs)
    {
      live := [];
      var i := |records|;
      while i > 0
        invariant 0 <= i <= |records| && live == LiveOf(records[i..], nowMs)
      {
        i := i - 1;
        assert records[i..][0] == records[i] && records[i..][1..] == records[i + 1..];
        if IsLive(records[i], nowMs) { live := [records[i]] + live; }
      }
      assert records[0..] == records;
    }

    method Persist(changed: seq<Record>, nowMs: int, writes: bool) returns (outcome: Outcome)
      modifies this
      ensures records == Prune(changed, nowMs)
      ensures outcome == (if writes then Done else Thrown) && file == (if writes then records else old(file))
    {
      records := Prune(changed, nowMs);
      if !writes { return Thrown; }
      file := records;
      return Done;
    }

    method MintToken(id: string, request: Request, nowMs: int, writes: bool) returns (outcome: Outcome)
      modifies this
      ensures (View(), outcome) == Next(old(View()), Mint(id, request), nowMs, writes)
    {
      var live := LiveRecords(nowMs);
      if |live| >= MAX_LIVE_ENROLLMENTS { return Refused; }
      for i := 0 to |live|
        invariant records == old(records) && file == old(file)
        invariant forall j :: 0 <= j < i ==> live[j].machine != request.machine
      {
        if live[i].machine == request.machine {
          LiveOfElements(records, nowMs);
          return Refused;
        }
      }
      LiveOfElements(records, nowMs);
      var record := Record(id, request.machine, request.meshIp, nowMs, nowMs + ENROLL_TTL_MS, None, None, None);
      outcome := Persist(records + [record], nowMs, writes);
    }

    method RevokeToken(id: string, nowMs: int, writes: bool) returns (outcome: Outcome)
      modifies this
      ensures (View(), outcome) == Next(old(View()), Revoke(id), nowMs, writes)
    {
      var k := FindId(records, id);
      if k == |records| || records[k].revokedMs.Some? || records[k].usedMs.Some? { return Refused; }
      records := records[k := records[k].(revokedMs := Some(nowMs))];
      outcome := Persist(records, nowMs, writes);
    }

    method BurnToken(id: string, peerMachine: string, nowMs: int, writes: bool) returns (outcome: Outcome)
      modifies this
      ensures (View(), outcome) == Next(old(View()), Burn(id, peerMachine), nowMs, writes)
    {
      var k := FindId(records, id);
      if k == |records| || !IsLive(records[k], nowMs) { return Refused; }
      records := records[k := records[k].(usedMs := Some(nowMs), usedBy := Some(peerMachine))];
      outcome := Persist(records, nowMs, writes);
    }

    /** What a hello is given to check its MAC against. */
    method Lookup(id: string, nowMs: int) returns (grant: Option<Record>)
      ensures var k := FindId(records, id);
              grant == if k < |records| && IsLive(records[k], nowMs) then Some(records[k]) else None
    {
      var k := FindId(records, id);
      if k == |records| || !IsLive(records[k], nowMs) { return None; }
      return Some(records[k]);
    }

    /** The second half of an enrollment hello, with the grant its lookup returned, however long ago. */
    method FinishHello(grant: Record, macOk: bool, peer: Request, nowMs: int, writes: bool) returns (completed: bool)
      modifies this
      ensures var bound := macOk && peer == Request(grant.machine, grant.meshIp);
              var (after, outcome) := Next(old(View()), Burn(grant.id, peer.machine), nowMs, writes);
              completed == (bound && outcome.Done?) && View() == if bound then after else old(View())
    {
      if !macOk { return false; }
      if peer.machine != grant.machine || peer.meshIp != grant.meshIp { return false; }
      var outcome := BurnToken(grant.id, peer.machine, nowMs, writes);
      return outcome.Done?;
    }
  }

  lemma {:induction false} LiveOfElements(records: seq<Record>, nowMs: int)
    ensures forall r :: r in LiveOf(records, nowMs) <==> r in records && IsLive(r, nowMs)
  {
    if records != [] {
      LiveOfElements(records[1..], nowMs);
      assert records == [records[0]] + records[1..];
    }
  }

  // ---------------------------------------------------------------- what every call keeps

  /** Ids differ, and so do the machines of any two live records. */
  predicate OneEach(records: seq<Record>, nowMs: int) {
    records != [] ==>
      && (forall r :: r in records[1..] ==>
            r.id != records[0].id
            && (IsLive(records[0], nowMs) && IsLive(r, nowMs) ==> r.machine != records[0].machine))
      && OneEach(records[1..], nowMs)
  }

  predicate WellKept(records: seq<Record>, nowMs: int) {
    OneEach(records, nowMs) && |LiveOf(records, nowMs)| <= MAX_LIVE_ENROLLMENTS
  }

  lemma {:induction false} TimeKeeps(records: seq<Record>, nowMs: int, laterMs: int)
    requires OneEach(records, nowMs) && nowMs <= laterMs
    ensures OneEach(records, laterMs) && |LiveOf(records, laterMs)| <= |LiveOf(records, nowMs)|
  {
    if records != [] {
      TimeKeeps(records[1..], nowMs, laterMs);
      assert forall r :: r in records && IsLive(r, laterMs) ==> IsLive(r, nowMs);
    }
  }

  lemma {:induction false} PruneKeeps(records: seq<Record>, nowMs: int)
    requires OneEach(records, nowMs)
    ensures OneEach(Prune(records, nowMs), nowMs)
    ensures |LiveOf(Prune(records, nowMs), nowMs)| <= |LiveOf(records, nowMs)|
    ensures forall r :: r in Prune(records, nowMs) ==> r in records
  {
    if records != [] {
      PruneKeeps(records[1..], nowMs);
      var rest := Prune(records[1..], nowMs);
      if Prune(records, nowMs) != rest {
        assert ([records[0]] + rest)[1..] == rest;
      }
    }
  }

  /** A record marked used or revoked in place. */
  lemma {:induction false} MarkKeeps(records: seq<Record>, k: nat, r: Record, nowMs: int)
    requires OneEach(records, nowMs) && k < |records| && r.id == records[k].id && !IsLive(r, nowMs)
    ensures OneEach(records[k := r], nowMs)
    ensures |LiveOf(records[k := r], nowMs)| <= |LiveOf(records, nowMs)|
    ensures forall x :: x in records[k := r] ==> x == r || (x in records && x.id != r.id)
  {
    if k == 0 {
      assert records[0 := r][1..] == records[1..];
    } else {
      assert records[k := r][1..] == records[1..][k - 1 := r];
      MarkKeeps(records[1..], k - 1, r, nowMs);
      assert records[k] in records[1..];
    }
  }

  lemma {:induction false} AppendKeeps(records: seq<Record>, r: Record, nowMs: int)
    requires OneEach(records, nowMs) && (forall x :: x in records ==> x.id != r.id)
    requires !MachineTaken(records, r.machine, nowMs)
    ensures OneEach(records + [r], nowMs)
    ensures |LiveOf(records + [r], nowMs)| <= |LiveOf(records, nowMs)| + 1
  {
    if records == [] {
      assert records + [r] == [r];
    } else {
      assert (records + [r])[1..] == records[1..] + [r];
      assert records[0] in records;
      AppendKeeps(records[1..], r, nowMs);
    }
  }

  // ---------------------------------------------------------------- what every call does

  /** Neither revoked nor used, and not past its time. */
  predicate Redeemable(r: Record, nowMs: int) { r.revokedMs.None? && r.usedMs.None? && nowMs <= r.expiresMs }

  ghost function LiveSet(records: seq<Record>, nowMs: int): set<Record> {
    set r | r in records && Redeemable(r, nowMs)
  }

  /** When a call is accepted. */
  ghost predicate Accepts(records: seq<Record>, call: Call, nowMs: int) {
    match call
    case Mint(_, request) =>
      |LiveSet(records, nowMs)| < 32 && forall r :: r in LiveSet(records, nowMs) ==> r.machine != request.machine
    case Revoke(id) => exists r :: r in records && r.id == id && r.revokedMs.None? && r.usedMs.None?
    case Burn(id, _) => exists r :: r in records && r.id == id && Redeemable(r, nowMs)
  }

  /** The record an accepted call leaves in place of `r`, if it is the one called for. */
  function Marked(r: Record, call: Call, nowMs: int): Record {
    match call
    case Mint(_, _) => r
    case Revoke(id) => if r.id == id then r.(revokedMs := Some(nowMs)) else r
    case Burn(id, peer) => if r.id == id then r.(usedMs := Some(nowMs), usedBy := Some(peer)) else r
  }

  /** What an accepted call leaves in memory: the records there were, the one called for marked; a new one, good
      for a day, if one was minted; and of all these, those not expired for a week or more. */
  ghost predicate Left(records: seq<Record>, call: Call, nowMs: int, x: Record) {
    && x.expiresMs > nowMs - 604_800_000
    && ((exists r :: r in records && x == Marked(r, call, nowMs))
        || (call.Mint? && x == Record(call.id, call.request.machine, call.request.meshIp,
                                      nowMs, nowMs + 86_400_000, None, None, None)))
  }

  /** Each call, exactly: when it is refused, which changes nothing; and what an accepted one leaves in memory and,
      if the write succeeds, in the file. */
  lemma CallsExactly(s: Store, call: Call, nowMs: int, writes: bool)
    requires OneEach(s.records, nowMs)
    ensures var (s', outcome) := Next(s, call, nowMs, writes);
            && (outcome.Refused? <==> !Accepts(s.records, call, nowMs))
            && (outcome.Refused? ==> s' == s)
            && (!outcome.Refused? ==>
                  && (outcome.Done? <==> writes) && s'.file == (if writes then s'.records else s.file)
                  && forall x :: x in s'.records <==> Left(s.records, call, nowMs, x))
  {
    AcceptedExactly(s.records, call, nowMs);
    var c := Changed(s.records, call, nowMs);
    if c.Some? {
      PrunedExactly(c.value, nowMs);
      ChangedExactly(s.records, call, nowMs);
    }
    hide Changed, Accepts, Prune;
  }

  lemma {:induction false} PrunedExactly(records: seq<Record>, nowMs: int)
    ensures forall x :: x in Prune(records, nowMs) <==> x in records && x.expiresMs > nowMs - 604_800_000
  {
    if records != [] {
      PrunedExactly(records[1..], nowMs);
      assert records == [records[0]] + records[1..];
    }
  }

  lemma {:induction false} LiveOfCounts(records: seq<Record>, nowMs: int)
    requires OneEach(records, nowMs)
    ensures |LiveOf(records, nowMs)| == |LiveSet(records, nowMs)|
  {
    if records == [] {
      assert LiveSet(records, nowMs) == {};
    } else {
      LiveOfCounts(records[1..], nowMs);
      assert records == [records[0]] + records[1..];
      assert LiveSet(records, nowMs)
          == LiveSet(records[1..], nowMs) + if Redeemable(records[0], nowMs) then {records[0]} else {};
    }
  }

  /** The first record with an id is the only one. */
  lemma {:induction false} OnlyOneHasId(records: seq<Record>, nowMs: int, id: string)
    requires OneEach(records, nowMs)
    ensures var k := FindId(records, id);
            forall i :: 0 <= i < |records| && records[i].id == id ==> i == k
  {
    if records != [] {
      OnlyOneHasId(records[1..], nowMs, id);
      forall i | 0 <= i < |records| && records[i].id == id ensures i == FindId(records, id) {
        if i > 0 { assert records[1..][i - 1] == records[i] && records[i] in records[1..]; }
      }
    }
  }

  lemma AcceptedExactly(records: seq<Record>, call: Call, nowMs: int)
    requires OneEach(records, nowMs)
    ensures Changed(records, call, nowMs).Some? <==> Accepts(records, call, nowMs)
  {
    match call
    case Mint(_, request) =>
      LiveOfCounts(records, nowMs);
      assert MachineTaken(records, request.machine, nowMs) <==>
             exists r :: r in LiveSet(records, nowMs) && r.machine == request.machine;
    case Revoke(id) => OnlyOneHasId(records, nowMs, id);
    case Burn(id, _) => OnlyOneHasId(records, nowMs, id);
  }

  lemma ChangedExactly(records: seq<Record>, call: Call, nowMs: int)
    requires OneEach(records, nowMs) && Changed(records, call, nowMs).Some?
    ensures forall x :: x in Changed(records, call, nowMs).value <==>
              (exists r :: r in records && x == Marked(r, call, nowMs))
              || (call.Mint? && x == Record(call.id, call.request.machine, call.request.meshIp,
                                            nowMs, nowMs + 86_400_000, None, None, None))
  {
    var c := Changed(records, call, nowMs).value;
    if !call.Mint? {
      OnlyOneHasId(records, nowMs, call.id);
      assert forall i :: 0 <= i < |records| ==> c[i] == Marked(records[i], call, nowMs);
      assert |c| == |records|;
      forall x | x in c ensures exists r :: r in records && x == Marked(r, call, nowMs) {
        var i :| 0 <= i < |c| && c[i] == x;
        assert records[i] in records;
      }
      forall r | r in records ensures Marked(r, call, nowMs) in c {
        var i :| 0 <= i < |records| && records[i] == r;
        assert c[i] in c;
      }
    } else {
      forall r | r in records ensures r == Marked(r, call, nowMs) {}
    }
  }

  // ---------------------------------------------------------------- runs

  datatype Event = Serve(call: Call, writes: bool) | Restart

  /** The store, and every id ever minted or loaded. */
  datatype Ledger = Ledger(store: Store, seen: set<string>)

  /** Ids are random; a run is one in which none comes up twice. */
  predicate Enabled(l: Ledger, e: Event) { e.Serve? && e.call.Mint? ==> e.call.id !in l.seen }

  function After(l: Ledger, e: Event, nowMs: int): Ledger {
    match e
    case Restart => l.(store := Store(l.store.file, l.store.file))
    case Serve(call, writes) =>
      Ledger(Next(l.store, call, nowMs, writes).0, if call.Mint? then l.seen + {call.id} else l.seen)
  }

  function OutcomeOf(l: Ledger, e: Event, nowMs: int): Outcome {
    match e case Restart => Refused case Serve(call, writes) => Next(l.store, call, nowMs, writes).1
  }

  predicate Within(records: seq<Record>, ids: set<string>) { forall r :: r in records ==> r.id in ids }

  predicate Inv(l: Ledger, nowMs: int) {
    && WellKept(l.store.records, nowMs) && Within(l.store.records, l.seen)
    && WellKept(l.store.file, nowMs) && Within(l.store.file, l.seen)
  }

  lemma ChangedKeeps(records: seq<Record>, call: Call, nowMs: int, seen: set<string>)
    requires WellKept(records, nowMs) && Within(records, seen) && (call.Mint? ==> call.id !in seen)
    ensures var c := Changed(records, call, nowMs);
            c.Some? ==> WellKept(c.value, nowMs) && Within(c.value, if call.Mint? then seen + {call.id} else seen)
  {
    match call
    case Mint(id, request) =>
      if Changed(records, call, nowMs).Some? {
        ghost var minted := Record(id, request.machine, request.meshIp, nowMs, nowMs + ENROLL_TTL_MS, None, None, None);
        AppendKeeps(records, minted, nowMs);
      }
    case Revoke(id) =>
      var k := FindId(records, id);
      if k < |records| { MarkKeeps(records, k, records[k].(revokedMs := Some(nowMs)), nowMs); }
    case Burn(id, peer) =>
      var k := FindId(records, id);
      if k < |records| { MarkKeeps(records, k, records[k].(usedMs := Some(nowMs), usedBy := Some(peer)), nowMs); }
  }

  lemma EventKeepsInv(l: Ledger, e: Event, beforeMs: int, nowMs: int)
    requires Inv(l, beforeMs) && beforeMs <= nowMs && Enabled(l, e)
    ensures Inv(After(l, e, nowMs), nowMs)
  {
    TimeKeeps(l.store.records, beforeMs, nowMs);
    TimeKeeps(l.store.file, beforeMs, nowMs);
    if e.Serve? {
      ChangedKeeps(l.store.records, e.call, nowMs, l.seen);
      var c := Changed(l.store.records, e.call, nowMs);
      if c.Some? { PruneKeeps(c.value, nowMs); }
    }
  }

  ghost predicate IsRun(run: seq<Ledger>, events: seq<Event>, clock: seq<int>) {
    && |run| == |clock| == |events| + 1
    && Inv(run[0], clock[0])
    && forall i :: 0 <= i < |events| ==>
         Enabled(run[i], events[i]) && clock[i] <= clock[i + 1] && run[i + 1] == After(run[i], events[i], clock[i + 1])
  }

  /** In every run at most 32 records are live, no two of them for one machine, whatever writes fail and
      whenever the process restarts. */
  lemma {:induction false} LiveStaysBounded(run: seq<Ledger>, events: seq<Event>, clock: seq<int>, i: nat)
    requires IsRun(run, events, clock) && i < |run|
    ensures Inv(run[i], clock[i])
  {
    if i > 0 {
      LiveStaysBounded(run, events, clock, i - 1);
      EventKeepsInv(run[i - 1], events[i - 1], clock[i - 1], clock[i]);
    }
  }

  lemma {:induction false} OneEachMeans(records: seq<Record>, nowMs: int, i: nat, j: nat)
    requires OneEach(records, nowMs) && i < j < |records|
    ensures records[i].id != records[j].id
    ensures IsLive(records[i], nowMs) && IsLive(records[j], nowMs) ==> records[i].machine != records[j].machine
  {
    if i == 0 {
      assert records[j] in records[1..];
    } else {
      OneEachMeans(records[1..], nowMs, i - 1, j - 1);
    }
  }

  // ---------------------------------------------------------------- single use

  predicate MarkedDone(records: seq<Record>, id: string) {
    forall r :: r in records && r.id == id ==> r.usedMs.Some? || r.revokedMs.Some?
  }

  /** Used or revoked, in memory and on disk. */
  predicate Spent(l: Ledger, id: string) {
    id in l.seen && MarkedDone(l.store.records, id) && MarkedDone(l.store.file, id)
  }

  lemma ChangedKeepsDone(records: seq<Record>, call: Call, nowMs: int, id: string)
    requires OneEach(records, nowMs) && MarkedDone(records, id) && (call.Mint? ==> call.id != id)
    ensures var c := Changed(records, call, nowMs); c.Some? ==> MarkedDone(c.value, id)
  {
    if !call.Mint? {
      var k := FindId(records, call.id);
      if k < |records| {
        assert records[k] in records;
      }
    }
  }

  lemma SpentStays(l: Ledger, e: Event, nowMs: int, id: string)
    requires Inv(l, nowMs) && Enabled(l, e) && Spent(l, id)
    ensures Spent(After(l, e, nowMs), id)
    ensures e.Serve? && e.call.Burn? && e.call.id == id ==> !OutcomeOf(l, e, nowMs).Done?
  {
    if e.Serve? {
      ChangedKeepsDone(l.store.records, e.call, nowMs, id);
      ChangedKeeps(l.store.records, e.call, nowMs, l.seen);
      var c := Changed(l.store.records, e.call, nowMs);
      if c.Some? { PruneKeeps(c.value, nowMs); }
      if e.call.Burn? {
        var k := FindId(l.store.records, e.call.id);
        if k < |l.store.records| { assert l.store.records[k] in l.store.records; }
      }
    }
  }

  predicate Spends(e: Event, id: string) { e.Serve? && !e.call.Mint? && e.call.id == id }

  lemma SpendingSpends(l: Ledger, e: Event, nowMs: int, id: string)
    requires Inv(l, nowMs) && Spends(e, id) && OutcomeOf(l, e, nowMs).Done?
    ensures Spent(After(l, e, nowMs), id)
  {
    var records := l.store.records;
    var k := FindId(records, id);
    assert records[k] in records;
    var r := if e.call.Burn? then records[k].(usedMs := Some(nowMs), usedBy := Some(e.call.peerMachine))
             else records[k].(revokedMs := Some(nowMs));
    MarkKeeps(records, k, r, nowMs);
    assert Changed(records, e.call, nowMs) == Some(records[k := r]);
    PruneKeeps(records[k := r], nowMs);
  }

  lemma {:induction false} SpentForGood(run: seq<Ledger>, events: seq<Event>, clock: seq<int>, i: nat, j: nat,
                                        id: string)
    requires IsRun(run, events, clock) && i <= j < |run| && Spent(run[i], id)
    ensures Spent(run[j], id)
  {
    if i < j {
      SpentForGood(run, events, clock, i, j - 1, id);
      AtClock(run, events, clock, j - 1);
      SpentStays(run[j - 1], events[j - 1], clock[j], id);
    }
  }

  /** The store as it is when event `i` runs. */
  lemma AtClock(run: seq<Ledger>, events: seq<Event>, clock: seq<int>, i: nat)
    requires IsRun(run, events, clock) && i < |events|
    ensures Inv(run[i], clock[i + 1])
  {
    LiveStaysBounded(run, events, clock, i);
    TimeKeeps(run[i].store.records, clock[i], clock[i + 1]);
    TimeKeeps(run[i].store.file, clock[i], clock[i + 1]);
  }

  /** Each id burns successfully at most once, and never after a successful revocation, across any failed
      writes and restarts in between. */
  lemma BurnsOnce(run: seq<Ledger>, events: seq<Event>, clock: seq<int>, i: nat, j: nat, id: string)
    requires IsRun(run, events, clock) && i < j < |events|
    requires Spends(events[i], id) && OutcomeOf(run[i], events[i], clock[i + 1]).Done?
    requires Spends(events[j], id) && events[j].call.Burn?
    ensures !OutcomeOf(run[j], events[j], clock[j + 1]).Done?
  {
    AtClock(run, events, clock, i);
    SpendingSpends(run[i], events[i], clock[i + 1], id);
    SpentForGood(run, events, clock, i + 1, j, id);
    AtClock(run, events, clock, j);
    SpentStays(run[j], events[j], clock[j + 1], id);
  }

  predicate ExpiresAt(records: seq<Record>, id: string, expiresMs: int) {
    forall r :: r in records && r.id == id ==> r.expiresMs == expiresMs
  }

  predicate Expiry(l: Ledger, id: string, expiresMs: int) {
    id in l.seen && ExpiresAt(l.store.records, id, expiresMs) && ExpiresAt(l.store.file, id, expiresMs)
  }

  lemma ExpiryStays(l: Ledger, e: Event, nowMs: int, id: string, expiresMs: int)
    requires Inv(l, nowMs) && Enabled(l, e) && Expiry(l, id, expiresMs)
    ensures Expiry(After(l, e, nowMs), id, expiresMs)
  {
    if e.Serve? {
      var records := l.store.records;
      if !e.call.Mint? {
        var k := FindId(records, e.call.id);
        if k < |records| { assert records[k] in records; }
      }
      ChangedKeeps(records, e.call, nowMs, l.seen);
      var c := Changed(records, e.call, nowMs);
      if c.Some? {
        PruneKeeps(c.value, nowMs);
        assert ExpiresAt(c.value, id, expiresMs);
      }
    }
  }

  lemma {:induction false} ExpiryForGood(run: seq<Ledger>, events: seq<Event>, clock: seq<int>, i: nat, j: nat,
                                         id: string, expiresMs: int)
    requires IsRun(run, events, clock) && i <= j < |run| && Expiry(run[i], id, expiresMs)
    ensures Expiry(run[j], id, expiresMs)
  {
    if i < j {
      ExpiryForGood(run, events, clock, i, j - 1, id, expiresMs);
      AtClock(run, events, clock, j - 1);
      ExpiryStays(run[j - 1], events[j - 1], clock[j], id, expiresMs);
    }
  }

  /** A token minted in the run never burns later than its lifetime after the mint. */
  lemma BurnsInTime(run: seq<Ledger>, events: seq<Event>, clock: seq<int>, i: nat, j: nat, id: string)
    requires IsRun(run, events, clock) && i < j < |events|
    requires events[i].Serve? && events[i].call.Mint? && events[i].call.id == id
    requires Spends(events[j], id) && events[j].call.Burn? && OutcomeOf(run[j], events[j], clock[j + 1]).Done?
    ensures clock[j + 1] <= clock[i + 1] + ENROLL_TTL_MS
  {
    AtClock(run, events, clock, i);
    MintExpiry(run[i], events[i], clock[i + 1]);
    ExpiryForGood(run, events, clock, i + 1, j, id, clock[i + 1] + ENROLL_TTL_MS);
    var records := run[j].store.records;
    var k := FindId(records, id);
    assert records[k] in records;
  }

  lemma MintExpiry(l: Ledger, e: Event, nowMs: int)
    requires Inv(l, nowMs) && Enabled(l, e) && e.Serve? && e.call.Mint?
    ensures Expiry(After(l, e, nowMs), e.call.id, nowMs + ENROLL_TTL_MS)
  {
    var c := Changed(l.store.records, e.call, nowMs);
    ChangedKeeps(l.store.records, e.call, nowMs, l.seen);
    if c.Some? { PruneKeeps(c.value, nowMs); }
  }

  // ---------------------------------------------------------------- never back to live

  /** No record in memory with this id is live. */
  predicate NotLive(l: Ledger, id: string, nowMs: int) {
    id in l.seen && forall r :: r in l.store.records && r.id == id ==> !IsLive(r, nowMs)
  }

  predicate NoneLive(records: seq<Record>, id: string, nowMs: int) {
    forall r :: r in records && r.id == id ==> !IsLive(r, nowMs)
  }

  lemma CallRevivesNothing(records: seq<Record>, call: Call, nowMs: int, id: string)
    requires OneEach(records, nowMs) && NoneLive(records, id, nowMs) && (call.Mint? ==> call.id != id)
    ensures var c := Changed(records, call, nowMs); c.Some? ==> NoneLive(Prune(c.value, nowMs), id, nowMs)
  {
    var c := Changed(records, call, nowMs);
    if c.Some? {
      if call.Mint? {
        PrunedFrom(c.value, nowMs);
      } else {
        var k := FindId(records, call.id);
        assert records[k] in records;
        MarkKeeps(records, k, c.value[k], nowMs);
        assert c.value == records[k := c.value[k]];
        PrunedFrom(c.value, nowMs);
      }
    }
  }

  lemma {:induction false} PrunedFrom(records: seq<Record>, nowMs: int)
    ensures forall r :: r in Prune(records, nowMs) ==> r in records
  {
    if records != [] {
      PrunedFrom(records[1..], nowMs);
    }
  }

  /** Within one process nothing returns to live: not by any call, not by a failed write, not by time. A
      restart is the one exception, and then exactly if the file still holds the record live. */
  lemma NeverBackToLive(l: Ledger, e: Event, beforeMs: int, nowMs: int, id: string)
    requires Inv(l, beforeMs) && beforeMs <= nowMs && Enabled(l, e) && NotLive(l, id, beforeMs)
    ensures NotLive(After(l, e, nowMs), id, nowMs) <==> (e.Restart? ==> NoneLive(l.store.file, id, nowMs))
  {
    TimeKeeps(l.store.records, beforeMs, nowMs);
    assert NoneLive(l.store.records, id, nowMs);
    if e.Serve? {
      CallRevivesNothing(l.store.records, e.call, nowMs, id);
    }
  }

  lemma BurnOfOne(r: Record, nowMs: int, peer: string, writes: bool, file: seq<Record>)
    requires IsLive(r, nowMs)
    ensures var burned := r.(usedMs := Some(nowMs), usedBy := Some(peer));
            Next(Store([r], file), Burn(r.id, peer), nowMs, writes) ==
            (Store([burned], if writes then [burned] else file), if writes then Done else Thrown)
  {
    var burned := r.(usedMs := Some(nowMs), usedBy := Some(peer));
    assert FindId([r], r.id) == 0;
    assert [r][0 := burned] == [burned];
    assert [burned][1..] == [];
    assert Prune([burned], nowMs) == [burned];
  }

  /** The exception happens: a burn whose write fails throws, the hello is refused, and after a restart the
      same token is live and burns. */
  lemma LostWriteRevives(r: Record, nowMs: int, peer: string)
    requires IsLive(r, nowMs)
    ensures var l := Ledger(Store([r], [r]), {r.id});
            var burn := Serve(Burn(r.id, peer), false);
            var l1 := After(l, burn, nowMs);
            && OutcomeOf(l, burn, nowMs).Thrown? && NotLive(l1, r.id, nowMs)
            && OutcomeOf(After(l1, Restart, nowMs), Serve(Burn(r.id, peer), true), nowMs).Done?
  {
    BurnOfOne(r, nowMs, peer, false, [r]);
    BurnOfOne(r, nowMs, peer, true, [r]);
  }
}
