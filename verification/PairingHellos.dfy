/** The typed pairing code while hellos interleave. A hello looks the code up, awaits its key and a MAC, and
    only then acts; between any two awaits the code runs alone, so mints, cancellations, other hellos and any
    amount of time may come in between. */
module PairingHellos {
  import opened Wrappers

  const PAIR_CODE_TTL_MS := 300_000
  const PAIR_CODE_MAX_ATTEMPTS := 5

  // ---------------------------------------------------------------- what the object stands for

  /** A minted code: whether its key could be derived, when it expires, and how many wrong MACs it survives. */
  datatype Code = Code(keyUsable: bool, expiresMs: int, attemptsLeft: int)

  /** Every code minted so far, in order, and which of them is live. */
  datatype State = State(codes: seq<Code>, active: Option<nat>)

  predicate Valid(s: State) { s.active.Some? ==> s.active.value < |s.codes| }

  function Minted(s: State, keyUsable: bool, nowMs: int): State {
    State(s.codes + [Code(keyUsable, nowMs + PAIR_CODE_TTL_MS, PAIR_CODE_MAX_ATTEMPTS)], Some(|s.codes|))
  }

  function Cancelled(s: State): State { s.(active := None) }

  /** liveCode: expiry is noticed when someone looks. */
  function Looked(s: State, nowMs: int): State
    requires Valid(s)
  {
    if s.active.Some? && nowMs > s.codes[s.active.value].expiresMs then s.(active := None) else s
  }

  /** What the second half of a hello comes to. */
  datatype Answer = Refused | Charged | Completed

  /** handleHello from the awaits on, for a hello that looked up code `live`. */
  function Resolved(s: State, live: nat, macOk: bool, nowMs: int): (State, Answer)
    requires Valid(s) && live < |s.codes|
  {
    var c := s.codes[live];
    if !c.keyUsable || s.active != Some(live) then (s, Refused)
    else if nowMs > c.expiresMs then (s.(active := None), Refused)
    else if !macOk then
      var left := c.attemptsLeft - 1;
      (State(s.codes[live := c.(attemptsLeft := left)], if left <= 0 then None else s.active), Charged)
    else (s.(active := None), Completed)
  }

  // ---------------------------------------------------------------- the object

  class ActiveCode {
    const keyUsable: bool
    const expiresMs: int
    var attemptsLeft: int

    constructor (keyUsable: bool, expiresMs: int)
      ensures this.keyUsable == keyUsable && this.expiresMs == expiresMs && attemptsLeft == PAIR_CODE_MAX_ATTEMPTS
    {
      this.keyUsable, this.expiresMs, attemptsLeft := keyUsable, expiresMs, PAIR_CODE_MAX_ATTEMPTS;
    }

    function View(): Code reads this { Code(keyUsable, expiresMs, attemptsLeft) }
  }

  ghost function Views(codes: seq<ActiveCode>): (r: seq<Code>)
    reads codes
    ensures |r| == |codes| && forall i :: 0 <= i < |r| ==> r[i] == codes[i].View()
  {
    seq(|codes|, i requires 0 <= i < |codes| reads codes => codes[i].View())
  }

  class Pairing {
    var active: ActiveCode?
    // every code ever minted, the live one's place among them
    ghost var minted: seq<ActiveCode>
    ghost var place: Option<nat>

    ghost predicate Valid()
      reads this
    {
      && (forall i, j :: 0 <= i < j < |minted| ==> minted[i] != minted[j])
      && (match place case None => active == null case Some(k) => k < |minted| && active == minted[k])
    }

    ghost function View(): State
      reads this, minted
    {
      State(Views(minted), place)
    }

    constructor ()
      ensures Valid() && minted == [] && View() == State([], None)
    {
      active, minted, place := null, [], None;
    }

    method MintCode(keyUsable: bool, nowMs: int)
      requires Valid()
      modifies this
      ensures Valid() && old(minted) < minted && |minted| == |old(minted)| + 1 && fresh(minted[|old(minted)|])
      ensures View() == Minted(old(View()), keyUsable, nowMs)
    {
      var code := new ActiveCode(keyUsable, nowMs + PAIR_CODE_TTL_MS);
      active, minted, place := code, minted + [code], Some(|minted|);
    }

    method CancelCode()
      requires Valid()
      modifies this
      ensures Valid() && minted == old(minted) && View() == Cancelled(old(View()))
    {
      active, place := null, None;
    }

    /** The first half of a hello, and what the console's state poll does: the live code, if there is one. */
    method LiveCode(nowMs: int) returns (live: ActiveCode?)
      requires Valid()
      modifies this
      ensures Valid() && minted == old(minted) && View() == Looked(old(View()), nowMs)
      ensures match place case None => live == null case Some(k) => live == minted[k]
    {
      if active == null { return null; }
      if nowMs > active.expiresMs {
        active, place := null, None;
        return null;
      }
      return active;
    }

    /** The second half of a hello, resumed with whether the caller's MAC was right under the code's key. */
    method FinishHello(live: ActiveCode, macOk: bool, nowMs: int, ghost k: nat) returns (completed: bool)
      requires Valid() && k < |minted| && live == minted[k]
      modifies this, live
      ensures Valid() && minted == old(minted)
      ensures View() == Resolved(old(View()), k, macOk, nowMs).0
      ensures completed <==> Resolved(old(View()), k, macOk, nowMs).1.Completed?
    {
      ghost var before := View();
      if !live.keyUsable { return false; }
      if active != live { return false; }
      if nowMs > live.expiresMs {
        active, place := null, None;
        return false;
      }
      if !macOk {
        live.attemptsLeft := live.attemptsLeft - 1;
        if live.attemptsLeft <= 0 { active, place := null, None; }
        assert Views(minted) == before.codes[k := live.View()];
        return false;
      }
      active, place := null, None;
      return true;
    }
  }

  // ---------------------------------------------------------------- interleavings

  /** A hello past its lookup, holding the code it found. */
  datatype World = World(
    state: State, hellos: map<nat, nat>, charged: seq<nat>, completed: seq<nat>)

  /** One run of code between awaits, at whatever time the clock then shows. */
  datatype Action =
    | Mint(keyUsable: bool)
    | Cancel
    | Poll
    | Arrive(hello: nat)
    | Resume(hello: nat, macOk: bool)

  predicate Enabled(w: World, a: Action) {
    match a
    case Arrive(h) => h !in w.hellos
    case Resume(h, _) => h in w.hellos
    case _ => true
  }

  predicate WorldValid(w: World) {
    Valid(w.state) && forall h :: h in w.hellos ==> w.hellos[h] < |w.state.codes|
  }

  function After(w: World, a: Action, nowMs: int): World
    requires WorldValid(w) && Enabled(w, a)
  {
    match a
    case Mint(keyUsable) => w.(state := Minted(w.state, keyUsable, nowMs))
    case Cancel => w.(state := Cancelled(w.state))
    case Poll => w.(state := Looked(w.state, nowMs))
    case Arrive(h) =>
      var s := Looked(w.state, nowMs);
      w.(state := s, hellos := if s.active.Some? then w.hellos[h := s.active.value] else w.hellos)
    case Resume(h, macOk) =>
      var live := w.hellos[h];
      var (s, answer) := Resolved(w.state, live, macOk, nowMs);
      World(s, w.hellos - {h},
            if answer.Charged? then w.charged + [live] else w.charged,
            if answer.Completed? then w.completed + [live] else w.completed)
  }

  /** How often a code occurs in a log. */
  function Count(log: seq<nat>, k: nat): nat {
    if log == [] then 0 else Count(log[..|log| - 1], k) + if log[|log| - 1] == k then 1 else 0
  }

  lemma CountOneMore(log: seq<nat>, x: nat, k: nat)
    ensures Count(log + [x], k) == Count(log, k) + if x == k then 1 else 0
  {
    assert (log + [x])[..|log|] == log;
  }

  /** What holds of each code minted. */
  ghost predicate CodeInv(w: World, k: nat)
    requires k < |w.state.codes|
  {
    var c := w.state.codes[k];
    && Count(w.charged, k) == PAIR_CODE_MAX_ATTEMPTS - c.attemptsLeft <= PAIR_CODE_MAX_ATTEMPTS
    && Count(w.completed, k) <= 1
    // a live code has attempts left and has completed nothing
    && (w.state.active == Some(k) ==> c.attemptsLeft > 0 && Count(w.completed, k) == 0)
    && (!c.keyUsable ==> Count(w.completed, k) == 0 && Count(w.charged, k) == 0)
  }

  ghost predicate CodeHolds(w: World, k: nat) {
    if k < |w.state.codes| then CodeInv(w, k) else Count(w.charged, k) == 0 && Count(w.completed, k) == 0
  }

  ghost predicate Inv(w: World) {
    WorldValid(w) && forall k: nat :: CodeHolds(w, k)
  }

  lemma StepKeepsWorldValid(w: World, a: Action, nowMs: int)
    requires WorldValid(w) && Enabled(w, a)
    ensures WorldValid(After(w, a, nowMs))
    ensures |w.state.codes| <= |After(w, a, nowMs).state.codes|
  {
  }

  lemma ResumeKeepsCode(w: World, h: nat, macOk: bool, nowMs: int, k: nat)
    requires WorldValid(w) && h in w.hellos && CodeHolds(w, k)
    ensures CodeHolds(After(w, Resume(h, macOk), nowMs), k)
  {
    CountOneMore(w.charged, w.hellos[h], k);
    CountOneMore(w.completed, w.hellos[h], k);
    hide Count, Looked, Minted;
  }

  lemma OtherStepKeepsCode(w: World, a: Action, nowMs: int, k: nat)
    requires WorldValid(w) && Enabled(w, a) && !a.Resume? && CodeHolds(w, k)
    ensures CodeHolds(After(w, a, nowMs), k)
  {
    hide Count, Resolved;
  }

  lemma StepKeepsInv(w: World, a: Action, nowMs: int)
    requires Inv(w) && Enabled(w, a)
    ensures Inv(After(w, a, nowMs))
  {
    var w' := After(w, a, nowMs);
    StepKeepsWorldValid(w, a, nowMs);
    hide After, CodeHolds;
    forall k: nat
      ensures CodeHolds(w', k)
    {
      assert CodeHolds(w, k);
      if a.Resume? {
        ResumeKeepsCode(w, a.hello, a.macOk, nowMs, k);
      } else {
        OtherStepKeepsCode(w, a, nowMs, k);
      }
    }
  }

  /** What a valid world may go on to. */
  ghost predicate Steps(w: World, a: Action, nowMs: int, w': World) {
    WorldValid(w) ==> Enabled(w, a) && w' == After(w, a, nowMs)
  }

  ghost predicate IsRun(run: seq<World>, actions: seq<Action>, clock: seq<int>) {
    && |run| == |actions| + 1 == |clock| + 1
    && WorldValid(run[0])
    && forall i :: 0 <= i < |actions| ==> Steps(run[i], actions[i], clock[i], run[i + 1])
  }

  lemma {:induction false} RunStaysValid(run: seq<World>, actions: seq<Action>, clock: seq<int>, i: nat)
    requires IsRun(run, actions, clock) && i < |run|
    ensures WorldValid(run[i])
  {
    if i > 0 {
      RunStaysValid(run, actions, clock, i - 1);
      assert Steps(run[i - 1], actions[i - 1], clock[i - 1], run[i - 1 + 1]);
      StepKeepsWorldValid(run[i - 1], actions[i - 1], clock[i - 1]);
    }
  }

  const NOTHING_YET := World(State([], None), map[], [], [])

  /** In every interleaving, at every moment, each minted code has completed at most one hello, has been charged
      at most five wrong MACs, and is not live once it has completed a hello or been charged five. */
  lemma {:induction false} OneShot(run: seq<World>, actions: seq<Action>, clock: seq<int>, i: nat, k: nat)
    requires IsRun(run, actions, clock) && run[0] == NOTHING_YET && i < |run|
    ensures Inv(run[i])
    ensures Count(run[i].completed, k) <= 1 && Count(run[i].charged, k) <= PAIR_CODE_MAX_ATTEMPTS
    ensures Count(run[i].completed, k) == 1 || Count(run[i].charged, k) == PAIR_CODE_MAX_ATTEMPTS ==>
              run[i].state.active != Some(k)
  {
    if i > 0 {
      OneShot(run, actions, clock, i - 1, k);
      assert Steps(run[i - 1], actions[i - 1], clock[i - 1], run[i - 1 + 1]);
      StepKeepsInv(run[i - 1], actions[i - 1], clock[i - 1]);
    }
    assert CodeHolds(run[i], k);
  }

  /** A code that was minted and is not live: replaced, cancelled, expired, burned or used. */
  predicate Dead(w: World, k: nat) { k < |w.state.codes| && w.state.active != Some(k) }

  lemma DeadStep(w: World, a: Action, nowMs: int, k: nat)
    requires WorldValid(w) && Enabled(w, a) && Dead(w, k)
    ensures var w' := After(w, a, nowMs);
            Dead(w', k) && Count(w'.completed, k) == Count(w.completed, k)
            && Count(w'.charged, k) == Count(w.charged, k)
  {
    if a.Resume? {
      CountOneMore(w.charged, w.hellos[a.hello], k);
      CountOneMore(w.completed, w.hellos[a.hello], k);
    }
  }

  /** Once a code is not live it never is again: no hello that had already looked it up completes or is charged
      against it, whatever runs in between. */
  lemma {:induction false} DeadForGood(run: seq<World>, actions: seq<Action>, clock: seq<int>, i: nat, j: nat, k: nat)
    requires IsRun(run, actions, clock) && i <= j < |run| && Dead(run[i], k)
    ensures Dead(run[j], k)
    ensures Count(run[j].completed, k) == Count(run[i].completed, k)
    ensures Count(run[j].charged, k) == Count(run[i].charged, k)
  {
    if i < j {
      DeadForGood(run, actions, clock, i, j - 1, k);
      RunStaysValid(run, actions, clock, j - 1);
      assert Steps(run[j - 1], actions[j - 1], clock[j - 1], run[j - 1 + 1]);
      DeadStep(run[j - 1], actions[j - 1], clock[j - 1], k);
    }
  }

  /** A mint replaces: from the next moment the code that was live is dead. */
  lemma MintReplaces(w: World, keyUsable: bool, nowMs: int, k: nat)
    requires WorldValid(w) && k < |w.state.codes|
    ensures Dead(After(w, Mint(keyUsable), nowMs), k)
    ensures After(w, Mint(keyUsable), nowMs).state.active == Some(|w.state.codes|)
  {
  }

  /** A hello that looked up the live code with a usable key and resumes in time with the right MAC completes,
      unless the code died in between: the checks refuse no more than they must. */
  lemma RightMacCompletes(w: World, h: nat, nowMs: int)
    requires WorldValid(w) && h in w.hellos
    ensures var k := w.hellos[h];
            After(w, Resume(h, true), nowMs).completed == w.completed + [k] <==>
              w.state.codes[k].keyUsable && !Dead(w, k) && nowMs <= w.state.codes[k].expiresMs
  {
  }

  /** A code that is live and not past its time. */
  predicate Redeemable(w: World, k: nat, nowMs: int) {
    k < |w.state.codes| && w.state.active == Some(k) && w.state.codes[k].keyUsable
    && nowMs <= w.state.codes[k].expiresMs
  }

  /** A wrong MAC never completes anything. It costs the code it was tried against one attempt exactly if that code
      is still live, in time and has its key, and kills it exactly if that was the last one; it touches no other
      code. Against a code past its time it only ends that code. */
  lemma WrongMacCosts(w: World, h: nat, nowMs: int)
    requires WorldValid(w) && h in w.hellos
    ensures var k, w' := w.hellos[h], After(w, Resume(h, false), nowMs);
            var c := w.state.codes[k];
            var charged := Redeemable(w, k, nowMs);
            && w'.completed == w.completed
            && w'.charged == (if charged then w.charged + [k] else w.charged)
            && w'.state.codes == (if charged then w.state.codes[k := c.(attemptsLeft := c.attemptsLeft - 1)]
                                  else w.state.codes)
            && (charged ==> (w'.state.active == None <==> c.attemptsLeft <= 1))
            && (w'.state.active != w.state.active ==>
                  w'.state.active == None && w.state.active == Some(k) && c.keyUsable
                  && (nowMs > c.expiresMs || c.attemptsLeft <= 1))
            && w'.hellos == w.hellos - {h}
  {
  }

  /** A right MAC completes the hello and ends the code, or, where the code is not redeemable, completes nothing;
      it is never charged, and no code's attempts change. */
  lemma RightMacSpends(w: World, h: nat, nowMs: int)
    requires WorldValid(w) && h in w.hellos
    ensures var k, w' := w.hellos[h], After(w, Resume(h, true), nowMs);
            && w'.charged == w.charged && w'.state.codes == w.state.codes && w'.hellos == w.hellos - {h}
            && w'.completed == (if Redeemable(w, k, nowMs) then w.completed + [k] else w.completed)
            && (Redeemable(w, k, nowMs) ==> w'.state.active == None)
            && (w'.state.active != w.state.active ==> w'.state.active == None && w.state.active == Some(k))
  {
  }

  /** A hello gets past its lookup exactly if a code is live and in time, and then holds that code. */
  lemma ArriveFindsTheLiveCode(w: World, h: nat, nowMs: int)
    requires WorldValid(w) && h !in w.hellos
    ensures var w' := After(w, Arrive(h), nowMs);
            && (h in w'.hellos <==> w.state.active.Some? && nowMs <= w.state.codes[w.state.active.value].expiresMs)
            && (h in w'.hellos ==> Some(w'.hellos[h]) == w.state.active == w'.state.active)
            && (h !in w'.hellos ==> w'.state.active == None)
            && w'.state.codes == w.state.codes && w'.charged == w.charged && w'.completed == w.completed
  {
  }

  /** A live code dies in no other way than these: it is replaced or cancelled, somebody finds it past its time, a
      right MAC completes a hello under it, or it is charged its last wrong MAC. */
  lemma DiesOnlySo(w: World, a: Action, nowMs: int, k: nat)
    requires WorldValid(w) && Enabled(w, a) && w.state.active == Some(k)
    ensures After(w, a, nowMs).state.active != Some(k) <==>
              || a.Mint? || a.Cancel?
              || ((a.Poll? || a.Arrive?) && nowMs > w.state.codes[k].expiresMs)
              || (a.Resume? && w.hellos[a.hello] == k && w.state.codes[k].keyUsable
                  && (nowMs > w.state.codes[k].expiresMs || a.macOk || w.state.codes[k].attemptsLeft <= 1))
  {
  }

  /** Which mint a code comes from. */
  ghost predicate MintedAt(run: seq<World>, actions: seq<Action>, clock: seq<int>, j: nat, k: nat)
    requires j < |actions| && |run| == |actions| + 1 == |clock| + 1
  {
    actions[j].Mint? && |run[j].state.codes| == k
  }

  ghost predicate ComesFrom(run: seq<World>, actions: seq<Action>, clock: seq<int>, i: nat, k: nat)
    requires |run| == |actions| + 1 == |clock| + 1 && i < |run| && k < |run[i].state.codes|
  {
    exists j :: 0 <= j < i && MintedAt(run, actions, clock, j, k)
                && run[i].state.codes[k].expiresMs == clock[j] + 300_000
                && run[i].state.codes[k].keyUsable == actions[j].keyUsable
                && run[i].state.codes[k].attemptsLeft == 5 - Count(run[i].charged, k)
  }

  lemma {:induction false} EveryCodeWasMinted(run: seq<World>, actions: seq<Action>, clock: seq<int>, i: nat, k: nat)
    requires IsRun(run, actions, clock) && run[0] == NOTHING_YET && i < |run| && k < |run[i].state.codes|
    ensures ComesFrom(run, actions, clock, i, k)
  {
    var w, a := run[i - 1], actions[i - 1];
    RunStaysValid(run, actions, clock, i - 1);
    OneShot(run, actions, clock, i, k);
    assert CodeHolds(run[i], k);
    assert Steps(run[i - 1], actions[i - 1], clock[i - 1], run[i - 1 + 1]);
    if k < |w.state.codes| {
      EveryCodeWasMinted(run, actions, clock, i - 1, k);
      CodeStays(w, a, clock[i - 1], k);
      var j :| 0 <= j < i - 1 && MintedAt(run, actions, clock, j, k)
               && w.state.codes[k].expiresMs == clock[j] + 300_000
               && w.state.codes[k].keyUsable == actions[j].keyUsable
               && w.state.codes[k].attemptsLeft == 5 - Count(w.charged, k);
      hide Count, CodeInv;
      assert run[i].state.codes[k].expiresMs == clock[j] + 300_000;
    } else {
      assert MintedAt(run, actions, clock, i - 1, k);
    }
  }

  lemma CodeStays(w: World, a: Action, nowMs: int, k: nat)
    requires WorldValid(w) && Enabled(w, a) && k < |w.state.codes|
    ensures var s := After(w, a, nowMs).state;
            k < |s.codes| && s.codes[k].keyUsable == w.state.codes[k].keyUsable
            && s.codes[k].expiresMs == w.state.codes[k].expiresMs
  {
  }

  /** Where a hello was completed under a code. */
  ghost predicate CompletedAt(run: seq<World>, actions: seq<Action>, j: nat, k: nat)
    requires j < |actions| < |run|
  {
    actions[j].Resume? && actions[j].macOk && actions[j].hello in run[j].hellos && run[j].hellos[actions[j].hello] == k
  }

  /** A code completes a hello only by a right MAC, tried by a hello that had looked it up, while the code was live
      and no later than five minutes after it was minted. */
  lemma {:induction false} OnlyARightMacCompletes(run: seq<World>, actions: seq<Action>, clock: seq<int>,
                                                  i: nat, k: nat)
    requires IsRun(run, actions, clock) && run[0] == NOTHING_YET && i < |run| && Count(run[i].completed, k) > 0
    ensures exists j :: 0 <= j < i && CompletedAt(run, actions, j, k) && Redeemable(run[j], k, clock[j])
                        && exists m :: 0 <= m < j && MintedAt(run, actions, clock, m, k)
                                       && clock[j] <= clock[m] + 300_000
  {
    var w, a := run[i - 1], actions[i - 1];
    RunStaysValid(run, actions, clock, i - 1);
    assert Steps(run[i - 1], actions[i - 1], clock[i - 1], run[i - 1 + 1]);
    if Count(w.completed, k) > 0 {
      OnlyARightMacCompletes(run, actions, clock, i - 1, k);
    } else {
      CompletesNow(w, a, clock[i - 1], k);
      EveryCodeWasMinted(run, actions, clock, i - 1, k);
      assert CompletedAt(run, actions, i - 1, k);
    }
  }

  lemma CompletesNow(w: World, a: Action, nowMs: int, k: nat)
    requires WorldValid(w) && Enabled(w, a)
    requires Count(w.completed, k) < Count(After(w, a, nowMs).completed, k)
    ensures a.Resume? && a.macOk && w.hellos[a.hello] == k && Redeemable(w, k, nowMs)
  {
    if a.Resume? {
      CountOneMore(w.completed, w.hellos[a.hello], k);
      if a.macOk { RightMacSpends(w, a.hello, nowMs); } else { WrongMacCosts(w, a.hello, nowMs); }
    }
  }

  /** Five wrong MACs against a code leave it dead, from then on; fewer never do. */
  lemma FiveWrongMacsBurn(run: seq<World>, actions: seq<Action>, clock: seq<int>, i: nat, k: nat)
    requires IsRun(run, actions, clock) && run[0] == NOTHING_YET && i < |actions|
    requires actions[i].Resume? && !actions[i].macOk && actions[i].hello in run[i].hellos
    requires run[i].hellos[actions[i].hello] == k && Redeemable(run[i], k, clock[i])
    ensures Count(run[i + 1].charged, k) == Count(run[i].charged, k) + 1 <= 5
    ensures run[i + 1].state.active == None <==> Count(run[i + 1].charged, k) == 5
  {
    EveryCodeWasMinted(run, actions, clock, i, k);
    OneShot(run, actions, clock, i, k);
    RunStaysValid(run, actions, clock, i);
    assert Steps(run[i], actions[i], clock[i], run[i + 1]);
    assert CodeHolds(run[i], k);
    WrongMacCosts(run[i], actions[i].hello, clock[i]);
    CountOneMore(run[i].charged, k, k);
  }
}
