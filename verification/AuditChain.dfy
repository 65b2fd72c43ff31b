/** The hash chain a machine's entries form, and what a reader of any entry set can conclude from it. */
module AuditChain {
  import opened Wrappers
  import opened Text
  import opened AuditEntries
  import opened AuditUnion
  import opened AuditGaps

  const GENESIS_PREV := "genesis"

  /** `entryDigest(canonicalJson(e))`. */
  function Digest(c: Codec, e: Entry): string { c.sha256(BytesOrEmpty(c, e)) }

  // ---------------------------------------------------------------- what append writes

  /** The link an entry appended to `log` carries. */
  function LinkTo(c: Codec, log: seq<Entry>): string {
    if log == [] then GENESIS_PREV else Digest(c, log[|log| - 1])
  }

  /** A machine's own log: seqs strictly ascending from 1 up; the first `pre` entries predate the chain
      and carry no link, every later one links to the entry before it. */
  ghost predicate AppendedLog(c: Codec, machine: string, log: seq<Entry>, pre: nat) {
    && pre <= |log|
    && (forall i :: 0 <= i < |log| ==> log[i].machine == machine && log[i].seqNo >= 1 && Encodable(c, log[i]))
    && (forall i, j :: 0 <= i < j < |log| ==> log[i].seqNo < log[j].seqNo)
    && (forall i :: 0 <= i < pre ==> log[i].prev == None)
    && (forall i :: pre <= i < |log| ==> log[i].prev == Some(LinkTo(c, log[..i])))
  }

  // ---------------------------------------------------------------- what the reader looks at

  /** The keys a reader holds and the signature check it makes with them. */
  datatype Trust = Trust(keys: map<string, string>, verifies: (Entry, string) -> bool)

  predicate Verified(t: Trust, e: Entry) {
    e.machine in t.keys && t.verifies(e, t.keys[e.machine])
  }

  /** The verified entries of one machine. */
  function VerifiedOf(t: Trust, es: seq<Entry>, machine: string): set<Entry> {
    set e | e in es && e.machine == machine && Verified(t, e)
  }

  /** `e` lies strictly above this machine's genesis, the lowest seq that carries a link. */
  ghost predicate AboveGenesis(v: set<Entry>, e: Entry) {
    exists h :: h in v && h.prev.Some? && h.seqNo < e.seqNo
  }

  ghost predicate HasParent(v: set<Entry>, e: Entry) {
    exists p :: p in v && p.seqNo + 1 == e.seqNo
  }

  ghost predicate LinkedTo(c: Codec, v: set<Entry>, e: Entry) {
    exists p :: p in v && p.seqNo + 1 == e.seqNo && e.prev == Some(Digest(c, p))
  }

  /** The chain-broken condition. */
  ghost predicate ChainBroken(c: Codec, v: set<Entry>, e: Entry) {
    e in v && AboveGenesis(v, e) && HasParent(v, e) && !LinkedTo(c, v, e)
  }

  // ---------------------------------------------------------------- tamper evidence

  /** Nothing is flagged for this machine, with nothing accepted: every entry verifies, no seq is held
      twice, no seq is missing, no link is broken. */
  ghost predicate Unflagged(c: Codec, t: Trust, es: seq<Entry>, machine: string) {
    && (forall e :: e in es && e.machine == machine ==> Encodable(c, e) && Verified(t, e))
    && (forall a, b :: a in es && b in es && a.machine == machine && b.machine == machine && a.seqNo == b.seqNo
          ==> a == b)
    && (forall f: nat, to: nat :: !IsGap(SeqsOf(es, machine), f, to))
    && (forall e :: !ChainBroken(c, VerifiedOf(t, es, machine), e))
  }

  /** The hash keeps the entries in play apart, and no digest is the genesis marker. */
  ghost predicate HashSeparates(c: Codec, es: seq<Entry>, log: seq<Entry>) {
    && (forall a, b :: a in es && b in log && Digest(c, a) == Digest(c, b) ==> a == b)
    && (forall a :: a in es ==> Digest(c, a) != GENESIS_PREV)
  }

  /** Tamper evidence. If a reader flags nothing for a machine and the highest entry it was handed is the
      one the machine really appended last, then every entry it was handed, from the genesis it computed
      itself upwards, is the entry the machine appended under that seq. */
  lemma TamperEvidence(c: Codec, t: Trust, es: seq<Entry>, machine: string, log: seq<Entry>, pre: nat, e: Entry)
    requires Unflagged(c, t, es, machine) && HashSeparates(c, es, log)
    requires AppendedLog(c, machine, log, pre) && log != []
    requires forall i :: 0 <= i < |log| ==> log[i].seqNo == i + 1
    requires log[|log| - 1] in es
    requires forall x :: x in es && x.machine == machine ==> x.seqNo <= |log|
    requires e in es && e.machine == machine
    requires e.prev.Some? || AboveGenesis(VerifiedOf(t, es, machine), e)
    ensures 1 <= e.seqNo && e == log[e.seqNo - 1]
  {
    hide Unflagged, HashSeparates, Digest;
    var top := log[|log| - 1];
    DownFromTop(c, t, es, machine, log, pre, e.seqNo, |log|, e, top);
  }

  /** The descent: from a genuine entry at seq `k` down to any entry at seq `n`, link by link. */
  lemma {:induction false} DownFromTop(c: Codec, t: Trust, es: seq<Entry>, machine: string, log: seq<Entry>,
                                       pre: nat, n: nat, k: nat, e: Entry, at: Entry)
    requires Unflagged(c, t, es, machine) && HashSeparates(c, es, log)
    requires AppendedLog(c, machine, log, pre)
    requires forall i :: 0 <= i < |log| ==> log[i].seqNo == i + 1
    requires n <= k && 1 <= k <= |log| && at in es && at == log[k - 1]
    requires e in es && e.machine == machine && e.seqNo == n
    requires e.prev.Some? || AboveGenesis(VerifiedOf(t, es, machine), e)
    ensures 1 <= n && e == log[n - 1]
    decreases k
  {
    if n < k {
      var v := VerifiedOf(t, es, machine);
      var below := PresentBelow(es, machine, n, k - 1, e, at);
      assert AboveGenesis(v, at) by {
        if e.prev.None? {
          var h :| h in v && h.prev.Some? && h.seqNo < e.seqNo;
          assert h.seqNo < at.seqNo;
        }
      }
      ParentIsGenuine(c, t, es, machine, log, pre, k, at, below);
      DownFromTop(c, t, es, machine, log, pre, n, k - 1, e, below);
    }
  }

  /** One step of the descent: the only entry observed just below a genuine one is the genuine one. */
  lemma ParentIsGenuine(c: Codec, t: Trust, es: seq<Entry>, machine: string, log: seq<Entry>, pre: nat,
                        k: nat, at: Entry, below: Entry)
    requires Unflagged(c, t, es, machine) && HashSeparates(c, es, log)
    requires AppendedLog(c, machine, log, pre)
    requires 1 <= k <= |log| && at in es && at == log[k - 1] && at.seqNo == k
    requires below in es && below.machine == machine && below.seqNo == k - 1
    requires AboveGenesis(VerifiedOf(t, es, machine), at)
    ensures k >= 2 && below == log[k - 2]
  {
    var p := FlaglessParent(c, t, es, machine, at, below);
    LinkBelow(c, machine, log, pre, k - 1);
    hide Digest;
    assert Digest(c, p) != GENESIS_PREV;
    if k >= 2 { assert log[k - 2] in log; }
  }

  /** An entry above the genesis that is not flagged links to the one entry just below it. */
  lemma FlaglessParent(c: Codec, t: Trust, es: seq<Entry>, machine: string, at: Entry, below: Entry) returns (p: Entry)
    requires Unflagged(c, t, es, machine) && AboveGenesis(VerifiedOf(t, es, machine), at)
    requires at in es && at.machine == machine
    requires below in es && below.machine == machine && below.seqNo + 1 == at.seqNo
    ensures p == below && at.prev == Some(Digest(c, p))
  {
    hide Digest, IsGap;
    var v := VerifiedOf(t, es, machine);
    assert at in v && below in v;
    assert HasParent(v, at);
    assert !ChainBroken(c, v, at);
    p :| p in v && p.seqNo + 1 == at.seqNo && at.prev == Some(Digest(c, p));
  }

  /** The link an appended entry carries, if it carries one. */
  lemma LinkBelow(c: Codec, machine: string, log: seq<Entry>, pre: nat, i: nat)
    requires AppendedLog(c, machine, log, pre) && i < |log|
    ensures log[i].prev.Some? ==> i >= pre
    ensures i >= pre ==> log[i].prev == Some(if i == 0 then GENESIS_PREV else Digest(c, log[i - 1]))
  {
    hide Digest;
    if i > 0 && i >= pre {
      assert log[..i][|log[..i]| - 1] == log[i - 1];
    }
  }

  lemma PresentBelow(es: seq<Entry>, machine: string, n: nat, m: nat, e: Entry, at: Entry) returns (p: Entry)
    requires forall f: nat, to: nat :: !IsGap(SeqsOf(es, machine), f, to)
    requires e in es && e.machine == machine && e.seqNo == n
    requires at in es && at.machine == machine && at.seqNo == m + 1 && n <= m
    ensures p in es && p.machine == machine && p.seqNo == m
  {
    if m == n {
      p := e;
    } else {
      var seqs := SeqsOf(es, machine);
      assert at.seqNo in seqs;
      GapsAreTheMissingNumbers(seqs, m);
      assert m in seqs;
      p :| p in es && p.machine == machine && p.seqNo == m;
    }
  }

  // ---------------------------------------------------------------- no false alarm

  /** No false chain alarm. Whatever part of a machine's own log a reader is handed, mixed with anything
      that does not verify as that machine's, no chain-broken flag is raised for the machine. Entries
      from before the chain and seqs lost to a crash are allowed in the log. */
  lemma NoFalseChainAlarm(c: Codec, t: Trust, es: seq<Entry>, machine: string, log: seq<Entry>, pre: nat, e: Entry)
    requires AppendedLog(c, machine, log, pre)
    requires forall x :: x in es && x.machine == machine && Verified(t, x) ==> x in log
    ensures !ChainBroken(c, VerifiedOf(t, es, machine), e)
  {
    hide Digest, AppendedLog;
    var v := VerifiedOf(t, es, machine);
    if e in v && AboveGenesis(v, e) && HasParent(v, e) {
      var h :| h in v && h.prev.Some? && h.seqNo < e.seqNo;
      var p :| p in v && p.seqNo + 1 == e.seqNo;
      NeighboursAreLinked(c, machine, log, pre, e, h, p);
      assert LinkedTo(c, v, e);
    }
  }

  /** In a log, an entry above one that carries a link links to the entry one seq below it, if that exists. */
  lemma NeighboursAreLinked(c: Codec, machine: string, log: seq<Entry>, pre: nat, e: Entry, h: Entry, p: Entry)
    requires AppendedLog(c, machine, log, pre) && e in log && h in log && p in log
    requires h.prev.Some? && h.seqNo < e.seqNo && p.seqNo + 1 == e.seqNo
    ensures e.prev == Some(Digest(c, p))
  {
    hide Digest, AppendedLog;
    var i := PlaceOf(log, e);
    var j := PlaceOf(log, h);
    var k := PlaceOf(log, p);
    LinkBelow(c, machine, log, pre, j);
    InOrder(c, machine, log, pre, j, i);
    InOrder(c, machine, log, pre, k, i);
    LinkBelow(c, machine, log, pre, i);
  }

  lemma PlaceOf(log: seq<Entry>, e: Entry) returns (i: nat)
    requires e in log
    ensures i < |log| && log[i] == e
  {
    i :| 0 <= i < |log| && log[i] == e;
  }

  /** Seqs give the order of a log, and neighbouring seqs are neighbours in it. */
  lemma InOrder(c: Codec, machine: string, log: seq<Entry>, pre: nat, k: nat, i: nat)
    requires AppendedLog(c, machine, log, pre) && k < |log| && i < |log| && log[k].seqNo < log[i].seqNo
    ensures k < i && (log[k].seqNo + 1 == log[i].seqNo ==> k == i - 1)
  {
    if k < i - 1 {
      assert log[k].seqNo < log[i - 1].seqNo < log[i].seqNo;
    }
  }

  /** Lines that do not verify never change the chain verdict: two readers that verify the same entries
      of a machine agree on every chain flag. */
  lemma UnverifiedLinesAreInert(c: Codec, t: Trust, es: seq<Entry>, noise: seq<Entry>, machine: string, e: Entry)
    requires forall x :: x in noise ==> !Verified(t, x)
    ensures ChainBroken(c, VerifiedOf(t, es + noise, machine), e) <==> ChainBroken(c, VerifiedOf(t, es, machine), e)
  {
    assert VerifiedOf(t, es + noise, machine) == VerifiedOf(t, es, machine);
  }
}
