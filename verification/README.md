# Verified models of the fleet's protocols and codecs

This project models, in Dafny, the parts of the fleet daemon that several machines or processes share and
that must hold over every run: the signed audit log, the single-pusher protocol for the derived `main`,
at-most-once admin runs, the grants in `authorized_keys`, one-shot pairing credentials, merge recovery, lock
retirement, and the quoters and code encoder. Each theorem is a for-all statement over every input, every run or
every reachable state. `dafny verify dfyconfig.toml` checks the whole project.

## How the model is laid out

Two kinds of form are used. Code that fills maps, lists and fields step by step is a class or a method with loop
invariants, proved equal to a specification function or predicate (`AuditUnion.UnionFile`,
`AuditCheck.CrossCheck`, `AuditAppend.AuditLog`, `DeriveMain.Derive`, `SyncLoop.Daemon`,
`AdminRuns.Target`, `GrantFile.GrantFiles`, `PairingHellos.Pairing`, `Enrollments.EnrollmentStore`,
`MergeRecovery.GitDir`, `LockRetirement.FileSystem`, the quoters and the encoder). Where several processes, hellos
or people interleave, a second layer is a state machine whose steps are the runs of code between two points at
which others may act, with a crash allowed at any of them; invariants are proved step by step and then for every
run. The two layers are tied together: either the methods are proved equal to the functions the steps are made of,
or a lemma shows that undisturbed steps compute what the method does.

| module | what it models |
|---|---|
| `Text`, `Sorting`, `Wrappers` | JavaScript line splitting, trimming, searching, codepoint order, decimal text, sorted de-duplication |
| `AuditEntries`, `AuditUnion` | JSONL parsing, the union-log regenerator, flushing the local log, forks |
| `AuditGaps`, `AuditChain`, `AuditCheck` | seq gaps, the hash chain, the cross-check reader, the accept baselines |
| `AuditAppend` | appending under the seq lock by any number of processes |
| `NewestWins`, `DeriveMain`, `SyncLoop` | tips and winners, leased pushes with owed retries, the takeover debounce |
| `AdminRuns` | the run-id marker, replays, truncated replies, the two transports |
| `PublicKey`, `GrantFile`, `SshdOptions` | public-key text, marked lines, grants and their recovery, what sshd reads in a grant |
| `PairingHellos`, `Enrollments` | the typed code under interleaved hellos, the enrollment store |
| `MergeRecovery`, `LockRetirement` | the merge marker across crashes, retiring a lock moved aside |
| `WindowsQuoting`, `ShellQuoting` | the two quoters with a parser on the far side |
| `BitWords`, `PairingCode` | 32-bit shifts and masks as arithmetic, the 60-bit code and what may be typed for it |

## What is taken as given

Assumptions are preconditions or restrictions on steps, never hidden in a proof.

- `canonicalJson` is a partial function that, where defined, decodes back, yields one line without white space
  at its ends and begins and ends as an object does (`AuditEntries.Lawful`). It is undefined exactly where the
  real one throws. SHA-256 is any function of a string; where a claim needs it, the precondition says that it keeps
  the entries in play apart (`AuditChain.HashSeparates`) or is injective (`AuditCheck.CollisionFree`). A signature
  check is any predicate.
- The seq lock is one exclusive-create file; breaking a stale one is one step, and only a dead holder's lock is
  stale.
- A push under `--force-with-lease` is a compare-and-set on origin's `main`.
- For the shell, word splitting and quote removal follow sections 2.2.2, 2.2.3 and 2.3 of the POSIX.1-2017 Shell
  Command Language; for Windows, the argument rules Microsoft documents for the C runtime and CommandLineToArgvW,
  which differ only in how they find the end of the program name; both are modelled.
- For sshd, the option field follows the "AUTHORIZED_KEYS FILE FORMAT" section of sshd(8): options separated by
  commas, values in double quotes, a quote inside a value behind a backslash, no other escape. A second reader, for
  which a backslash behind a backslash is an escape too, is modelled beside it. That option names are known ones is
  not checked.
- Upper-casing follows the Unicode tables: ten code points outside ASCII upper-case into it (sharp s, dotless i,
  long s and seven Latin ligatures), and every other one keeps a character outside ASCII
  (`PairingCode.StaysForeign`).
- A git lock's aside name is fresh, its quarantine name unused, and a lock whose holder check came back free is not
  written any more. Two ref paths that flatten to one quarantine name are ruled out by that.
- An enrollment store has finished its first load; its clock does not run backwards; its random ids do not repeat.

## What turned out not to hold as promised

Each of these has a lemma with a failing input and a lemma with the exact condition under which the code does meet
the promise.

- An entry that the shape check accepts but the canonical encoding rejects (a number that overflows to infinity)
  makes the regenerator throw, and then it throws on every text holding that line
  (`AuditUnion.OverflowStopsRegeneration`). It succeeds exactly on the texts without such an entry
  (`AuditUnion.RegeneratedFails`).
- A machine name with white space in it, such as a no-break space, never reads back from the derived commit's
  message, so every tick mints again (`DeriveMain.NoBreakSpaceIsNotReadBack`, `DeriveMain.WhiteSpaceNeverSettles`).
  The message reads back exactly for the names without any (`DeriveMain.InputSetReadBack`).
- The configuration does not require repository names to differ, and the takeover latch is kept by name. With two
  repositories under one name, the first spends the sighting of the second, which is pushed one tick after it was
  seen moved (`SyncLoop.SharedNameBreaksTheWindow`). The window holds in every two-tick run over a list of
  repositories exactly if their names are distinct (`SyncLoop.WindowNeedsDistinctNames`).
- The derived `main` and the pairwise merge may keep different sides of a path: where no tip has an author time for
  it (`NewestWins.NoTimesNoDerivedWinner`), and where one tip has none and a later-named one has time zero
  (`NewestWins.EpochTimeParts`). They agree exactly if some tip with a time is ahead, in the order of the pairwise
  merge, of every tip without one (`NewestWins.DerivedAgreesWithSyncer`).
- Pruning a run marker lets the same run id execute again (`AdminRuns.PruneAllowsASecondRun`); while the marker
  stands it does not (`AdminRuns.AtMostOnce`).
- Closing the door reports a removal for a peer with no grant when the file held blank lines or an unfinished last
  line, and in no other case (`GrantFile.ChangedWhen`). A marker prefix inside the forced command makes a grant
  unreadable, and nothing else does (`GrantFile.GrantReadsBack`).
- The forced command of a grant is escaped for a reader that takes a backslash behind a backslash as an escape, and
  sshd does not: a command with a backslash in it is run with two (`GrantFile.BackslashIsRunTwice`). sshd runs the
  command that was meant exactly if it holds no backslash (`GrantFile.CommandIsReadExactly`). The restrictions are
  read as written in every case, and a command that ends in a backslash makes the line unreadable
  (`GrantFile.SshdReadsTheGrant`).
- A burn whose file write fails is refused to the caller, but after a restart the token is live again
  (`Enrollments.LostWriteRevives`); a return to live happens exactly on a restart whose file still holds the record
  live (`Enrollments.NeverBackToLive`).
- When the abort of a deferred merge fails, the next peer's merge overwrites the ownership marker, and the daemon
  then aborts under a marker that is not the open merge's or takes its own merge for a person's
  (`MergeRecovery.FailedDeferralLosesTheMarker`). The daemon may die anywhere in a run and still recognise its own
  merge exactly if no marker was written over that of another open merge (`MergeRecovery.RecoverableExactly`; state
  by state in `MergeRecovery.OverwrittenMarkerIsLost` and `MergeRecovery.OverwrittenMarkerMisaborts`). The
  regenerators' commit that follows such a deferral concludes the deferred merge, conflict markers and all, exactly if
  the abort left it open (`MergeRecovery.DeferralExact`).
- When the daemon dies between writing the marker and merging, and a person then merges that very tip by hand, the
  next cycle aborts the person's merge (`MergeRecovery.LeftoverMarkerClaimsAPersonsMerge`, exact for every idle
  state). The next cycle leaves people's merges alone throughout a run exactly if nobody ever opened a merge of the
  tip in the marker (`MergeRecovery.SparedExactly`).
- A lock put back for its owner loses its last name if the owner drops it just before the daemon drops the aside
  name (`LockRetirement.ReleaseInTheWindow`). In every run the file survives exactly if the unlink fails or nobody,
  between the link and the unlink, took its last other name (`LockRetirement.PutBackSurvives`).

Where comments and code differ, the code is followed: the regenerator keeps every distinct line
(`src/audit.ts:547-563`, against `src/audit.ts:522-534`), and the chain pass raises nothing across a gap
(`src/audit.ts:860-865`, against `src/audit.ts:310-313`).

## Model

| member | source | states |
|---|---|---|
| Text.CodepointCompare | src/audit.ts:181-191 | the loop decides codepoint order: negative exactly below, zero exactly equal, positive exactly above |
| Text.LessExactly | src/audit.ts:181-191 | the order it decides: the lower code point at the first difference, a string before any longer one it begins |
| Text.TrimExactly | src/audit.ts:217-219 | trimming takes the white space off both ends, all of it and nothing else |
| Sorting.SortedSetDependsOnSet | src/audit.ts:566-575 | a sorted, de-duplicated list is determined by the set of its elements |
| AuditEntries.ParseJsonl | src/audit.ts:213-234 | the parsing loop keeps every well-formed line as an entry and counts the rest, as the fold over the lines |
| AuditEntries.EveryLineCounts | src/audit.ts:213-234 | each line adds, in its place, one entry if its text decodes, nothing if blank, and one damaged line otherwise |
| AuditEntries.ParseMerge | src/audit.ts:632-637 | merging two texts line by line holds the entries of both, in order |
| AuditEntries.ParseRender | src/audit.ts:575-577 | a rendered log parses back to exactly its entries, none malformed |
| AuditEntries.KeyInjective | src/audit.ts:538-545 | a (machine, seq) key stands for one machine and one seq |
| AuditEntries.ForkPreimageInjective | src/audit.ts:364-372 | the text a fork fingerprint hashes determines the key and the variants |
| AuditEntries.GapPreimageInjective | src/audit.ts:403-411 | the text a gap fingerprint hashes determines the machine and both edges |
| AuditUnion.RegeneratedFails | src/audit.ts:535-545 | regeneration fails exactly on a text with an entry the canonical encoding rejects |
| AuditUnion.OverflowStopsRegeneration | src/audit.ts:193-211 | one shape-valid line that cannot be encoded stops regeneration of any text it is merged into |
| AuditUnion.BytesAreAFunctionOfTheSet | src/audit.ts:535-605 | two texts regenerate to the same bytes if and only if they hold the same set of entries |
| AuditUnion.RegeneratedKeepsEveryEntry | src/audit.ts:535-605 | every distinct entry survives, nothing malformed remains, and regenerating again changes nothing |
| AuditUnion.RegeneratedIsInOrder | src/audit.ts:566-575 | the regenerated lines ascend by machine, then by seq as a number, then by bytes |
| AuditUnion.JoinLaws | src/audit.ts:535-605 | regeneration is a join: regenerating one side first, the order of the sides and the grouping make no difference |
| AuditUnion.FlushLaws | src/audit.ts:620-639 | a flush adds exactly the local entries, flushing twice is flushing once, and two machines' flushes commute |
| AuditUnion.FixedPoint | src/audit.ts:535-605 | two canonical texts with the same entries are the same bytes |
| AuditUnion.FingerprintOfSet | src/audit.ts:364-372 | a fork fingerprint depends on the set of variants, not their order |
| AuditUnion.UnionFile.Regenerate | src/audit.ts:535-605 | the file ends with the canonical bytes; kept plus dropped equals parsed; the forks reported are exactly those present, one record for each key |
| AuditUnion.UnionFile.FlushLocal | src/audit.ts:620-639 | appending the local lines and regenerating leaves the flushed text |
| AuditUnion.KeepDistinct | src/audit.ts:554-564 | each distinct entry is kept once, repetitions are counted, every key with two lines is recorded as a fork, once |
| AuditUnion.LinesOfDistinct | src/audit.ts:557-563 | distinct entries under a key are as many as their distinct lines, and those are all the lines under it |
| AuditGaps.GapsAreTheMissingNumbers | src/audit.ts:452-482 | a number from 1 to the highest seq is missing exactly if it lies strictly inside a gap, and nothing else does |
| AuditGaps.GapsAreDisjoint | src/audit.ts:452-482 | two gaps that share a number are the same gap |
| AuditGaps.SeqGapsOf | src/audit.ts:452-482 | the loop lists exactly the gaps, lowest first, whatever the order and repetition of the input |
| AuditGaps.AllSeqGaps | src/audit.ts:486-495 | the gaps of every machine, all of them and no others, ordered by machine and then by edge |
| AuditChain.TamperEvidence | src/audit.ts:803-900 | if nothing is flagged for a machine and its last entry is genuine, every entry from the computed genesis up is what the machine appended |
| AuditChain.NoFalseChainAlarm | src/audit.ts:844-890 | any part of a machine's own log, mixed with lines that do not verify, raises no chain flag |
| AuditChain.UnverifiedLinesAreInert | src/audit.ts:844-890 | lines that do not verify never change a chain verdict |
| AuditCheck.VerifyEntry | src/audit.ts:771-801 | an unknown machine's entry is flagged; a known one's is flagged exactly if its signature fails, cached or not; the cache stays honest |
| AuditCheck.VerifyPass | src/audit.ts:771-801 | the flags are those of a pass without a cache, and the cache gains exactly the verified digests |
| AuditCheck.ForkPass | src/audit.ts:810-830 | one fork flag for exactly each seq with two distinct lines that is not accepted |
| AuditCheck.FindGenesis | src/audit.ts:851-854 | the genesis is the lowest seq that carries a link |
| AuditCheck.ChainPass | src/audit.ts:844-890 | chain flags are exactly the entries above the genesis whose link is none of those held one seq below, if any is |
| AuditCheck.GapPass | src/audit.ts:892-900 | gap flags are exactly the gaps that are not accepted |
| AuditCheck.CrossCheck | src/audit.ts:745-900 | the report holds exactly the flags of the definition, whatever the cache held: signature flags by key and signature alone, forks for two entries under one seq, chain flags over the good signatures, gaps for what is missing between two observed seqs |
| AuditCheck.FlagsSpelledOut | src/audit.ts:771-890 | the signature, fork, chain and gap flags in terms of keys, signatures and entries |
| AuditCheck.BadSignatureIsInert | src/audit.ts:759-801 | an entry whose signature fails, or whose machine is unknown, adds its own flag and changes no other signature flag and no chain flag |
| AuditCheck.CleanReportIsTamperEvident | src/audit.ts:761-900 | a report without a flag for a machine, with empty baselines, is tamper-evident for it |
| AuditCheck.TakeBaseline | src/audit-baseline.ts:49-87 | the accept tool regenerates the file and accepts exactly the forks found and, with --gaps, the gaps left, on top of what was accepted; a dry run accepts nothing |
| AuditCheck.AcceptanceAgreesWithAlarm | src/audit.ts:818-900 | accepting silences exactly the flags of what was accepted; a new fork variant and a widened gap flag again |
| AuditCheck.ForkPrintInjective | src/audit.ts:364-372 | equal fork fingerprints mean the same machine, seq and variants |
| AuditAppend.AuditLog.NextSeqLocked | src/audit.ts:296-302 | the next seq is one above the larger of counter file and in-memory floor, and both are moved to it |
| AuditAppend.AuditLog.PrevDigestLocked | src/audit.ts:314-319 | of any log, the link is the digest of the entry with the highest seq, the later of equals, or genesis; it fails exactly if that entry cannot be encoded |
| AuditAppend.AuditLog.AppendLocked | src/audit.ts:329-347 | the log grows by one linked entry and stays a chain if it was one; on a failure the seq is spent and the log unchanged |
| AuditAppend.ChainExtends | src/audit.ts:314-347 | an entry above the log and linked to its last extends the chain |
| AuditAppend.AppendInSteps | src/audit.ts:329-347 | undisturbed, the steps of one append are what AppendLocked computes |
| AuditAppend.StepKeepsInv | src/audit.ts:142-176 | every step of every process, crashes included, keeps the log a chain below the counter and only extends it |
| AuditAppend.EveryRunIsAChain | src/audit.ts:142-176 | in every interleaving seqs ascend, each link is the entry before, and nothing logged is lost |
| AuditAppend.EveryNumberIsAccountedFor | src/audit.ts:296-347 | in every run each minted seq is, exactly one of: in the log, held by an append under way, or lost to an append that failed after minting |
| AuditAppend.GapsAreFailedAppends | src/audit.ts:296-347 | from nothing, a seq below the top of the log is missing if and only if the append that minted it failed before it wrote |
| AuditAppend.UnbrokenRunsCountUp | src/audit.ts:296-347 | from nothing, with no failure inside the lock, the log counts up from 1 however many processes append, and no gap is flagged |
| AuditAppend.RunsRaiseNoChainAlarm | src/audit.ts:296-346 | no reader of any part of what any run logged raises a chain flag for the machine |
| NewestWins.EnumerateTips | src/derive.ts:112-143 | the tips are the newest of each machine, in machine order |
| NewestWins.ListedTipIsLatest | src/derive.ts:123-140 | the tip listed for a machine is its latest commit, the greatest sha of several in one second |
| NewestWins.RefNamesMachine | src/derive.ts:104-110 | a ref names a machine exactly if it ends in `/sync/` and a name without a slash |
| NewestWins.LineNamesTip | src/derive.ts:125-133 | a line gives the tip of its machine, sha and date, and none if the date is no number |
| NewestWins.TipListUnique | src/derive.ts:112-143 | the tip list depends only on the set of (machine, time, sha) triples |
| NewestWins.PickWinner | src/derive.ts:231-243 | the winner beats every other tip that has a time for the path; none wins if none has |
| NewestWins.WinnerUnique | src/derive.ts:231-243 | the winner is the same for every order and repetition of the tips |
| NewestWins.BothSidesAgree | src/syncer.ts:1183-1189 | two machines merging each other's tips choose the same side |
| NewestWins.DerivedAgreesWithSyncer | src/derive.ts:231-243 | the winner equals folding the two-way rule over the tips if and only if some timed tip is ahead of every untimed one |
| NewestWins.TimesSuffice | src/derive.ts:231-243 | the rules agree when every tip has a time and when one has a time after the epoch |
| NewestWins.NoTimesNoDerivedWinner | src/derive.ts:231-243 | without any time for the path there is no derived winner, and the fold still keeps a side |
| NewestWins.EpochTimeParts | src/syncer.ts:1183-1189 | an untimed tip and a later-named one timed zero: the derived main takes the timed one, the merge the other |
| DeriveMain.ParseInputSet | src/derive.ts:407-416 | the loop collects exactly the lines of the recorded shape |
| DeriveMain.InputLineShape | src/derive.ts:407-416 | a tip's line has the recorded shape exactly if its machine name holds no white space |
| DeriveMain.InputSetReadBack | src/derive.ts:407-429 | the message reads back the set it was written from exactly if no machine name holds white space |
| DeriveMain.NoBreakSpaceIsNotReadBack | src/derive.ts:104-110 | a name with a no-break space passes the ref check and does not read back |
| DeriveMain.Derive.PushDerivedMain | src/derive.ts:478-535 | one leased push: origin moves exactly if the lease holds and origin accepts; what is owed is counted |
| DeriveMain.Derive.OriginMainMovedByOther | src/derive.ts:550-558 | a move is foreign exactly if it was seen before at another value and this machine did not push the new one |
| DeriveMain.ForeignMoveIsSeenOnce | src/derive.ts:550-558 | a move of the fetched main is reported once, and only if this machine did not push it; the first value seen is no move |
| DeriveMain.OwnPushIsNotForeign | src/derive.ts:478-558 | a main this machine pushed is never reported as another's |
| DeriveMain.Derive.UpdateMain | src/derive.ts:560-613 | unchanged inputs mint nothing and at most retry an owed push; changed inputs mint |
| DeriveMain.Derive.MintMain | src/derive.ts:650-685 | minting forgets what was owed and pushes if this machine is the pusher |
| DeriveMain.MintingTick | src/derive.ts:560-685 | a tick that mints records its tips and, as the pusher, pushes at once: origin moves if the lease holds and origin accepts, else the commit is owed with no retry spent |
| DeriveMain.UnchangedTick | src/derive.ts:574-613 | over unchanged tips the pusher retries exactly if its commit is owed with fewer than three retries spent; a retry that lands moves origin |
| DeriveMain.IdleTick | src/derive.ts:565-568 | without tips, or if a git step throws before the commit, nothing changes |
| DeriveMain.MintsExactlyWhenChanged | src/derive.ts:570-575 | a tick mints if and only if its tips differ, as machines and shas, from those of the last derived commit or failing one the fetched main |
| DeriveMain.NewMainReachesOrigin | src/derive.ts:678-682 | in the fleet, a new main reaches origin in the tick that minted it, whenever the pusher's lease holds and origin accepts |
| DeriveMain.RefusedPushIsRetried | src/derive.ts:576-612 | a pusher refused every time attempts exactly as often as it has retries left, three in all |
| DeriveMain.PushesAreBounded | src/derive.ts:478-613 | in every run a machine's push attempts are at most four times the commits it minted |
| DeriveMain.OnlyLeasedPushesMoveOrigin | src/derive.ts:478-535 | origin's main moves only by a push whose lease named its value, or by hand |
| DeriveMain.UnchangedTipsMintNothing | src/derive.ts:574-613 | a tick over the tips of the last minted commit mints nothing |
| DeriveMain.WhiteSpaceNeverSettles | src/derive.ts:574-613 | with a white-space name every tick over unchanged tips mints |
| DeriveMain.FleetSettles | src/derive.ts:560-685 | once inputs stop changing, each machine makes a fixed number of further pushes, across restarts and refusals |
| SyncLoop.Daemon.Tick | src/node.ts:1720-1766 | one tick of the loop over all repositories, with the streak and the latches it leaves |
| SyncLoop.PushExactly | src/node.ts:332-384 | the anchor and a machine without peers always push; another roamer exactly on its second offline tick or later, with the fetch not failed and no foreign push sighted |
| SyncLoop.TakeoverHappens | src/node.ts:1720-1766 | two quiet offline ticks in a row end in a push, whatever came before |
| SyncLoop.TakeoverWindow | src/node.ts:329-400 | a roamer's push means the anchor read offline on this tick and the one before, and neither saw the repository's main moved by another |
| SyncLoop.TakeoverWindowInEveryRun | src/node.ts:1720-1766 | the same in every run from a start, which has then at least two ticks |
| SyncLoop.FirstTickDefers | src/node.ts:392-400 | the first tick after a start never takes over |
| SyncLoop.SharedNameBreaksTheWindow | src/node.ts:1740-1759 | with two repositories under one name the second is pushed one tick after it was seen moved by another |
| SyncLoop.WindowNeedsDistinctNames | src/node.ts:1740-1759 | over any list of repositories, the window holds in every two-tick run if and only if their names are distinct |
| SyncLoop.PushLeavesForeignMainsAlone | src/node.ts:1720-1766 | in terms of refs: a takeover push means that on both ticks origin's main, where known before and now, was as last seen or this machine's own push |
| AdminRuns.AtMostOnce | src/sshadmin.ts:902-1036 | however one run id is delivered, the target leg starts at most once while its marker stands, and every exit code replied is that execution's |
| AdminRuns.MoveKeepsInv | src/sshadmin.ts:989-1036 | every step of any answering process keeps one owner, one execution and agreeing replies |
| AdminRuns.Target.ClaimRun | src/sshadmin.ts:989-1012 | the exclusive create decides: won, duplicate with what is on record, or unusable, and only a win leaves a marker |
| AdminRuns.Target.ExecLocal | src/sshadmin.ts:930-974 | the leg runs if and only if the claim is won; a duplicate is answered from the record and an unusable marker refuses, and neither runs anything |
| AdminRuns.WonInSteps | src/sshadmin.ts:902-974 | undisturbed, the steps of a delivery that wins the claim are what ExecLocal computes |
| AdminRuns.LostInSteps | src/sshadmin.ts:940-956 | undisturbed, the steps of a duplicate replay the record and run nothing |
| AdminRuns.PruneAllowsASecondRun | src/sshadmin.ts:1041-1054 | after its marker is pruned a run id executes again |
| AdminRuns.SalvageIsSound | src/sshadmin.ts:1641-1654 | whatever prefix of a reply was captured, an exit code salvaged from it is the one sent |
| AdminRuns.SalvageExactly | src/sshadmin.ts:1641-1654 | a salvage succeeds if and only if the capture reaches one character past an exit code of at most ten digits |
| AdminRuns.DialExitIsSent | src/sshadmin.ts:751-835 | an exit code a dial reports was carried by a reply to this run |
| AdminRuns.WholeReplyIsReported | src/sshadmin.ts:751-835 | a reply that arrives whole in time is reported as it is, whatever ssh itself says |
| AdminRuns.CutOffReplyIsReported | src/sshadmin.ts:800-818 | and so is one cut off by the capture cap, if the exit code came through |
| AdminRuns.FallbackExactly | src/sshadmin.ts:358-406 | the second transport counts if and only if the first dial proves that nothing ran |
| AdminRuns.OriginReportsTheExecution | src/sshadmin.ts:713-835 | an exit code the origin reports is the single execution's, over either transport, whole, truncated or replayed |
| AdminRuns.CleanRunIsReported | src/sshadmin.ts:713-974 | a run nobody disturbs executes once and is reported as it ended |
| PublicKey.TokenIsKey | src/sshadmin.ts:119-126 | a key token cut out of a longer text is a key on its own |
| PublicKey.TokenStable | src/sshadmin.ts:119-126 | a key token ends where it ends whatever follows it |
| PublicKey.KeyExactly | src/sshadmin.ts:118-125 | a key is one of the seven types, base64 text and at most three equals signs, and nothing else |
| PublicKey.NormalizeExactly | src/sshadmin.ts:412-416 | a line normalizes to a key exactly if it is the key with nothing or a one-line comment behind it |
| PublicKey.NormalizeKeyFixed | src/sshadmin.ts:412-416 | normalizing a normalized key changes nothing |
| GrantFile.MarkedForOne | src/sshadmin.ts:443-455 | no valid name's marker is the end of another's, so a line is marked for one machine at most |
| GrantFile.MarkedExactly | src/sshadmin.ts:443-455 | a line is marked for a machine exactly if it ends in the machine's marker, white space apart |
| GrantFile.ReplaceMarkedBody | src/sshadmin.ts:447-455 | replacing drops the machine's lines, appends the replacement, and keeps every other line in order |
| GrantFile.ReplacedText | src/sshadmin.ts:447-455 | the bytes written: the kept lines and the replacement, each ended by a newline |
| GrantFile.SshdReadsTheGrant | src/sshadmin.ts:1453-1465 | whatever the forced command, sshd reads a grant as good from the mesh address, and on the anchor from its loopback, with every right but the forced command withheld, and then the key |
| GrantFile.CommandIsReadExactly | src/sshadmin.ts:434-438 | the forced command is read as it was meant if and only if it holds no backslash; by a reader of doubled backslashes, always |
| GrantFile.BackslashIsRunTwice | src/sshadmin.ts:434-438 | a command with one backslash is run with two |
| GrantFile.OtherLinesStay | src/sshadmin.ts:1392-1508 | whatever operations run, every line carrying none of their markers stays, byte for byte and in order |
| GrantFile.LastEditDecides | src/sshadmin.ts:1392-1508 | what the file says of a machine is the last edit about it alone: one line, none, or what it said before |
| GrantFile.EditsCompose | src/sshadmin.ts:1392-1508 | operations one after another are one run of edits |
| GrantFile.GrantReadsBack | src/sshadmin.ts:1432-1469 | a grant reads back as its machine and key exactly if the forced command holds no marker prefix |
| GrantFile.MarkedReadsAsItself | src/sshadmin.ts:1432-1451 | a line marked for one machine is never read as another's grant |
| GrantFile.RecoverReadsBack | src/sshadmin.ts:1432-1469 | the key recovered for a machine is the one last written for it, however many other edits came before or after |
| GrantFile.ChangedWhen | src/sshadmin.ts:1392-1404 | a removal is reported exactly if there was a grant or the text was not in canonical form |
| GrantFile.GrantFiles.WriteAuthorizedKey | src/sshadmin.ts:1453-1470 | a usable bundle replaces the machine's line by one that sshd reads as its grant, other lines kept; any other is refused and changes nothing |
| GrantFile.GrantFiles.CloseInboundDoor | src/sshadmin.ts:1392-1404 | every configured peer's grant is cleared, and the report lists the removals that changed the text |
| GrantFile.ClosedDoorGrantsNobody | src/sshadmin.ts:1392-1404 | after closing no configured peer has a grant |
| GrantFile.GrantFiles.OpenInboundDoor | src/sshadmin.ts:1410-1427 | a grant for each peer with a key, up to the first one refused; the paired peers without a key are listed |
| GrantFile.OpenedDoorGrants | src/sshadmin.ts:1410-1427 | after opening each peer with a usable key has exactly the one grant written for it |
| GrantFile.OpenedDoorLeavesOthers | src/sshadmin.ts:1410-1427 | and every other machine's lines are as they were |
| GrantFile.OpeningsExactly | src/sshadmin.ts:1410-1427 | the grants written are those of the peers with a usable key before the first one refused |
| GrantFile.KeylessExactly | src/sshadmin.ts:1414-1418 | the peers listed without a key are exactly the paired ones whose key is unusable |
| GrantFile.GrantFiles.RevokePeer | src/sshadmin.ts:1498-1511 | a valid name's lines leave both files; another name is refused |
| GrantFile.GrantFiles.RecoverStoredPeerKeys | src/sshadmin.ts:1432-1451 | the loop returns, for each machine, the key of its last readable grant |
| PairingHellos.Pairing.MintCode | src/pairing.ts:556-563 | a fresh code with five attempts becomes the live one |
| PairingHellos.Pairing.LiveCode | src/pairing.ts:585-592 | the live code, unless it has expired, which ends it |
| PairingHellos.Pairing.FinishHello | src/pairing.ts:648-686 | the second half of a hello acts on the code it looked up, only if that very code is still live |
| PairingHellos.ArriveFindsTheLiveCode | src/pairing.ts:585-649 | a hello gets past its lookup exactly if a code is live and in time, and then holds that one |
| PairingHellos.OneShot | src/pairing.ts:556-686 | in every interleaving each code completes at most one hello, is charged at most five wrong MACs, and is dead after either |
| PairingHellos.DeadForGood | src/pairing.ts:648-686 | a code that is not live never completes and is never charged again |
| PairingHellos.MintReplaces | src/pairing.ts:556-563 | minting kills every earlier code |
| PairingHellos.RightMacCompletes | src/pairing.ts:658-686 | a right MAC completes if and only if the key is usable, the code is still live and has not expired |
| PairingHellos.WrongMacCosts | src/pairing.ts:658-680 | a wrong MAC completes nothing, and costs the code one attempt exactly if it is live, in time and has its key; the last one kills it |
| PairingHellos.RightMacSpends | src/pairing.ts:658-686 | a right MAC is never charged; it completes and ends the code, or completes nothing |
| PairingHellos.DiesOnlySo | src/pairing.ts:556-686 | a live code dies exactly by a mint, a cancellation, expiry, a right MAC or its last wrong one |
| PairingHellos.EveryCodeWasMinted | src/pairing.ts:556-563 | in every run each code comes from a mint, expires five minutes after it, and has five attempts less those charged |
| PairingHellos.OnlyARightMacCompletes | src/pairing.ts:658-686 | in every run a code completes a hello only by a right MAC, while live and within five minutes of its mint |
| PairingHellos.FiveWrongMacsBurn | src/pairing.ts:672-680 | in every run the fifth wrong MAC charged to a code kills it, and no earlier one does |
| Enrollments.EnrollmentStore.MintToken | src/enroll.ts:240-291 | minting is refused at 32 live records or for a machine that has one; otherwise a record is added and written |
| Enrollments.EnrollmentStore.RevokeToken | src/enroll.ts:293-304 | revoking marks an unused, unrevoked record and writes |
| Enrollments.EnrollmentStore.BurnToken | src/enroll.ts:325-339 | burning succeeds only on a live record, which it marks used and writes |
| Enrollments.EnrollmentStore.FinishHello | src/pairing.ts:692-742 | an enrollment hello completes exactly if its MAC and identity fit and the burn succeeds, however old its lookup |
| Enrollments.CallsExactly | src/enroll.ts:240-339 | when a mint, revocation or burn is refused, and otherwise which records it leaves, marked, added and pruned, in memory and in the file |
| Enrollments.LiveStaysBounded | src/enroll.ts:240-291 | in every run at most 32 records are live and no two for one machine, across failed writes and restarts |
| Enrollments.BurnsOnce | src/enroll.ts:325-339 | an id burns successfully at most once and never after a successful revocation, across failed writes and restarts |
| Enrollments.BurnsInTime | src/enroll.ts:221-226 | a token never burns later than 24 hours after its mint |
| Enrollments.NeverBackToLive | src/enroll.ts:198-226 | nothing returns to live, except by a restart, and then exactly if the file still holds it live |
| Enrollments.LostWriteRevives | src/enroll.ts:203-209 | a burn whose write fails is live again after a restart |
| MergeRecovery.GitDir.AbortOwnMerge | src/syncer.ts:419-433 | a merge is aborted only if MERGE_HEAD equals the marker |
| MergeRecovery.GitDir.SettleStrandedMerge | src/syncer.ts:371-392 | the cycle goes on exactly if no merge is open any more |
| MergeRecovery.GitDir.MergeTip | src/syncer.ts:1078-1103 | the merge left open, if any, and the marker: begun with no merge open they agree; begun inside another merge, the marker names the new tip instead |
| MergeRecovery.SettleInSteps | src/syncer.ts:371-392 | undisturbed, the settling steps are what SettleStrandedMerge computes |
| MergeRecovery.MergeInSteps | src/syncer.ts:1078-1103 | undisturbed, the steps of a merge attempt are what MergeTip computes |
| MergeRecovery.AutoCommitIsSafe | src/syncer.ts:274-291 | in every run, whatever git's aborts leave behind, the auto-commit never starts inside a merge |
| MergeRecovery.CrashSafe | src/syncer.ts:1078-1162 | in every run without a marker written over another open merge's, the daemon aborts only where MERGE_HEAD equals the marker and recognises its own merge next cycle |
| MergeRecovery.RecoverableExactly | src/syncer.ts:1078-1162 | in every run, dying anywhere leaves the daemon's own merge recognisable if and only if no marker was written over another open merge's |
| MergeRecovery.OverwrittenMarkerIsLost | src/syncer.ts:1090-1095 | in every state with a merge open, the next marker keeps that merge recognisable exactly if it names the same tip |
| MergeRecovery.OverwrittenMarkerMisaborts | src/syncer.ts:1152-1162 | and the abort that follows runs under a marker other than MERGE_HEAD exactly if the tips differ |
| MergeRecovery.ClearingDeferralsSuffice | src/syncer.ts:1152-1162 | if every deferral's abort clears, no marker is written over another's and the regenerators' commit never starts inside a merge |
| MergeRecovery.DeferralExact | src/syncer.ts:1152-1162 | the regenerators' commit after a deferral starts inside the deferred merge, and concludes it, exactly if the abort left it open |
| MergeRecovery.FailedDeferralLosesTheMarker | src/syncer.ts:1152-1162 | a failed deferral abort lets the next merge overwrite the marker; the daemon then aborts under the wrong marker or disowns its merge |
| MergeRecovery.PeoplesMergesSurvive | src/syncer.ts:371-433 | whatever git's aborts leave behind, the daemon aborts only merges it opened, unless a person merges the very tip of a leftover marker |
| MergeRecovery.SparedExactly | src/syncer.ts:371-433 | in every run, the next cycle would leave a person's merge alone at every point if and only if nobody opened a merge of the tip in the marker |
| MergeRecovery.LeftoverMarkerClaimsAPersonsMerge | src/syncer.ts:1090-1095 | from every idle state, the next cycle takes a person's merge for its own exactly if the leftover marker names its tip |
| MergeRecovery.CrashLeavesTheMarker | src/syncer.ts:1090-1095 | dying between marker and merge leaves such a marker with no merge open |
| LockRetirement.DestroysOnlyTheVettedLock | src/gitlocks.ts:292-340 | the daemon takes a file's last name only if it is the vetted lock, unchanged in inode, device, size and time, empty and retirable, or its owner released it after the put-back |
| LockRetirement.NothingMovesUnvetted | src/gitlocks.ts:211-247 | in every run a lock is moved only after an lstat that found it retirable and a holder check that came back free |
| LockRetirement.PutBackExact | src/gitlocks.ts:311-324 | at the last step, the put-back file survives exactly if the unlink fails or some other name still holds it |
| LockRetirement.PutBackSurvives | src/gitlocks.ts:311-324 | in every run, a put-back file survives exactly if the unlink fails or no release and no publication between link and unlink took its last other name |
| LockRetirement.ReleaseInTheWindow | src/gitlocks.ts:311-324 | an owner's release between link and unlink loses the file |
| LockRetirement.DifferentLockIsPutBack | src/gitlocks.ts:311-324 | a lock that differs ends at its name or at the aside name; after the unlink it is at its name and the rest is as before |
| LockRetirement.RetiredLockIsKept | src/gitlocks.ts:325-340 | a non-empty vetted lock is renamed, never unlinked, and is where the outcome says |
| LockRetirement.FileSystem.RetireLock | src/gitlocks.ts:292-340 | undisturbed, a lock as vetted leaves its name for nowhere if empty and for the quarantine if not; any other file is back where it was |
| LockRetirement.RetiredIffUnchanged | src/gitlocks.ts:311-340 | a lock moved aside is retired if and only if it is the vetted file unchanged; any other is put back |
| LockRetirement.FileSystem.ReapLock | src/gitlocks.ts:211-247 | nothing moves unless the lock is an eligible file and its holder check is free; no other name is touched |
| LockRetirement.ReapedExactly | src/gitlocks.ts:211-281 | an orphan leaves its name, for nowhere if empty and for the quarantine if not; any other lock stays |
| LockRetirement.FileSystem.ReapGitLocks | src/gitlocks.ts:201-258 | over all the locks found, each ends as if it alone had been reaped, and no other name is touched |
| LockRetirement.StepsAloneRetire | src/gitlocks.ts:292-340 | undisturbed, the steps of the machine are what RetireLock computes |
| WindowsQuoting.Quote | src/windows-access.ts:43-50 | the loop builds the quoted form, backslash runs doubled where the rules need it |
| WindowsQuoting.Assemble | src/windows-access.ts:59-60 | the command line is the quoted words joined by spaces, refused from 32767 characters |
| WindowsQuoting.UnitsCount | src/windows-access.ts:60 | the length held against the limit is one for each character and one more outside the basic plane |
| WindowsQuoting.RuntimeUndoesQuoting | src/windows-access.ts:42-59 | behind a file's path the runtime reads back exactly the arguments, for exactly the NUL-free ones, by both rules for the program name |
| WindowsQuoting.QuoteInProgramPathIsMisread | src/windows-access.ts:59 | why the path must hold no quote, which no Windows file name does: by CommandLineToArgvW's rule it would be misread |
| ShellQuoting.ShellUndoesQuoting | src/access.ts:23 | the shell reads back exactly the argument list, for exactly the NUL-free lists |
| ShellQuoting.RemoteArgvArrives | src/access.ts:37-40 | the remote command runs perl with the runner, the deadline and the caller's arguments intact |
| ShellQuoting.Utf8Count | src/access.ts:39 | the length held against the limit is the number of UTF-8 bytes |
| ShellQuoting.LongCommandsAreRefused | src/access.ts:39 | a command is refused exactly if it is longer than 64 KiB |
| PairingCode.GenerateCode | src/pairing.ts:121-137 | on a 32-bit accumulator, twelve digits worth the 64-bit input shifted right by four; the accumulator never exceeds twelve bits |
| PairingCode.CodesSeparateTopBits | src/pairing.ts:121-137 | two inputs get the same code exactly if their top 60 bits agree |
| PairingCode.CodeValueInjective | src/pairing.ts:121-137 | a code's digits are determined by its value |
| BitWords.ShiftDivides | src/pairing.ts:132 | shifting a 32-bit word right divides by a power of two, for every distance the loop uses |
| BitWords.MaskTakesRemainder | src/pairing.ts:133 | masking with `(1 << k) - 1` takes the remainder, for every width the loop uses |
| BitWords.JoinAppends | src/pairing.ts:128 | a byte shifted in from the right is appended, as long as nothing is shifted out on the left |
| PairingCode.NormalizeRecovers | src/pairing.ts:149-155 | what was typed normalizes to a code exactly if it is a way of writing it: any case, spacing, dashes, O, I and L, and the characters that upper-case into digits |
| PairingCode.FormatShape | src/pairing.ts:142-144 | a code is shown as three groups of four with dashes between them |
| PairingCode.DisplayIsRecovered | src/pairing.ts:142-155 | the display form normalizes back to the code |

## Left out

- AuditAppend.StepKeepsInv: the wait, timeout and retry of the lock loop are not steps.
- AuditEntries.ParseJsonl: the bytes of damaged lines are counted in characters, in the original in UTF-16 units.
- AuditUnion.FingerprintOfSet: variants are sorted by codepoint, the original sorts by UTF-16 unit; both orders depend only on the set, so the fingerprint is used only as a function of it.
- AuditCheck.CrossCheck: the job issuance and execution matching pass is not part of this model; its index keeps the last entry per job and so depends on input order.
- AdminRuns.AtMostOnce: decoding, the refusal gates, sudo and the audit entries are outside it, and a refusal is an outcome without an exit code.
- AdminRuns.SalvageIsSound: a reply stands on its own line; a login banner on the same line is not modelled.
- GrantFile.SshdReadsTheGrant: that the options are ones sshd knows, and its parsing of the key behind them, are outside it.
- GrantFile.RecoverReadsBack: names are the ones MACHINE_NAME_RE accepts; a hand-edited configuration may hold others, which writing refuses.
- Enrollments.BurnsOnce: records are values replaced in the list, not objects shared by reference; two overlapping first loads are not modelled.
- PairingHellos.OneShot: the freshness window, the timing floor and what follows a completed hello are not modelled.
- MergeRecovery.CrashSafe: removing the marker file is taken to succeed, and conflict resolution inside a merge is one step that commits or throws.
- LockRetirement.DestroysOnlyTheVettedLock: finding the locks, the process scan behind the holder check and a failing lstat of the aside name are outside it; runs with interference follow one lock.
- DeriveMain.FleetSettles: merging trees and minting commits are an outcome of one step; the tips a tick sees are given to it.
- WindowsQuoting.RuntimeUndoesQuoting: characters are code points; unpaired surrogates are not modelled.
- Pinning known hosts, the doors' callers, the MCP surface, HTTP routing, the tray client, health, gossip and watchdog timing, real cryptography and key sealing: mostly input and output, or true but easy.
