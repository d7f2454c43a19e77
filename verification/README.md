# A verified model of the quality-gate engine

This project models the scripts that decide whether a change may be pushed, and
proves what they promise each other. Every script is modelled with its own
branches and constants; what it reads from the outside (git, GitHub, Stryker, a
child process, the clock) is a parameter, so each theorem holds for whatever the
outside does.

| file | what it models |
|---|---|
| `StateBranch.dfy` | the files of the `stryker-state` branch, trees built on a base tree, the commits of each subcommand |
| `CommitProtocol.dfy` | `commitFiles` for any number of concurrent calls, step by step, in any interleaving |
| `RemoteBranch.dfy` | the same loop, `ensureBranch`, `acquireLock` and `cmdRun` as imperative code, with the rivals' commits and the service's failures as parameters |
| `LockProtocol.dfy` | the soft lock over whole runs with a clock; its race |
| `ProgressLog.dfy` | `parseProgressJsonl` against a reading of the log by line positions |
| `Scores.dfy`, `MutationGate.dfy` | scores, the judgement, the three-way split, the checkpoint, the baseline rewrite |
| `Checkpoints.dfy` | what a checkpoint entry was measured on, over one run and over any sequence of runs; reruns that resume |
| `Ratchet.dfy` | repeated gate runs against the floor audit |
| `Backfill.dfy` | the backfill against the coverage audit |
| `PeerAbort.dfy` | N wrappers, one sentinel file, timers; the handlers as imperative code |
| `AuditPool.dfy` | the worker pool under any completion order |
| `GlobCompiler.dfy` | the glob-to-regex rewrites, the expression they yield, and its meaning |
| `GateCache.dfy` | content fingerprints and the skip cache over any sequence of runs |
| `Occurrences.dfy` | the greedy occurrence count and its optimality |
| `Text.dfy`, `Collections.dfy`, `Wrappers.dfy` | string operations, filtering and counting, `Option` |

`dafny verify dfyconfig.toml` checks everything.

## How the main results fit together

- **Shared state.** The remote never sees which head a call has read; it only
  refuses what is not a fast forward. `UpdateIsCompareAndSwap` shows that this is a
  compare-and-swap in every reachable state. From it follow one linear chain
  (`BranchIsLinear`), exactly-once calls, lock-free progress, and
  `NoLostShardState`. `StepIsAtomic` says which step lands which commit, and
  `ModelsStayTogether` that over whole runs this is what `LockProtocol` takes as one step.
- **The lock.** `acquireLock` reads the lock once and the retry loop never looks
  again, so mutual exclusion does not hold unconditionally: `TwoHoldersAreReachable`
  is a run without forcing in which two clients hold one shard. `HoldersNeverOverlap`
  is the theorem over whole runs, and `QuietReadsNeverOverlap` derives it from timing
  alone: no commit of the shard between a client's read and the landing of its
  acquisition. `AcquireIsSafeIff` gives the exact condition a client could test, and
  `ExclusiveIffFreeLandings` lifts it to runs.
- **Checkpoints.** `ReportMeans` says what is reported in terms of line positions
  alone. `NewRunShadowsOld` and `StaysReportedIff` say exactly when an older
  session's result survives. An older session's score can be stamped with the hash of
  content it never saw: `StaleScoreIsResumed` is such a trace from an empty disk, up to
  the baseline. `StampsAreFreshIff` says what to check on disk before Stryker starts to
  rule it out, `EntriesAreMeasured` and `ResumesAreMeasured` what follows over whole
  histories, and `StaysMeasuredIff` that the check is exact there too.
- **Resuming.** A rerun judges a file by the log instead of the report. They score
  different mutants: `CheckpointIsLowerIff` compares them, `RerunFlipsIff` says exactly
  when the rerun passes what has just failed, and `RerunPassesWhatFailed` is such a push.
- **Scores.** Each pass rewrites the baseline it was tolerated against, so a score is
  not monotone. `DriftBound` bounds the loss, `DriftBoundIsMet` reaches the bound, and
  `AcceptedIffOneRun` says how many runs the floor audit allows between two commits.

## Where the code and its documentation disagree

The model follows the code.

- `run-mutants-shared.ts:11-19` speaks of force-pushes and two files; the code updates
  the ref without force and keeps a lock and a cache for each shard.
- `checkpoint-reporter.mjs:17-18` says earlier sessions stay authoritative for files they
  completed; a later session that merely starts on the file replaces them
  (`LaterPartialSessionUncompletes`).
- `audit-baseline-floor.ts:5-10` compares with origin/main and allows no decrease; the
  code compares with HEAD and allows half a point.
- `run-audits-parallel.ts:15` promises the OR of the exit codes; the code exits 1. A
  process ended by a signal is recorded as 0.
- `run-with-peer-abort.ts:131-136` calls whoever writes the sentinel the originator; the
  error handler lets an aborted wrapper whose kill failed replace that name
  (`FailedKillReplacesTheCulprit` is such a run). `SentinelNamesCulpritIff` is the exact
  condition over all runs.
- `prepush-mutation-gate.ts:502-503` says that a regression of a cached run still fails the
  gate on resuming; the cached score can be higher than the one that failed
  (`RerunPassesWhatFailed`).
- `step-content-hash.ts:7-8` speaks of hashing the concatenated ids; the code joins their
  first ten digits. When the list of inputs has been edited, equal fingerprints mean equal
  content position by position (`EditedSkipIff`).

## Model

| member | source | states |
|---|---|---|
| StateBranch.FileNamesAreDisjoint | tooling/scripts/run-mutants-shared.ts:66-76 | lock and cache file names are injective in the shard name, and lock, cache and README names never coincide |
| StateBranch.FileNames | tooling/scripts/run-mutants-shared.ts:66-76 | the names of the cache, the lock and the read-me file, with and without a shard |
| StateBranch.LandFrame | tooling/scripts/run-mutants-shared.ts:231-243 | path by path, what each kind of commit changes: only a shard's push or bootstrap sets its cache, a release or force-unlock removes its own lock and touches no other path; the first commit writes the read-me file |
| StateBranch.OtherShardsUntouched | tooling/scripts/run-mutants-shared.ts:218-230 | a commit of one shard leaves cache and lock of every other shard as they were |
| StateBranch.CacheIsLastSaved | tooling/scripts/run-mutants-shared.ts:451-468 | after any sequence of commits a shard's cache file holds exactly the bytes of that shard's last push or bootstrap, and is absent if there was none |
| StateBranch.LockIsLastChange | tooling/scripts/run-mutants-shared.ts:411-438 | after any sequence of commits a shard's lock file is what its own last lock-changing commit left |
| CommitProtocol.UpdateIsCompareAndSwap | tooling/scripts/run-mutants-shared.ts:263-291 | in every reachable state a ref update is accepted if and only if the ref still equals the head the call read |
| CommitProtocol.RejectionCounts | tooling/scripts/run-mutants-shared.ts:307-358 | in every state of the invariant a rejected update leaves the remote alone; the first four times the call reads the head again, the fifth time it throws |
| CommitProtocol.LifeOfACall | tooling/scripts/run-mutants-shared.ts:331-358 | which moves a call may make at each point and what each leaves: a failed read counts as a missing branch, the commit is laid on the tree of the head that was read |
| CommitProtocol.LandingOfACall | tooling/scripts/run-mutants-shared.ts:263-291 | an update that finds the head it read moves the ref to its commit; with a lost reply the remote ends up the same and the call has failed |
| CommitProtocol.AroundTheCalls | tooling/scripts/run-mutants-shared.ts:331-358 | a call may begin at any time, on its first attempt; the branch is created only while there is none |
| CommitProtocol.StepKeepsInv | tooling/scripts/run-mutants-shared.ts:331-358 | every step of every call, failed reads, lost replies and crashes included, keeps the protocol invariant |
| CommitProtocol.BranchIsLinear | tooling/scripts/run-mutants-shared.ts:333-341 | in every interleaving the branch's tree is the fold of the accepted commits along one chain |
| CommitProtocol.StepIsAtomic | tooling/scripts/run-mutants-shared.ts:333-341 | the update that finds the head its call had read adds that call's commit and lays its files over the tree; every other step leaves commits and tree alone |
| CommitProtocol.StepExtendsHistory | tooling/scripts/run-mutants-shared.ts:263-291 | the branch only ever grows, by at most one commit a step |
| CommitProtocol.NoLostShardState | tooling/scripts/run-mutants-shared.ts:218-230 | in every reachable state each shard's cache is the last one accepted for that shard |
| CommitProtocol.ExactlyOnce | tooling/scripts/run-mutants-shared.ts:331-358 | a call that returned has exactly one commit on the branch, one that threw the conflict or is still running has none, a crashed one at most one |
| CommitProtocol.GivingUpMeansFiveRivals | tooling/scripts/run-mutants-shared.ts:307-358 | a call that gave up saw at least 5 distinct commits of other callers accepted while it ran, less one for each read of the head that failed |
| RemoteBranch.Remote.CreateCommit | tooling/scripts/run-mutants-shared.ts:245-261 | the new commit is the operation laid on the head's tree with that head as parent; it is on no branch yet and the branch is unchanged |
| RemoteBranch.Remote.CreateOrUpdateRef | tooling/scripts/run-mutants-shared.ts:263-291 | for a new commit on a head that was once the tip, the remote's ancestor test accepts exactly when the ref equals that head, and then the branch grows by that commit |
| RemoteBranch.Remote.CommitFiles | tooling/scripts/run-mutants-shared.ts:331-358 | for any rivals, failed reads, errors and lost replies in 5 rounds: on an existing branch the first round with a working service, a successful read and no rival, with only conflicts before it, returns, and the branch has gained the rivals' commits so far and then the caller's; the conflict is thrown if and only if all 5 were spoiled, and then the caller's commit is not there |
| RemoteBranch.CallEnds | tooling/scripts/run-mutants-shared.ts:338-353 | a normal return means the commit landed, a conflict that it did not and that all attempts were made |
| RemoteBranch.GivesUpIff | tooling/scripts/run-mutants-shared.ts:342-346 | for any number of attempts, on an existing or a missing branch, the conflict is thrown if and only if no other error occurs and each attempt is spoiled: by a rival before its update, or by a failed read when there is a branch |
| RemoteBranch.FirstGoodAttempt | tooling/scripts/run-mutants-shared.ts:333-346 | for any number of attempts on an existing branch the first good one ends the call and lands its commit, and no later rival is met |
| RemoteBranch.Remote.EnsureBranch | tooling/scripts/run-mutants-shared.ts:504-510 | creates the branch only if the lookup finds none, without a retry; a failed lookup of an existing branch, or a rival that creates it first, makes it throw |
| RemoteBranch.Remote.AcquireLock | tooling/scripts/run-mutants-shared.ts:394-427 | refuses without changing the branch exactly when the lock cannot be looked up, or is dated within its time to live in hours and not forced; otherwise holds if and only if its commit call returns, and then the branch shows the caller's lock |
| RemoteBranch.Remote.RunShard | tooling/scripts/run-mutants-shared.ts:512-534 | the exact log and exit code a run leaves, for every failure of the branch's creation, the lock, the pull, the push and the release (UndisturbedRun says what they come to) |
| RemoteBranch.UndisturbedRun | tooling/scripts/run-mutants-shared.ts:512-534 | a run nobody disturbs adds acquire, push if there is something to save, and release, in this order, and creates a missing branch; on a live lock of another and without forcing it adds nothing and does not hold |
| RemoteBranch.BlindStart | tooling/scripts/run-mutants-shared.ts:504-510 | a run whose lookup of an existing branch fails gets no lock and adds nothing |
| RemoteBranch.SpoiledPush | tooling/scripts/run-mutants-shared.ts:342-353 | a run with a cache to push all of whose attempts are spoiled has not pushed, and the branch gains the rivals' commits alone |
| RemoteBranch.RunLeaves | tooling/scripts/run-mutants-shared.ts:512-534 | a run that got the lock and whose push landed, released beside other shards only, leaves its cache, and no lock, or its own lock if the release did not land |
| LockProtocol.StepKeepsInv | tooling/scripts/run-mutants-shared.ts:394-438 | a disciplined step with all holders within their time to live keeps every holder's lock on the branch |
| LockProtocol.LifeOfAClient | tooling/scripts/run-mutants-shared.ts:370-438 | which moves a client may make at each point and what each leaves: a lock within its hours to live refuses an unforced read, others lead to a lock of 8 hours dated at the read |
| LockProtocol.LifeAround | tooling/scripts/run-mutants-shared.ts:370-375 | time passes, a lock is forced open and a shard is seeded at any time, with the commit each means |
| LockProtocol.OthersStay | tooling/scripts/run-mutants-shared.ts:394-438 | a step changes the phase of the one client it names, and only waiting moves the clock |
| LockProtocol.HoldersNeverOverlap | tooling/scripts/run-mutants-shared.ts:370-438 | from any branch contents, without forcing, within the time to live and with no acquisition landing on an unread lock, no shard ever has two holders and a release deletes its own lock |
| LockProtocol.EachStepIsMade | tooling/scripts/run-mutants-shared.ts:394-438 | the states of a run: it begins where it starts, each step leads from one to the next, and it ends in the last |
| LockProtocol.DisciplinedRunIff | tooling/scripts/run-mutants-shared.ts:394-438 | the condition on a run, moment by moment: every step is disciplined in the state in which it is made |
| LockProtocol.TtlRespectedIff | tooling/scripts/run-mutants-shared.ts:370-375 | the time condition on a run: in every state of it each holder is within its time to live |
| LockProtocol.AcquireIsSafeIff | tooling/scripts/run-mutants-shared.ts:394-424 | where an unexpired lock means a running holder, an acquisition keeps the shard exclusive if and only if it lands on an absent or expired lock, the test of line 396 |
| LockProtocol.ExclusiveIffFreeLandings | tooling/scripts/run-mutants-shared.ts:370-438 | over whole runs, forced reads included, in which every lock is released by its holder within its time to live: no shard has two holders at any moment if and only if each acquisition finds an absent or expired lock in the state in which it lands |
| LockProtocol.FreeLockIsSafe | tooling/scripts/run-mutants-shared.ts:370-375 | an absent or stale lock on that tree is always safe |
| LockProtocol.QuietWindow | tooling/scripts/run-mutants-shared.ts:395-424 | if no commit of the shard lands, the lock stays what was read |
| LockProtocol.QuietReadsNeverOverlap | tooling/scripts/run-mutants-shared.ts:394-438 | a run without forcing in which, for any three moments, no commit of the shard lands between a client's read and the landing of its acquisition is disciplined and has no two holders |
| LockProtocol.StepsAreCommits | tooling/scripts/run-mutants-shared.ts:331-358 | a step of the commit protocol that lands what a step of the lock model commits leaves the same tree |
| LockProtocol.ModelsStayTogether | tooling/scripts/run-mutants-shared.ts:331-358 | over whole interleavings in which a client's commit is taken exactly when the protocol lands it, each side's moves are a run of its model and both end with one tree |
| LockProtocol.TwoHoldersAreReachable | tooling/scripts/run-mutants-shared.ts:394-424 | a run without forcing in which two clients hold one shard and the first release deletes the second client's lock |
| ProgressLog.ReadSessions | tooling/scripts/prepush-mutation-gate.ts:164-188 | the line loop computes the sessions by left fold, upserting by mutant id |
| ProgressLog.ParseProgressJsonl | tooling/scripts/prepush-mutation-gate.ts:151-212 | the loops compute the report specified by Report, for every log |
| ProgressLog.SessionMeans | tooling/scripts/prepush-mutation-gate.ts:173-187 | what is kept of a session: its manifest, and each mutant recorded in it exactly once with its last status |
| ProgressLog.ReportMeans | tooling/scripts/prepush-mutation-gate.ts:190-211 | a file is reported if and only if its newest session planned some mutants of it and tested as many distinct ones; counts by last status, adding up to mutantCount |
| ProgressLog.NewRunShadowsOld | tooling/scripts/prepush-mutation-gate.ts:190-197 | after appending a new run a file's report is that of the new run if it tested the file, and that of the old log otherwise |
| ProgressLog.AppendingKeepsReported | tooling/scripts/prepush-mutation-gate.ts:176-187 | while a file's session is the open one, no further line short of a manifest un-reports it or lowers its count |
| ProgressLog.StaysReportedIff | tooling/scripts/prepush-mutation-gate.ts:190-204 | exactly when lines without a manifest keep a reported file reported |
| ProgressLog.TruncationIsSafe | tooling/scripts/prepush-mutation-gate.ts:201-204 | every prefix of a log reports only files whose newest session in the prefix covers its manifest |
| ProgressLog.LaterPartialSessionUncompletes | tooling/scripts/prepush-mutation-gate.ts:190-204 | a concrete log on which a later partial session un-completes a completed file |
| Scores.ScoreFromStatusCounts | tooling/scripts/prepush-mutation-gate.ts:214-221 | the score lies between 0 and 100, and is 100 exactly when everything scored was killed |
| Scores.StatusScoreIs | tooling/scripts/prepush-mutation-gate.ts:214-221 | the checkpoint's score from the counts: killed or timed out of those neither ignored nor uncovered, 100 when there are none |
| Scores.ReportScoreIs | tooling/scripts/prepush-mutation-gate.ts:367-376 | the report's score as a ratio of two sets of mutants: static, equivalent, ignored and uncovered ones are in neither |
| Scores.CheckpointIsLowerIff | tooling/scripts/prepush-mutation-gate.ts:342-376 | for every report, static, equivalent and already-decided mutants included: the checkpoint score is at most the report score if and only if the report has nothing to score, or the log has not and no already-decided mutant survived, or the mutants the log scores are killed at no higher rate than those the report scores |
| Scores.KilledStaticMutantFlatters | tooling/scripts/prepush-mutation-gate.ts:367-375 | two mutants, one of them static and killed, on which the checkpoint says 50 and the report 0 |
| Scores.DecidedSurvivorFlatters | tooling/stryker/checkpoint-reporter.mjs:45-57 | two mutants, one of them decided before the run and surviving, on which the checkpoint says 100 and the report 50 |
| Scores.ResumedPassIsFreshPass | tooling/scripts/prepush-mutation-gate.ts:388-413 | where no static or equivalent mutant was killed and no already-decided one survived, both scores lie in [0,100] in order, and for every baseline a pass on the checkpoint is a pass on the report |
| Scores.PassImpliesIff | tooling/scripts/prepush-mutation-gate.ts:388-413 | for every baseline a pass on one score is a pass on the other, if and only if the scores are in order |
| MutationGate.Split | tooling/scripts/prepush-mutation-gate.ts:485-510 | the split loop puts each file in the bucket its hashes select, in order |
| MutationGate.MergeProgress | tooling/scripts/prepush-mutation-gate.ts:552-562 | the merge loop adds exactly the stamped entries of the completed files that needed mutation |
| MutationGate.RewriteBaseline | tooling/scripts/prepush-mutation-gate.ts:616-625 | the rewrite loop applies the verdicts in order and reports whether any entry moved |
| MutationGate.Gate.RunGate | tooling/scripts/prepush-mutation-gate.ts:415-682 | the state left on disk, the verdicts and the exit code are those of GateRun, and a check-only run leaves the baseline alone (ExitCodeIs, RecordedEntryIs and FailingRunLeaves say what they come to) |
| MutationGate.ExitCodeIs | tooling/scripts/prepush-mutation-gate.ts:598-681 | the exit code is 1 if some judged file does not pass; else 1 exactly when the run is not check-only, is in a push and some judged file's score and hash are not what the baseline records; the baseline changes only in a passing run that is not check-only, and a passing run leaves no checkpoint and no log |
| MutationGate.PassesIff | tooling/scripts/prepush-mutation-gate.ts:388-413 | a file passes if and only if its hash is the baseline's, or its score, the resumed one if there is one, is within half a point of its recorded score or, without a record, at least 95 |
| MutationGate.RecordedEntryIs | tooling/scripts/prepush-mutation-gate.ts:485-625 | the entry a passing run records: the old one for an unchanged hash, the checkpoint's score under the hash resumed by, else the report's score under the hash after mutating |
| MutationGate.FailingRunLeaves | tooling/scripts/prepush-mutation-gate.ts:552-572 | a run with a failing file exits 1, keeps the baseline, and appends to the log and renews the checkpoint exactly when something had to be mutated |
| MutationGate.ScopeIs | tooling/scripts/prepush-mutation-gate.ts:455-457 | which changed files concern the gate, with every exemption spelt out |
| MutationGate.EveryFileJudgedOnce | tooling/scripts/prepush-mutation-gate.ts:455-511 | the changed files that are not exempt, and no others, get a verdict each, as often as they were listed |
| MutationGate.ScoreForFileIs | tooling/scripts/prepush-mutation-gate.ts:342-344 | a file's score is that of the first report key whose end is its target, and it is unscored exactly when there is none |
| MutationGate.BaselineAfterPass | tooling/scripts/prepush-mutation-gate.ts:616-630 | the entry of every file after a rewrite: what was judged inside the change set, the old entry outside |
| MutationGate.WrittenIffChanged | tooling/scripts/prepush-mutation-gate.ts:613-630 | the baseline is written if and only if its scores really change |
| MutationGate.OtherEntriesUntouched | tooling/scripts/prepush-mutation-gate.ts:616-630 | no run alters an entry outside its change set or drops an entry |
| MutationGate.RerunChangesNothing | tooling/scripts/prepush-mutation-gate.ts:485-511 | after a passing run on steady readable files every rerun only skips by hash, exits 0 and leaves baseline, checkpoint and log as they are |
| Checkpoints.StampedFrom | tooling/scripts/prepush-mutation-gate.ts:552-562 | for whatever Stryker appends: a new checkpoint entry carries the current hash and the counts of this run's planned lines if they tested the file, of the older log if not, completed by what this run wrote before any plan |
| Checkpoints.TornLineMixesRuns | tooling/scripts/prepush-mutation-gate.ts:164-188 | a log that ends in a torn line and a run without a plan, which together complete a file that neither covers |
| Checkpoints.StampsAreFreshIff | tooling/scripts/prepush-mutation-gate.ts:552-572 | whatever Stryker and the working tree then do, no run leaves on disk an entry of the file it has not tested, if and only if the file is not to be mutated, or the log does not report it, or every file to be mutated has an entry already |
| Checkpoints.EntriesAreMeasured | tooling/scripts/prepush-mutation-gate.ts:544-572 | from a disk without a checkpoint and over any runs that each met that condition, every entry on disk is the counts of an earlier run that tested the file to the end, under the hash the file had then |
| Checkpoints.ResumesAreMeasured | tooling/scripts/prepush-mutation-gate.ts:501-505 | after such runs a resumed verdict carries the score of an earlier run that tested the file under the very hash it has now |
| Checkpoints.StaysMeasuredIff | tooling/scripts/prepush-mutation-gate.ts:544-572 | after such runs every entry stays measured whatever the next run turns into, if and only if that run meets the condition |
| Checkpoints.StaleScoreIsResumed | tooling/scripts/prepush-mutation-gate.ts:552-572 | three runs from an empty disk, for every file, two branches and two contents: the second records the first one's score under a content it never tested, and the third passes the file untested and writes that score into the baseline |
| Checkpoints.RerunFlipsIff | tooling/scripts/prepush-mutation-gate.ts:501-505 | where the log counts what the report says was tested, the rerun of a failed run passes a file that has just failed if and only if the threshold lies above the report score and not above the checkpoint score |
| Checkpoints.RerunPassesWhatFailed | tooling/scripts/prepush-mutation-gate.ts:501-505 | a push that fails on a report score of 50 passes when tried again unchanged, and the baseline then says 100 |
| MutationGate.CheckpointSavedIff | tooling/scripts/prepush-mutation-gate.ts:563-572 | the checkpoint is saved if and only if a file without any entry was completed |
| Ratchet.AuditFloor | tooling/scripts/audit-baseline-floor.ts:87-139 | the audit's two lists are exactly the files that lost more than half a point and the new files below 94.5, and it passes if and only if there are none |
| Ratchet.GateSatisfiesFloorAudit | tooling/scripts/audit-baseline-floor.ts:96-111 | any one gate run on a committed baseline leaves a baseline the floor audit accepts against it |
| Ratchet.DriftBound | tooling/scripts/prepush-mutation-gate.ts:406-412 | over any runs a recorded score loses at most half a point for each run that rewrites it |
| Ratchet.DriftBoundIsMet | tooling/scripts/prepush-mutation-gate.ts:613-630 | for every in-scope file and up to 200 runs, passing runs that lose exactly half a point each |
| Ratchet.DriftRerun | tooling/scripts/prepush-mutation-gate.ts:485-511 | a concrete passing run that meets every hypothesis of the fixpoint: rerun, it exits 0 and changes nothing |
| Ratchet.TwoRunsCanBreakTheFloor | tooling/scripts/audit-baseline-floor.ts:108-110 | two passing runs without a commit between them leave a baseline the audit rejects |
| Ratchet.AcceptedIffOneRun | tooling/scripts/audit-baseline-floor.ts:96-111 | every sequence of n runs between two commits leaves a baseline the audit accepts if and only if n is at most 1 |
| Backfill.SameScoreAsCheckpoint | tooling/scripts/backfill-baseline-scores.ts:118-123 | the backfill's score of a file equals the gate's score of the same statuses |
| Backfill.AbsoluteKeyIff | tooling/scripts/backfill-baseline-scores.ts:125-137 | an absolute report key maps to the path below a given `/src/` if and only if that is its first `/src/` |
| Backfill.OtherKeys | tooling/scripts/backfill-baseline-scores.ts:125-137 | a key that begins with `src/` is below the package, and one without any `/src/` is skipped |
| Backfill.RunBackfill | tooling/scripts/backfill-baseline-scores.ts:139-229 | the three passes write the scores specified by Backfilled, count as specified, and list exactly the pruned entries as orphans |
| Backfill.BackfilledIs | tooling/scripts/backfill-baseline-scores.ts:165-207 | the entry of every file: the score of its last report entry under its hash, else 100 for an eligible file that can be hashed, else the old entry if the file exists |
| Backfill.CountersMean | tooling/scripts/backfill-baseline-scores.ts:165-206 | added, updated and unchanged add up to the entries if and only if no two report keys are recorded under one file, and then compare new with old |
| Backfill.AuditCoverage | tooling/scripts/audit-baseline-coverage.ts:108-157 | the audit passes exactly when nothing is missing and nothing is orphaned, and lists which |
| Backfill.GateExemptsWhatAuditExcludes | tooling/scripts/audit-baseline-coverage.ts:35-48 | the gate exempts exactly the files the coverage audit does not ask for |
| Backfill.BackfillSatisfiesAudit | tooling/scripts/audit-baseline-coverage.ts:112-140 | a backfilled baseline has no orphan, and passes the audit if and only if every file asked for can be hashed or already had an entry |
| Backfill.ExistingFilesKeepEntries | tooling/scripts/backfill-baseline-scores.ts:196-207 | the entry of an existing file is never dropped, and is unchanged if neither report nor eligibility covers it |
| Backfill.BackfillIsIdempotent | tooling/scripts/backfill-baseline-scores.ts:139-212 | a second backfill on the same report and tree writes the same scores |
| PeerAbort.Push.Dispatch | tooling/scripts/run-with-peer-abort.ts:85-181 | running the handler of any event on the shared wrappers and file is that event's transition of the system, so the theorems on runs are about the handlers |
| PeerAbort.Wrapper.OnExit | tooling/scripts/run-with-peer-abort.ts:125-162 | exit 0 if and only if the child succeeded and nobody aborted the wrapper; the sentinel is written exactly by a wrapper that thereby becomes an originator, and otherwise stays as it is |
| PeerAbort.Wrapper.OnError | tooling/scripts/run-with-peer-abort.ts:164-181 | exit 1, and the sentinel is written whenever it can be, by an originator only if nothing had been spawned |
| PeerAbort.StepKeepsInv | tooling/scripts/run-with-peer-abort.ts:112-181 | every event of any wrapper, and every tick, keeps the invariant |
| PeerAbort.AbortsHaveAnOrigin | tooling/scripts/run-with-peer-abort.ts:85-129 | in every reachable state a wrapper that was skipped or aborted has another whose own child failed or was not spawned and which wrote the sentinel no later |
| PeerAbort.SentinelStays | tooling/scripts/run-with-peer-abort.ts:147-181 | no continuation removes the sentinel |
| PeerAbort.LateStartersNeverSpawn | tooling/scripts/run-with-peer-abort.ts:85-89 | in every continuation a wrapper that starts after the sentinel exists exits 130 without spawning its command |
| PeerAbort.AbortsOnce | tooling/scripts/run-with-peer-abort.ts:112-123 | in every continuation the moment of a wrapper's abort stays what the first poll that saw the sentinel made it |
| PeerAbort.AbortedExitIsCollateral | tooling/scripts/run-with-peer-abort.ts:112-129 | in every continuation a wrapper that aborted never becomes an originator: it exits 130, or 1 when its child could not be killed |
| PeerAbort.ExitsMean | tooling/scripts/run-with-peer-abort.ts:85-181 | over every run, which exit code goes with which reason, who had spawned a command and who wrote the sentinel |
| PeerAbort.SentinelNamesCulpritIff | tooling/scripts/run-with-peer-abort.ts:130-181 | over every run the sentinel names a wrapper whose own child failed if and only if the last event that wrote it was not a failure to kill a running child |
| PeerAbort.FailedKillReplacesTheCulprit | tooling/scripts/run-with-peer-abort.ts:164-181 | a run of two wrappers from the start in which a failed kill exits 1 and replaces the real originator's name |
| PeerAbort.HealthyRunsExitZero | tooling/scripts/run-with-peer-abort.ts:125-162 | if every child spawns and exits 0, then under any schedule nobody writes the sentinel, aborts or exits with anything but 0 |
| PeerAbort.StoppedWithinSixSeconds | tooling/scripts/run-with-peer-abort.ts:112-123 | in every reachable state a wrapper still running is at most 6000 ms past the moment the sentinel appeared |
| PeerAbort.TimersFireOnTime | tooling/scripts/run-with-peer-abort.ts:112-123 | over every run: a poll falls on a multiple of 2000 ms after the start, the kill 2000 ms after the abort, the exit 4000 ms after it, behind the kill, with 130 and the sentinel left alone |
| PeerAbort.ClockWaitsForExit | tooling/scripts/run-with-peer-abort.ts:118-121 | at that moment the only way on is the exit timer |
| PeerAbort.TimersCanFire | tooling/scripts/run-with-peer-abort.ts:113-123 | the clock never stops for good: where it may not advance, a timer can fire |
| AuditPool.WorkerCount | tooling/scripts/run-audits-parallel.ts:88 | the number of workers: bounded by both numbers, positive when there are scripts, and no smaller than the bounds force |
| AuditPool.Pool.constructor | tooling/scripts/run-audits-parallel.ts:76-88 | starts exactly the worker count, each with a script of its own |
| AuditPool.Pool.Complete | tooling/scripts/run-audits-parallel.ts:79-87 | one completion records its result and claims the next script, keeping every script claimed at most once and no worker idle while scripts are left |
| AuditPool.Pool.Run | tooling/scripts/run-audits-parallel.ts:79-88 | whichever process ends next each time, the pool terminates and each script index is completed exactly once |
| AuditPool.RunAudits | tooling/scripts/run-audits-parallel.ts:70-117 | the results are a permutation of the scripts with their codes, and the exit is 0 if and only if every process exited 0 or was ended by a signal |
| AuditPool.ResultsAre | tooling/scripts/run-audits-parallel.ts:50-68 | what is recorded of each script: its exit code, 0 after a signal, 1 if it was not spawned |
| GlobCompiler.FalsePlaceholderIff | tooling/scripts/audit-mutation-scope.ts:34-39 | at a mark of the glob the rewritten text shows a placeholder exactly when the glob is confusable there |
| GlobCompiler.RewritesAgreeIff | tooling/scripts/audit-mutation-scope.ts:34-39 | the five rewrites yield what one reading of the glob yields if and only if the glob nowhere contains the placeholder's text or its beginning completed by a `**` |
| GlobCompiler.PlaceholderIsTakenForDeep | tooling/scripts/audit-mutation-scope.ts:36-38 | a glob on which they differ |
| GlobCompiler.ParseRender | tooling/scripts/audit-mutation-scope.ts:40 | the generated text is read back as the intended expression |
| GlobCompiler.ReadIsRendered | tooling/scripts/audit-mutation-scope.ts:34-40 | the reader of expressions takes no other text than generated ones |
| GlobCompiler.SpecialCharacters | tooling/scripts/audit-mutation-scope.ts:35 | which characters the first rewrite escapes |
| GlobCompiler.ExpressionMeansGlob | tooling/scripts/audit-mutation-scope.ts:32-40 | the expression matches a one-line path exactly when the glob does, and never more |
| GlobCompiler.CompiledMeansGlob | tooling/scripts/audit-mutation-scope.ts:30-40 | the two together: the compiled pattern decides the glob |
| GlobCompiler.OneLineIff | tooling/scripts/audit-mutation-scope.ts:38-40 | a path is decided rightly for every glob if and only if it has no line terminator |
| GlobCompiler.QuestionMarkIff | tooling/scripts/audit-mutation-scope.ts:39 | a question mark takes one character, a slash too, but no line terminator |
| GlobCompiler.IsCovered | tooling/scripts/audit-mutation-scope.ts:30-43 | covered if and only if some glob of the list matches the path |
| GateCache.JoinIsInjective | tooling/scripts/step-content-hash.ts:92-94 | the dash join loses nothing on dash-free pieces, even without knowing how many there are |
| GateCache.FingerprintsAgreeIff | tooling/scripts/step-content-hash.ts:78-94 | the fingerprints of any two path lists agree if and only if the lists have one length and, position by position, both paths are missing or the first ten digits agree |
| GateCache.Cache.Split | tooling/scripts/prepush-gates.ts:404-421 | what is run, what is skipped and which hashes are known |
| GateCache.Cache.RunGates | tooling/scripts/prepush-gates.ts:404-442 | the run is ok if and only if none of the executed steps fails, and the entries are then those specified by NextEntries |
| GateCache.UngreenRunsRecordNothing | tooling/scripts/prepush-gates.ts:428-439 | a run in which some executed step fails and a run without the cache leave every entry as it was |
| GateCache.SkipsIff | tooling/scripts/prepush-gates.ts:404-421 | a step is skipped if and only if the cache is on, the step declares inputs and its entry is their fingerprint |
| GateCache.SkipsAreJustified | tooling/scripts/prepush-gates.ts:407-442 | after any history, in which the declared inputs may be edited from run to run, a skipped step was executed in an earlier run with the cache on in which neither it nor any other executed step failed, and the inputs declared then had the content of those declared now, as far as the fingerprint tells |
| GateCache.EditedSkipIff | tooling/scripts/prepush-gates.ts:407-438 | after any history and a cached run that executed the step and in which nothing failed, a later run skips it if and only if the two lists of inputs have the same content position by position |
| Occurrences.OneMore | tooling/scripts/audit-dev-secret-fail-closed.ts:98-101 | the exchange step: taking the leftmost next occurrence gives up at most one place |
| Occurrences.CountOccurrences | tooling/scripts/audit-dev-secret-fail-closed.ts:94-103 | the loop terminates and its count is the largest number of pairwise non-overlapping occurrences; 0 for an empty needle |

## Left out

- Rounding: scores are exact reals, so drift within floating-point noise is not modelled.
- Git object ids are fresh numbers; two commits equal in every byte, which git would give one id, count as two.
- RemoteBranch.Remote.RunShard: a pull that fails and a lock file that cannot be looked up are parameters, because the requests behind them are outside the model.
- Conflicts: every HTTP 422 of a ref request is taken to mean that the ref has moved or exists, and deleting an absent path is taken to change nothing, although GitHub may answer it with an error.
- Shard names with a slash, for which one shard's file could be another's directory.
- MutationGate.RerunChangesNothing: supposes the files were hashed alike before and after Stryker ran, because the script hashes them twice and records the second hash.
- LockProtocol.HoldersNeverOverlap: supposes that no two clients of a run share host and process id, because the lock names its owner by these alone.
- Stryker itself, label files run apart from logic files, and the equivalent-mutant catalogue: a report is a parameter, equivalence is a flag on a mutant.
- Checkpoints.StampsAreFreshIff: supposes that the log ends in a whole line, because after a torn one the next plan can be lost (TornLineMixesRuns); so do the results over histories.
- Checkpoints.RerunFlipsIff: supposes that log and report agree on what was tested, because Stryker writes them separately; a mutant decided before the run is a flag on a mutant.
- Parsing of JSON: a log line is a manifest, a mutant or garbage; a line that parses to null, on which the script would throw, is not modelled.
- PeerAbort.StoppedWithinSixSeconds: supposes that timers fire on time, because the bound is about the timers the script arms; grandchildren that survive the wrapper are not modelled.
- Reuse of a parent process id, which would show a sentinel of an earlier push.
- The build prologue, the docs-only shortcut, the post-test audits and the clean-worktree check of prepush-gates.ts: they change no cache entry.
- Command-line parsing in run-audits-parallel.ts beyond the clamp, and durations: they would only add easy members.
- Order of directory walks and of keys, which no result depends on except the first matching key of a report.
- UTF-16: a character is one unit, as in an expression without the `u` flag.
- The other audits, the Rust twins of the gate and the baseline raisers: string scans, or near-copies of what is here.
