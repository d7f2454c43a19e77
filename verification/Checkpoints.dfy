/**
 What a checkpoint entry was measured on: which session's counts the gate stamps
 with the hash a file has now, over one run and over any sequence of runs, and what
 the next run makes of the entry.
 */
module Checkpoints {
  import opened Wrappers
  import opened Text
  import opened Collections
  import opened Scores
  import opened MutationGate
  import L = ProgressLog

  // ----- one run

  /**
   What one run of Stryker appends to a log of whole lines: nothing when it dies
   before its plan is ready, else a plan first.
   */
  predicate Appended(run: seq<L.Line>) {
    run == [] || run[0].Manifest?
  }

  /** The lines before the first plan; there are some when the plan was glued to a line that a crash had cut short. */
  function Unplanned(run: seq<L.Line>): (lines: seq<L.Line>)
    ensures lines <= run && L.NoManifest(lines) && Appended(run[|lines|..])
  {
    if Appended(run) then [] else [run[0]] + Unplanned(run[1..])
  }

  function Planned(run: seq<L.Line>): seq<L.Line> {
    run[|Unplanned(run)|..]
  }

  lemma ReportAfterRun(log: seq<L.Line>, run: seq<L.Line>, target: string)
    requires Appended(run)
    ensures var source := if L.Tested(run, target) then L.Report(run) else L.Report(log);
            && (target in L.Report(log + run) <==> target in source)
            && (target in source ==> L.Report(log + run)[target] == source[target])
  {
    if run == [] {
      assert log + run == log;
      assert !L.Tested(run, target);
    } else {
      L.NewRunShadowsOld(log, run, target);
    }
  }

  lemma ReportAfterAnyRun(log: seq<L.Line>, run: seq<L.Line>, target: string)
    ensures var planned := Planned(run);
            var source := if L.Tested(planned, target) then L.Report(planned) else L.Report(log + Unplanned(run));
            && (target in L.Report(log + run) <==> target in source)
            && (target in source ==> L.Report(log + run)[target] == source[target])
  {
    assert log + run == (log + Unplanned(run)) + Planned(run);
    ReportAfterRun(log + Unplanned(run), Planned(run), target);
  }

  lemma StampedEntry(st: GateState, input: Input, file: string)
    requires Completed(st, input, file)
    ensures file in NextFiles(st, input)
    ensures NextFiles(st, input)[file] == Stamp(input.hashesAfter[file], L.Report(st.log + input.run)[Target(file)])
  {
  }

  /**
   A newly stamped checkpoint entry carries the hash read after the run. Its counts
   come from this run's planned lines alone if they tested the file; if not, they
   are those of the older log, completed by what this run wrote before any plan.
   */
  lemma StampedFrom(st: GateState, input: Input, file: string)
    requires Completed(st, input, file)
    ensures var run := Planned(input.run);
            var older := st.log + Unplanned(input.run);
            var source := if L.Tested(run, Target(file)) then L.Report(run) else L.Report(older);
            && Target(file) in source
            && file in NextFiles(st, input)
            && NextFiles(st, input)[file] == Stamp(input.hashesAfter[file], source[Target(file)])
  {
    StampedEntry(st, input, file);
    ReportAfterAnyRun(st.log, input.run, Target(file));
  }

  /** Two mutants planned, one tested, and a line cut short. */
  function TornLog(target: string): seq<L.Line> {
    [L.Manifest(map[target := 2]), L.Mutant(target, "m1", "Killed"), L.Garbage]
  }

  lemma TornSessions(target: string)
    ensures L.Sessions(TornLog(target)) == [L.Session(map[target := 2], map[target := [L.Rec("m1", "Killed")]])]
  {
    var log := TornLog(target);
    assert log[..2][..1] == log[..1] && log[..1][..0] == [];
    assert L.Sessions(log[..1]) == [L.Session(map[target := 2], map[])];
    assert L.Sessions(log[..2]) == [L.Session(map[target := 2], map[target := [L.Rec("m1", "Killed")]])];
  }

  lemma TornLogCompleted(target: string)
    ensures L.Sessions(TornLog(target) + [L.Mutant(target, "m2", "Survived")]) ==
            [L.Session(map[target := 2], map[target := [L.Rec("m1", "Killed"), L.Rec("m2", "Survived")]])]
  {
    var log, line := TornLog(target), L.Mutant(target, "m2", "Survived");
    TornSessions(target);
    var all, m1, m2 := log + [line], L.Rec("m1", "Killed"), L.Rec("m2", "Survived");
    assert all[..|all| - 1] == log && all[|all| - 1] == line;
    assert m1.id[1] != m2.id[1];
    assert [m1][1..] == [] && L.Upsert([], m2) == [m2] && L.Upsert([m1], m2) == [m1] + L.Upsert([], m2);
    var s := L.Session(map[target := 2], map[target := [m1]]);
    assert L.RecsOf(s, target) == [m1] && L.AddMutant(s, line).mutants == s.mutants[target := [m1] + [m2]];
    assert [m1] + [m2] == [m1, m2] && s.mutants[target := [m1, m2]] == map[target := [m1, m2]];
  }

  lemma OneSession(log: seq<L.Line>, s: L.Session)
    requires L.Sessions(log) == [s]
    ensures L.Latest(L.Sessions(log)) == L.SessionEntries(s)
  {
    assert [s][..0] == [] && map[] + L.SessionEntries(s) == L.SessionEntries(s);
  }

  /** After a torn line the next plan is lost, and two runs together complete a file that neither covers. */
  lemma TornLineMixesRuns(target: string)
    ensures var log, run := TornLog(target), [L.Mutant(target, "m2", "Survived")];
            && target !in L.Report(log) && target !in L.Report(run)
            && target in L.Report(log + run) && !L.Tested(run, target)
  {
    var log, run := TornLog(target), [L.Mutant(target, "m2", "Survived")];
    TornSessions(target);
    TornLogCompleted(target);
    OneSession(log, L.Sessions(log)[0]);
    OneSession(log + run, L.Sessions(log + run)[0]);
    assert run[..0] == [] && L.Sessions(run) == [];
  }

  // ----- stale entries on disk

  /** What Stryker and the working tree may do once a run has started. */
  datatype Outcome = Outcome(run: seq<L.Line>, hashesAfter: map<string, string>, report: Report)

  function Under(pre: Input, outcome: Outcome): Input {
    pre.(run := outcome.run, hashesAfter := outcome.hashesAfter, report := outcome.report)
  }

  predicate Saved(st: GateState, input: Input) {
    |NextFiles(st, input)| > |Cached(st, input)|
  }

  /** The run fails and leaves on disk an entry of the file that it stamped but did not measure. */
  ghost predicate LeavesStale(st: GateState, input: Input, file: string) {
    && !AllPass(Verdicts(st, input)) && Saved(st, input) && Completed(st, input, file)
    && !L.Tested(input.run, Target(file))
  }

  lemma FailedRunSaves(st: GateState, input: Input)
    requires !AllPass(Verdicts(st, input)) && Saved(st, input)
    ensures GateRun(st, input) == (GateState(st.baseline, Some(Checkpoint(input.branch, NextFiles(st, input))),
                                             st.log + input.run), 1)
  {
  }

  /** Such an entry is the older log's counts under the file's new hash. */
  lemma StaleEntry(st: GateState, input: Input, file: string)
    requires LeavesStale(st, input, file) && Appended(input.run)
    ensures var next := GateRun(st, input).0;
            && Target(file) in L.Report(st.log)
            && next.checkpoint.Some? && next.checkpoint.value.branch == input.branch
            && file in next.checkpoint.value.files
            && next.checkpoint.value.files[file] == Stamp(input.hashesAfter[file], L.Report(st.log)[Target(file)])
  {
    FailedRunSaves(st, input);
    ReportAfterRun(st.log, input.run, Target(file));
  }

  lemma ScopeIsSettled(pre: Input, outcome: Outcome)
    ensures Scope(Under(pre, outcome)) == Scope(pre)
  {
    var input := Under(pre, outcome);
    FilterSame(pre.changed, f => InScope(input, f), f => InScope(pre, f));
  }

  lemma {:induction false} PickIsSettled(st: GateState, pre: Input, outcome: Outcome, files: seq<string>,
                                         bucket: Bucket)
    ensures Pick(st, Under(pre, outcome), files, bucket) == Pick(st, pre, files, bucket)
  {
    if files != [] {
      PickIsSettled(st, pre, outcome, files[1..], bucket);
      PickFront(st, pre, files, bucket);
      PickFront(st, Under(pre, outcome), files, bucket);
    }
  }

  /** The buckets are settled before Stryker starts. */
  lemma BucketsAreSettled(st: GateState, pre: Input, outcome: Outcome, bucket: Bucket)
    ensures InBucket(st, Under(pre, outcome), bucket) == InBucket(st, pre, bucket)
  {
    ScopeIsSettled(pre, outcome);
    PickIsSettled(st, pre, outcome, Scope(pre), bucket);
  }

  /** Every file to be mutated has an entry, so that nothing will be saved. */
  predicate AllCached(st: GateState, pre: Input) {
    forall g :: g in InBucket(st, pre, Mutate) ==> g in Cached(st, pre)
  }

  /** The outcome in which only `other` is tested, if it is another file, and all files end with one hash. */
  function OnlyTests(st: GateState, pre: Input, file: string, other: string, hash: string): Outcome {
    var hashes := map f | f in InBucket(st, pre, Mutate) :: hash;
    Outcome(if other == file then [] else L.OneTested(Target(other), 1), hashes, [])
  }

  lemma OneTestedTestsNoOther(target: string, other: string)
    requires target != other
    ensures !L.Tested(L.OneTested(target, 1), other)
  {
    var log := L.OneTested(target, 1);
    assert forall i: int, k: nat :: !L.Records(log, i, k, other);
  }

  lemma TargetsDiffer(file: string, other: string)
    requires StartsWith(file, PREFIX) && StartsWith(other, PREFIX) && file != other
    ensures Target(file) != Target(other)
  {
    TargetOfFile(file, Target(other));
    TargetOfFile(other, Target(other));
  }

  lemma OnlyTestsReports(log: seq<L.Line>, file: string, other: string, run: seq<L.Line>)
    requires StartsWith(file, PREFIX) && StartsWith(other, PREFIX) && Target(file) in L.Report(log)
    requires run == if other == file then [] else L.OneTested(Target(other), 1)
    ensures Appended(run) && !L.Tested(run, Target(file))
    ensures Target(file) in L.Report(log + run) && Target(other) in L.Report(log + run)
  {
    if other != file {
      TargetsDiffer(file, other);
      OneTestedTestsNoOther(Target(other), Target(file));
      L.OneTestedReport(Target(other), 1);
      ReportAfterRun(log, run, Target(other));
    }
    ReportAfterRun(log, run, Target(file));
  }

  lemma PassesIfAllPass(st: GateState, input: Input, file: string)
    requires file in Scope(input) && !Passes(VerdictOf(st, input, file))
    ensures !AllPass(Verdicts(st, input))
  {
    if AllPass(Verdicts(st, input)) {
      PassesInScope(st, input, file);
    }
  }

  lemma OnlyTestsCompletes(st: GateState, pre: Input, file: string, other: string, hash: string)
    requires file in InBucket(st, pre, Mutate) && Target(file) in L.Report(st.log)
    requires other in InBucket(st, pre, Mutate)
    ensures var outcome := OnlyTests(st, pre, file, other, hash);
            && Completed(st, Under(pre, outcome), file) && Completed(st, Under(pre, outcome), other)
            && Appended(outcome.run) && !L.Tested(outcome.run, Target(file))
  {
    var outcome := OnlyTests(st, pre, file, other, hash);
    BucketsAreSettled(st, pre, outcome, Mutate);
    assert file in Scope(pre) && other in Scope(pre);
    OnlyTestsReports(st.log, file, other, outcome.run);
  }

  lemma UnreportedFails(st: GateState, input: Input, file: string)
    requires file in InBucket(st, input, Mutate) && input.report == []
    ensures !AllPass(Verdicts(st, input))
  {
    assert VerdictOf(st, input, file).status == Unscored;
    PassesIfAllPass(st, input, file);
  }

  /** One reported file among those to be mutated, and one without an entry, are enough. */
  lemma OnlyTestsLeavesStale(st: GateState, pre: Input, file: string, other: string, hash: string)
    requires file in InBucket(st, pre, Mutate) && Target(file) in L.Report(st.log)
    requires other in InBucket(st, pre, Mutate) && other !in Cached(st, pre)
    ensures LeavesStale(st, Under(pre, OnlyTests(st, pre, file, other, hash)), file)
    ensures Appended(OnlyTests(st, pre, file, other, hash).run)
  {
    var outcome := OnlyTests(st, pre, file, other, hash);
    OnlyTestsCompletes(st, pre, file, other, hash);
    BucketsAreSettled(st, pre, outcome, Mutate);
    CheckpointSavedIff(st, Under(pre, outcome));
    UnreportedFails(st, Under(pre, outcome), file);
  }

  lemma NoneLeavesStale(st: GateState, pre: Input, outcome: Outcome, file: string)
    requires Appended(outcome.run)
    requires file !in InBucket(st, pre, Mutate) || Target(file) !in L.Report(st.log) || AllCached(st, pre)
    ensures !LeavesStale(st, Under(pre, outcome), file)
  {
    var input := Under(pre, outcome);
    BucketsAreSettled(st, pre, outcome, Mutate);
    if LeavesStale(st, input, file) {
      StaleEntry(st, input, file);
      CheckpointSavedIff(st, input);
    }
  }

  /**
   What can be known before Stryker starts: whatever it and the working tree then
   do, the run leaves no entry of the file on disk that it has not measured, if and
   only if the file is not to be mutated, or the log on disk does not report it, or
   every file to be mutated has an entry already.
   */
  lemma StampsAreFreshIff(st: GateState, pre: Input, file: string)
    ensures (forall outcome: Outcome :: Appended(outcome.run) ==> !LeavesStale(st, Under(pre, outcome), file)) <==>
            || file !in InBucket(st, pre, Mutate)
            || Target(file) !in L.Report(st.log)
            || AllCached(st, pre)
  {
    if file in InBucket(st, pre, Mutate) && Target(file) in L.Report(st.log) && !AllCached(st, pre) {
      var g :| g in InBucket(st, pre, Mutate) && g !in Cached(st, pre);
      OnlyTestsLeavesStale(st, pre, file, g, "");
    } else {
      forall outcome: Outcome | Appended(outcome.run) ensures !LeavesStale(st, Under(pre, outcome), file) {
        NoneLeavesStale(st, pre, outcome, file);
      }
    }
  }

  // ----- any sequence of runs

  /** Run `m` tested the file to the end, and the entry is its counts under the hash the file had then. */
  ghost predicate MeasuredBy(inputs: seq<Input>, m: int, file: string, entry: ProgressEntry) {
    && 0 <= m < |inputs| && file in inputs[m].hashesAfter
    && L.Tested(inputs[m].run, Target(file)) && Target(file) in L.Report(inputs[m].run)
    && entry == Stamp(inputs[m].hashesAfter[file], L.Report(inputs[m].run)[Target(file)])
  }

  /** The condition under which no file of the run can be stamped unmeasured. */
  predicate Guarded(st: GateState, pre: Input) {
    AllCached(st, pre) || forall f :: f in InBucket(st, pre, Mutate) ==> Target(f) !in L.Report(st.log)
  }

  ghost predicate GuardedRuns(st: GateState, inputs: seq<Input>) {
    forall m :: 0 <= m < |inputs| ==> Appended(inputs[m].run) && Guarded(AfterRuns(st, inputs[..m]), inputs[m])
  }

  predicate HasEntry(st: GateState, file: string, entry: ProgressEntry) {
    st.checkpoint.Some? && file in st.checkpoint.value.files && st.checkpoint.value.files[file] == entry
  }

  lemma CheckpointAfter(st: GateState, input: Input)
    ensures var next := GateRun(st, input).0.checkpoint;
            || next == st.checkpoint || next == None
            || (Saved(st, input) && next == Some(Checkpoint(input.branch, NextFiles(st, input))))
  {
  }

  lemma NextFilesFrom(st: GateState, input: Input, file: string)
    requires file in NextFiles(st, input)
    ensures Completed(st, input, file)
            || (file in Cached(st, input) && NextFiles(st, input)[file] == Cached(st, input)[file])
  {
  }

  lemma EntryFrom(st: GateState, input: Input, file: string, entry: ProgressEntry)
    requires HasEntry(GateRun(st, input).0, file, entry)
    ensures HasEntry(st, file, entry)
            || (Saved(st, input) && Completed(st, input, file) && file in NextFiles(st, input)
                && entry == NextFiles(st, input)[file])
  {
    CheckpointAfter(st, input);
    if !HasEntry(st, file, entry) {
      NextFilesFrom(st, input, file);
    }
  }

  lemma GuardedRunMeasures(st: GateState, input: Input, file: string, entry: ProgressEntry)
    requires Guarded(st, input) && Appended(input.run) && HasEntry(GateRun(st, input).0, file, entry)
    ensures HasEntry(st, file, entry) || MeasuredBy([input], 0, file, entry)
  {
    EntryFrom(st, input, file, entry);
    if !HasEntry(st, file, entry) {
      CheckpointSavedIff(st, input);
      ReportAfterRun(st.log, input.run, Target(file));
    }
  }

  lemma MeasuredLater(inputs: seq<Input>, last: Input, m: int, file: string, entry: ProgressEntry)
    ensures MeasuredBy(inputs, m, file, entry) ==> MeasuredBy(inputs + [last], m, file, entry)
    ensures MeasuredBy([last], 0, file, entry) ==> MeasuredBy(inputs + [last], |inputs|, file, entry)
  {
  }

  lemma GuardedInit(st: GateState, init: seq<Input>, last: Input)
    requires GuardedRuns(st, init + [last])
    ensures GuardedRuns(st, init)
  {
    var all := init + [last];
    forall m | 0 <= m < |init| ensures Appended(init[m].run) && Guarded(AfterRuns(st, init[..m]), init[m]) {
      assert all[m] == init[m] && all[..m] == init[..m];
    }
  }

  /**
   Nothing stale over whole runs. From a disk without a checkpoint, whatever each
   run meets, if before each of them no file to be mutated is reported by the log
   (or all have entries already), then every entry on disk is what some earlier run
   measured on the content whose hash it carries.
   */
  lemma {:induction false} EntriesAreMeasured(st: GateState, inputs: seq<Input>, file: string, entry: ProgressEntry)
    requires st.checkpoint.None? && GuardedRuns(st, inputs) && HasEntry(AfterRuns(st, inputs), file, entry)
    ensures exists m :: MeasuredBy(inputs, m, file, entry)
  {
    if inputs != [] {
      var n := |inputs| - 1;
      var init, last := inputs[..n], inputs[n];
      assert inputs == init + [last];
      AfterSnoc(st, init, last);
      GuardedRunMeasures(AfterRuns(st, init), last, file, entry);
      if HasEntry(AfterRuns(st, init), file, entry) {
        GuardedInit(st, init, last);
        EntriesAreMeasured(st, init, file, entry);
        var m :| MeasuredBy(init, m, file, entry);
        MeasuredLater(init, last, m, file, entry);
      } else {
        MeasuredLater(init, last, 0, file, entry);
      }
    }
  }

  /** So a file resumed from its checkpoint was tested to the end by an earlier run under the very hash it has now. */
  lemma ResumesAreMeasured(st: GateState, inputs: seq<Input>, input: Input, file: string)
    requires st.checkpoint.None? && GuardedRuns(st, inputs)
    requires BucketOf(AfterRuns(st, inputs), input, file) == Resume
    ensures exists m :: 0 <= m < |inputs| && Lookup(inputs[m].hashesAfter, file) == Lookup(input.hashes, file)
              && L.Tested(inputs[m].run, Target(file)) && Target(file) in L.Report(inputs[m].run)
              && VerdictOf(AfterRuns(st, inputs), input, file).score ==
                 Some(ScoreFromStatusCounts(L.Report(inputs[m].run)[Target(file)].statusCounts))
  {
    var end := AfterRuns(st, inputs);
    var entry := Cached(end, input)[file];
    EntriesAreMeasured(st, inputs, file, entry);
    var m :| MeasuredBy(inputs, m, file, entry);
  }

  // ----- the condition over runs is exact

  lemma {:induction false} NewHash(inputs: seq<Input>, file: string) returns (hash: string)
    ensures forall m :: 0 <= m < |inputs| && file in inputs[m].hashesAfter ==> |inputs[m].hashesAfter[file]| < |hash|
  {
    if inputs == [] {
      hash := "";
    } else {
      var rest := NewHash(inputs[1..], file);
      var first := Lookup(inputs[0].hashesAfter, file);
      hash := rest + "x" + (if first.Some? then first.value else "");
      forall m | 0 <= m < |inputs| && file in inputs[m].hashesAfter ensures |inputs[m].hashesAfter[file]| < |hash| {
        assert m > 0 ==> inputs[m] == inputs[1..][m - 1];
      }
    }
  }

  ghost predicate AllMeasured(st: GateState, inputs: seq<Input>) {
    forall file, entry :: HasEntry(AfterRuns(st, inputs), file, entry) ==>
      exists m :: MeasuredBy(inputs, m, file, entry)
  }

  lemma GuardedMore(st: GateState, inputs: seq<Input>, pre: Input, outcome: Outcome)
    requires GuardedRuns(st, inputs) && Guarded(AfterRuns(st, inputs), pre) && Appended(outcome.run)
    ensures GuardedRuns(st, inputs + [Under(pre, outcome)])
  {
    var all := inputs + [Under(pre, outcome)];
    BucketsAreSettled(AfterRuns(st, inputs), pre, outcome, Mutate);
    forall m | 0 <= m < |all| ensures Appended(all[m].run) && Guarded(AfterRuns(st, all[..m]), all[m]) {
      if m < |inputs| {
        assert all[m] == inputs[m] && all[..m] == inputs[..m];
      } else {
        assert all[..m] == inputs;
      }
    }
  }

  lemma NotMeasured(inputs: seq<Input>, last: Input, file: string, entry: ProgressEntry)
    requires forall m :: 0 <= m < |inputs| && file in inputs[m].hashesAfter ==>
               inputs[m].hashesAfter[file] != entry.hash
    requires !L.Tested(last.run, Target(file))
    ensures forall m :: !MeasuredBy(inputs + [last], m, file, entry)
  {
    forall m ensures !MeasuredBy(inputs + [last], m, file, entry) {
      assert 0 <= m < |inputs| ==> (inputs + [last])[m] == inputs[m];
    }
  }

  /** Where the condition fails, some outcome leaves on disk an entry that no run measured. */
  lemma UnguardedGoesStale(st: GateState, inputs: seq<Input>, pre: Input) returns (outcome: Outcome)
    requires !Guarded(AfterRuns(st, inputs), pre)
    ensures Appended(outcome.run) && !AllMeasured(st, inputs + [Under(pre, outcome)])
  {
    var end := AfterRuns(st, inputs);
    var other :| other in InBucket(end, pre, Mutate) && other !in Cached(end, pre);
    var file :| file in InBucket(end, pre, Mutate) && Target(file) in L.Report(end.log);
    var hash := NewHash(inputs, file);
    outcome := OnlyTests(end, pre, file, other, hash);
    OnlyTestsLeavesStale(end, pre, file, other, hash);
    var last := Under(pre, outcome);
    StaleEntry(end, last, file);
    AfterSnoc(st, inputs, last);
    var entry := GateRun(end, last).0.checkpoint.value.files[file];
    assert last.hashesAfter[file] == hash && entry.hash == hash;
    NotMeasured(inputs, last, file, entry);
    assert HasEntry(AfterRuns(st, inputs + [last]), file, entry);
  }

  /**
   The condition is exact over runs: after runs that met it, every entry on disk is
   measured whatever the next run turns into, if and only if the next run meets it.
   */
  lemma StaysMeasuredIff(st: GateState, inputs: seq<Input>, pre: Input)
    requires st.checkpoint.None? && GuardedRuns(st, inputs)
    ensures (forall outcome: Outcome :: Appended(outcome.run) ==> AllMeasured(st, inputs + [Under(pre, outcome)])) <==>
            Guarded(AfterRuns(st, inputs), pre)
  {
    if Guarded(AfterRuns(st, inputs), pre) {
      forall outcome: Outcome | Appended(outcome.run) ensures AllMeasured(st, inputs + [Under(pre, outcome)]) {
        var all := inputs + [Under(pre, outcome)];
        GuardedMore(st, inputs, pre, outcome);
        forall file, entry | HasEntry(AfterRuns(st, all), file, entry)
          ensures exists m :: MeasuredBy(all, m, file, entry)
        {
          EntriesAreMeasured(st, all, file, entry);
        }
      }
    } else {
      var outcome := UnguardedGoesStale(st, inputs, pre);
    }
  }

  // ----- resuming against judging

  /** What a score has to reach against this baseline entry. */
  function Threshold(prior: Option<BaselineEntry>): real {
    if prior.None? then FLOOR else prior.value.score - TOLERANCE
  }

  /** The log a run leaves counts what its report says was tested of the file. */
  predicate LogMatchesReport(st: GateState, input: Input, file: string, mutants: seq<ReportMutant>) {
    && Target(file) in L.Report(st.log + input.run)
    && L.Report(st.log + input.run)[Target(file)].statusCounts == LoggedStatuses(mutants)
  }

  /** Entry `i` of the report is the one the gate scores the target by. */
  predicate ScoredBy(report: Report, target: string, i: int) {
    && 0 <= i < |report| && EndsWith(report[i].0, target)
    && forall j :: 0 <= j < i ==> !EndsWith(report[j].0, target)
  }

  /** A failing run has saved what it tested of the file, and the next one meets the same content on the same branch. */
  predicate Retried(st: GateState, input: Input, again: Input, file: string) {
    && Completed(st, input, file) && Saved(st, input) && !AllPass(Verdicts(st, input))
    && again.branch == input.branch && Lookup(again.hashes, file) == Some(input.hashesAfter[file])
    && (file in st.baseline ==> st.baseline[file].hash != input.hashesAfter[file])
  }

  lemma MutateVerdict(st: GateState, input: Input, file: string, i: int)
    requires BucketOf(st, input, file) == Mutate && file in input.hashesAfter
    requires ScoredBy(input.report, Target(file), i)
    ensures VerdictOf(st, input, file) ==
            JudgeScored(file, input.hashesAfter[file], Some(ReportScore(input.report[i].1)), Lookup(st.baseline, file))
  {
    ScoreForFileIs(input.report, Target(file), i);
  }

  lemma ResumeVerdict(st: GateState, again: Input, file: string, entry: ProgressEntry)
    requires file in Cached(st, again) && Cached(st, again)[file] == entry
    requires Lookup(again.hashes, file) == Some(entry.hash)
    requires file in st.baseline ==> st.baseline[file].hash != entry.hash
    ensures BucketOf(st, again, file) == Resume
    ensures VerdictOf(st, again, file) == JudgeScored(file, entry.hash, Some(entry.score), Lookup(st.baseline, file))
  {
  }

  lemma CachedIs(next: GateState, again: Input, files: map<string, ProgressEntry>)
    requires next.checkpoint == Some(Checkpoint(again.branch, files))
    ensures Cached(next, again) == files
  {
  }

  /** The verdict of the run that tested the file, and the one of the rerun that resumes from its checkpoint. */
  lemma ResumedVerdict(st: GateState, input: Input, again: Input, file: string, i: int)
    requires Retried(st, input, again, file) && ScoredBy(input.report, Target(file), i)
    requires LogMatchesReport(st, input, file, input.report[i].1)
    ensures var next, mutants, prior := GateRun(st, input).0, input.report[i].1, Lookup(st.baseline, file);
            var hash := input.hashesAfter[file];
            && BucketOf(next, again, file) == Resume
            && VerdictOf(st, input, file) == JudgeScored(file, hash, Some(ReportScore(mutants)), prior)
            && VerdictOf(next, again, file) == JudgeScored(file, hash, Some(CheckpointScore(mutants)), prior)
  {
    MutateVerdict(st, input, file, i);
    var entry := Stamp(input.hashesAfter[file], L.Report(st.log + input.run)[Target(file)]);
    StampedEntry(st, input, file);
    FailedRunSaves(st, input);
    CachedIs(GateRun(st, input).0, again, NextFiles(st, input));
    ResumeVerdict(GateRun(st, input).0, again, file, entry);
  }

  lemma JudgedByThreshold(file: string, hash: string, score: real, prior: Option<BaselineEntry>)
    ensures Passes(JudgeScored(file, hash, Some(score), prior)) <==> Threshold(prior) <= score
  {
  }

  /**
   A rerun of the same content judges a file by its checkpoint instead of its report.
   It lets the file pass that has just failed exactly when the threshold lies above
   the report's score and not above the checkpoint's; so it never does where no
   static or equivalent mutant was killed and no already-decided one survived.
   */
  lemma RerunFlipsIff(st: GateState, input: Input, again: Input, file: string, i: int)
    requires Retried(st, input, again, file) && ScoredBy(input.report, Target(file), i)
    requires LogMatchesReport(st, input, file, input.report[i].1)
    ensures var next, mutants := GateRun(st, input).0, input.report[i].1;
            var flips := !Passes(VerdictOf(st, input, file)) && Passes(VerdictOf(next, again, file));
            && BucketOf(next, again, file) == Resume
            && (flips <==>
                  ReportScore(mutants) < Threshold(Lookup(st.baseline, file)) <= CheckpointScore(mutants))
            && ((forall m :: m in mutants ==> Unflattered(m)) ==> !flips)
  {
    ResumedVerdict(st, input, again, file, i);
    var mutants, prior, hash := input.report[i].1, Lookup(st.baseline, file), input.hashesAfter[file];
    JudgedByThreshold(file, hash, ReportScore(mutants), prior);
    JudgedByThreshold(file, hash, CheckpointScore(mutants), prior);
    if forall m :: m in mutants ==> Unflattered(m) {
      CheckpointIsLower(mutants);
    }
  }

  // ----- runs from an empty disk

  const EMPTY_DISK := GateState(map[], None, [])

  /** One changed file, whose content does not change while Stryker runs. */
  function OneFile(target: string, branch: string, hash: string, run: seq<L.Line>, report: Report): Input {
    var file := PREFIX + target;
    Input([file], {}, branch, map[file := hash], map[file := hash], run, report, false, false)
  }

  function OneEntry(target: string, entry: ProgressEntry): map<string, ProgressEntry> {
    map[PREFIX + target := entry]
  }

  lemma OneStamp(target: string, hash: string, completed: map<string, L.Info>)
    requires target in completed
    ensures Stamps([PREFIX + target], map[PREFIX + target := hash], completed) ==
            OneEntry(target, Stamp(hash, completed[target]))
  {
    TargetOfFile(PREFIX + target, target);
  }

  lemma OneFileIsMutated(st: GateState, input: Input, file: string)
    requires input.changed == [file] && InScope(input, file) && st.baseline == map[] && Cached(st, input) == map[]
    ensures BucketOf(st, input, file) == Mutate && InBucket(st, input, Mutate) == [file] && Scope(input) == [file]
  {
    SingleFile(st, input, file);
  }

  lemma FromNothing(entries: map<string, ProgressEntry>)
    ensures map[] + entries == entries
  {
  }

  lemma OneFileSaved(st: GateState, input: Input, target: string, hash: string)
    requires InBucket(st, input, Mutate) == [PREFIX + target] && Cached(st, input) == map[]
    requires target in L.Report(st.log + input.run) && input.hashesAfter == map[PREFIX + target := hash]
    ensures NextFiles(st, input) == OneEntry(target, Stamp(hash, L.Report(st.log + input.run)[target]))
    ensures Saved(st, input)
  {
    OneStamp(target, hash, L.Report(st.log + input.run));
    FromNothing(OneEntry(target, Stamp(hash, L.Report(st.log + input.run)[target])));
  }

  lemma OneFileFails(st: GateState, input: Input, target: string, hash: string)
    requires input.changed == [PREFIX + target] && InScope(input, PREFIX + target)
    requires st.baseline == map[] && Cached(st, input) == map[]
    requires target in L.Report(st.log + input.run) && input.hashesAfter == map[PREFIX + target := hash]
    requires !Passes(VerdictOf(st, input, PREFIX + target))
    ensures var entry := Stamp(hash, L.Report(st.log + input.run)[target]);
            GateRun(st, input) ==
            (GateState(map[], Some(Checkpoint(input.branch, OneEntry(target, entry))), st.log + input.run), 1)
  {
    OneFileIsMutated(st, input, PREFIX + target);
    OneFileSaved(st, input, target, hash);
    PassesIfAllPass(st, input, PREFIX + target);
    FailedRunSaves(st, input);
  }

  lemma NewEntryMoves(st: GateState, input: Input, file: string, v: Verdict)
    requires Scope(input) == [file] && Order(st, input) == [file] && !input.checkOnly && !input.inPush
    requires VerdictOf(st, input, file) == v && v.file == file && v.status == Pass && st.baseline == map[]
    requires v.score.Some? && v.hash.Some?
    ensures GateRun(st, input) == (GateState(map[file := BaselineEntry(v.score.value, v.hash.value)], None, []), 0)
  {
    SinglePass(st, input, file, v);
  }

  lemma OneFileResumes(st: GateState, input: Input, file: string, entry: ProgressEntry)
    requires Scope(input) == [file] && Order(st, input) == [file] && !input.checkOnly && !input.inPush
    requires Lookup(input.hashes, file) == Some(entry.hash) && st.baseline == map[] && entry.score >= FLOOR
    requires Cached(st, input) == map[file := entry]
    ensures GateRun(st, input) == (GateState(map[file := BaselineEntry(entry.score, entry.hash)], None, []), 0)
  {
    ResumeVerdict(st, input, file, entry);
    NewEntryMoves(st, input, file, Verdict(file, Some(entry.hash), Some(entry.score), None, Pass));
  }

  lemma KilledScores(hash: string)
    ensures Stamp(hash, L.Info(1, multiset{"Killed"})) == ProgressEntry(hash, 100.0, 1)
  {
  }

  /** On one branch the file is completed, but the gate fails, because no report was left. */
  function FirstRun(target: string, branch: string, hash: string): Input {
    OneFile(target, branch, hash, L.OneTested(target, 1), [])
  }

  /** On another branch, with other content, Stryker dies before it reaches the file. */
  function SecondRun(target: string, branch: string, hash: string): Input {
    OneFile(target, branch, hash, [L.Manifest(map[target := 1])], [])
  }

  function DiskWith(target: string, branch: string, hash: string, log: seq<L.Line>): GateState {
    GateState(map[], Some(Checkpoint(branch, OneEntry(target, ProgressEntry(hash, 100.0, 1)))), log)
  }

  /** Whatever the log says, a run that meets the hash of the entry passes on it. */
  lemma DiskResumes(target: string, branch: string, hash: string, log: seq<L.Line>, input: Input)
    requires input.changed == [PREFIX + target] && InScope(input, PREFIX + target) && input.branch == branch
    requires !input.checkOnly && !input.inPush && Lookup(input.hashes, PREFIX + target) == Some(hash)
    ensures GateRun(DiskWith(target, branch, hash, log), input) ==
            (GateState(map[PREFIX + target := BaselineEntry(100.0, hash)], None, []), 0)
    ensures HasEntry(DiskWith(target, branch, hash, log), PREFIX + target, ProgressEntry(hash, 100.0, 1))
  {
    var st := DiskWith(target, branch, hash, log);
    SingleFile(st, input, PREFIX + target);
    CachedIs(st, input, OneEntry(target, ProgressEntry(hash, 100.0, 1)));
    OneFileResumes(st, input, PREFIX + target, ProgressEntry(hash, 100.0, 1));
  }

  lemma FirstRunLeaves(target: string, branch: string, hash: string)
    requires InScope(FirstRun(target, branch, hash), PREFIX + target)
    ensures GateRun(EMPTY_DISK, FirstRun(target, branch, hash)) ==
            (DiskWith(target, branch, hash, L.OneTested(target, 1)), 1)
  {
    var input := FirstRun(target, branch, hash);
    assert [] + L.OneTested(target, 1) == L.OneTested(target, 1);
    L.OneTestedReport(target, 1);
    OneFileIsMutated(EMPTY_DISK, input, PREFIX + target);
    assert VerdictOf(EMPTY_DISK, input, PREFIX + target).status == Unscored;
    OneFileFails(EMPTY_DISK, input, target, hash);
    KilledScores(hash);
  }

  lemma StaleReport(target: string)
    ensures var run := [L.Manifest(map[target := 1])];
            && !L.Tested(run, target)
            && target in L.Report(L.OneTested(target, 1) + run)
            && L.Report(L.OneTested(target, 1) + run)[target] == L.Info(1, multiset{"Killed"})
  {
    var run := [L.Manifest(map[target := 1])];
    assert !L.Tested(run, target);
    L.OneTestedReport(target, 1);
    L.NewRunShadowsOld(L.OneTested(target, 1), run, target);
  }

  lemma SecondRunLeaves(target: string, before: string, branch: string, hash: string, hash': string)
    requires before != branch && InScope(SecondRun(target, branch, hash'), PREFIX + target)
    ensures GateRun(DiskWith(target, before, hash, L.OneTested(target, 1)), SecondRun(target, branch, hash')) ==
            (DiskWith(target, branch, hash', L.OneTested(target, 1) + [L.Manifest(map[target := 1])]), 1)
  {
    var st, input := DiskWith(target, before, hash, L.OneTested(target, 1)), SecondRun(target, branch, hash');
    StaleReport(target);
    OneFileIsMutated(st, input, PREFIX + target);
    assert VerdictOf(st, input, PREFIX + target).status == Unscored;
    OneFileFails(st, input, target, hash');
    KilledScores(hash');
  }

  /**
   Not every checkpoint entry was measured on the content it is stamped with. From an
   empty disk, for every file, any two branches and any two contents: the first run
   completes the file and fails, the second, on the other branch, never reaches it but
   records the old score under the new hash, and the third passes the file untested
   and writes that score into the baseline.
   */
  lemma StaleScoreIsResumed(target: string, branch: string, other: string, hash: string, hash': string)
    requires branch != other && InScope(SecondRun(target, other, hash'), PREFIX + target)
    ensures var first, second := FirstRun(target, branch, hash), SecondRun(target, other, hash');
            var st := GateRun(GateRun(EMPTY_DISK, first).0, second).0;
            && GateRun(EMPTY_DISK, first).1 == 1 && GateRun(GateRun(EMPTY_DISK, first).0, second).1 == 1
            && !L.Tested(second.run, target)
            && HasEntry(st, PREFIX + target, ProgressEntry(hash', 100.0, 1))
            && GateRun(st, second) == (GateState(map[PREFIX + target := BaselineEntry(100.0, hash')], None, []), 0)
  {
    var second := SecondRun(target, other, hash');
    FirstRunLeaves(target, branch, hash);
    SecondRunLeaves(target, branch, other, hash, hash');
    StaleReport(target);
    DiskResumes(target, other, hash', L.OneTested(target, 1) + [L.Manifest(map[target := 1])], second);
  }

  /** The one mutant tested is killed; the report also holds a survivor decided before. */
  function FlatteredRun(target: string, branch: string, hash: string): Input {
    OneFile(target, branch, hash, L.OneTested(target, 1), [(target, DECIDED_SURVIVOR)])
  }

  lemma FlatteredLogMatches(target: string, branch: string, hash: string)
    ensures LogMatchesReport(EMPTY_DISK, FlatteredRun(target, branch, hash), PREFIX + target, DECIDED_SURVIVOR)
  {
    assert [] + L.OneTested(target, 1) == L.OneTested(target, 1);
    L.OneTestedReport(target, 1);
    TargetOfFile(PREFIX + target, target);
    DecidedSurvivorFlatters();
  }

  lemma FlatteredVerdict(target: string, branch: string, hash: string)
    requires BucketOf(EMPTY_DISK, FlatteredRun(target, branch, hash), PREFIX + target) == Mutate
    ensures !Passes(VerdictOf(EMPTY_DISK, FlatteredRun(target, branch, hash), PREFIX + target))
  {
    var input := FlatteredRun(target, branch, hash);
    TargetOfFile(PREFIX + target, target);
    DecidedSurvivorFlatters();
    MutateVerdict(EMPTY_DISK, input, PREFIX + target, 0);
  }

  lemma FlatteredRunFails(target: string, branch: string, hash: string)
    requires InScope(FlatteredRun(target, branch, hash), PREFIX + target)
    ensures GateRun(EMPTY_DISK, FlatteredRun(target, branch, hash)) ==
            (DiskWith(target, branch, hash, L.OneTested(target, 1)), 1)
  {
    var input := FlatteredRun(target, branch, hash);
    assert [] + L.OneTested(target, 1) == L.OneTested(target, 1);
    L.OneTestedReport(target, 1);
    OneFileIsMutated(EMPTY_DISK, input, PREFIX + target);
    FlatteredVerdict(target, branch, hash);
    OneFileFails(EMPTY_DISK, input, target, hash);
    KilledScores(hash);
  }

  /** The same push, simply tried again, passes, and the baseline then says 100 where the report said 50. */
  lemma RerunPassesWhatFailed(target: string, branch: string, hash: string)
    requires InScope(FlatteredRun(target, branch, hash), PREFIX + target)
    ensures var input := FlatteredRun(target, branch, hash);
            && LogMatchesReport(EMPTY_DISK, input, PREFIX + target, DECIDED_SURVIVOR)
            && GateRun(EMPTY_DISK, input).1 == 1
            && GateRun(GateRun(EMPTY_DISK, input).0, input) ==
               (GateState(map[PREFIX + target := BaselineEntry(100.0, hash)], None, []), 0)
  {
    var input := FlatteredRun(target, branch, hash);
    FlatteredRunFails(target, branch, hash);
    DiskResumes(target, branch, hash, L.OneTested(target, 1), input);
    FlatteredLogMatches(target, branch, hash);
  }
}
