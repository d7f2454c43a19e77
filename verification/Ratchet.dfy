/**
 The ratchet over time: what repeated gate runs may do to a recorded score, and
 how the gate agrees with audit-baseline-floor.ts, which compares the baseline on
 disk with the committed one.
 */
module Ratchet {
  import opened Wrappers
  import opened Text
  import opened Collections
  import opened Scores
  import opened MutationGate

  // ----- the floor audit

  predicate Dropped(before: Baseline, after: Baseline, file: string) {
    file in after && file in before && after[file].score + TOLERANCE < before[file].score
  }

  predicate NewBelowFloor(before: Baseline, after: Baseline, file: string) {
    file in after && file !in before && after[file].score < FLOOR - TOLERANCE
  }

  ghost predicate FloorAccepts(before: Baseline, after: Baseline) {
    forall f :: f in after ==> !Dropped(before, after, f) && !NewBelowFloor(before, after, f)
  }

  /** audit-baseline-floor: `committed` is the baseline at HEAD, none when there is no such file. */
  method AuditFloor(hasHead: bool, committed: Option<Baseline>, after: Baseline)
    returns (code: int, drops: set<string>, newBelow: set<string>)
    ensures var before: Baseline := if committed.Some? then committed.value else map[];
            && (code == 0 <==> !hasHead || FloorAccepts(before, after))
            && code == (if hasHead && (drops != {} || newBelow != {}) then 1 else 0)
            && (hasHead ==>
                  forall f :: f in drops <==> f in after && f in before && after[f].score + 0.5 < before[f].score)
            && (hasHead ==> forall f :: f in newBelow <==> f in after && f !in before && after[f].score < 94.5)
  {
    drops, newBelow := {}, {};
    if !hasHead { return 0, drops, newBelow; }
    var before: Baseline := if committed.Some? then committed.value else map[];
    var files := after.Keys;
    while files != {}
      invariant files <= after.Keys
      invariant forall f :: f in drops <==> f !in files && Dropped(before, after, f)
      invariant forall f :: f in newBelow <==> f !in files && NewBelowFloor(before, after, f)
    {
      var file :| file in files;
      files := files - {file};
      var entry := after[file];
      if file !in before {
        if entry.score < FLOOR - TOLERANCE {
          newBelow := newBelow + {file};
        }
      } else if entry.score + TOLERANCE < before[file].score {
        drops := drops + {file};
      }
    }
    code := if drops == {} && newBelow == {} then 0 else 1;
    if !FloorAccepts(before, after) {
      var f :| f in after && (Dropped(before, after, f) || NewBelowFloor(before, after, f));
      assert f in drops || f in newBelow;
    }
  }

  // ----- one run

  lemma PassKeepsScore(v: Verdict, st: GateState, input: Input, file: string)
    requires v == VerdictOf(st, input, file) && Passes(v)
    ensures v.score.Some?
    ensures if file in st.baseline then v.score.value + TOLERANCE >= st.baseline[file].score else v.score.value >= FLOOR
  {
  }

  lemma OneRun(st: GateState, input: Input, file: string)
    ensures var next := GateRun(st, input).0.baseline;
            if file in st.baseline then file in next && next[file].score + 0.5 >= st.baseline[file].score
            else file in next ==> next[file].score >= 95.0
  {
    BaselineAfterPass(st, input, file);
    if AllPass(Verdicts(st, input)) && file in Scope(input) {
      PassesInScope(st, input, file);
      PassKeepsScore(VerdictOf(st, input, file), st, input, file);
    }
  }

  /** One gate run on a committed baseline, whatever it meets, leaves a baseline the floor audit accepts. */
  lemma GateSatisfiesFloorAudit(st: GateState, input: Input)
    ensures FloorAccepts(st.baseline, GateRun(st, input).0.baseline)
  {
    forall f | f in GateRun(st, input).0.baseline
      ensures !Dropped(st.baseline, GateRun(st, input).0.baseline, f)
      ensures !NewBelowFloor(st.baseline, GateRun(st, input).0.baseline, f)
    {
      OneRun(st, input, f);
    }
  }

  // ----- many runs

  /** How many of the runs rewrite the recorded score of the file. */
  function ScoreRewrites(st: GateState, inputs: seq<Input>, file: string): nat
    decreases |inputs|
  {
    if inputs == [] then 0
    else
      var next := GateRun(st, inputs[0]).0;
      var moved := file in st.baseline && file in next.baseline && next.baseline[file].score != st.baseline[file].score;
      (if moved then 1 else 0) + ScoreRewrites(next, inputs[1..], file)
  }

  /**
   The tolerance is applied to a baseline that each pass rewrites, so scores can
   drift: over any runs a recorded score loses at most half a point for each run
   that rewrites it, and it is never dropped.
   */
  lemma {:induction false} DriftBound(st: GateState, inputs: seq<Input>, file: string)
    requires file in st.baseline
    ensures var end := AfterRuns(st, inputs).baseline;
            && file in end
            && end[file].score >= st.baseline[file].score - 0.5 * ScoreRewrites(st, inputs, file) as real
            && ScoreRewrites(st, inputs, file) <= |inputs|
    decreases |inputs|
  {
    if inputs != [] {
      OneRun(st, inputs[0], file);
      DriftBound(GateRun(st, inputs[0]).0, inputs[1..], file);
    }
  }

  // ----- the bound is met

  const MUTANTS := 200

  function Mutants(n: nat, status: string): (ms: seq<ReportMutant>)
    ensures |ms| == n
  {
    if n == 0 then [] else [ReportMutant(status, false, false, false)] + Mutants(n - 1, status)
  }

  function ContentHash(k: nat): (h: string)
    ensures |h| == k
  {
    seq(k, _ => 'x')
  }

  /** After `k` drifting runs: half a point lost in each. */
  function DriftState(target: string, k: nat): GateState {
    GateState(map[PREFIX + target := BaselineEntry(100.0 - 0.5 * k as real, ContentHash(k))], None, [])
  }

  /** The `k`-th content of the file, of whose 200 mutants `k` survive. */
  function DriftInput(target: string, k: nat): Input
    requires k <= MUTANTS
  {
    var file := PREFIX + target;
    var hashes := map[file := ContentHash(k)];
    Input([file], {}, "main", hashes, hashes, [],
          [(target, Mutants(k, "Survived") + Mutants(MUTANTS - k, "Killed"))], false, false)
  }

  lemma {:induction false} CountSame(n: nat, status: string)
    requires !OutOfScope(status)
    ensures Count(Mutants(n, status), Kept) == n
    ensures Count(Mutants(n, status), KeptKill) == if IsKill(status) then n else 0
  {
    if n > 0 {
      CountSame(n - 1, status);
      assert Mutants(n, status)[1..] == Mutants(n - 1, status);
    }
  }

  lemma CountMutants(survived: nat, killed: nat)
    ensures var ms := Mutants(survived, "Survived") + Mutants(killed, "Killed");
            Count(ms, Kept) == survived + killed && Count(ms, KeptKill) == killed
  {
    var s, k := Mutants(survived, "Survived"), Mutants(killed, "Killed");
    CountSame(survived, "Survived");
    CountSame(killed, "Killed");
    CountAppend(s, k, Kept);
    CountAppend(s, k, KeptKill);
  }

  lemma DriftScore(target: string, k: nat)
    requires k <= MUTANTS
    ensures ScoreForFile(DriftInput(target, k).report, target) == Some(100.0 - 0.5 * k as real)
  {
    CountMutants(k, MUTANTS - k);
    assert EndsWith(target, target);
  }

  lemma DriftJudged(target: string, k: nat)
    requires 1 <= k <= MUTANTS
    ensures var file := PREFIX + target;
            var prior := DriftState(target, k - 1).baseline[file];
            JudgeScored(file, ContentHash(k), Some(100.0 - 0.5 * k as real), Some(prior)).status == Pass
  {
  }

  lemma DriftVerdict(target: string, k: nat)
    requires 1 <= k <= MUTANTS && InScope(DriftInput(target, k), PREFIX + target)
    ensures var st, input, file := DriftState(target, k - 1), DriftInput(target, k), PREFIX + target;
            && Scope(input) == [file] && Order(st, input) == [file]
            && VerdictOf(st, input, file) == Verdict(file, Some(ContentHash(k)), Some(100.0 - 0.5 * k as real),
                                                     Some(st.baseline[file]), Pass)
  {
    var st, input, file := DriftState(target, k - 1), DriftInput(target, k), PREFIX + target;
    SingleFile(st, input, file);
    assert |ContentHash(k)| != |ContentHash(k - 1)|;
    assert BucketOf(st, input, file) == Mutate;
    TargetOfFile(file, target);
    DriftScore(target, k);
    DriftJudged(target, k);
  }

  lemma DriftMoves(target: string, k: nat, v: Verdict)
    requires k >= 1 && v.file == PREFIX + target
    requires v.hash == Some(ContentHash(k)) && v.score == Some(100.0 - 0.5 * k as real)
    ensures Moves(DriftState(target, k - 1).baseline, v)
    ensures DriftState(target, k - 1).baseline[v.file := BaselineEntry(v.score.value, v.hash.value)] ==
            DriftState(target, k).baseline
  {
  }

  lemma DriftStep(target: string, k: nat)
    requires 1 <= k <= MUTANTS && InScope(DriftInput(target, k), PREFIX + target)
    ensures AllPass(Verdicts(DriftState(target, k - 1), DriftInput(target, k)))
    ensures GateRun(DriftState(target, k - 1), DriftInput(target, k)) == (DriftState(target, k), 0)
  {
    var st, input, file := DriftState(target, k - 1), DriftInput(target, k), PREFIX + target;
    DriftVerdict(target, k);
    var v := Verdict(file, Some(ContentHash(k)), Some(100.0 - 0.5 * k as real), Some(st.baseline[file]), Pass);
    DriftMoves(target, k, v);
    SinglePass(st, input, file, v);
  }

  /** An instance of the gate's fixpoint: running the same drifting input again changes nothing. */
  lemma DriftRerun(target: string, k: nat)
    requires 1 <= k <= MUTANTS && InScope(DriftInput(target, k), PREFIX + target)
    ensures GateRun(DriftState(target, k), DriftInput(target, k)) == (DriftState(target, k), 0)
  {
    DriftVerdict(target, k);
    DriftStep(target, k);
    RerunChangesNothing(DriftState(target, k - 1), DriftInput(target, k), DriftInput(target, k));
  }

  /** The next `n` drifting runs after the first `from`. */
  function DriftInputs(target: string, from: nat, n: nat): (inputs: seq<Input>)
    requires from + n <= MUTANTS
    ensures |inputs| == n
  {
    if n == 0 then [] else DriftInputs(target, from, n - 1) + [DriftInput(target, from + n)]
  }

  lemma {:induction false} RunsSnoc(st: GateState, inputs: seq<Input>, last: Input, file: string)
    ensures AfterRuns(st, inputs + [last]) == GateRun(AfterRuns(st, inputs), last).0
    ensures ScoreRewrites(st, inputs + [last], file) ==
            ScoreRewrites(st, inputs, file) + ScoreRewrites(AfterRuns(st, inputs), [last], file)
    decreases |inputs|
  {
    if inputs == [] {
      assert [] + [last] == [last] && [last][1..] == [];
    } else {
      assert (inputs + [last])[1..] == inputs[1..] + [last];
      RunsSnoc(GateRun(st, inputs[0]).0, inputs[1..], last, file);
    }
  }

  lemma RewriteCounts(st: GateState, input: Input, next: GateState, file: string)
    requires GateRun(st, input).0 == next && file in st.baseline && file in next.baseline
    ensures ScoreRewrites(st, [input], file) == if next.baseline[file].score != st.baseline[file].score then 1 else 0
  {
    assert [input][1..] == [];
  }

  lemma OneRewrite(target: string, n: nat)
    requires 1 <= n <= MUTANTS && StartsWith(PREFIX + target, PREFIX) && !IsExempt(PREFIX + target, {})
    ensures ScoreRewrites(DriftState(target, n - 1), [DriftInput(target, n)], PREFIX + target) == 1
  {
    DriftStep(target, n);
    RewriteCounts(DriftState(target, n - 1), DriftInput(target, n), DriftState(target, n), PREFIX + target);
  }

  /** For every file and up to 200 runs, a sequence of passing runs meets the bound exactly. */
  lemma {:induction false} DriftBoundIsMet(target: string, n: nat)
    requires n <= MUTANTS
    requires StartsWith(PREFIX + target, PREFIX) && !IsExempt(PREFIX + target, {})
    ensures AfterRuns(DriftState(target, 0), DriftInputs(target, 0, n)) == DriftState(target, n)
    ensures ScoreRewrites(DriftState(target, 0), DriftInputs(target, 0, n), PREFIX + target) == n
  {
    if n > 0 {
      DriftBoundIsMet(target, n - 1);
      DriftStep(target, n);
      RunsSnoc(DriftState(target, 0), DriftInputs(target, 0, n - 1), DriftInput(target, n), PREFIX + target);
      OneRewrite(target, n);
    }
  }

  /** Two passing runs with no commit between them can leave a baseline the floor audit rejects. */
  lemma TwoRunsCanBreakTheFloor(target: string)
    requires StartsWith(PREFIX + target, PREFIX) && !IsExempt(PREFIX + target, {})
    ensures AfterRuns(DriftState(target, 0), DriftInputs(target, 0, 2)) == DriftState(target, 2)
    ensures !FloorAccepts(DriftState(target, 0).baseline, DriftState(target, 2).baseline)
  {
    DriftBoundIsMet(target, 2);
    assert Dropped(DriftState(target, 0).baseline, DriftState(target, 2).baseline, PREFIX + target);
  }

  /** One input again and again after the others. */
  function Again(inputs: seq<Input>, last: Input, times: nat): (all: seq<Input>)
    ensures |all| == |inputs| + times
  {
    if times == 0 then inputs else Again(inputs, last, times - 1) + [last]
  }

  lemma {:induction false} IdleRunsChangeNothing(st: GateState, inputs: seq<Input>, last: Input, times: nat)
    requires GateRun(AfterRuns(st, inputs), last).0 == AfterRuns(st, inputs)
    ensures AfterRuns(st, Again(inputs, last, times)) == AfterRuns(st, inputs)
  {
    if times > 0 {
      IdleRunsChangeNothing(st, inputs, last, times - 1);
      RunsSnoc(st, Again(inputs, last, times - 1), last, "");
    }
  }

  /** The two drifting runs, and then reruns of the second one. */
  lemma RerunsKeepDrift(target: string, times: nat)
    requires StartsWith(PREFIX + target, PREFIX) && !IsExempt(PREFIX + target, {})
    ensures AfterRuns(DriftState(target, 0), Again(DriftInputs(target, 0, 2), DriftInput(target, 2), times)) ==
            DriftState(target, 2)
  {
    DriftBoundIsMet(target, 2);
    DriftRerun(target, 2);
    IdleRunsChangeNothing(DriftState(target, 0), DriftInputs(target, 0, 2), DriftInput(target, 2), times);
  }

  /** Some file is in the gate's scope. */
  lemma SomeTarget() returns (target: string)
    ensures StartsWith(PREFIX + target, PREFIX) && !IsExempt(PREFIX + target, {})
  {
    target := "src/a.ts";
    var file := PREFIX + target;
    assert |file| == 28;
    assert forall f :: f in TYPE_ONLY_FILES ==> |f| != 28;
    assert file[23..][0] == '/' && file[19..][1] == 's';
  }

  lemma ShortRunsAccepted(st: GateState, inputs: seq<Input>)
    requires |inputs| <= 1
    ensures FloorAccepts(st.baseline, AfterRuns(st, inputs).baseline)
  {
    if inputs != [] {
      assert inputs[1..] == [];
      GateSatisfiesFloorAudit(st, inputs[0]);
    }
  }

  ghost predicate AlwaysAccepted(n: nat) {
    forall st: GateState, inputs: seq<Input> :: |inputs| == n ==>
      FloorAccepts(st.baseline, AfterRuns(st, inputs).baseline)
  }

  lemma MoreRunsRejected(target: string, n: nat)
    requires n >= 2 && StartsWith(PREFIX + target, PREFIX) && !IsExempt(PREFIX + target, {})
    ensures !AlwaysAccepted(n)
  {
    RerunsKeepDrift(target, n - 2);
    TwoRunsCanBreakTheFloor(target);
    var st, inputs := DriftState(target, 0), Again(DriftInputs(target, 0, 2), DriftInput(target, 2), n - 2);
    assert |inputs| == n && !FloorAccepts(st.baseline, AfterRuns(st, inputs).baseline);
  }

  /**
   How often the gate may run between two commits: every sequence of `n` runs leaves
   a baseline that the floor audit accepts against the committed one if and only if
   there is at most one.
   */
  lemma AcceptedIffOneRun(n: nat)
    ensures AlwaysAccepted(n) <==> n <= 1
  {
    if n <= 1 {
      forall st: GateState, inputs: seq<Input> | |inputs| == n
        ensures FloorAccepts(st.baseline, AfterRuns(st, inputs).baseline)
      {
        ShortRunsAccepted(st, inputs);
      }
    } else {
      var target := SomeTarget();
      MoreRunsRejected(target, n);
    }
  }
}
