/**
 Mutation scores and the judgement on them. A score is computed twice in
 prepush-mutation-gate.ts: from the checkpoint log, which knows only the statuses of
 the mutants that were tested, and from the report, which leaves out static and
 equivalent mutants and holds those an incremental run had already decided.
 */
module Scores {
  import opened Wrappers
  import opened Collections

  const FLOOR: real := 95.0
  const TOLERANCE: real := 0.5

  /** A mutant of the report; one that was `decided` before the run is not tested, so the log has no line of it. */
  datatype ReportMutant = ReportMutant(status: string, isStatic: bool, equivalent: bool, decided: bool)

  predicate OutOfScope(status: string) {
    status == "Ignored" || status == "NoCoverage"
  }

  predicate IsKill(status: string) {
    status == "Killed" || status == "Timeout"
  }

  function Percent(killed: nat, scored: nat): real {
    if scored == 0 then 100.0 else killed as real / scored as real * 100.0
  }

  function ScoredIn(counts: multiset<string>): int {
    |counts| - counts["Ignored"] - counts["NoCoverage"]
  }

  lemma ScoredInIsSum(counts: multiset<string>)
    ensures 0 <= counts["Killed"] + counts["Timeout"] <= ScoredIn(counts)
    ensures ScoredIn(counts) == |counts["Ignored" := 0]["NoCoverage" := 0]|
  {
    var parts := multiset{}["Killed" := counts["Killed"]]["Timeout" := counts["Timeout"]]
      ["Ignored" := counts["Ignored"]]["NoCoverage" := counts["NoCoverage"]];
    assert counts == parts + (counts - parts);
  }

  /** Comparing two fractions is comparing cross products. */
  lemma RatioOrder(a: nat, b: nat, c: nat, d: nat)
    requires b > 0 && d > 0
    ensures a as real / b as real <= c as real / d as real <==> a * d <= c * b
  {
    var x, y := a as real / b as real, c as real / d as real;
    var p := b as real * d as real;
    assert p > 0.0;
    assert x * p == a as real * d as real == (a * d) as real;
    assert y * p == c as real * b as real == (c * b) as real;
    if x <= y { assert x * p <= y * p; } else { assert x * p > y * p; }
  }

  lemma PercentRange(killed: nat, scored: nat)
    requires killed <= scored
    ensures 0.0 <= Percent(killed, scored) <= 100.0
    ensures Percent(killed, scored) == 100.0 <==> killed == scored
  {
    if scored > 0 {
      RatioOrder(killed, scored, 1, 1);
      RatioOrder(1, 1, killed, scored);
      RatioOrder(0, 1, killed, scored);
    }
  }

  /** scoreFromStatusCounts: the score a checkpoint carries. */
  function ScoreFromStatusCounts(counts: multiset<string>): (score: real)
    ensures 0.0 <= score <= 100.0
    ensures score == 100.0 <==> ScoredIn(counts) == counts["Killed"] + counts["Timeout"]
  {
    ScoredInIsSum(counts);
    PercentRange(counts["Killed"] + counts["Timeout"], ScoredIn(counts));
    Percent(counts["Killed"] + counts["Timeout"], ScoredIn(counts))
  }

  /** The checkpoint's score, from the counts alone. */
  lemma StatusScoreIs(counts: multiset<string>)
    ensures var scored := |counts| - counts["Ignored"] - counts["NoCoverage"];
            ScoreFromStatusCounts(counts) ==
            if scored == 0 then 100.0 else (counts["Killed"] + counts["Timeout"]) as real / scored as real * 100.0
  {
  }

  /** Scored in the report: neither out of scope, nor static, nor equivalent. */
  predicate Kept(m: ReportMutant) {
    !OutOfScope(m.status) && !m.isStatic && !m.equivalent
  }

  predicate KeptKill(m: ReportMutant) {
    Kept(m) && IsKill(m.status)
  }

  /** The score of the mutants the report lists for one file. */
  function ReportScore(mutants: seq<ReportMutant>): real {
    Percent(Count(mutants, KeptKill), Count(mutants, Kept))
  }

  lemma KeptIs(m: ReportMutant)
    ensures Kept(m) <==> m.status != "Ignored" && m.status != "NoCoverage" && !m.isStatic && !m.equivalent
    ensures KeptKill(m) <==> Kept(m) && (m.status == "Killed" || m.status == "Timeout")
  {
  }

  lemma CountIsPlaces(mutants: seq<ReportMutant>, p: ReportMutant -> bool, places: set<int>)
    requires forall i :: i in places <==> 0 <= i < |mutants| && p(mutants[i])
    ensures Count(mutants, p) == |places|
  {
    CountIsSize(mutants, p);
    assert Places(mutants, p) == places;
  }

  /**
   The report's score: of the mutants that are neither ignored nor uncovered, static
   or equivalent, the share that was killed or timed out; 100 when there are none.
   */
  lemma ReportScoreIs(mutants: seq<ReportMutant>)
    ensures var scored := set i | 0 <= i < |mutants|
                            && mutants[i].status != "Ignored" && mutants[i].status != "NoCoverage"
                            && !mutants[i].isStatic && !mutants[i].equivalent;
            var killed := set i | i in scored && (mutants[i].status == "Killed" || mutants[i].status == "Timeout");
            ReportScore(mutants) == if scored == {} then 100.0 else |killed| as real / |scored| as real * 100.0
  {
    var scored := set i | 0 <= i < |mutants|
                    && mutants[i].status != "Ignored" && mutants[i].status != "NoCoverage"
                    && !mutants[i].isStatic && !mutants[i].equivalent;
    var killed := set i | i in scored && (mutants[i].status == "Killed" || mutants[i].status == "Timeout");
    forall i ensures i in scored <==> 0 <= i < |mutants| && Kept(mutants[i])
      ensures i in killed <==> 0 <= i < |mutants| && KeptKill(mutants[i])
    {
      if 0 <= i < |mutants| {
        KeptIs(mutants[i]);
      }
    }
    CountIsPlaces(mutants, Kept, scored);
    CountIsPlaces(mutants, KeptKill, killed);
  }

  predicate Logged(m: ReportMutant) {
    !m.decided
  }

  /** What the log of the run that made the report counts. */
  function LoggedStatuses(mutants: seq<ReportMutant>): multiset<string> {
    if mutants == [] then multiset{}
    else
      var first := if Logged(mutants[0]) then multiset{mutants[0].status} else multiset{};
      first + LoggedStatuses(mutants[1..])
  }

  /** The score the checkpoint gives to the same run. */
  function CheckpointScore(mutants: seq<ReportMutant>): real {
    ScoreFromStatusCounts(LoggedStatuses(mutants))
  }

  // ----- who is scored where

  /** Scored by the checkpoint and by the report. */
  predicate Shared(m: ReportMutant) {
    Kept(m) && Logged(m)
  }

  /** Static or equivalent: scored by the checkpoint only. */
  predicate LogOnly(m: ReportMutant) {
    !OutOfScope(m.status) && !Kept(m) && Logged(m)
  }

  /** Decided before the run: scored by the report only. */
  predicate ReportOnly(m: ReportMutant) {
    Kept(m) && !Logged(m)
  }

  predicate SharedKill(m: ReportMutant) {
    Shared(m) && IsKill(m.status)
  }

  predicate LogOnlyKill(m: ReportMutant) {
    LogOnly(m) && IsKill(m.status)
  }

  predicate ReportOnlyKill(m: ReportMutant) {
    ReportOnly(m) && IsKill(m.status)
  }

  lemma OneMoreStatus(status: string, rest: multiset<string>)
    ensures var all := multiset{status} + rest;
            && ScoredIn(all) == ScoredIn(rest) + (if OutOfScope(status) then 0 else 1)
            && all["Killed"] + all["Timeout"] == rest["Killed"] + rest["Timeout"] + (if IsKill(status) then 1 else 0)
  {
  }

  lemma {:induction false} LogCounts(mutants: seq<ReportMutant>)
    ensures var counts := LoggedStatuses(mutants);
            && ScoredIn(counts) == Count(mutants, Shared) + Count(mutants, LogOnly)
            && counts["Killed"] + counts["Timeout"] == Count(mutants, SharedKill) + Count(mutants, LogOnlyKill)
  {
    if mutants != [] {
      LogCounts(mutants[1..]);
      OneMoreStatus(mutants[0].status, LoggedStatuses(mutants[1..]));
    }
  }

  lemma {:induction false} ReportCounts(mutants: seq<ReportMutant>)
    ensures Count(mutants, Kept) == Count(mutants, Shared) + Count(mutants, ReportOnly)
    ensures Count(mutants, KeptKill) == Count(mutants, SharedKill) + Count(mutants, ReportOnlyKill)
  {
    if mutants != [] {
      ReportCounts(mutants[1..]);
    }
  }

  lemma {:induction false} KillsAreScored(mutants: seq<ReportMutant>)
    ensures Count(mutants, SharedKill) <= Count(mutants, Shared)
    ensures Count(mutants, LogOnlyKill) <= Count(mutants, LogOnly)
    ensures Count(mutants, ReportOnlyKill) <= Count(mutants, ReportOnly)
  {
    if mutants != [] {
      KillsAreScored(mutants[1..]);
    }
  }

  /**
   Two scores in order: the second has nothing to score, or is all killed where the
   first has nothing, or the kill rates are in order.
   */
  lemma PercentOrder(killed: nat, scored: nat, killed': nat, scored': nat)
    requires killed <= scored && killed' <= scored'
    ensures Percent(killed, scored) <= Percent(killed', scored') <==>
            || scored' == 0
            || (if scored == 0 then killed' == scored' else killed * scored' <= killed' * scored)
  {
    PercentRange(killed, scored);
    PercentRange(killed', scored');
    if scored > 0 && scored' > 0 {
      RatioOrder(killed, scored, killed', scored');
    }
  }

  lemma PoolsInOrder(k: nat, a: nat, kd: nat, d: nat, ke: nat, e: nat)
    requires k <= a && kd <= d && ke <= e
    ensures Percent(k + kd, a + d) <= Percent(k + ke, a + e) <==>
            || a + e == 0
            || (if a + d == 0 then ke == e else (k + kd) * (a + e) <= (k + ke) * (a + d))
  {
    PercentOrder(k + kd, a + d, k + ke, a + e);
  }

  lemma ScoreIs(counts: multiset<string>, killed: nat, scored: nat)
    requires ScoredIn(counts) == scored && counts["Killed"] + counts["Timeout"] == killed
    ensures ScoreFromStatusCounts(counts) == Percent(killed, scored)
  {
  }

  lemma CheckpointPools(mutants: seq<ReportMutant>)
    ensures CheckpointScore(mutants) ==
            Percent(Count(mutants, SharedKill) + Count(mutants, LogOnlyKill),
                    Count(mutants, Shared) + Count(mutants, LogOnly))
  {
    LogCounts(mutants);
    ScoreIs(LoggedStatuses(mutants), Count(mutants, SharedKill) + Count(mutants, LogOnlyKill),
            Count(mutants, Shared) + Count(mutants, LogOnly));
  }

  lemma ReportPools(mutants: seq<ReportMutant>)
    ensures ReportScore(mutants) ==
            Percent(Count(mutants, SharedKill) + Count(mutants, ReportOnlyKill),
                    Count(mutants, Shared) + Count(mutants, ReportOnly))
  {
    ReportCounts(mutants);
  }

  /**
   Exactly when a checkpoint does not flatter a file, for every report: the report
   has nothing to score; or the log has nothing to score and the report's mutants
   are all killed; or the mutants the log scores, the static and equivalent ones
   included, are killed at no higher rate than those the report scores, the
   already-decided ones included.
   */
  lemma CheckpointIsLowerIff(mutants: seq<ReportMutant>)
    ensures var a, k := Count(mutants, Shared), Count(mutants, SharedKill);
            var d, kd := Count(mutants, LogOnly), Count(mutants, LogOnlyKill);
            var e, ke := Count(mutants, ReportOnly), Count(mutants, ReportOnlyKill);
            CheckpointScore(mutants) <= ReportScore(mutants) <==>
              || a + e == 0
              || (if a + d == 0 then ke == e else (k + kd) * (a + e) <= (k + ke) * (a + d))
  {
    CheckpointPools(mutants);
    ReportPools(mutants);
    KillsAreScored(mutants);
    PoolsInOrder(Count(mutants, SharedKill), Count(mutants, Shared),
                 Count(mutants, LogOnlyKill), Count(mutants, LogOnly),
                 Count(mutants, ReportOnlyKill), Count(mutants, ReportOnly));
  }

  lemma ReportScoreRange(mutants: seq<ReportMutant>)
    ensures 0.0 <= ReportScore(mutants) <= 100.0
  {
    ReportCounts(mutants);
    KillsAreScored(mutants);
    PercentRange(Count(mutants, KeptKill), Count(mutants, Kept));
  }

  datatype BaselineEntry = BaselineEntry(score: real, hash: string)

  datatype Status = PassHashSkip | Pass | Regression | NewFileBelowFloor | Unscored

  datatype Verdict = Verdict(
    file: string, hash: Option<string>, score: Option<real>, baseline: Option<BaselineEntry>, status: Status)

  predicate Passes(v: Verdict) {
    v.status.PassHashSkip? || v.status.Pass?
  }

  /** judgeScored. */
  function JudgeScored(file: string, hash: string, score: Option<real>, baseline: Option<BaselineEntry>): Verdict {
    var status :=
      if score.None? then Unscored
      else if baseline.None? then (if score.value >= FLOOR then Pass else NewFileBelowFloor)
      else if score.value + TOLERANCE >= baseline.value.score then Pass else Regression;
    Verdict(file, Some(hash), score, baseline, status)
  }

  /** No static or equivalent mutant was killed, and no mutant decided before the run had survived. */
  predicate Unflattered(m: ReportMutant) {
    (LogOnly(m) ==> !IsKill(m.status)) && (ReportOnly(m) ==> IsKill(m.status))
  }

  lemma {:induction false} UnflatteredCounts(mutants: seq<ReportMutant>)
    requires forall m :: m in mutants ==> Unflattered(m)
    ensures Count(mutants, LogOnlyKill) == 0 && Count(mutants, ReportOnlyKill) == Count(mutants, ReportOnly)
  {
    if mutants != [] {
      assert Unflattered(mutants[0]);
      UnflatteredCounts(mutants[1..]);
    }
  }

  /** Adding survivors on the left and kills on the right puts the rates in order. */
  lemma RatesInOrder(k: nat, a: nat, d: nat, e: nat)
    requires k <= a
    ensures k * (a + e) <= (k + e) * (a + d)
  {
    assert (k + e) * (a + d) == k * a + k * d + e * a + e * d;
    assert k * e <= a * e;
  }

  lemma CheckpointIsLower(mutants: seq<ReportMutant>)
    requires forall m :: m in mutants ==> Unflattered(m)
    ensures CheckpointScore(mutants) <= ReportScore(mutants)
  {
    UnflatteredCounts(mutants);
    KillsAreScored(mutants);
    CheckpointIsLowerIff(mutants);
    RatesInOrder(Count(mutants, SharedKill), Count(mutants, Shared),
                 Count(mutants, LogOnly), Count(mutants, ReportOnly));
  }

  /** A pass on one score is a pass on the other, whatever the baseline says. */
  ghost predicate PassImplies(file: string, hash: string, score: real, other: real) {
    forall baseline: Option<BaselineEntry> ::
      Passes(JudgeScored(file, hash, Some(score), baseline)) ==> Passes(JudgeScored(file, hash, Some(other), baseline))
  }

  /** The judgement separates any two scores: the baseline half a point above the higher one does. */
  lemma PassImpliesIff(file: string, hash: string, score: real, other: real)
    ensures PassImplies(file, hash, score, other) <==> score <= other
  {
    if other < score {
      var baseline := Some(BaselineEntry(score + TOLERANCE, hash));
      assert Passes(JudgeScored(file, hash, Some(score), baseline));
      assert !Passes(JudgeScored(file, hash, Some(other), baseline));
    }
  }

  lemma UnflatteredIs(m: ReportMutant)
    requires !m.decided && (m.isStatic || m.equivalent) ==> m.status != "Killed" && m.status != "Timeout"
    requires m.decided && !m.isStatic && !m.equivalent ==>
               m.status == "Killed" || m.status == "Timeout" || m.status == "Ignored" || m.status == "NoCoverage"
    ensures Unflattered(m)
  {
  }

  /**
   Resuming is conservative where no static or equivalent mutant was killed and none
   that an earlier run had decided survived: the scores are in order, and a file
   that passes on its checkpoint score passes on the report of the same run.
   */
  lemma ResumedPassIsFreshPass(file: string, hash: string, mutants: seq<ReportMutant>)
    requires forall m :: m in mutants && !m.decided && (m.isStatic || m.equivalent) ==>
               m.status != "Killed" && m.status != "Timeout"
    requires forall m :: m in mutants && m.decided && !m.isStatic && !m.equivalent ==>
               m.status == "Killed" || m.status == "Timeout" || m.status == "Ignored" || m.status == "NoCoverage"
    ensures 0.0 <= CheckpointScore(mutants) <= ReportScore(mutants) <= 100.0
    ensures PassImplies(file, hash, CheckpointScore(mutants), ReportScore(mutants))
  {
    forall m | m in mutants ensures Unflattered(m) {
      UnflatteredIs(m);
    }
    CheckpointIsLower(mutants);
    ReportScoreRange(mutants);
    PassImpliesIff(file, hash, CheckpointScore(mutants), ReportScore(mutants));
  }

  /** A survivor and a killed static mutant. */
  const KILLED_STATIC := [ReportMutant("Survived", false, false, false), ReportMutant("Killed", true, false, false)]

  /** The checkpoint says 50, the report 0. */
  lemma KilledStaticMutantFlatters()
    ensures CheckpointScore(KILLED_STATIC) == 50.0 && ReportScore(KILLED_STATIC) == 0.0
  {
    var rest := [ReportMutant("Killed", true, false, false)];
    assert KILLED_STATIC[1..] == rest && rest[1..] == [];
    assert LoggedStatuses(KILLED_STATIC) == multiset{"Survived", "Killed"};
  }

  /** One mutant killed now and a survivor an earlier run had decided. */
  const DECIDED_SURVIVOR := [ReportMutant("Killed", false, false, false), ReportMutant("Survived", false, false, true)]

  /** The checkpoint says 100, the report 50. */
  lemma DecidedSurvivorFlatters()
    ensures LoggedStatuses(DECIDED_SURVIVOR) == multiset{"Killed"}
    ensures CheckpointScore(DECIDED_SURVIVOR) == 100.0 && ReportScore(DECIDED_SURVIVOR) == 50.0
  {
    var rest := [ReportMutant("Survived", false, false, true)];
    assert DECIDED_SURVIVOR[1..] == rest && rest[1..] == [];
  }
}
