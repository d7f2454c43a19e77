/**
 prepush-mutation-gate.ts: split the changed files three ways, judge each, save a
 checkpoint for what a crash must not lose, and rewrite the baseline on a pass.
 Git hashes are looked up in the input: once for the split, and again after
 Stryker has run, as the script does.
 */
module MutationGate {
  import opened Wrappers
  import opened Text
  import opened Collections
  import opened Scores
  import L = ProgressLog

  const PREFIX := "packages/astropress/"

  const TYPE_ONLY_FILES: set<string> := {
    PREFIX + "src/persistence-types.ts",
    PREFIX + "src/config-service-types.ts",
    PREFIX + "src/access/types.ts",
    PREFIX + "src/access/locals.ts",
    PREFIX + "src/admin-stub-catalog.ts"
  }

  datatype ProgressEntry = ProgressEntry(hash: string, score: real, mutantCount: nat)

  datatype Checkpoint = Checkpoint(branch: string, files: map<string, ProgressEntry>)

  type Baseline = map<string, BaselineEntry>

  /** The files of a report in the order of its keys. */
  type Report = seq<(string, seq<ReportMutant>)>

  /** What the script keeps on disk. */
  datatype GateState = GateState(baseline: Baseline, checkpoint: Option<Checkpoint>, log: seq<L.Line>)

  /** What one run meets. `run` is what Stryker appends to the log, `report` what it leaves behind. */
  datatype Input = Input(
    changed: seq<string>, dataOnly: set<string>, branch: string,
    hashes: map<string, string>, hashesAfter: map<string, string>,
    run: seq<L.Line>, report: Report, checkOnly: bool, inPush: bool)

  predicate IsExempt(file: string, dataOnly: set<string>) {
    file in TYPE_ONLY_FILES || EndsWith(file, ".d.ts") || EndsWith(file, "/index.ts") || file in dataOnly
  }

  predicate InScope(input: Input, file: string) {
    StartsWith(file, PREFIX) && !IsExempt(file, input.dataOnly)
  }

  function Scope(input: Input): (files: seq<string>)
    ensures forall f :: f in files ==> StartsWith(f, PREFIX)
  {
    Filter(input.changed, f => InScope(input, f))
  }

  function Lookup<V>(m: map<string, V>, key: string): Option<V> {
    if key in m then Some(m[key]) else None
  }

  /** The checkpoint entries usable on this branch. */
  function Cached(st: GateState, input: Input): map<string, ProgressEntry> {
    if st.checkpoint.Some? && st.checkpoint.value.branch == input.branch then st.checkpoint.value.files else map[]
  }

  datatype Bucket = Skip | Resume | Mutate

  function BucketOf(st: GateState, input: Input, file: string): Bucket {
    var hash := Lookup(input.hashes, file);
    if hash.Some? && file in st.baseline && st.baseline[file].hash == hash.value then Skip
    else if hash.Some? && file in Cached(st, input) && Cached(st, input)[file].hash == hash.value then Resume
    else Mutate
  }

  function Target(file: string): string {
    if |PREFIX| <= |file| then file[|PREFIX|..] else ""
  }

  /** The first report key that ends with the target. */
  function ScoreForFile(report: Report, target: string): Option<real> {
    if report == [] then None
    else if EndsWith(report[0].0, target) then Some(ReportScore(report[0].1))
    else ScoreForFile(report[1..], target)
  }

  function VerdictOf(st: GateState, input: Input, file: string): Verdict {
    var prior := Lookup(st.baseline, file);
    match BucketOf(st, input, file)
    case Skip => Verdict(file, Lookup(input.hashes, file), Some(prior.value.score), prior, PassHashSkip)
    case Resume => JudgeScored(file, input.hashes[file], Some(Cached(st, input)[file].score), prior)
    case Mutate =>
      var hash := if file in input.hashesAfter then input.hashesAfter[file] else "";
      JudgeScored(file, hash, ScoreForFile(input.report, Target(file)), prior)
  }

  function Pick(st: GateState, input: Input, files: seq<string>, bucket: Bucket): seq<string> {
    Filter(files, f => BucketOf(st, input, f) == bucket)
  }

  function InBucket(st: GateState, input: Input, bucket: Bucket): seq<string> {
    Pick(st, input, Scope(input), bucket)
  }

  /** The files in the order they are judged. */
  function Order(st: GateState, input: Input): seq<string> {
    InBucket(st, input, Skip) + InBucket(st, input, Resume) + InBucket(st, input, Mutate)
  }

  function VerdictsFor(st: GateState, input: Input, files: seq<string>): (vs: seq<Verdict>)
    ensures |vs| == |files|
    ensures forall i :: 0 <= i < |vs| ==> vs[i] == VerdictOf(st, input, files[i])
  {
    seq(|files|, i requires 0 <= i < |files| => VerdictOf(st, input, files[i]))
  }

  function Verdicts(st: GateState, input: Input): seq<Verdict> {
    VerdictsFor(st, input, Order(st, input))
  }

  predicate AllPass(vs: seq<Verdict>) {
    forall i :: 0 <= i < |vs| ==> Passes(vs[i])
  }

  // ----- the checkpoint

  predicate Completed(st: GateState, input: Input, file: string) {
    && file in InBucket(st, input, Mutate)
    && Target(file) in L.Report(st.log + input.run)
    && file in input.hashesAfter
  }

  function Stamp(hash: string, info: L.Info): ProgressEntry {
    ProgressEntry(hash, ScoreFromStatusCounts(info.statusCounts), info.mutantCount)
  }

  /** The entries stamped for the files among `needs` that the log reports. */
  function Stamps(needs: seq<string>, hashes: map<string, string>, completed: map<string, L.Info>)
    : map<string, ProgressEntry>
  {
    map f | f in needs && f in hashes && Target(f) in completed :: Stamp(hashes[f], completed[Target(f)])
  }

  function NextFiles(st: GateState, input: Input): map<string, ProgressEntry> {
    Cached(st, input) + Stamps(InBucket(st, input, Mutate), input.hashesAfter, L.Report(st.log + input.run))
  }

  /** The checkpoint file after the mutation phase: saved only when it has more files than before. */
  function NextCheckpoint(st: GateState, input: Input): Option<Checkpoint> {
    if |NextFiles(st, input)| > |Cached(st, input)| then Some(Checkpoint(input.branch, NextFiles(st, input)))
    else st.checkpoint
  }

  // ----- the baseline

  predicate Moves(scores: Baseline, v: Verdict) {
    && v.score.Some? && v.hash.Some?
    && !(v.file in scores && scores[v.file].score == v.score.value && scores[v.file].hash == v.hash.value)
  }

  function Rewrite(scores: Baseline, vs: seq<Verdict>): Baseline
    decreases |vs|
  {
    if vs == [] then scores
    else
      var v := vs[|vs| - 1];
      var before := Rewrite(scores, vs[..|vs| - 1]);
      if Moves(before, v) then before[v.file := BaselineEntry(v.score.value, v.hash.value)] else before
  }

  predicate Dirty(scores: Baseline, vs: seq<Verdict>)
    decreases |vs|
  {
    vs != [] && (Dirty(scores, vs[..|vs| - 1]) || Moves(Rewrite(scores, vs[..|vs| - 1]), vs[|vs| - 1]))
  }

  /** What a failing run leaves for the next attempt. */
  function Failed(st: GateState, input: Input): GateState {
    if InBucket(st, input, Mutate) == [] then st
    else GateState(st.baseline, NextCheckpoint(st, input), st.log + input.run)
  }

  /** What a passing run leaves: the checkpoint is dropped, the baseline rewritten unless only checking. */
  function Passed(scores: Baseline, vs: seq<Verdict>, checkOnly: bool, inPush: bool): (GateState, int) {
    if checkOnly then (GateState(scores, None, []), 0)
    else (GateState(Rewrite(scores, vs), None, []), if Dirty(scores, vs) && inPush then 1 else 0)
  }

  /** The state a run leaves and the code it exits with. */
  function GateRun(st: GateState, input: Input): (GateState, int) {
    if Scope(input) == [] then (st, 0)
    else
      var vs := Verdicts(st, input);
      if AllPass(vs) then Passed(st.baseline, vs, input.checkOnly, input.inPush) else (Failed(st, input), 1)
  }

  // ----- every changed file gets exactly one verdict

  lemma PickFront(st: GateState, input: Input, files: seq<string>, bucket: Bucket)
    requires files != []
    ensures Pick(st, input, files, bucket) ==
            (if BucketOf(st, input, files[0]) == bucket then [files[0]] else []) + Pick(st, input, files[1..], bucket)
  {
  }

  lemma OneMoreOf(files: seq<string>, a: seq<string>, b: seq<string>, c: seq<string>)
    requires files != [] && multiset(a) + multiset(b) + multiset(c) == multiset(files[1..])
    ensures multiset([files[0]] + a) + multiset([] + b) + multiset([] + c) == multiset(files)
    ensures multiset([] + a) + multiset([files[0]] + b) + multiset([] + c) == multiset(files)
    ensures multiset([] + a) + multiset([] + b) + multiset([files[0]] + c) == multiset(files)
  {
    assert files == [files[0]] + files[1..];
    assert [] + a == a && [] + b == b && [] + c == c;
  }

  lemma {:induction false} BucketsSplit(st: GateState, input: Input, files: seq<string>)
    ensures multiset(Pick(st, input, files, Skip)) + multiset(Pick(st, input, files, Resume))
            + multiset(Pick(st, input, files, Mutate)) == multiset(files)
  {
    if files != [] {
      BucketsSplit(st, input, files[1..]);
      PickFront(st, input, files, Skip);
      PickFront(st, input, files, Resume);
      PickFront(st, input, files, Mutate);
      OneMoreOf(files, Pick(st, input, files[1..], Skip), Pick(st, input, files[1..], Resume),
        Pick(st, input, files[1..], Mutate));
    }
  }

  lemma OrderHasScope(st: GateState, input: Input)
    ensures multiset(Order(st, input)) == multiset(Scope(input))
    ensures forall f :: f in Order(st, input) <==> f in Scope(input)
  {
    BucketsSplit(st, input, Scope(input));
    var order, scope := Order(st, input), Scope(input);
    forall f ensures f in order <==> f in scope {
      assert f in order <==> f in multiset(order);
      assert f in scope <==> f in multiset(scope);
    }
  }

  /** The files that concern the gate. */
  lemma ScopeIs(input: Input, f: string)
    ensures f in Scope(input) <==>
            && f in input.changed && "packages/astropress/" <= f && f !in input.dataOnly
            && !(|f| >= 5 && f[|f| - 5..] == ".d.ts") && !(|f| >= 9 && f[|f| - 9..] == "/index.ts")
            && f != "packages/astropress/" + "src/persistence-types.ts"
            && f != "packages/astropress/" + "src/config-service-types.ts"
            && f != "packages/astropress/" + "src/access/types.ts"
            && f != "packages/astropress/" + "src/access/locals.ts"
            && f != "packages/astropress/" + "src/admin-stub-catalog.ts"
  {
  }

  /** Every changed file that is not exempt is judged, and as often as it was listed. */
  lemma EveryFileJudgedOnce(st: GateState, input: Input)
    ensures multiset(Order(st, input)) == multiset(Scope(input))
    ensures forall f :: f in Order(st, input) <==> f in input.changed && InScope(input, f)
    ensures forall i :: 0 <= i < |Verdicts(st, input)| ==> Verdicts(st, input)[i].file == Order(st, input)[i]
  {
    OrderHasScope(st, input);
  }

  // ----- what a rewrite does

  lemma {:induction false} RewriteAt(scores: Baseline, vs: seq<Verdict>, v: Verdict, file: string)
    requires forall i :: 0 <= i < |vs| && vs[i].file == file ==> vs[i] == v
    ensures if (exists i :: 0 <= i < |vs| && vs[i].file == file) && v.score.Some? && v.hash.Some?
            then Lookup(Rewrite(scores, vs), file) == Some(BaselineEntry(v.score.value, v.hash.value))
            else Lookup(Rewrite(scores, vs), file) == Lookup(scores, file)
  {
    if vs != [] {
      var n := |vs| - 1;
      RewriteAt(scores, vs[..n], v, file);
      if i :| 0 <= i < n && vs[i].file == file {
        assert vs[..n][i].file == file;
      }
    }
  }

  /** What the first report key ending with the target says; other files whose path ends alike can come first. */
  lemma {:induction false} ScoreForFileIs(report: Report, target: string, i: int)
    requires -1 <= i < |report| && (i >= 0 ==> EndsWith(report[i].0, target))
    requires forall j :: 0 <= j < (if i >= 0 then i else |report|) ==> !EndsWith(report[j].0, target)
    ensures ScoreForFile(report, target) == if i >= 0 then Some(ReportScore(report[i].1)) else None
  {
    if report != [] && i != 0 {
      ScoreForFileIs(report[1..], target, if i > 0 then i - 1 else -1);
    }
  }

  ghost predicate OneVerdictPerFile(vs: seq<Verdict>) {
    forall i, j :: 0 <= i < |vs| && 0 <= j < |vs| && vs[i].file == vs[j].file ==> vs[i] == vs[j]
  }

  lemma {:induction false} DirtyAt(scores: Baseline, vs: seq<Verdict>) returns (i: nat)
    requires Dirty(scores, vs)
    ensures i < |vs| && Moves(Rewrite(scores, vs[..i]), vs[i])
  {
    var n := |vs| - 1;
    if Dirty(scores, vs[..n]) {
      i := DirtyAt(scores, vs[..n]);
      assert vs[..n][..i] == vs[..i];
    } else {
      i := n;
    }
  }

  lemma {:induction false} CleanMeansSame(scores: Baseline, vs: seq<Verdict>)
    requires !Dirty(scores, vs)
    ensures Rewrite(scores, vs) == scores
  {
    if vs != [] {
      CleanMeansSame(scores, vs[..|vs| - 1]);
    }
  }

  lemma DirtyMeansMoved(scores: Baseline, vs: seq<Verdict>)
    requires OneVerdictPerFile(vs) && Dirty(scores, vs)
    ensures Rewrite(scores, vs) != scores
  {
    var i := DirtyAt(scores, vs);
    var v := vs[i];
    RewriteAt(scores, vs[..i], v, v.file);
    RewriteAt(scores, vs, v, v.file);
    assert Lookup(Rewrite(scores, vs), v.file) != Lookup(scores, v.file);
  }

  /** The baseline is written, and a push stopped for it, exactly when its scores really change. */
  lemma WrittenIffChanged(st: GateState, input: Input)
    ensures Dirty(st.baseline, Verdicts(st, input)) <==> Rewrite(st.baseline, Verdicts(st, input)) != st.baseline
  {
    var vs := Verdicts(st, input);
    if Dirty(st.baseline, vs) {
      DirtyMeansMoved(st.baseline, vs);
    } else {
      CleanMeansSame(st.baseline, vs);
    }
  }

  /** The baseline entries a passing run leaves: what was judged for the files in scope, the old entry elsewhere. */
  lemma BaselineAfterPass(st: GateState, input: Input, file: string)
    ensures var v := VerdictOf(st, input, file);
            Lookup(Rewrite(st.baseline, Verdicts(st, input)), file) ==
            if file in Scope(input) && v.score.Some? && v.hash.Some?
            then Some(BaselineEntry(v.score.value, v.hash.value)) else Lookup(st.baseline, file)
  {
    EveryFileJudgedOnce(st, input);
    var vs := Verdicts(st, input);
    RewriteAt(st.baseline, vs, VerdictOf(st, input, file), file);
    if file in Scope(input) {
      assert file in Order(st, input);
      var i :| 0 <= i < |Order(st, input)| && Order(st, input)[i] == file;
      assert vs[i].file == file;
    }
  }

  lemma BaselineOfRun(st: GateState, input: Input)
    ensures GateRun(st, input).0.baseline in {st.baseline, Rewrite(st.baseline, Verdicts(st, input))}
  {
  }

  lemma RewriteKeepsOthers(st: GateState, input: Input, file: string)
    ensures var next := Rewrite(st.baseline, Verdicts(st, input));
            && (file !in Scope(input) ==> Lookup(next, file) == Lookup(st.baseline, file))
            && (file in st.baseline ==> file in next)
  {
    BaselineAfterPass(st, input, file);
  }

  /** No run, whatever it meets, alters the entry of a file outside its change set, or drops an entry. */
  lemma OtherEntriesUntouched(st: GateState, input: Input, file: string)
    ensures file !in Scope(input) ==> Lookup(GateRun(st, input).0.baseline, file) == Lookup(st.baseline, file)
    ensures file in st.baseline ==> file in GateRun(st, input).0.baseline
  {
    BaselineOfRun(st, input);
    RewriteKeepsOthers(st, input, file);
  }

  // ----- the gate reaches a fixpoint

  /** The run's files are readable and did not change while Stryker ran. */
  predicate Steady(input: Input) {
    forall f :: f in Scope(input) ==>
      f in input.hashes && f in input.hashesAfter && input.hashes[f] == input.hashesAfter[f]
  }

  lemma PassesInScope(st: GateState, input: Input, file: string)
    requires AllPass(Verdicts(st, input)) && file in Scope(input)
    ensures Passes(VerdictOf(st, input, file))
  {
    OrderHasScope(st, input);
    assert file in Order(st, input);
    var i :| 0 <= i < |Order(st, input)| && Order(st, input)[i] == file;
    assert Passes(Verdicts(st, input)[i]);
  }

  /**
   Whether one file passes: its hash is the baseline's, or its score, the cached one
   if the hash is the checkpoint's and else the report's, is within half a point of
   the baseline's score or, without an entry, at least 95.
   */
  lemma PassesIff(st: GateState, input: Input, file: string)
    ensures var status := VerdictOf(st, input, file).status;
            var hashed, known := file in input.hashes, file in st.baseline;
            var resumed := hashed && st.checkpoint.Some? && st.checkpoint.value.branch == input.branch
                           && file in st.checkpoint.value.files
                           && st.checkpoint.value.files[file].hash == input.hashes[file];
            var score := if resumed then Some(st.checkpoint.value.files[file].score)
                         else ScoreForFile(input.report, Target(file));
            status == PassHashSkip || status == Pass <==>
              || (hashed && known && st.baseline[file].hash == input.hashes[file])
              || (score.Some? && if known then score.value + 0.5 >= st.baseline[file].score else score.value >= 95.0)
  {
  }

  lemma AllPassIff(st: GateState, input: Input)
    ensures AllPass(Verdicts(st, input)) <==> forall f :: f in Scope(input) ==> Passes(VerdictOf(st, input, f))
  {
    if AllPass(Verdicts(st, input)) {
      forall f | f in Scope(input) ensures Passes(VerdictOf(st, input, f)) {
        PassesInScope(st, input, f);
      }
    } else {
      OrderHasScope(st, input);
      var order := Order(st, input);
      var i :| 0 <= i < |order| && !Passes(Verdicts(st, input)[i]);
      assert order[i] in order;
    }
  }

  lemma SameLookups(a: Baseline, b: Baseline)
    ensures a == b <==> forall f :: Lookup(a, f) == Lookup(b, f)
  {
    if forall f :: Lookup(a, f) == Lookup(b, f) {
      assert forall f :: f in a <==> Lookup(a, f).Some?;
      assert forall f :: f in b <==> Lookup(b, f).Some?;
      forall f | f in a ensures a[f] == b[f] {
        assert Lookup(a, f) == Lookup(b, f);
      }
    }
  }

  lemma RewriteMovesIff(st: GateState, input: Input)
    ensures Rewrite(st.baseline, Verdicts(st, input)) != st.baseline <==>
            exists f :: f in Scope(input) &&
              var v := VerdictOf(st, input, f);
              v.score.Some? && v.hash.Some?
              && Lookup(st.baseline, f) != Some(BaselineEntry(v.score.value, v.hash.value))
  {
    var next := Rewrite(st.baseline, Verdicts(st, input));
    forall f ensures Lookup(next, f) != Lookup(st.baseline, f) <==>
        f in Scope(input) &&
        var v := VerdictOf(st, input, f);
        v.score.Some? && v.hash.Some? && Lookup(st.baseline, f) != Some(BaselineEntry(v.score.value, v.hash.value))
    {
      BaselineAfterPass(st, input, f);
    }
    SameLookups(next, st.baseline);
  }

  lemma FailingRun(st: GateState, input: Input)
    requires !AllPass(Verdicts(st, input))
    ensures Scope(input) != [] && GateRun(st, input).1 == 1 && GateRun(st, input).0.baseline == st.baseline
  {
  }

  lemma MutateBucket(st: GateState, input: Input)
    ensures InBucket(st, input, Mutate) == [] <==> forall f :: f in Scope(input) ==> BucketOf(st, input, f) != Mutate
  {
    var bucket := InBucket(st, input, Mutate);
    forall f ensures f in bucket <==> f in Scope(input) && BucketOf(st, input, f) == Mutate {}
    if bucket != [] {
      assert bucket[0] in bucket;
    }
  }

  /**
   What a failing run leaves: if no file had to be mutated, the disk as it was; else
   the same baseline, the lines Stryker appended, and the checkpoint renewed.
   */
  lemma FailingRunLeaves(st: GateState, input: Input, file: string)
    requires file in Scope(input)
    requires VerdictOf(st, input, file).status != PassHashSkip && VerdictOf(st, input, file).status != Pass
    ensures var (next, code) := GateRun(st, input);
            && code == 1 && next.baseline == st.baseline
            && ((forall f :: f in Scope(input) ==> BucketOf(st, input, f) != Mutate) ==> next == st)
            && ((exists f :: f in Scope(input) && BucketOf(st, input, f) == Mutate) ==>
                  && next.log == st.log + input.run
                  && next.checkpoint == NextCheckpoint(st, input))
  {
    AllPassIff(st, input);
    MutateBucket(st, input);
  }

  lemma PassingRun(st: GateState, input: Input, moved: bool)
    requires AllPass(Verdicts(st, input)) && Scope(input) != []
    requires moved == (Rewrite(st.baseline, Verdicts(st, input)) != st.baseline)
    ensures var (next, code) := GateRun(st, input);
            && next.checkpoint.None? && next.log == []
            && next.baseline == (if input.checkOnly then st.baseline else Rewrite(st.baseline, Verdicts(st, input)))
            && code == if !input.checkOnly && input.inPush && moved then 1 else 0
  {
    WrittenIffChanged(st, input);
  }

  lemma NothingToJudge(st: GateState, input: Input)
    requires Scope(input) == []
    ensures GateRun(st, input) == (st, 0) && AllPass(Verdicts(st, input))
    ensures Rewrite(st.baseline, Verdicts(st, input)) == st.baseline
  {
    OrderHasScope(st, input);
    assert |multiset(Order(st, input))| == 0;
  }

  lemma RunComesTo(st: GateState, input: Input, passed: bool, moved: bool)
    requires passed == AllPass(Verdicts(st, input))
    requires moved == (Rewrite(st.baseline, Verdicts(st, input)) != st.baseline)
    ensures var (next, code) := GateRun(st, input);
            && code == (if !passed || (!input.checkOnly && input.inPush && moved) then 1 else 0)
            && (next.baseline != st.baseline <==> passed && !input.checkOnly && moved)
            && (passed && Scope(input) != [] ==> next.checkpoint.None? && next.log == [])
  {
    if Scope(input) == [] {
      NothingToJudge(st, input);
    } else if passed {
      PassingRun(st, input, moved);
    } else {
      FailingRun(st, input);
    }
  }

  /**
   What a run comes to, in terms of its verdicts: 1 if some file fails; else 1 exactly
   when the run is not check-only, is in a push, and some judged file's score and hash
   are not what the baseline records. Only a passing run that is not check-only
   changes the baseline, and a passing run leaves neither checkpoint nor log.
   */
  lemma ExitCodeIs(st: GateState, input: Input)
    ensures var failed := exists f :: f in Scope(input) &&
                            VerdictOf(st, input, f).status != PassHashSkip && VerdictOf(st, input, f).status != Pass;
            var moved := exists f :: f in Scope(input) &&
                           var v := VerdictOf(st, input, f);
                           v.score.Some? && v.hash.Some?
                           && Lookup(st.baseline, f) != Some(BaselineEntry(v.score.value, v.hash.value));
            var (next, code) := GateRun(st, input);
            && code == (if failed || (!input.checkOnly && input.inPush && moved) then 1 else 0)
            && (next.baseline != st.baseline <==> !failed && !input.checkOnly && moved)
            && (!failed && Scope(input) != [] ==> next.checkpoint.None? && next.log == [])
  {
    AllPassIff(st, input);
    RewriteMovesIff(st, input);
    RunComesTo(st, input, AllPass(Verdicts(st, input)), Rewrite(st.baseline, Verdicts(st, input)) != st.baseline);
  }

  lemma EntryOfVerdict(st: GateState, input: Input, file: string, score: Option<real>)
    requires score == ScoreForFile(input.report, Target(file))
    ensures var known, hashed := file in st.baseline, file in input.hashes;
            var resumed := hashed && st.checkpoint.Some? && st.checkpoint.value.branch == input.branch
                           && file in st.checkpoint.value.files
                           && st.checkpoint.value.files[file].hash == input.hashes[file];
            var v := VerdictOf(st, input, file);
            if hashed && known && st.baseline[file].hash == input.hashes[file]
            then v.score == Some(st.baseline[file].score) && v.hash == Some(st.baseline[file].hash)
            else if resumed
            then v.score == Some(st.checkpoint.value.files[file].score) && v.hash == Some(input.hashes[file])
            else v.score == score && v.hash == Some(if file in input.hashesAfter then input.hashesAfter[file] else "")
  {
  }

  lemma TargetOfFile(file: string, target: string)
    ensures Target(PREFIX + target) == target
    ensures StartsWith(file, PREFIX) && Target(file) == target ==> file == PREFIX + target
  {
  }

  /**
   What a passing run records of a file: nothing new if its hash is the baseline's;
   the checkpoint's score under the hash it was resumed by; else the score of the
   first report key that ends in its path below the package, under the hash taken
   after Stryker ran.
   */
  lemma RecordedEntryIs(st: GateState, input: Input, file: string, target: string, i: nat)
    requires forall f :: f in Scope(input) ==>
               VerdictOf(st, input, f).status == PassHashSkip || VerdictOf(st, input, f).status == Pass
    requires !input.checkOnly && file in Scope(input) && file == "packages/astropress/" + target
    requires i < |input.report| && EndsWith(input.report[i].0, target)
    requires forall j :: 0 <= j < i ==> !EndsWith(input.report[j].0, target)
    ensures var known, hashed := file in st.baseline, file in input.hashes;
            var resumed := hashed && st.checkpoint.Some? && st.checkpoint.value.branch == input.branch
                           && file in st.checkpoint.value.files
                           && st.checkpoint.value.files[file].hash == input.hashes[file];
            Lookup(GateRun(st, input).0.baseline, file) ==
            if hashed && known && st.baseline[file].hash == input.hashes[file] then Some(st.baseline[file])
            else if resumed then Some(BaselineEntry(st.checkpoint.value.files[file].score, input.hashes[file]))
            else Some(BaselineEntry(ReportScore(input.report[i].1),
                                    if file in input.hashesAfter then input.hashesAfter[file] else ""))
  {
    AllPassIff(st, input);
    BaselineAfterPass(st, input, file);
    TargetOfFile(file, target);
    ScoreForFileIs(input.report, target, i);
    EntryOfVerdict(st, input, file, Some(ReportScore(input.report[i].1)));
  }

  lemma RerunSkips(st: GateState, first: Input, second: Input, file: string)
    requires AllPass(Verdicts(st, first)) && !first.checkOnly && Steady(first)
    requires Scope(second) == Scope(first) && file in Scope(first)
    requires Lookup(second.hashes, file) == Lookup(first.hashes, file)
    ensures BucketOf(GateRun(st, first).0, second, file) == Skip
  {
    PassesInScope(st, first, file);
    BaselineAfterPass(st, first, file);
  }

  lemma {:induction false} SkipsLeaveBaseline(scores: Baseline, vs: seq<Verdict>)
    requires forall i :: 0 <= i < |vs| ==> vs[i].file in scores && vs[i].score == Some(scores[vs[i].file].score)
                                           && vs[i].hash == Some(scores[vs[i].file].hash)
    ensures Rewrite(scores, vs) == scores && !Dirty(scores, vs)
  {
    if vs != [] {
      SkipsLeaveBaseline(scores, vs[..|vs| - 1]);
    }
  }

  lemma SkipVerdicts(st: GateState, input: Input)
    requires forall f :: f in Scope(input) ==> BucketOf(st, input, f) == Skip
    ensures var vs := Verdicts(st, input);
            forall i :: 0 <= i < |vs| ==>
              && vs[i].status.PassHashSkip? && vs[i].file in st.baseline
              && vs[i].score == Some(st.baseline[vs[i].file].score)
              && vs[i].hash == Some(st.baseline[vs[i].file].hash)
  {
    OrderHasScope(st, input);
    var order := Order(st, input);
    forall i | 0 <= i < |order| ensures BucketOf(st, input, order[i]) == Skip {
      assert order[i] in order;
    }
  }

  lemma AllSkippedIsStable(st: GateState, input: Input)
    requires forall f :: f in Scope(input) ==> BucketOf(st, input, f) == Skip
    requires st.checkpoint == None && st.log == []
    ensures forall i :: 0 <= i < |Verdicts(st, input)| ==> Verdicts(st, input)[i].status.PassHashSkip?
    ensures GateRun(st, input) == (st, 0)
  {
    SkipVerdicts(st, input);
    SkipsLeaveBaseline(st.baseline, Verdicts(st, input));
  }

  /**
   The gate reaches a fixpoint. After a run that passed and was not check-only, on
   readable files that did not change meanwhile, any rerun on the same files, with
   whatever flags, log and report, skips every file by hash, exits 0 and leaves
   baseline, checkpoint and log exactly as they are.
   */
  lemma RerunChangesNothing(st: GateState, first: Input, second: Input)
    requires Scope(first) != [] && AllPass(Verdicts(st, first)) && !first.checkOnly && Steady(first)
    requires Scope(second) == Scope(first)
    requires forall f :: f in Scope(first) ==> Lookup(second.hashes, f) == Lookup(first.hashes, f)
    ensures var next := GateRun(st, first).0;
            && GateRun(next, second) == (next, 0)
            && forall i :: 0 <= i < |Verdicts(next, second)| ==> Verdicts(next, second)[i].status.PassHashSkip?
  {
    forall f | f in Scope(second) ensures BucketOf(GateRun(st, first).0, second, f) == Skip {
      RerunSkips(st, first, second, f);
    }
    AllSkippedIsStable(GateRun(st, first).0, second);
  }

  // ----- the script

  lemma PickSnoc(st: GateState, input: Input, files: seq<string>, f: string, bucket: Bucket)
    ensures Pick(st, input, files + [f], bucket) ==
            Pick(st, input, files, bucket) + (if BucketOf(st, input, f) == bucket then [f] else [])
  {
    FilterSnoc(files, f, g => BucketOf(st, input, g) == bucket);
  }

  datatype Buckets = Buckets(skips: seq<Verdict>, resumes: seq<Verdict>, needs: seq<string>)

  function SplitOne(st: GateState, input: Input, b: Buckets, file: string): Buckets {
    match BucketOf(st, input, file)
    case Skip => b.(skips := b.skips + [VerdictOf(st, input, file)])
    case Resume => b.(resumes := b.resumes + [VerdictOf(st, input, file)])
    case Mutate => b.(needs := b.needs + [file])
  }

  function SplitAll(st: GateState, input: Input, files: seq<string>): Buckets {
    if files == [] then Buckets([], [], [])
    else SplitOne(st, input, SplitAll(st, input, files[..|files| - 1]), files[|files| - 1])
  }

  lemma VerdictsConcat(st: GateState, input: Input, a: seq<string>, b: seq<string>)
    ensures VerdictsFor(st, input, a + b) == VerdictsFor(st, input, a) + VerdictsFor(st, input, b)
  {
  }

  lemma PickVerdictsSnoc(st: GateState, input: Input, files: seq<string>, f: string, bucket: Bucket)
    ensures VerdictsFor(st, input, Pick(st, input, files + [f], bucket)) ==
            if BucketOf(st, input, f) == bucket
            then VerdictsFor(st, input, Pick(st, input, files, bucket)) + [VerdictOf(st, input, f)]
            else VerdictsFor(st, input, Pick(st, input, files, bucket))
  {
    PickSnoc(st, input, files, f, bucket);
    VerdictsConcat(st, input, Pick(st, input, files, bucket), [f]);
  }

  lemma {:induction false} SplitAllIs(st: GateState, input: Input, files: seq<string>)
    ensures SplitAll(st, input, files) ==
            Buckets(VerdictsFor(st, input, Pick(st, input, files, Skip)),
                    VerdictsFor(st, input, Pick(st, input, files, Resume)),
                    Pick(st, input, files, Mutate))
  {
    if files != [] {
      var init, last := files[..|files| - 1], files[|files| - 1];
      SplitAllIs(st, input, init);
      assert files == init + [last];
      PickVerdictsSnoc(st, input, init, last, Skip);
      PickVerdictsSnoc(st, input, init, last, Resume);
      PickSnoc(st, input, init, last, Mutate);
    }
  }

  method SplitFiles(st: GateState, input: Input, files: seq<string>)
    returns (skips: seq<Verdict>, resumes: seq<Verdict>, needs: seq<string>)
    ensures Buckets(skips, resumes, needs) == SplitAll(st, input, files)
  {
    var progress := Cached(st, input);
    skips, resumes, needs := [], [], [];
    var i := 0;
    while i < |files|
      invariant 0 <= i <= |files|
      invariant Buckets(skips, resumes, needs) == SplitAll(st, input, files[..i])
    {
      var file := files[i];
      assert files[..i + 1][..i] == files[..i];
      var hash, prior, cached := Lookup(input.hashes, file), Lookup(st.baseline, file), Lookup(progress, file);
      if hash.Some? && prior.Some? && prior.value.hash == hash.value {
        skips := skips + [Verdict(file, hash, Some(prior.value.score), prior, PassHashSkip)];
      } else if hash.Some? && cached.Some? && cached.value.hash == hash.value {
        resumes := resumes + [JudgeScored(file, hash.value, Some(cached.value.score), prior)];
      } else {
        needs := needs + [file];
      }
      i := i + 1;
    }
    assert files[..|files|] == files;
  }

  /** The three-way split: verdicts by hash, verdicts from the checkpoint, files to mutate. */
  method Split(st: GateState, input: Input) returns (skips: seq<Verdict>, resumes: seq<Verdict>, needs: seq<string>)
    ensures skips == VerdictsFor(st, input, InBucket(st, input, Skip))
    ensures resumes == VerdictsFor(st, input, InBucket(st, input, Resume))
    ensures needs == InBucket(st, input, Mutate)
  {
    skips, resumes, needs := SplitFiles(st, input, Scope(input));
    SplitAllIs(st, input, Scope(input));
  }

  /** A target is that of one file under the prefix only. */
  lemma SameTarget(file: string, target: string)
    requires StartsWith(file, PREFIX)
    ensures Target(file) == target <==> file == PREFIX + target
  {
    TargetOfFile(file, target);
  }

  lemma StampsAdd(needs: seq<string>, hashes: map<string, string>, done: map<string, L.Info>, target: string,
                  info: L.Info, file: string)
    requires target !in done && forall f :: f in needs ==> (Target(f) == target <==> f == file)
    ensures Stamps(needs, hashes, done[target := info]) ==
            if file in needs && file in hashes then Stamps(needs, hashes, done)[file := Stamp(hashes[file], info)]
            else Stamps(needs, hashes, done)
  {
  }

  lemma StampsGrow(needs: seq<string>, hashes: map<string, string>, done: map<string, L.Info>, target: string,
                   info: L.Info)
    requires target !in done && forall f :: f in needs ==> StartsWith(f, PREFIX)
    ensures var file := PREFIX + target;
            Stamps(needs, hashes, done[target := info]) ==
            if file in needs && file in hashes then Stamps(needs, hashes, done)[file := Stamp(hashes[file], info)]
            else Stamps(needs, hashes, done)
  {
    forall f | f in needs ensures Target(f) == target <==> f == PREFIX + target {
      SameTarget(f, target);
    }
    StampsAdd(needs, hashes, done, target, info, PREFIX + target);
  }

  lemma UpdateAfterMerge<K, V>(a: map<K, V>, b: map<K, V>, key: K, v: V)
    ensures a + b[key := v] == (a + b)[key := v]
  {
  }

  function Without<V>(m: map<string, V>, keys: set<string>): map<string, V> {
    map k | k in m && k !in keys :: m[k]
  }

  lemma WithoutShrinks<V>(m: map<string, V>, keys: set<string>, key: string)
    requires key in m && key in keys
    ensures key !in Without(m, keys) && Without(m, keys - {key}) == Without(m, keys)[key := m[key]]
  {
  }

  /** Adds the files Stryker completed to the cached ones. */
  method MergeProgress(cached: map<string, ProgressEntry>, needs: seq<string>, hashes: map<string, string>,
                       completed: map<string, L.Info>)
    returns (next: map<string, ProgressEntry>)
    requires forall f :: f in needs ==> StartsWith(f, PREFIX)
    ensures next == cached + Stamps(needs, hashes, completed)
  {
    next := cached;
    var targets := completed.Keys;
    assert Without(completed, targets) == map[];
    while targets != {}
      invariant targets <= completed.Keys
      invariant next == cached + Stamps(needs, hashes, Without(completed, targets))
    {
      var target :| target in targets;
      var file := PREFIX + target;
      ghost var before := Without(completed, targets);
      WithoutShrinks(completed, targets, target);
      StampsGrow(needs, hashes, before, target, completed[target]);
      if file in needs && file in hashes {
        UpdateAfterMerge(cached, Stamps(needs, hashes, before), file, Stamp(hashes[file], completed[target]));
        next := next[file := Stamp(hashes[file], completed[target])];
      }
      targets := targets - {target};
    }
    assert Without(completed, {}) == completed;
  }

  function MutatedVerdict(st: GateState, input: Input, file: string): Verdict {
    var hash := if file in input.hashesAfter then input.hashesAfter[file] else "";
    JudgeScored(file, hash, ScoreForFile(input.report, Target(file)), Lookup(st.baseline, file))
  }

  lemma MutatedVerdicts(st: GateState, input: Input, needs: seq<string>)
    requires needs == InBucket(st, input, Mutate)
    ensures forall i :: 0 <= i < |needs| ==> |PREFIX| <= |needs[i]|
    ensures VerdictsFor(st, input, needs) ==
            seq(|needs|, i requires 0 <= i < |needs| => MutatedVerdict(st, input, needs[i]))
  {
    forall i | 0 <= i < |needs|
      ensures |PREFIX| <= |needs[i]| && VerdictOf(st, input, needs[i]) == MutatedVerdict(st, input, needs[i])
    {
      assert needs[i] in needs;
      assert BucketOf(st, input, needs[i]) == Mutate && StartsWith(needs[i], PREFIX);
    }
  }

  method JudgeMutated(st: GateState, input: Input, needs: seq<string>) returns (judged: seq<Verdict>)
    requires forall i :: 0 <= i < |needs| ==> |PREFIX| <= |needs[i]|
    ensures judged == seq(|needs|, i requires 0 <= i < |needs| => MutatedVerdict(st, input, needs[i]))
  {
    judged := [];
    var i := 0;
    while i < |needs|
      invariant 0 <= i <= |needs|
      invariant |judged| == i && forall j :: 0 <= j < i ==> judged[j] == MutatedVerdict(st, input, needs[j])
    {
      var file := needs[i];
      var score := ScoreForFile(input.report, file[|PREFIX|..]);
      var hash := Lookup(input.hashesAfter, file);
      judged := judged + [JudgeScored(file, if hash.Some? then hash.value else "", score, Lookup(st.baseline, file))];
      i := i + 1;
    }
  }

  method RewriteBaseline(scores: Baseline, verdicts: seq<Verdict>) returns (nextScores: Baseline, dirty: bool)
    ensures nextScores == Rewrite(scores, verdicts) && dirty == Dirty(scores, verdicts)
    ensures !dirty ==> nextScores == scores
  {
    nextScores, dirty := scores, false;
    var i := 0;
    while i < |verdicts|
      invariant 0 <= i <= |verdicts|
      invariant nextScores == Rewrite(scores, verdicts[..i]) && dirty == Dirty(scores, verdicts[..i])
      invariant !dirty ==> nextScores == scores
    {
      assert verdicts[..i + 1][..i] == verdicts[..i];
      var v := verdicts[i];
      if v.score.Some? && v.hash.Some? {
        if !(v.file in nextScores) || nextScores[v.file].score != v.score.value
          || nextScores[v.file].hash != v.hash.value
        {
          nextScores := nextScores[v.file := BaselineEntry(v.score.value, v.hash.value)];
          dirty := true;
        }
      }
      i := i + 1;
    }
    assert verdicts[..|verdicts|] == verdicts;
  }

  lemma VerdictsInOrder(st: GateState, input: Input)
    ensures Verdicts(st, input) ==
            VerdictsFor(st, input, InBucket(st, input, Skip)) + VerdictsFor(st, input, InBucket(st, input, Resume))
            + VerdictsFor(st, input, InBucket(st, input, Mutate))
  {
    var a, b, c := InBucket(st, input, Skip), InBucket(st, input, Resume), InBucket(st, input, Mutate);
    VerdictsConcat(st, input, a, b);
    VerdictsConcat(st, input, a + b, c);
  }

  /** The files the gate keeps on disk. */
  class Gate {
    var baseline: Baseline
    var checkpoint: Option<Checkpoint>
    var log: seq<L.Line>

    function State(): GateState
      reads this
    {
      GateState(baseline, checkpoint, log)
    }

    constructor (baseline: Baseline)
      ensures State() == GateState(baseline, None, [])
    {
      this.baseline, checkpoint, log := baseline, None, [];
    }

    /** Runs Stryker on the files that need it, saves the checkpoint, and judges them. */
    method MutateFiles(input: Input, needs: seq<string>) returns (judged: seq<Verdict>)
      requires needs == InBucket(State(), input, Mutate)
      modifies this`checkpoint, this`log
      ensures checkpoint == NextCheckpoint(old(State()), input) && log == old(log) + input.run
      ensures judged == VerdictsFor(old(State()), input, needs)
    {
      var st := State();
      log := log + input.run;
      var completed := L.ParseProgressJsonl(log);
      assert forall f :: f in needs ==> f in Scope(input);
      var next := MergeProgress(Cached(st, input), needs, input.hashesAfter, completed);
      if |next| > |Cached(st, input)| {
        checkpoint := Some(Checkpoint(input.branch, next));
      }
      MutatedVerdicts(st, input, needs);
      judged := JudgeMutated(st, input, needs);
    }

    /** Stryker is started only if some file needs it. */
    method MutateIfNeeded(input: Input, needs: seq<string>) returns (judged: seq<Verdict>)
      requires needs == InBucket(State(), input, Mutate)
      modifies this`checkpoint, this`log
      ensures State() == Failed(old(State()), input)
      ensures judged == VerdictsFor(old(State()), input, needs)
    {
      judged := [];
      if needs != [] {
        judged := MutateFiles(input, needs);
      }
    }

    /** Judges every file in scope; the checkpoint and the log are those a failing run leaves. */
    method JudgeAll(input: Input) returns (verdicts: seq<Verdict>)
      requires Scope(input) != []
      modifies this`checkpoint, this`log
      ensures verdicts == Verdicts(old(State()), input)
      ensures State() == Failed(old(State()), input)
    {
      var skips, resumes, needs := Split(State(), input);
      VerdictsInOrder(State(), input);
      var judged := MutateIfNeeded(input, needs);
      verdicts := skips + resumes + judged;
    }

    /** All files passed: the checkpoint is no longer needed, the baseline moves. */
    method Accept(verdicts: seq<Verdict>, checkOnly: bool, inPush: bool) returns (code: int)
      modifies this
      ensures (State(), code) == Passed(old(baseline), verdicts, checkOnly, inPush)
    {
      checkpoint, log := None, [];
      if checkOnly { return 0; }
      var nextScores, dirty := RewriteBaseline(baseline, verdicts);
      if dirty {
        baseline := nextScores;
      }
      code := if dirty && inPush then 1 else 0;
    }

    /** One run of the gate. */
    method RunGate(input: Input) returns (code: int, verdicts: seq<Verdict>)
      modifies this
      ensures (State(), code) == GateRun(old(State()), input)
      ensures verdicts == if Scope(input) == [] then [] else Verdicts(old(State()), input)
      ensures input.checkOnly ==> baseline == old(baseline)
    {
      ExitCodeIs(State(), input);
      if Scope(input) == [] { return 0, []; }
      verdicts := JudgeAll(input);
      if exists i :: 0 <= i < |verdicts| && !Passes(verdicts[i]) {
        return 1, verdicts;
      }
      code := Accept(verdicts, input.checkOnly, input.inPush);
    }
  }

  // ----- when the checkpoint is saved

  lemma GrowsIff<K, V>(a: map<K, V>, b: map<K, V>)
    ensures |a + b| > |a| <==> exists k :: k in b.Keys && k !in a
  {
    var union := (a + b).Keys;
    assert union == a.Keys + b.Keys && |union| == |a + b| && |a.Keys| == |a|;
    if k :| k in b.Keys && k !in a {
      SubsetSize(a.Keys + {k}, union);
    } else {
      assert union == a.Keys;
    }
  }

  /** The checkpoint is saved exactly when a file was completed that had no entry at all before. */
  lemma CheckpointSavedIff(st: GateState, input: Input)
    ensures |NextFiles(st, input)| > |Cached(st, input)| <==>
            exists f :: Completed(st, input, f) && f !in Cached(st, input)
  {
    var stamps := Stamps(InBucket(st, input, Mutate), input.hashesAfter, L.Report(st.log + input.run));
    forall f ensures Completed(st, input, f) <==> f in stamps.Keys {}
    GrowsIff(Cached(st, input), stamps);
  }

  // ----- runs on one file

  lemma FilterOne(file: string, p: string -> bool)
    ensures Filter([file], p) == if p(file) then [file] else []
  {
    assert [file][1..] == [];
  }

  lemma PickOne(st: GateState, input: Input, file: string)
    ensures forall bucket :: Pick(st, input, [file], bucket) ==
              if BucketOf(st, input, file) == bucket then [file] else []
  {
    forall bucket
      ensures Pick(st, input, [file], bucket) == if BucketOf(st, input, file) == bucket then [file] else []
    {
      FilterOne(file, f => BucketOf(st, input, f) == bucket);
    }
  }

  /** The only changed file is the only one judged. */
  lemma SingleFile(st: GateState, input: Input, file: string)
    requires input.changed == [file] && InScope(input, file)
    ensures Scope(input) == [file] && Order(st, input) == [file]
    ensures InBucket(st, input, Mutate) == if BucketOf(st, input, file) == Mutate then [file] else []
  {
    FilterOne(file, f => InScope(input, f));
    PickOne(st, input, file);
  }

  lemma OneMove(scores: Baseline, v: Verdict)
    requires Moves(scores, v)
    ensures Rewrite(scores, [v]) == scores[v.file := BaselineEntry(v.score.value, v.hash.value)]
  {
    assert [v][..0] == [];
  }

  /** A run on one file that passes with a new score or hash. */
  lemma SinglePass(st: GateState, input: Input, file: string, v: Verdict)
    requires Scope(input) == [file] && Order(st, input) == [file] && !input.checkOnly && !input.inPush
    requires VerdictOf(st, input, file) == v && v.file == file && v.status == Pass && Moves(st.baseline, v)
    ensures AllPass(Verdicts(st, input))
    ensures GateRun(st, input) ==
            (GateState(st.baseline[file := BaselineEntry(v.score.value, v.hash.value)], None, []), 0)
  {
    assert Verdicts(st, input) == [v];
    OneMove(st.baseline, v);
  }

  // ----- many runs

  function AfterRuns(st: GateState, inputs: seq<Input>): GateState
    decreases |inputs|
  {
    if inputs == [] then st else AfterRuns(GateRun(st, inputs[0]).0, inputs[1..])
  }

  lemma {:induction false} AfterSnoc(st: GateState, inputs: seq<Input>, last: Input)
    ensures AfterRuns(st, inputs + [last]) == GateRun(AfterRuns(st, inputs), last).0
    decreases |inputs|
  {
    if inputs == [] {
      assert [] + [last] == [last] && [last][1..] == [];
    } else {
      assert (inputs + [last])[1..] == inputs[1..] + [last];
      AfterSnoc(GateRun(st, inputs[0]).0, inputs[1..], last);
    }
  }
}
