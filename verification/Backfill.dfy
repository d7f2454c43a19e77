/**
 backfill-baseline-scores.ts, which rebuilds the baseline from a full report, and
 audit-baseline-coverage.ts, which demands an entry for every eligible file.
 */
module Backfill {
  import opened Wrappers
  import opened Text
  import opened Collections
  import opened Scores
  import G = MutationGate

  const SRC_ROOT := "packages/astropress/src"
  const SRC_PREFIX := "packages/astropress/src/"

  type Baseline = map<string, BaselineEntry>

  /** Report entries in key order: a key and the statuses of its mutants. */
  type Report = seq<(string, seq<string>)>

  /** The working tree: what exists, what git can hash, the `.ts` files found under src, the marked ones. */
  datatype Repo = Repo(files: set<string>, hashes: map<string, string>, walked: seq<string>, dataOnly: set<string>)

  predicate Excluded(path: string) {
    || EndsWith(path, ".d.ts")
    || EndsWith(path, "/index.ts")
    || path in {SRC_ROOT + "/persistence-types.ts", SRC_ROOT + "/config-service-types.ts",
                SRC_ROOT + "/access/types.ts",
                SRC_ROOT + "/access/locals.ts", SRC_ROOT + "/admin-stub-catalog.ts"}
  }

  /** The files the backfill fills in. */
  function BackfillEligible(repo: Repo): seq<string> {
    Filter(repo.walked, f => !Excluded(f))
  }

  /** The files the audit asks for: those without the data-only marker. */
  function AuditEligible(repo: Repo): seq<string> {
    Filter(repo.walked, f => !Excluded(f) && f !in repo.dataOnly)
  }

  lemma UnderRoot(rest: string)
    ensures G.PREFIX + ("src" + rest) == SRC_ROOT + rest
  {
    assert G.PREFIX + "src" == SRC_ROOT;
    assert G.PREFIX + ("src" + rest) == (G.PREFIX + "src") + rest;
  }

  lemma SamePersistenceTypes()
    ensures G.PREFIX + "src/persistence-types.ts" == SRC_ROOT + "/persistence-types.ts"
  {
    UnderRoot("/persistence-types.ts");
    assert "src" + "/persistence-types.ts" == "src/persistence-types.ts";
  }

  lemma SameConfigServiceTypes()
    ensures G.PREFIX + "src/config-service-types.ts" == SRC_ROOT + "/config-service-types.ts"
  {
    UnderRoot("/config-service-types.ts");
    assert "src" + "/config-service-types.ts" == "src/config-service-types.ts";
  }

  lemma SameAccessTypes()
    ensures G.PREFIX + "src/access/types.ts" == SRC_ROOT + "/access/types.ts"
  {
    UnderRoot("/access/types.ts");
    assert "src" + "/access/types.ts" == "src/access/types.ts";
  }

  lemma SameAccessLocals()
    ensures G.PREFIX + "src/access/locals.ts" == SRC_ROOT + "/access/locals.ts"
  {
    UnderRoot("/access/locals.ts");
    assert "src" + "/access/locals.ts" == "src/access/locals.ts";
  }

  lemma SameAdminStubCatalog()
    ensures G.PREFIX + "src/admin-stub-catalog.ts" == SRC_ROOT + "/admin-stub-catalog.ts"
  {
    UnderRoot("/admin-stub-catalog.ts");
    assert "src" + "/admin-stub-catalog.ts" == "src/admin-stub-catalog.ts";
  }

  lemma SamePaths()
    ensures G.TYPE_ONLY_FILES == {SRC_ROOT + "/persistence-types.ts", SRC_ROOT + "/config-service-types.ts",
                                  SRC_ROOT + "/access/types.ts", SRC_ROOT + "/access/locals.ts",
                                  SRC_ROOT + "/admin-stub-catalog.ts"}
  {
    SamePersistenceTypes();
    SameConfigServiceTypes();
    SameAccessTypes();
    SameAccessLocals();
    SameAdminStubCatalog();
  }

  /** The gate exempts exactly the files the audit does not ask for. */
  lemma GateExemptsWhatAuditExcludes(repo: Repo, file: string)
    ensures G.IsExempt(file, repo.dataOnly) <==> Excluded(file) || file in repo.dataOnly
    ensures file in repo.walked ==> (file in AuditEligible(repo) <==> !G.IsExempt(file, repo.dataOnly))
  {
    SamePaths();
  }

  // ----- scores and keys

  predicate InScopeStatus(status: string) {
    !OutOfScope(status)
  }

  function ScoreFromMutants(statuses: seq<string>): real {
    if Count(statuses, InScopeStatus) == 0 then 100.0
    else Count(statuses, IsKill) as real / Count(statuses, InScopeStatus) as real * 100.0
  }

  lemma {:induction false} StatusCounts(statuses: seq<string>)
    ensures var counts := multiset(statuses);
            Count(statuses, InScopeStatus) == ScoredIn(counts)
              && Count(statuses, IsKill) == counts["Killed"] + counts["Timeout"]
  {
    if statuses != [] {
      StatusCounts(statuses[1..]);
      assert statuses == [statuses[0]] + statuses[1..];
    }
  }

  /** The backfill and the gate's checkpoint give the same mutants the same score. */
  lemma SameScoreAsCheckpoint(statuses: seq<string>)
    ensures ScoreFromMutants(statuses) == ScoreFromStatusCounts(multiset(statuses))
  {
    StatusCounts(statuses);
  }

  function ReportKeyToBaselineKey(key: string): Option<string> {
    if StartsWith(key, "src/") then Some(SRC_PREFIX + key[|"src/"|..])
    else
      var idx := IndexOf(key, "/src/", 0);
      if idx == -1 then None else Some(SRC_PREFIX + key[idx + |"/src/"|..])
  }

  /** A key that begins with `src/` is below the package; one without any `/src/` is skipped. */
  lemma OtherKeys(key: string)
    ensures "src/" <= key ==> ReportKeyToBaselineKey(key) == Some("packages/astropress/src/" + key[4..])
    ensures !("src/" <= key) && (forall a, b :: key != a + "/src/" + b) ==> ReportKeyToBaselineKey(key) == None
  {
    var idx := IndexOf(key, "/src/", 0);
    if idx != -1 {
      assert key == key[..idx] + "/src/" + key[idx + 5..];
    }
  }

  /**
   An absolute key is mapped to its path below a given `/src/` exactly when that is
   its first one: a checkout under another `src` directory is mapped wrongly.
   */
  lemma AbsoluteKeyIff(prefix: string, rest: string)
    requires !StartsWith(prefix + "/src/" + rest, "src/")
    ensures ReportKeyToBaselineKey(prefix + "/src/" + rest) == Some("packages/astropress/src/" + rest) <==>
            forall i :: 0 <= i < |prefix| ==> !OccursAt(prefix + "/src/" + rest, "/src/", i)
  {
    var key := prefix + "/src/" + rest;
    var sep := "/src/";
    assert key[|prefix|..|prefix| + |sep|] == sep;
    assert OccursAt(key, sep, |prefix|);
    var idx := IndexOf(key, sep, 0);
    assert 0 <= idx <= |prefix|;
    assert key[|prefix| + |sep|..] == rest;
    var mapped := SRC_PREFIX + key[idx + |sep|..];
    assert ReportKeyToBaselineKey(key) == Some(mapped);
    assert |mapped| == |SRC_PREFIX + rest| + |prefix| - idx;
    if idx == |prefix| {
      assert mapped == SRC_PREFIX + rest;
    }
  }

  // ----- what the backfill writes

  function Entry(repo: Repo, file: string, score: real): BaselineEntry
    requires file in repo.hashes
  {
    BaselineEntry(score, repo.hashes[file])
  }

  /** The file a report entry is recorded under; none when the entry is skipped. */
  function RecordedAs(repo: Repo, key: string): Option<string> {
    var file := ReportKeyToBaselineKey(key);
    if file.Some? && file.value in repo.files && file.value in repo.hashes then file else None
  }

  function FromReport(repo: Repo, report: Report): Baseline {
    if report == [] then map[]
    else
      var before := FromReport(repo, report[..|report| - 1]);
      var (key, statuses) := report[|report| - 1];
      var file := RecordedAs(repo, key);
      if file.None? then before else before[file.value := Entry(repo, file.value, ScoreFromMutants(statuses))]
  }

  /** The files recorded, one for each report entry that is not skipped. */
  function Recorded(repo: Repo, report: Report): seq<string> {
    if report == [] then []
    else
      var before := Recorded(repo, report[..|report| - 1]);
      var file := RecordedAs(repo, report[|report| - 1].0);
      if file.None? then before else before + [file.value]
  }

  /** Adds an entry with score 100 for each eligible file that has none and can be hashed. */
  function WithTrivial(repo: Repo, scores: Baseline, eligible: seq<string>): Baseline {
    if eligible == [] then scores
    else
      var file := eligible[|eligible| - 1];
      var before := WithTrivial(repo, scores, eligible[..|eligible| - 1]);
      if file in before || file !in repo.hashes then before else before[file := Entry(repo, file, 100.0)]
  }

  function WithPreserved(repo: Repo, scores: Baseline, baseline: Baseline): Baseline {
    scores + map f | f in baseline && f !in scores && f in repo.files :: baseline[f]
  }

  /** The scores a backfill writes. */
  function Backfilled(repo: Repo, report: Report, baseline: Baseline): Baseline {
    WithPreserved(repo, WithTrivial(repo, FromReport(repo, report), BackfillEligible(repo)), baseline)
  }

  ghost predicate Distinct(files: seq<string>) {
    forall i, j :: 0 <= i < j < |files| ==> files[i] != files[j]
  }

  // ----- counting

  datatype Tally = Tally(added: int, updated: int, same: int) {
    function Sum(): int { added + updated + same }
  }

  ghost function Added(next: Baseline, baseline: Baseline): set<string> {
    set f | f in next && f !in baseline
  }

  ghost function Updated(next: Baseline, baseline: Baseline): set<string> {
    set f | f in next && f in baseline && next[f] != baseline[f]
  }

  ghost function Same(next: Baseline, baseline: Baseline): set<string> {
    set f | f in next && f in baseline && next[f] == baseline[f]
  }

  /** How the entries of `next` compare with the baseline. */
  ghost function Compare(next: Baseline, baseline: Baseline): Tally {
    Tally(|Added(next, baseline)|, |Updated(next, baseline)|, |Same(next, baseline)|)
  }

  function CountOne(t: Tally, baseline: Baseline, file: string, e: BaselineEntry): Tally {
    if file !in baseline then t.(added := t.added + 1)
    else if baseline[file].score != e.score || baseline[file].hash != e.hash then t.(updated := t.updated + 1)
    else t.(same := t.same + 1)
  }

  lemma AddedGrows(next: Baseline, baseline: Baseline, file: string, e: BaselineEntry)
    requires file !in next
    ensures |Added(next[file := e], baseline)| == |Added(next, baseline)| + if file !in baseline then 1 else 0
  {
    assert Added(next[file := e], baseline) == Added(next, baseline) + (if file !in baseline then {file} else {});
  }

  lemma UpdatedGrows(next: Baseline, baseline: Baseline, file: string, e: BaselineEntry)
    requires file !in next
    ensures |Updated(next[file := e], baseline)| ==
            |Updated(next, baseline)| + if file in baseline && baseline[file] != e then 1 else 0
  {
    assert Updated(next[file := e], baseline) ==
           Updated(next, baseline) + (if file in baseline && baseline[file] != e then {file} else {});
  }

  lemma SameGrows(next: Baseline, baseline: Baseline, file: string, e: BaselineEntry)
    requires file !in next
    ensures |Same(next[file := e], baseline)| ==
            |Same(next, baseline)| + if file in baseline && baseline[file] == e then 1 else 0
  {
    assert Same(next[file := e], baseline) ==
           Same(next, baseline) + (if file in baseline && baseline[file] == e then {file} else {});
  }

  lemma CompareGrows(next: Baseline, baseline: Baseline, file: string, e: BaselineEntry)
    requires file !in next
    ensures Compare(next[file := e], baseline) == CountOne(Compare(next, baseline), baseline, file, e)
  {
    AddedGrows(next, baseline, file, e);
    UpdatedGrows(next, baseline, file, e);
    SameGrows(next, baseline, file, e);
  }

  lemma CompareSums(next: Baseline, baseline: Baseline)
    ensures Compare(next, baseline).Sum() == |next|
  {
    var a, u, n := Added(next, baseline), Updated(next, baseline), Same(next, baseline);
    assert a !! u && (a + u) !! n;
    assert next.Keys == a + u + n;
    assert |a + u| == |a| + |u| && |a + u + n| == |a + u| + |n|;
    assert |next.Keys| == |next|;
  }

  lemma ExtendDistinct(files: seq<string>, file: string)
    ensures Distinct(files + [file]) <==> Distinct(files) && file !in files
  {
    var more := files + [file];
    if Distinct(more) {
      forall i, j | 0 <= i < j < |files| ensures files[i] != files[j] {
        assert more[i] != more[j];
      }
      forall i | 0 <= i < |files| ensures files[i] != file {
        assert more[i] != more[|files|];
      }
    }
  }

  /** What the counters say after the files `done` were recorded into `next`, one after the other. */
  ghost predicate TallyOk(done: seq<string>, next: Baseline, t: Tally, baseline: Baseline) {
    && (forall f :: f in next <==> f in done)
    && t.Sum() == |done| && |next| <= |done|
    && (|next| == |done| <==> Distinct(done))
    && (Distinct(done) ==> t == Compare(next, baseline))
  }

  lemma TallyStep(done: seq<string>, next: Baseline, t: Tally, baseline: Baseline, file: string, e: BaselineEntry)
    requires TallyOk(done, next, t, baseline)
    ensures TallyOk(done + [file], next[file := e], CountOne(t, baseline, file, e), baseline)
  {
    ExtendDistinct(done, file);
    if file !in next {
      CompareGrows(next, baseline, file, e);
      assert |next[file := e]| == |next| + 1;
    } else {
      assert next[file := e].Keys == next.Keys;
      assert |next[file := e].Keys| == |next.Keys|;
    }
  }

  // ----- the counters

  function CountReport(repo: Repo, report: Report, baseline: Baseline): Tally {
    if report == [] then Tally(0, 0, 0)
    else
      var before := CountReport(repo, report[..|report| - 1], baseline);
      var (key, statuses) := report[|report| - 1];
      var file := RecordedAs(repo, key);
      if file.None? then before
      else CountOne(before, baseline, file.value, Entry(repo, file.value, ScoreFromMutants(statuses)))
  }

  function CountTrivial(repo: Repo, scores: Baseline, start: Tally, eligible: seq<string>, baseline: Baseline): Tally {
    if eligible == [] then start
    else
      var n := |eligible| - 1;
      var before := CountTrivial(repo, scores, start, eligible[..n], baseline);
      if eligible[n] in WithTrivial(repo, scores, eligible[..n]) || eligible[n] !in repo.hashes then before
      else CountOne(before, baseline, eligible[n], Entry(repo, eligible[n], 100.0))
  }

  function CountPreserved(repo: Repo, scores: Baseline, start: Tally, baseline: Baseline): Tally {
    start.(same := start.same + |WithPreserved(repo, scores, baseline)| - |scores|)
  }

  /** The counters a backfill prints. */
  function Counters(repo: Repo, report: Report, baseline: Baseline): Tally {
    var first := FromReport(repo, report);
    var second := WithTrivial(repo, first, BackfillEligible(repo));
    CountPreserved(repo, second,
                   CountTrivial(repo, first, CountReport(repo, report, baseline), BackfillEligible(repo), baseline),
                   baseline)
  }

  lemma {:induction false} ReportTally(repo: Repo, report: Report, baseline: Baseline)
    ensures TallyOk(Recorded(repo, report), FromReport(repo, report), CountReport(repo, report, baseline), baseline)
  {
    if report == [] {
      assert Added(map[], baseline) == {} && Updated(map[], baseline) == {} && Same(map[], baseline) == {};
    } else {
      var init := report[..|report| - 1];
      ReportTally(repo, init, baseline);
      var (key, statuses) := report[|report| - 1];
      var file := RecordedAs(repo, key);
      if file.Some? {
        TallyStep(Recorded(repo, init), FromReport(repo, init), CountReport(repo, init, baseline), baseline, file.value,
                  Entry(repo, file.value, ScoreFromMutants(statuses)));
      }
    }
  }

  /** The counters after `next` grew to `bigger` by entries counted once each. */
  ghost predicate CountedOn(before: Tally, next: Baseline, after: Tally, bigger: Baseline, baseline: Baseline) {
    && after.Sum() - before.Sum() == |bigger| - |next|
    && (before == Compare(next, baseline) ==> after == Compare(bigger, baseline))
  }

  lemma CountStep(start: Tally, first: Baseline, t: Tally, next: Baseline, baseline: Baseline, file: string,
                  e: BaselineEntry)
    requires CountedOn(start, first, t, next, baseline) && file !in next
    ensures CountedOn(start, first, CountOne(t, baseline, file, e), next[file := e], baseline)
  {
    CompareGrows(next, baseline, file, e);
    assert |next[file := e]| == |next| + 1;
  }

  lemma {:induction false} TrivialEntries(repo: Repo, scores: Baseline, eligible: seq<string>)
    ensures var filled := WithTrivial(repo, scores, eligible);
            && (forall f :: f in filled <==> f in scores || (f in eligible && f in repo.hashes))
            && (forall f :: f in filled ==>
                  if f in scores then filled[f] == scores[f]
                  else f in repo.hashes && filled[f] == Entry(repo, f, 100.0))
  {
    if eligible != [] {
      TrivialEntries(repo, scores, eligible[..|eligible| - 1]);
    }
  }

  lemma {:induction false} TrivialTally(repo: Repo, scores: Baseline, start: Tally, eligible: seq<string>,
                                        baseline: Baseline)
    ensures CountedOn(start, scores, CountTrivial(repo, scores, start, eligible, baseline),
            WithTrivial(repo, scores, eligible), baseline)
  {
    if eligible != [] {
      var n := |eligible| - 1;
      TrivialTally(repo, scores, start, eligible[..n], baseline);
      if eligible[n] !in WithTrivial(repo, scores, eligible[..n]) && eligible[n] in repo.hashes {
        CountStep(start, scores, CountTrivial(repo, scores, start, eligible[..n], baseline),
                  WithTrivial(repo, scores, eligible[..n]), baseline, eligible[n], Entry(repo, eligible[n], 100.0));
      }
    }
  }

  lemma PreservedAddsNone(repo: Repo, scores: Baseline, baseline: Baseline)
    ensures Added(WithPreserved(repo, scores, baseline), baseline) == Added(scores, baseline)
  {
  }

  lemma PreservedUpdatesNone(repo: Repo, scores: Baseline, baseline: Baseline)
    ensures Updated(WithPreserved(repo, scores, baseline), baseline) == Updated(scores, baseline)
  {
  }

  lemma PreservedTally(repo: Repo, scores: Baseline, start: Tally, baseline: Baseline)
    ensures CountedOn(start, scores, CountPreserved(repo, scores, start, baseline),
            WithPreserved(repo, scores, baseline), baseline)
  {
    PreservedAddsNone(repo, scores, baseline);
    PreservedUpdatesNone(repo, scores, baseline);
    CompareSums(WithPreserved(repo, scores, baseline), baseline);
    CompareSums(scores, baseline);
  }

  /**
   The three counters add up to the number of entries written exactly when no two
   report keys are recorded under one file, and then they say how the new baseline
   compares with the old one.
   */
  lemma CountersMean(repo: Repo, report: Report, baseline: Baseline)
    ensures var next, t := Backfilled(repo, report, baseline), Counters(repo, report, baseline);
            && (t.Sum() == |next| <==> Distinct(Recorded(repo, report)))
            && (Distinct(Recorded(repo, report)) ==> t == Compare(next, baseline))
  {
    var first := FromReport(repo, report);
    var second := WithTrivial(repo, first, BackfillEligible(repo));
    var t1 := CountReport(repo, report, baseline);
    var t2 := CountTrivial(repo, first, t1, BackfillEligible(repo), baseline);
    ReportTally(repo, report, baseline);
    TrivialTally(repo, first, t1, BackfillEligible(repo), baseline);
    PreservedTally(repo, second, t2, baseline);
  }

  // ----- the script

  method ReadReport(repo: Repo, report: Report, baseline: Baseline) returns (next: Baseline, t: Tally, skipped: nat)
    ensures next == FromReport(repo, report) && t == CountReport(repo, report, baseline)
    ensures skipped + |Recorded(repo, report)| == |report|
  {
    next, t, skipped := map[], Tally(0, 0, 0), 0;
    var i := 0;
    while i < |report|
      invariant 0 <= i <= |report|
      invariant next == FromReport(repo, report[..i]) && t == CountReport(repo, report[..i], baseline)
      invariant skipped + |Recorded(repo, report[..i])| == i
    {
      assert report[..i + 1][..i] == report[..i];
      var (key, statuses) := report[i];
      i := i + 1;
      var file := ReportKeyToBaselineKey(key);
      if file.None? || file.value !in repo.files || file.value !in repo.hashes {
        skipped := skipped + 1;
        continue;
      }
      var e := Entry(repo, file.value, ScoreFromMutants(statuses));
      t := CountOne(t, baseline, file.value, e);
      next := next[file.value := e];
    }
    assert report[..|report|] == report;
  }

  lemma TrivialUnfolds(repo: Repo, scores: Baseline, start: Tally, eligible: seq<string>, baseline: Baseline, i: nat)
    requires i < |eligible|
    ensures var before := WithTrivial(repo, scores, eligible[..i]);
            var t := CountTrivial(repo, scores, start, eligible[..i], baseline);
            var file := eligible[i];
            if file in before || file !in repo.hashes
            then && WithTrivial(repo, scores, eligible[..i + 1]) == before
                 && CountTrivial(repo, scores, start, eligible[..i + 1], baseline) == t
            else && WithTrivial(repo, scores, eligible[..i + 1]) == before[file := Entry(repo, file, 100.0)]
                 && CountTrivial(repo, scores, start, eligible[..i + 1], baseline) ==
                    CountOne(t, baseline, file, Entry(repo, file, 100.0))
  {
    assert eligible[..i + 1][..i] == eligible[..i];
  }

  method FillTrivial(repo: Repo, scores: Baseline, start: Tally, eligible: seq<string>, baseline: Baseline)
    returns (next: Baseline, t: Tally, trivial: nat)
    ensures next == WithTrivial(repo, scores, eligible) && t == CountTrivial(repo, scores, start, eligible, baseline)
    ensures trivial == |next| - |scores|
  {
    next, t, trivial := scores, start, 0;
    var i := 0;
    while i < |eligible|
      invariant 0 <= i <= |eligible|
      invariant next == WithTrivial(repo, scores, eligible[..i])
      invariant t == CountTrivial(repo, scores, start, eligible[..i], baseline)
      invariant trivial == |next| - |scores|
    {
      var file := eligible[i];
      TrivialUnfolds(repo, scores, start, eligible, baseline, i);
      i := i + 1;
      if file in next || file !in repo.hashes { continue; }
      var e := Entry(repo, file, 100.0);
      t := CountOne(t, baseline, file, e);
      next := next[file := e];
      trivial := trivial + 1;
    }
    assert eligible[..|eligible|] == eligible;
  }

  /** What pass three makes of a file once all of the old baseline but `left` was visited. */
  function PreservedEntry(files: set<string>, scores: Baseline, baseline: Baseline, left: set<string>,
                          f: string): Option<BaselineEntry> {
    if f in scores then Some(scores[f])
    else if f in baseline && f !in left && f in files then Some(baseline[f])
    else None
  }

  lemma VisitOne(files: set<string>, scores: Baseline, baseline: Baseline, left: set<string>, file: string)
    requires file in left && file in baseline
    ensures forall f :: PreservedEntry(files, scores, baseline, left - {file}, f) ==
              if f == file && file !in scores && file in files then Some(baseline[file])
              else PreservedEntry(files, scores, baseline, left, f)
  {
  }

  lemma PreservedIs(repo: Repo, scores: Baseline, baseline: Baseline, next: Baseline)
    requires forall f :: G.Lookup(next, f) == PreservedEntry(repo.files, scores, baseline, {}, f)
    ensures next == WithPreserved(repo, scores, baseline)
  {
    var spec := WithPreserved(repo, scores, baseline);
    forall f ensures G.Lookup(next, f) == G.Lookup(spec, f) {
      assert G.Lookup(next, f) == PreservedEntry(repo.files, scores, baseline, {}, f);
    }
    assert forall f :: f in next <==> G.Lookup(next, f).Some?;
    assert forall f :: f in spec <==> G.Lookup(spec, f).Some?;
  }

  method PreserveFiles(present: set<string>, scores: Baseline, baseline: Baseline)
    returns (next: Baseline, preserved: nat, orphans: set<string>)
    ensures forall f :: G.Lookup(next, f) == PreservedEntry(present, scores, baseline, {}, f)
    ensures |next| == |scores| + preserved
    ensures forall f :: f in orphans <==> f in baseline && f !in scores && f !in present
  {
    next, preserved, orphans := scores, 0, {};
    var files := baseline.Keys;
    while files != {}
      invariant files <= baseline.Keys
      invariant forall f :: G.Lookup(next, f) == PreservedEntry(present, scores, baseline, files, f)
      invariant |next| == |scores| + preserved
      invariant forall f :: f in orphans <==> f in baseline && f !in files && f !in scores && f !in present
    {
      var file :| file in files;
      assert G.Lookup(next, file) == PreservedEntry(present, scores, baseline, files, file);
      VisitOne(present, scores, baseline, files, file);
      files := files - {file};
      if file in next { continue; }
      if file !in present {
        orphans := orphans + {file};
      } else {
        next := next[file := baseline[file]];
        preserved := preserved + 1;
      }
    }
  }

  /** Entries of files that exist and that neither pass covered are kept; the rest is dropped as orphaned. */
  method Preserve(repo: Repo, scores: Baseline, start: Tally, baseline: Baseline)
    returns (next: Baseline, t: Tally, orphans: set<string>)
    ensures next == WithPreserved(repo, scores, baseline) && t == CountPreserved(repo, scores, start, baseline)
    ensures forall f :: f in orphans <==> f in baseline && f !in scores && f !in repo.files
  {
    var preserved;
    next, preserved, orphans := PreserveFiles(repo.files, scores, baseline);
    PreservedIs(repo, scores, baseline, next);
    t := start.(same := start.same + preserved);
  }

  lemma PreservedKeys(repo: Repo, scores: Baseline, baseline: Baseline)
    ensures forall f :: f in WithPreserved(repo, scores, baseline) <==>
            f in scores || (f in baseline && f in repo.files)
  {
  }

  method RunBackfill(repo: Repo, report: Report, baseline: Baseline)
    returns (next: Baseline, t: Tally, trivial: nat, skipped: nat, orphans: set<string>)
    ensures next == Backfilled(repo, report, baseline) && t == Counters(repo, report, baseline)
    ensures skipped + |Recorded(repo, report)| == |report|
    ensures forall f :: f in orphans <==> f in baseline && f !in next
  {
    var t0;
    next, t0, skipped := ReadReport(repo, report, baseline);
    next, t0, trivial := FillTrivial(repo, next, t0, BackfillEligible(repo), baseline);
    ghost var second := next;
    next, t, orphans := Preserve(repo, next, t0, baseline);
    PreservedKeys(repo, second, baseline);
  }

  // ----- the coverage audit

  function MissingIn(files: seq<string>, baseline: Baseline): seq<string> {
    if files == [] then []
    else
      var file := files[|files| - 1];
      MissingIn(files[..|files| - 1], baseline) + (if file !in baseline then [file] else [])
  }

  predicate IsStale(repo: Repo, baseline: Baseline, file: string) {
    file in baseline && file in repo.hashes && baseline[file].hash != repo.hashes[file]
  }

  function StaleIn(repo: Repo, files: seq<string>, baseline: Baseline): seq<string> {
    if files == [] then []
    else
      var file := files[|files| - 1];
      StaleIn(repo, files[..|files| - 1], baseline) + (if IsStale(repo, baseline, file) then [file] else [])
  }

  lemma {:induction false} MissingMeans(files: seq<string>, baseline: Baseline)
    ensures forall f :: f in MissingIn(files, baseline) <==> f in files && f !in baseline
  {
    if files != [] {
      MissingMeans(files[..|files| - 1], baseline);
    }
  }

  lemma {:induction false} StaleMeans(repo: Repo, files: seq<string>, baseline: Baseline)
    ensures forall f :: f in StaleIn(repo, files, baseline) <==>
              f in files && f in baseline && f in repo.hashes && baseline[f].hash != repo.hashes[f]
  {
    if files != [] {
      StaleMeans(repo, files[..|files| - 1], baseline);
    }
  }

  lemma {:induction false} NothingMissing(files: seq<string>, baseline: Baseline)
    ensures |MissingIn(files, baseline)| == 0 <==> forall f :: f in files ==> f in baseline
  {
    if files != [] {
      NothingMissing(files[..|files| - 1], baseline);
    }
  }

  /** Entries of files that no longer exist. */
  function Orphans(repo: Repo, baseline: Baseline): set<string> {
    set f | f in baseline && f !in AuditEligible(repo) && f !in repo.files
  }

  ghost predicate AuditPasses(repo: Repo, baseline: Baseline) {
    (forall f :: f in AuditEligible(repo) ==> f in baseline) && Orphans(repo, baseline) == {}
  }

  method ScanEligible(repo: Repo, eligible: seq<string>, baseline: Baseline)
    returns (missing: seq<string>, stale: seq<string>)
    ensures missing == MissingIn(eligible, baseline) && stale == StaleIn(repo, eligible, baseline)
  {
    missing, stale := [], [];
    var i := 0;
    while i < |eligible|
      invariant 0 <= i <= |eligible|
      invariant missing == MissingIn(eligible[..i], baseline) && stale == StaleIn(repo, eligible[..i], baseline)
    {
      var file := eligible[i];
      assert eligible[..i + 1][..i] == eligible[..i];
      i := i + 1;
      if file !in baseline {
        missing := missing + [file];
        continue;
      }
      if file in repo.hashes && baseline[file].hash != repo.hashes[file] {
        stale := stale + [file];
      }
    }
    assert eligible[..|eligible|] == eligible;
  }

  /** audit-baseline-coverage; `stale` only counts hashes that have moved on. */
  method AuditCoverage(repo: Repo, baseline: Baseline)
    returns (code: int, missing: seq<string>, stale: seq<string>, orphans: set<string>)
    ensures code == if AuditPasses(repo, baseline) then 0 else 1
    ensures missing == MissingIn(AuditEligible(repo), baseline)
    ensures stale == StaleIn(repo, AuditEligible(repo), baseline)
    ensures orphans == Orphans(repo, baseline)
    ensures code == if missing == [] && orphans == {} then 0 else 1
    ensures forall f :: f in missing <==>
              f in repo.walked && !Excluded(f) && f !in repo.dataOnly && f !in baseline
    ensures forall f :: f in stale <==>
              && f in repo.walked && !Excluded(f) && f !in repo.dataOnly
              && f in baseline && f in repo.hashes && baseline[f].hash != repo.hashes[f]
    ensures forall f :: f in orphans <==>
              f in baseline && f !in repo.files && !(f in repo.walked && !Excluded(f) && f !in repo.dataOnly)
  {
    missing, stale := ScanEligible(repo, AuditEligible(repo), baseline);
    var eligible := AuditEligible(repo);
    orphans := set f | f in baseline && f !in eligible && f !in repo.files;
    MissingMeans(AuditEligible(repo), baseline);
    StaleMeans(repo, AuditEligible(repo), baseline);
    NothingMissing(AuditEligible(repo), baseline);
    code := if |missing| == 0 && orphans == {} then 0 else 1;
  }

  lemma {:induction false} FromReportEntries(repo: Repo, report: Report)
    ensures forall f :: f in FromReport(repo, report) ==>
              f in repo.files && f in repo.hashes && FromReport(repo, report)[f].hash == repo.hashes[f]
  {
    if report != [] {
      FromReportEntries(repo, report[..|report| - 1]);
    }
  }

  lemma AuditAsksLess(repo: Repo, file: string)
    ensures file in AuditEligible(repo) ==> file in BackfillEligible(repo)
    ensures file in BackfillEligible(repo) ==> file in repo.walked
  {
  }

  lemma BackfilledKeys(repo: Repo, report: Report, baseline: Baseline, file: string)
    requires repo.hashes.Keys <= repo.files && forall f :: f in repo.walked ==> f in repo.files
    ensures file in Backfilled(repo, report, baseline) ==> file in repo.files
    ensures file in AuditEligible(repo) ==>
              (file in Backfilled(repo, report, baseline) <==> file in repo.hashes || file in baseline)
  {
    FromReportEntries(repo, report);
    AuditAsksLess(repo, file);
    TrivialEntries(repo, FromReport(repo, report), BackfillEligible(repo));
    PreservedKeys(repo, WithTrivial(repo, FromReport(repo, report), BackfillEligible(repo)), baseline);
  }

  /**
   The backfill establishes the coverage audit. What it writes never has an orphan,
   and passes the audit exactly when every file the audit asks for can be hashed or
   already had an entry.
   */
  lemma BackfillSatisfiesAudit(repo: Repo, report: Report, baseline: Baseline)
    requires repo.hashes.Keys <= repo.files && forall f :: f in repo.walked ==> f in repo.files
    ensures Orphans(repo, Backfilled(repo, report, baseline)) == {}
    ensures AuditPasses(repo, Backfilled(repo, report, baseline)) <==>
            forall f :: f in AuditEligible(repo) ==> f in repo.hashes || f in baseline
  {
    var next := Backfilled(repo, report, baseline);
    forall f ensures f in next ==> f in repo.files
      ensures f in AuditEligible(repo) ==> (f in next <==> f in repo.hashes || f in baseline)
    {
      BackfilledKeys(repo, report, baseline, f);
    }
  }

  /** The last report entry recorded under the file decides its score; -1 if none is. */
  lemma {:induction false} FromReportIs(repo: Repo, report: Report, file: string, i: int)
    requires -1 <= i < |report|
    requires i >= 0 ==> ReportKeyToBaselineKey(report[i].0) == Some(file) && file in repo.files && file in repo.hashes
    requires file in repo.files && file in repo.hashes ==>
               forall j :: i < j < |report| ==> ReportKeyToBaselineKey(report[j].0) != Some(file)
    ensures G.Lookup(FromReport(repo, report), file) ==
            if i >= 0 then Some(BaselineEntry(ScoreFromMutants(report[i].1), repo.hashes[file])) else None
  {
    if report != [] && i < |report| - 1 {
      FromReportIs(repo, report[..|report| - 1], file, i);
    }
  }

  /**
   Every entry a backfill writes: the score of the last report entry of the file under
   its hash; else 100 if the file is eligible and can be hashed; else what the
   baseline had, if the file still exists.
   */
  lemma BackfilledIs(repo: Repo, report: Report, baseline: Baseline, file: string, i: int)
    requires -1 <= i < |report|
    requires i >= 0 ==> ReportKeyToBaselineKey(report[i].0) == Some(file) && file in repo.files && file in repo.hashes
    requires file in repo.files && file in repo.hashes ==>
               forall j :: i < j < |report| ==> ReportKeyToBaselineKey(report[j].0) != Some(file)
    ensures G.Lookup(Backfilled(repo, report, baseline), file) ==
            if i >= 0 then Some(BaselineEntry(ScoreFromMutants(report[i].1), repo.hashes[file]))
            else if file in repo.walked && !Excluded(file) && file in repo.hashes
            then Some(BaselineEntry(100.0, repo.hashes[file]))
            else if file in repo.files then G.Lookup(baseline, file)
            else None
  {
    FromReportIs(repo, report, file, i);
    TrivialEntries(repo, FromReport(repo, report), BackfillEligible(repo));
  }

  lemma {:induction false} RecordedFiles(repo: Repo, report: Report)
    ensures forall f :: f in FromReport(repo, report) <==> f in Recorded(repo, report)
  {
    if report != [] {
      RecordedFiles(repo, report[..|report| - 1]);
    }
  }

  /** No entry of an existing file is ever dropped. */
  lemma ExistingFilesKeepEntries(repo: Repo, report: Report, baseline: Baseline, file: string)
    requires file in baseline && file in repo.files
    ensures file in Backfilled(repo, report, baseline)
    ensures file !in Recorded(repo, report) && file !in BackfillEligible(repo) ==>
              Backfilled(repo, report, baseline)[file] == baseline[file]
  {
    RecordedFiles(repo, report);
    TrivialEntries(repo, FromReport(repo, report), BackfillEligible(repo));
  }

  lemma PreservingTwice(repo: Repo, scores: Baseline, baseline: Baseline)
    ensures WithPreserved(repo, scores, WithPreserved(repo, scores, baseline)) == WithPreserved(repo, scores, baseline)
  {
  }

  /** A second backfill on the same report and tree writes the same scores. */
  lemma BackfillIsIdempotent(repo: Repo, report: Report, baseline: Baseline)
    ensures Backfilled(repo, report, Backfilled(repo, report, baseline)) == Backfilled(repo, report, baseline)
  {
    PreservingTwice(repo, WithTrivial(repo, FromReport(repo, report), BackfillEligible(repo)), baseline);
  }
}
