/**
 The checkpoint log of prepush-mutation-gate.ts: several crashed sessions append
 to one file, each begun by a manifest line. Reading it back keeps, for each
 file, the newest session that tested it, and reports the file only when that
 session covered its whole manifest.
 */
module ProgressLog {
  import opened Collections

  /** One line of the log; a line that does not parse is Garbage. */
  datatype Line =
    | Manifest(files: map<string, nat>)
    | Mutant(file: string, id: string, status: string)
    | Garbage

  datatype Rec = Rec(id: string, status: string)

  datatype Session = Session(manifest: map<string, nat>, mutants: map<string, seq<Rec>>)

  /** `statusCounts` maps each status to how often it occurs. */
  datatype Info = Info(mutantCount: nat, statusCounts: multiset<string>)

  datatype Entry = Entry(mutants: seq<Rec>, expected: nat)

  // ----- what reading computes

  function Upsert(list: seq<Rec>, rec: Rec): (r: seq<Rec>)
    ensures |list| <= |r| <= |list| + 1
  {
    if list == [] then [rec]
    else if list[0].id == rec.id then [rec] + list[1..]
    else [list[0]] + Upsert(list[1..], rec)
  }

  function RecsOf(session: Session, file: string): seq<Rec> {
    if file in session.mutants then session.mutants[file] else []
  }

  function Expected(session: Session, file: string): nat {
    if file in session.manifest then session.manifest[file] else 0
  }

  function AddMutant(session: Session, line: Line): Session
    requires line.Mutant?
  {
    session.(mutants := session.mutants[line.file := Upsert(RecsOf(session, line.file), Rec(line.id, line.status))])
  }

  function Absorb(sessions: seq<Session>, line: Line): seq<Session> {
    match line
    case Manifest(files) => sessions + [Session(files, map[])]
    case Mutant(_, _, _) =>
      if sessions == [] then sessions
      else sessions[|sessions| - 1 := AddMutant(sessions[|sessions| - 1], line)]
    case Garbage => sessions
  }

  function Sessions(log: seq<Line>): seq<Session> {
    if log == [] then [] else Absorb(Sessions(log[..|log| - 1]), log[|log| - 1])
  }

  function SessionEntries(session: Session): map<string, Entry> {
    map f | f in session.mutants :: Entry(session.mutants[f], Expected(session, f))
  }

  function Latest(sessions: seq<Session>): map<string, Entry> {
    if sessions == [] then map[]
    else Latest(sessions[..|sessions| - 1]) + SessionEntries(sessions[|sessions| - 1])
  }

  predicate Complete(e: Entry) {
    e.expected != 0 && |e.mutants| >= e.expected
  }

  function Statuses(list: seq<Rec>): seq<string> {
    seq(|list|, i requires 0 <= i < |list| => list[i].status)
  }

  function InfoOf(e: Entry): Info {
    Info(|e.mutants|, multiset(Statuses(e.mutants)))
  }

  function Summarise(latest: map<string, Entry>): map<string, Info> {
    map f | f in latest && Complete(latest[f]) :: InfoOf(latest[f])
  }

  function Report(log: seq<Line>): map<string, Info> {
    Summarise(Latest(Sessions(log)))
  }

  // ----- parseProgressJsonl

  method FindById(list: seq<Rec>, id: string) returns (idx: int)
    ensures -1 <= idx < |list|
    ensures idx >= 0 ==> list[idx].id == id
    ensures forall i :: 0 <= i < (if idx >= 0 then idx else |list|) ==> list[i].id != id
  {
    idx := 0;
    while idx < |list|
      invariant 0 <= idx <= |list|
      invariant forall i :: 0 <= i < idx ==> list[i].id != id
    {
      if list[idx].id == id { return; }
      idx := idx + 1;
    }
    idx := -1;
  }

  lemma {:induction false} UpsertAt(list: seq<Rec>, rec: Rec, idx: int)
    requires -1 <= idx < |list|
    requires idx >= 0 ==> list[idx].id == rec.id
    requires forall i :: 0 <= i < (if idx >= 0 then idx else |list|) ==> list[i].id != rec.id
    ensures Upsert(list, rec) == if idx >= 0 then list[idx := rec] else list + [rec]
  {
    if list != [] && idx != 0 {
      UpsertAt(list[1..], rec, if idx > 0 then idx - 1 else -1);
    }
  }

  method ReadSessions(log: seq<Line>) returns (sessions: seq<Session>)
    ensures sessions == Sessions(log)
  {
    sessions := [];
    var i := 0;
    while i < |log|
      invariant 0 <= i <= |log|
      invariant sessions == Sessions(log[..i])
    {
      assert log[..i + 1][..i] == log[..i];
      var line := log[i];
      match line {
        case Manifest(files) =>
          sessions := sessions + [Session(files, map[])];
        case Mutant(file, id, status) =>
          if sessions != [] {
            var last := |sessions| - 1;
            var cur := sessions[last];
            var existing := if file in cur.mutants then cur.mutants[file] else [];
            var idx := FindById(existing, id);
            UpsertAt(existing, Rec(id, status), idx);
            existing := if idx >= 0 then existing[idx := Rec(id, status)] else existing + [Rec(id, status)];
            sessions := sessions[last := cur.(mutants := cur.mutants[file := existing])];
          }
        case Garbage =>
      }
      i := i + 1;
    }
    assert log[..|log|] == log;
  }

  method AddSession(latest: map<string, Entry>, s: Session) returns (r: map<string, Entry>)
    ensures r == latest + SessionEntries(s)
  {
    r := latest;
    var files := s.mutants.Keys;
    ghost var done: set<string> := {};
    while files != {}
      invariant files + done == s.mutants.Keys && files !! done
      invariant r == latest + (map f | f in done :: SessionEntries(s)[f])
    {
      var file :| file in files;
      r := r[file := Entry(s.mutants[file], if file in s.manifest then s.manifest[file] else 0)];
      files := files - {file};
      done := done + {file};
    }
    assert (map f | f in done :: SessionEntries(s)[f]) == SessionEntries(s);
  }

  method LatestPerFile(sessions: seq<Session>) returns (latest: map<string, Entry>)
    ensures latest == Latest(sessions)
  {
    latest := map[];
    var i := 0;
    while i < |sessions|
      invariant 0 <= i <= |sessions|
      invariant latest == Latest(sessions[..i])
    {
      assert sessions[..i + 1][..i] == sessions[..i];
      latest := AddSession(latest, sessions[i]);
      i := i + 1;
    }
    assert sessions[..|sessions|] == sessions;
  }

  method CountStatuses(mutants: seq<Rec>) returns (counts: multiset<string>)
    ensures counts == multiset(Statuses(mutants))
  {
    counts := multiset{};
    var i := 0;
    while i < |mutants|
      invariant 0 <= i <= |mutants|
      invariant counts == multiset(Statuses(mutants)[..i])
    {
      assert Statuses(mutants)[..i + 1] == Statuses(mutants)[..i] + [mutants[i].status];
      counts := counts[mutants[i].status := counts[mutants[i].status] + 1];
      i := i + 1;
    }
    assert Statuses(mutants)[..|mutants|] == Statuses(mutants);
  }

  /** The files whose newest session covered its manifest, with what that session found. */
  method ParseProgressJsonl(log: seq<Line>) returns (out: map<string, Info>)
    ensures out == Report(log)
  {
    var sessions := ReadSessions(log);
    var latest := LatestPerFile(sessions);
    out := map[];
    var files := latest.Keys;
    ghost var done: set<string> := {};
    while files != {}
      invariant files + done == latest.Keys && files !! done
      invariant forall f :: f in out <==> f in done && Complete(latest[f])
      invariant forall f :: f in out ==> out[f] == InfoOf(latest[f])
    {
      var file :| file in files;
      files := files - {file};
      done := done + {file};
      var e := latest[file];
      if e.expected == 0 || |e.mutants| < e.expected { continue; }
      var counts := CountStatuses(e.mutants);
      out := out[file := Info(|e.mutants|, counts)];
    }
    assert out == Summarise(latest);
  }

  // ----- what a log says, by positions

  function Manifests(log: seq<Line>): nat {
    if log == [] then 0 else Manifests(log[..|log| - 1]) + (if log[|log| - 1].Manifest? then 1 else 0)
  }

  /** The session open at line `i`: the number of manifests before it, none being 0. */
  function SessionAt(log: seq<Line>, i: int): nat
    requires 0 <= i < |log|
  {
    Manifests(log[..i])
  }

  /** The manifest that opens session `k`. */
  function ManifestOf(log: seq<Line>, k: nat): map<string, nat>
    requires 1 <= k <= Manifests(log)
  {
    var last := log[|log| - 1];
    if last.Manifest? && Manifests(log) == k then last.files else ManifestOf(log[..|log| - 1], k)
  }

  /** Line `i` records a mutant of `file` in session `k`. */
  predicate Records(log: seq<Line>, i: int, k: nat, file: string) {
    0 <= i < |log| && log[i].Mutant? && log[i].file == file && k > 0 && SessionAt(log, i) == k
  }

  /** Line `i` is the last one of session `k` about its mutant of `file`. */
  ghost predicate LastRecord(log: seq<Line>, i: int, k: nat, file: string) {
    && Records(log, i, k, file)
    && forall j :: i < j < |log| && Records(log, j, k, file) ==> log[j].id != log[i].id
  }

  /** Session `k` is the newest that recorded a mutant of `file`. */
  ghost predicate NewestSession(log: seq<Line>, k: nat, file: string) {
    && (exists i :: Records(log, i, k, file))
    && forall i: int, j: nat :: Records(log, i, j, file) ==> j <= k
  }

  ghost function MutantIds(log: seq<Line>, k: nat, file: string): set<string> {
    set i | 0 <= i < |log| && Records(log, i, k, file) :: log[i].id
  }

  /** In session `k` the last line about the mutant `rec.id` of `file` gives it the status `rec.status`. */
  ghost predicate EndsAs(log: seq<Line>, k: nat, file: string, rec: Rec) {
    exists i :: LastRecord(log, i, k, file) && log[i].id == rec.id && log[i].status == rec.status
  }

  /** The mutants of `file` whose last status in session `k` is `status`. */
  ghost function IdsEnding(log: seq<Line>, k: nat, file: string, status: string): set<string> {
    set id | id in MutantIds(log, k, file) && EndsAs(log, k, file, Rec(id, status))
  }

  ghost function ManifestCount(log: seq<Line>, k: nat, file: string): nat
    requires 1 <= k <= Manifests(log)
  {
    var m := ManifestOf(log, k);
    if file in m then m[file] else 0
  }

  // ----- the lists built are the records of each session

  ghost predicate Unique(list: seq<Rec>) {
    forall a, b :: 0 <= a < b < |list| ==> list[a].id != list[b].id
  }

  ghost predicate HasId(list: seq<Rec>, id: string) {
    exists rec :: rec in list && rec.id == id
  }

  ghost predicate Faithful(list: seq<Rec>, log: seq<Line>, k: nat, file: string) {
    && Unique(list)
    && (forall i :: Records(log, i, k, file) ==> HasId(list, log[i].id))
    && (forall rec :: rec in list ==> EndsAs(log, k, file, rec))
  }

  lemma RecordsInPrefix(log: seq<Line>, n: nat, i: int, k: nat, file: string)
    requires n <= |log| && i < n
    ensures Records(log, i, k, file) <==> Records(log[..n], i, k, file)
  {
    if 0 <= i {
      assert log[..n][..i] == log[..i];
    }
  }

  lemma {:induction false} SessionsInOrder(log: seq<Line>, i: nat)
    requires i <= |log|
    ensures Manifests(log[..i]) <= Manifests(log)
  {
    if i < |log| {
      SessionsInOrder(log[..|log| - 1], i);
      assert log[..|log| - 1][..i] == log[..i];
    } else {
      assert log[..i] == log;
    }
  }

  lemma {:induction false} UpsertIds(list: seq<Rec>, rec: Rec)
    requires Unique(list)
    ensures var r := Upsert(list, rec);
            && Unique(r) && rec in r
            && (forall x :: x in r ==> x == rec || (x in list && x.id != rec.id))
            && (forall x :: x in list && x.id != rec.id ==> x in r)
  {
    if list != [] && list[0].id != rec.id {
      var rest := list[1..];
      assert Unique(rest) by {
        forall a, b | 0 <= a < b < |rest| ensures rest[a].id != rest[b].id {
          assert rest[a] == list[a + 1] && rest[b] == list[b + 1];
        }
      }
      UpsertIds(rest, rec);
      assert Upsert(list, rec) == [list[0]] + Upsert(rest, rec);
      forall x | x in rest ensures x.id != list[0].id {}
    }
  }

  lemma EndsAsKeeps(log: seq<Line>, k: nat, file: string, rec: Rec)
    requires log != [] && EndsAs(log[..|log| - 1], k, file, rec)
    requires Records(log, |log| - 1, k, file) ==> log[|log| - 1].id != rec.id
    ensures EndsAs(log, k, file, rec)
  {
    var n := |log| - 1;
    var i :| LastRecord(log[..n], i, k, file) && log[..n][i].id == rec.id && log[..n][i].status == rec.status;
    forall j | 0 <= j < n ensures Records(log, j, k, file) <==> Records(log[..n], j, k, file) {
      RecordsInPrefix(log, n, j, k, file);
    }
    assert LastRecord(log, i, k, file);
  }

  lemma EndsAsOneStatus(log: seq<Line>, k: nat, file: string, x: Rec, y: Rec)
    requires EndsAs(log, k, file, x) && EndsAs(log, k, file, y) && x.id == y.id
    ensures x == y
  {
    var i :| LastRecord(log, i, k, file) && log[i].id == x.id && log[i].status == x.status;
    var j :| LastRecord(log, j, k, file) && log[j].id == y.id && log[j].status == y.status;
    assert i == j;
  }

  lemma FaithfulKeeps(list: seq<Rec>, log: seq<Line>, k: nat, file: string)
    requires log != [] && Faithful(list, log[..|log| - 1], k, file)
    requires !Records(log, |log| - 1, k, file)
    ensures Faithful(list, log, k, file)
  {
    var n := |log| - 1;
    forall i | Records(log, i, k, file) ensures HasId(list, log[i].id) {
      RecordsInPrefix(log, n, i, k, file);
      assert HasId(list, log[..n][i].id);
    }
    forall rec | rec in list ensures EndsAs(log, k, file, rec) {
      EndsAsKeeps(log, k, file, rec);
    }
  }

  lemma FaithfulUpserts(list: seq<Rec>, log: seq<Line>, k: nat, file: string)
    requires log != [] && Faithful(list, log[..|log| - 1], k, file)
    requires Records(log, |log| - 1, k, file)
    ensures Faithful(Upsert(list, Rec(log[|log| - 1].id, log[|log| - 1].status)), log, k, file)
  {
    var n := |log| - 1;
    var rec := Rec(log[n].id, log[n].status);
    var r := Upsert(list, rec);
    UpsertIds(list, rec);
    assert LastRecord(log, n, k, file);
    forall i | Records(log, i, k, file) ensures HasId(r, log[i].id) {
      if log[i].id != rec.id {
        RecordsInPrefix(log, n, i, k, file);
        assert HasId(list, log[..n][i].id);
      }
    }
    forall x | x in r ensures EndsAs(log, k, file, x) {
      if x != rec {
        EndsAsKeeps(log, k, file, x);
      }
    }
  }

  lemma {:induction false} SessionCount(log: seq<Line>)
    ensures |Sessions(log)| == Manifests(log)
  {
    if log != [] {
      SessionCount(log[..|log| - 1]);
    }
  }

  /** Session `k` as it is read back: its manifest, and for a file its mutants, each once with its last status. */
  lemma {:induction false} SessionMeans(log: seq<Line>, k: nat, file: string)
    requires 1 <= k <= Manifests(log)
    ensures |Sessions(log)| == Manifests(log)
    ensures Sessions(log)[k - 1].manifest == ManifestOf(log, k)
    ensures Faithful(RecsOf(Sessions(log)[k - 1], file), log, k, file)
    ensures file in Sessions(log)[k - 1].mutants <==> RecsOf(Sessions(log)[k - 1], file) != []
  {
    var n := |log| - 1;
    var init := log[..n];
    SessionCount(log);
    SessionCount(init);
    if k > Manifests(init) {
      forall i | 0 <= i < |log| ensures SessionAt(log, i) < k {
        SessionsInOrder(init, i);
        assert init[..i] == log[..i];
      }
    } else {
      SessionMeans(init, k, file);
      var list := RecsOf(Sessions(init)[k - 1], file);
      if Records(log, n, k, file) {
        FaithfulUpserts(list, log, k, file);
        assert RecsOf(Sessions(log)[k - 1], file) == Upsert(list, Rec(log[n].id, log[n].status));
        UpsertIds(list, Rec(log[n].id, log[n].status));
      } else {
        FaithfulKeeps(list, log, k, file);
        assert RecsOf(Sessions(log)[k - 1], file) == list;
      }
    }
  }

  // ----- counting

  ghost function Ids(list: seq<Rec>): set<string> {
    set rec | rec in list :: rec.id
  }

  lemma {:induction false} DistinctIds(list: seq<Rec>)
    requires Unique(list)
    ensures |Ids(list)| == |list|
  {
    if list != [] {
      var n := |list| - 1;
      DistinctIds(list[..n]);
      assert list == list[..n] + [list[n]];
      assert Ids(list) == Ids(list[..n]) + {list[n].id};
    }
  }

  ghost function IdsWith(list: seq<Rec>, status: string): set<string> {
    set rec | rec in list && rec.status == status :: rec.id
  }

  lemma {:induction false} DistinctIdsWith(list: seq<Rec>, status: string)
    requires Unique(list)
    ensures |IdsWith(list, status)| == multiset(Statuses(list))[status]
  {
    if list != [] {
      var n := |list| - 1;
      DistinctIdsWith(list[..n], status);
      assert Statuses(list) == Statuses(list[..n]) + [list[n].status];
      assert list == list[..n] + [list[n]];
      if list[n].status == status {
        assert IdsWith(list, status) == IdsWith(list[..n], status) + {list[n].id};
      } else {
        assert IdsWith(list, status) == IdsWith(list[..n], status);
      }
    }
  }

  lemma IdsAgree(list: seq<Rec>, log: seq<Line>, k: nat, file: string, status: string)
    requires Faithful(list, log, k, file) && Ids(list) == MutantIds(log, k, file)
    ensures IdsWith(list, status) == IdsEnding(log, k, file, status)
  {
    forall id | id in IdsEnding(log, k, file, status) ensures id in IdsWith(list, status) {
      assert id in Ids(list);
      var rec :| rec in list && rec.id == id;
      EndsAsOneStatus(log, k, file, rec, Rec(id, status));
    }
    forall id | id in IdsWith(list, status) ensures id in IdsEnding(log, k, file, status) {
      var rec :| rec in list && rec.status == status && rec.id == id;
      assert rec == Rec(id, status) && id in Ids(list);
    }
  }

  lemma FaithfulCounts(list: seq<Rec>, log: seq<Line>, k: nat, file: string)
    requires Faithful(list, log, k, file)
    ensures |list| == |MutantIds(log, k, file)|
    ensures forall status :: multiset(Statuses(list))[status] == |IdsEnding(log, k, file, status)|
  {
    DistinctIds(list);
    forall rec | rec in list ensures rec.id in MutantIds(log, k, file) {
      assert EndsAs(log, k, file, rec);
      var i :| LastRecord(log, i, k, file) && log[i].id == rec.id && log[i].status == rec.status;
    }
    forall id | id in MutantIds(log, k, file) ensures HasId(list, id) {}
    assert Ids(list) == MutantIds(log, k, file);
    forall status ensures multiset(Statuses(list))[status] == |IdsEnding(log, k, file, status)| {
      DistinctIdsWith(list, status);
      IdsAgree(list, log, k, file, status);
    }
  }

  // ----- the newest session wins

  lemma {:induction false} LatestMeans(sessions: seq<Session>, k: nat, file: string)
    requires 1 <= k <= |sessions| && file in sessions[k - 1].mutants
    requires forall j :: k <= j < |sessions| ==> file !in sessions[j].mutants
    ensures file in Latest(sessions)
    ensures Latest(sessions)[file] == Entry(sessions[k - 1].mutants[file], Expected(sessions[k - 1], file))
  {
    if k < |sessions| {
      LatestMeans(sessions[..|sessions| - 1], k, file);
    }
  }

  lemma {:induction false} LatestHas(sessions: seq<Session>, file: string) returns (k: nat)
    requires file in Latest(sessions)
    ensures 1 <= k <= |sessions| && file in sessions[k - 1].mutants
    ensures forall j :: k <= j < |sessions| ==> file !in sessions[j].mutants
  {
    var n := |sessions| - 1;
    if file in sessions[n].mutants {
      k := n + 1;
    } else {
      k := LatestHas(sessions[..n], file);
    }
  }

  lemma RecordsInSession(log: seq<Line>, i: int, k: nat, file: string)
    requires Records(log, i, k, file)
    ensures 1 <= k <= Manifests(log) == |Sessions(log)| && file in Sessions(log)[k - 1].mutants
  {
    SessionsInOrder(log, i);
    SessionMeans(log, k, file);
  }

  lemma SessionHasRecord(log: seq<Line>, k: nat, file: string) returns (i: int)
    requires 1 <= k <= |Sessions(log)| && file in Sessions(log)[k - 1].mutants
    ensures Records(log, i, k, file)
  {
    SessionCount(log);
    SessionMeans(log, k, file);
    var list := RecsOf(Sessions(log)[k - 1], file);
    assert list[0] in list;
    assert EndsAs(log, k, file, list[0]);
    i :| LastRecord(log, i, k, file);
  }

  lemma LaterSessionsLack(log: seq<Line>, k: nat, file: string)
    requires NewestSession(log, k, file)
    ensures forall j :: k <= j < |Sessions(log)| ==> file !in Sessions(log)[j].mutants
  {
    forall j | k <= j < |Sessions(log)| ensures file !in Sessions(log)[j].mutants {
      if file in Sessions(log)[j].mutants {
        var i := SessionHasRecord(log, j + 1, file);
      }
    }
  }

  lemma NewestIsLatest(log: seq<Line>, k: nat, file: string)
    requires NewestSession(log, k, file)
    ensures 1 <= k <= Manifests(log) == |Sessions(log)|
    ensures file in Latest(Sessions(log))
    ensures var e := Latest(Sessions(log))[file];
            e.expected == ManifestCount(log, k, file) && Faithful(e.mutants, log, k, file)
  {
    var i :| Records(log, i, k, file);
    RecordsInSession(log, i, k, file);
    SessionMeans(log, k, file);
    LaterSessionsLack(log, k, file);
    LatestMeans(Sessions(log), k, file);
  }

  lemma LatestIsNewest(log: seq<Line>, file: string) returns (k: nat)
    requires file in Latest(Sessions(log))
    ensures NewestSession(log, k, file)
  {
    k := LatestHas(Sessions(log), file);
    var i := SessionHasRecord(log, k, file);
    forall i: int, j: nat | Records(log, i, j, file) ensures j <= k {
      RecordsInSession(log, i, j, file);
    }
  }

  /** The session planned some mutant of the file and tested as many distinct ones as it planned. */
  ghost predicate Covered(log: seq<Line>, k: nat, file: string) {
    1 <= k <= Manifests(log) && 0 < ManifestCount(log, k, file) <= |MutantIds(log, k, file)|
  }

  lemma ReportInNewest(log: seq<Line>, k: nat, file: string)
    requires NewestSession(log, k, file)
    ensures file in Report(log) <==> Covered(log, k, file)
    ensures file in Report(log) ==>
              && Report(log)[file].mutantCount == |MutantIds(log, k, file)| == |Report(log)[file].statusCounts|
              && forall status :: Report(log)[file].statusCounts[status] == |IdsEnding(log, k, file, status)|
  {
    NewestIsLatest(log, k, file);
    FaithfulCounts(Latest(Sessions(log))[file].mutants, log, k, file);
  }

  /**
   What is reported, for every log. A file is reported exactly when the newest
   session that tested it planned at least one mutant of it and tested at least
   as many distinct ones; it is reported with the number of distinct mutants, each
   counted under its last status.
   */
  lemma ReportMeans(log: seq<Line>, file: string)
    ensures file in Report(log) <==> exists k: nat :: NewestSession(log, k, file) && Covered(log, k, file)
    ensures file in Report(log) ==>
            forall k: nat :: NewestSession(log, k, file) ==>
              && Report(log)[file].mutantCount == |MutantIds(log, k, file)| == |Report(log)[file].statusCounts|
              && forall status :: Report(log)[file].statusCounts[status] == |IdsEnding(log, k, file, status)|
  {
    forall k: nat | NewestSession(log, k, file)
      ensures file in Report(log) <==> Covered(log, k, file)
      ensures file in Report(log) ==>
                && Report(log)[file].mutantCount == |MutantIds(log, k, file)| == |Report(log)[file].statusCounts|
                && forall status :: Report(log)[file].statusCounts[status] == |IdsEnding(log, k, file, status)|
    {
      ReportInNewest(log, k, file);
    }
    if file in Report(log) {
      var k := LatestIsNewest(log, file);
    }
  }

  // ----- appending to a log

  lemma MapPlusIsAssociative<K, V>(a: map<K, V>, b: map<K, V>, c: map<K, V>)
    ensures a + (b + c) == (a + b) + c
  {
  }

  lemma {:induction false} LatestAppend(a: seq<Session>, b: seq<Session>)
    ensures Latest(a + b) == Latest(a) + Latest(b)
  {
    if b == [] {
      assert a + b == a;
    } else {
      var n := |b| - 1;
      assert (a + b)[..|a + b| - 1] == a + b[..n];
      LatestAppend(a, b[..n]);
      MapPlusIsAssociative(Latest(a), Latest(b[..n]), SessionEntries(b[n]));
    }
  }

  lemma AbsorbAppend(a: seq<Session>, b: seq<Session>, line: Line)
    requires b != [] || line.Manifest?
    ensures Absorb(a + b, line) == a + Absorb(b, line)
  {
  }

  lemma {:induction false} SessionsAppend(earlier: seq<Line>, run: seq<Line>)
    requires run != [] && run[0].Manifest?
    ensures Sessions(run) != []
    ensures Sessions(earlier + run) == Sessions(earlier) + Sessions(run)
  {
    var n := |run| - 1;
    assert (earlier + run)[..|earlier + run| - 1] == earlier + run[..n];
    if n == 0 {
      assert earlier + run[..n] == earlier;
      assert Sessions(earlier) + Sessions(run[..n]) == Sessions(earlier);
    } else {
      SessionsAppend(earlier, run[..n]);
    }
    AbsorbAppend(Sessions(earlier), Sessions(run[..n]), run[n]);
  }

  /** Some session of the log tested the file. */
  ghost predicate Tested(log: seq<Line>, file: string) {
    exists k: nat :: NewestSession(log, k, file)
  }

  /**
   A new run appends sessions of its own to an old log. What is then reported of a
   file comes from the new sessions alone if any of them tested it, and is what the
   old log said otherwise: a verdict never mixes runs, and an old verdict outlives
   every run that does not reach the file.
   */
  lemma NewRunShadowsOld(earlier: seq<Line>, run: seq<Line>, file: string)
    requires run != [] && run[0].Manifest?
    ensures var source := if Tested(run, file) then Report(run) else Report(earlier);
            && (file in Report(earlier + run) <==> file in source)
            && (file in source ==> Report(earlier + run)[file] == source[file])
  {
    SessionsAppend(earlier, run);
    LatestAppend(Sessions(earlier), Sessions(run));
    if file in Latest(Sessions(run)) {
      var k := LatestIsNewest(run, file);
    } else if Tested(run, file) {
      var k: nat :| NewestSession(run, k, file);
      NewestIsLatest(run, k, file);
    }
  }

  predicate NoManifest(lines: seq<Line>) {
    forall i :: 0 <= i < |lines| ==> !lines[i].Manifest?
  }

  lemma {:induction false} AppendKeepsSessions(log: seq<Line>, ext: seq<Line>, k: nat)
    requires NoManifest(ext)
    ensures Manifests(log + ext) == Manifests(log)
    ensures 1 <= k <= Manifests(log) ==> ManifestOf(log + ext, k) == ManifestOf(log, k)
  {
    if ext == [] {
      assert log + ext == log;
    } else {
      var n := |ext| - 1;
      assert (log + ext)[..|log + ext| - 1] == log + ext[..n];
      AppendKeepsSessions(log, ext[..n], k);
    }
  }

  predicate Mentions(line: Line, file: string) {
    line.Mutant? && line.file == file
  }

  /** Lines appended without a manifest belong to the session that was open. */
  lemma AppendedRecords(log: seq<Line>, ext: seq<Line>, i: int, k: nat, file: string)
    requires NoManifest(ext) && 0 <= i < |log + ext|
    ensures Records(log + ext, i, k, file) <==>
            if i < |log| then Records(log, i, k, file)
            else Mentions(ext[i - |log|], file) && k == Manifests(log) > 0
  {
    if i < |log| {
      assert (log + ext)[..i] == log[..i];
    } else {
      assert (log + ext)[..i] == log + ext[..i - |log|];
      AppendKeepsSessions(log, ext[..i - |log|], k);
    }
  }

  ghost function IdsIn(lines: seq<Line>, file: string): set<string> {
    set i | 0 <= i < |lines| && Mentions(lines[i], file) :: lines[i].id
  }

  lemma AppendedIds(log: seq<Line>, ext: seq<Line>, k: nat, file: string)
    requires NoManifest(ext)
    ensures MutantIds(log + ext, k, file) ==
            MutantIds(log, k, file) + (if k == Manifests(log) > 0 then IdsIn(ext, file) else {})
  {
    var all := log + ext;
    forall i | 0 <= i < |all|
      ensures Records(all, i, k, file) <==>
              if i < |log| then Records(log, i, k, file)
              else Mentions(ext[i - |log|], file) && k == Manifests(log) > 0
    {
      AppendedRecords(log, ext, i, k, file);
    }
    forall id | id in MutantIds(log, k, file) ensures id in MutantIds(all, k, file) {
      var i :| 0 <= i < |log| && Records(log, i, k, file) && log[i].id == id;
      assert all[i].id == id && Records(all, i, k, file);
    }
    if k == Manifests(log) > 0 {
      forall id | id in IdsIn(ext, file) ensures id in MutantIds(all, k, file) {
        var i :| 0 <= i < |ext| && Mentions(ext[i], file) && ext[i].id == id;
        assert all[|log| + i].id == id && Records(all, |log| + i, k, file);
      }
    }
  }

  lemma AppendedBound(log: seq<Line>, ext: seq<Line>, k: nat, file: string)
    requires NoManifest(ext) && NewestSession(log, k, file)
    ensures k <= Manifests(log)
    ensures forall i: int, j: nat :: Records(log + ext, i, j, file) ==>
              j <= k || (j == Manifests(log) && |log| <= i && Mentions(ext[i - |log|], file))
  {
    var i0 :| Records(log, i0, k, file);
    SessionsInOrder(log, i0);
    forall i: int, j: nat | Records(log + ext, i, j, file)
      ensures j <= k || (j == Manifests(log) && |log| <= i && Mentions(ext[i - |log|], file))
    {
      AppendedRecords(log, ext, i, j, file);
    }
  }

  predicate MentionedIn(ext: seq<Line>, file: string) {
    exists i :: 0 <= i < |ext| && Mentions(ext[i], file)
  }

  lemma NewestWhenMentioned(log: seq<Line>, ext: seq<Line>, k: nat, file: string)
    requires NoManifest(ext) && NewestSession(log, k, file) && MentionedIn(ext, file)
    ensures NewestSession(log + ext, Manifests(log), file)
  {
    AppendedBound(log, ext, k, file);
    var i :| 0 <= i < |ext| && Mentions(ext[i], file);
    var i0 :| Records(log, i0, k, file);
    AppendedRecords(log, ext, |log| + i, Manifests(log), file);
    assert Records(log + ext, |log| + i, Manifests(log), file);
  }

  lemma NewestWhenNot(log: seq<Line>, ext: seq<Line>, k: nat, file: string)
    requires NoManifest(ext) && NewestSession(log, k, file) && !MentionedIn(ext, file)
    ensures NewestSession(log + ext, k, file)
  {
    var i0 :| Records(log, i0, k, file);
    AppendedRecords(log, ext, i0, k, file);
    forall i: int, j: nat | Records(log + ext, i, j, file) ensures j <= k {
      AppendedRecords(log, ext, i, j, file);
    }
  }

  lemma AppendedNewest(log: seq<Line>, ext: seq<Line>, k: nat, file: string)
    requires NoManifest(ext) && NewestSession(log, k, file)
    ensures NewestSession(log + ext, if MentionedIn(ext, file) then Manifests(log) else k, file)
  {
    if MentionedIn(ext, file) {
      NewestWhenMentioned(log, ext, k, file);
    } else {
      NewestWhenNot(log, ext, k, file);
    }
  }

  lemma AppendedCovered(log: seq<Line>, ext: seq<Line>, k: nat, file: string)
    requires NoManifest(ext) && 1 <= k <= Manifests(log)
    ensures var ids := MutantIds(log, k, file) + (if k == Manifests(log) then IdsIn(ext, file) else {});
            && MutantIds(log + ext, k, file) == ids
            && (Covered(log + ext, k, file) <==> 0 < ManifestCount(log, k, file) <= |ids|)
  {
    AppendKeepsSessions(log, ext, k);
    AppendedIds(log, ext, k, file);
  }

  /**
   Crash-log monotonicity. While the session that last tested a reported file is
   the last one of the log, no further line short of a new manifest, retries and
   garbage included, un-reports the file or lowers its number of mutants.
   */
  lemma AppendingKeepsReported(log: seq<Line>, ext: seq<Line>, file: string)
    requires NoManifest(ext) && file in Report(log) && NewestSession(log, Manifests(log), file)
    ensures file in Report(log + ext)
    ensures Report(log + ext)[file].mutantCount >= Report(log)[file].mutantCount
  {
    var k := Manifests(log);
    ReportInNewest(log, k, file);
    AppendedNewest(log, ext, k, file);
    AppendedCovered(log, ext, k, file);
    SubsetSize(MutantIds(log, k, file), MutantIds(log + ext, k, file));
    ReportInNewest(log + ext, k, file);
  }

  lemma UnmentionedStays(log: seq<Line>, ext: seq<Line>, k: nat, file: string)
    requires NoManifest(ext) && NewestSession(log, k, file) && Covered(log, k, file)
    requires forall i :: 0 <= i < |ext| ==> !Mentions(ext[i], file)
    ensures file in Report(log + ext)
  {
    AppendedNewest(log, ext, k, file);
    assert IdsIn(ext, file) == {};
    AppendedCovered(log, ext, k, file);
    ReportInNewest(log + ext, k, file);
  }

  lemma NoRecordInOpenSession(log: seq<Line>, k: nat, file: string)
    requires NewestSession(log, k, file) && !NewestSession(log, Manifests(log), file)
    ensures MutantIds(log, Manifests(log), file) == {}
  {
    var i0 :| Records(log, i0, k, file);
    SessionsInOrder(log, i0);
  }

  lemma ReopenedStaysIff(log: seq<Line>, ext: seq<Line>, k: nat, file: string)
    requires NoManifest(ext) && NewestSession(log, k, file) && !NewestSession(log, Manifests(log), file)
    requires exists i :: 0 <= i < |ext| && Mentions(ext[i], file)
    ensures 1 <= Manifests(log)
    ensures file in Report(log + ext) <==> 0 < ManifestCount(log, Manifests(log), file) <= |IdsIn(ext, file)|
  {
    var i0 :| Records(log, i0, k, file);
    SessionsInOrder(log, i0);
    AppendedNewest(log, ext, k, file);
    NoRecordInOpenSession(log, k, file);
    AppendedCovered(log, ext, Manifests(log), file);
    assert {} + IdsIn(ext, file) == IdsIn(ext, file);
    ReportInNewest(log + ext, Manifests(log), file);
  }

  /**
   Exactly when lines appended without a manifest keep a reported file reported:
   they do not mention it, or its session is the open one, or they cover on their
   own what the open session planned for it. Otherwise a session that merely
   started on the file again un-completes it.
   */
  lemma StaysReportedIff(log: seq<Line>, ext: seq<Line>, file: string)
    requires NoManifest(ext) && file in Report(log)
    ensures file in Report(log + ext) <==>
            || (forall i :: 0 <= i < |ext| ==> !Mentions(ext[i], file))
            || NewestSession(log, Manifests(log), file)
            || (1 <= Manifests(log) && 0 < ManifestCount(log, Manifests(log), file) <= |IdsIn(ext, file)|)
  {
    ReportMeans(log, file);
    var k: nat :| NewestSession(log, k, file) && Covered(log, k, file);
    if NewestSession(log, Manifests(log), file) {
      AppendingKeepsReported(log, ext, file);
    } else if forall i :: 0 <= i < |ext| ==> !Mentions(ext[i], file) {
      UnmentionedStays(log, ext, k, file);
    } else {
      ReopenedStaysIff(log, ext, k, file);
    }
  }

  /** A session that planned `planned` mutants of the file and tested one. */
  function OneTested(file: string, planned: nat): seq<Line> {
    [Manifest(map[file := planned]), Mutant(file, "m1", "Killed")]
  }

  lemma OneTestedReport(file: string, planned: nat)
    ensures Tested(OneTested(file, planned), file)
    ensures file in Report(OneTested(file, planned)) <==> planned == 1
    ensures planned == 1 ==> Report(OneTested(file, planned))[file] == Info(1, multiset{"Killed"})
  {
    var log := OneTested(file, planned);
    assert log[..1][..0] == [] && log[..1][0] == log[0];
    assert Sessions(log[..1]) == [Session(map[file := planned], map[])];
    var s := Session(map[file := planned], map[file := [Rec("m1", "Killed")]]);
    assert Sessions(log) == [s];
    assert Latest(Sessions(log)[..0]) == map[];
    assert Latest(Sessions(log)) == map[] + SessionEntries(s);
    assert Statuses([Rec("m1", "Killed")]) == ["Killed"];
    assert Manifests(log[..1]) == 1;
    assert Records(log, 1, 1, file);
    assert NewestSession(log, 1, file);
  }

  /** A file one session completed is lost when the next session crashes half way through it. */
  lemma LaterPartialSessionUncompletes(file: string)
    ensures file in Report(OneTested(file, 1))
    ensures file in Report(OneTested(file, 1) + [Manifest(map[file := 2])])
    ensures file !in Report(OneTested(file, 1) + OneTested(file, 2))
  {
    OneTestedReport(file, 1);
    OneTestedReport(file, 2);
    assert !Tested([Manifest(map[file := 2])], file);
    NewRunShadowsOld(OneTested(file, 1), [Manifest(map[file := 2])], file);
    NewRunShadowsOld(OneTested(file, 1), OneTested(file, 2), file);
  }

  /** A crash that cuts the log after any line leaves only files whose newest session in that prefix is covered. */
  lemma TruncationIsSafe(log: seq<Line>, n: nat, file: string)
    requires n <= |log| && file in Report(log[..n])
    ensures exists k: nat :: NewestSession(log[..n], k, file) && Covered(log[..n], k, file)
                             && MutantIds(log[..n], k, file) <= MutantIds(log, k, file)
  {
    ReportMeans(log[..n], file);
    var k: nat :| NewestSession(log[..n], k, file) && Covered(log[..n], k, file);
    forall id | id in MutantIds(log[..n], k, file) ensures id in MutantIds(log, k, file) {
      var i :| 0 <= i < |log[..n]| && Records(log[..n], i, k, file) && log[..n][i].id == id;
      RecordsInPrefix(log, n, i, k, file);
    }
  }
}
