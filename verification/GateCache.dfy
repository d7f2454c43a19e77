/**
 The content-hash short-circuit of prepush-gates.ts and the fingerprint of
 step-content-hash.ts that it compares.
 */
module GateCache {
  import opened Wrappers
  import opened Collections

  // ----- fingerprints

  /** The tree ids git gives to the paths of one commit; a path without one is missing. */
  type TreeIds = map<string, string>

  predicate IsHex(c: char) {
    '0' <= c <= '9' || 'a' <= c <= 'f'
  }

  /** Git ids: forty hexadecimal digits. */
  ghost predicate GitIds(ids: TreeIds) {
    forall p :: p in ids ==> |ids[p]| == 40 && forall i :: 0 <= i < 40 ==> IsHex(ids[p][i])
  }

  function Piece(path: string, ids: TreeIds): string {
    var id := if path in ids then ids[path] else "missing";
    if |id| > 10 then id[..10] else id
  }

  function Join(pieces: seq<string>): string {
    if pieces == [] then ""
    else if |pieces| == 1 then pieces[0]
    else pieces[0] + "-" + Join(pieces[1..])
  }

  function Pieces(paths: seq<string>, ids: TreeIds): (r: seq<string>)
    ensures |r| == |paths|
  {
    seq(|paths|, i requires 0 <= i < |paths| => Piece(paths[i], ids))
  }

  function HashPaths(paths: seq<string>, ids: TreeIds): string {
    Join(Pieces(paths, ids))
  }

  predicate DashFree(s: string) {
    forall i :: 0 <= i < |s| ==> s[i] != '-'
  }

  /** Two dash-free strings, each at the end or before a dash, that begin one string are the same. */
  lemma SameHead(a: string, b: string, s: string)
    requires DashFree(a) && DashFree(b) && a <= s && b <= s
    requires |a| == |s| || s[|a|] == '-'
    requires |b| == |s| || s[|b|] == '-'
    ensures a == b
  {
  }

  lemma JoinHead(pieces: seq<string>)
    requires pieces != []
    ensures pieces[0] <= Join(pieces)
    ensures if |pieces| == 1 then Join(pieces) == pieces[0]
            else |pieces[0]| < |Join(pieces)| && Join(pieces)[|pieces[0]|] == '-'
                 && Join(pieces)[|pieces[0]| + 1..] == Join(pieces[1..])
  {
  }

  /** The "-" join loses nothing on pieces without a dash. */
  lemma {:induction false} JoinIsInjective(a: seq<string>, b: seq<string>)
    requires a != [] && b != [] && Join(a) == Join(b)
    requires forall i :: 0 <= i < |a| ==> DashFree(a[i])
    requires forall i :: 0 <= i < |b| ==> DashFree(b[i])
    ensures a == b
    decreases |a|
  {
    JoinHead(a);
    JoinHead(b);
    SameHead(a[0], b[0], Join(a));
    if |a| > 1 && |b| > 1 {
      JoinIsInjective(a[1..], b[1..]);
    }
    assert a == [a[0]] + a[1..] && b == [b[0]] + b[1..];
  }

  lemma PieceIsDashFree(path: string, ids: TreeIds)
    requires GitIds(ids)
    ensures DashFree(Piece(path, ids))
    ensures path in ids ==> |Piece(path, ids)| == 10 && Piece(path, ids) == ids[path][..10]
    ensures path !in ids ==> Piece(path, ids) == "missing"
  {
  }

  /** Same content as far as a fingerprint tells: both missing, or the same first ten digits. */
  predicate Alike(p: string, a: TreeIds, q: string, b: TreeIds) {
    && (p in a <==> q in b)
    && (p in a && q in b && |a[p]| >= 10 && |b[q]| >= 10 ==> a[p][..10] == b[q][..10])
  }

  /** Two lists of paths with the same content, position by position. */
  predicate SameContent(ps: seq<string>, a: TreeIds, qs: seq<string>, b: TreeIds) {
    |ps| == |qs| && forall i :: 0 <= i < |ps| ==> Alike(ps[i], a, qs[i], b)
  }

  lemma PiecesAlike(p: string, a: TreeIds, q: string, b: TreeIds)
    requires GitIds(a) && GitIds(b)
    ensures DashFree(Piece(p, a)) && Piece(p, a) != ""
    ensures Piece(p, a) == Piece(q, b) <==> Alike(p, a, q, b)
  {
    PieceIsDashFree(p, a);
    PieceIsDashFree(q, b);
  }

  lemma JoinsAgreeIff(x: seq<string>, y: seq<string>)
    requires forall i :: 0 <= i < |x| ==> DashFree(x[i]) && x[i] != ""
    requires forall i :: 0 <= i < |y| ==> DashFree(y[i]) && y[i] != ""
    ensures Join(x) == Join(y) <==> x == y
  {
    if x != [] {
      JoinHead(x);
    }
    if y != [] {
      JoinHead(y);
    }
    if x != [] && y != [] && Join(x) == Join(y) {
      JoinIsInjective(x, y);
    }
  }

  /** Fingerprints agree exactly when the lists have one length and the same content position by position. */
  lemma FingerprintsAgreeIff(ps: seq<string>, a: TreeIds, qs: seq<string>, b: TreeIds)
    requires GitIds(a) && GitIds(b)
    ensures HashPaths(ps, a) == HashPaths(qs, b) <==> SameContent(ps, a, qs, b)
    ensures HashPaths(ps, a) == HashPaths(qs, b) <==>
            |ps| == |qs| && forall i :: 0 <= i < |ps| ==>
              && (ps[i] in a <==> qs[i] in b)
              && (ps[i] in a && qs[i] in b ==> a[ps[i]][..10] == b[qs[i]][..10])
  {
    var x, y := Pieces(ps, a), Pieces(qs, b);
    forall i | 0 <= i < |ps| ensures DashFree(x[i]) && x[i] != "" {
      PiecesAlike(ps[i], a, ps[i], a);
    }
    forall i | 0 <= i < |qs| ensures DashFree(y[i]) && y[i] != "" {
      PiecesAlike(qs[i], b, qs[i], b);
    }
    JoinsAgreeIff(x, y);
    if |ps| == |qs| {
      forall i | 0 <= i < |ps| ensures x[i] == y[i] <==> Alike(ps[i], a, qs[i], b) {
        PiecesAlike(ps[i], a, qs[i], b);
      }
      assert x == y <==> forall i :: 0 <= i < |ps| ==> x[i] == y[i];
    }
  }

  // ----- one run of the gates

  /** The parallel steps, and the declared inputs of those that have any, as the scripts of one commit list them. */
  datatype Plan = Plan(steps: seq<string>, inputs: map<string, seq<string>>)

  /** What a run meets: the commit's plan and ids, the no-cache switch, the steps that would fail. */
  datatype Run = Run(plan: Plan, ids: TreeIds, noCache: bool, failing: set<string>)

  type Entries = map<string, string>

  /** The hash computed for a step; none for a step without inputs or with the cache off. */
  function StepHash(run: Run, step: string): Option<string> {
    if step !in run.plan.inputs || run.noCache then None else Some(HashPaths(run.plan.inputs[step], run.ids))
  }

  predicate Skips(entries: Entries, run: Run, step: string) {
    var hash := StepHash(run, step);
    hash.Some? && step in entries && entries[step] == hash.value
  }

  function Unskipped(entries: Entries, run: Run, steps: seq<string>): seq<string> {
    Filter(steps, s => !Skips(entries, run, s))
  }

  function ToRun(entries: Entries, run: Run): seq<string> {
    Unskipped(entries, run, run.plan.steps)
  }

  lemma UnskippedSnoc(entries: Entries, run: Run, steps: seq<string>, step: string)
    ensures Unskipped(entries, run, steps + [step]) ==
            Unskipped(entries, run, steps) + (if Skips(entries, run, step) then [] else [step])
  {
    FilterSnoc(steps, step, s => !Skips(entries, run, s));
  }

  predicate Green(entries: Entries, run: Run) {
    forall s :: s in ToRun(entries, run) ==> s !in run.failing
  }

  /** A step's hash is recorded when it ran and everything that ran was green; an empty hash is not. */
  predicate Records(entries: Entries, run: Run, step: string) {
    && Green(entries, run) && step in ToRun(entries, run)
    && StepHash(run, step).Some? && StepHash(run, step).value != ""
  }

  function NextEntries(entries: Entries, run: Run): Entries {
    entries + map s | s in run.plan.steps && Records(entries, run, s) :: StepHash(run, s).value
  }

  predicate Recorded(toRun: seq<string>, hashes: map<string, string>, step: string) {
    step in toRun && step in hashes && hashes[step] != ""
  }

  method RecordHashes(entries: Entries, toRun: seq<string>, hashes: map<string, string>) returns (next: Entries)
    ensures forall s :: s in next <==> s in entries || Recorded(toRun, hashes, s)
    ensures forall s :: s in next ==> next[s] == if Recorded(toRun, hashes, s) then hashes[s] else entries[s]
  {
    next := entries;
    var i := 0;
    while i < |toRun|
      invariant 0 <= i <= |toRun|
      invariant forall s :: s in next <==> s in entries || Recorded(toRun[..i], hashes, s)
      invariant forall s :: s in next ==> next[s] == if Recorded(toRun[..i], hashes, s) then hashes[s] else entries[s]
    {
      assert toRun[..i + 1] == toRun[..i] + [toRun[i]];
      if toRun[i] in hashes && hashes[toRun[i]] != "" {
        next := next[toRun[i] := hashes[toRun[i]]];
      }
      i := i + 1;
    }
    assert toRun[..|toRun|] == toRun;
  }

  lemma RecordedIff(entries: Entries, run: Run, toRun: seq<string>, hashes: map<string, string>, s: string)
    requires toRun == ToRun(entries, run) && Green(entries, run)
    requires s in hashes <==> s in run.plan.steps && StepHash(run, s).Some?
    requires s in hashes ==> hashes[s] == StepHash(run, s).value
    ensures Recorded(toRun, hashes, s) <==> s in run.plan.steps && Records(entries, run, s)
  {
  }

  lemma RecordedIsNext(entries: Entries, run: Run, toRun: seq<string>, hashes: map<string, string>, next: Entries)
    requires toRun == ToRun(entries, run) && Green(entries, run)
    requires forall s :: s in hashes <==> s in run.plan.steps && StepHash(run, s).Some?
    requires forall s :: s in hashes ==> hashes[s] == StepHash(run, s).value
    requires forall s :: s in next <==> s in entries || Recorded(toRun, hashes, s)
    requires forall s :: s in next ==> next[s] == if Recorded(toRun, hashes, s) then hashes[s] else entries[s]
    ensures next == NextEntries(entries, run)
  {
    var spec := NextEntries(entries, run);
    forall s ensures (s in next <==> s in spec) && (s in next ==> next[s] == spec[s]) {
      RecordedIff(entries, run, toRun, hashes, s);
    }
  }

  /** A failed run and a run without the cache leave every entry as it was; no run drops one. */
  lemma UngreenRunsRecordNothing(entries: Entries, run: Run)
    ensures run.noCache || (exists s :: s in ToRun(entries, run) && s in run.failing) ==>
              NextEntries(entries, run) == entries
    ensures entries.Keys <= NextEntries(entries, run).Keys
  {
  }

  class Cache {
    var entries: Entries

    constructor ()
      ensures entries == map[]
    {
      entries := map[];
    }

    /** The split: what to skip, what to run, and the hashes computed on the way. */
    method Split(run: Run) returns (toRun: seq<string>, skipped: seq<string>, hashes: map<string, string>)
      ensures toRun == ToRun(entries, run)
      ensures forall s :: s in skipped <==> s in run.plan.steps && Skips(entries, run, s)
      ensures forall s :: s in hashes <==> s in run.plan.steps && StepHash(run, s).Some?
      ensures forall s :: s in hashes ==> hashes[s] == StepHash(run, s).value
    {
      toRun, skipped, hashes := [], [], map[];
      var i := 0;
      while i < |run.plan.steps|
        invariant 0 <= i <= |run.plan.steps|
        invariant toRun == Unskipped(entries, run, run.plan.steps[..i])
        invariant forall s :: s in skipped <==> s in run.plan.steps[..i] && Skips(entries, run, s)
        invariant forall s :: s in hashes <==> s in run.plan.steps[..i] && StepHash(run, s).Some?
        invariant forall s :: s in hashes ==> hashes[s] == StepHash(run, s).value
      {
        var step := run.plan.steps[i];
        assert run.plan.steps[..i + 1] == run.plan.steps[..i] + [step];
        UnskippedSnoc(entries, run, run.plan.steps[..i], step);
        i := i + 1;
        if step !in run.plan.inputs || run.noCache {
          toRun := toRun + [step];
          continue;
        }
        var inputHash := HashPaths(run.plan.inputs[step], run.ids);
        hashes := hashes[step := inputHash];
        if step in entries && entries[step] == inputHash {
          skipped := skipped + [step];
        } else {
          toRun := toRun + [step];
        }
      }
      assert run.plan.steps[..|run.plan.steps|] == run.plan.steps;
    }

    /** Runs what is not skipped and, if all of it is green, records the hashes. */
    method RunGates(run: Run) returns (ok: bool, toRun: seq<string>, skipped: seq<string>)
      modifies this
      ensures entries == NextEntries(old(entries), run)
      ensures (ok <==> forall s :: s in toRun ==> s !in run.failing) && toRun == ToRun(old(entries), run)
      ensures forall s :: s in skipped <==> s in run.plan.steps && Skips(old(entries), run, s)
    {
      var hashes;
      toRun, skipped, hashes := Split(run);
      ok := forall s :: s in toRun ==> s !in run.failing;
      if !ok {
        UngreenRunsRecordNothing(entries, run);
        return;
      }
      var next := RecordHashes(entries, toRun, hashes);
      RecordedIsNext(entries, run, toRun, hashes, next);
      entries := next;
    }
  }

  // ----- any sequence of runs

  function EntriesAfter(history: seq<Run>): Entries {
    if history == [] then map[]
    else NextEntries(EntriesAfter(history[..|history| - 1]), history[|history| - 1])
  }

  /** In run `m` the step ran with this hash, and everything that ran then was green. */
  ghost predicate GreenRun(history: seq<Run>, m: int, step: string, hash: string) {
    && 0 <= m < |history| && !history[m].noCache
    && step in ToRun(EntriesAfter(history[..m]), history[m])
    && Green(EntriesAfter(history[..m]), history[m])
    && StepHash(history[m], step) == Some(hash)
  }

  lemma GreenRunStays(history: seq<Run>, m: int, step: string, hash: string)
    requires history != [] && GreenRun(history[..|history| - 1], m, step, hash)
    ensures GreenRun(history, m, step, hash)
  {
    assert history[..|history| - 1][..m] == history[..m];
  }

  lemma {:induction false} EntriesAreEarned(history: seq<Run>, step: string)
    requires step in EntriesAfter(history)
    ensures exists m :: GreenRun(history, m, step, EntriesAfter(history)[step])
  {
    var n := |history| - 1;
    var init := history[..n];
    if Records(EntriesAfter(init), history[n], step) {
      assert GreenRun(history, n, step, EntriesAfter(history)[step]);
    } else {
      EntriesAreEarned(init, step);
      var m :| GreenRun(init, m, step, EntriesAfter(init)[step]);
      GreenRunStays(history, m, step, EntriesAfter(init)[step]);
      assert EntriesAfter(history)[step] == EntriesAfter(init)[step];
    }
  }

  /**
   Whatever the earlier runs were, and however the declared inputs were edited
   between them: if a step is skipped now, then in some earlier run it was executed
   and green, as were all steps that ran beside it, and the inputs it declared then
   had, position by position, the content of those it declares now, as far as the
   first ten digits of an id tell. A skip is justified, then, for inputs that are
   declared as they were: each of them is what it was.
   */
  lemma SkipsAreJustified(history: seq<Run>, run: Run, step: string)
    requires Skips(EntriesAfter(history), run, step)
    requires GitIds(run.ids) && forall m :: 0 <= m < |history| ==> GitIds(history[m].ids)
    ensures exists m :: GreenRun(history, m, step, HashPaths(run.plan.inputs[step], run.ids))
              && step in ToRun(EntriesAfter(history[..m]), history[m])
              && !history[m].noCache && step !in history[m].failing
              && (forall s :: s in ToRun(EntriesAfter(history[..m]), history[m]) ==> s !in history[m].failing)
              && SameContent(history[m].plan.inputs[step], history[m].ids, run.plan.inputs[step], run.ids)
  {
    EntriesAreEarned(history, step);
    var m :| GreenRun(history, m, step, EntriesAfter(history)[step]);
    FingerprintsAgreeIff(history[m].plan.inputs[step], history[m].ids, run.plan.inputs[step], run.ids);
  }

  /** What makes a run skip a step: the cache is on, the step has inputs, and their hash is the entry. */
  lemma SkipsIff(entries: Entries, run: Run, step: string)
    ensures step in run.plan.steps ==>
              (step in ToRun(entries, run) <==>
                 !(!run.noCache && step in run.plan.inputs && step in entries
                   && entries[step] == HashPaths(run.plan.inputs[step], run.ids)))
    ensures step !in run.plan.steps ==> step !in ToRun(entries, run)
  {
  }

  lemma HashIsNotEmpty(paths: seq<string>, ids: TreeIds)
    requires paths != [] && GitIds(ids)
    ensures HashPaths(paths, ids) != ""
  {
    PiecesAlike(paths[0], ids, paths[0], ids);
    JoinHead(Pieces(paths, ids));
  }

  /**
   Across an edit of the declared inputs a skip is exactly as good as the positions.
   After any history and a cached run in which everything that ran was green, a later
   run with the cache on skips a step if and only if the inputs it declares have, one
   by one, the content of those declared then, under whatever names.
   */
  lemma EditedSkipIff(history: seq<Run>, earlier: Run, run: Run, step: string)
    requires step in earlier.plan.steps && step in earlier.plan.inputs && earlier.plan.inputs[step] != []
    requires !earlier.noCache && forall s :: s in ToRun(EntriesAfter(history), earlier) ==> s !in earlier.failing
    requires step in run.plan.steps && step in run.plan.inputs && !run.noCache && GitIds(earlier.ids) && GitIds(run.ids)
    ensures step !in ToRun(EntriesAfter(history + [earlier]), run) <==>
            SameContent(earlier.plan.inputs[step], earlier.ids, run.plan.inputs[step], run.ids)
  {
    var before := EntriesAfter(history);
    assert (history + [earlier])[..|history|] == history;
    SkipsIff(before, earlier, step);
    SkipsIff(EntriesAfter(history + [earlier]), run, step);
    HashIsNotEmpty(earlier.plan.inputs[step], earlier.ids);
    FingerprintsAgreeIff(earlier.plan.inputs[step], earlier.ids, run.plan.inputs[step], run.ids);
  }
}
