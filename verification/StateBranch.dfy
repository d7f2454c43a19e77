/**
 The files of the `stryker-state` branch and the commits the subcommands of
 run-mutants-shared.ts put on it. A tree is a map from path to blob; an upload
 without content deletes its path; a tree built on a base tree keeps every path
 the uploads do not name.
 */
module StateBranch {
  import opened Wrappers

  datatype Lock = Lock(host: string, pid: nat, startedAt: Option<int>, ttlHours: int)

  datatype Blob = ReadmeText | LockJson(lock: Lock) | CacheBytes(bytes: seq<int>)

  type Tree = map<string, Blob>

  datatype Upload = Upload(path: string, content: Option<Blob>)

  const README_FILE := "README.md"

  function ShardSuffix(shard: string): string {
    if shard == "" then "" else "-" + shard
  }

  function IncrementalFile(shard: string): string {
    "incremental" + ShardSuffix(shard) + ".json"
  }

  function LockFile(shard: string): string {
    "lock" + ShardSuffix(shard) + ".json"
  }

  lemma ShardSuffixInjective(s: string, t: string)
    requires ShardSuffix(s) == ShardSuffix(t)
    ensures s == t
  {
    if s != "" && t != "" {
      assert s == ShardSuffix(s)[1..] == ShardSuffix(t)[1..] == t;
    }
  }

  /** The names themselves, with and without a shard. */
  lemma FileNames(s: string)
    ensures README_FILE == "README.md" && IncrementalFile("") == "incremental.json" && LockFile("") == "lock.json"
    ensures s != "" ==> IncrementalFile(s) == "incremental-" + s + ".json" && LockFile(s) == "lock-" + s + ".json"
  {
    assert "incremental" + "" == "incremental" && "lock" + "" == "lock";
    assert "incremental" + ("-" + s) == "incremental-" + s && "lock" + ("-" + s) == "lock-" + s;
  }

  /** No file of one shard is a file of another, and the three kinds never meet. */
  lemma FileNamesAreDisjoint(s: string, t: string)
    ensures IncrementalFile(s) == IncrementalFile(t) ==> s == t
    ensures LockFile(s) == LockFile(t) ==> s == t
    ensures IncrementalFile(s) != LockFile(t)
    ensures README_FILE != LockFile(s) && README_FILE != IncrementalFile(s)
  {
    if IncrementalFile(s) == IncrementalFile(t) {
      assert IncrementalFile(s)[11..|IncrementalFile(s)| - 5] == ShardSuffix(s);
      assert IncrementalFile(t)[11..|IncrementalFile(t)| - 5] == ShardSuffix(t);
      ShardSuffixInjective(s, t);
    }
    if LockFile(s) == LockFile(t) {
      assert LockFile(s)[4..|LockFile(s)| - 5] == ShardSuffix(s);
      assert LockFile(t)[4..|LockFile(t)| - 5] == ShardSuffix(t);
      ShardSuffixInjective(s, t);
    }
    assert IncrementalFile(s)[0] == 'i' && LockFile(t)[0] == 'l' && LockFile(s)[0] == 'l';
  }

  function Put(tree: Tree, upload: Upload): Tree {
    match upload.content
    case Some(blob) => tree[upload.path := blob]
    case None => tree - {upload.path}
  }

  /** The tree GitHub builds from `base_tree` and a list of entries. */
  function Overlay(tree: Tree, uploads: seq<Upload>): Tree
    decreases |uploads|
  {
    if uploads == [] then tree else Overlay(Put(tree, uploads[0]), uploads[1..])
  }

  lemma OverlayUnfolds(tree: Tree, us: seq<Upload>)
    ensures |us| == 1 ==> Overlay(tree, us) == Put(tree, us[0])
    ensures |us| == 2 ==> Overlay(tree, us) == Put(Put(tree, us[0]), us[1])
    ensures |us| == 3 ==> Overlay(tree, us) == Put(Put(Put(tree, us[0]), us[1]), us[2])
    decreases |us|
  {
    if |us| > 1 {
      OverlayUnfolds(Put(tree, us[0]), us[1..]);
    }
  }

  /** What one accepted commit does: the subcommand it comes from. */
  datatype Op =
    | Ensure
    | Acquire(shard: string, lock: Lock)
    | Push(shard: string, lock: Lock, bytes: seq<int>)
    | Release(shard: string)
    | ForceUnlock(shard: string)
    | Bootstrap(shard: string, bytes: seq<int>)

  function Uploads(op: Op): seq<Upload> {
    var readme := Upload(README_FILE, Some(ReadmeText));
    match op
    case Ensure => [readme]
    case Acquire(s, lock) => [readme, Upload(LockFile(s), Some(LockJson(lock)))]
    case Push(s, lock, bytes) =>
      [readme, Upload(LockFile(s), Some(LockJson(lock))), Upload(IncrementalFile(s), Some(CacheBytes(bytes)))]
    case Release(s) => [Upload(LockFile(s), None)]
    case ForceUnlock(s) => [Upload(LockFile(s), None)]
    case Bootstrap(s, bytes) => [readme, Upload(IncrementalFile(s), Some(CacheBytes(bytes)))]
  }

  function Land(tree: Tree, op: Op): Tree {
    Overlay(tree, Uploads(op))
  }

  /** The tree after the accepted commits `log`, oldest first, on an empty branch. */
  function Replay(log: seq<Op>): Tree {
    if log == [] then map[] else Land(Replay(log[..|log| - 1]), log[|log| - 1])
  }

  lemma ReplaySnoc(log: seq<Op>, op: Op)
    ensures Replay(log + [op]) == Land(Replay(log), op)
  {
    assert (log + [op])[..|log|] == log;
  }

  predicate SavesState(op: Op, shard: string) {
    (op.Push? || op.Bootstrap?) && op.shard == shard
  }

  predicate WritesLock(op: Op, shard: string) {
    (op.Acquire? || op.Push?) && op.shard == shard
  }

  predicate ClearsLock(op: Op, shard: string) {
    (op.Release? || op.ForceUnlock?) && op.shard == shard
  }

  predicate SameAt(before: Tree, after: Tree, path: string) {
    (path in before <==> path in after) && (path in before && path in after ==> before[path] == after[path])
  }

  /**
   What one commit changes, path by path: a release or a force-unlock removes
   its own lock and touches nothing else; only a push or a bootstrap of a shard
   touches that shard's cache; no commit touches another shard's files.
   */
  lemma LandFrame(tree: Tree, op: Op, shard: string, path: string)
    ensures var after := Land(tree, op);
            && (if SavesState(op, shard)
                then IncrementalFile(shard) in after && after[IncrementalFile(shard)] == CacheBytes(op.bytes)
                else SameAt(tree, after, IncrementalFile(shard)))
            && (if WritesLock(op, shard)
                then LockFile(shard) in after && after[LockFile(shard)] == LockJson(op.lock)
                else if ClearsLock(op, shard) then LockFile(shard) !in after
                else SameAt(tree, after, LockFile(shard)))
    ensures (op.Release? || op.ForceUnlock?) && path != LockFile(op.shard) ==> SameAt(tree, Land(tree, op), path)
    ensures !op.Release? && !op.ForceUnlock? ==>
              README_FILE in Land(tree, op) && Land(tree, op)[README_FILE] == ReadmeText
  {
    FileNamesAreDisjoint(shard, shard);
    OverlayUnfolds(tree, Uploads(op));
    if !op.Ensure? {
      FileNamesAreDisjoint(shard, op.shard);
      FileNamesAreDisjoint(op.shard, shard);
      FileNamesAreDisjoint(op.shard, op.shard);
    }
  }

  predicate TouchesLock(op: Op, shard: string) {
    WritesLock(op, shard) || ClearsLock(op, shard)
  }

  /**
   No lost shard state: whatever the other shards commit, and in whatever order,
   a shard's cache is the last one it saved.
   */
  lemma {:induction false} CacheIsLastSaved(log: seq<Op>, shard: string, i: int)
    requires -1 <= i < |log|
    requires i >= 0 ==> (log[i].Push? || log[i].Bootstrap?) && log[i].shard == shard
    requires forall j :: i < j < |log| ==> !((log[j].Push? || log[j].Bootstrap?) && log[j].shard == shard)
    ensures var tree := Replay(log);
            if i < 0 then IncrementalFile(shard) !in tree
            else IncrementalFile(shard) in tree && tree[IncrementalFile(shard)] == CacheBytes(log[i].bytes)
  {
    if log != [] {
      var n := |log| - 1;
      var before := Replay(log[..n]);
      assert Replay(log) == Land(before, log[n]);
      LandFrame(before, log[n], shard, "");
      if i < n {
        CacheIsLastSaved(log[..n], shard, i);
        assert SameAt(before, Replay(log), IncrementalFile(shard));
      }
    }
  }

  /** A shard's lock file is what that shard's last lock-changing commit left. */
  lemma {:induction false} LockIsLastChange(log: seq<Op>, shard: string, i: int)
    requires -1 <= i < |log|
    requires i >= 0 ==> !log[i].Ensure? && !log[i].Bootstrap? && log[i].shard == shard
    requires forall j :: i < j < |log| ==> log[j].Ensure? || log[j].Bootstrap? || log[j].shard != shard
    ensures var tree := Replay(log);
            if 0 <= i && (log[i].Acquire? || log[i].Push?)
            then LockFile(shard) in tree && tree[LockFile(shard)] == LockJson(log[i].lock)
            else LockFile(shard) !in tree
  {
    if log != [] {
      var n := |log| - 1;
      var before := Replay(log[..n]);
      assert Replay(log) == Land(before, log[n]);
      LandFrame(before, log[n], shard, "");
      if i < n {
        LockIsLastChange(log[..n], shard, i);
        assert SameAt(before, Replay(log), LockFile(shard));
      }
    }
  }

  /** The cache and the lock another shard left are the same after this commit. */
  lemma OtherShardsUntouched(tree: Tree, op: Op, shard: string)
    requires op.Ensure? || op.shard != shard
    ensures SameAt(tree, Land(tree, op), IncrementalFile(shard))
    ensures SameAt(tree, Land(tree, op), LockFile(shard))
  {
    LandFrame(tree, op, shard, "");
  }
}
