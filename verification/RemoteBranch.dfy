/**
 `commitFiles`, `acquireLock` and `cmdRun` as the imperative code they are, on a
 remote that other callers change while they run. What the others get accepted and
 how the service treats the caller's own requests are parameters of each attempt.
 */
module RemoteBranch {
  import opened Wrappers
  import opened StateBranch
  import opened CommitProtocol
  import LP = LockProtocol

  /** How the service treats the requests of one attempt. */
  datatype Service =
    | Works
    | Breaks      // a request fails with an error other than the conflict, before the ref moves
    | LosesReply  // the ref request takes effect, its reply is lost

  /** How a call of `commitFiles` ends: it returns, or throws the conflict or another error. */
  datatype Ending = Done | Conflict | Threw

  /**
   One attempt: what rivals commit before the head is read, and between the read and
   the update. A blind read has taken a failed lookup of the ref for a missing branch.
   */
  datatype Round = Round(beforeRead: seq<Op>, beforeUpdate: seq<Op>, blind: bool, service: Service) {
    function Ops(): seq<Op> {
      beforeRead + beforeUpdate
    }

    /** The caller's commit reaches the branch; `created` says whether there was one when the attempt began. */
    predicate Accepts(created: bool) {
      !service.Breaks? && beforeUpdate == [] && (blind ==> !created && beforeRead == [])
    }

    function Ends(created: bool): Ending {
      if !service.Works? then Threw else if Accepts(created) then Done else Conflict
    }
  }

  // ----- what a call leaves

  function AllOps(rounds: seq<Round>): seq<Op> {
    if rounds == [] then [] else rounds[0].Ops() + AllOps(rounds[1..])
  }

  /** The call goes on to its next attempt after a conflict only. */
  function EndOf(created: bool, rounds: seq<Round>): Ending
    decreases |rounds|
  {
    if rounds == [] then Conflict
    else if rounds[0].Ends(created).Conflict? then EndOf(created || rounds[0].Ops() != [], rounds[1..])
    else rounds[0].Ends(created)
  }

  /** What rivals commit while the call runs. */
  function Met(created: bool, rounds: seq<Round>): seq<Op>
    decreases |rounds|
  {
    if rounds == [] then []
    else if rounds[0].Ends(created).Conflict?
    then rounds[0].Ops() + Met(created || rounds[0].Ops() != [], rounds[1..])
    else rounds[0].Ops()
  }

  /** Whether the call's own commit reaches the branch. */
  predicate Lands(created: bool, rounds: seq<Round>)
    decreases |rounds|
  {
    rounds != [] &&
    if rounds[0].Ends(created).Conflict? then Lands(created || rounds[0].Ops() != [], rounds[1..])
    else rounds[0].Accepts(created)
  }

  function Landed(created: bool, rounds: seq<Round>, op: Op): seq<Op> {
    Met(created, rounds) + (if Lands(created, rounds) then [op] else [])
  }

  /**
   A normal return means that the commit is on the branch, a conflict that it is not and
   that every attempt was made.
   */
  lemma {:induction false} CallEnds(created: bool, rounds: seq<Round>)
    ensures EndOf(created, rounds).Done? ==> Lands(created, rounds)
    ensures EndOf(created, rounds).Conflict? ==> !Lands(created, rounds) && Met(created, rounds) == AllOps(rounds)
    ensures Met(created, rounds) <= AllOps(rounds)
    decreases |rounds|
  {
    if rounds != [] {
      CallEnds(created || rounds[0].Ops() != [], rounds[1..]);
    }
  }

  /**
   A call gives up exactly when each of its attempts is spoiled and no other error
   occurs: by a rival before its update, or by a failed read once there is a branch.
   */
  lemma {:induction false} GivesUpIff(created: bool, rounds: seq<Round>)
    ensures EndOf(created, rounds).Conflict? <==>
            forall i :: 0 <= i < |rounds| ==>
              && rounds[i].service.Works?
              && (rounds[i].beforeUpdate != []
                  || (rounds[i].blind && (created || AllOps(rounds[..i]) + rounds[i].beforeRead != [])))
    decreases |rounds|
  {
    if rounds != [] {
      var created' := created || rounds[0].Ops() != [];
      GivesUpIff(created', rounds[1..]);
      forall i | 0 < i < |rounds|
        ensures created' || AllOps(rounds[1..][..i - 1]) + rounds[i].beforeRead != [] <==>
                created || AllOps(rounds[..i]) + rounds[i].beforeRead != []
      {
        assert rounds[..i][1..] == rounds[1..][..i - 1];
      }
      assert forall i :: 0 < i < |rounds| ==> rounds[i] == rounds[1..][i - 1];
    }
  }

  /**
   On an existing branch the first attempt with a working service, a successful read
   and no rival before its update ends the call, if only conflicts came before it.
   */
  lemma {:induction false} FirstGoodAttempt(rounds: seq<Round>, k: nat)
    requires k < |rounds| && rounds[k].service.Works? && !rounds[k].blind && rounds[k].beforeUpdate == []
    requires forall j :: 0 <= j < k ==> rounds[j].service.Works? && (rounds[j].beforeUpdate != [] || rounds[j].blind)
    ensures EndOf(true, rounds).Done? && Lands(true, rounds) && Met(true, rounds) == AllOps(rounds[..k + 1])
    decreases k
  {
    assert rounds[..k + 1][1..] == rounds[1..][..k];
    if k > 0 {
      FirstGoodAttempt(rounds[1..], k - 1);
    } else {
      assert rounds[0].Ops() + [] == rounds[0].Ops();
    }
  }

  /** What five attempts on an existing branch come to. */
  lemma FiveAttempts(rounds: seq<Round>, op: Op)
    requires |rounds| == 5
    ensures EndOf(true, rounds).Conflict? <==>
            forall j :: 0 <= j < 5 ==> rounds[j].service.Works? && (rounds[j].beforeUpdate != [] || rounds[j].blind)
    ensures forall k :: 0 <= k < 5 && rounds[k].service.Works? && !rounds[k].blind && rounds[k].beforeUpdate == []
              && (forall j :: 0 <= j < k ==>
                    rounds[j].service.Works? && (rounds[j].beforeUpdate != [] || rounds[j].blind))
              ==> EndOf(true, rounds).Done? && Landed(true, rounds, op) == AllOps(rounds[..k + 1]) + [op]
  {
    GivesUpIff(true, rounds);
    forall k | 0 <= k < 5 && rounds[k].service.Works? && !rounds[k].blind && rounds[k].beforeUpdate == []
      && (forall j :: 0 <= j < k ==> rounds[j].service.Works? && (rounds[j].beforeUpdate != [] || rounds[j].blind))
      ensures EndOf(true, rounds).Done? && Landed(true, rounds, op) == AllOps(rounds[..k + 1]) + [op]
    {
      FirstGoodAttempt(rounds, k);
    }
  }

  /** The retry loop on the log of the branch. */
  function CommitOf(log: seq<Op>, op: Op, rounds: seq<Round>): (Ending, seq<Op>)
    decreases |rounds|
  {
    if rounds == [] then (Conflict, log)
    else
      var next := log + rounds[0].Ops() + (if rounds[0].Accepts(log != []) then [op] else []);
      var ending := rounds[0].Ends(log != []);
      if ending.Conflict? then CommitOf(next, op, rounds[1..]) else (ending, next)
  }

  lemma Regroup(a: seq<Op>, b: seq<Op>, c: seq<Op>)
    ensures a + b + c == a + (b + c)
  {
  }

  lemma {:induction false} CommitMeans(log: seq<Op>, op: Op, rounds: seq<Round>)
    ensures CommitOf(log, op, rounds) == (EndOf(log != [], rounds), log + Landed(log != [], rounds, op))
    decreases |rounds|
  {
    if rounds == [] {
      assert log + Landed(log != [], rounds, op) == log;
    } else if rounds[0].Ends(log != []).Conflict? {
      var ops := rounds[0].Ops();
      assert log + ops + [] == log + ops;
      CommitMeans(log + ops, op, rounds[1..]);
      var created, tail := log + ops != [], if Lands(log + ops != [], rounds[1..]) then [op] else [];
      Regroup(ops, Met(created, rounds[1..]), tail);
      Regroup(log, ops, Landed(created, rounds[1..], op));
    } else {
      Regroup(log, rounds[0].Ops(), if rounds[0].Accepts(log != []) then [op] else []);
    }
  }

  lemma OneAttempt(log: seq<Op>, op: Op, rounds: seq<Round>, k: nat)
    requires k < |rounds|
    ensures CommitOf(log, op, rounds[k..]) ==
            var next := log + rounds[k].Ops() + (if rounds[k].Accepts(log != []) then [op] else []);
            var ending := rounds[k].Ends(log != []);
            if ending.Conflict? then CommitOf(next, op, rounds[k + 1..]) else (ending, next)
  {
    assert rounds[k..][0] == rounds[k] && rounds[k..][1..] == rounds[k + 1..];
  }

  // ----- what a run leaves

  /** What Stryker left: its exit code, and the cache to save if its report is fresh and pushing is asked for. */
  datatype Work = Work(code: int, saved: Option<seq<int>>)

  /**
   One invocation of the `run` subcommand. `readable` says whether the lock file
   could be looked up; there is no work when pulling the cache failed. The rounds are
   those of the branch's creation and of the three commits.
   */
  datatype Run = Run(shard: string, me: Lock, force: bool, now: int, readable: bool, work: Option<Work>,
                     ensuring: Round, acquiring: seq<Round>, pushing: seq<Round>, releasing: seq<Round>)

  /** The lookup found the branch. */
  predicate Found(log: seq<Op>, round: Round) {
    !round.blind && log + round.beforeRead != []
  }

  predicate Ensured(log: seq<Op>, round: Round) {
    if Found(log, round) then !round.service.Breaks?
    else round.service.Works? && log + round.Ops() == []
  }

  function EnsureAdds(log: seq<Op>, round: Round): seq<Op> {
    if Found(log, round) then round.beforeRead
    else round.Ops() + (if !round.service.Breaks? && log + round.Ops() == [] then [Ensure] else [])
  }

  /** What `ensureBranch` comes to. */
  lemma EnsureMeans(log: seq<Op>, round: Round)
    ensures var ok, next := Ensured(log, round), log + EnsureAdds(log, round);
            && (ok ==> next != [])
            && (!round.blind && log + round.beforeRead != [] ==>
                  next == log + round.beforeRead && (ok <==> !round.service.Breaks?))
            && (log + round.Ops() == [] ==>
                  next == (if round.service.Breaks? then [] else [Ensure]) && (ok <==> round.service.Works?))
            && ((round.blind || log + round.beforeRead == []) && log + round.Ops() != [] ==>
                  !ok && next == log + round.Ops())
  {
  }

  predicate MayAcquire(log: seq<Op>, run: Run) {
    run.readable && (run.force || LP.Free(LP.LockAt(Replay(log), run.shard), run.now))
  }

  function AcquireAdds(log: seq<Op>, run: Run): seq<Op> {
    if MayAcquire(log, run) then Landed(true, run.acquiring, Acquire(run.shard, run.me)) else []
  }

  /** The run gets the lock and knows it. */
  predicate Acquires(log: seq<Op>, run: Run) {
    MayAcquire(log, run) && EndOf(true, run.acquiring).Done?
  }

  predicate Held(log: seq<Op>, run: Run) {
    Ensured(log, run.ensuring) && Acquires(log + EnsureAdds(log, run.ensuring), run)
  }

  predicate Saves(run: Run) {
    run.work.Some? && run.work.value.saved.Some?
  }

  predicate Pushed(run: Run) {
    Saves(run) ==> EndOf(true, run.pushing).Done?
  }

  function PushAdds(run: Run): seq<Op> {
    if Saves(run) then Landed(true, run.pushing, Push(run.shard, run.me, run.work.value.saved.value)) else []
  }

  /** What a run that got the lock adds from then on. */
  function HeldAdds(run: Run): seq<Op> {
    PushAdds(run) + Landed(true, run.releasing, Release(run.shard))
  }

  /** What a run adds once the branch exists. */
  function LockedAdds(log: seq<Op>, run: Run): seq<Op> {
    AcquireAdds(log, run) + (if Acquires(log, run) then HeldAdds(run) else [])
  }

  /** Everything that reaches the branch while the run lasts. */
  function RunAdds(log: seq<Op>, run: Run): seq<Op> {
    var ensured := EnsureAdds(log, run.ensuring);
    if Ensured(log, run.ensuring) then ensured + LockedAdds(log + ensured, run) else ensured
  }

  // ----- the code

  lemma QuietLands(rounds: seq<Round>, op: Op)
    requires rounds != [] && rounds[0] == Round([], [], false, Works)
    ensures EndOf(true, rounds).Done? && Landed(true, rounds, op) == [op]
  {
    assert [] + [op] == [op];
  }

  lemma UndisturbedEnsure(log: seq<Op>, round: Round)
    requires round == Round([], [], false, Works)
    ensures Ensured(log, round) && EnsureAdds(log, round) == if log == [] then [Ensure] else []
  {
    assert log + [] == log;
  }

  /** A live lock refuses the caller unless it is forced; no other lock does. */
  lemma MayAcquireIff(log: seq<Op>, run: Run)
    ensures var tree, path := Replay(log), LockFile(run.shard);
            var live := path in tree && tree[path].LockJson? && tree[path].lock.startedAt.Some?
                        && run.now - tree[path].lock.startedAt.value <= tree[path].lock.ttlHours * 3600000;
            MayAcquire(log, run) <==> run.readable && (!live || run.force)
  {
  }

  lemma UndisturbedPush(run: Run)
    requires run.pushing != [] && run.pushing[0] == Round([], [], false, Works)
    ensures Pushed(run)
    ensures PushAdds(run) ==
            if run.work.Some? && run.work.value.saved.Some?
            then [Push(run.shard, run.me, run.work.value.saved.value)] else []
  {
    if Saves(run) {
      QuietLands(run.pushing, Push(run.shard, run.me, run.work.value.saved.value));
    }
  }

  lemma UndisturbedLocked(log: seq<Op>, run: Run)
    requires run.acquiring != [] && run.pushing != [] && run.releasing != []
    requires run.acquiring[0] == run.pushing[0] == run.releasing[0] == Round([], [], false, Works)
    ensures Acquires(log, run) <==> MayAcquire(log, run)
    ensures Pushed(run)
    ensures LockedAdds(log, run) ==
            if !MayAcquire(log, run) then []
            else
              [Acquire(run.shard, run.me)]
              + (if run.work.Some? && run.work.value.saved.Some?
                 then [Push(run.shard, run.me, run.work.value.saved.value)] else [])
              + [Release(run.shard)]
  {
    QuietLands(run.acquiring, Acquire(run.shard, run.me));
    QuietLands(run.releasing, Release(run.shard));
    UndisturbedPush(run);
    Regroup([Acquire(run.shard, run.me)], PushAdds(run), [Release(run.shard)]);
  }

  /** A run whose lookup of an existing branch fails ends before it touches the lock. */
  lemma BlindStart(log: seq<Op>, run: Run)
    requires run.ensuring.blind && log != []
    ensures !Held(log, run) && RunAdds(log, run) == run.ensuring.beforeRead + run.ensuring.beforeUpdate
  {
    assert run.ensuring.Ops() + [] == run.ensuring.Ops();
  }

  /** A run that has a cache to push and meets five spoiled attempts has not pushed it. */
  lemma SpoiledPush(run: Run)
    requires run.work.Some? && run.work.value.saved.Some?
    requires forall j :: 0 <= j < |run.pushing| ==>
               run.pushing[j].service.Works? && (run.pushing[j].beforeUpdate != [] || run.pushing[j].blind)
    ensures !Pushed(run) && PushAdds(run) == AllOps(run.pushing)
  {
    GivesUpIff(true, run.pushing);
    CallEnds(true, run.pushing);
  }

  /**
   A run beside which nothing happens: a readable lock that is absent, stale or
   overridden is taken, the cache is pushed if there is one, and the lock is released
   whatever the work came to; a live lock of somebody else ends the run at once.
   */
  lemma UndisturbedRun(log: seq<Op>, run: Run)
    requires run.acquiring != [] && run.pushing != [] && run.releasing != []
    requires run.ensuring == run.acquiring[0] == run.pushing[0] == run.releasing[0] == Round([], [], false, Works)
    ensures var ensured := log + if log == [] then [Ensure] else [];
            var tree, path := Replay(ensured), LockFile(run.shard);
            var live := path in tree && tree[path].LockJson? && tree[path].lock.startedAt.Some?
                        && run.now - tree[path].lock.startedAt.value <= tree[path].lock.ttlHours * 3600000;
            if !run.readable || (live && !run.force) then !Held(log, run) && log + RunAdds(log, run) == ensured
            else
              && Held(log, run) && Pushed(run)
              && log + RunAdds(log, run) == ensured + ([Acquire(run.shard, run.me)]
                 + (if run.work.Some? && run.work.value.saved.Some?
                    then [Push(run.shard, run.me, run.work.value.saved.value)] else [])
                 + [Release(run.shard)])
  {
    UndisturbedEnsure(log, run.ensuring);
    var ensured := EnsureAdds(log, run.ensuring);
    MayAcquireIff(log + ensured, run);
    UndisturbedLocked(log + ensured, run);
    Regroup(log, ensured, LockedAdds(log + ensured, run));
    assert log + ensured + [] == log + ensured;
  }

  lemma LastAcquires(log: seq<Op>, shard: string, me: Lock)
    ensures var tree := Replay(log + [Acquire(shard, me)]);
            LockFile(shard) in tree && tree[LockFile(shard)] == LockJson(me)
  {
    ReplaySnoc(log, Acquire(shard, me));
    LandFrame(Replay(log), Acquire(shard, me), shard, "");
  }

  ghost predicate IsLog(commits: seq<Commit>, ref: Option<Sha>, log: seq<Op>)
    requires GraphOk(commits, ref)
  {
    && |log| == |History(commits, ref)|
    && forall i :: 0 <= i < |log| ==>
      History(commits, ref)[i] < |commits| && log[i] == commits[History(commits, ref)[i]].op
  }

  class Remote {
    var commits: seq<Commit>
    var ref: Option<Sha>

    /** The commits on the branch, oldest first. */
    ghost var log: seq<Op>

    ghost predicate Valid()
      reads this
    {
      GraphOk(commits, ref) && IsLog(commits, ref, log)
    }

    /** The commits from the root to the tip. */
    ghost function Branch(): seq<Sha>
      requires Valid()
      reads this
    {
      History(commits, ref)
    }

    /** The files on the branch are the log replayed. */
    lemma FilesAreReplay()
      requires Valid()
      ensures BaseTree(commits, ref) == Replay(log)
    {
      HistoryBounds(commits, ref);
      TreeIsReplay(commits, ref, ref);
      assert OpsOf(commits, History(commits, ref)) == log;
    }

    constructor ()
      ensures Valid() && log == [] && ref == None
    {
      commits, ref, log := [], None, [];
    }

    /** Posts a tree layered on `head` and a commit with that head as its parent. */
    method CreateCommit(op: Op, head: Option<Sha>) returns (proposal: Sha)
      requires Valid() && InGraph(commits, head)
      modifies this`commits
      ensures Valid() && Branch() == old(Branch()) && proposal !in Branch()
      ensures proposal == |old(commits)| && commits == old(commits) + [NewCommit(old(commits), head, op, None)]
    {
      var extra := NewCommit(commits, head, op, None);
      CommitKeepsGraph(commits, ref, head, op, None);
      HistoryIsStable(commits, extra, ref);
      HistoryBounds(commits, ref);
      proposal := |commits|;
      commits := commits + [extra];
    }

    method IsAncestor(from: Sha, to: Sha) returns (found: bool)
      requires Valid() && to < |commits|
      ensures found <==> FastForward(commits, from, to)
    {
      var at: Option<Sha> := Some(to);
      while at.Some? && at.value != from
        invariant InGraph(commits, at)
        invariant FastForward(commits, from, to) <==> from in History(commits, at)
        decreases if at.Some? then at.value + 1 else 0
      {
        at := commits[at.value].parent;
      }
      found := at.Some?;
    }

    /** Moves or creates the ref; the remote compares ancestors, not the head the caller read. */
    method CreateOrUpdateRef(proposal: Sha, head: Option<Sha>) returns (accepted: bool)
      requires Valid() && proposal < |commits| && commits[proposal].parent == head
      requires head.Some? ==> head.value in Branch()
      requires proposal !in Branch()
      modifies this`ref, this`log
      ensures Valid()
      ensures accepted <==> old(ref) == head
      ensures ref == if accepted then Some(proposal) else old(ref)
      ensures log == if accepted then old(log) + [commits[proposal].op] else old(log)
      ensures Branch() == if accepted then old(Branch()) + [proposal] else old(Branch())
    {
      FastForwardIsEquality(commits, ref, head, proposal);
      if head.None? {
        accepted := ref.None?;
      } else if ref.None? {
        accepted := false;
      } else {
        accepted := IsAncestor(ref.value, proposal);
      }
      if accepted {
        assert History(commits, Some(proposal)) == History(commits, ref) + [proposal];
        ref := Some(proposal);
        log := log + [commits[proposal].op];
      }
    }

    /** Builds a commit on a head that was read and offers it to the remote. */
    method Propose(op: Op, head: Option<Sha>, service: Service) returns (ending: Ending)
      requires Valid() && InGraph(commits, head) && (head.Some? ==> head.value in Branch())
      modifies this
      ensures Valid() && old(commits) <= commits && old(Branch()) <= Branch()
      ensures ending == if !service.Works? then Threw else if old(ref) == head then Done else Conflict
      ensures log == if !service.Breaks? && old(ref) == head then old(log) + [op] else old(log)
      ensures ref == if !service.Breaks? && old(ref) == head then Some(|old(commits)|) else old(ref)
    {
      if service.Breaks? {
        return Threw;
      }
      var proposal := CreateCommit(op, head);
      var accepted := CreateOrUpdateRef(proposal, head);
      ending := if service.LosesReply? then Threw else if accepted then Done else Conflict;
    }

    lemma TipIsOnBranch()
      requires Valid()
      ensures ref.Some? ==> ref.value in Branch() && ref.value < |commits|
      ensures ref.None? <==> log == []
    {
      if ref.Some? {
        assert Branch()[|Branch()| - 1] == ref.value;
      }
    }

    /** A commit that nobody races. */
    method LandOne(op: Op)
      requires Valid()
      modifies this
      ensures Valid() && log == old(log) + [op]
      ensures old(commits) <= commits && old(Branch()) <= Branch()
      ensures ref == Some(|old(commits)|) && ref.value < |commits|
    {
      TipIsOnBranch();
      var ending := Propose(op, ref, Works);
    }

    /** Commits of rivals, one after the other. */
    method LandAll(ops: seq<Op>)
      requires Valid()
      modifies this
      ensures Valid() && log == old(log) + ops
      ensures old(commits) <= commits && old(Branch()) <= Branch()
      ensures if ops == [] then ref == old(ref) else ref.Some? && |old(commits)| <= ref.value
    {
      ghost var branch := Branch();
      var i := 0;
      while i < |ops|
        invariant 0 <= i <= |ops|
        invariant Valid() && log == old(log) + ops[..i]
        invariant old(commits) <= commits && branch <= Branch()
        invariant if i == 0 then ref == old(ref) else ref.Some? && |old(commits)| <= ref.value
      {
        LandOne(ops[i]);
        i := i + 1;
      }
      assert ops[..|ops|] == ops;
    }

    /** The head as the attempt reads it, and what rivals do before its update. */
    method ReadHead(round: Round) returns (head: Option<Sha>)
      requires Valid()
      modifies this
      ensures Valid() && log == old(log) + round.Ops()
      ensures InGraph(commits, head) && (head.Some? ==> head.value in Branch())
      ensures ref == head <==> round.beforeUpdate == [] && (round.blind ==> old(log) == [] && round.beforeRead == [])
    {
      LandAll(round.beforeRead);
      TipIsOnBranch();
      head := if round.blind then None else ref;
      LandAll(round.beforeUpdate);
      TipIsOnBranch();
    }

    /** One round of the retry loop: read, build, update. */
    method Attempt(op: Op, round: Round) returns (ending: Ending)
      requires Valid()
      modifies this
      ensures Valid()
      ensures ending == round.Ends(old(log) != [])
      ensures log == old(log) + round.Ops() + (if round.Accepts(old(log) != []) then [op] else [])
    {
      var head := ReadHead(round);
      ending := Propose(op, head, round.service);
    }

    /** The loop of `commitFiles`: it goes on after a conflict only, and five times at most. */
    method Retry(op: Op, rounds: seq<Round>) returns (ending: Ending)
      requires Valid() && |rounds| == 5
      modifies this
      ensures Valid() && (ending, log) == CommitOf(old(log), op, rounds)
    {
      var attempt := 1;
      ending := Conflict;
      while attempt <= COMMIT_MAX_ATTEMPTS
        invariant 1 <= attempt <= COMMIT_MAX_ATTEMPTS + 1
        invariant Valid() && ending.Conflict?
        invariant CommitOf(log, op, rounds[attempt - 1..]) == CommitOf(old(log), op, rounds)
      {
        OneAttempt(log, op, rounds, attempt - 1);
        ending := Attempt(op, rounds[attempt - 1]);
        if !ending.Conflict? {
          return;
        }
        attempt := attempt + 1;
      }
    }

    /**
     Retries after conflicts only, at most five times. The branch then holds what
     rivals committed while the call ran, followed by the call's commit, once, if
     it landed: it did when the call returns, it did not when the conflict is thrown.
     */
    method CommitFiles(op: Op, rounds: seq<Round>) returns (ending: Ending)
      requires Valid() && |rounds| == 5
      modifies this
      ensures Valid()
      ensures ending == EndOf(old(log) != [], rounds)
      ensures log == old(log) + Landed(old(log) != [], rounds, op)
      ensures ending.Done? ==> Lands(old(log) != [], rounds)
      ensures ending.Conflict? ==> log == old(log) + AllOps(rounds)
      ensures old(log) != [] ==>
              (ending.Conflict? <==>
                 forall j :: 0 <= j < 5 ==>
                   rounds[j].service.Works? && (rounds[j].beforeUpdate != [] || rounds[j].blind))
      ensures forall k :: 0 <= k < 5 && old(log) != []
                && rounds[k].service.Works? && !rounds[k].blind && rounds[k].beforeUpdate == []
                && (forall j :: 0 <= j < k ==>
                      rounds[j].service.Works? && (rounds[j].beforeUpdate != [] || rounds[j].blind))
                ==> ending.Done? && log == old(log) + (AllOps(rounds[..k + 1]) + [op])
    {
      CommitMeans(log, op, rounds);
      CallEnds(log != [], rounds);
      FiveAttempts(rounds, op);
      ending := Retry(op, rounds);
    }

    /** The lookup found no branch: rivals act, then the first commit is offered to the remote. */
    method CreateBranch(round: Round) returns (ok: bool)
      requires Valid()
      modifies this
      ensures Valid()
      ensures var all := old(log) + round.beforeUpdate;
              && (ok <==> all == [] && round.service.Works?)
              && log == all + if all == [] && !round.service.Breaks? then [Ensure] else []
    {
      LandAll(round.beforeUpdate);
      TipIsOnBranch();
      var ending := Propose(Ensure, None, round.service);
      ok := ending.Done?;
    }

    /** Creates the branch if the lookup finds none, without a retry. */
    method EnsureBranch(round: Round) returns (ok: bool)
      requires Valid()
      modifies this
      ensures Valid() && ok == Ensured(old(log), round) && log == old(log) + EnsureAdds(old(log), round)
      ensures ok ==> log != []
      ensures !round.blind && old(log) + round.beforeRead != [] ==>
                log == old(log) + round.beforeRead && (ok <==> !round.service.Breaks?)
      ensures old(log) + round.Ops() == [] ==>
                log == (if round.service.Breaks? then [] else [Ensure]) && (ok <==> round.service.Works?)
      ensures (round.blind || old(log) + round.beforeRead == []) && old(log) + round.Ops() != [] ==>
                !ok && log == old(log) + round.Ops()
    {
      EnsureMeans(log, round);
      LandAll(round.beforeRead);
      TipIsOnBranch();
      var head := if round.blind then None else ref;
      if head.Some? {
        return !round.service.Breaks?;
      }
      ok := CreateBranch(round);
    }

    method ReadRemoteLock(shard: string) returns (lock: Option<Lock>)
      requires Valid()
      ensures lock == LP.LockAt(Replay(log), shard)
    {
      FilesAreReplay();
      lock := LP.LockAt(BaseTree(commits, ref), shard);
    }

    /** Reads the lock once; a fresh one refuses the caller unless forced, otherwise the caller's lock is committed. */
    method AcquireLock(run: Run) returns (held: bool)
      requires Valid() && log != [] && |run.acquiring| == 5
      modifies this
      ensures Valid() && log != []
      ensures held == Acquires(old(log), run)
      ensures log == old(log) + AcquireAdds(old(log), run)
      ensures var tree, path := Replay(old(log)), LockFile(run.shard);
              var live := path in tree && tree[path].LockJson? && tree[path].lock.startedAt.Some?
                           && run.now - tree[path].lock.startedAt.value <= tree[path].lock.ttlHours * 3600000;
              && (!run.readable || (live && !run.force) ==> !held && log == old(log))
              && (run.readable && (!live || run.force) ==> (held <==> EndOf(true, run.acquiring).Done?))
      ensures held ==> LockFile(run.shard) in Replay(log) && Replay(log)[LockFile(run.shard)] == LockJson(run.me)
    {
      if !run.readable {
        return false;
      }
      var existing := ReadRemoteLock(run.shard);
      if existing.Some? && !LP.LockIsStale(existing.value, run.now) && !run.force {
        return false;
      }
      ghost var before := log;
      var ending := CommitFiles(Acquire(run.shard, run.me), run.acquiring);
      held := ending.Done?;
      if held {
        LastAcquires(before + Met(true, run.acquiring), run.shard, run.me);
        Regroup(before, Met(true, run.acquiring), [Acquire(run.shard, run.me)]);
      }
    }

    /** Pulls, runs, and saves what the run produced, if anything. */
    method RunAndPush(run: Run) returns (code: int)
      requires Valid() && log != [] && |run.pushing| == 5
      modifies this
      ensures Valid() && log == old(log) + PushAdds(run) && log != []
      ensures code == if run.work.Some? && Pushed(run) then run.work.value.code else 1
    {
      if run.work.None? {
        return 1;
      }
      if run.work.value.saved.Some? {
        var ending := CommitFiles(Push(run.shard, run.me, run.work.value.saved.value), run.pushing);
        if !ending.Done? {
          return 1;
        }
      }
      code := run.work.value.code;
    }

    /**
     From the lock on: what was acquired is released whatever happened meanwhile, and
     the release may fail unnoticed.
     */
    method RunLocked(run: Run) returns (code: int)
      requires Valid() && log != [] && |run.acquiring| == |run.pushing| == |run.releasing| == 5
      modifies this
      ensures Valid() && log == old(log) + LockedAdds(old(log), run)
      ensures code == if Acquires(old(log), run) && run.work.Some? && Pushed(run) then run.work.value.code else 1
    {
      ghost var start := log;
      var held := AcquireLock(run);
      if !held {
        assert log == start + (AcquireAdds(start, run) + []);
        return 1;
      }
      code := RunAndPush(run);
      var released := CommitFiles(Release(run.shard), run.releasing);
      Regroup(start + AcquireAdds(start, run), PushAdds(run), Landed(true, run.releasing, Release(run.shard)));
      Regroup(start, AcquireAdds(start, run), HeldAdds(run));
    }

    /** cmdRun. */
    method RunShard(run: Run) returns (code: int)
      requires Valid() && |run.acquiring| == |run.pushing| == |run.releasing| == 5
      modifies this
      ensures Valid() && log == old(log) + RunAdds(old(log), run)
      ensures code == if Held(old(log), run) && run.work.Some? && Pushed(run) then run.work.value.code else 1
    {
      ghost var start := log;
      var ready := EnsureBranch(run.ensuring);
      if !ready {
        return 1;
      }
      ghost var ensured := EnsureAdds(start, run.ensuring);
      code := RunLocked(run);
      Regroup(start, ensured, LockedAdds(start + ensured, run));
    }
  }

  // ----- the shard's files after a run

  predicate NoneOf(ops: seq<Op>, shard: string) {
    forall i :: 0 <= i < |ops| ==> !SavesState(ops[i], shard) && !TouchesLock(ops[i], shard)
  }

  /** No rival commits anything of the shard. */
  predicate ForeignTo(rounds: seq<Round>, shard: string) {
    NoneOf(AllOps(rounds), shard)
  }

  lemma LastSaveAt(all: seq<Op>, log: seq<Op>, op: Op, after: seq<Op>, shard: string)
    requires all == log + [op] + after && SavesState(op, shard)
    requires forall i :: 0 <= i < |after| ==> !SavesState(after[i], shard)
    ensures all[|log|] == op && forall j :: |log| < j < |all| ==> !SavesState(all[j], shard)
  {
    forall j | |log| < j < |all| ensures !SavesState(all[j], shard) {
      assert all[j] == after[j - |log| - 1];
    }
  }

  lemma LastLockChangeAt(all: seq<Op>, log: seq<Op>, op: Op, after: seq<Op>, shard: string)
    requires all == log + [op] + after && TouchesLock(op, shard)
    requires forall i :: 0 <= i < |after| ==> !TouchesLock(after[i], shard)
    ensures all[|log|] == op && forall j :: |log| < j < |all| ==> !TouchesLock(all[j], shard)
  {
    forall j | |log| < j < |all| ensures !TouchesLock(all[j], shard) {
      assert all[j] == after[j - |log| - 1];
    }
  }

  /** Landing a commit that is the last to save its shard leaves what that commit says. */
  lemma LastOpDecides(log: seq<Op>, op: Op, after: seq<Op>, shard: string)
    requires forall i :: 0 <= i < |after| ==> !SavesState(after[i], shard)
    requires SavesState(op, shard)
    ensures var tree := Replay(log + [op] + after);
            IncrementalFile(shard) in tree && tree[IncrementalFile(shard)] == CacheBytes(op.bytes)
  {
    var all := log + [op] + after;
    LastSaveAt(all, log, op, after, shard);
    CacheIsLastSaved(all, shard, |log|);
  }

  lemma LastLockDecides(log: seq<Op>, op: Op, after: seq<Op>, shard: string)
    requires forall i :: 0 <= i < |after| ==> !TouchesLock(after[i], shard)
    requires TouchesLock(op, shard)
    ensures LP.LockAt(Replay(log + [op] + after), shard) == if WritesLock(op, shard) then Some(op.lock) else None
  {
    var all := log + [op] + after;
    LastLockChangeAt(all, log, op, after, shard);
    LockIsLastChange(all, shard, |log|);
  }

  lemma ForeignMet(rounds: seq<Round>, shard: string)
    requires ForeignTo(rounds, shard)
    ensures NoneOf(Met(true, rounds), shard)
  {
    CallEnds(true, rounds);
    assert forall i :: 0 <= i < |Met(true, rounds)| ==> Met(true, rounds)[i] == AllOps(rounds)[i];
  }

  /** Behind a push come foreign commits and perhaps the release. */
  lemma PushedLast(before: seq<Op>, push: Op, met: seq<Op>, released: bool, shard: string)
    requires push.Push? && push.shard == shard && NoneOf(met, shard)
    ensures var tree := Replay(before + [push] + (met + (if released then [Release(shard)] else [])));
            && IncrementalFile(shard) in tree && tree[IncrementalFile(shard)] == CacheBytes(push.bytes)
            && LP.LockAt(tree, shard) == if released then None else Some(push.lock)
  {
    if released {
      LastOpDecides(before, push, met + [Release(shard)], shard);
      assert before + [push] + (met + [Release(shard)]) == (before + [push] + met) + [Release(shard)] + [];
      LastLockDecides(before + [push] + met, Release(shard), [], shard);
    } else {
      assert met + [] == met;
      LastOpDecides(before, push, met, shard);
      LastLockDecides(before, push, met, shard);
    }
  }

  lemma Behind(log: seq<Op>, ensured: seq<Op>, acquired: seq<Op>, met: seq<Op>, push: Op, released: seq<Op>)
    ensures log + (ensured + (acquired + ((met + [push]) + released))) ==
            (log + ensured + acquired + met) + [push] + released
  {
  }

  /**
   What a run leaves for its shard when it got the lock, its push landed and only
   other shards commit while it releases: its own cache, and no lock if the release
   landed, or its own lock, to go stale, if it did not.
   */
  lemma RunLeaves(log: seq<Op>, run: Run)
    requires Held(log, run) && Saves(run) && Lands(true, run.pushing) && ForeignTo(run.releasing, run.shard)
    ensures var tree := Replay(log + RunAdds(log, run));
            && IncrementalFile(run.shard) in tree
            && tree[IncrementalFile(run.shard)] == CacheBytes(run.work.value.saved.value)
            && LP.LockAt(tree, run.shard) == if Lands(true, run.releasing) then None else Some(run.me)
  {
    var push := Push(run.shard, run.me, run.work.value.saved.value);
    var ensured := EnsureAdds(log, run.ensuring);
    var acquired := AcquireAdds(log + ensured, run);
    Behind(log, ensured, acquired, Met(true, run.pushing), push, Landed(true, run.releasing, Release(run.shard)));
    ForeignMet(run.releasing, run.shard);
    PushedLast(log + ensured + acquired + Met(true, run.pushing), push, Met(true, run.releasing),
               Lands(true, run.releasing), run.shard);
  }
}
