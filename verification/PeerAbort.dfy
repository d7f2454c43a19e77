/**
 run-with-peer-abort.ts: any number of wrappers under one parent, each running one
 command and sharing a sentinel file. The event handlers are functions on one
 wrapper; the system interleaves them with a millisecond clock that stops at a
 timer that is due. `since` records when the sentinel first appeared and is read by
 no handler. The class `Push` runs the handlers as they are written, on shared objects.
 */
module PeerAbort {
  import opened Wrappers

  const POLL_MS := 2000
  const KILL_MS := 2000
  const EXIT_MS := 4000

  /** How the child ended: `code` or a signal. */
  datatype Outcome = Code(n: int) | Signal

  datatype Reason = Preflight | Collateral | OwnFailure | SpawnFailure | KillFailure | Success

  datatype Peer =
    | Waiting
    | Running(startedAt: int, spawned: bool, nextPoll: int, abortedAt: Option<int>, killed: bool)
    | Exited(code: int, reason: Reason, spawned: bool, wrote: bool, at: int)

  /** The sentinel file: who wrote it last, and when it first existed. */
  datatype Mark = Mark(writer: nat, since: int)

  /** Writing the file names the writer and does not make the file younger. */
  function NewMark(before: Option<Mark>, id: nat, now: int): Mark {
    Mark(id, if before.Some? then before.value.since else now)
  }

  predicate Fails(outcome: Outcome) {
    outcome.Signal? || outcome.n != 0
  }

  function ExitCode(outcome: Outcome): int {
    if outcome.Signal? then 1 else outcome.n
  }

  // ----- one wrapper

  /** Start-up: a peer that has already failed means exit 130 without running anything. */
  function Started(sentinel: bool, spawns: bool, now: int): Peer {
    if sentinel then Exited(130, Preflight, false, false, now) else Running(now, spawns, now + POLL_MS, None, false)
  }

  /** The poll; the first time it sees the sentinel it signals the child and arms the two timers. */
  function Polled(p: Peer, sentinel: bool, now: int): Peer
    requires p.Running?
  {
    p.(nextPoll := now + POLL_MS, abortedAt := if sentinel && p.abortedAt.None? then Some(now) else p.abortedAt)
  }

  /** The exit handler; `writable` says whether the sentinel could be written. */
  function ChildExited(p: Peer, outcome: Outcome, writable: bool, now: int): Peer
    requires p.Running?
  {
    if p.abortedAt.Some? then Exited(130, Collateral, p.spawned, false, now)
    else if Fails(outcome) then Exited(ExitCode(outcome), OwnFailure, p.spawned, writable, now)
    else Exited(0, Success, p.spawned, false, now)
  }

  /** The error handler: the child could not be spawned, or could not be killed. It does not look at `aborted`. */
  function ChildErrored(p: Peer, writable: bool, now: int): Peer
    requires p.Running?
  {
    Exited(1, if p.spawned then KillFailure else SpawnFailure, p.spawned, writable, now)
  }

  /** The wrapper's own child failed, or could not be spawned, and the wrapper recorded it. */
  predicate Originator(p: Peer) {
    p.Exited? && p.wrote && (p.reason.OwnFailure? || p.reason.SpawnFailure?)
  }

  // ----- the system

  datatype System = System(now: int, sentinel: Option<Mark>, peers: seq<Peer>)

  datatype Step =
    | Tick
    | Start(i: nat, spawns: bool)
    | Poll(i: nat)
    | Kill(i: nat)
    | ExitTimer(i: nat)
    | ChildExits(i: nat, outcome: Outcome, writable: bool)
    | ChildErrors(i: nat, writable: bool)

  predicate PollDue(p: Peer, now: int) {
    p.Running? && p.nextPoll <= now
  }

  predicate KillDue(p: Peer, now: int) {
    p.Running? && p.abortedAt.Some? && !p.killed && p.abortedAt.value + KILL_MS <= now
  }

  predicate ExitDue(p: Peer, now: int) {
    p.Running? && p.abortedAt.Some? && p.abortedAt.value + EXIT_MS <= now
  }

  predicate Enabled(st: System, step: Step) {
    match step
    case Tick => forall i :: 0 <= i < |st.peers| ==>
      !PollDue(st.peers[i], st.now) && !KillDue(st.peers[i], st.now) && !ExitDue(st.peers[i], st.now)
    case Start(i, _) => i < |st.peers| && st.peers[i].Waiting?
    case Poll(i) => i < |st.peers| && PollDue(st.peers[i], st.now)
    case Kill(i) => i < |st.peers| && KillDue(st.peers[i], st.now)
    case ExitTimer(i) => i < |st.peers| && ExitDue(st.peers[i], st.now)
    case ChildExits(i, _, _) => i < |st.peers| && st.peers[i].Running? && st.peers[i].spawned
    case ChildErrors(i, _) =>
      i < |st.peers| && st.peers[i].Running? && (!st.peers[i].spawned || st.peers[i].abortedAt.Some?)
  }

  function Write(st: System, i: nat, p: Peer): System
    requires i < |st.peers|
  {
    var sentinel := if p.Exited? && p.wrote then Some(NewMark(st.sentinel, i, st.now)) else st.sentinel;
    System(st.now, sentinel, st.peers[i := p])
  }

  function Apply(st: System, step: Step): System
    requires Enabled(st, step)
  {
    match step
    case Tick => st.(now := st.now + 1)
    case Start(i, spawns) => Write(st, i, Started(st.sentinel.Some?, spawns, st.now))
    case Poll(i) => Write(st, i, Polled(st.peers[i], st.sentinel.Some?, st.now))
    case Kill(i) => Write(st, i, st.peers[i].(killed := true))
    case ExitTimer(i) => Write(st, i, Exited(130, Collateral, st.peers[i].spawned, false, st.now))
    case ChildExits(i, outcome, writable) => Write(st, i, ChildExited(st.peers[i], outcome, writable, st.now))
    case ChildErrors(i, writable) => Write(st, i, ChildErrored(st.peers[i], writable, st.now))
  }

  predicate Runs(st: System, steps: seq<Step>)
    decreases |steps|
  {
    steps == [] || (Enabled(st, steps[0]) && Runs(Apply(st, steps[0]), steps[1..]))
  }

  function After(st: System, steps: seq<Step>): System
    requires Runs(st, steps)
    decreases |steps|
  {
    if steps == [] then st else After(Apply(st, steps[0]), steps[1..])
  }

  /** No sentinel, nobody started. */
  ghost predicate Init(st: System) {
    st.sentinel.None? && forall i :: 0 <= i < |st.peers| ==> st.peers[i].Waiting?
  }

  // ----- the invariant

  /** Stopped, or being stopped, because of a peer. */
  predicate Collaterally(p: Peer) {
    || (p.Running? && p.abortedAt.Some?)
    || (p.Exited? && (p.reason.Preflight? || p.reason.Collateral? || p.reason.KillFailure?))
  }

  predicate PeerOk(st: System, p: Peer) {
    && (Collaterally(p) ==> st.sentinel.Some?)
    && (p.Exited? && p.wrote ==> st.sentinel.Some?)
    && match p
       case Waiting => true
       case Exited(code, reason, spawned, wrote, at) =>
         && at <= st.now
         && (reason.Preflight? ==> code == 130 && !spawned && !wrote && st.sentinel.value.since <= at)
         && (reason.Collateral? ==> code == 130 && !wrote && st.sentinel.value.since <= at)
         && (reason.KillFailure? ==> code == 1 && spawned && st.sentinel.value.since <= at)
         && (reason.SpawnFailure? ==> code == 1 && !spawned)
         && (reason.OwnFailure? || reason.Success? ==> spawned)
         && (reason.Success? ==> code == 0 && !wrote)
         && (code == 0 ==> reason.Success?)
       case Running(startedAt, spawned, nextPoll, abortedAt, killed) =>
         && st.now <= nextPoll <= st.now + POLL_MS
         && (st.sentinel.Some? && abortedAt.None? ==> nextPoll <= st.sentinel.value.since + POLL_MS)
         && (abortedAt.Some? ==>
               && st.sentinel.value.since <= abortedAt.value <= st.sentinel.value.since + POLL_MS
               && abortedAt.value <= st.now <= abortedAt.value + EXIT_MS
               && (abortedAt.value + KILL_MS < st.now ==> killed))
         && startedAt <= st.now && (nextPoll - startedAt) % POLL_MS == 0
  }

  ghost predicate PeersOk(st: System) {
    forall i :: 0 <= i < |st.peers| ==> PeerOk(st, st.peers[i])
  }

  /** An originator that failed when the sentinel appeared. */
  predicate OriginAt(st: System, o: int) {
    && 0 <= o < |st.peers| && Originator(st.peers[o])
    && st.sentinel.Some? && st.peers[o].at == st.sentinel.value.since
  }

  ghost predicate SentinelOk(st: System) {
    st.sentinel.Some? ==> st.sentinel.value.since <= st.now && exists o :: OriginAt(st, o)
  }

  ghost predicate Inv(st: System) {
    PeersOk(st) && SentinelOk(st)
  }

  /** The clock may pass a millisecond when none of the wrapper's timers is due. */
  lemma TickKeepsPeer(st: System, p: Peer)
    requires PeerOk(st, p) && !PollDue(p, st.now) && !KillDue(p, st.now) && !ExitDue(p, st.now)
    ensures PeerOk(st.(now := st.now + 1), p)
  {
  }

  /** A wrapper that is not the one an event belongs to does not notice it, even if the sentinel appears. */
  lemma BystanderKeepsPeer(st: System, i: nat, p: Peer, other: Peer)
    requires PeerOk(st, other) && i < |st.peers|
    ensures PeerOk(Write(st, i, p), other)
  {
  }

  lemma ActorKeepsPeer(st: System, step: Step)
    requires Enabled(st, step) && !step.Tick? && PeerOk(st, st.peers[step.i])
    requires st.sentinel.Some? ==> st.sentinel.value.since <= st.now
    ensures PeerOk(Apply(st, step), Apply(st, step).peers[step.i])
  {
  }

  lemma StepKeepsPeers(st: System, step: Step)
    requires Inv(st) && Enabled(st, step)
    ensures PeersOk(Apply(st, step))
  {
    var st' := Apply(st, step);
    forall j | 0 <= j < |st'.peers| ensures PeerOk(st', st'.peers[j]) {
      if step.Tick? {
        TickKeepsPeer(st, st.peers[j]);
      } else if j == step.i {
        ActorKeepsPeer(st, step);
      } else {
        BystanderKeepsPeer(st, step.i, st'.peers[step.i], st.peers[j]);
      }
    }
  }

  /** The first writer is an originator, and nothing changes a wrapper that has exited. */
  lemma StepKeepsOrigin(st: System, step: Step)
    requires Inv(st) && Enabled(st, step)
    ensures SentinelOk(Apply(st, step))
  {
    var st' := Apply(st, step);
    if st.sentinel.Some? {
      var o :| OriginAt(st, o);
      assert OriginAt(st', o);
    } else if st'.sentinel.Some? {
      assert PeerOk(st, st.peers[step.i]);
      assert OriginAt(st', step.i);
    }
  }

  lemma StepKeepsInv(st: System, step: Step)
    requires Inv(st) && Enabled(st, step)
    ensures Inv(Apply(st, step))
  {
    StepKeepsPeers(st, step);
    StepKeepsOrigin(st, step);
  }

  lemma {:induction false} RunKeepsInv(st: System, steps: seq<Step>)
    requires Inv(st) && Runs(st, steps)
    ensures Inv(After(st, steps))
    decreases |steps|
  {
    if steps != [] {
      StepKeepsInv(st, steps[0]);
      RunKeepsInv(Apply(st, steps[0]), steps[1..]);
    }
  }

  // ----- safety

  /**
   Nobody is stopped without cause. In every reachable state, if any wrapper was
   skipped, aborted or is being aborted, then another wrapper's own child failed or
   could not be spawned, that wrapper wrote the sentinel, and it did so no later.
   */
  lemma AbortsHaveAnOrigin(st: System, steps: seq<Step>, i: nat)
    requires Init(st) && Runs(st, steps)
    requires i < |After(st, steps).peers| && Collaterally(After(st, steps).peers[i])
    ensures var end := After(st, steps);
            exists o :: 0 <= o < |end.peers| && o != i && Originator(end.peers[o])
              && (end.peers[i].Exited? ==> end.peers[o].at <= end.peers[i].at)
              && (end.peers[i].Running? ==> end.peers[o].at <= end.peers[i].abortedAt.value)
  {
    RunKeepsInv(st, steps);
    var end := After(st, steps);
    assert PeerOk(end, end.peers[i]);
    var o :| OriginAt(end, o);
    assert o != i;
  }

  /** The sentinel, once there, stays, and keeps the time it appeared. */
  lemma {:induction false} SentinelStays(st: System, steps: seq<Step>)
    requires Runs(st, steps) && st.sentinel.Some?
    ensures After(st, steps).sentinel.Some? && After(st, steps).sentinel.value.since == st.sentinel.value.since
    decreases |steps|
  {
    if steps != [] {
      SentinelStays(Apply(st, steps[0]), steps[1..]);
    }
  }

  /** A wrapper not yet started when the sentinel exists never spawns its command, in any continuation. */
  lemma {:induction false} LateStartersNeverSpawn(st: System, steps: seq<Step>, i: nat)
    requires Runs(st, steps) && st.sentinel.Some? && i < |st.peers|
    requires var p := st.peers[i];
             p.Waiting? || (p.Exited? && p.reason.Preflight? && p.code == 130 && !p.spawned && !p.wrote)
    ensures i < |After(st, steps).peers|
    ensures var p := After(st, steps).peers[i];
            p.Waiting? || (p.Exited? && p.reason.Preflight? && p.code == 130 && !p.spawned && !p.wrote)
    decreases |steps|
  {
    if steps != [] {
      LateStartersNeverSpawn(Apply(st, steps[0]), steps[1..], i);
    }
  }

  /** A wrapper with a running child that has begun to abort, or one that has left that way. */
  predicate Aborting(p: Peer) {
    || (p.Running? && p.spawned && p.abortedAt.Some?)
    || (p.Exited? && p.reason.Collateral? && p.code == 130 && !p.wrote)
    || (p.Exited? && p.reason.KillFailure? && p.code == 1)
  }

  lemma StepKeepsAborting(st: System, step: Step, i: nat)
    requires Enabled(st, step) && i < |st.peers| && Aborting(st.peers[i])
    ensures i < |Apply(st, step).peers| && Aborting(Apply(st, step).peers[i])
  {
  }

  lemma {:induction false} RunKeepsAborting(st: System, steps: seq<Step>, i: nat)
    requires Runs(st, steps) && i < |st.peers| && Aborting(st.peers[i])
    ensures i < |After(st, steps).peers| && Aborting(After(st, steps).peers[i])
    decreases |steps|
  {
    if steps != [] {
      StepKeepsAborting(st, steps[0], i);
      RunKeepsAborting(Apply(st, steps[0]), steps[1..], i);
    }
  }

  /**
   A wrapper that aborted never becomes an originator: whatever its child and the
   others do afterwards, it exits 130 and writes no sentinel, or 1 when the child
   could not be killed.
   */
  lemma AbortedExitIsCollateral(st: System, steps: seq<Step>, i: nat)
    requires Runs(st, steps) && i < |st.peers|
    requires st.peers[i].Running? && st.peers[i].spawned && st.peers[i].abortedAt.Some?
    ensures i < |After(st, steps).peers| && !Originator(After(st, steps).peers[i])
    ensures var p := After(st, steps).peers[i];
            || (p.Running? && p.spawned && p.abortedAt.Some?)
            || (p.Exited? && p.reason.Collateral? && p.code == 130 && !p.wrote)
            || (p.Exited? && p.reason.KillFailure? && p.code == 1)
  {
    RunKeepsAborting(st, steps, i);
  }

  /**
   A wrapper aborts at most once: the moment from which its two timers count stays
   what the first poll that saw the sentinel made it, for as long as it runs.
   */
  lemma {:induction false} AbortsOnce(st: System, steps: seq<Step>, i: nat, at: int)
    requires Runs(st, steps) && i < |st.peers|
    requires st.peers[i].Exited? || (st.peers[i].Running? && st.peers[i].abortedAt == Some(at))
    ensures i < |After(st, steps).peers|
    ensures var p := After(st, steps).peers[i];
            p.Exited? || (p.Running? && p.abortedAt == Some(at))
    decreases |steps|
  {
    if steps != [] {
      AbortsOnce(Apply(st, steps[0]), steps[1..], i, at);
    }
  }

  /**
   What an exit means, over every run: 0 is a success and nothing else; a wrapper that
   was skipped or stopped exits 130, or 1 when its child could not be killed; only a
   wrapper that was never skipped has spawned, and only failures write the sentinel.
   */
  lemma ExitsMean(st: System, steps: seq<Step>, i: nat)
    requires Init(st) && Runs(st, steps) && i < |After(st, steps).peers| && After(st, steps).peers[i].Exited?
    ensures var p := After(st, steps).peers[i];
            && (p.code == 0 <==> p.reason.Success?)
            && (p.reason.Preflight? ==> p.code == 130 && !p.spawned && !p.wrote)
            && (p.reason.Collateral? ==> p.code == 130 && !p.wrote)
            && (p.reason.KillFailure? ==> p.code == 1 && p.spawned)
            && (p.reason.SpawnFailure? ==> p.code == 1 && !p.spawned)
            && (p.reason.OwnFailure? || p.reason.Success? ==> p.spawned)
            && (p.wrote ==> After(st, steps).sentinel.Some? && !p.reason.Success?)
            && p.at <= After(st, steps).now
  {
    RunKeepsInv(st, steps);
    assert PeerOk(After(st, steps), After(st, steps).peers[i]);
  }

  // ----- whom the sentinel names

  /** The sentinel names a wrapper whose own child failed. */
  predicate NamesCulprit(st: System) {
    st.sentinel.Some? && st.sentinel.value.writer < |st.peers| && Originator(st.peers[st.sentinel.value.writer])
  }

  /** The event writes the sentinel. */
  predicate WritesSentinel(st: System, step: Step)
    requires Enabled(st, step)
  {
    || (step.ChildExits? && step.writable && Fails(step.outcome) && st.peers[step.i].abortedAt.None?)
    || (step.ChildErrors? && step.writable)
  }

  /** A child that runs could not be killed: the error handler, which does not look at `aborted`, writes. */
  predicate Usurps(st: System, step: Step)
    requires Enabled(st, step)
  {
    step.ChildErrors? && step.writable && st.peers[step.i].spawned
  }

  lemma StepNamesCulprit(st: System, step: Step)
    requires Inv(st) && Enabled(st, step)
    ensures NamesCulprit(Apply(st, step)) <==>
            if WritesSentinel(st, step) then !Usurps(st, step) else NamesCulprit(st)
  {
    if !step.Tick? {
      assert PeerOk(st, st.peers[step.i]);
    }
  }

  /** Of the last event of the run that wrote the sentinel, whether it was a failed kill. */
  function LastWriteUsurps(st: System, steps: seq<Step>): Option<bool>
    requires Runs(st, steps)
    decreases |steps|
  {
    if steps == [] then None
    else
      var later := LastWriteUsurps(Apply(st, steps[0]), steps[1..]);
      if later.Some? then later
      else if WritesSentinel(st, steps[0]) then Some(Usurps(st, steps[0]))
      else None
  }

  lemma {:induction false} RunNamesCulprit(st: System, steps: seq<Step>)
    requires Inv(st) && Runs(st, steps)
    ensures var last := LastWriteUsurps(st, steps);
            NamesCulprit(After(st, steps)) <==> if last.Some? then !last.value else NamesCulprit(st)
    ensures After(st, steps).sentinel.Some? <==> st.sentinel.Some? || LastWriteUsurps(st, steps).Some?
    decreases |steps|
  {
    if steps != [] {
      StepKeepsInv(st, steps[0]);
      StepNamesCulprit(st, steps[0]);
      RunNamesCulprit(Apply(st, steps[0]), steps[1..]);
    }
  }

  /**
   Whoever wrote the sentinel is the originator, except after a failed kill. Over
   every run the sentinel exists exactly if some event wrote it, and then it names
   a wrapper whose own child failed exactly if the last such event was not a
   failure to kill a running child.
   */
  lemma SentinelNamesCulpritIff(st: System, steps: seq<Step>)
    requires Init(st) && Runs(st, steps)
    ensures After(st, steps).sentinel.Some? <==> LastWriteUsurps(st, steps).Some?
    ensures NamesCulprit(After(st, steps)) <==> LastWriteUsurps(st, steps) == Some(false)
  {
    RunNamesCulprit(st, steps);
  }

  function Ticks(n: nat): (ticks: seq<Step>)
    ensures |ticks| == n
  {
    if n == 0 then [] else [Tick] + Ticks(n - 1)
  }

  /** While nobody aborts, the clock can run on to the next poll. */
  lemma {:induction false} TicksRun(st: System, n: nat)
    requires forall i :: 0 <= i < |st.peers| && st.peers[i].Running? ==>
               st.peers[i].abortedAt.None? && st.now + n <= st.peers[i].nextPoll
    ensures Runs(st, Ticks(n)) && After(st, Ticks(n)) == st.(now := st.now + n)
    decreases n
  {
    if n > 0 {
      assert Ticks(n)[1..] == Ticks(n - 1);
      TicksRun(Apply(st, Tick), n - 1);
    }
  }

  lemma {:induction false} RunsConcat(st: System, a: seq<Step>, b: seq<Step>)
    requires Runs(st, a) && Runs(After(st, a), b)
    ensures Runs(st, a + b) && After(st, a + b) == After(After(st, a), b)
    decreases |a|
  {
    if a == [] {
      assert a + b == b;
    } else {
      assert (a + b)[1..] == a[1..] + b;
      RunsConcat(Apply(st, a[0]), a[1..], b);
    }
  }

  const TWO_WAITING := System(0, None, [Waiting, Waiting])

  /** Both start, and the first one's child fails. */
  const FIRST_FAILS := [Start(0, true), Start(1, true), ChildExits(0, Code(1), true)]

  /** At its poll the second one cannot kill its child. */
  const KILL_FAILS := [Poll(1), ChildErrors(1, true)]

  function OneFailed(now: int, second: Peer): System {
    System(now, Some(Mark(0, 0)), [Exited(1, OwnFailure, true, true, 0), second])
  }

  lemma FirstFailsRuns()
    ensures Runs(TWO_WAITING, FIRST_FAILS)
    ensures After(TWO_WAITING, FIRST_FAILS) == OneFailed(0, Running(0, true, POLL_MS, None, false))
  {
    assert FIRST_FAILS[1..] == [Start(1, true), ChildExits(0, Code(1), true)];
    assert FIRST_FAILS[1..][1..] == [ChildExits(0, Code(1), true)];
  }

  lemma KillFailsRuns()
    ensures var st := OneFailed(POLL_MS, Running(0, true, POLL_MS, None, false));
            && Runs(st, KILL_FAILS)
            && After(st, KILL_FAILS) ==
               OneFailed(POLL_MS, Exited(1, KillFailure, true, true, POLL_MS)).(sentinel := Some(Mark(1, 0)))
  {
    assert KILL_FAILS[1..] == [ChildErrors(1, true)];
  }

  /** A run in which a failed kill exits 1 and replaces the name of the real culprit in the sentinel. */
  lemma FailedKillReplacesTheCulprit()
    ensures Init(TWO_WAITING) && Runs(TWO_WAITING, FIRST_FAILS + Ticks(POLL_MS) + KILL_FAILS)
    ensures var end := After(TWO_WAITING, FIRST_FAILS + Ticks(POLL_MS) + KILL_FAILS);
            && |end.peers| == 2 && Originator(end.peers[0])
            && end.peers[1] == Exited(1, KillFailure, true, true, POLL_MS)
            && end.sentinel == Some(Mark(1, 0)) && !NamesCulprit(end)
  {
    FirstFailsRuns();
    TicksRun(OneFailed(0, Running(0, true, POLL_MS, None, false)), POLL_MS);
    RunsConcat(TWO_WAITING, FIRST_FAILS, Ticks(POLL_MS));
    KillFailsRuns();
    RunsConcat(TWO_WAITING, FIRST_FAILS + Ticks(POLL_MS), KILL_FAILS);
  }

  /** Nobody has failed so far. */
  ghost predicate Quiet(st: System) {
    st.sentinel.None? && forall i :: 0 <= i < |st.peers| ==>
      (st.peers[i].Running? ==> st.peers[i].spawned && st.peers[i].abortedAt.None?)
      && (st.peers[i].Exited? ==> st.peers[i].code == 0 && st.peers[i].reason.Success?)
  }

  lemma {:induction false} StaysQuiet(st: System, steps: seq<Step>)
    requires Quiet(st) && Runs(st, steps)
    requires forall n :: 0 <= n < |steps| ==> (steps[n].ChildExits? ==> steps[n].outcome == Code(0))
    requires forall n :: 0 <= n < |steps| ==> (steps[n].Start? ==> steps[n].spawns)
    ensures Quiet(After(st, steps))
    decreases |steps|
  {
    if steps != [] {
      StaysQuiet(Apply(st, steps[0]), steps[1..]);
    }
  }

  /** If every child spawns and exits 0, then whatever the schedule, no wrapper is stopped and all that exit exit 0. */
  lemma HealthyRunsExitZero(st: System, steps: seq<Step>, i: nat)
    requires Init(st) && Runs(st, steps)
    requires forall n :: 0 <= n < |steps| ==> (steps[n].ChildExits? ==> steps[n].outcome == Code(0))
    requires forall n :: 0 <= n < |steps| ==> (steps[n].Start? ==> steps[n].spawns)
    ensures var end := After(st, steps);
            && end.sentinel.None?
            && (i < |end.peers| && end.peers[i].Running? ==> end.peers[i].abortedAt.None?)
            && (i < |end.peers| && end.peers[i].Exited? ==> end.peers[i].code == 0 && end.peers[i].reason.Success?)
  {
    StaysQuiet(st, steps);
  }

  // ----- the time bound

  /**
   Whatever the children do, every wrapper running when the sentinel appears has
   exited 6000 ms later: at most 2000 to the poll that sees it, 4000 to the exit timer.
   */
  lemma StoppedWithinSixSeconds(st: System, steps: seq<Step>, i: nat)
    requires Init(st) && Runs(st, steps)
    ensures var end := After(st, steps);
            end.sentinel.Some? && i < |end.peers| && end.peers[i].Running? ==>
              end.now <= end.sentinel.value.since + 6000
  {
    RunKeepsInv(st, steps);
    var end := After(st, steps);
    if i < |end.peers| {
      assert PeerOk(end, end.peers[i]);
    }
  }

  /**
   When the timers fire, over every run: a poll at a multiple of 2000 ms after the
   start, the kill 2000 ms after the abort, the exit 4000 ms after it and behind the
   kill, with code 130 and the sentinel left alone.
   */
  lemma TimersFireOnTime(st: System, steps: seq<Step>, i: nat)
    requires Init(st) && Runs(st, steps) && i < |After(st, steps).peers|
    ensures var end := After(st, steps);
            var p := end.peers[i];
            && (Enabled(end, Poll(i)) ==> p.startedAt <= end.now && (end.now - p.startedAt) % 2000 == 0)
            && (Enabled(end, Kill(i)) ==>
                  && end.now == p.abortedAt.value + 2000 && !p.killed
                  && Apply(end, Kill(i)).peers[i] == p.(killed := true) && Apply(end, Kill(i)).sentinel == end.sentinel)
            && (Enabled(end, ExitTimer(i)) ==>
                  && end.now == p.abortedAt.value + 4000 && p.killed
                  && Apply(end, ExitTimer(i)).sentinel == end.sentinel
                  && Apply(end, ExitTimer(i)).peers[i] == Exited(130, Collateral, p.spawned, false, end.now))
  {
    RunKeepsInv(st, steps);
    var end := After(st, steps);
    assert PeerOk(end, end.peers[i]);
  }

  /** When that time has come the wrapper can only leave: the clock waits for its exit timer. */
  lemma ClockWaitsForExit(st: System, i: nat)
    requires Inv(st) && st.sentinel.Some? && i < |st.peers| && st.peers[i].Running?
    requires st.now == st.sentinel.value.since + 6000
    ensures !Enabled(st, Tick) && Enabled(st, ExitTimer(i)) && !Apply(st, ExitTimer(i)).peers[i].Running?
  {
    assert PeerOk(st, st.peers[i]);
  }

  /** The clock never stops for good: if it may not advance, some timer can fire. */
  lemma TimersCanFire(st: System)
    ensures Enabled(st, Tick)
            || exists i: nat :: Enabled(st, Poll(i)) || Enabled(st, Kill(i)) || Enabled(st, ExitTimer(i))
  {
    if !Enabled(st, Tick) {
      var i: nat :| i < |st.peers|
        && (PollDue(st.peers[i], st.now) || KillDue(st.peers[i], st.now) || ExitDue(st.peers[i], st.now));
      assert Enabled(st, Poll(i)) || Enabled(st, Kill(i)) || Enabled(st, ExitTimer(i));
    }
  }

  // ----- the handlers as the script runs them

  /** The sentinel file: the record of the last writer, and when the file was created. */
  class SentinelFile {
    var mark: Option<Mark>

    constructor ()
      ensures mark == None
    {
      mark := None;
    }

    method Record(id: nat, now: int)
      modifies this
      ensures mark == Some(NewMark(old(mark), id, now))
    {
      mark := Some(NewMark(mark, id, now));
    }
  }

  class Wrapper {
    const id: nat
    var peer: Peer

    constructor (id: nat)
      ensures this.id == id && peer == Waiting
    {
      this.id, peer := id, Waiting;
    }

    /** Nothing is spawned behind a failed peer; otherwise the first poll is one period away. */
    method Start(file: SentinelFile, spawns: bool, now: int)
      requires peer.Waiting?
      modifies this
      ensures file.mark.Some? <==> peer.Exited?
      ensures peer.Exited? ==>
              peer.code == 130 && peer.reason.Preflight? && !peer.spawned && !peer.wrote && peer.at == now
      ensures !peer.Exited? ==> peer.Running? && peer.startedAt == now && peer.spawned == spawns
      ensures peer.Running? ==> peer.nextPoll == now + POLL_MS && peer.abortedAt.None? && !peer.killed
    {
      if file.mark.Some? {
        peer := Exited(130, Preflight, false, false, now);
      } else {
        peer := Running(now, spawns, now + POLL_MS, None, false);
      }
    }

    /**
     Aborts at most once: the time from which the two timers count is set by the first
     poll that sees the sentinel.
     */
    method OnPoll(file: SentinelFile, now: int)
      requires PollDue(peer, now)
      modifies this
      ensures peer.Running? && peer.nextPoll == now + POLL_MS
      ensures peer.abortedAt.Some? <==> old(peer).abortedAt.Some? || file.mark.Some?
      ensures old(peer).abortedAt.Some? ==> peer.abortedAt == old(peer).abortedAt
      ensures old(peer).abortedAt.None? && file.mark.Some? ==> peer.abortedAt == Some(now)
      ensures peer.spawned == old(peer).spawned && peer.killed == old(peer).killed
              && peer.startedAt == old(peer).startedAt
    {
      if file.mark.Some? && peer.abortedAt.None? {
        peer := peer.(abortedAt := Some(now));
      }
      peer := peer.(nextPoll := now + POLL_MS);
    }

    method OnKillTimer(now: int)
      requires KillDue(peer, now)
      modifies this
      ensures peer == old(peer).(killed := true)
    {
      peer := peer.(killed := true);
    }

    method OnExitTimer(now: int)
      requires ExitDue(peer, now)
      modifies this
      ensures peer.Exited? && peer.code == 130 && peer.reason.Collateral? && !peer.wrote && peer.at == now
      ensures peer.spawned == old(peer).spawned
    {
      peer := Exited(130, Collateral, peer.spawned, false, now);
    }

    /**
     Exit 0 means that the child succeeded and nobody aborted the wrapper. The
     sentinel is written exactly by a wrapper that thereby is an originator; a
     wrapper that aborted leaves it alone and exits 130 whatever its child says.
     */
    method OnExit(file: SentinelFile, outcome: Outcome, writable: bool, now: int)
      requires peer.Running? && peer.spawned
      modifies this, file
      ensures peer.Exited? && peer.spawned && peer.at == now
      ensures peer.code == 0 <==> old(peer).abortedAt.None? && outcome == Code(0)
      ensures old(peer).abortedAt.Some? ==> peer.code == 130 && peer.reason.Collateral?
      ensures old(peer).abortedAt.None? && outcome.Signal? ==> peer.code == 1
      ensures old(peer).abortedAt.None? && !outcome.Signal? ==> peer.code == outcome.n
      ensures old(peer).abortedAt.None? && Fails(outcome) ==> peer.reason.OwnFailure?
      ensures peer.code == 0 ==> peer.reason.Success?
      ensures Originator(peer) == peer.wrote == (old(peer).abortedAt.None? && Fails(outcome) && writable)
      ensures file.mark == if peer.wrote then Some(NewMark(old(file.mark), id, now)) else old(file.mark)
    {
      if peer.abortedAt.Some? {
        peer := Exited(130, Collateral, peer.spawned, false, now);
        return;
      }
      if Fails(outcome) {
        if writable {
          file.Record(id, now);
        }
        peer := Exited(ExitCode(outcome), OwnFailure, peer.spawned, writable, now);
        return;
      }
      peer := Exited(0, Success, peer.spawned, false, now);
    }

    /**
     Exit 1, and the sentinel is written even by a wrapper that is aborting; an
     originator only if nothing was spawned.
     */
    method OnError(file: SentinelFile, writable: bool, now: int)
      requires peer.Running?
      modifies this, file
      ensures peer.Exited? && peer.code == 1 && peer.spawned == old(peer).spawned && peer.at == now
      ensures peer.reason == if old(peer).spawned then KillFailure else SpawnFailure
      ensures peer.wrote == writable && (Originator(peer) <==> writable && !old(peer).spawned)
      ensures file.mark == if peer.wrote then Some(NewMark(old(file.mark), id, now)) else old(file.mark)
    {
      if writable {
        file.Record(id, now);
      }
      peer := Exited(1, if peer.spawned then KillFailure else SpawnFailure, peer.spawned, writable, now);
    }
  }

  /** The wrappers of one push, their clock and the file they share. */
  class Push {
    const file: SentinelFile
    const wrappers: seq<Wrapper>
    var now: int

    ghost predicate Valid() {
      forall i :: 0 <= i < |wrappers| ==> wrappers[i].id == i
    }

    ghost function View(): System
      reads this, file, wrappers
    {
      System(now, file.mark, seq(|wrappers|, i requires 0 <= i < |wrappers| reads this, wrappers => wrappers[i].peer))
    }

    constructor (n: nat, now: int)
      ensures Valid() && View().now == now && |View().peers| == n && Init(View())
    {
      var sentinel := new SentinelFile();
      var all: seq<Wrapper> := [];
      for i := 0 to n
        invariant sentinel.mark == None && |all| == i
        invariant forall k :: 0 <= k < i ==> all[k].id == k && all[k].peer == Waiting
      {
        var w := new Wrapper(i);
        all := all + [w];
      }
      file, wrappers, this.now := sentinel, all, now;
    }

    /**
     Running the handler of an event is that event's transition of the system, so what
     holds of all runs holds of the handlers.
     */
    method Dispatch(step: Step)
      requires Valid() && Enabled(View(), step)
      modifies this`now, file, wrappers
      ensures Valid() && View() == Apply(old(View()), step)
    {
      match step {
        case Tick => now := now + 1;
        case Start(i, spawns) => wrappers[i].Start(file, spawns, now);
        case Poll(i) => wrappers[i].OnPoll(file, now);
        case Kill(i) => wrappers[i].OnKillTimer(now);
        case ExitTimer(i) => wrappers[i].OnExitTimer(now);
        case ChildExits(i, outcome, writable) => wrappers[i].OnExit(file, outcome, writable, now);
        case ChildErrors(i, writable) => wrappers[i].OnError(file, writable, now);
      }
    }
  }
}
