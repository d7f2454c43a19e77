/**
 The soft lock: acquire, push and release by any number of clients on the shared
 branch. Each accepted commit is one atomic step (CommitProtocol.StepIsAtomic); reading the
 lock and committing the acquisition are separate steps, as in `acquireLock`,
 which reads the lock once while `commitFiles` re-reads only the head.
 */
module LockProtocol {
  import opened Wrappers
  import opened StateBranch
  import CP = CommitProtocol

  const DEFAULT_LOCK_TTL_HOURS := 8

  /** The lock the branch shows for a shard; a file that is not a lock reads as none. */
  function LockAt(tree: Tree, shard: string): Option<Lock> {
    if LockFile(shard) in tree && tree[LockFile(shard)].LockJson? then Some(tree[LockFile(shard)].lock) else None
  }

  predicate LockIsStale(lock: Lock, now: int) {
    lock.startedAt.None? || now - lock.startedAt.value > lock.ttlHours * 60 * 60 * 1000
  }

  predicate Free(lock: Option<Lock>, now: int) {
    lock.None? || LockIsStale(lock.value, now)
  }

  datatype Phase =
    | Idle
    | Acquiring(seen: Option<Lock>, readAt: int, me: Lock) // passed the check, acquire commit under way
    | Holding(me: Lock)
    | Finished
    | Refused
    | Dead

  datatype Client = Client(shard: string, host: string, pid: nat, phase: Phase)

  datatype State = State(tree: Tree, now: int, clients: seq<Client>)

  datatype Step =
    | Wait(ms: nat)
    | ReadLock(i: nat, force: bool)
    | AcquireLands(i: nat)
    | AcquireFails(i: nat)
    | AcquireReplyLost(i: nat)   // the commit lands, the client throws and never releases
    | PushLands(i: nat, bytes: seq<int>)
    | ReleaseLands(i: nat)
    | ReleaseFails(i: nat)       // reported and swallowed: the lock stays
    | Dies(i: nat)
    | ForceUnlocks(shard: string)
    | Bootstraps(shard: string, bytes: seq<int>)

  predicate Enabled(st: State, step: Step) {
    match step
    case Wait(_) => true
    case ForceUnlocks(_) => true
    case Bootstraps(_, _) => true
    case ReadLock(i, _) => i < |st.clients| && st.clients[i].phase.Idle?
    case AcquireLands(i) => i < |st.clients| && st.clients[i].phase.Acquiring?
    case AcquireFails(i) => i < |st.clients| && st.clients[i].phase.Acquiring?
    case AcquireReplyLost(i) => i < |st.clients| && st.clients[i].phase.Acquiring?
    case PushLands(i, _) => i < |st.clients| && st.clients[i].phase.Holding?
    case ReleaseLands(i) => i < |st.clients| && st.clients[i].phase.Holding?
    case ReleaseFails(i) => i < |st.clients| && st.clients[i].phase.Holding?
    case Dies(i) => i < |st.clients|
  }

  function SetPhase(st: State, i: nat, phase: Phase): State
    requires i < |st.clients|
  {
    st.(clients := st.clients[i := st.clients[i].(phase := phase)])
  }

  function Apply(st: State, step: Step): State
    requires Enabled(st, step)
  {
    match step
    case Wait(ms) => st.(now := st.now + ms)
    case ReadLock(i, force) =>
      var c := st.clients[i];
      var seen := LockAt(st.tree, c.shard);
      if !Free(seen, st.now) && !force then SetPhase(st, i, Refused)
      else SetPhase(st, i, Acquiring(seen, st.now, Lock(c.host, c.pid, Some(st.now), DEFAULT_LOCK_TTL_HOURS)))
    case AcquireLands(i) =>
      var c := st.clients[i];
      SetPhase(st.(tree := Land(st.tree, Acquire(c.shard, c.phase.me))), i, Holding(c.phase.me))
    case AcquireReplyLost(i) =>
      var c := st.clients[i];
      SetPhase(st.(tree := Land(st.tree, Acquire(c.shard, c.phase.me))), i, Dead)
    case AcquireFails(i) => SetPhase(st, i, Refused)
    case PushLands(i, bytes) =>
      st.(tree := Land(st.tree, Push(st.clients[i].shard, st.clients[i].phase.me, bytes)))
    case ReleaseLands(i) =>
      SetPhase(st.(tree := Land(st.tree, Release(st.clients[i].shard))), i, Finished)
    case ReleaseFails(i) => SetPhase(st, i, Finished)
    case Dies(i) => SetPhase(st, i, Dead)
    case ForceUnlocks(shard) => st.(tree := Land(st.tree, ForceUnlock(shard)))
    case Bootstraps(shard, bytes) => st.(tree := Land(st.tree, Bootstrap(shard, bytes)))
  }

  /**
   What a client can do next, and what it then is: it reads the lock once, and is
   refused by a live one unless it forces; its acquisition lands, fails or lands
   unnoticed; it pushes while it holds; its release lands or is given up; it may die.
   */
  lemma LifeOfAClient(st: State, i: nat, force: bool, bytes: seq<int>)
    requires i < |st.clients|
    ensures var c := st.clients[i];
            var lock := LockAt(st.tree, c.shard);
            var live := lock.Some? && lock.value.startedAt.Some?
                        && st.now - lock.value.startedAt.value <= lock.value.ttlHours * 3600000;
            && (Enabled(st, ReadLock(i, force)) <==> c.phase.Idle?)
            && (c.phase.Idle? ==>
                  && Apply(st, ReadLock(i, force)).tree == st.tree
                  && Apply(st, ReadLock(i, force)).clients[i].phase ==
                     if live && !force then Refused
                     else Acquiring(lock, st.now, Lock(c.host, c.pid, Some(st.now), 8)))
            && (Enabled(st, AcquireLands(i)) <==> c.phase.Acquiring?)
            && (Enabled(st, AcquireFails(i)) <==> c.phase.Acquiring?)
            && (Enabled(st, AcquireReplyLost(i)) <==> c.phase.Acquiring?)
            && (c.phase.Acquiring? ==>
                  && Apply(st, AcquireLands(i)).clients[i].phase == Holding(c.phase.me)
                  && Apply(st, AcquireLands(i)).tree == Land(st.tree, Acquire(c.shard, c.phase.me))
                  && Apply(st, AcquireReplyLost(i)).clients[i].phase == Dead
                  && Apply(st, AcquireReplyLost(i)).tree == Land(st.tree, Acquire(c.shard, c.phase.me))
                  && Apply(st, AcquireFails(i)).clients[i].phase == Refused
                  && Apply(st, AcquireFails(i)).tree == st.tree)
            && (Enabled(st, PushLands(i, bytes)) <==> c.phase.Holding?)
            && (Enabled(st, ReleaseLands(i)) <==> c.phase.Holding?)
            && (Enabled(st, ReleaseFails(i)) <==> c.phase.Holding?)
            && (c.phase.Holding? ==>
                  && Apply(st, PushLands(i, bytes)) == st.(tree := Land(st.tree, Push(c.shard, c.phase.me, bytes)))
                  && Apply(st, ReleaseLands(i)).clients[i].phase == Finished
                  && Apply(st, ReleaseLands(i)).tree == Land(st.tree, Release(c.shard))
                  && Apply(st, ReleaseFails(i)).clients[i].phase == Finished
                  && Apply(st, ReleaseFails(i)).tree == st.tree)
            && Enabled(st, Dies(i)) && Apply(st, Dies(i)).clients[i].phase == Dead && Apply(st, Dies(i)).tree == st.tree
  {
  }

  /** What happens around the clients: time passes, a lock is forced open, a shard is seeded. */
  lemma LifeAround(st: State, ms: nat, shard: string, bytes: seq<int>)
    ensures Enabled(st, Wait(ms)) && Apply(st, Wait(ms)) == st.(now := st.now + ms)
    ensures Enabled(st, ForceUnlocks(shard))
    ensures Apply(st, ForceUnlocks(shard)) == st.(tree := Land(st.tree, ForceUnlock(shard)))
    ensures Enabled(st, Bootstraps(shard, bytes))
    ensures Apply(st, Bootstraps(shard, bytes)) == st.(tree := Land(st.tree, Bootstrap(shard, bytes)))
  {
  }

  /** A step is one client's or nobody's: every other client stays what it was. */
  lemma OthersStay(st: State, step: Step, j: nat)
    requires Enabled(st, step) && j < |st.clients|
    ensures |Apply(st, step).clients| == |st.clients|
    ensures var c, next := st.clients[j], Apply(st, step).clients[j];
            && next.shard == c.shard && next.host == c.host && next.pid == c.pid
            && (next.phase != c.phase ==> !step.Wait? && !step.ForceUnlocks? && !step.Bootstraps? && step.i == j)
    ensures Apply(st, step).now == st.now + if step.Wait? then step.ms else 0
  {
  }

  // ----- the commits behind the steps

  /** What a step asks the branch to take. */
  function Committed(st: State, step: Step): Option<Op>
    requires Enabled(st, step)
  {
    match step
    case AcquireLands(i) => Some(Acquire(st.clients[i].shard, st.clients[i].phase.me))
    case AcquireReplyLost(i) => Some(Acquire(st.clients[i].shard, st.clients[i].phase.me))
    case PushLands(i, bytes) => Some(Push(st.clients[i].shard, st.clients[i].phase.me, bytes))
    case ReleaseLands(i) => Some(Release(st.clients[i].shard))
    case ForceUnlocks(shard) => Some(ForceUnlock(shard))
    case Bootstraps(shard, bytes) => Some(Bootstrap(shard, bytes))
    case _ => None
  }

  /**
   A step of the concurrent commit protocol that lands what a step of this model
   commits, or lands nothing where it commits nothing, leaves the tree that this
   step leaves.
   */
  lemma StepsAreCommits(remote: CP.System, landing: CP.Step, st: State, step: Step)
    requires CP.Inv(remote) && CP.Enabled(remote, landing) && Enabled(st, step)
    requires CP.HeadTree(remote) == st.tree && CP.Landing(remote, landing) == Committed(st, step)
    ensures CP.Inv(CP.Apply(remote, landing))
    ensures CP.HeadTree(CP.Apply(remote, landing)) == Apply(st, step).tree
  {
    CP.StepIsAtomic(remote, landing);
  }

  // ----- runs

  predicate Runs(st: State, steps: seq<Step>)
    decreases |steps|
  {
    steps == [] || (Enabled(st, steps[0]) && Runs(Apply(st, steps[0]), steps[1..]))
  }

  function After(st: State, steps: seq<Step>): State
    requires Runs(st, steps)
    decreases |steps|
  {
    if steps == [] then st else After(Apply(st, steps[0]), steps[1..])
  }

  /** One move of the commit protocol, of the clients, or of both at once. */
  datatype Move = RemoteMoves(landing: CP.Step) | ClientMoves(step: Step) | BothMove(landing: CP.Step, step: Step)

  function RemoteSteps(moves: seq<Move>): seq<CP.Step> {
    if moves == [] then []
    else (if moves[0].ClientMoves? then [] else [moves[0].landing]) + RemoteSteps(moves[1..])
  }

  function ClientSteps(moves: seq<Move>): seq<Step> {
    if moves == [] then []
    else (if moves[0].RemoteMoves? then [] else [moves[0].step]) + ClientSteps(moves[1..])
  }

  /** Any interleaving in which a client's commit is taken exactly when the protocol lands it. */
  ghost predicate Together(remote: CP.System, st: State, moves: seq<Move>)
    requires CP.Inv(remote)
    decreases |moves|
  {
    moves == [] ||
    match moves[0]
    case RemoteMoves(landing) =>
      && CP.Enabled(remote, landing) && CP.Landing(remote, landing).None?
      && (CP.StepKeepsInv(remote, landing); Together(CP.Apply(remote, landing), st, moves[1..]))
    case ClientMoves(step) =>
      Enabled(st, step) && Committed(st, step).None? && Together(remote, Apply(st, step), moves[1..])
    case BothMove(landing, step) =>
      && CP.Enabled(remote, landing) && Enabled(st, step)
      && CP.Landing(remote, landing).Some? && CP.Landing(remote, landing) == Committed(st, step)
      && (CP.StepKeepsInv(remote, landing); Together(CP.Apply(remote, landing), Apply(st, step), moves[1..]))
  }

  lemma RemoteStepFirst(remote: CP.System, landing: CP.Step, rest: seq<CP.Step>)
    requires CP.Inv(remote) && CP.Enabled(remote, landing)
    ensures CP.Inv(CP.Apply(remote, landing))
    ensures CP.Runs(CP.Apply(remote, landing), rest) ==>
              && CP.Runs(remote, [landing] + rest)
              && CP.After(remote, [landing] + rest) == CP.After(CP.Apply(remote, landing), rest)
  {
    CP.StepKeepsInv(remote, landing);
    assert ([landing] + rest)[1..] == rest;
  }

  lemma ClientStepFirst(st: State, step: Step, rest: seq<Step>)
    requires Enabled(st, step) && Runs(Apply(st, step), rest)
    ensures Runs(st, [step] + rest) && After(st, [step] + rest) == After(Apply(st, step), rest)
  {
    assert ([step] + rest)[1..] == rest;
  }

  /**
   Over whole runs: however the steps of the commit protocol and of the clients
   interleave, each side's moves are a run of its model and both end with one tree, so
   that what is proved of the clients' runs holds of the branch the protocol keeps.
   */
  lemma {:induction false} ModelsStayTogether(remote: CP.System, st: State, moves: seq<Move>)
    requires CP.Inv(remote) && CP.HeadTree(remote) == st.tree && Together(remote, st, moves)
    ensures CP.Runs(remote, RemoteSteps(moves)) && Runs(st, ClientSteps(moves))
    ensures CP.HeadTree(CP.After(remote, RemoteSteps(moves))) == After(st, ClientSteps(moves)).tree
    decreases |moves|
  {
    if moves != [] {
      var rest := moves[1..];
      match moves[0] {
        case RemoteMoves(landing) =>
          CP.StepIsAtomic(remote, landing);
          ModelsStayTogether(CP.Apply(remote, landing), st, rest);
          RemoteStepFirst(remote, landing, RemoteSteps(rest));
          assert [] + ClientSteps(rest) == ClientSteps(rest);
        case ClientMoves(step) =>
          ModelsStayTogether(remote, Apply(st, step), rest);
          ClientStepFirst(st, step, ClientSteps(rest));
          assert [] + RemoteSteps(rest) == RemoteSteps(rest);
        case BothMove(landing, step) =>
          StepsAreCommits(remote, landing, st, step);
          ModelsStayTogether(CP.Apply(remote, landing), Apply(st, step), rest);
          RemoteStepFirst(remote, landing, RemoteSteps(rest));
          ClientStepFirst(st, step, ClientSteps(rest));
      }
    }
  }

  ghost predicate Distinct(st: State) {
    forall i, j :: 0 <= i < j < |st.clients| ==>
      st.clients[i].host != st.clients[j].host || st.clients[i].pid != st.clients[j].pid
  }

  /** The branch may hold anything; no client has begun; two processes differ in host or pid. */
  ghost predicate Init(st: State) {
    && (forall i :: 0 <= i < |st.clients| ==> st.clients[i].phase.Idle?)
    && Distinct(st)
  }

  predicate HoldsShard(st: State, i: int, shard: string) {
    0 <= i < |st.clients| && st.clients[i].shard == shard && st.clients[i].phase.Holding?
  }

  /** Nobody forces, and no acquisition lands on a lock its client has not read. */
  predicate Disciplined(st: State, step: Step)
    requires Enabled(st, step)
  {
    match step
    case ReadLock(_, force) => !force
    case ForceUnlocks(_) => false
    case AcquireLands(i) => LockAt(st.tree, st.clients[i].shard) == st.clients[i].phase.seen
    case AcquireReplyLost(i) => LockAt(st.tree, st.clients[i].shard) == st.clients[i].phase.seen
    case _ => true
  }

  /** Every holder is still within its time to live. */
  ghost predicate WithinTtl(st: State) {
    forall i :: 0 <= i < |st.clients| && st.clients[i].phase.Holding? ==> !LockIsStale(st.clients[i].phase.me, st.now)
  }

  predicate DisciplinedRun(st: State, steps: seq<Step>)
    requires Runs(st, steps)
    decreases |steps|
  {
    steps == [] || (Disciplined(st, steps[0]) && DisciplinedRun(Apply(st, steps[0]), steps[1..]))
  }

  ghost predicate TtlRespected(st: State, steps: seq<Step>)
    requires Runs(st, steps)
    decreases |steps|
  {
    WithinTtl(st) && (steps == [] || TtlRespected(Apply(st, steps[0]), steps[1..]))
  }

  // ----- what the conditions on a run say of each moment

  /** The states a run goes through: step `n` is made in the one at `n`. */
  function States(st: State, steps: seq<Step>): (states: seq<State>)
    requires Runs(st, steps)
    ensures |states| == |steps| + 1 && states[0] == st
    ensures forall n :: 0 <= n < |steps| ==> Enabled(states[n], steps[n])
    decreases |steps|
  {
    [st] + if steps == [] then [] else States(Apply(st, steps[0]), steps[1..])
  }

  lemma {:induction false} EachStepIsMade(st: State, steps: seq<Step>, n: nat)
    requires Runs(st, steps) && n < |steps|
    ensures States(st, steps)[n + 1] == Apply(States(st, steps)[n], steps[n])
    ensures States(st, steps)[|steps|] == After(st, steps)
    decreases |steps|
  {
    var next := Apply(st, steps[0]);
    var later := States(next, steps[1..]);
    assert States(st, steps) == [st] + later;
    if n > 0 {
      EachStepIsMade(next, steps[1..], n - 1);
    } else if |steps| > 1 {
      EachStepIsMade(next, steps[1..], 0);
    }
  }

  lemma {:induction false} TtlRespectedIff(st: State, steps: seq<Step>, states: seq<State>)
    requires Runs(st, steps) && states == States(st, steps)
    ensures TtlRespected(st, steps) <==> forall n :: 0 <= n <= |steps| ==> WithinTtl(states[n])
    decreases |steps|
  {
    if steps != [] {
      var later, rest := states[1..], steps[1..];
      TtlRespectedIff(Apply(st, steps[0]), rest, later);
      if TtlRespected(st, steps) {
        forall n | 0 <= n <= |steps| ensures WithinTtl(states[n]) {
          if n > 0 {
            assert WithinTtl(later[n - 1]);
          }
        }
      }
      if forall n :: 0 <= n <= |steps| ==> WithinTtl(states[n]) {
        forall n | 0 <= n <= |rest| ensures WithinTtl(later[n]) {
          assert WithinTtl(states[n + 1]);
        }
      }
    }
  }

  lemma {:induction false} DisciplinedRunIff(st: State, steps: seq<Step>, states: seq<State>)
    requires Runs(st, steps) && states == States(st, steps)
    ensures DisciplinedRun(st, steps) <==> forall n :: 0 <= n < |steps| ==> Disciplined(states[n], steps[n])
    decreases |steps|
  {
    if steps != [] {
      var later, rest := states[1..], steps[1..];
      DisciplinedRunIff(Apply(st, steps[0]), rest, later);
      if DisciplinedRun(st, steps) {
        forall n | 0 <= n < |steps| ensures Disciplined(states[n], steps[n]) {
          if n > 0 {
            assert Disciplined(later[n - 1], rest[n - 1]);
          }
        }
      }
      if forall n :: 0 <= n < |steps| ==> Disciplined(states[n], steps[n]) {
        forall n | 0 <= n < |rest| ensures Disciplined(later[n], rest[n]) {
          assert Disciplined(states[n + 1], steps[n + 1]);
        }
      }
    }
  }

  // ----- the invariant

  ghost predicate Owns(c: Client, lock: Lock) {
    lock.host == c.host && lock.pid == c.pid
  }

  /** A holder's lock is on the branch, and a lock is its client's own. */
  ghost predicate HolderOk(st: State, c: Client) {
    match c.phase
    case Holding(me) => Owns(c, me) && LockAt(st.tree, c.shard) == Some(me)
    case Acquiring(_, _, me) => Owns(c, me)
    case _ => true
  }

  ghost predicate ClientOk(st: State, c: Client) {
    HolderOk(st, c) && (c.phase.Acquiring? ==> c.phase.readAt <= st.now && Free(c.phase.seen, c.phase.readAt))
  }

  ghost predicate HoldersOk(st: State) {
    Distinct(st) && forall i :: 0 <= i < |st.clients| ==> HolderOk(st, st.clients[i])
  }

  ghost predicate Inv(st: State) {
    Distinct(st) && forall i :: 0 <= i < |st.clients| ==> ClientOk(st, st.clients[i])
  }

  /** No two clients hold one shard. */
  ghost predicate Exclusive(st: State) {
    forall i, j, s :: HoldsShard(st, i, s) && HoldsShard(st, j, s) ==> i == j
  }

  lemma HoldersAreExclusive(st: State)
    requires HoldersOk(st)
    ensures Exclusive(st)
  {
    forall i, j, s | HoldsShard(st, i, s) && HoldsShard(st, j, s) ensures i == j {
      assert HolderOk(st, st.clients[i]) && HolderOk(st, st.clients[j]);
    }
  }

  lemma InvMeansHoldersOk(st: State)
    requires Inv(st)
    ensures HoldersOk(st)
  {
    forall i | 0 <= i < |st.clients| ensures HolderOk(st, st.clients[i]) {
      assert ClientOk(st, st.clients[i]);
    }
  }

  /** Commits of one shard leave the lock of every other shard alone. */
  lemma LandLock(tree: Tree, op: Op, shard: string)
    ensures LockAt(Land(tree, op), shard) ==
            if WritesLock(op, shard) then Some(op.lock)
            else if ClearsLock(op, shard) then None
            else LockAt(tree, shard)
  {
    LandFrame(tree, op, shard, "");
  }

  predicate CommitsTo(clients: seq<Client>, step: Step, shard: string) {
    match step
    case AcquireLands(i) => i < |clients| && clients[i].shard == shard
    case AcquireReplyLost(i) => i < |clients| && clients[i].shard == shard
    case PushLands(i, _) => i < |clients| && clients[i].shard == shard
    case ReleaseLands(i) => i < |clients| && clients[i].shard == shard
    case ForceUnlocks(s) => s == shard
    case Bootstraps(s, _) => s == shard
    case _ => false
  }

  /** A step commits to a shard exactly when what it asks the branch to take is of that shard. */
  lemma CommitsToIff(st: State, step: Step, shard: string)
    requires Enabled(st, step)
    ensures CommitsTo(st.clients, step, shard) <==>
            Committed(st, step).Some? && !Committed(st, step).value.Ensure? && Committed(st, step).value.shard == shard
  {
  }

  lemma QuietStep(st: State, step: Step, shard: string)
    requires Enabled(st, step) && !CommitsTo(st.clients, step, shard)
    ensures LockAt(Apply(st, step).tree, shard) == LockAt(st.tree, shard)
  {
    match step {
      case AcquireLands(i) => LandLock(st.tree, Acquire(st.clients[i].shard, st.clients[i].phase.me), shard);
      case AcquireReplyLost(i) => LandLock(st.tree, Acquire(st.clients[i].shard, st.clients[i].phase.me), shard);
      case PushLands(i, bytes) => LandLock(st.tree, Push(st.clients[i].shard, st.clients[i].phase.me, bytes), shard);
      case ReleaseLands(i) => LandLock(st.tree, Release(st.clients[i].shard), shard);
      case ForceUnlocks(s) => LandLock(st.tree, ForceUnlock(s), shard);
      case Bootstraps(s, bytes) => LandLock(st.tree, Bootstrap(s, bytes), shard);
      case _ =>
    }
  }

  /** A lock that was free when it was read belongs to no client still holding within its time to live. */
  lemma FreeLockHasNoHolder(st: State, i: nat, j: nat)
    requires Inv(st) && WithinTtl(st) && i < |st.clients| && j < |st.clients|
    requires st.clients[i].phase.Acquiring? && LockAt(st.tree, st.clients[i].shard) == st.clients[i].phase.seen
    requires st.clients[j].shard == st.clients[i].shard
    ensures !st.clients[j].phase.Holding?
  {
    assert ClientOk(st, st.clients[i]) && ClientOk(st, st.clients[j]);
  }

  /** A commit of the shard lands: only an acquisition that read a free lock, or the one holder, can have made it. */
  lemma CommitKeepsClient(st: State, step: Step, j: nat)
    requires Inv(st) && Exclusive(st) && WithinTtl(st) && Enabled(st, step) && Disciplined(st, step)
    requires j < |st.clients| && CommitsTo(st.clients, step, st.clients[j].shard)
    ensures ClientOk(Apply(st, step), Apply(st, step).clients[j])
  {
    var c := st.clients[j];
    assert ClientOk(st, c);
    match step {
      case AcquireLands(i) =>
        LandLock(st.tree, Acquire(c.shard, st.clients[i].phase.me), c.shard);
        FreeLockHasNoHolder(st, i, j);
      case AcquireReplyLost(i) =>
        LandLock(st.tree, Acquire(c.shard, st.clients[i].phase.me), c.shard);
        FreeLockHasNoHolder(st, i, j);
      case PushLands(i, bytes) =>
        LandLock(st.tree, Push(c.shard, st.clients[i].phase.me, bytes), c.shard);
        assert ClientOk(st, st.clients[i]);
        assert HoldsShard(st, i, c.shard) && (c.phase.Holding? ==> HoldsShard(st, j, c.shard));
      case ReleaseLands(i) =>
        assert HoldsShard(st, i, c.shard) && (c.phase.Holding? ==> HoldsShard(st, j, c.shard));
      case Bootstraps(shard, bytes) =>
        LandLock(st.tree, Bootstrap(shard, bytes), c.shard);
      case _ =>
    }
  }

  lemma QuietKeepsClient(st: State, step: Step, j: nat)
    requires j < |st.clients| && ClientOk(st, st.clients[j]) && Enabled(st, step) && Disciplined(st, step)
    requires !CommitsTo(st.clients, step, st.clients[j].shard)
    ensures ClientOk(Apply(st, step), Apply(st, step).clients[j])
  {
    QuietStep(st, step, st.clients[j].shard);
  }

  lemma StepKeepsInv(st: State, step: Step)
    requires Inv(st) && WithinTtl(st) && Enabled(st, step) && Disciplined(st, step)
    ensures Inv(Apply(st, step))
  {
    var st' := Apply(st, step);
    InvMeansHoldersOk(st);
    HoldersAreExclusive(st);
    forall j | 0 <= j < |st.clients| ensures ClientOk(st', st'.clients[j]) {
      if CommitsTo(st.clients, step, st.clients[j].shard) {
        CommitKeepsClient(st, step, j);
      } else {
        QuietKeepsClient(st, step, j);
      }
    }
  }

  lemma {:induction false} RunKeepsInv(st: State, steps: seq<Step>)
    requires Inv(st) && Runs(st, steps) && DisciplinedRun(st, steps) && TtlRespected(st, steps)
    ensures Inv(After(st, steps))
    decreases |steps|
  {
    if steps != [] {
      StepKeepsInv(st, steps[0]);
      RunKeepsInv(Apply(st, steps[0]), steps[1..]);
    }
  }

  /**
   Lock safety over whole runs, from any contents of the branch. With no forcing,
   every holder within its time to live and no acquisition landing on an unread
   lock, a shard never has two holders, and the lock a holder's release deletes is
   its own.
   */
  lemma HoldersNeverOverlap(st: State, steps: seq<Step>)
    requires Init(st) && Runs(st, steps) && DisciplinedRun(st, steps) && TtlRespected(st, steps)
    ensures var end := After(st, steps);
            && Exclusive(end)
            && forall i :: 0 <= i < |end.clients| && end.clients[i].phase.Holding? ==>
                 LockAt(end.tree, end.clients[i].shard) == Some(end.clients[i].phase.me)
                 && Owns(end.clients[i], end.clients[i].phase.me)
  {
    RunKeepsInv(st, steps);
    var end := After(st, steps);
    InvMeansHoldersOk(end);
    HoldersAreExclusive(end);
    forall i | 0 <= i < |end.clients| ensures ClientOk(end, end.clients[i]) {}
  }

  // ----- windows without a commit of the shard

  predicate SameShards(before: seq<Client>, after: seq<Client>) {
    |before| == |after| && forall i :: 0 <= i < |before| ==> before[i].shard == after[i].shard
  }

  lemma StepKeepsShards(st: State, step: Step)
    requires Enabled(st, step)
    ensures SameShards(st.clients, Apply(st, step).clients)
  {
  }

  /** A run none of whose commits is of the shard leaves the lock a client has read as it was. */
  lemma {:induction false} QuietWindow(st: State, steps: seq<Step>, shard: string)
    requires Runs(st, steps)
    requires forall n :: 0 <= n < |steps| ==> !CommitsTo(st.clients, steps[n], shard)
    ensures LockAt(After(st, steps).tree, shard) == LockAt(st.tree, shard)
    decreases |steps|
  {
    if steps != [] {
      var st' := Apply(st, steps[0]);
      QuietStep(st, steps[0], shard);
      StepKeepsShards(st, steps[0]);
      forall n | 0 <= n < |steps[1..]| ensures !CommitsTo(st'.clients, steps[1..][n], shard) {
        assert steps[1..][n] == steps[n + 1];
      }
      QuietWindow(st', steps[1..], shard);
    }
  }

  /** Client `i`'s acquisition reaches the branch. */
  predicate LandsFor(step: Step, i: nat) {
    (step.AcquireLands? || step.AcquireReplyLost?) && step.i == i
  }

  /** Until client `i`'s acquisition lands, if it does, no commit of its shard does. */
  ghost predicate QuietUntilLanding(clients: seq<Client>, steps: seq<Step>, i: nat)
    requires i < |clients|
  {
    forall m, n :: 0 <= m < n < |steps| && LandsFor(steps[n], i) ==> !CommitsTo(clients, steps[m], clients[i].shard)
  }

  /** No commit of a shard lands between a client's read of its lock and the landing of its acquisition. */
  ghost predicate QuietReads(clients: seq<Client>, steps: seq<Step>) {
    forall r :: 0 <= r < |steps| && steps[r].ReadLock? && steps[r].i < |clients| ==>
      QuietUntilLanding(clients, steps[r + 1..], steps[r].i)
  }

  predicate NoForcing(steps: seq<Step>) {
    forall n :: 0 <= n < |steps| ==> !steps[n].ForceUnlocks? && (steps[n].ReadLock? ==> !steps[n].force)
  }

  /** What a client in mid-acquisition has read is still there, or its acquisition never lands. */
  ghost predicate ReadIsCurrent(st: State, steps: seq<Step>, i: nat)
    requires i < |st.clients|
  {
    st.clients[i].phase.Acquiring? ==>
      && QuietUntilLanding(st.clients, steps, i)
      && (LockAt(st.tree, st.clients[i].shard) == st.clients[i].phase.seen
          || forall n :: 0 <= n < |steps| ==> !LandsFor(steps[n], i))
  }

  lemma QuietTail(before: seq<Client>, after: seq<Client>, steps: seq<Step>, i: nat)
    requires SameShards(before, after) && steps != [] && i < |before|
    requires QuietUntilLanding(before, steps, i)
    ensures QuietUntilLanding(after, steps[1..], i)
  {
    forall m, n | 0 <= m < n < |steps[1..]| && LandsFor(steps[1..][n], i)
      ensures !CommitsTo(after, steps[1..][m], after[i].shard)
    {
      assert LandsFor(steps[n + 1], i) && !CommitsTo(before, steps[m + 1], before[i].shard);
    }
  }

  lemma QuietReadsTail(before: seq<Client>, after: seq<Client>, steps: seq<Step>)
    requires SameShards(before, after) && steps != [] && QuietReads(before, steps)
    ensures QuietReads(after, steps[1..])
  {
    forall r | 0 <= r < |steps[1..]| && steps[1..][r].ReadLock? && steps[1..][r].i < |after|
      ensures QuietUntilLanding(after, steps[1..][r + 1..], steps[1..][r].i)
    {
      assert steps[1..][r] == steps[r + 1] && steps[1..][r + 1..] == steps[r + 2..];
      assert QuietUntilLanding(before, steps[r + 2..], steps[r + 1].i);
    }
  }

  lemma AcquiringKeepsReadCurrent(st: State, steps: seq<Step>, i: nat)
    requires Runs(st, steps) && steps != []
    requires i < |st.clients| && st.clients[i].phase.Acquiring? && ReadIsCurrent(st, steps, i)
    ensures i < |Apply(st, steps[0]).clients| && ReadIsCurrent(Apply(st, steps[0]), steps[1..], i)
  {
    var st' := Apply(st, steps[0]);
    StepKeepsShards(st, steps[0]);
    QuietTail(st.clients, st'.clients, steps, i);
    assert forall n :: 0 <= n < |steps[1..]| ==> steps[1..][n] == steps[n + 1];
    if !CommitsTo(st.clients, steps[0], st.clients[i].shard) {
      QuietStep(st, steps[0], st.clients[i].shard);
    }
  }

  lemma ReadingMakesReadCurrent(st: State, steps: seq<Step>, i: nat)
    requires Runs(st, steps) && steps != [] && QuietReads(st.clients, steps)
    requires i < |st.clients| && steps[0].ReadLock? && steps[0].i == i
    ensures i < |Apply(st, steps[0]).clients| && ReadIsCurrent(Apply(st, steps[0]), steps[1..], i)
  {
    var st' := Apply(st, steps[0]);
    StepKeepsShards(st, steps[0]);
    assert QuietUntilLanding(st.clients, steps[0 + 1..], i);
    assert forall m :: CommitsTo(st.clients, m, st.clients[i].shard) == CommitsTo(st'.clients, m, st'.clients[i].shard);
  }

  lemma {:induction false} CurrentReadsAreDisciplined(st: State, steps: seq<Step>)
    requires Runs(st, steps) && NoForcing(steps) && QuietReads(st.clients, steps)
    requires forall i :: 0 <= i < |st.clients| ==> ReadIsCurrent(st, steps, i)
    ensures DisciplinedRun(st, steps)
    decreases |steps|
  {
    if steps != [] {
      var st' := Apply(st, steps[0]);
      assert NoForcing(steps[1..]) by {
        assert forall n :: 0 <= n < |steps[1..]| ==> steps[1..][n] == steps[n + 1];
      }
      StepKeepsShards(st, steps[0]);
      QuietReadsTail(st.clients, st'.clients, steps);
      forall i | 0 <= i < |st'.clients| ensures ReadIsCurrent(st', steps[1..], i) {
        if st.clients[i].phase.Acquiring? {
          AcquiringKeepsReadCurrent(st, steps, i);
        } else if steps[0].ReadLock? && steps[0].i == i {
          ReadingMakesReadCurrent(st, steps, i);
        }
      }
      assert Disciplined(st, steps[0]) by {
        if steps[0].AcquireLands? || steps[0].AcquireReplyLost? {
          assert LandsFor(steps[0], steps[0].i) && ReadIsCurrent(st, steps, steps[0].i);
        }
      }
      CurrentReadsAreDisciplined(st', steps[1..]);
    }
  }

  lemma QuietTimes(clients: seq<Client>, steps: seq<Step>)
    requires forall r, m, n :: 0 <= r < m < n < |steps| ==>
               (steps[r].ReadLock? && steps[r].i < |clients|
               && (steps[n].AcquireLands? || steps[n].AcquireReplyLost?) && steps[n].i == steps[r].i) ==>
               !CommitsTo(clients, steps[m], clients[steps[r].i].shard)
    ensures QuietReads(clients, steps)
  {
    forall r | 0 <= r < |steps| && steps[r].ReadLock? && steps[r].i < |clients|
      ensures QuietUntilLanding(clients, steps[r + 1..], steps[r].i)
    {
      var later := steps[r + 1..];
      forall m, n | 0 <= m < n < |later| && LandsFor(later[n], steps[r].i)
        ensures !CommitsTo(clients, later[m], clients[steps[r].i].shard)
      {
        assert later[n] == steps[r + 1 + n] && later[m] == steps[r + 1 + m];
      }
    }
  }

  /**
   The discipline is a matter of timing alone: a run without forcing in which no
   commit of the shard lands between each client's read of the lock and the landing
   of its acquisition is disciplined, so that its holders never overlap.
   */
  lemma QuietReadsNeverOverlap(st: State, steps: seq<Step>)
    requires Init(st) && Runs(st, steps) && TtlRespected(st, steps)
    requires forall n :: 0 <= n < |steps| ==> !steps[n].ForceUnlocks? && (steps[n].ReadLock? ==> !steps[n].force)
    requires forall r, m, n :: 0 <= r < m < n < |steps| ==>
               (steps[r].ReadLock? && steps[r].i < |st.clients|
               && (steps[n].AcquireLands? || steps[n].AcquireReplyLost?) && steps[n].i == steps[r].i) ==>
               !CommitsTo(st.clients, steps[m], st.clients[steps[r].i].shard)
    ensures DisciplinedRun(st, steps) && Exclusive(After(st, steps))
  {
    QuietTimes(st.clients, steps);
    CurrentReadsAreDisciplined(st, steps);
    HoldersNeverOverlap(st, steps);
  }

  // ----- when an acquisition is unsafe

  /** A running holder, or a lock nobody has to respect. */
  ghost predicate HeldOrFree(st: State, shard: string) {
    Free(LockAt(st.tree, shard), st.now) || exists j :: HoldsShard(st, j, shard)
  }

  lemma HeldIsNotFree(st: State, j: nat, shard: string)
    requires HoldersOk(st) && WithinTtl(st) && HoldsShard(st, j, shard)
    ensures !Free(LockAt(st.tree, shard), st.now)
  {
    assert HolderOk(st, st.clients[j]);
  }

  /** An acquisition that lands on an absent or expired lock is safe, whoever left that lock. */
  lemma FreeLockIsSafe(st: State, i: nat)
    requires HoldersOk(st) && WithinTtl(st) && Enabled(st, AcquireLands(i))
    requires Free(LockAt(st.tree, st.clients[i].shard), st.now)
    ensures Exclusive(Apply(st, AcquireLands(i)))
  {
    var shard := st.clients[i].shard;
    var st' := Apply(st, AcquireLands(i));
    HoldersAreExclusive(st);
    forall j | 0 <= j < |st.clients| ensures !HoldsShard(st, j, shard) {
      if HoldsShard(st, j, shard) {
        HeldIsNotFree(st, j, shard);
      }
    }
    forall a, s | HoldsShard(st', a, s) ensures (a == i && s == shard) || (a != i && HoldsShard(st, a, s)) {}
  }

  /**
   What the retry loop would have to re-check. Where an unexpired lock means a
   running holder, an acquisition keeps the shard exclusive exactly when the lock
   on the tree it is layered on is absent or expired: the test `acquireLock` makes
   once, made again at each attempt.
   */
  lemma AcquireIsSafeIff(st: State, i: nat)
    requires HoldersOk(st) && WithinTtl(st) && Enabled(st, AcquireLands(i))
    requires HeldOrFree(st, st.clients[i].shard)
    ensures Exclusive(Apply(st, AcquireLands(i))) <==> Free(LockAt(st.tree, st.clients[i].shard), st.now)
  {
    var shard := st.clients[i].shard;
    var st' := Apply(st, AcquireLands(i));
    assert HoldsShard(st', i, shard);
    if Free(LockAt(st.tree, shard), st.now) {
      FreeLockIsSafe(st, i);
    } else {
      var j :| HoldsShard(st, j, shard);
      assert HoldsShard(st', j, shard) && j != i;
    }
  }

  // ----- safety of whole runs

  /** Every lock has a holder until it is released: nobody dies holding, or throws after its acquisition landed. */
  predicate Orderly(st: State, step: Step)
    requires Enabled(st, step)
  {
    && !step.ForceUnlocks? && !step.AcquireReplyLost? && !step.ReleaseFails?
    && (step.Dies? ==> !st.clients[step.i].phase.Holding?)
  }

  predicate OrderlyRun(st: State, steps: seq<Step>)
    requires Runs(st, steps)
    decreases |steps|
  {
    steps == [] || (Orderly(st, steps[0]) && OrderlyRun(Apply(st, steps[0]), steps[1..]))
  }

  predicate LandsOnFree(st: State, step: Step)
    requires Enabled(st, step)
  {
    step.AcquireLands? ==> Free(LockAt(st.tree, st.clients[step.i].shard), st.now)
  }

  predicate FreeLandings(st: State, steps: seq<Step>)
    requires Runs(st, steps)
    decreases |steps|
  {
    steps == [] || (LandsOnFree(st, steps[0]) && FreeLandings(Apply(st, steps[0]), steps[1..]))
  }

  ghost predicate AlwaysExclusive(st: State, steps: seq<Step>)
    requires Runs(st, steps)
    decreases |steps|
  {
    Exclusive(st) && (steps == [] || AlwaysExclusive(Apply(st, steps[0]), steps[1..]))
  }

  lemma {:induction false} OrderlyRunIff(st: State, steps: seq<Step>, states: seq<State>)
    requires Runs(st, steps) && states == States(st, steps)
    ensures OrderlyRun(st, steps) <==> forall n :: 0 <= n < |steps| ==> Orderly(states[n], steps[n])
    decreases |steps|
  {
    if steps != [] {
      var later, rest := states[1..], steps[1..];
      OrderlyRunIff(Apply(st, steps[0]), rest, later);
      if OrderlyRun(st, steps) {
        forall n | 0 <= n < |steps| ensures Orderly(states[n], steps[n]) {
          if n > 0 {
            assert Orderly(later[n - 1], rest[n - 1]);
          }
        }
      }
      if forall n :: 0 <= n < |steps| ==> Orderly(states[n], steps[n]) {
        forall n | 0 <= n < |rest| ensures Orderly(later[n], rest[n]) {
          assert Orderly(states[n + 1], steps[n + 1]);
        }
      }
    }
  }

  lemma {:induction false} FreeLandingsIff(st: State, steps: seq<Step>, states: seq<State>)
    requires Runs(st, steps) && states == States(st, steps)
    ensures FreeLandings(st, steps) <==> forall n :: 0 <= n < |steps| ==> LandsOnFree(states[n], steps[n])
    decreases |steps|
  {
    if steps != [] {
      var later, rest := states[1..], steps[1..];
      FreeLandingsIff(Apply(st, steps[0]), rest, later);
      if FreeLandings(st, steps) {
        forall n | 0 <= n < |steps| ensures LandsOnFree(states[n], steps[n]) {
          if n > 0 {
            assert LandsOnFree(later[n - 1], rest[n - 1]);
          }
        }
      }
      if forall n :: 0 <= n < |steps| ==> LandsOnFree(states[n], steps[n]) {
        forall n | 0 <= n < |rest| ensures LandsOnFree(later[n], rest[n]) {
          assert LandsOnFree(states[n + 1], steps[n + 1]);
        }
      }
    }
  }

  lemma {:induction false} AlwaysExclusiveIff(st: State, steps: seq<Step>, states: seq<State>)
    requires Runs(st, steps) && states == States(st, steps)
    ensures AlwaysExclusive(st, steps) <==> forall n :: 0 <= n <= |steps| ==> Exclusive(states[n])
    decreases |steps|
  {
    if steps != [] {
      var later, rest := states[1..], steps[1..];
      AlwaysExclusiveIff(Apply(st, steps[0]), rest, later);
      if AlwaysExclusive(st, steps) {
        forall n | 0 <= n <= |steps| ensures Exclusive(states[n]) {
          if n > 0 {
            assert Exclusive(later[n - 1]);
          }
        }
      }
      if forall n :: 0 <= n <= |steps| ==> Exclusive(states[n]) {
        forall n | 0 <= n <= |rest| ensures Exclusive(later[n]) {
          assert Exclusive(states[n + 1]);
        }
      }
    }
  }

  /** Every lock on the branch is expired or has its holder. */
  ghost predicate LocksHeld(st: State) {
    HoldersOk(st) && forall shard :: HeldOrFree(st, shard)
  }

  lemma FreeStaysFree(lock: Option<Lock>, now: int, later: int)
    requires Free(lock, now) && now <= later
    ensures Free(lock, later)
  {
  }

  lemma OrderlyKeepsHolder(st: State, step: Step, j: nat)
    requires HoldersOk(st) && Exclusive(st) && WithinTtl(st) && j < |st.clients|
    requires Enabled(st, step) && Orderly(st, step) && LandsOnFree(st, step)
    ensures HolderOk(Apply(st, step), Apply(st, step).clients[j])
  {
    var c := st.clients[j];
    assert HolderOk(st, c);
    if !CommitsTo(st.clients, step, c.shard) {
      QuietStep(st, step, c.shard);
    } else if step.Bootstraps? {
      LandLock(st.tree, Bootstrap(step.shard, step.bytes), c.shard);
    } else {
      var i := step.i;
      assert HolderOk(st, st.clients[i]);
      assert c.phase.Holding? ==> HoldsShard(st, j, c.shard);
      if c.phase.Holding? && i != j {
        HeldIsNotFree(st, j, c.shard);
        assert st.clients[i].phase.Holding? ==> HoldsShard(st, i, c.shard);
      } else if step.AcquireLands? {
        LandLock(st.tree, Acquire(c.shard, st.clients[i].phase.me), c.shard);
      } else if step.PushLands? {
        LandLock(st.tree, Push(c.shard, st.clients[i].phase.me, step.bytes), c.shard);
      }
    }
  }

  lemma OrderlyKeepsHolders(st: State, step: Step)
    requires HoldersOk(st) && WithinTtl(st) && Enabled(st, step) && Orderly(st, step) && LandsOnFree(st, step)
    ensures HoldersOk(Apply(st, step))
  {
    var st' := Apply(st, step);
    HoldersAreExclusive(st);
    forall j | 0 <= j < |st.clients| ensures HolderOk(st', st'.clients[j]) {
      OrderlyKeepsHolder(st, step, j);
    }
  }

  lemma OrderlyKeepsHeld(st: State, step: Step, shard: string)
    requires HoldersOk(st) && HeldOrFree(st, shard) && Enabled(st, step) && Orderly(st, step)
    ensures HeldOrFree(Apply(st, step), shard)
  {
    var st' := Apply(st, step);
    if !CommitsTo(st.clients, step, shard) || step.Bootstraps? {
      if step.Bootstraps? {
        LandLock(st.tree, Bootstrap(step.shard, step.bytes), shard);
      } else {
        QuietStep(st, step, shard);
      }
      if j :| HoldsShard(st, j, shard) {
        assert HoldsShard(st', j, shard);
      } else {
        FreeStaysFree(LockAt(st.tree, shard), st.now, st'.now);
      }
    } else if step.ReleaseLands? {
      LandLock(st.tree, Release(shard), shard);
    } else {
      assert HoldsShard(st', step.i, shard);
    }
  }

  lemma {:induction false} HeldRunIsExclusiveIff(st: State, steps: seq<Step>)
    requires LocksHeld(st) && Runs(st, steps) && OrderlyRun(st, steps) && TtlRespected(st, steps)
    ensures AlwaysExclusive(st, steps) <==> FreeLandings(st, steps)
    decreases |steps|
  {
    HoldersAreExclusive(st);
    if steps != [] {
      var st' := Apply(st, steps[0]);
      if LandsOnFree(st, steps[0]) {
        OrderlyKeepsHolders(st, steps[0]);
        forall shard ensures HeldOrFree(st', shard) {
          OrderlyKeepsHeld(st, steps[0], shard);
        }
        HeldRunIsExclusiveIff(st', steps[1..]);
      } else {
        AcquireIsSafeIff(st, steps[0].i);
      }
    }
  }

  /**
   The exact condition over whole runs. On a branch whose locks have expired, with
   holders within their time to live and every lock released by its holder, two
   clients never hold one shard at any point of the run if and only if every
   acquisition lands on an absent or expired lock. Forced reads are allowed: only
   what the commit lands on matters.
   */
  lemma ExclusiveIffFreeLandings(st: State, steps: seq<Step>)
    requires Init(st) && Runs(st, steps) && forall shard :: Free(LockAt(st.tree, shard), st.now)
    requires forall n :: 0 <= n < |steps| ==>
               && !steps[n].ForceUnlocks? && !steps[n].AcquireReplyLost? && !steps[n].ReleaseFails?
               && (steps[n].Dies? ==> !States(st, steps)[n].clients[steps[n].i].phase.Holding?)
    requires forall n :: 0 <= n <= |steps| ==> WithinTtl(States(st, steps)[n])
    ensures var states := States(st, steps);
            (forall n :: 0 <= n <= |steps| ==> Exclusive(states[n])) <==>
            (forall n :: 0 <= n < |steps| && steps[n].AcquireLands? ==>
               Free(LockAt(states[n].tree, states[n].clients[steps[n].i].shard), states[n].now))
  {
    OrderlyRunIff(st, steps, States(st, steps));
    TtlRespectedIff(st, steps, States(st, steps));
    FreeLandingsIff(st, steps, States(st, steps));
    AlwaysExclusiveIff(st, steps, States(st, steps));
    HeldRunIsExclusiveIff(st, steps);
  }

  // ----- the race

  const RACERS := State(map[], 0, [Client("a", "host", 1, Idle), Client("a", "host", 2, Idle)])

  const RACE := [ReadLock(0, false), ReadLock(1, false), AcquireLands(0), AcquireLands(1)]

  function RacerLock(pid: nat): Lock {
    Lock("host", pid, Some(0), DEFAULT_LOCK_TTL_HOURS)
  }

  function Racer(pid: nat, phase: Phase): Client {
    Client("a", "host", pid, phase)
  }

  const BOTH_ACQUIRE := [AcquireLands(0), AcquireLands(1)]

  const BOTH_READ :=
    State(map[], 0, [Racer(1, Acquiring(None, 0, RacerLock(1))), Racer(2, Acquiring(None, 0, RacerLock(2)))])

  lemma BothHold() returns (end: State)
    ensures Runs(BOTH_READ, BOTH_ACQUIRE) && TtlRespected(BOTH_READ, BOTH_ACQUIRE)
            && end == After(BOTH_READ, BOTH_ACQUIRE)
    ensures end.clients == [Racer(1, Holding(RacerLock(1))), Racer(2, Holding(RacerLock(2)))]
    ensures LockAt(end.tree, "a") == Some(RacerLock(2))
  {
    var mid := Apply(BOTH_READ, AcquireLands(0));
    end := Apply(mid, AcquireLands(1));
    LandLock(mid.tree, Acquire("a", RacerLock(2)), "a");
    var last := [AcquireLands(1)];
    assert BOTH_ACQUIRE[1..] == last && last[1..] == [];
    assert Runs(end, []) && After(end, []) == end && TtlRespected(end, []);
    assert Runs(mid, last) && TtlRespected(mid, last) && After(mid, last) == end;
  }

  lemma RaceEnds() returns (end: State)
    ensures Runs(RACERS, RACE) && TtlRespected(RACERS, RACE) && end == After(RACERS, RACE)
    ensures end.clients == [Racer(1, Holding(RacerLock(1))), Racer(2, Holding(RacerLock(2)))]
    ensures LockAt(end.tree, "a") == Some(RacerLock(2))
  {
    end := BothHold();
    var first := Apply(RACERS, RACE[0]);
    assert Apply(first, RACE[1]) == BOTH_READ;
    assert RACE[1..][1..] == BOTH_ACQUIRE;
    assert Runs(first, RACE[1..]) && TtlRespected(first, RACE[1..]) && After(first, RACE[1..]) == end;
  }

  lemma RaceIsUnforced()
    ensures NoForcing(RACE) && Init(RACERS)
  {
  }

  lemma TwoHolders(st: State)
    requires |st.clients| == 2 && HoldsShard(st, 0, "a") && HoldsShard(st, 1, "a")
    ensures !Exclusive(st)
  {
  }

  /** A release by client 0 deletes whatever lock is there. */
  lemma ReleaseDeletes(st: State)
    requires |st.clients| == 2 && HoldsShard(st, 0, "a") && HoldsShard(st, 1, "a")
    ensures Enabled(st, ReleaseLands(0))
    ensures LockAt(Apply(st, ReleaseLands(0)).tree, "a") == None
    ensures HoldsShard(Apply(st, ReleaseLands(0)), 1, "a")
  {
    LandLock(st.tree, Release("a"), "a");
  }

  /**
   Both clients read a free lock and both acquisitions land. Nobody forces and
   nobody overruns the time to live, yet both hold the shard, and the first
   client's release deletes the second client's lock.
   */
  lemma TwoHoldersAreReachable()
    ensures Init(RACERS)
    ensures Runs(RACERS, RACE) && TtlRespected(RACERS, RACE)
    ensures NoForcing(RACE)
    ensures !Exclusive(After(RACERS, RACE))
    ensures var end := After(RACERS, RACE);
            && Enabled(end, ReleaseLands(0))
            && LockAt(end.tree, "a") == Some(RacerLock(2))
            && LockAt(Apply(end, ReleaseLands(0)).tree, "a") == None
            && HoldsShard(Apply(end, ReleaseLands(0)), 1, "a")
  {
    var end := RaceEnds();
    RaceIsUnforced();
    TwoHolders(end);
    ReleaseDeletes(end);
  }
}
