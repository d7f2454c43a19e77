/**
 The retry protocol of `commitFiles` for any number of concurrent calls. The
 remote is a commit graph and one ref. A call reads the head, builds a commit on
 the tree it read, and asks the remote to move the ref; the remote knows nothing
 of what the call read, it only refuses what is not a fast forward. Every step of
 every call is a separate transition, so a run is any interleaving.
 */
module CommitProtocol {
  import opened Wrappers
  import opened StateBranch

  type Sha = nat

  const COMMIT_MAX_ATTEMPTS := 5

  /** `caller` is the call that built the commit; the initial commit has none. */
  datatype Commit = Commit(tree: Tree, parent: Option<Sha>, op: Op, caller: Option<nat>)

  datatype Phase =
    | Reading
    | Building(head: Option<Sha>)
    | Updating(head: Option<Sha>, proposal: Sha)
    | Returned  // normal return
    | GaveUp    // threw the conflict of the last attempt
    | Crashed   // threw some other error, or the process died

  /**
   `attempt` is the loop counter. Two history variables serve the proofs: the
   length of the branch when the call began, and how many reads of the head
   failed and were taken for a missing branch.
   */
  datatype Call = Call(op: Op, attempt: nat, phase: Phase, began: nat, blind: nat)

  datatype System = System(commits: seq<Commit>, ref: Option<Sha>, calls: seq<Call>)

  datatype Step =
    | Start(op: Op)              // a new call, by any client
    | EnsureBranch               // the branch is created, by any client
    | ReadHead(k: nat, ok: bool) // a failed request reads as "no branch"
    | Build(k: nat)
    | Update(k: nat)
    | LoseReply(k: nat)          // the ref request takes effect, its reply is lost
    | Fail(k: nat)

  const EMPTY_REMOTE := System([], None, [])

  // ----- the commit graph

  ghost predicate Acyclic(commits: seq<Commit>) {
    forall c :: 0 <= c < |commits| && commits[c].parent.Some? ==> commits[c].parent.value < c
  }

  ghost predicate InGraph(commits: seq<Commit>, head: Option<Sha>) {
    head.Some? ==> head.value < |commits|
  }

  /** The commits from the root to `head`, oldest first. */
  ghost function History(commits: seq<Commit>, head: Option<Sha>): seq<Sha>
    requires Acyclic(commits) && InGraph(commits, head)
    decreases if head.Some? then head.value + 1 else 0
  {
    if head.None? then [] else History(commits, commits[head.value].parent) + [head.value]
  }

  /** GitHub accepts an update without force only when the old head is an ancestor of the new one. */
  ghost predicate FastForward(commits: seq<Commit>, from: Sha, to: Sha)
    requires Acyclic(commits) && to < |commits|
  {
    from in History(commits, Some(to))
  }

  function BaseTree(commits: seq<Commit>, head: Option<Sha>): Tree
    requires InGraph(commits, head)
  {
    if head.None? then map[] else commits[head.value].tree
  }

  /** The remote's answer: creating a ref needs that there is none, moving it needs a fast forward. */
  ghost predicate RemoteAccepts(commits: seq<Commit>, ref: Option<Sha>, head: Option<Sha>, proposal: Sha)
    requires Acyclic(commits) && proposal < |commits|
  {
    if head.None? then ref.None? else ref.Some? && FastForward(commits, ref.value, proposal)
  }

  lemma {:induction false} HistoryBounds(commits: seq<Commit>, head: Option<Sha>)
    requires Acyclic(commits) && InGraph(commits, head)
    ensures forall i :: 0 <= i < |History(commits, head)| ==> History(commits, head)[i] <= head.value
    ensures forall i, j :: 0 <= i < j < |History(commits, head)| ==>
            History(commits, head)[i] < History(commits, head)[j]
    decreases if head.Some? then head.value + 1 else 0
  {
    if head.Some? {
      HistoryBounds(commits, commits[head.value].parent);
    }
  }

  lemma {:induction false} HistoryIsStable(commits: seq<Commit>, extra: Commit, head: Option<Sha>)
    requires Acyclic(commits) && Acyclic(commits + [extra]) && InGraph(commits, head)
    ensures History(commits + [extra], head) == History(commits, head)
    decreases if head.Some? then head.value + 1 else 0
  {
    if head.Some? {
      HistoryIsStable(commits, extra, commits[head.value].parent);
    }
  }

  /** The history of an ancestor is a prefix of the history. */
  lemma {:induction false} AncestorIsPrefix(commits: seq<Commit>, ancestor: Sha, head: Option<Sha>)
    requires Acyclic(commits) && InGraph(commits, head) && ancestor < |commits|
    requires ancestor in History(commits, head)
    ensures History(commits, Some(ancestor)) <= History(commits, head)
    decreases if head.Some? then head.value + 1 else 0
  {
    if ancestor != head.value {
      AncestorIsPrefix(commits, ancestor, commits[head.value].parent);
    }
  }

  // ----- counting the commits of one call

  ghost function CommitsBy(commits: seq<Commit>, history: seq<Sha>, k: nat): nat {
    if history == [] then 0
    else CommitsBy(commits, history[..|history| - 1], k)
         + (var c := history[|history| - 1]; if c < |commits| && commits[c].caller == Some(k) then 1 else 0)
  }

  lemma {:induction false} CommitsByIsStable(commits: seq<Commit>, extra: Commit, history: seq<Sha>, k: nat)
    requires forall i :: 0 <= i < |history| ==> history[i] < |commits|
    ensures CommitsBy(commits + [extra], history, k) == CommitsBy(commits, history, k)
  {
    if history != [] {
      CommitsByIsStable(commits, extra, history[..|history| - 1], k);
    }
  }

  lemma {:induction false} ZeroMeansAbsent(commits: seq<Commit>, history: seq<Sha>, k: nat)
    requires CommitsBy(commits, history, k) == 0
    ensures forall c :: c in history && c < |commits| ==> commits[c].caller != Some(k)
  {
    if history != [] {
      ZeroMeansAbsent(commits, history[..|history| - 1], k);
    }
  }

  // ----- the invariant

  /** A commit's tree is its operation laid over the tree of its parent. */
  ghost predicate TreeOk(commits: seq<Commit>, c: Sha)
    requires Acyclic(commits) && c < |commits|
  {
    commits[c].tree == Land(BaseTree(commits, commits[c].parent), commits[c].op)
  }

  ghost predicate GraphOk(commits: seq<Commit>, ref: Option<Sha>) {
    && Acyclic(commits)
    && InGraph(commits, ref)
    && forall c :: 0 <= c < |commits| ==> TreeOk(commits, c)
  }

  ghost predicate HeadWasRead(commits: seq<Commit>, ref: Option<Sha>, head: Option<Sha>)
    requires GraphOk(commits, ref)
  {
    head.Some? ==> head.value in History(commits, ref)
  }

  /** After `failures` failed attempts the branch has grown by as many commits, failed reads aside. */
  ghost predicate Grown(length: nat, call: Call, failures: nat) {
    call.began + failures <= length + call.blind
  }

  ghost predicate ReadPaidFor(commits: seq<Commit>, ref: Option<Sha>, head: Option<Sha>, call: Call)
    requires GraphOk(commits, ref) && InGraph(commits, head) && call.attempt >= 1
  {
    || Grown(|History(commits, head)|, call, call.attempt - 1)
    || (head.None? && Grown(|History(commits, ref)|, call, call.attempt))
  }

  ghost predicate CallOk(commits: seq<Commit>, ref: Option<Sha>, k: nat, call: Call)
    requires GraphOk(commits, ref)
  {
    var history := History(commits, ref);
    var mine := CommitsBy(commits, history, k);
    && 1 <= call.attempt <= COMMIT_MAX_ATTEMPTS
    && call.began <= |history|
    && match call.phase
       case Reading => mine == 0 && Grown(|history|, call, call.attempt - 1)
       case Building(head) =>
         && mine == 0 && InGraph(commits, head) && HeadWasRead(commits, ref, head)
         && ReadPaidFor(commits, ref, head, call)
       case Updating(head, proposal) =>
         && mine == 0 && InGraph(commits, head) && HeadWasRead(commits, ref, head)
         && ReadPaidFor(commits, ref, head, call)
         && proposal < |commits| && commits[proposal].parent == head && commits[proposal].caller == Some(k)
       case Returned => mine == 1
       case GaveUp => mine == 0 && Grown(|history|, call, COMMIT_MAX_ATTEMPTS)
       case Crashed => mine <= 1
  }

  ghost predicate CallersKnown(st: System) {
    forall c :: 0 <= c < |st.commits| && st.commits[c].caller.Some? ==>
      && st.commits[c].caller.value < |st.calls|
      && st.calls[st.commits[c].caller.value].op == st.commits[c].op
  }

  ghost predicate Inv(st: System) {
    && GraphOk(st.commits, st.ref)
    && CallersKnown(st)
    && forall k :: 0 <= k < |st.calls| ==> CallOk(st.commits, st.ref, k, st.calls[k])
  }

  ghost function HistoryOf(st: System): seq<Sha>
    requires Inv(st)
  {
    History(st.commits, st.ref)
  }

  // ----- the transitions

  ghost predicate Enabled(st: System, step: Step) {
    && (!step.Start? && !step.EnsureBranch? ==> step.k < |st.calls|)
    && match step
       case Start(_) => true
       case EnsureBranch => st.ref.None?
       case ReadHead(k, _) => st.calls[k].phase.Reading?
       case Build(k) => st.calls[k].phase.Building? && InGraph(st.commits, st.calls[k].phase.head)
       case Update(k) => st.calls[k].phase.Updating?
       case LoseReply(k) => st.calls[k].phase.Updating?
       case Fail(k) => st.calls[k].phase.Reading? || st.calls[k].phase.Building? || st.calls[k].phase.Updating?
  }

  function SetPhase(st: System, k: nat, phase: Phase): System
    requires k < |st.calls|
  {
    st.(calls := st.calls[k := st.calls[k].(phase := phase)])
  }

  function NewCommit(commits: seq<Commit>, head: Option<Sha>, op: Op, caller: Option<nat>): Commit
    requires InGraph(commits, head)
  {
    Commit(Land(BaseTree(commits, head), op), head, op, caller)
  }

  ghost function Apply(st: System, step: Step): System
    requires Inv(st) && Enabled(st, step)
  {
    match step
    case Start(op) => st.(calls := st.calls + [Call(op, 1, Reading, |HistoryOf(st)|, 0)])
    case EnsureBranch =>
      System(st.commits + [NewCommit(st.commits, None, Ensure, None)], Some(|st.commits|), st.calls)
    case ReadHead(k, ok) =>
      if ok then SetPhase(st, k, Building(st.ref))
      else st.(calls := st.calls[k := st.calls[k].(phase := Building(None), blind := st.calls[k].blind + 1)])
    case Build(k) =>
      var head := st.calls[k].phase.head;
      SetPhase(st.(commits := st.commits + [NewCommit(st.commits, head, st.calls[k].op, Some(k))]),
               k, Updating(head, |st.commits|))
    case Update(k) =>
      var Updating(head, proposal) := st.calls[k].phase;
      assert CallOk(st.commits, st.ref, k, st.calls[k]);
      if RemoteAccepts(st.commits, st.ref, head, proposal) then
        SetPhase(st.(ref := Some(proposal)), k, Returned)
      else if st.calls[k].attempt == COMMIT_MAX_ATTEMPTS then
        SetPhase(st, k, GaveUp)
      else
        st.(calls := st.calls[k := st.calls[k].(phase := Reading, attempt := st.calls[k].attempt + 1)])
    case LoseReply(k) =>
      var Updating(head, proposal) := st.calls[k].phase;
      assert CallOk(st.commits, st.ref, k, st.calls[k]);
      if RemoteAccepts(st.commits, st.ref, head, proposal) then
        SetPhase(st.(ref := Some(proposal)), k, Crashed)
      else
        SetPhase(st, k, Crashed)
    case Fail(k) => SetPhase(st, k, Crashed)
  }

  // ----- compare and swap

  /**
   A commit not yet on the branch, on a head that was once its tip, moves the ref
   forward just when the tip is that head still.
   */
  lemma FastForwardIsEquality(commits: seq<Commit>, ref: Option<Sha>, head: Option<Sha>, proposal: Sha)
    requires Acyclic(commits) && InGraph(commits, ref) && InGraph(commits, head) && proposal < |commits|
    requires commits[proposal].parent == head
    requires head.Some? ==> head.value in History(commits, ref)
    requires proposal !in History(commits, ref)
    ensures RemoteAccepts(commits, ref, head, proposal) <==> ref == head
  {
    if head.Some? {
      HistoryBounds(commits, head);
      HistoryBounds(commits, ref);
      assert History(commits, Some(proposal)) == History(commits, head) + [proposal];
    }
  }

  /**
   The fast-forward rule is a compare-and-swap: an update is accepted exactly when
   the ref is still what the call read, although no request carries that value.
   */
  lemma UpdateIsCompareAndSwap(st: System, k: nat)
    requires Inv(st) && k < |st.calls| && st.calls[k].phase.Updating?
    ensures var Updating(head, proposal) := st.calls[k].phase;
            && proposal < |st.commits|
            && (RemoteAccepts(st.commits, st.ref, head, proposal) <==> st.ref == head)
  {
    assert CallOk(st.commits, st.ref, k, st.calls[k]);
    ZeroMeansAbsent(st.commits, HistoryOf(st), k);
    FastForwardIsEquality(st.commits, st.ref, st.calls[k].phase.head, st.calls[k].phase.proposal);
  }

  /** A call whose update finds another head retries after its first four attempts and throws after the fifth. */
  lemma RejectionCounts(st: System, k: nat)
    requires Inv(st) && Enabled(st, Update(k)) && st.ref != st.calls[k].phase.head
    ensures var call, next := st.calls[k], Apply(st, Update(k));
            && 1 <= call.attempt <= 5 && next.ref == st.ref && next.commits == st.commits
            && next.calls[k].phase == (if call.attempt < 5 then Reading else GaveUp)
            && next.calls[k].attempt == (if call.attempt < 5 then call.attempt + 1 else 5)
  {
    assert CallOk(st.commits, st.ref, k, st.calls[k]);
    UpdateIsCompareAndSwap(st, k);
  }

  /**
   What a call can do next, and what it then is: a failed read counts as a missing
   branch; the commit is built on what was read; a lost reply leaves the remote as the
   reply would have and ends the call; whatever a call is at, it may fail.
   */
  lemma LifeOfACall(st: System, k: nat, ok: bool)
    requires Inv(st) && k < |st.calls|
    ensures var c := st.calls[k];
            && (Enabled(st, ReadHead(k, ok)) <==> c.phase.Reading?)
            && (c.phase.Reading? ==>
                  Apply(st, ReadHead(k, ok)) ==
                  st.(calls := st.calls[k := if ok then c.(phase := Building(st.ref))
                                             else c.(phase := Building(None), blind := c.blind + 1)]))
            && (Enabled(st, Build(k)) <==> c.phase.Building?)
            && (c.phase.Building? ==>
                  var head := c.phase.head;
                  && (head.Some? ==> head.value < |st.commits|)
                  && var base := if head.None? then map[] else st.commits[head.value].tree;
                  Apply(st, Build(k)) ==
                  System(st.commits + [Commit(Land(base, c.op), head, c.op, Some(k))], st.ref,
                         st.calls[k := c.(phase := Updating(head, |st.commits|))]))
            && (Enabled(st, Fail(k)) <==> c.phase.Reading? || c.phase.Building? || c.phase.Updating?)
            && (Enabled(st, Fail(k)) ==> Apply(st, Fail(k)) == st.(calls := st.calls[k := c.(phase := Crashed)]))
  {
    assert CallOk(st.commits, st.ref, k, st.calls[k]);
  }

  /** How a call lands its commit, with and without the reply. */
  lemma LandingOfACall(st: System, k: nat)
    requires Inv(st) && k < |st.calls|
    ensures var c := st.calls[k];
            && (Enabled(st, Update(k)) <==> c.phase.Updating?) && (Enabled(st, LoseReply(k)) <==> c.phase.Updating?)
            && (c.phase.Updating? ==>
                  && (st.ref == c.phase.head ==>
                        Apply(st, Update(k)) ==
                        System(st.commits, Some(c.phase.proposal), st.calls[k := c.(phase := Returned)]))
                  && Apply(st, LoseReply(k)) ==
                     System(st.commits, if st.ref == c.phase.head then Some(c.phase.proposal) else st.ref,
                            st.calls[k := c.(phase := Crashed)]))
  {
    if st.calls[k].phase.Updating? {
      UpdateIsCompareAndSwap(st, k);
    }
  }

  /** A call may begin at any time; the branch is created only while there is none. */
  lemma AroundTheCalls(st: System, op: Op)
    requires Inv(st)
    ensures Enabled(st, Start(op))
    ensures Apply(st, Start(op)) == st.(calls := st.calls + [Call(op, 1, Reading, |HistoryOf(st)|, 0)])
    ensures Enabled(st, EnsureBranch) <==> st.ref.None?
    ensures st.ref.None? ==>
              Apply(st, EnsureBranch) ==
              System(st.commits + [Commit(Land(map[], Ensure), None, Ensure, None)], Some(|st.commits|), st.calls)
  {
  }

  // ----- every step keeps the invariant

  lemma CommitKeepsGraph(commits: seq<Commit>, ref: Option<Sha>, head: Option<Sha>, op: Op, caller: Option<nat>)
    requires GraphOk(commits, ref) && InGraph(commits, head)
    ensures GraphOk(commits + [NewCommit(commits, head, op, caller)], ref)
  {
    var commits' := commits + [NewCommit(commits, head, op, caller)];
    forall c | 0 <= c < |commits'| ensures TreeOk(commits', c) {
      if c < |commits| {
        assert TreeOk(commits, c);
      }
    }
  }

  lemma CommitKeepsCall(commits: seq<Commit>, ref: Option<Sha>, extra: Commit, k: nat, call: Call)
    requires GraphOk(commits, ref) && GraphOk(commits + [extra], ref)
    requires CallOk(commits, ref, k, call)
    ensures CallOk(commits + [extra], ref, k, call)
    ensures History(commits + [extra], ref) == History(commits, ref)
  {
    HistoryIsStable(commits, extra, ref);
    HistoryBounds(commits, ref);
    CommitsByIsStable(commits, extra, History(commits, ref), k);
    if call.phase.Building? || call.phase.Updating? {
      HistoryIsStable(commits, extra, call.phase.head);
    }
  }

  lemma MoveKeepsCall(commits: seq<Commit>, ref: Option<Sha>, next: Sha, k: nat, call: Call)
    requires GraphOk(commits, ref) && GraphOk(commits, Some(next))
    requires commits[next].parent == ref && commits[next].caller != Some(k)
    requires CallOk(commits, ref, k, call)
    ensures CallOk(commits, Some(next), k, call)
  {
    assert History(commits, Some(next))[..|History(commits, Some(next))| - 1] == History(commits, ref);
  }

  /** A rejected update has seen the branch grow, unless its own read had failed. */
  lemma RejectionIsPaidFor(st: System, k: nat)
    requires Inv(st) && k < |st.calls| && st.calls[k].phase.Updating? && st.ref != st.calls[k].phase.head
    ensures Grown(|HistoryOf(st)|, st.calls[k], st.calls[k].attempt)
  {
    var call := st.calls[k];
    assert CallOk(st.commits, st.ref, k, call);
    var head := call.phase.head;
    if head.Some? {
      AncestorIsPrefix(st.commits, head.value, st.ref);
      assert History(st.commits, head)[|History(st.commits, head)| - 1] == head.value;
      assert HistoryOf(st)[|HistoryOf(st)| - 1] == st.ref.value;
    }
  }

  lemma CallChangeKeepsInv(st: System, k: nat, call: Call)
    requires Inv(st) && k < |st.calls| && call.op == st.calls[k].op
    requires CallOk(st.commits, st.ref, k, call)
    ensures Inv(st.(calls := st.calls[k := call]))
  {
  }

  lemma {:induction false} UnknownCallerHasNone(commits: seq<Commit>, history: seq<Sha>, k: nat)
    requires forall c :: 0 <= c < |commits| ==> commits[c].caller != Some(k)
    ensures CommitsBy(commits, history, k) == 0
  {
    if history != [] {
      UnknownCallerHasNone(commits, history[..|history| - 1], k);
    }
  }

  lemma StartKeepsInv(st: System, op: Op)
    requires Inv(st)
    ensures Inv(Apply(st, Start(op)))
  {
    var st' := Apply(st, Start(op));
    var k := |st.calls|;
    UnknownCallerHasNone(st.commits, HistoryOf(st), k);
    forall j | 0 <= j < |st'.calls| ensures CallOk(st'.commits, st'.ref, j, st'.calls[j]) {
      if j < k {
        assert CallOk(st.commits, st.ref, j, st.calls[j]);
      }
    }
  }

  lemma EnsureKeepsInv(st: System)
    requires Inv(st) && Enabled(st, EnsureBranch)
    ensures Inv(Apply(st, EnsureBranch))
  {
    var st' := Apply(st, EnsureBranch);
    CommitKeepsGraph(st.commits, st.ref, None, Ensure, None);
    forall j | 0 <= j < |st.calls| ensures CallOk(st'.commits, st'.ref, j, st'.calls[j]) {
      assert CallOk(st.commits, st.ref, j, st.calls[j]);
      CommitKeepsCall(st.commits, st.ref, NewCommit(st.commits, None, Ensure, None), j, st.calls[j]);
      MoveKeepsCall(st'.commits, st.ref, |st.commits|, j, st.calls[j]);
    }
  }

  lemma BuildKeepsInv(st: System, k: nat)
    requires Inv(st) && Enabled(st, Build(k))
    ensures Inv(Apply(st, Build(k)))
  {
    var head := st.calls[k].phase.head;
    var extra := NewCommit(st.commits, head, st.calls[k].op, Some(k));
    var mid := st.(commits := st.commits + [extra]);
    CommitKeepsGraph(st.commits, st.ref, head, st.calls[k].op, Some(k));
    forall j | 0 <= j < |st.calls| ensures CallOk(mid.commits, mid.ref, j, mid.calls[j]) {
      assert CallOk(st.commits, st.ref, j, st.calls[j]);
      CommitKeepsCall(st.commits, st.ref, extra, j, st.calls[j]);
    }
    CallChangeKeepsInv(mid, k, st.calls[k].(phase := Updating(head, |st.commits|)));
  }

  lemma AcceptedCallOk(st: System, k: nat, outcome: Phase)
    requires Inv(st) && Enabled(st, Update(k)) && st.ref == st.calls[k].phase.head
    requires outcome == Returned || outcome == Crashed
    ensures var proposal := st.calls[k].phase.proposal;
            && proposal < |st.commits| && st.commits[proposal].parent == st.ref
            && st.commits[proposal].caller == Some(k)
            && GraphOk(st.commits, Some(proposal))
            && CallOk(st.commits, Some(proposal), k, st.calls[k].(phase := outcome))
  {
    assert CallOk(st.commits, st.ref, k, st.calls[k]);
    var proposal := st.calls[k].phase.proposal;
    assert History(st.commits, Some(proposal))[..|History(st.commits, Some(proposal))| - 1] == HistoryOf(st);
  }

  lemma AcceptKeepsInv(st: System, k: nat, outcome: Phase)
    requires Inv(st) && Enabled(st, Update(k)) && st.ref == st.calls[k].phase.head
    requires outcome == Returned || outcome == Crashed
    ensures Inv(SetPhase(st.(ref := Some(st.calls[k].phase.proposal)), k, outcome))
  {
    var proposal := st.calls[k].phase.proposal;
    AcceptedCallOk(st, k, outcome);
    forall j | 0 <= j < |st.calls| && j != k ensures CallOk(st.commits, Some(proposal), j, st.calls[j]) {
      assert CallOk(st.commits, st.ref, j, st.calls[j]);
      MoveKeepsCall(st.commits, st.ref, proposal, j, st.calls[j]);
    }
  }

  lemma RejectKeepsInv(st: System, k: nat)
    requires Inv(st) && Enabled(st, Update(k)) && st.ref != st.calls[k].phase.head
    ensures var call := st.calls[k];
            if call.attempt == COMMIT_MAX_ATTEMPTS then Inv(SetPhase(st, k, GaveUp))
            else Inv(st.(calls := st.calls[k := call.(phase := Reading, attempt := call.attempt + 1)]))
  {
    var call := st.calls[k];
    assert CallOk(st.commits, st.ref, k, call);
    RejectionIsPaidFor(st, k);
    if call.attempt == COMMIT_MAX_ATTEMPTS {
      CallChangeKeepsInv(st, k, call.(phase := GaveUp));
    } else {
      CallChangeKeepsInv(st, k, call.(phase := Reading, attempt := call.attempt + 1));
    }
  }

  lemma CrashKeepsInv(st: System, k: nat)
    requires Inv(st) && Enabled(st, Fail(k))
    ensures Inv(SetPhase(st, k, Crashed))
  {
    assert CallOk(st.commits, st.ref, k, st.calls[k]);
    CallChangeKeepsInv(st, k, st.calls[k].(phase := Crashed));
  }

  lemma UpdateKeepsInv(st: System, k: nat)
    requires Inv(st) && Enabled(st, Update(k))
    ensures Inv(Apply(st, Update(k)))
  {
    UpdateIsCompareAndSwap(st, k);
    if st.ref == st.calls[k].phase.head {
      AcceptKeepsInv(st, k, Returned);
    } else {
      RejectKeepsInv(st, k);
    }
  }

  lemma LoseReplyKeepsInv(st: System, k: nat)
    requires Inv(st) && Enabled(st, LoseReply(k))
    ensures Inv(Apply(st, LoseReply(k)))
  {
    UpdateIsCompareAndSwap(st, k);
    if st.ref == st.calls[k].phase.head {
      AcceptKeepsInv(st, k, Crashed);
    } else {
      CrashKeepsInv(st, k);
    }
  }

  lemma ReadHeadKeepsInv(st: System, k: nat, ok: bool)
    requires Inv(st) && Enabled(st, ReadHead(k, ok))
    ensures Inv(Apply(st, ReadHead(k, ok)))
  {
    var call := st.calls[k];
    assert CallOk(st.commits, st.ref, k, call);
    if st.ref.Some? {
      assert HistoryOf(st)[|HistoryOf(st)| - 1] == st.ref.value;
    }
    CallChangeKeepsInv(st, k, if ok then call.(phase := Building(st.ref))
                              else call.(phase := Building(None), blind := call.blind + 1));
  }

  lemma StepKeepsInv(st: System, step: Step)
    requires Inv(st) && Enabled(st, step)
    ensures Inv(Apply(st, step))
  {
    match step
    case Start(op) => StartKeepsInv(st, op);
    case EnsureBranch => EnsureKeepsInv(st);
    case Build(k) => BuildKeepsInv(st, k);
    case Update(k) => UpdateKeepsInv(st, k);
    case LoseReply(k) => LoseReplyKeepsInv(st, k);
    case ReadHead(k, ok) => ReadHeadKeepsInv(st, k, ok);
    case Fail(k) => CrashKeepsInv(st, k);
  }

  // ----- runs

  /** Every step of the run is enabled where it is taken. */
  ghost predicate Runs(st: System, steps: seq<Step>)
    requires Inv(st)
    decreases |steps|
  {
    steps == [] || (Enabled(st, steps[0]) && (StepKeepsInv(st, steps[0]); Runs(Apply(st, steps[0]), steps[1..])))
  }

  ghost function After(st: System, steps: seq<Step>): (end: System)
    requires Inv(st) && Runs(st, steps)
    ensures Inv(end)
    decreases |steps|
  {
    if steps == [] then st else (StepKeepsInv(st, steps[0]); After(Apply(st, steps[0]), steps[1..]))
  }

  ghost function OpsOf(commits: seq<Commit>, history: seq<Sha>): (ops: seq<Op>)
    requires forall i :: 0 <= i < |history| ==> history[i] < |commits|
    ensures |ops| == |history|
    ensures forall i :: 0 <= i < |ops| ==> ops[i] == commits[history[i]].op
  {
    seq(|history|, i requires 0 <= i < |history| => commits[history[i]].op)
  }

  /** The accepted commits, oldest first: what the branch has been asked to do. */
  ghost function Accepted(st: System): seq<Op>
    requires Inv(st)
  {
    HistoryBounds(st.commits, st.ref);
    OpsOf(st.commits, HistoryOf(st))
  }

  ghost function HeadTree(st: System): Tree
    requires Inv(st)
  {
    BaseTree(st.commits, st.ref)
  }

  lemma OpsSnoc(commits: seq<Commit>, history: seq<Sha>, c: Sha)
    requires c < |commits| && forall i :: 0 <= i < |history| ==> history[i] < |commits|
    ensures OpsOf(commits, history + [c]) == OpsOf(commits, history) + [commits[c].op]
  {
  }

  lemma {:induction false} TreeIsReplay(commits: seq<Commit>, ref: Option<Sha>, head: Option<Sha>)
    requires GraphOk(commits, ref) && InGraph(commits, head)
    requires forall i :: 0 <= i < |History(commits, head)| ==> History(commits, head)[i] < |commits|
    ensures BaseTree(commits, head) == Replay(OpsOf(commits, History(commits, head)))
    decreases if head.Some? then head.value + 1 else 0
  {
    if head.Some? {
      var parent := commits[head.value].parent;
      HistoryBounds(commits, parent);
      assert TreeOk(commits, head.value);
      TreeIsReplay(commits, ref, parent);
      OpsSnoc(commits, History(commits, parent), head.value);
      ReplaySnoc(OpsOf(commits, History(commits, parent)), commits[head.value].op);
    }
  }

  lemma HeadIsReplay(st: System)
    requires Inv(st)
    ensures HeadTree(st) == Replay(Accepted(st))
  {
    HistoryBounds(st.commits, st.ref);
    TreeIsReplay(st.commits, st.ref, st.ref);
  }

  /**
   Whatever the interleaving, the branch is one linear chain and its tree is the
   accepted commits applied one after the other: the concurrent protocol refines
   an atomic branch that takes one whole commit at a time.
   */
  lemma BranchIsLinear(steps: seq<Step>)
    requires Runs(EMPTY_REMOTE, steps)
    ensures var st := After(EMPTY_REMOTE, steps);
            HeadTree(st) == Replay(Accepted(st))
  {
    HeadIsReplay(After(EMPTY_REMOTE, steps));
  }

  /** In every reachable state each shard's cache is the last one accepted for that shard. */
  lemma NoLostShardState(steps: seq<Step>, shard: string, i: int)
    requires Runs(EMPTY_REMOTE, steps)
    requires -1 <= i < |Accepted(After(EMPTY_REMOTE, steps))|
    requires i >= 0 ==> SavesState(Accepted(After(EMPTY_REMOTE, steps))[i], shard)
    requires var log := Accepted(After(EMPTY_REMOTE, steps));
             forall j :: i < j < |log| ==> !SavesState(log[j], shard)
    ensures var st := After(EMPTY_REMOTE, steps);
            if i < 0 then IncrementalFile(shard) !in HeadTree(st)
            else IncrementalFile(shard) in HeadTree(st)
                 && HeadTree(st)[IncrementalFile(shard)] == CacheBytes(Accepted(st)[i].bytes)
  {
    BranchIsLinear(steps);
    CacheIsLastSaved(Accepted(After(EMPTY_REMOTE, steps)), shard, i);
  }

  /** What a step lays on the branch: the operation of the call whose update finds the head it had read, or nothing. */
  ghost function Landing(st: System, step: Step): Option<Op>
    requires Inv(st) && Enabled(st, step)
  {
    match step
    case EnsureBranch => Some(Ensure)
    case Update(k) => if st.ref == st.calls[k].phase.head then Some(st.calls[k].op) else None
    case LoseReply(k) => if st.ref == st.calls[k].phase.head then Some(st.calls[k].op) else None
    case _ => None
  }

  /** The ref of `next` is that of `st`, or one commit of the landing operation further. */
  ghost predicate RefMoves(st: System, next: System, landing: Option<Op>)
    requires Inv(st) && Inv(next)
  {
    && st.commits <= next.commits && History(next.commits, st.ref) == HistoryOf(st)
    && if landing.None? then next.ref == st.ref
       else && next.ref.Some? && next.commits[next.ref.value].parent == st.ref
            && next.commits[next.ref.value].op == landing.value
  }

  lemma BuildMovesRef(st: System, step: Step)
    requires Inv(st) && Enabled(st, step) && (step.Build? || step.EnsureBranch?)
    ensures Inv(Apply(st, step)) && RefMoves(st, Apply(st, step), Landing(st, step))
  {
    StepKeepsInv(st, step);
    var commits' := Apply(st, step).commits;
    HistoryIsStable(st.commits, commits'[|st.commits|], st.ref);
  }

  lemma UpdateMovesRef(st: System, step: Step)
    requires Inv(st) && Enabled(st, step) && (step.Update? || step.LoseReply?)
    ensures Inv(Apply(st, step)) && RefMoves(st, Apply(st, step), Landing(st, step))
  {
    StepKeepsInv(st, step);
    UpdateIsCompareAndSwap(st, step.k);
    assert CallOk(st.commits, st.ref, step.k, st.calls[step.k]);
  }

  lemma StepMovesRef(st: System, step: Step)
    requires Inv(st) && Enabled(st, step)
    ensures Inv(Apply(st, step)) && RefMoves(st, Apply(st, step), Landing(st, step))
  {
    if step.Build? || step.EnsureBranch? {
      BuildMovesRef(st, step);
    } else if step.Update? || step.LoseReply? {
      UpdateMovesRef(st, step);
    } else {
      StepKeepsInv(st, step);
    }
  }

  lemma RefMoveExtends(st: System, next: System, landing: Option<Op>)
    requires Inv(st) && Inv(next) && RefMoves(st, next, landing)
    ensures HistoryOf(next) == HistoryOf(st) + (if landing.Some? then [next.ref.value] else [])
    ensures Accepted(next) == Accepted(st) + (if landing.Some? then [landing.value] else [])
  {
    HistoryBounds(st.commits, st.ref);
    HistoryBounds(next.commits, next.ref);
  }

  /** One step either leaves the branch alone or adds one commit on top of all the others. */
  lemma StepExtendsHistory(st: System, step: Step)
    requires Inv(st) && Enabled(st, step)
    ensures var next := Apply(st, step);
            && Inv(next) && HistoryOf(st) <= HistoryOf(next) && Accepted(st) <= Accepted(next)
            && |HistoryOf(next)| <= |HistoryOf(st)| + 1 && |Accepted(next)| <= |Accepted(st)| + 1
  {
    StepMovesRef(st, step);
    RefMoveExtends(st, Apply(st, step), Landing(st, step));
  }

  /**
   Each step refines an atomic branch: the update that finds the head its call had
   read adds that call's commit and lays its files over the tree, and every other
   step leaves the accepted commits and the tree as they are.
   */
  lemma StepIsAtomic(st: System, step: Step)
    requires Inv(st) && Enabled(st, step)
    ensures Inv(Apply(st, step))
    ensures var next, landing := Apply(st, step), Landing(st, step);
            if landing.Some?
            then Accepted(next) == Accepted(st) + [landing.value] && HeadTree(next) == Land(HeadTree(st), landing.value)
            else Accepted(next) == Accepted(st) && HeadTree(next) == HeadTree(st)
  {
    StepMovesRef(st, step);
    var next, landing := Apply(st, step), Landing(st, step);
    RefMoveExtends(st, next, landing);
    HeadIsReplay(st);
    HeadIsReplay(next);
    if landing.Some? {
      ReplaySnoc(Accepted(st), landing.value);
    }
  }

  lemma {:induction false} RunExtendsHistory(st: System, steps: seq<Step>)
    requires Inv(st) && Runs(st, steps)
    ensures HistoryOf(st) <= HistoryOf(After(st, steps))
    ensures Accepted(st) <= Accepted(After(st, steps))
    decreases |steps|
  {
    if steps != [] {
      StepExtendsHistory(st, steps[0]);
      RunExtendsHistory(Apply(st, steps[0]), steps[1..]);
    }
  }

  lemma StepKeepsCall(st: System, step: Step, k: nat)
    requires Inv(st) && Enabled(st, step) && k < |st.calls|
    ensures k < |Apply(st, step).calls| && Apply(st, step).calls[k].began == st.calls[k].began
  {
  }

  lemma {:induction false} CallsPersist(st: System, steps: seq<Step>, k: nat)
    requires Inv(st) && Runs(st, steps) && k < |st.calls|
    ensures k < |After(st, steps).calls| && After(st, steps).calls[k].began == st.calls[k].began
    decreases |steps|
  {
    if steps != [] {
      StepKeepsInv(st, steps[0]);
      StepKeepsCall(st, steps[0], k);
      CallsPersist(Apply(st, steps[0]), steps[1..], k);
    }
  }

  /**
   Exactly once. A call that returned has one commit on the branch; a call that
   threw a conflict has none, and so has a call that is still under way.
   */
  lemma ExactlyOnce(steps: seq<Step>, k: nat)
    requires Runs(EMPTY_REMOTE, steps) && k < |After(EMPTY_REMOTE, steps).calls|
    ensures var st := After(EMPTY_REMOTE, steps);
            var landed := CommitsBy(st.commits, HistoryOf(st), k);
            match st.calls[k].phase
            case Returned => landed == 1
            case Crashed => landed <= 1
            case _ => landed == 0
  {
    var st := After(EMPTY_REMOTE, steps);
    assert CallOk(st.commits, st.ref, k, st.calls[k]);
  }

  lemma GaveUpRivals(st: System, k: nat)
    requires Inv(st) && k < |st.calls| && st.calls[k].phase.GaveUp?
    requires st.calls[k].began <= |HistoryOf(st)|
    ensures var rivals := HistoryOf(st)[st.calls[k].began..];
            && |rivals| + st.calls[k].blind >= 5
            && (forall i, j :: 0 <= i < j < |rivals| ==> rivals[i] != rivals[j])
            && (forall i :: 0 <= i < |rivals| ==> rivals[i] < |st.commits| && st.commits[rivals[i]].caller != Some(k))
  {
    assert CallOk(st.commits, st.ref, k, st.calls[k]);
    HistoryBounds(st.commits, st.ref);
    ZeroMeansAbsent(st.commits, HistoryOf(st), k);
  }

  /**
   Lock-free progress. While a call that gave up was running, other callers had
   at least five commits accepted, less one for each read of the head that
   failed; they are distinct and none is the call's own.
   */
  lemma GivingUpMeansFiveRivals(before: seq<Step>, op: Op, during: seq<Step>)
    requires Runs(EMPTY_REMOTE, before)
    requires Runs(After(EMPTY_REMOTE, before), [Start(op)] + during)
    requires var k := |After(EMPTY_REMOTE, before).calls|;
             var st := After(After(EMPTY_REMOTE, before), [Start(op)] + during);
             k < |st.calls| && st.calls[k].phase.GaveUp?
    ensures var start := After(EMPTY_REMOTE, before);
            var st, k := After(start, [Start(op)] + during), |start.calls|;
            && HistoryOf(start) <= HistoryOf(st)
            && var rivals := HistoryOf(st)[|HistoryOf(start)|..];
            && |rivals| + st.calls[k].blind >= 5
            && (forall i, j :: 0 <= i < j < |rivals| ==> rivals[i] != rivals[j])
            && (forall i :: 0 <= i < |rivals| ==> rivals[i] < |st.commits| && st.commits[rivals[i]].caller != Some(k))
  {
    var start := After(EMPTY_REMOTE, before);
    assert ([Start(op)] + during)[1..] == during;
    StepExtendsHistory(start, Start(op));
    var begun := Apply(start, Start(op));
    RunExtendsHistory(begun, during);
    CallsPersist(begun, during, |start.calls|);
    GaveUpRivals(After(begun, during), |start.calls|);
  }
}
