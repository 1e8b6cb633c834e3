/**
 Validators can disagree on every disputed transaction: two runs over the same commits, one that forgets the
 earlier commits at once and one that keeps all commits as long as possible.
 */
module FinalityDisputes {
  import opened Types
  import opened Committee
  import opened BlockIndex
  import opened VoteLinks
  import opened Finality
  import opened FinalityBuffer
  import opened FinalityVotes
  import opened FinalityRuns
  import opened FinalityFates
  import opened FinalityAgreement

  // ---- Runs with the same votes throughout ----

  function Inputs(commits: seq<SubDag>, n: nat, local: bool, rejects: Stakes): (inputs: seq<Input>)
    requires n <= |commits|
    ensures |inputs| == n && forall k | 0 <= k < n :: inputs[k] == Input(commits[k].(local := local), rejects)
  {
    seq(n, k requires 0 <= k < n => Input(commits[k].(local := local), rejects))
  }

  lemma InputsPrefix(commits: seq<SubDag>, n: nat, k: nat, local: bool, rejects: Stakes)
    requires k <= n <= |commits|
    ensures Inputs(commits, n, local, rejects)[..k] == Inputs(commits, k, local, rejects)
  {}

  lemma InputsNext(commits: seq<SubDag>, n: nat, local: bool, rejects: Stakes)
    requires n < |commits|
    ensures Inputs(commits, n + 1, local, rejects) ==
            Inputs(commits, n, local, rejects) + [Input(commits[n].(local := local), rejects)]
  {}

  lemma SliceIsOrdered(commits: seq<SubDag>, own: seq<SubDag>, start: nat)
    requires IsCommitSequence(commits) && start + |own| <= |commits|
    requires forall k | 0 <= k < |own| :: SameCommit(own[k], commits[start + k])
    ensures Ordered(own) && Rising(own)
  {
    forall j | 0 <= j < |own| ensures Follows([], own[j].blocks) {
      assert SameCommit(own[j], commits[start + j]);
    }
    forall i, j | 0 <= i < j < |own|
      ensures Follows(own[i].blocks, own[j].blocks) && own[i].leader.round < own[j].leader.round
    {
      assert SameCommit(own[i], commits[start + i]) && SameCommit(own[j], commits[start + j]);
    }
  }

  ghost predicate KnowsAll(commits: seq<SubDag>, rejects: Stakes) {
    forall k | 0 <= k < |commits| :: References(commits[k].blocks) <= rejects.Keys
  }

  lemma PendingIs(own: seq<SubDag>, p: Popping, k: nat)
    requires Conserves(own, p) && k < |p.pending|
    ensures |p.outputs| + |p.pending| == |own| && p.pending[k].commit == own[|p.outputs| + k]
  {
    assert CommitsOf(p.pending)[k] == p.pending[k].commit;
  }

  /** What is pending, and the next commit, are commits in a row. */
  lemma PendingInRow(commits: seq<SubDag>, n: nat, local: bool, rejects: Stakes, p: Popping, k: nat)
    requires n < |commits| && Conserves(Commits(Inputs(commits, n, local, rejects)), p) && k <= |p.pending|
    ensures |p.outputs| + |p.pending| == n
    ensures SameCommit((CommitsOf(p.pending) + [commits[n].(local := local)])[k], commits[|p.outputs| + k])
  {
    if k < |p.pending| {
      PendingIs(Commits(Inputs(commits, n, local, rejects)), p, k);
    }
  }

  ghost predicate InRow(commits: seq<SubDag>, own: seq<SubDag>, start: nat) {
    start + |own| <= |commits| && forall k | 0 <= k < |own| :: SameCommit(own[k], commits[start + k])
  }

  lemma RowIsEnabled(commits: seq<SubDag>, rejects: Stakes, f: Finalizer, commit: SubDag, start: nat)
    requires IsCommitSequence(commits) && KnowsAll(commits, rejects) && commit.rejected == map[]
    requires InRow(commits, CommitsOf(f.pending) + [commit], start)
    ensures Enabled(f, rejects, Input(commit, rejects))
  {
    var own := CommitsOf(f.pending) + [commit];
    SliceIsOrdered(commits, own, start);
    forall k | 0 <= k < |f.pending| ensures RetainsFor(rejects, rejects, f.pending[k].commit) {
      assert f.pending[k].commit == own[k] && SameCommit(own[k], commits[start + k]);
    }
    assert own[|f.pending|] == commit && SameCommit(commit, commits[start + |f.pending|]);
  }

  lemma NextInput(commits: seq<SubDag>, n: nat, local: bool, rejects: Stakes, p: Popping)
    requires IsCommitSequence(commits) && KnowsAll(commits, rejects) && n < |commits|
    requires Conserves(Commits(Inputs(commits, n, local, rejects)), p)
    ensures Enabled(Finalizer(p.pending, p.links), rejects, Input(commits[n].(local := local), rejects))
    ensures n == 0 ==> p.pending == []
  {
    var commit := commits[n].(local := local);
    PendingInRow(commits, n, local, rejects, p, |p.pending|);
    forall k | 0 <= k <= |p.pending|
      ensures SameCommit((CommitsOf(p.pending) + [commit])[k], commits[|p.outputs| + k])
    {
      PendingInRow(commits, n, local, rejects, p, k);
    }
    RowIsEnabled(commits, rejects, Finalizer(p.pending, p.links), commit, |p.outputs|);
  }

  lemma InputIsEnabled(c: Committee, commits: seq<SubDag>, n: nat, local: bool, rejects: Stakes)
    requires IsCommitSequence(commits) && KnowsAll(commits, rejects) && n < |commits|
    requires IsRun(c, Inputs(commits, n, local, rejects))
    ensures var front := Inputs(commits, n, local, rejects); var p := Run(c, front);
            Enabled(Finalizer(p.pending, p.links), LastRejects(front), Input(commits[n].(local := local), rejects))
  {
    var front := Inputs(commits, n, local, rejects);
    RunConserves(c, front);
    NextInput(commits, n, local, rejects, Run(c, front));
    NoEarlierVotes(LastRejects(front), rejects, Run(c, front).pending, n);
  }

  /** With votes on all their blocks known, any commits in order make a run. */
  lemma {:induction false} InputsRun(c: Committee, commits: seq<SubDag>, n: nat, local: bool, rejects: Stakes)
    requires IsCommitSequence(commits) && KnowsAll(commits, rejects) && n <= |commits|
    ensures RunsOver(c, commits, Inputs(commits, n, local, rejects))
    decreases n
  {
    var inputs := Inputs(commits, n, local, rejects);
    assert forall k | 0 <= k < n :: SameCommit(inputs[k].commit, commits[k]);
    if n > 0 {
      InputsRun(c, commits, n - 1, local, rejects);
      InputsNext(commits, n - 1, local, rejects);
      InputIsEnabled(c, commits, n - 1, local, rejects);
      RunNext(c, Inputs(commits, n - 1, local, rejects), inputs[n - 1]);
    }
  }

  lemma NoEarlierVotes(earlier: Stakes, rejects: Stakes, pending: seq<CommitState>, n: nat)
    requires Retains(rejects, rejects, pending) && (n > 0 ==> earlier == rejects) && (n == 0 ==> pending == [])
    ensures Retains(earlier, rejects, pending)
  {}

  lemma BufferedIsRecent(own: seq<SubDag>, count: nat, pending: seq<CommitState>, i: nat)
    requires count <= i < |own| && CommitsOf(pending) == own[count..] && Recent(pending, own[|own| - 1].leader.round)
    ensures own[i].leader.round + INDIRECT_REJECT_DEPTH > own[|own| - 1].leader.round
  {
    assert CommitsOf(pending)[i - count] == own[i] == pending[i - count].commit;
  }

  lemma OldIsOut(own: seq<SubDag>, count: nat, pending: seq<CommitState>, i: nat)
    requires count <= |own| && CommitsOf(pending) == own[count..] && i < |own|
    requires Recent(pending, own[|own| - 1].leader.round)
    requires own[i].leader.round + INDIRECT_REJECT_DEPTH <= own[|own| - 1].leader.round
    ensures i < count
  {
    if count <= i {
      BufferedIsRecent(own, count, pending, i);
    }
  }

  /** A commit is out once a leader three rounds above is processed. */
  lemma OutByDeadline(c: Committee, inputs: seq<Input>, i: nat)
    requires IsRun(c, inputs) && i < |inputs|
    requires inputs[i].commit.leader.round + INDIRECT_REJECT_DEPTH <= inputs[|inputs| - 1].commit.leader.round
    ensures i < |Run(c, inputs).outputs|
  {
    var own := Commits(inputs);
    assert own[i] == inputs[i].commit && own[|own| - 1] == inputs[|inputs| - 1].commit;
    RunConserves(c, inputs);
    ConservedIsOut(own, Run(c, inputs), i);
  }

  lemma ConservedIsOut(own: seq<SubDag>, p: Popping, i: nat)
    requires Conserves(own, p) && i < |own|
    requires own[i].leader.round + INDIRECT_REJECT_DEPTH <= own[|own| - 1].leader.round
    ensures i < |p.outputs|
  {
    OldIsOut(own, |p.outputs|, p.pending, i);
  }

  // ---- Forgetting at once ----

  /** No block of the commit has reject votes short of a quorum. */
  ghost predicate Quiet(c: Committee, rejects: Stakes, commit: SubDag) {
    forall x | x in References(commit.blocks) :: Weak(c, rejects, x) == {}
  }

  lemma QuietDecides(c: Committee, rejects: Stakes, commit: SubDag)
    requires commit.local && Quiet(c, rejects, commit)
    ensures |Processed(c, Finalizer([], map[]), commit, rejects).outputs| == 1
  {
    var s := NewCommit(commit);
    var queue := [] + [s];
    assert queue[1..] == [];
    var direct := DirectPhase(c, rejects, commit.leader.round, queue);
    assert IsDecided(direct[0]) by {
      if s.pendingBlocks != {} {
        var weak := map r | r in s.pendingBlocks :: Weak(c, rejects, r);
        assert forall r | r in weak :: weak[r] == {};
        assert Tidy(weak) == map[];
      }
    }
    assert direct == [direct[0]];
  }

  lemma QuietGoes(c: Committee, q: Popping, input: Input)
    requires q.pending == [] && q.links == map[] && input.commit.local && Quiet(c, input.rejects, input.commit)
    ensures |Advanced(c, q, input).outputs| == |q.outputs| + 1
  {
    QuietDecides(c, input.rejects, input.commit);
  }

  lemma {:induction false} QuietCommitsGo(c: Committee, commits: seq<SubDag>, n: nat, rejects: Stakes)
    requires IsCommitSequence(commits) && KnowsAll(commits, rejects) && n <= |commits|
    requires forall k | 0 <= k < n :: Quiet(c, rejects, commits[k])
    ensures |Run(c, Inputs(commits, n, true, rejects)).outputs| == n
    decreases n
  {
    if n > 0 {
      var front := Inputs(commits, n - 1, true, rejects);
      QuietCommitsGo(c, commits, n - 1, rejects);
      InputsNext(commits, n - 1, true, rejects);
      InputsRun(c, commits, n - 1, true, rejects);
      EmptyBuffer(c, front);
      QuietGoes(c, Run(c, front), Input(commits[n - 1].(local := true), rejects));
      RunNext(c, front, Input(commits[n - 1].(local := true), rejects));
    }
  }

  lemma EmptyBuffer(c: Committee, inputs: seq<Input>)
    requires IsRun(c, inputs) && |Run(c, inputs).outputs| == |inputs|
    ensures Finalizer(Run(c, inputs).pending, Run(c, inputs).links) == Finalizer([], map[])
  {
    RunConserves(c, inputs);
    var p := Run(c, inputs);
    assert |CommitsOf(p.pending)| == 0;
    assert p.links.Keys == {};
  }

  // ---- Keeping as long as possible ----

  ghost predicate AllRemote(pending: seq<CommitState>) {
    forall i | 0 <= i < |pending| :: !pending[i].commit.local
  }

  /** Remote commits too recent for direct finalization have not been through it. */
  ghost predicate Waiting(pending: seq<CommitState>, latest: Round) {
    forall i | 0 <= i < |pending| :: pending[i].commit.leader.round + WAVE_LENGTH > latest ==>
      pending[i].pendingBlocks != {}
  }

  ghost predicate AllOld(outputs: seq<SubDag>, latest: Round) {
    forall i | 0 <= i < |outputs| :: outputs[i].leader.round + WAVE_LENGTH <= latest
  }

  lemma {:induction false} DirectWaits(c: Committee, rejects: Stakes, latest: Round, pending: seq<CommitState>)
    requires AllRemote(pending) && forall i | 0 <= i < |pending| :: pending[i].pendingBlocks != {}
    ensures Waiting(DirectPhase(c, rejects, latest, pending), latest)
    decreases |pending|
  {
    if pending != [] && !MustWait(pending[0], latest) {
      DirectWaits(c, rejects, latest, pending[1..]);
    }
  }

  lemma {:induction false} PoppedOld(pending: seq<CommitState>, links: Links, latest: Round)
    requires Waiting(pending, latest)
    ensures AllOld(Popped(pending, links).outputs, latest) && Waiting(Popped(pending, links).pending, latest)
    decreases |pending|
  {
    if pending != [] && IsDecided(pending[0]) {
      PoppedOld(pending[1..], links - References(pending[0].commit.blocks), latest);
    }
  }

  lemma OldTurn(pending: seq<CommitState>, first: CommitState, links: Links, latest: Round)
    requires Waiting(pending, latest) && |pending| > 1 && pending[0].pendingBlocks == {} == first.pendingBlocks
    requires first.commit == pending[0].commit && pending[|pending| - 1].commit.leader.round == latest
    ensures var p := Popped([first] + pending[1..], links);
            && AllOld(p.outputs, latest) && Waiting(p.pending, latest)
            && (p.pending != [] ==> p.pending[|p.pending| - 1].commit.leader.round == latest)
  {
    var q := [first] + pending[1..];
    assert Waiting(q, latest) by {
      assert forall i | 0 < i < |q| :: q[i] == pending[i];
    }
    PoppedOld(q, links, latest);
  }

  lemma OldConcat(a: seq<SubDag>, b: seq<SubDag>, latest: Round)
    requires AllOld(a, latest) && AllOld(b, latest)
    ensures AllOld(a + b, latest)
  {}

  /** A turn in terms of its result only. */
  lemma OldTurnResult(c: Committee, rejects: Stakes, pending: seq<CommitState>, links: Links, latest: Round)
    returns (p: Popping)
    requires Waiting(pending, latest) && |pending| > 1 && pending[0].pendingBlocks == {}
    requires pending[|pending| - 1].commit.leader.round == latest
    ensures AllOld(p.outputs, latest) && Waiting(p.pending, latest) && (p.outputs != [] ==> |p.pending| < |pending|)
    ensures p.pending != [] ==> p.pending[|p.pending| - 1].commit.leader.round == latest
    ensures IndirectPhase(c, rejects, pending, links) ==
            if p.outputs == [] then p
            else var rest := IndirectPhase(c, rejects, p.pending, p.links); rest.(outputs := p.outputs + rest.outputs)
  {
    var first := IndirectlyFinalized(c, rejects, links, latest, pending[0]);
    assert first.pendingBlocks == {} && first.commit == pending[0].commit;
    OldTurn(pending, first, links, latest);
    p := Popped([first] + pending[1..], links);
  }

  ghost predicate OldAfter(p: Popping, latest: Round) {
    AllOld(p.outputs, latest) && Waiting(p.pending, latest)
  }

  lemma {:induction false} IndirectOld(c: Committee, rejects: Stakes, pending: seq<CommitState>, links: Links,
      latest: Round)
    requires Waiting(pending, latest) && (pending != [] ==> pending[|pending| - 1].commit.leader.round == latest)
    ensures OldAfter(IndirectPhase(c, rejects, pending, links), latest)
    decreases |pending|, 0
  {
    if |pending| > 1 && pending[0].pendingBlocks == {} {
      var p := OldTurnResult(c, rejects, pending, links, latest);
      if p.outputs != [] {
        OldRest(c, rejects, p, latest);
      }
    }
  }

  lemma {:induction false} OldRest(c: Committee, rejects: Stakes, p: Popping, latest: Round)
    requires OldAfter(p, latest) && (p.pending != [] ==> p.pending[|p.pending| - 1].commit.leader.round == latest)
    ensures var rest := IndirectPhase(c, rejects, p.pending, p.links);
            OldAfter(rest.(outputs := p.outputs + rest.outputs), latest)
    decreases |p.pending|, 1
  {
    IndirectOld(c, rejects, p.pending, p.links, latest);
    OldConcat(p.outputs, IndirectPhase(c, rejects, p.pending, p.links).outputs, latest);
  }

  /** Every block has a reject vote short of a quorum. */
  ghost predicate Loud(c: Committee, rejects: Stakes, commit: SubDag) {
    commit.blocks != [] && forall x | x in References(commit.blocks) :: Weak(c, rejects, x) != {}
  }

  /** Nothing comes out in the direct part of a call. */
  lemma LoudStays(c: Committee, rejects: Stakes, latest: Round, queue: seq<CommitState>, links: Links)
    requires queue != [] && Sound(queue[0]) && queue[0].pendingBlocks != {} && Loud(c, rejects, queue[0].commit)
    ensures Popped(DirectPhase(c, rejects, latest, queue), links).outputs == []
  {
    var s := queue[0];
    if !MustWait(s, latest) {
      var x :| x in s.pendingBlocks;
      TidyOn(map r | r in s.pendingBlocks :: Weak(c, rejects, r), x);
      assert On(DirectlyFinalized(c, rejects, s).pendingTransactions, x) == Weak(c, rejects, x);
    }
  }

  /** Remote commits on which everything is contested. */
  ghost predicate LoudQueue(c: Committee, rejects: Stakes, queue: seq<CommitState>) {
    forall i {:trigger LoudAt(c, rejects, queue, i)} | 0 <= i < |queue| :: LoudAt(c, rejects, queue, i)
  }

  ghost predicate LoudAt(c: Committee, rejects: Stakes, queue: seq<CommitState>, i: nat)
    requires i < |queue|
  {
    Sound(queue[i]) && queue[i].pendingBlocks != {} && !queue[i].commit.local && Loud(c, rejects, queue[i].commit)
  }

  lemma LoudQueueNext(c: Committee, rejects: Stakes, pending: seq<CommitState>, commit: SubDag)
    requires LoudQueue(c, rejects, pending) && !commit.local && Loud(c, rejects, commit)
    ensures LoudQueue(c, rejects, pending + [NewCommit(commit)])
  {
    var queue := pending + [NewCommit(commit)];
    assert commit.blocks[0].reference in References(commit.blocks);
    forall i | 0 <= i < |queue| ensures LoudAt(c, rejects, queue, i) {
      assert i < |pending| ==> queue[i] == pending[i] && LoudAt(c, rejects, pending, i);
    }
  }

  /** What the direct part of a call leaves, with nothing out. */
  lemma DirectIsHeld(c: Committee, rejects: Stakes, latest: Round, queue: seq<CommitState>, links: Links)
    requires LoudQueue(c, rejects, queue) && queue != [] && queue[|queue| - 1].commit.leader.round == latest
    ensures var direct := Popped(DirectPhase(c, rejects, latest, queue), links);
            && direct.outputs == [] && direct.pending != [] && Waiting(direct.pending, latest)
            && direct.pending[|direct.pending| - 1].commit.leader.round == latest
  {
    forall i | 0 <= i < |queue| ensures queue[i].pendingBlocks != {} && !queue[i].commit.local {
      assert LoudAt(c, rejects, queue, i);
    }
    assert LoudAt(c, rejects, queue, 0);
    LoudStays(c, rejects, latest, queue, links);
    DirectWaits(c, rejects, latest, queue);
    DirectKeepsCommits(c, rejects, latest, queue);
    var direct := DirectPhase(c, rejects, latest, queue);
    assert CommitsOf(queue)[|queue| - 1] == CommitsOf(direct)[|queue| - 1];
  }

  lemma RestIsOld(c: Committee, f: Finalizer, commit: SubDag, rejects: Stakes, direct: Popping)
    requires direct == Popped(DirectPhase(c, rejects, commit.leader.round, f.pending + [NewCommit(commit)]), f.links)
    requires direct.outputs == [] && direct.pending != [] && Waiting(direct.pending, commit.leader.round)
    requires direct.pending[|direct.pending| - 1].commit.leader.round == commit.leader.round
    ensures OldAfter(Processed(c, f, commit, rejects), commit.leader.round)
  {
    IndirectOld(c, rejects, direct.pending, LinkCommit(direct.links, commit.blocks), commit.leader.round);
  }

  lemma LoudStep(c: Committee, f: Finalizer, commit: SubDag, rejects: Stakes)
    requires LoudQueue(c, rejects, f.pending) && !commit.local && Loud(c, rejects, commit)
    ensures OldAfter(Processed(c, f, commit, rejects), commit.leader.round)
    ensures var queue := f.pending + [NewCommit(commit)];
            Popped(DirectPhase(c, rejects, commit.leader.round, queue), f.links).outputs == []
  {
    var queue, latest := f.pending + [NewCommit(commit)], commit.leader.round;
    LoudQueueNext(c, rejects, f.pending, commit);
    DirectIsHeld(c, rejects, latest, queue, f.links);
    RestIsOld(c, f, commit, rejects, Popped(DirectPhase(c, rejects, latest, queue), f.links));
  }

  // ---- Every dispute shows ----

  ghost function QuietStakes(commits: seq<SubDag>, r: BlockRef, t: nat, weak: nat): Stakes {
    (map x | x in References(AllBlocks(commits)) :: map[])[r := map[t := weak]]
  }

  ghost function LoudStakes(commits: seq<SubDag>, r: BlockRef, t: nat, weak: nat): Stakes {
    (map x | x in References(AllBlocks(commits)) :: map[0 := weak])[r := map[t := weak]]
  }

  lemma AllKnown(commits: seq<SubDag>, rejects: Stakes)
    requires References(AllBlocks(commits)) <= rejects.Keys
    ensures KnowsAll(commits, rejects)
  {
    forall k | 0 <= k < |commits| ensures References(commits[k].blocks) <= rejects.Keys {
      forall b | b in commits[k].blocks ensures b.reference in References(AllBlocks(commits)) {
        InAllBlocks(commits, b);
      }
    }
  }

  /** What the disagreeing runs are about. */
  ghost predicate Stage(c: Committee, commits: seq<SubDag>, i: nat, d: nat, r: BlockRef, weak: nat) {
    && IsCommitSequence(commits) && (forall k | 0 <= k < |commits| :: commits[k].blocks != [])
    && i <= d < |commits| && IsDeadline(commits, i, d) && r in References(commits[i].blocks) && !c.ReachedQuorum(weak)
  }

  lemma InputsContest(c: Committee, commits: seq<SubDag>, i: nat, d: nat, r: BlockRef, t: nat, weak: nat, local: bool,
      rejects: Stakes)
    requires Stage(c, commits, i, d, r, weak) && References(AllBlocks(commits)) <= rejects.Keys && r in rejects
    requires rejects[r] == map[t := weak]
    ensures Contests(c, commits, Inputs(commits, d + 1, local, rejects), i, r, t)
  {
    AllKnown(commits, rejects);
    InputsRun(c, commits, d + 1, local, rejects);
    InputsOut(c, commits, i, d, local, rejects);
    InputsContested(c, commits, i, d, r, t, weak, local, rejects);
  }

  lemma InputsContested(c: Committee, commits: seq<SubDag>, i: nat, d: nat, r: BlockRef, t: nat, weak: nat, local: bool,
      rejects: Stakes)
    requires d < |commits| && r in rejects && rejects[r] == map[t := weak] && !c.ReachedQuorum(weak)
    ensures Contested(c, Inputs(commits, d + 1, local, rejects), i, r, t)
  {
    ContestedThroughout(c, Inputs(commits, d + 1, local, rejects), i, r, t, weak, rejects);
  }

  lemma ContestedThroughout(c: Committee, inputs: seq<Input>, i: nat, r: BlockRef, t: nat, weak: nat, rejects: Stakes)
    requires r in rejects && rejects[r] == map[t := weak] && !c.ReachedQuorum(weak)
    requires forall k | 0 <= k < |inputs| :: inputs[k].rejects == rejects
    ensures Contested(c, inputs, i, r, t)
  {}

  lemma InputsOut(c: Committee, commits: seq<SubDag>, i: nat, d: nat, local: bool, rejects: Stakes)
    requires i <= d < |commits| && IsDeadline(commits, i, d) && IsRun(c, Inputs(commits, d + 1, local, rejects))
    ensures i < |Run(c, Inputs(commits, d + 1, local, rejects)).outputs|
  {
    var inputs := Inputs(commits, d + 1, local, rejects);
    assert inputs[i].commit.leader == commits[i].leader && inputs[|inputs| - 1].commit.leader == commits[d].leader;
    OutByDeadline(c, inputs, i);
  }

  lemma OthersAreQuiet(c: Committee, commits: seq<SubDag>, i: nat, r: BlockRef, t: nat, weak: nat)
    requires IsCommitSequence(commits) && i < |commits| && r in References(commits[i].blocks)
    ensures forall k | 0 <= k < i :: Quiet(c, QuietStakes(commits, r, t, weak), commits[k])
  {
    var rejects := QuietStakes(commits, r, t, weak);
    AllKnown(commits, rejects);
    forall k | 0 <= k < i ensures Quiet(c, rejects, commits[k]) {
      assert Follows(commits[k].blocks, commits[i].blocks) && References(commits[k].blocks) <= rejects.Keys;
    }
  }

  lemma CountIs(c: Committee, inputs: seq<Input>, front: seq<Input>)
    requires front <= inputs
    ensures OutBefore(c, inputs, |front|) == |Run(c, front).outputs|
  {
    assert inputs[..|front|] == front;
  }

  /** With no vote on them, commits before `i` are gone when it comes. */
  lemma QuietStarts(c: Committee, commits: seq<SubDag>, i: nat, d: nat, rejects: Stakes, m: nat)
    requires IsCommitSequence(commits) && KnowsAll(commits, rejects) && i <= m <= d < |commits|
    requires forall k | 0 <= k < i :: Quiet(c, rejects, commits[k])
    ensures Starts(c, Inputs(commits, d + 1, true, rejects))[m] >= i
  {
    var inputs := Inputs(commits, d + 1, true, rejects);
    var front := Inputs(commits, i, true, rejects);
    QuietCommitsGo(c, commits, i, rejects);
    CountIs(c, inputs, front);
    OutputsRise(c, inputs, i, m);
    StartsBetween(c, inputs, m);
  }

  /** One validator does without the commits before `i`, and finalizes what is accepted on the narrowest linkage. */
  lemma QuietRun(c: Committee, commits: seq<SubDag>, i: nat, d: nat, r: BlockRef, t: nat, weak: nat)
    returns (inputs: seq<Input>)
    requires Stage(c, commits, i, d, r, weak) && AcceptedAt(c, Narrowest(commits, i), i, d, r, t)
    ensures Contests(c, commits, inputs, i, r, t) && !RejectedIn(c, inputs, i, r, t)
    ensures inputs == Inputs(commits, d + 1, true, QuietStakes(commits, r, t, weak))
  {
    var rejects := QuietStakes(commits, r, t, weak);
    inputs := Inputs(commits, d + 1, true, rejects);
    InputsContest(c, commits, i, d, r, t, weak, true, rejects);
    var j := ContestedFate(c, commits, inputs, i, r, t);
    if TimedOutAt(c, LinkageOf(c, inputs), i, j, r, t) {
      QuietAccepts(c, commits, i, d, j, r, t, weak);
    }
  }

  lemma QuietLinksLess(c: Committee, commits: seq<SubDag>, i: nat, d: nat, rejects: Stakes)
    requires IsCommitSequence(commits) && KnowsAll(commits, rejects) && i <= d < |commits|
    requires forall k | 0 <= k < i :: Quiet(c, rejects, commits[k])
    ensures LinksLess(LinkageOf(c, Inputs(commits, d + 1, true, rejects)), Narrowest(commits, i), i, d)
  {
    var inputs := Inputs(commits, d + 1, true, rejects);
    forall m | i <= m <= d ensures Starts(c, inputs)[m] >= i {
      QuietStarts(c, commits, i, d, rejects, m);
    }
  }

  lemma QuietAccepts(c: Committee, commits: seq<SubDag>, i: nat, d: nat, j: nat, r: BlockRef, t: nat, weak: nat)
    requires Stage(c, commits, i, d, r, weak) && AcceptedAt(c, Narrowest(commits, i), i, d, r, t)
    requires i <= j <= d && IsDeadline(commits, i, j)
    ensures AcceptedAt(c, LinkageOf(c, Inputs(commits, d + 1, true, QuietStakes(commits, r, t, weak))), i, j, r, t)
  {
    var rejects := QuietStakes(commits, r, t, weak);
    var inputs := Inputs(commits, d + 1, true, rejects);
    DeadlineIs(commits, i, d, j);
    OthersAreQuiet(c, commits, i, r, t, weak);
    AllKnown(commits, rejects);
    QuietLinksLess(c, commits, i, d, rejects);
    AcceptedLess(c, LinkageOf(c, inputs), Narrowest(commits, i), i, i, d, r, t);
  }

  lemma OthersAreLoud(c: Committee, commits: seq<SubDag>, r: BlockRef, t: nat, weak: nat, k: nat)
    requires k < |commits| && commits[k].blocks != [] && !c.ReachedQuorum(weak)
    ensures Loud(c, LoudStakes(commits, r, t, weak), commits[k])
  {
    var rejects := LoudStakes(commits, r, t, weak);
    forall x | x in References(commits[k].blocks) ensures Weak(c, rejects, x) != {} {
      var b :| b in commits[k].blocks && b.reference == x;
      InAllBlocks(commits, b);
      assert (if x == r then t else 0) in Weak(c, rejects, x);
    }
  }

  ghost predicate AllLoud(c: Committee, rejects: Stakes, own: seq<SubDag>) {
    forall k | 0 <= k < |own| :: !own[k].local && Loud(c, rejects, own[k])
  }

  lemma LoudBuffer(c: Committee, rejects: Stakes, own: seq<SubDag>, p: Popping)
    requires own != [] && Conserves(own, p) && Waiting(p.pending, own[|own| - 1].leader.round)
    requires AllLoud(c, rejects, own)
    ensures LoudQueue(c, rejects, p.pending)
  {
    forall q | 0 <= q < |p.pending|
      ensures Sound(p.pending[q]) && p.pending[q].pendingBlocks != {} && !p.pending[q].commit.local
      ensures Loud(c, rejects, p.pending[q].commit)
    {
      assert SoundAt(p.pending, q) && CommitsOf(p.pending)[q] == own[|p.outputs| + q] == p.pending[q].commit;
    }
  }

  lemma LastOutputIsOld(own: seq<SubDag>, earlier: seq<SubDag>, more: seq<SubDag>)
    requires own != [] && AreOutputsOf(earlier + more, own) && AllOld(more, own[|own| - 1].leader.round)
    requires earlier != [] ==> own[|earlier| - 1].leader.round + WAVE_LENGTH <= own[|own| - 1].leader.round
    ensures earlier + more != [] ==> own[|earlier + more| - 1].leader.round + WAVE_LENGTH <= own[|own| - 1].leader.round
  {
    if more != [] {
      var all := earlier + more;
      assert all[|all| - 1] == more[|more| - 1] && all[|all| - 1].leader == own[|all| - 1].leader;
    } else {
      assert earlier + more == earlier;
    }
  }

  /** The first output that is not yet due stays in, and nothing comes out before the new commit is linked. */
  ghost predicate HoldsOn(c: Committee, own: seq<SubDag>, rejects: Stakes, p: Popping) {
    && LoudQueue(c, rejects, p.pending) && Conserves(own, p)
    && (p.outputs != [] ==> own[|p.outputs| - 1].leader.round + WAVE_LENGTH <= own[|own| - 1].leader.round)
  }

  lemma EarlierIsOlder(own: seq<SubDag>, commit: SubDag, count: nat)
    requires Rising(own + [commit]) && 0 < count <= |own|
    requires own[count - 1].leader.round + WAVE_LENGTH <= own[|own| - 1].leader.round
    ensures (own + [commit])[count - 1].leader.round + WAVE_LENGTH <= commit.leader.round
  {
    var all := own + [commit];
    assert all[count - 1] == own[count - 1] && all[|own| - 1] == own[|own| - 1] && all[|own|] == commit;
  }

  lemma HoldsAfter(c: Committee, own: seq<SubDag>, rejects: Stakes, latest: Round, earlier: seq<SubDag>, p: Popping)
    requires own != [] && own[|own| - 1].leader.round == latest && Conserves(own, p.(outputs := earlier + p.outputs))
    requires AllOld(p.outputs, latest) && Waiting(p.pending, latest) && AllLoud(c, rejects, own)
    requires 0 < |earlier| <= |own| ==> own[|earlier| - 1].leader.round + WAVE_LENGTH <= latest
    ensures HoldsOn(c, own, rejects, p.(outputs := earlier + p.outputs))
  {
    LoudBuffer(c, rejects, own, p.(outputs := earlier + p.outputs));
    LastOutputIsOld(own, earlier, p.outputs);
  }

  lemma HoldsAfterStep(c: Committee, own: seq<SubDag>, commit: SubDag, rejects: Stakes, earlier: seq<SubDag>,
      p: Popping)
    requires Conserves(own + [commit], p.(outputs := earlier + p.outputs)) && Rising(own + [commit])
    requires OldAfter(p, commit.leader.round)
    requires AllLoud(c, rejects, own + [commit]) && |earlier| <= |own|
    requires earlier != [] ==> own[|earlier| - 1].leader.round + WAVE_LENGTH <= own[|own| - 1].leader.round
    ensures HoldsOn(c, own + [commit], rejects, p.(outputs := earlier + p.outputs))
  {
    if earlier != [] {
      EarlierIsOlder(own, commit, |earlier|);
    }
    HoldsAfter(c, own + [commit], rejects, commit.leader.round, earlier, p);
  }

  lemma LastIsLoud(c: Committee, rejects: Stakes, own: seq<SubDag>, commit: SubDag)
    requires AllLoud(c, rejects, own + [commit])
    ensures !commit.local && Loud(c, rejects, commit)
  {
    assert (own + [commit])[|own|] == commit;
  }

  lemma HoldsOnNext(c: Committee, own: seq<SubDag>, q: Popping, input: Input)
    requires HoldsOn(c, own, input.rejects, q) && Rising(own + [input.commit])
    requires AllLoud(c, input.rejects, own + [input.commit]) && Next(Finalizer(q.pending, q.links), input.commit)
    ensures HoldsOn(c, own + [input.commit], input.rejects, Advanced(c, q, input))
  {
    var p := HoldsStep(c, own, q, input);
    HoldsAfterStep(c, own, input.commit, input.rejects, q.outputs, p);
  }

  lemma StepConserves(c: Committee, own: seq<SubDag>, q: Popping, input: Input)
    requires Conserves(own, q) && Next(Finalizer(q.pending, q.links), input.commit)
    ensures var p := Processed(c, Finalizer(q.pending, q.links), input.commit, input.rejects);
            Conserves(own + [input.commit], p.(outputs := q.outputs + p.outputs))
  {
    AdvancedConserves(c, own, q, input);
  }

  /** The step itself, in terms of its result only. */
  lemma HoldsStep(c: Committee, own: seq<SubDag>, q: Popping, input: Input) returns (p: Popping)
    requires HoldsOn(c, own, input.rejects, q) && AllLoud(c, input.rejects, own + [input.commit])
    requires Next(Finalizer(q.pending, q.links), input.commit)
    ensures Advanced(c, q, input) == p.(outputs := q.outputs + p.outputs) && OldAfter(p, input.commit.leader.round)
    ensures Conserves(own + [input.commit], p.(outputs := q.outputs + p.outputs)) && |q.outputs| <= |own|
    ensures q.outputs != [] ==> own[|q.outputs| - 1].leader.round + WAVE_LENGTH <= own[|own| - 1].leader.round
  {
    p := Processed(c, Finalizer(q.pending, q.links), input.commit, input.rejects);
    HeldCount(c, own, input.rejects, q);
    LastIsLoud(c, input.rejects, own, input.commit);
    LoudStep(c, Finalizer(q.pending, q.links), input.commit, input.rejects);
    StepConserves(c, own, q, input);
  }

  lemma LoudStartAt(c: Committee, q: Popping, input: Input)
    requires LoudQueue(c, input.rejects, q.pending) && !input.commit.local && Loud(c, input.rejects, input.commit)
    ensures StartAt(c, q, input) == |q.outputs|
  {
    LoudStep(c, Finalizer(q.pending, q.links), input.commit, input.rejects);
  }

  lemma LoudInputs(c: Committee, commits: seq<SubDag>, n: nat, rejects: Stakes)
    requires n <= |commits| && IsCommitSequence(commits) && forall k | 0 <= k < n :: Loud(c, rejects, commits[k])
    ensures var own := Commits(Inputs(commits, n, false, rejects)); AllLoud(c, rejects, own) && Rising(own)
  {
    var own := Commits(Inputs(commits, n, false, rejects));
    assert forall k | 0 <= k < n :: own[k] == commits[k].(local := false);
  }

  lemma HoldsRunNext(c: Committee, front: seq<Input>, input: Input)
    requires HoldsOn(c, Commits(front), input.rejects, Run(c, front)) && Rising(Commits(front) + [input.commit])
    requires AllLoud(c, input.rejects, Commits(front) + [input.commit])
    requires Next(Finalizer(Run(c, front).pending, Run(c, front).links), input.commit)
    ensures HoldsOn(c, Commits(front) + [input.commit], input.rejects, Run(c, front + [input]))
  {
    HoldsOnNext(c, Commits(front), Run(c, front), input);
    RunNext(c, front, input);
  }

  /** A run on remote commits with everything contested holds on to what it can. */
  lemma {:induction false} LoudRunHolds(c: Committee, inputs: seq<Input>, rejects: Stakes)
    requires IsRun(c, inputs) && AllLoud(c, rejects, Commits(inputs)) && Rising(Commits(inputs))
    requires forall k | 0 <= k < |inputs| :: inputs[k].rejects == rejects
    ensures HoldsOn(c, Commits(inputs), rejects, Run(c, inputs))
    decreases |inputs|
  {
    if inputs == [] {
      assert Commits(inputs) == [] && Run(c, []) == Popping([], map[], []);
      StartConserves();
    } else {
      var n := |inputs| - 1;
      var front := inputs[..n];
      SplitLast(inputs);
      CommitsLast(inputs);
      LoudFront(c, rejects, Commits(front), inputs[n].commit);
      LoudRunHolds(c, front, rejects);
      HoldsRunNext(c, front, inputs[n]);
    }
  }

  lemma SplitLast<T>(s: seq<T>)
    requires s != []
    ensures s == s[..|s| - 1] + [s[|s| - 1]]
  {}

  lemma LoudFront(c: Committee, rejects: Stakes, own: seq<SubDag>, commit: SubDag)
    requires AllLoud(c, rejects, own + [commit]) && Rising(own + [commit])
    ensures AllLoud(c, rejects, own) && Rising(own)
  {
    assert forall k | 0 <= k < |own| :: (own + [commit])[k] == own[k];
  }

  lemma LoudInputsHold(c: Committee, commits: seq<SubDag>, m: nat, rejects: Stakes)
    requires m < |commits| && IsCommitSequence(commits) && KnowsAll(commits, rejects)
    requires forall k | 0 <= k < m :: Loud(c, rejects, commits[k])
    ensures var front := Inputs(commits, m, false, rejects); HoldsOn(c, Commits(front), rejects, Run(c, front))
  {
    LoudInputs(c, commits, m, rejects);
    InputsRun(c, commits, m, false, rejects);
    LoudRunHolds(c, Inputs(commits, m, false, rejects), rejects);
  }

  lemma HeldStart(c: Committee, own: seq<SubDag>, q: Popping, input: Input)
    requires HoldsOn(c, own, input.rejects, q) && !input.commit.local && Loud(c, input.rejects, input.commit)
    ensures StartAt(c, q, input) <= |own|
    ensures var n := StartAt(c, q, input);
            n > 0 ==> own[n - 1].leader.round + WAVE_LENGTH <= own[|own| - 1].leader.round
  {
    HeldCount(c, own, input.rejects, q);
    LoudStartAt(c, q, input);
  }

  lemma LeaderOfInput(commits: seq<SubDag>, m: nat, rejects: Stakes, k: nat)
    requires k < m <= |commits|
    ensures Commits(Inputs(commits, m, false, rejects))[k].leader == commits[k].leader
  {}

  lemma KeptFrom(commits: seq<SubDag>, m: nat, rejects: Stakes, n: nat)
    requires n <= m < |commits|
    requires var own := Commits(Inputs(commits, m, false, rejects));
             n > 0 ==> own[n - 1].leader.round + WAVE_LENGTH <= own[|own| - 1].leader.round
    ensures n <= FirstKept(commits, m, m)
  {
    if n > 0 {
      LeaderOfInput(commits, m, rejects, n - 1);
      LeaderOfInput(commits, m, rejects, m - 1);
    }
    KeptUp(commits, m, m, n);
  }

  lemma LoudStart(c: Committee, commits: seq<SubDag>, m: nat, q: Popping, input: Input)
    requires m < |commits| && !input.commit.local && Loud(c, input.rejects, input.commit)
    requires HoldsOn(c, Commits(Inputs(commits, m, false, input.rejects)), input.rejects, q)
    ensures StartAt(c, q, input) <= FirstKept(commits, m, m)
  {
    HeldStart(c, Commits(Inputs(commits, m, false, input.rejects)), q, input);
    KeptFrom(commits, m, input.rejects, StartAt(c, q, input));
  }

  /** With everything contested, every commit is linked as long as the buffer can keep it. */
  lemma LoudStarts(c: Committee, commits: seq<SubDag>, d: nat, rejects: Stakes, m: nat)
    requires m <= d < |commits| && IsCommitSequence(commits) && KnowsAll(commits, rejects)
    requires forall k | 0 <= k <= d :: Loud(c, rejects, commits[k])
    ensures Starts(c, Inputs(commits, d + 1, false, rejects))[m] <= FirstKept(commits, m, m)
  {
    var inputs, front := Inputs(commits, d + 1, false, rejects), Inputs(commits, m, false, rejects);
    InputsPrefix(commits, d + 1, m, false, rejects);
    StartIs(c, inputs, front);
    LoudInputsHold(c, commits, m, rejects);
    LoudStart(c, commits, m, Run(c, front), inputs[m]);
  }

  lemma StartIs(c: Committee, inputs: seq<Input>, front: seq<Input>)
    requires front < inputs
    ensures Starts(c, inputs)[|front|] == StartAt(c, Run(c, front), inputs[|front|])
  {
    assert inputs[..|front|] == front;
  }

  lemma HeldCount(c: Committee, own: seq<SubDag>, rejects: Stakes, p: Popping)
    requires HoldsOn(c, own, rejects, p)
    ensures LoudQueue(c, rejects, p.pending) && Conserves(own, p) && |p.outputs| <= |own|
    ensures p.outputs != [] ==> own[|p.outputs| - 1].leader.round + WAVE_LENGTH <= own[|own| - 1].leader.round
  {}

  lemma LoudLinksAll(c: Committee, commits: seq<SubDag>, d: nat, rejects: Stakes)
    requires d < |commits| && IsCommitSequence(commits) && KnowsAll(commits, rejects)
    requires forall k | 0 <= k <= d :: Loud(c, rejects, commits[k])
    ensures LinksLess(Widest(commits), LinkageOf(c, Inputs(commits, d + 1, false, rejects)), 0, d)
  {
    forall m | 0 <= m <= d
      ensures Starts(c, Inputs(commits, d + 1, false, rejects))[m] <= Widest(commits).starts[m]
    {
      LoudStarts(c, commits, d, rejects, m);
    }
  }

  /** Another validator keeps everything, and rejects what is not accepted on the widest linkage. */
  lemma LoudRun(c: Committee, commits: seq<SubDag>, i: nat, d: nat, r: BlockRef, t: nat, weak: nat)
    returns (inputs: seq<Input>)
    requires Stage(c, commits, i, d, r, weak) && !AcceptedAt(c, Widest(commits), i, d, r, t)
    ensures Contests(c, commits, inputs, i, r, t) && RejectedIn(c, inputs, i, r, t)
  {
    var rejects := LoudStakes(commits, r, t, weak);
    inputs := Inputs(commits, d + 1, false, rejects);
    InputsContest(c, commits, i, d, r, t, weak, false, rejects);
    var j := ContestedFate(c, commits, inputs, i, r, t);
    if IndirectlyFinalAt(c, LinkageOf(c, inputs), i, j, r, t) {
      LoudAccepts(c, commits, i, d, j, r, t, weak);
    }
  }

  lemma LoudAccepts(c: Committee, commits: seq<SubDag>, i: nat, d: nat, j: nat, r: BlockRef, t: nat, weak: nat)
    requires Stage(c, commits, i, d, r, weak) && i <= j <= d
    requires AcceptedAt(c, LinkageOf(c, Inputs(commits, d + 1, false, LoudStakes(commits, r, t, weak))), i, j, r, t)
    ensures AcceptedAt(c, Widest(commits), i, d, r, t)
  {
    var rejects := LoudStakes(commits, r, t, weak);
    var inputs := Inputs(commits, d + 1, false, rejects);
    AllKnown(commits, rejects);
    forall k | 0 <= k <= d ensures Loud(c, rejects, commits[k]) {
      OthersAreLoud(c, commits, r, t, weak, k);
    }
    LoudLinksAll(c, commits, d, rejects);
    AcceptedStays(c, LinkageOf(c, inputs), i, j, d, r, t);
    AcceptedLess(c, Widest(commits), LinkageOf(c, inputs), 0, i, d, r, t);
  }

  /** Any two validators with the transaction contested agree on it. */
  ghost predicate AllAgree(c: Committee, commits: seq<SubDag>, i: nat, r: BlockRef, t: nat) {
    forall inputs1, inputs2 | Contests(c, commits, inputs1, i, r, t) && Contests(c, commits, inputs2, i, r, t) ::
      RejectedIn(c, inputs1, i, r, t) <==> RejectedIn(c, inputs2, i, r, t)
  }

  /**
   All validators that process the same commits agree on a contested transaction if and only if it is undisputed,
   which can be read off the commits alone.
   */
  lemma FatesAgreeIff(c: Committee, commits: seq<SubDag>, i: nat, r: BlockRef, t: nat, weak: nat)
    requires IsCommitSequence(commits) && (forall k | 0 <= k < |commits| :: commits[k].blocks != [])
    requires i < |commits| && r in References(commits[i].blocks) && !c.ReachedQuorum(weak)
    ensures AllAgree(c, commits, i, r, t) <==> Undisputed(c, commits, i, r, t)
  {
    if Undisputed(c, commits, i, r, t) {
      forall inputs1, inputs2 | Contests(c, commits, inputs1, i, r, t) && Contests(c, commits, inputs2, i, r, t)
        ensures RejectedIn(c, inputs1, i, r, t) <==> RejectedIn(c, inputs2, i, r, t)
      {
        IndirectFatesAgree(c, commits, inputs1, inputs2, i, r, t);
      }
    } else {
      var d: nat :| i <= d < |commits| && IsDeadline(commits, i, d) && AcceptedAt(c, Narrowest(commits, i), i, d, r, t)
                    && !AcceptedAt(c, Widest(commits), i, d, r, t);
      var inputs1 := QuietRun(c, commits, i, d, r, t, weak);
      var inputs2 := LoudRun(c, commits, i, d, r, t, weak);
    }
  }
}
