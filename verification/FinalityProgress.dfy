/** Over every run, a commit is held back only for a reason that the inputs show. */
module FinalityProgress {
  import opened Types
  import opened Committee
  import opened BlockIndex
  import opened VoteLinks
  import opened Finality
  import opened FinalityBuffer
  import opened FinalityVotes
  import opened FinalityRuns
  import opened FinalityFates
  import opened FinalityAgreement
  import opened FinalityTiming

  lemma RunEnds(c: Committee, inputs: seq<Input>)
    requires inputs != []
    ensures var p, last := Run(c, inputs), inputs[|inputs| - 1];
            WaitsInOrder(p.pending, last.commit.leader.round) && Quiet(c, last.rejects, p.pending, p.links)
  {
    var q, last := Run(c, inputs[..|inputs| - 1]), inputs[|inputs| - 1];
    ProcessedEnds(c, Finalizer(q.pending, q.links), last.commit, last.rejects);
  }

  /** The finalizer may examine commit `k` when `j` has come: it is local, or led three rounds below. */
  ghost predicate MayExamine(inputs: seq<Input>, k: nat, j: nat)
    requires k <= j < |inputs|
  {
    inputs[k].commit.local || inputs[k].commit.leader.round + 3 <= inputs[j].commit.leader.round
  }

  /** The buffer holds the commits after those output. */
  lemma BufferIs(inputs: seq<Input>, p: Popping, i: nat, q: nat)
    requires Conserves(Commits(inputs), p) && i == |p.outputs| && i + q < |inputs|
    ensures i + |p.pending| == |inputs| && p.pending[q].commit == inputs[i + q].commit
  {
    assert |CommitsOf(p.pending)| == |Commits(inputs)| - i;
    assert CommitsOf(p.pending)[q] == Commits(inputs)[i..][q] == Commits(inputs)[i + q];
  }

  /** Every buffered commit has been examined, up to the first one that has to wait. */
  lemma {:induction false} ExaminedUpTo(inputs: seq<Input>, p: Popping, i: nat, q: nat, j: nat)
    requires Conserves(Commits(inputs), p) && i == |p.outputs| && i + q <= j == |inputs| - 1
    requires WaitsInOrder(p.pending, inputs[j].commit.leader.round)
    requires forall k: nat | i <= k <= i + q :: MayExamine(inputs, k, j)
    ensures q < |p.pending| && p.pending[q].pendingBlocks == {}
    decreases q
  {
    BufferIs(inputs, p, i, q);
    forall k: nat | k < q ensures p.pending[k].pendingBlocks == {} {
      ExaminedUpTo(inputs, p, i, k, j);
    }
    assert WaitsAt(p.pending, inputs[j].commit.leader.round, q) && MayExamine(inputs, i + q, j);
  }

  /** What a run leaves in the buffer. */
  lemma RunLeaves(c: Committee, inputs: seq<Input>) returns (p: Popping)
    requires IsRun(c, inputs) && inputs != []
    ensures p == Run(c, inputs) && Conserves(Commits(inputs), p)
    ensures var last := inputs[|inputs| - 1];
            WaitsInOrder(p.pending, last.commit.leader.round) && Quiet(c, last.rejects, p.pending, p.links)
  {
    RunConserves(c, inputs);
    RunEnds(c, inputs);
    p := Run(c, inputs);
  }

  /** After every call the buffered commits are examined, up to the first one that has to wait. */
  lemma ExaminedInTime(c: Committee, inputs: seq<Input>, i: nat, q: nat, j: nat)
    requires IsRun(c, inputs) && i == |Run(c, inputs).outputs| && i + q <= j == |inputs| - 1
    requires forall k: nat | i <= k <= i + q :: MayExamine(inputs, k, j)
    ensures q < |Run(c, inputs).pending| && Run(c, inputs).pending[q].pendingBlocks == {}
  {
    var p := RunLeaves(c, inputs);
    ExaminedUpTo(inputs, p, i, q, j);
  }

  lemma Whole<T>(s: seq<T>, n: nat)
    requires n == |s|
    ensures s[..n] == s
  {}

  lemma OwnLinkage(c: Committee, inputs: seq<Input>, h: Linkage)
    requires h.commits == Commits(inputs) && h.starts == Starts(c, inputs)
    ensures IsLinkageOf(c, h, inputs)
  {
    Whole(h.commits, |inputs|);
    Whole(h.starts, |inputs|);
  }

  /** The run's own linkage: what it stores are the votes of the linked chains. */
  lemma RunHolds(c: Committee, inputs: seq<Input>, p: Popping)
    requires IsRun(c, inputs) && IsCommitSequence(Commits(inputs)) && p == Run(c, inputs)
    ensures Between(c, LinkageOf(c, inputs), inputs, p)
  {
    OwnLinkage(c, inputs, LinkageOf(c, inputs));
    RunFates(c, LinkageOf(c, inputs), inputs);
  }

  lemma HoldingFacts(c: Committee, h: Linkage, inputs: seq<Input>, p: Popping)
    requires Between(c, h, inputs, p) && p.pending != []
    ensures Holding(c, h, inputs, |p.outputs|, |inputs|, p.pending, p.links)
    ensures Linked(AllBlocks(CommitsOf(p.pending)), p.links)
    ensures Sound(p.pending[0]) && !IsDecided(p.pending[0])
  {
    assert SoundAt(p.pending, 0);
  }

  lemma FirstIsRecent(inputs: seq<Input>, p: Popping, i: nat)
    requires Conserves(Commits(inputs), p) && i == |p.outputs| < |inputs|
    ensures inputs[i].commit.leader.round + 3 > inputs[|inputs| - 1].commit.leader.round
  {
    BufferIs(inputs, p, i, 0);
    assert Commits(inputs)[|inputs| - 1] == inputs[|inputs| - 1].commit;
  }

  /** Why a pending transaction of the first buffered commit is not decided yet. */
  ghost predicate Undecidable(c: Committee, h: Linkage, inputs: seq<Input>, i: nat, r: BlockRef, t: nat)
    requires h.Valid() && i < |inputs| == |h.commits|
  {
    var j := |inputs| - 1;
    && Doubted(c, inputs, i, r, t)
    && inputs[i].commit.leader.round + 3 > inputs[j].commit.leader.round
    && (i < j ==> !AcceptedAt(c, h, i, j, r, t) && !QuorumRejectedAt(c, inputs, j, r, t))
  }

  lemma PendingIs(c: Committee, h: Linkage, inputs: seq<Input>, p: Popping, i: nat, r: BlockRef, t: nat)
    requires h.Valid() && Between(c, h, inputs, p) && i == |p.outputs| < |inputs| == |h.commits| && p.pending != []
    requires Quiet(c, inputs[|inputs| - 1].rejects, p.pending, p.links)
    requires p.pending[0].pendingBlocks == {} && t in On(p.pending[0].pendingTransactions, r)
    ensures r in References(inputs[i].commit.blocks) && Undecidable(c, h, inputs, i, r, t)
  {
    HoldingFacts(c, h, inputs, p);
    BufferIs(inputs, p, i, 0);
    FirstIsRecent(inputs, p, i);
    SettledTail(c, h, inputs, i, p.pending);
    assert Explained(c, h, inputs, i, p.pending[0], r, t);
    if i < |inputs| - 1 {
      FirstAccepted(c, h, inputs, i, p.pending, p.links, r, t);
    }
  }

  /**
   After every call, each pending transaction of the first buffered commit has reject votes below a quorum, is by
   the commits so far neither accepted nor rejected by a quorum, and has not reached its deadline.
   */
  lemma PendingIsUndecidable(c: Committee, inputs: seq<Input>, i: nat, r: BlockRef, t: nat)
    requires IsRun(c, inputs) && IsCommitSequence(Commits(inputs)) && i == |Run(c, inputs).outputs| < |inputs|
    requires Run(c, inputs).pending != [] && Run(c, inputs).pending[0].pendingBlocks == {}
    requires t in On(Run(c, inputs).pending[0].pendingTransactions, r)
    ensures r in References(inputs[i].commit.blocks) && Undecidable(c, LinkageOf(c, inputs), inputs, i, r, t)
  {
    var p := RunLeaves(c, inputs);
    RunHolds(c, inputs, p);
    PendingIs(c, LinkageOf(c, inputs), inputs, p, i, r, t);
  }

  /** Commit `i` is not output: it has to wait, or one of its transactions cannot be decided yet. */
  ghost predicate HeldBack(c: Committee, h: Linkage, inputs: seq<Input>, i: nat)
    requires h.Valid() && i < |inputs| == |h.commits|
  {
    || !MayExamine(inputs, i, |inputs| - 1)
    || exists r, t :: r in References(inputs[i].commit.blocks) && Undecidable(c, h, inputs, i, r, t)
  }

  lemma FirstIsHeld(c: Committee, h: Linkage, inputs: seq<Input>, p: Popping, i: nat)
    requires h.Valid() && Between(c, h, inputs, p) && i == |p.outputs| < |inputs| == |h.commits|
    requires Quiet(c, inputs[|inputs| - 1].rejects, p.pending, p.links)
    requires WaitsInOrder(p.pending, inputs[|inputs| - 1].commit.leader.round)
    ensures HeldBack(c, h, inputs, i)
  {
    BufferIs(inputs, p, i, 0);
    if MayExamine(inputs, i, |inputs| - 1) {
      ExaminedUpTo(inputs, p, i, 0, |inputs| - 1);
      HoldingFacts(c, h, inputs, p);
      var s := p.pending[0];
      var r :| r in s.pendingTransactions;
      var t :| t in s.pendingTransactions[r];
      PendingIs(c, h, inputs, p, i, r, t);
    }
  }

  /**
   Promptness over whole runs: the first commit that is not output is remote and its leader certificate need not be
   committed yet, or it has a transaction with reject votes below a quorum that no quorum accepts or rejects by now,
   before the deadline. So a commit comes out in the very call in which the last such reason goes away.
   */
  lemma HeldForReason(c: Committee, inputs: seq<Input>, i: nat)
    requires IsRun(c, inputs) && IsCommitSequence(Commits(inputs)) && i == |Run(c, inputs).outputs| < |inputs|
    ensures HeldBack(c, LinkageOf(c, inputs), inputs, i)
  {
    var p := RunLeaves(c, inputs);
    RunHolds(c, inputs, p);
    FirstIsHeld(c, LinkageOf(c, inputs), inputs, p, i);
  }
}
