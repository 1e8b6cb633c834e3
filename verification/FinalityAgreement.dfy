/**
 When validators agree on the transactions that are finalized indirectly: exactly when the acceptance of a
 transaction does not depend on commits that one validator has forgotten and another still keeps.
 */
module FinalityAgreement {
  import opened Types
  import opened Committee
  import opened BlockIndex
  import opened VoteLinks
  import opened Finality
  import opened FinalityBuffer
  import opened FinalityVotes
  import opened FinalityRuns
  import opened FinalityFates

  // ---- How much is linked, in any run ----

  ghost function LinkageOf(c: Committee, inputs: seq<Input>): Linkage {
    Linkage(Commits(inputs), Starts(c, inputs))
  }

  /** As if the commits before `i` were gone when it came. */
  function Narrowest(commits: seq<SubDag>, i: nat): Linkage {
    Linkage(commits, seq(|commits|, _ => i))
  }

  /** Going down from `m`, the first commit led less than three rounds below the one before `k`. */
  function FirstKept(commits: seq<SubDag>, k: nat, m: nat): nat
    requires m <= k < |commits|
    decreases m
  {
    if m > 0 &&
      commits[m - 1].leader.round + INDIRECT_REJECT_DEPTH > commits[k - 1].leader.round
        then FirstKept(commits, k, m - 1)
    else m
  }

  /** As if every commit were kept as long as the buffer keeps any. */
  function Widest(commits: seq<SubDag>): Linkage {
    Linkage(commits, seq(|commits|, k requires 0 <= k < |commits| => FirstKept(commits, k, k)))
  }

  lemma {:induction false} KeptDown(commits: seq<SubDag>, k: nat, m: nat, low: nat)
    requires low <= m <= k < |commits|
    requires forall q | low <= q < m :: commits[q].leader.round + INDIRECT_REJECT_DEPTH > commits[k - 1].leader.round
    ensures FirstKept(commits, k, m) <= low
    decreases m
  {
    if low < m {
      KeptDown(commits, k, m - 1, low);
    } else if m > 0 {
      FirstKeptBelow(commits, k, m);
    }
  }

  lemma {:induction false} FirstKeptBelow(commits: seq<SubDag>, k: nat, m: nat)
    requires m <= k < |commits|
    ensures FirstKept(commits, k, m) <= m
    decreases m
  {
    if m > 0 {
      FirstKeptBelow(commits, k, m - 1);
    }
  }

  lemma {:induction false} KeptUp(commits: seq<SubDag>, k: nat, m: nat, low: nat)
    requires low <= m <= k < |commits|
    requires low > 0 ==> commits[low - 1].leader.round + INDIRECT_REJECT_DEPTH <= commits[k - 1].leader.round
    ensures FirstKept(commits, k, m) >= low
    decreases m
  {
    if low < m {
      KeptUp(commits, k, m - 1, low);
    }
  }

  lemma {:induction false} RunPrefix(c: Committee, inputs: seq<Input>, front: seq<Input>)
    requires IsRun(c, inputs) && front <= inputs
    ensures IsRun(c, front)
    decreases |inputs|
  {
    if front != inputs {
      RunPrefix(c, inputs[..|inputs| - 1], front);
    }
  }

  lemma StepOutputs(c: Committee, q: Popping, input: Input)
    ensures |q.outputs| <= StartAt(c, q, input) <= |Advanced(c, q, input).outputs|
  {}

  /** The links of a commit begin with what is still buffered in the middle of its call. */
  lemma StartBounds(c: Committee, inputs: seq<Input>, k: nat)
    requires k < |inputs|
    ensures |Run(c, inputs[..k]).outputs| <= Starts(c, inputs)[k] <= |Run(c, inputs[..k + 1]).outputs|
  {
    assert inputs[..k + 1][..k] == inputs[..k] && inputs[..k + 1][k] == inputs[k];
    StepOutputs(c, Run(c, inputs[..k]), inputs[k]);
  }

  /** How many commits are out before input `k`. */
  ghost function OutBefore(c: Committee, inputs: seq<Input>, k: nat): nat
    requires k <= |inputs|
  {
    |Run(c, inputs[..k]).outputs|
  }

  lemma StartsBetween(c: Committee, inputs: seq<Input>, k: nat)
    requires k < |inputs|
    ensures OutBefore(c, inputs, k) <= Starts(c, inputs)[k] <= OutBefore(c, inputs, k + 1)
  {
    StartBounds(c, inputs, k);
  }

  /** Every output stays out. */
  lemma {:induction false} OutputsRise(c: Committee, inputs: seq<Input>, j: nat, k: nat)
    requires j <= k <= |inputs|
    ensures OutBefore(c, inputs, j) <= OutBefore(c, inputs, k)
    decreases k
  {
    if j < k {
      var n := k - 1;
      OutputsRise(c, inputs, j, n);
      OutputGrows(c, inputs, n, k);
    }
  }

  lemma OutputGrows(c: Committee, inputs: seq<Input>, n: nat, k: nat)
    requires n < |inputs| && k == n + 1
    ensures OutBefore(c, inputs, n) <= OutBefore(c, inputs, k)
  {
    StartsBetween(c, inputs, n);
  }

  lemma StartsRise(c: Committee, inputs: seq<Input>, j: nat, k: nat)
    requires j <= k < |inputs|
    ensures Starts(c, inputs)[j] <= Starts(c, inputs)[k]
  {
    if j < k {
      var n := j + 1;
      StartsBetween(c, inputs, j);
      OutputsRise(c, inputs, n, k);
      StartsBetween(c, inputs, k);
    }
  }

  lemma NothingKeptLonger(c: Committee, commits: seq<SubDag>, inputs: seq<Input>, k: nat)
    requires IsRun(c, inputs) && k < |inputs| <= |commits| && SameLeaders(inputs, commits)
    ensures FirstKept(commits, k, k) <= Starts(c, inputs)[k]
  {
    var front := inputs[..k];
    RunPrefix(c, inputs, inputs[..k]);
    RunConserves(c, front);
    StartBounds(c, inputs, k);
    var p := Run(c, front);
    BufferIsRecent(commits, inputs, k, p);
    KeptDown(commits, k, k, |p.outputs|);
  }

  ghost predicate SameLeaders(inputs: seq<Input>, commits: seq<SubDag>)
    requires |inputs| <= |commits|
  {
    forall k | 0 <= k < |inputs| :: inputs[k].commit.leader == commits[k].leader
  }

  lemma RecentAt(front: seq<SubDag>, count: nat, pending: seq<CommitState>, latest: Round, q: nat)
    requires count <= q < |front| && CommitsOf(pending) == front[count..] && Recent(pending, latest)
    ensures front[q].leader.round + INDIRECT_REJECT_DEPTH > latest
  {
    assert CommitsOf(pending)[q - count] == front[q] == pending[q - count].commit;
  }

  lemma BufferIsRecent(commits: seq<SubDag>, inputs: seq<Input>, k: nat, p: Popping)
    requires k < |inputs| <= |commits| && SameLeaders(inputs, commits) && Conserves(Commits(inputs[..k]), p)
    ensures |p.outputs| <= k
    ensures forall q | |p.outputs| <= q < k ::
            commits[q].leader.round + INDIRECT_REJECT_DEPTH > commits[k - 1].leader.round
  {
    var front := Commits(inputs[..k]);
    forall q | |p.outputs| <= q < k
      ensures commits[q].leader.round + INDIRECT_REJECT_DEPTH > commits[k - 1].leader.round
    {
      assert front[q].leader == commits[q].leader && front[k - 1].leader == commits[k - 1].leader;
      RecentAt(front, |p.outputs|, p.pending, front[k - 1].leader.round, q);
    }
  }

  // ---- Runs over the same commits ----

  /** The same commit, but for whether the validator decided it itself. */
  ghost predicate SameCommit(a: SubDag, b: SubDag) {
    a == b.(local := a.local)
  }

  ghost predicate RunsOver(c: Committee, commits: seq<SubDag>, inputs: seq<Input>) {
    && IsRun(c, inputs) && |inputs| <= |commits|
    && forall k | 0 <= k < |inputs| :: SameCommit(inputs[k].commit, commits[k])
  }

  lemma SameSequence(commits: seq<SubDag>, inputs: seq<Input>)
    requires IsCommitSequence(commits) && |inputs| <= |commits|
    requires forall k | 0 <= k < |inputs| :: SameCommit(inputs[k].commit, commits[k])
    ensures IsCommitSequence(Commits(inputs))
  {
    var own := Commits(inputs);
    assert forall k | 0 <= k < |own| :: SameCommit(own[k], commits[k]);
  }

  /** The votes a run stores lie between those of the narrowest and of the widest linkage. */
  lemma VotesBetween(c: Committee, commits: seq<SubDag>, inputs: seq<Input>, i: nat, k: nat, b: Block, r: BlockRef,
      t: nat)
    requires RunsOver(c, commits, inputs) && i <= k < |inputs|
    ensures ChainRejects(LinkageOf(c, inputs), k, b, r, t) ==> ChainRejects(Widest(commits), k, b, r, t)
    ensures Starts(c, inputs)[k] <= i && ChainRejects(Narrowest(commits, i), k, b, r, t) ==>
              ChainRejects(LinkageOf(c, inputs), k, b, r, t)
  {
    if ChainRejects(LinkageOf(c, inputs), k, b, r, t) {
      WidestLinksMore(c, commits, inputs, k);
      RejectsMore(LinkageOf(c, inputs), Widest(commits), 0, k, b, r, t);
    }
    if Starts(c, inputs)[k] <= i && ChainRejects(Narrowest(commits, i), k, b, r, t) {
      NarrowestLinksLess(c, commits, inputs, i, k);
      RejectsMore(Narrowest(commits, i), LinkageOf(c, inputs), i, k, b, r, t);
    }
  }

  lemma WidestLinksMore(c: Committee, commits: seq<SubDag>, inputs: seq<Input>, k: nat)
    requires RunsOver(c, commits, inputs) && k < |inputs|
    ensures LinksLess(LinkageOf(c, inputs), Widest(commits), 0, k)
  {
    forall m | 0 <= m <= k ensures FirstKept(commits, m, m) <= Starts(c, inputs)[m] {
      NothingKeptLonger(c, commits, inputs, m);
    }
  }

  lemma NarrowestLinksLess(c: Committee, commits: seq<SubDag>, inputs: seq<Input>, i: nat, k: nat)
    requires RunsOver(c, commits, inputs) && i <= k < |inputs| && Starts(c, inputs)[k] <= i
    ensures LinksLess(Narrowest(commits, i), LinkageOf(c, inputs), i, k)
  {
    forall m | i <= m <= k ensures Starts(c, inputs)[m] <= i {
      StartsRise(c, inputs, m, k);
    }
  }

  // ---- Contested transactions ----

  /** As long as commit `i` may be buffered, the validator knows reject votes on the transaction, but no quorum. */
  ghost predicate Contested(c: Committee, inputs: seq<Input>, i: nat, r: BlockRef, t: nat) {
    forall j | i <= j < |inputs| ::
      t in VotedOn(inputs[j].rejects, r) && !c.ReachedQuorum(StakeOn(inputs[j].rejects, r, t))
  }

  /** A run that outputs commit `i` and has its transaction contested. */
  ghost predicate Contests(c: Committee, commits: seq<SubDag>, inputs: seq<Input>, i: nat, r: BlockRef, t: nat) {
    RunsOver(c, commits, inputs) && Contested(c, inputs, i, r, t) && i < |Run(c, inputs).outputs|
  }

  ghost predicate RejectedIn(c: Committee, inputs: seq<Input>, i: nat, r: BlockRef, t: nat) {
    i < |Run(c, inputs).outputs| && t in On(Run(c, inputs).outputs[i].rejected, r)
  }

  lemma OutputFate(c: Committee, h: Linkage, inputs: seq<Input>, p: Popping, i: nat, r: BlockRef, t: nat)
    requires Between(c, h, inputs, p) && i < |p.outputs| && r in References(h.commits[i].blocks)
    ensures OutputExplained(c, h, inputs, i, p.outputs[i], r, t)
  {
    assert OutputAt(c, h, inputs, 0, p.outputs, i);
    assert p.outputs[i].blocks == Commits(inputs)[i].blocks;
  }

  /** Of the reasons for an outcome, a contested transaction leaves the indirect ones. */
  lemma ContestedEvidence(c: Committee, h: Linkage, inputs: seq<Input>, i: nat, r: BlockRef, t: nat, out: SubDag)
    returns (j: nat)
    requires Contested(c, inputs, i, r, t) && OutputExplained(c, h, inputs, i, out, r, t)
    ensures i <= j < |inputs|
    ensures t !in On(out.rejected, r) ==> IndirectlyFinalAt(c, h, i, j, r, t)
    ensures t in On(out.rejected, r) ==> TimedOutAt(c, h, i, j, r, t)
  {
    if t in On(out.rejected, r) {
      j :| i <= j < |inputs| && (QuorumRejectedAt(c, inputs, j, r, t) || TimedOutAt(c, h, i, j, r, t));
    } else {
      j :| i <= j < |inputs| && (DirectlyFinalAt(inputs, i, j, r, t) || IndirectlyFinalAt(c, h, i, j, r, t));
    }
  }

  /** The fate of a contested transaction is decided by its acceptance at some point. */
  lemma ContestedFate(c: Committee, commits: seq<SubDag>, inputs: seq<Input>, i: nat, r: BlockRef, t: nat)
    returns (j: nat)
    requires IsCommitSequence(commits) && Contests(c, commits, inputs, i, r, t) && i < |commits|
    requires r in References(commits[i].blocks)
    ensures i <= j < |inputs|
    ensures !RejectedIn(c, inputs, i, r, t) ==> IndirectlyFinalAt(c, LinkageOf(c, inputs), i, j, r, t)
    ensures RejectedIn(c, inputs, i, r, t) ==> TimedOutAt(c, LinkageOf(c, inputs), i, j, r, t)
  {
    var h := LinkageOf(c, inputs);
    OutputIsExplained(c, commits, inputs, i, r, t);
    j := ContestedEvidence(c, h, inputs, i, r, t, Run(c, inputs).outputs[i]);
  }

  lemma OutputIsExplained(c: Committee, commits: seq<SubDag>, inputs: seq<Input>, i: nat, r: BlockRef, t: nat)
    requires IsCommitSequence(commits) && RunsOver(c, commits, inputs) && i < |Run(c, inputs).outputs|
    requires i < |commits| && r in References(commits[i].blocks)
    ensures OutputExplained(c, LinkageOf(c, inputs), inputs, i, Run(c, inputs).outputs[i], r, t)
  {
    var h, p := LinkageOf(c, inputs), Run(c, inputs);
    SameSequence(commits, inputs);
    RunFates(c, h, inputs);
    OutputFate(c, h, inputs, p, i, r, t);
  }

  // ---- Agreement ----

  lemma DeadlineIs(commits: seq<SubDag>, i: nat, d: nat, j: nat)
    requires i <= d < |commits| && i <= j < |commits| && IsDeadline(commits, i, d) && Open(commits, i, j)
    ensures j <= d && (IsDeadline(commits, i, j) ==> j == d)
  {}

  lemma OpenForAll(commits: seq<SubDag>, inputs: seq<Input>, i: nat, j: nat)
    requires i <= j < |inputs| <= |commits| && SameLeaders(inputs, commits)
    ensures Open(Commits(inputs), i, j) <==> Open(commits, i, j)
    ensures IsDeadline(Commits(inputs), i, j) <==> IsDeadline(commits, i, j)
  {
    assert forall k | 0 <= k < |inputs| :: Commits(inputs)[k].leader == commits[k].leader;
  }

  /** What is finalized is accepted in the narrowest linkage. */
  lemma FinalIsAccepted(c: Committee, commits: seq<SubDag>, inputs: seq<Input>, i: nat, d: nat, j: nat, r: BlockRef,
      t: nat)
    requires RunsOver(c, commits, inputs) && i <= d < |commits| && IsDeadline(commits, i, d) && i <= j < |inputs|
    requires IndirectlyFinalAt(c, LinkageOf(c, inputs), i, j, r, t)
    ensures AcceptedAt(c, Narrowest(commits, i), i, d, r, t)
  {
    OpenForAll(commits, inputs, i, j);
    DeadlineIs(commits, i, d, j);
    NarrowestLinksLess(c, commits, inputs, i, j);
    AcceptedLess(c, Narrowest(commits, i), LinkageOf(c, inputs), i, i, j, r, t);
    AcceptedStays(c, Narrowest(commits, i), i, j, d, r, t);
  }

  /** What times out is not accepted in the widest linkage. */
  lemma TimedOutIsNotAccepted(c: Committee, commits: seq<SubDag>, inputs: seq<Input>, i: nat, j: nat, r: BlockRef,
      t: nat)
    requires RunsOver(c, commits, inputs) && i <= j < |inputs| && TimedOutAt(c, LinkageOf(c, inputs), i, j, r, t)
    ensures IsDeadline(commits, i, j) && !AcceptedAt(c, Widest(commits), i, j, r, t)
  {
    OpenForAll(commits, inputs, i, j);
    if AcceptedAt(c, Widest(commits), i, j, r, t) {
      WidestLinksMore(c, commits, inputs, j);
      AcceptedLess(c, LinkageOf(c, inputs), Widest(commits), 0, i, j, r, t);
    }
  }

  /**
   Acceptance at the deadline does not hang on commits before `i`: what a quorum accepts on the chains within the
   commits from `i` on, a quorum also accepts on the chains through everything the buffer can hold.
   */
  ghost predicate Undisputed(c: Committee, commits: seq<SubDag>, i: nat, r: BlockRef, t: nat) {
    forall d {:trigger IsDeadline(commits, i, d)} | i <= d < |commits| && IsDeadline(commits, i, d) ::
      AcceptedAt(c, Narrowest(commits, i), i, d, r, t) ==> AcceptedAt(c, Widest(commits), i, d, r, t)
  }

  lemma NoFinalAndTimedOut(c: Committee, commits: seq<SubDag>, inputs1: seq<Input>, inputs2: seq<Input>, i: nat,
      j1: nat, j2: nat, r: BlockRef, t: nat)
    requires RunsOver(c, commits, inputs1) && RunsOver(c, commits, inputs2) && Undisputed(c, commits, i, r, t)
    requires i <= j1 < |inputs1| && i <= j2 < |inputs2|
    ensures !(IndirectlyFinalAt(c, LinkageOf(c, inputs1), i, j1, r, t) &&
            TimedOutAt(c, LinkageOf(c, inputs2), i, j2, r, t))
  {
    if IndirectlyFinalAt(c, LinkageOf(c, inputs1), i, j1, r, t) && TimedOutAt(c, LinkageOf(c, inputs2), i, j2, r, t) {
      TimedOutIsNotAccepted(c, commits, inputs2, i, j2, r, t);
      FinalIsAccepted(c, commits, inputs1, i, j2, j1, r, t);
    }
  }

  /**
   Validators that process the same commits output the same fate for a transaction that is contested at both and
   undisputed, whatever else their certifiers have seen and whichever commits they keep longer.
   */
  lemma IndirectFatesAgree(c: Committee, commits: seq<SubDag>, inputs1: seq<Input>, inputs2: seq<Input>, i: nat,
      r: BlockRef, t: nat)
    requires IsCommitSequence(commits) && i < |commits| && r in References(commits[i].blocks)
    requires Contests(c, commits, inputs1, i, r, t) && Contests(c, commits, inputs2, i, r, t)
    requires Undisputed(c, commits, i, r, t)
    ensures RejectedIn(c, inputs1, i, r, t) <==> RejectedIn(c, inputs2, i, r, t)
  {
    var j1 := ContestedFate(c, commits, inputs1, i, r, t);
    var j2 := ContestedFate(c, commits, inputs2, i, r, t);
    NoFinalAndTimedOut(c, commits, inputs1, inputs2, i, j1, j2, r, t);
    NoFinalAndTimedOut(c, commits, inputs2, inputs1, i, j2, j1, r, t);
  }

  // ---- Votes on blocks of the same or earlier commits ----

  /** No block of a commit before `i` votes on the transaction. */
  ghost predicate NoEarlyVote(commits: seq<SubDag>, i: nat, r: BlockRef, t: nat) {
    forall m, a | 0 <= m < i && m < |commits| && a in commits[m].blocks :: !Casts(a, r, t)
  }

  lemma {:induction false} EarlyChainsAccept(h: Linkage, i: nat, k: nat, b: Block, r: BlockRef, t: nat)
    requires h.Valid() && k < i && k < |h.commits| && NoEarlyVote(h.commits, i, r, t) && b in h.commits[k].blocks
    ensures !ChainRejects(h, k, b, r, t)
    decreases b.reference.round
  {
    forall m: nat, a | IsLinkedParent(h, k, b, m, a) ensures !ChainRejects(h, m, a, r, t) {
      EarlyChainsAccept(h, i, m, a, r, t);
    }
  }

  lemma {:induction false} NarrowRejects(commits: seq<SubDag>, i: nat, k: nat, b: Block, r: BlockRef, t: nat)
    requires i <= k < |commits| && NoEarlyVote(commits, i, r, t) && ChainRejects(Widest(commits), k, b, r, t)
    ensures ChainRejects(Narrowest(commits, i), k, b, r, t)
    decreases b.reference.round
  {
    var wide, narrow := Widest(commits), Narrowest(commits, i);
    if !Casts(b, r, t) {
      var m: nat, a :| IsLinkedParent(wide, k, b, m, a) && ChainRejects(wide, m, a, r, t);
      if m < i {
        EarlyChainsAccept(wide, i, m, a, r, t);
      } else {
        NarrowRejects(commits, i, m, a, r, t);
        assert IsLinkedParent(narrow, k, b, m, a);
      }
    }
  }

  /** Votes cast in the commit of the transaction or later cause no dispute. */
  lemma LateVotesAreUndisputed(c: Committee, commits: seq<SubDag>, i: nat, r: BlockRef, t: nat)
    requires NoEarlyVote(commits, i, r, t)
    ensures Undisputed(c, commits, i, r, t)
  {
    var wide, narrow := Widest(commits), Narrowest(commits, i);
    forall d | i <= d < |commits| && IsDeadline(commits, i, d) && AcceptedAt(c, narrow, i, d, r, t)
      ensures AcceptedAt(c, wide, i, d, r, t)
    {
      var a, b := AcceptingAt(narrow, i, d, r, t), AcceptingAt(wide, i, d, r, t);
      forall x | x in a ensures x in b {
        var m: nat, y :| i <= m <= d && y in commits[m].blocks && Accepts(narrow, i, d, m, y, r, t) &&
          y.reference.author == x;
        if ChainRejects(wide, m, y, r, t) {
          NarrowRejects(commits, i, m, y, r, t);
        }
        assert Accepts(wide, i, d, m, y, r, t);
      }
      StakeMonotone(c, a, b);
    }
  }
}
