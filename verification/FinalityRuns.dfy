/** Whole runs of the commit finalizer, and why each transaction ended the way it did. */
module FinalityRuns {
  import opened Types
  import opened Committee
  import opened BlockIndex
  import opened VoteLinks
  import opened Finality
  import opened FinalityBuffer
  import opened FinalityVotes

  /** A commit, with the certifier's reject stakes at the time it is processed. */
  datatype Input = Input(commit: SubDag, rejects: Stakes)

  /** The certifier still knows the blocks of buffered commits, and has taken back no vote on them. */
  ghost predicate Retains(earlier: Stakes, rejects: Stakes, pending: seq<CommitState>) {
    forall i | 0 <= i < |pending| :: RetainsFor(earlier, rejects, pending[i].commit)
  }

  ghost predicate RetainsFor(earlier: Stakes, rejects: Stakes, commit: SubDag) {
    forall r | r in References(commit.blocks) :: r in rejects && VotedOn(earlier, r) <= VotedOn(rejects, r)
  }

  /** What a caller owes: the next commit, and votes that were only added to since the call before. */
  ghost predicate Enabled(f: Finalizer, earlier: Stakes, input: Input) {
    Next(f, input.commit) && Retains(earlier, input.rejects, f.pending) &&
      References(input.commit.blocks) <= input.rejects.Keys
  }

  lemma RetainsAvailable(earlier: Stakes, rejects: Stakes, pending: seq<CommitState>)
    requires AllSound(pending) && AllAvailable(earlier, pending) && Retains(earlier, rejects, pending)
    ensures AllAvailable(rejects, pending)
  {
    forall i | 0 <= i < |pending| ensures Available(rejects, pending[i]) {
      assert SoundAt(pending, i) && Available(earlier, pending[i]) && RetainsFor(earlier, rejects, pending[i].commit);
    }
  }

  function LastRejects(inputs: seq<Input>): Stakes {
    if inputs == [] then map[] else inputs[|inputs| - 1].rejects
  }

  /** The buffer, the links and all outputs after processing the inputs one by one. */
  ghost function Run(c: Committee, inputs: seq<Input>): Popping {
    if inputs == [] then Popping([], map[], []) else Advanced(c, Run(c, inputs[..|inputs| - 1]), inputs[|inputs| - 1])
  }

  ghost function Advanced(c: Committee, q: Popping, input: Input): Popping {
    var p := Processed(c, Finalizer(q.pending, q.links), input.commit, input.rejects);
    p.(outputs := q.outputs + p.outputs)
  }

  /** How many commits are out once the direct part of a call is done: the first still linked when the new one is. */
  ghost function StartAt(c: Committee, q: Popping, input: Input): nat {
    |q.outputs| + |Popped(DirectPhase(c, input.rejects, input.commit.leader.round,
      q.pending + [NewCommit(input.commit)]), q.links).outputs|
  }

  ghost function Starts(c: Committee, inputs: seq<Input>): (starts: seq<nat>)
    ensures |starts| == |inputs|
  {
    seq(|inputs|, k requires 0 <= k < |inputs| => StartAt(c, Run(c, inputs[..k]), inputs[k]))
  }

  lemma StartsPrefix(c: Committee, inputs: seq<Input>, n: nat)
    requires n <= |inputs|
    ensures Starts(c, inputs[..n]) == Starts(c, inputs)[..n]
  {
    var front := inputs[..n];
    forall k | 0 <= k < n ensures Starts(c, front)[k] == Starts(c, inputs)[k] {
      assert front[..k] == inputs[..k];
    }
  }

  /** Every input was acceptable when it came. */
  ghost predicate IsRun(c: Committee, inputs: seq<Input>) {
    inputs == [] ||
    var front := inputs[..|inputs| - 1];
    && IsRun(c, front)
    && Enabled(Finalizer(Run(c, front).pending, Run(c, front).links), LastRejects(front), inputs[|inputs| - 1])
  }

  /** One more input. */
  lemma RunNext(c: Committee, inputs: seq<Input>, input: Input)
    ensures Run(c, inputs + [input]) == Advanced(c, Run(c, inputs), input)
    ensures IsRun(c, inputs + [input]) <==>
            IsRun(c, inputs) &&
              Enabled(Finalizer(Run(c, inputs).pending, Run(c, inputs).links), LastRejects(inputs), input)
  {
    assert (inputs + [input])[..|inputs|] == inputs;
  }

  function Commits(inputs: seq<Input>): (r: seq<SubDag>)
    ensures |r| == |inputs|
  {
    seq(|inputs|, i requires 0 <= i < |inputs| => inputs[i].commit)
  }

  lemma CommitsPrefix(inputs: seq<Input>, n: nat)
    requires n <= |inputs|
    ensures Commits(inputs[..n]) == Commits(inputs)[..n]
  {}

  lemma CommitsLast(inputs: seq<Input>)
    requires inputs != []
    ensures Commits(inputs) == Commits(inputs[..|inputs| - 1]) + [inputs[|inputs| - 1].commit]
  {}

  /** The outputs and the buffer make up the commits so far; what is buffered is recent and exactly linked. */
  ghost predicate Conserves(commits: seq<SubDag>, p: Popping) {
    && Inv(Finalizer(p.pending, p.links))
    && AreOutputsOf(p.outputs, commits) && CommitsOf(p.pending) == commits[|p.outputs|..]
    && (commits != [] ==> Recent(p.pending, commits[|commits| - 1].leader.round))
  }

  lemma OutputsNext(commits: seq<SubDag>, earlier: seq<SubDag>, left: seq<SubDag>, commit: SubDag, more: seq<SubDag>)
    requires AreOutputsOf(earlier, commits) && left == commits[|earlier|..] && AreOutputsOf(more, left + [commit])
    ensures AreOutputsOf(earlier + more, commits + [commit])
    ensures (left + [commit])[|more|..] == (commits + [commit])[|earlier + more|..]
  {
    var all := commits + [commit];
    assert all[|earlier|..] == left + [commit];
    assert AreOutputsOf(earlier, all);
    OutputsConcat(all, earlier, more);
  }

  lemma ConservesStep(commits: seq<SubDag>, q: Popping, commit: SubDag, p: Popping)
    requires Conserves(commits, q) && Inv(Finalizer(p.pending, p.links)) && Recent(p.pending, commit.leader.round)
    requires AreOutputsOf(p.outputs, CommitsOf(q.pending) + [commit])
    requires CommitsOf(p.pending) == (CommitsOf(q.pending) + [commit])[|p.outputs|..]
    ensures Conserves(commits + [commit], p.(outputs := q.outputs + p.outputs))
  {
    OutputsNext(commits, q.outputs, CommitsOf(q.pending), commit, p.outputs);
  }

  lemma AdvancedConserves(c: Committee, commits: seq<SubDag>, q: Popping, input: Input)
    requires Conserves(commits, q) && Next(Finalizer(q.pending, q.links), input.commit)
    ensures Conserves(commits + [input.commit], Advanced(c, q, input))
  {
    ProcessedKeepsInv(c, Finalizer(q.pending, q.links), input.commit, input.rejects);
    ConservesStep(commits, q, input.commit, Processed(c, Finalizer(q.pending, q.links), input.commit, input.rejects));
  }

  lemma StartConserves()
    ensures Conserves([], Popping([], map[], []))
  {
    assert CommitsOf([]) == [];
  }

  lemma ConservedIsSmall(commits: seq<SubDag>, p: Popping)
    requires Conserves(commits, p)
    ensures |p.pending| <= 3 && p.links.Keys == References(AllBlocks(commits[|p.outputs|..]))
  {
    AtMostThreeBuffered(Finalizer(p.pending, p.links));
  }

  /**
   Over every run the outputs followed by the buffer are the inputs, in order and each once. Every buffered
   commit is led less than three rounds below the last input, so at most three are buffered, and the links
   hold exactly their blocks. The certifier always has the votes the finalizer asks it for.
   */
  lemma {:induction false} RunConserves(c: Committee, inputs: seq<Input>)
    requires IsRun(c, inputs)
    ensures Conserves(Commits(inputs), Run(c, inputs)) && |Run(c, inputs).pending| <= 3
    ensures Run(c, inputs).links.Keys == References(AllBlocks(Commits(inputs)[|Run(c, inputs).outputs|..]))
    ensures AllAvailable(LastRejects(inputs), Run(c, inputs).pending)
    decreases |inputs|
  {
    if inputs == [] {
      StartConserves();
      assert Commits(inputs) == [];
    } else {
      var n := |inputs| - 1;
      RunConserves(c, inputs[..n]);
      var q := Run(c, inputs[..n]);
      AdvancedConserves(c, Commits(inputs[..n]), q, inputs[n]);
      CommitsLast(inputs);
      RetainsAvailable(LastRejects(inputs[..n]), inputs[n].rejects, q.pending);
      ProcessedAvailable(c, Finalizer(q.pending, q.links), inputs[n].commit, inputs[n].rejects);
    }
    ConservedIsSmall(Commits(inputs), Run(c, inputs));
  }

  // ---- Why a transaction is final or rejected ----

  /** Up to `j`, no leader was three rounds above that of `i`. */
  ghost predicate Open(commits: seq<SubDag>, i: nat, j: nat)
    requires i <= j < |commits|
  {
    forall k | i <= k < j :: commits[k].leader.round < commits[i].leader.round + INDIRECT_REJECT_DEPTH
  }

  /** Accepted while commit `i` was buffered. */
  ghost predicate IndirectlyFinalAt(c: Committee, h: Linkage, i: nat, j: nat, r: BlockRef, t: nat) {
    h.Valid() && i <= j < |h.commits| && Open(h.commits, i, j) && h.starts[j] <= i && AcceptedAt(c, h, i, j, r, t)
  }

  /** `j` is the first commit led three rounds above. */
  ghost predicate IsDeadline(commits: seq<SubDag>, i: nat, j: nat)
    requires i <= j < |commits|
  {
    Open(commits, i, j) && commits[j].leader.round >= commits[i].leader.round + INDIRECT_REJECT_DEPTH
  }

  /** Still not accepted at the deadline. */
  ghost predicate TimedOutAt(c: Committee, h: Linkage, i: nat, j: nat, r: BlockRef, t: nat) {
    h.Valid() && i <= j < |h.commits| && IsDeadline(h.commits, i, j) && h.starts[j] <= i &&
      !AcceptedAt(c, h, i, j, r, t)
  }

  /** No reject vote when the commit was examined, with its leader certificate certain to exist. */
  ghost predicate DirectlyFinalAt(inputs: seq<Input>, i: nat, j: nat, r: BlockRef, t: nat)
    requires i <= j < |inputs|
  {
    && r in inputs[j].rejects && t !in VotedOn(inputs[j].rejects, r)
    && (inputs[i].commit.local || inputs[i].commit.leader.round + WAVE_LENGTH <= inputs[j].commit.leader.round)
  }

  ghost predicate QuorumRejectedAt(c: Committee, inputs: seq<Input>, j: nat, r: BlockRef, t: nat)
    requires j < |inputs|
  {
    c.ReachedQuorum(StakeOn(inputs[j].rejects, r, t))
  }

  /** Some votes to reject it when the commit was examined, but no quorum of them. */
  ghost predicate DoubtedAt(c: Committee, inputs: seq<Input>, i: nat, j: nat, r: BlockRef, t: nat)
    requires i <= j < |inputs|
  {
    && t in VotedOn(inputs[j].rejects, r) && !c.ReachedQuorum(StakeOn(inputs[j].rejects, r, t))
    && (inputs[i].commit.local || inputs[i].commit.leader.round + WAVE_LENGTH <= inputs[j].commit.leader.round)
  }

  ghost predicate Doubted(c: Committee, inputs: seq<Input>, i: nat, r: BlockRef, t: nat) {
    exists j: nat | i <= j < |inputs| :: DoubtedAt(c, inputs, i, j, r, t)
  }

  /** The commits so far are those of the linkage. */
  ghost predicate Follow(inputs: seq<Input>, h: Linkage) {
    h.Valid() && |inputs| <= |h.commits| && Commits(inputs) == h.commits[..|inputs|]
  }

  ghost predicate Final(c: Committee, h: Linkage, inputs: seq<Input>, i: nat, r: BlockRef, t: nat) {
    exists j: nat | i <= j < |inputs| :: DirectlyFinalAt(inputs, i, j, r, t) || IndirectlyFinalAt(c, h, i, j, r, t)
  }

  ghost predicate Rejected(c: Committee, h: Linkage, inputs: seq<Input>, i: nat, r: BlockRef, t: nat) {
    exists j: nat | i <= j < |inputs| :: QuorumRejectedAt(c, inputs, j, r, t) || TimedOutAt(c, h, i, j, r, t)
  }

  lemma FollowPrefix(inputs: seq<Input>, h: Linkage, n: nat)
    requires Follow(inputs, h) && n <= |inputs|
    ensures Follow(inputs[..n], h)
  {
    CommitsPrefix(inputs, n);
    assert h.commits[..|inputs|][..n] == h.commits[..n];
  }

  /** Evidence does not depend on later inputs. */
  lemma EvidenceStays(c: Committee, h: Linkage, inputs: seq<Input>, n: nat, i: nat, r: BlockRef, t: nat)
    requires n <= |inputs|
    ensures Final(c, h, inputs[..n], i, r, t) ==> Final(c, h, inputs, i, r, t)
    ensures Rejected(c, h, inputs[..n], i, r, t) ==> Rejected(c, h, inputs, i, r, t)
    ensures Doubted(c, inputs[..n], i, r, t) ==> Doubted(c, inputs, i, r, t)
  {
    var before := inputs[..n];
    forall j: nat | i <= j < n
      ensures DirectlyFinalAt(before, i, j, r, t) ==> DirectlyFinalAt(inputs, i, j, r, t)
      ensures QuorumRejectedAt(c, before, j, r, t) ==> QuorumRejectedAt(c, inputs, j, r, t)
      ensures DoubtedAt(c, before, i, j, r, t) ==> DoubtedAt(c, inputs, i, j, r, t)
    {
      assert before[i] == inputs[i] && before[j] == inputs[j];
    }
  }

  /** Every transaction of an examined commit has its evidence: for its decision, or for still being pending. */
  ghost predicate Explained(c: Committee, h: Linkage, inputs: seq<Input>, i: nat, s: CommitState, r: BlockRef, t: nat) {
    && (t in On(s.rejectedTransactions, r) ==> Rejected(c, h, inputs, i, r, t))
    && (t !in On(s.rejectedTransactions, r) && t !in On(s.pendingTransactions, r) ==> Final(c, h, inputs, i, r, t))
    && (t in On(s.pendingTransactions, r) ==> Doubted(c, inputs, i, r, t))
  }

  ghost predicate Settled(c: Committee, h: Linkage, inputs: seq<Input>, i: nat, s: CommitState) {
    s.pendingBlocks == {} ==>
      forall r, t {:trigger Explained(c, h, inputs, i, s, r, t)} | r in References(s.commit.blocks) ::
        Explained(c, h, inputs, i, s, r, t)
  }

  lemma SettledStays(c: Committee, h: Linkage, inputs: seq<Input>, n: nat, i: nat, s: CommitState)
    requires n <= |inputs| && Settled(c, h, inputs[..n], i, s)
    ensures Settled(c, h, inputs, i, s)
  {
    if s.pendingBlocks == {} {
      forall r, t | r in References(s.commit.blocks) ensures Explained(c, h, inputs, i, s, r, t) {
        assert Explained(c, h, inputs[..n], i, s, r, t);
        EvidenceStays(c, h, inputs, n, i, r, t);
      }
    }
  }

  lemma DirectSettles(c: Committee, h: Linkage, inputs: seq<Input>, i: nat, s: CommitState)
    requires Sound(s) && s.pendingBlocks != {} && i < |inputs| && s.commit == inputs[i].commit
    requires References(s.commit.blocks) <= inputs[|inputs| - 1].rejects.Keys
    requires !MustWait(s, inputs[|inputs| - 1].commit.leader.round)
    ensures Settled(c, h, inputs, i, DirectlyFinalized(c, inputs[|inputs| - 1].rejects, s))
  {
    var j := |inputs| - 1;
    var rejects := inputs[j].rejects;
    var s' := DirectlyFinalized(c, rejects, s);
    forall r, t | r in References(s'.commit.blocks) ensures Explained(c, h, inputs, i, s', r, t) {
      TidyOn(map x | x in s.pendingBlocks :: Weak(c, rejects, x), r);
      TidyOn(map x | x in s.pendingBlocks :: Strong(c, rejects, x), r);
      if t in Strong(c, rejects, r) {
        assert QuorumRejectedAt(c, inputs, j, r, t);
      } else if t !in Weak(c, rejects, r) {
        assert DirectlyFinalAt(inputs, i, j, r, t);
      } else {
        assert DoubtedAt(c, inputs, i, j, r, t);
      }
    }
  }

  lemma OnStillPending(c: Committee, rejects: Stakes, links: Links, s: CommitState, r: BlockRef, t: nat)
    ensures t in On(StillPending(c, rejects, links, s), r) <==>
            t in On(s.pendingTransactions, r) && !c.ReachedQuorum(StakeOn(rejects, r, t)) && !Accepted(c, links, r, t)
  {
    var late := LateRejects(c, rejects, s.pendingTransactions);
    var p := Without(s.pendingTransactions, late);
    WithoutOn(s.pendingTransactions, late, r);
    WithoutOn(p, AcceptedOf(c, links, p), r);
  }

  lemma OnLateRejected(c: Committee, rejects: Stakes, s: CommitState, r: BlockRef, t: nat)
    ensures t in On(LateRejected(c, rejects, s), r) <==>
            t in On(s.rejectedTransactions, r) ||
              (t in On(s.pendingTransactions, r) && c.ReachedQuorum(StakeOn(rejects, r, t)))
  {
    var late := LateRejects(c, rejects, s.pendingTransactions);
    TidyOn(late, r);
    MergeOn(s.rejectedTransactions, Tidy(late), r);
  }

  /** What a turn of indirect finalization does to a transaction, by what is known of it. */
  ghost predicate Turned(s: CommitState, s': CommitState, r: BlockRef, t: nat, quorum: bool, accepted: bool,
      late: bool) {
    && (t in On(s'.rejectedTransactions, r) <==>
          t in On(s.rejectedTransactions, r) || (t in On(s.pendingTransactions, r) && (quorum || (late && !accepted))))
    && (t in On(s'.pendingTransactions, r) <==>
          t in On(s.pendingTransactions, r) && !quorum && !accepted && !late)
  }

  lemma IndirectDecides(c: Committee, rejects: Stakes, links: Links, latest: Round, s: CommitState, r: BlockRef, t: nat)
    ensures Turned(s, IndirectlyFinalized(c, rejects, links, latest, s), r, t,
                   c.ReachedQuorum(StakeOn(rejects, r, t)), Accepted(c, links, r, t),
                     s.commit.leader.round + INDIRECT_REJECT_DEPTH <= latest)
  {
    OnStillPending(c, rejects, links, s, r, t);
    OnLateRejected(c, rejects, s, r, t);
    var p, v := StillPending(c, rejects, links, s), LateRejected(c, rejects, s);
    MergeOn(v, p, r);
  }

  /** What holds when the last input is processed is evidence. */
  lemma ExplainedNext(c: Committee, h: Linkage, inputs: seq<Input>, i: nat, s: CommitState, s': CommitState,
      r: BlockRef, t: nat)
    requires Follow(inputs, h) && i < |inputs| && Open(h.commits, i, |inputs| - 1) && h.starts[|inputs| - 1] <= i
    requires Explained(c, h, inputs, i, s, r, t)
    requires Turned(s, s', r, t, QuorumRejectedAt(c, inputs, |inputs| - 1, r, t),
             AcceptedAt(c, h, i, |inputs| - 1, r, t),
                    h.commits[i].leader.round + INDIRECT_REJECT_DEPTH <= h.commits[|inputs| - 1].leader.round)
    ensures Explained(c, h, inputs, i, s', r, t)
  {
    var j := |inputs| - 1;
    if AcceptedAt(c, h, i, j, r, t) {
      assert IndirectlyFinalAt(c, h, i, j, r, t);
    } else if h.commits[i].leader.round + INDIRECT_REJECT_DEPTH <= h.commits[j].leader.round {
      assert TimedOutAt(c, h, i, j, r, t);
    }
  }

  /** Counting over the links is counting over the commits. */
  ghost predicate CountsAlike(c: Committee, h: Linkage, i: nat, j: nat, links: Links, r: BlockRef, t: nat)
    requires h.Valid() && i <= j < |h.commits|
  {
    Accepted(c, links, r, t) <==> AcceptedAt(c, h, i, j, r, t)
  }

  lemma TurnedBy(c: Committee, h: Linkage, i: nat, j: nat, rejects: Stakes, links: Links, s: CommitState, r: BlockRef,
      t: nat)
    requires h.Valid() && i <= j < |h.commits| && s.commit == h.commits[i] && CountsAlike(c, h, i, j, links, r, t)
    ensures Turned(s, IndirectlyFinalized(c, rejects, links, h.commits[j].leader.round, s), r, t,
                   c.ReachedQuorum(StakeOn(rejects, r, t)), AcceptedAt(c, h, i, j, r, t),
                   h.commits[i].leader.round + INDIRECT_REJECT_DEPTH <= h.commits[j].leader.round)
  {
    IndirectDecides(c, rejects, links, h.commits[j].leader.round, s, r, t);
  }

  /** Indirect finalization of the first commit, the `i`th input, when the last input is processed. */
  lemma IndirectSettles(c: Committee, h: Linkage, inputs: seq<Input>, i: nat, j: nat, links: Links, s: CommitState,
      s': CommitState)
    requires Follow(inputs, h) && i <= j == |inputs| - 1 && s.commit == h.commits[i] && s.pendingBlocks == {}
    requires Settled(c, h, inputs, i, s) && Open(h.commits, i, j) && h.starts[j] <= i
    requires forall r, t | r in References(s.commit.blocks) :: CountsAlike(c, h, i, j, links, r, t)
    requires s' == IndirectlyFinalized(c, inputs[j].rejects, links, h.commits[j].leader.round, s)
    ensures Settled(c, h, inputs, i, s')
  {
    assert s'.commit == s.commit;
    forall r, t | r in References(s'.commit.blocks) ensures Explained(c, h, inputs, i, s', r, t) {
      assert Explained(c, h, inputs, i, s, r, t) && CountsAlike(c, h, i, j, links, r, t);
      TurnedBy(c, h, i, j, inputs[j].rejects, links, s, r, t);
      ExplainedNext(c, h, inputs, i, s, s', r, t);
    }
  }
}
