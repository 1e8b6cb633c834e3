/** Buffers commits until all their transactions are final or rejected (`CommitFinalizer`). */
module CommitFinalizer {
  import opened Types
  import opened Committee
  import opened VoteLinks
  import opened Finality
  import opened FinalityBuffer
  import opened FinalityRuns
  import opened FinalityFates
  import opened FinalityAgreement
  import opened FinalityTiming
  import opened FinalityProgress
  import Steps = FinalizerSteps

  /** The state of the buffer after a run with these inputs and outputs. */
  ghost predicate Reaches(c: Committee, inputs: seq<Input>, outputs: seq<SubDag>, f: Finalizer) {
    IsRun(c, inputs) && Run(c, inputs) == Popping(f.pending, f.links, outputs)
  }

  lemma ReachedInv(c: Committee, inputs: seq<Input>, outputs: seq<SubDag>, f: Finalizer)
    requires Reaches(c, inputs, outputs, f)
    ensures Inv(f) && AllAvailable(LastRejects(inputs), f.pending)
  {
    RunConserves(c, inputs);
  }

  lemma ReachesNext(c: Committee, inputs: seq<Input>, outputs: seq<SubDag>, f: Finalizer, input: Input)
    requires Reaches(c, inputs, outputs, f) && Enabled(f, LastRejects(inputs), input)
    ensures var p := Processed(c, f, input.commit, input.rejects);
            Reaches(c, inputs + [input], outputs + p.outputs, Finalizer(p.pending, p.links))
  {
    assert (inputs + [input])[..|inputs|] == inputs;
  }

  lemma ReachedHeld(c: Committee, inputs: seq<Input>, outputs: seq<SubDag>, f: Finalizer)
    requires Reaches(c, inputs, outputs, f)
    ensures IsCommitSequence(Commits(inputs)) && |outputs| < |inputs| ==>
            HeldBack(c, LinkageOf(c, inputs), inputs, |outputs|)
  {
    if IsCommitSequence(Commits(inputs)) && |outputs| < |inputs| {
      HeldForReason(c, inputs, |outputs|);
    }
  }

  /** What one call adds to the outputs, and what it leaves buffered. */
  ghost predicate Handled(before: Finalizer, commit: SubDag, finalized: seq<SubDag>, after: Finalizer) {
    && AreOutputsOf(finalized, CommitsOf(before.pending) + [commit])
    && CommitsOf(after.pending) == (CommitsOf(before.pending) + [commit])[|finalized|..]
    && Recent(after.pending, commit.leader.round) && |after.pending| <= 3
  }

  lemma HandledByProcessing(c: Committee, f: Finalizer, input: Input)
    requires Inv(f) && Next(f, input.commit)
    ensures var p := Processed(c, f, input.commit, input.rejects);
            Handled(f, input.commit, p.outputs, Finalizer(p.pending, p.links))
  {
    ProcessedKeepsInv(c, f, input.commit, input.rejects);
    var p := Processed(c, f, input.commit, input.rejects);
    AtMostThreeBuffered(Finalizer(p.pending, p.links));
  }

  method Process(c: Committee, ghost inputs: seq<Input>, ghost outputs: seq<SubDag>, f: Finalizer, input: Input)
    returns (p: Popping)
    requires Reaches(c, inputs, outputs, f) && Enabled(f, LastRejects(inputs), input)
    ensures Reaches(c, inputs + [input], outputs + p.outputs, Finalizer(p.pending, p.links))
    ensures Handled(f, input.commit, p.outputs, Finalizer(p.pending, p.links))
    ensures WaitsInOrder(p.pending, input.commit.leader.round) && Quiet(c, input.rejects, p.pending, p.links)
  {
    ReachedInv(c, inputs, outputs, f);
    ReachesNext(c, inputs, outputs, f, input);
    HandledByProcessing(c, f, input);
    RetainsAvailable(LastRejects(inputs), input.rejects, f.pending);
    p := Steps.ProcessCommit(c, f, input.commit, input.rejects);
  }

  class CommitFinalizer {
    const committee: Committee
    var lastProcessedCommit: Option<CommitIndex>
    var pendingCommits: seq<CommitState>
    var blocks: Links

    // What was processed so far, and what came out.
    ghost var inputs: seq<Input>
    ghost var outputs: seq<SubDag>

    function State(): Finalizer
      reads this
    {
      Finalizer(pendingCommits, blocks)
    }

    ghost predicate Valid()
      reads this
    {
      && Reaches(committee, inputs, outputs, State())
      && lastProcessedCommit == if inputs == [] then None else Some(inputs[|inputs| - 1].commit.index)
    }

    constructor (committee: Committee)
      ensures Valid() && this.committee == committee && inputs == [] && outputs == []
    {
      this.committee := committee;
      lastProcessedCommit, pendingCommits, blocks := None, [], map[];
      inputs, outputs := [], [];
    }

    method Set(f: Finalizer, index: CommitIndex, ghost input: Input, ghost finalized: seq<SubDag>)
      modifies this
      ensures State() == f && lastProcessedCommit == Some(index)
      ensures inputs == old(inputs) + [input] && outputs == old(outputs) + finalized
    {
      lastProcessedCommit, pendingCommits, blocks := Some(index), f.pending, f.links;
      inputs, outputs := inputs + [input], outputs + finalized;
    }

    /** The commit after the last one is buffered, and commits that are decided come out in order. */
    method ProcessCommit(commit: SubDag, rejects: Stakes) returns (finalized: seq<SubDag>)
      requires Valid() && Enabled(State(), LastRejects(inputs), Input(commit, rejects)) && commit.blocks != []
      requires lastProcessedCommit.Some? ==> lastProcessedCommit.value + 1 == commit.index
      modifies this
      ensures Valid() && inputs == old(inputs) + [Input(commit, rejects)] && outputs == old(outputs) + finalized
      ensures Handled(old(State()), commit, finalized, State())
      ensures WaitsInOrder(pendingCommits, commit.leader.round) && Quiet(committee, rejects, pendingCommits, blocks)
      ensures IsCommitSequence(Commits(inputs)) && |outputs| < |inputs| ==>
              HeldBack(committee, LinkageOf(committee, inputs), inputs, |outputs|)
    {
      var p := Process(committee, inputs, outputs, State(), Input(commit, rejects));
      finalized := p.outputs;
      Set(Finalizer(p.pending, p.links), commit.index, Input(commit, rejects), finalized);
      ReachedHeld(committee, inputs, outputs, State());
    }
  }
}
