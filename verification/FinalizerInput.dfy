/** The commits of the linearizer are what the commit finalizer expects. */
module FinalizerInput {
  import opened Types
  import opened Views
  import opened UniversalCommitter
  import opened BlockIndex
  import opened TotalOrder
  import opened VoteLinks
  import opened Finality
  import opened FinalityBuffer

  /** The commits carry a validator's output. */
  ghost predicate Carries(leaders: seq<BlockRef>, subDags: seq<seq<Block>>, commits: seq<SubDag>) {
    && |commits| == |leaders| == |subDags|
    && forall i | 0 <= i < |commits| :: commits[i].leader == leaders[i] && commits[i].blocks == subDags[i]
  }

  lemma CommittedBlocks(w: World, s: Setup, gcDepth: nat, runs: seq<View>, log: seq<LeaderStatus>, views: seq<View>,
      subDags: seq<seq<Block>>, i: nat)
    requires w.Sound() && s.Valid() && IsOutput(w, s, gcDepth, runs, log, views, subDags) && i < |subDags|
    ensures DistinctReferences(subDags[i])
    ensures forall b | b in subDags[i] :: b.reference in w.blocks && b == w.blocks[b.reference] && Descending(b)
  {
    OutputSubDags(w, s, gcDepth, runs, log, views, subDags);
    var leaders := CommittedLeaders(log);
    assert SubDagAt(leaders, views, subDags, i) && IsCommitAt(w, gcDepth, leaders, views, subDags, i);
    forall b | b in subDags[i] ensures b.reference in w.blocks && b == w.blocks[b.reference] && Descending(b) {
      assert views[i].EntryClosed(b.reference);
    }
  }

  lemma CommitFollows(w: World, s: Setup, gcDepth: nat, runs: seq<View>, log: seq<LeaderStatus>, views: seq<View>,
      subDags: seq<seq<Block>>, i: nat, j: nat)
    requires w.Sound() && s.Valid() && IsOutput(w, s, gcDepth, runs, log, views, subDags) && i < j < |subDags|
    ensures Follows(subDags[i], subDags[j])
  {
    CommittedBlocks(w, s, gcDepth, runs, log, views, subDags, i);
    CommittedBlocks(w, s, gcDepth, runs, log, views, subDags, j);
    forall r | r in References(subDags[i]) ensures r !in References(subDags[j]) {
      CommittedOnce(w, s, gcDepth, runs, log, views, subDags, i, j, r);
    }
    forall a, b | a in subDags[i] && b in subDags[j] ensures b.reference !in a.ancestors {
      assert a.reference in References(subDags[i]) && b.reference in References(subDags[j]);
      AncestorsComeFirst(w, s, gcDepth, runs, log, views, subDags, i, j, a.reference, b.reference);
    }
  }

  /** No block is in two commits, none has an ancestor in a later one, and leader rounds rise strictly. */
  lemma LinearizedCommitsAreOrdered(w: World, s: Setup, gcDepth: nat, runs: seq<View>, log: seq<LeaderStatus>,
      views: seq<View>, subDags: seq<seq<Block>>, commits: seq<SubDag>)
    requires w.Sound() && s.Valid() && IsOutput(w, s, gcDepth, runs, log, views, subDags)
    requires Carries(CommittedLeaders(log), subDags, commits)
    ensures Ordered(commits) && Rising(commits)
  {
    LogLeadersRise(w, s, runs, log);
    forall j | 0 <= j < |commits| ensures Follows([], commits[j].blocks) {
      CommittedBlocks(w, s, gcDepth, runs, log, views, subDags, j);
    }
    forall i, j | 0 <= i < j < |commits| ensures Follows(commits[i].blocks, commits[j].blocks) {
      CommitFollows(w, s, gcDepth, runs, log, views, subDags, i, j);
    }
  }
}
