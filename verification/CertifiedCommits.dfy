/** Certified commits fetched from peers: their blocks may be taken in as a batch. */
module CertifiedCommits {
  import opened Types
  import opened Views
  import opened CausalHistory
  import opened UniversalCommitter
  import opened BlockIndex
  import opened Linearizer
  import opened TotalOrder
  import opened BlockRuns

  /** The blocks of the commits, one commit after the other. */
  function Blocks(subDags: seq<seq<Block>>): seq<Block> {
    if subDags == [] then [] else Blocks(subDags[..|subDags| - 1]) + subDags[|subDags| - 1]
  }

  lemma {:induction false} BlocksAreCommitted(subDags: seq<seq<Block>>)
    ensures References(Blocks(subDags)) == Committed(subDags)
    decreases |subDags|
  {
    if subDags != [] {
      BlocksAreCommitted(subDags[..|subDags| - 1]);
    }
  }

  lemma {:induction false} OneOfBlocks(subDags: seq<seq<Block>>, b: Block) returns (k: nat)
    requires b in Blocks(subDags)
    ensures k < |subDags| && b in subDags[k]
    decreases |subDags|
  {
    k := |subDags| - 1;
    if b !in subDags[k] {
      k := OneOfBlocks(subDags[..k], b);
    }
  }

  lemma CommittedSplits(subDags: seq<seq<Block>>, m: nat, k: nat, n: nat, r: BlockRef)
    requires m <= k < n <= |subDags| && r in Committed(subDags[..k + 1])
    ensures r in Committed(subDags[..m]) || r in Committed(subDags[m..n])
  {
    var i := OneOfCommitted(subDags[..k + 1], r);
    if i < m {
      InCommitted(subDags[..m], i, r);
    } else {
      assert subDags[m..n][i - m] == subDags[i];
      InCommitted(subDags[m..n], i - m, r);
    }
  }

  /**
   A validator that holds the first `m` commits may take in the blocks of the commits up to `n` at once: the batch is
   closed above the GC round in force for the last of them, and the GC round they lead to is at least that.
   */
  lemma CertifiedBatchIsClosed(w: World, s: Setup, gcDepth: nat, runs: seq<View>, log: seq<LeaderStatus>,
      views: seq<View>, subDags: seq<seq<Block>>, m: nat, n: nat, dag: set<BlockRef>)
    requires w.Sound() && s.Valid() && IsOutput(w, s, gcDepth, runs, log, views, subDags)
    requires m < n <= |subDags| && Committed(subDags[..m]) <= dag
    ensures BatchClosed(Blocks(subDags[m..n]), GcBefore(CommittedLeaders(log), n - 1, gcDepth), dag)
    ensures GcBefore(CommittedLeaders(log), n - 1, gcDepth) <= GcBefore(CommittedLeaders(log), n, gcDepth)
  {
    var leaders, batch := CommittedLeaders(log), Blocks(subDags[m..n]);
    OutputSubDags(w, s, gcDepth, runs, log, views, subDags);
    GcRises(leaders, n - 1, n, gcDepth);
    forall b | b in batch ensures Needed(b, GcBefore(leaders, n - 1, gcDepth)) <= References(batch) + dag {
      BatchHasNeeded(w, gcDepth, leaders, views, subDags, m, n, dag, b);
    }
  }

  lemma BatchHasNeeded(w: World, gcDepth: nat, leaders: seq<BlockRef>, views: seq<View>, subDags: seq<seq<Block>>,
      m: nat, n: nat, dag: set<BlockRef>, b: Block)
    requires IsCommitHistory(w, gcDepth, leaders, views, subDags) && Rises(leaders) && m < n <= |leaders|
    requires AreSubDags(leaders, views, subDags, |subDags|) && Committed(subDags[..m]) <= dag
    requires b in Blocks(subDags[m..n])
    ensures Needed(b, GcBefore(leaders, n - 1, gcDepth)) <= References(Blocks(subDags[m..n])) + dag
  {
    var i := OneOfBlocks(subDags[m..n], b);
    assert SubDagAt(leaders, views, subDags, m + i);
    BlocksAreCommitted(subDags[m..n]);
    forall a | a in Needed(b, GcBefore(leaders, n - 1, gcDepth)) ensures a in Committed(subDags[m..n]) + dag {
      AncestorIsCommitted(w, gcDepth, leaders, views, subDags, m + i, n, b, a);
      CommittedSplits(subDags, m, m + i, n, a);
    }
  }

  lemma AncestorIsCommitted(w: World, gcDepth: nat, leaders: seq<BlockRef>, views: seq<View>, subDags: seq<seq<Block>>,
      k: nat, n: nat, b: Block, a: BlockRef)
    requires IsCommitHistory(w, gcDepth, leaders, views, subDags) && Rises(leaders) && k < n <= |leaders|
    requires SubDagAt(leaders, views, subDags, k) && b in subDags[k]
    requires a in b.ancestors && a.round > GcBefore(leaders, n - 1, gcDepth)
    ensures a in Committed(subDags[..k + 1])
  {
    assert b.reference in References(subDags[k]) && IsCommitAt(w, gcDepth, leaders, views, subDags, k);
    CommittedAt(w, gcDepth, leaders, views, subDags, k, b.reference);
    GcRises(leaders, k, n - 1, gcDepth);
  }

  lemma CommittedHasAncestors(w: World, gcDepth: nat, leaders: seq<BlockRef>, views: seq<View>,
      subDags: seq<seq<Block>>, k: nat, v: View, r: BlockRef)
    requires IsCommitHistory(w, gcDepth, leaders, views, subDags) && Rises(leaders) && k < |leaders|
    requires AreSubDags(leaders, views, subDags, |subDags|) && v.gcRound == GcBefore(leaders, k, gcDepth)
    requires InWorld(w, v.blocks) && Committed(subDags[..k + 1]) <= v.blocks.Keys && r in Committed(subDags[..k + 1])
    ensures v.EntryClosed(r) && EntryMarked(v.blocks, v.gcRound, Committed(subDags[..k + 1]), r)
  {
    var i := OneOfCommitted(subDags[..k + 1], r);
    assert SubDagAt(leaders, views, subDags, i);
    CommittedInWorld(w, gcDepth, leaders, views, subDags, i, k + 1, r);
    GcRises(leaders, i, k, gcDepth);
    EntryIsHeld(w, v, views[i], Committed(subDags[..k + 1]), r);
  }

  lemma EntryIsHeld(w: World, v: View, from: View, committed: set<BlockRef>, r: BlockRef)
    requires w.Holds(from) && r in from.blocks && HasCommitted(w, committed, v.gcRound, r)
    requires InWorld(w, v.blocks) && committed <= v.blocks.Keys && r in v.blocks
    ensures v.EntryClosed(r) && EntryMarked(v.blocks, v.gcRound, committed, r)
  {
    assert from.EntryClosed(r);
  }

  /**
   With the blocks of the certified commits up to `n` taken in, the history of every one of their leaders is held:
   they may be committed one after the other, though the DAG as a whole is not closed until the last of them.
   */
  lemma CertifiedLeadersAreHeld(w: World, s: Setup, gcDepth: nat, runs: seq<View>, log: seq<LeaderStatus>,
      views: seq<View>, subDags: seq<seq<Block>>, m: nat, n: nat, d: Dag)
    requires w.Sound() && s.Valid() && IsOutput(w, s, gcDepth, runs, log, views, subDags)
    requires m <= n <= |subDags| && Committed(subDags[..n]) <= d.Keys && InWorld(w, d)
    ensures AllHeld(d, gcDepth, CommittedLeaders(log)[..m], CommittedLeaders(log)[m..n])
  {
    var leaders := CommittedLeaders(log);
    OutputSubDags(w, s, gcDepth, runs, log, views, subDags);
    forall i | 0 <= i < n - m ensures HeldAt(d, gcDepth, leaders[..m], leaders[m..n], i) {
      CommittedGrows(subDags, m + i + 1, n);
      LeaderIsHeld(w, gcDepth, leaders, views, subDags, m + i, d);
      SameGc(leaders, m, n, i, gcDepth);
    }
  }

  lemma LeaderIsHeld(w: World, gcDepth: nat, leaders: seq<BlockRef>, views: seq<View>, subDags: seq<seq<Block>>, k: nat,
      d: Dag)
    requires w.Sound() && IsCommitHistory(w, gcDepth, leaders, views, subDags) && Rises(leaders) && k < |leaders|
    requires AreSubDags(leaders, views, subDags, |subDags|)
    requires Committed(subDags[..k + 1]) <= d.Keys && InWorld(w, d)
    ensures HistoryHeld(View(d, GcBefore(leaders, k, gcDepth)), leaders[k])
  {
    var v, marked := View(d, GcBefore(leaders, k, gcDepth)), Committed(subDags[..k + 1]);
    LeaderIsCommitted(w, gcDepth, leaders, views, subDags, k);
    forall r | r in marked && r.round > v.gcRound
      ensures r in v.blocks && v.EntryClosed(r) && EntryMarked(v.blocks, v.gcRound, marked, r)
    {
      CommittedHasAncestors(w, gcDepth, leaders, views, subDags, k, v, r);
    }
    forall r | ReachesAbove(v.blocks, v.gcRound, leaders[k], r) ensures r in v.blocks && v.EntryClosed(r) {
      HeldIfMarked(v, marked, leaders[k], r);
    }
  }

  lemma LeaderIsCommitted(w: World, gcDepth: nat, leaders: seq<BlockRef>, views: seq<View>, subDags: seq<seq<Block>>,
      k: nat)
    requires w.Sound() && IsCommitHistory(w, gcDepth, leaders, views, subDags) && Rises(leaders) && k < |leaders|
    requires AreSubDags(leaders, views, subDags, |subDags|)
    ensures leaders[k] in Committed(subDags[..k + 1])
  {
    NextSubDag(w, gcDepth, leaders, views, subDags, k);
    assert SubDagAt(leaders, views, subDags, k) && IsCommitAt(w, gcDepth, leaders, views, subDags, k);
    assert ReachesAbove(views[k].blocks, views[k].gcRound, leaders[k], leaders[k]);
    assert subDags[..k + 1][k] == subDags[k];
    InCommitted(subDags[..k + 1], k, leaders[k]);
  }

  lemma SameGc(leaders: seq<BlockRef>, m: nat, n: nat, i: nat, gcDepth: nat)
    requires m <= n <= |leaders| && i < n - m
    ensures GcBefore(leaders[..m] + leaders[m..n], m + i, gcDepth) == GcBefore(leaders, m + i, gcDepth)
    ensures leaders[m..n][i] == leaders[m + i]
  {}

  /**
   Taking in certified commits and then moving the GC round after the last of them keeps the block manager's view
   closed whenever it had caught up before.
   */
  lemma CaughtUpAfterCommits(ops: seq<Op>, leaders: seq<BlockRef>, blocks: seq<Block>, n: nat, gcDepth: nat, gc: Round)
    requires 0 < n <= |leaders| && Rises(leaders) && Due(ops) <= gc <= GcBefore(leaders, n, gcDepth)
    ensures Due(ops + [ReceiveCommitted(blocks, GcBefore(leaders, n - 1, gcDepth)),
            Advance(GcBefore(leaders, n, gcDepth))])
         <= GcBefore(leaders, n, gcDepth)
  {
    var taken, advance := ReceiveCommitted(blocks, GcBefore(leaders, n - 1, gcDepth)),
      Advance(GcBefore(leaders, n, gcDepth));
    assert (ops + [taken, advance])[..|ops| + 1] == ops + [taken] && (ops + [taken])[..|ops|] == ops;
    GcRises(leaders, n - 1, n, gcDepth);
  }
}
