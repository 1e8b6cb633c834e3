/** Commits as they are recorded: what DagState and its recovery ask of them is what the linearizer delivers. */
module CommitRecords {
  import opened Types
  import opened Views
  import opened UniversalCommitter
  import opened BlockIndex
  import opened TotalOrder
  import opened CommittedRounds
  import opened DagCache

  function RefsOf(blocks: seq<Block>): (refs: seq<BlockRef>)
    ensures |refs| == |blocks| && forall i | 0 <= i < |refs| :: refs[i] == blocks[i].reference
    ensures Elements(refs) == References(blocks)
  {
    var refs := seq(|blocks|, i requires 0 <= i < |blocks| => blocks[i].reference);
    assert forall i | 0 <= i < |blocks| :: refs[i] in refs;
    refs
  }

  function Records(leaders: seq<BlockRef>, subDags: seq<seq<Block>>): (commits: seq<TrustedCommit>)
    requires |leaders| == |subDags|
    ensures |commits| == |subDags|
    ensures forall i | 0 <= i < |commits| :: commits[i] == TrustedCommit(i + 1, leaders[i], RefsOf(subDags[i]))
  {
    seq(|subDags|, i requires 0 <= i < |subDags| => TrustedCommit(i + 1, leaders[i], RefsOf(subDags[i])))
  }

  lemma InRecord(subDag: seq<Block>, r: BlockRef)
    ensures r in RefsOf(subDag) <==> r in References(subDag)
  {
    assert r in RefsOf(subDag) <==> r in Elements(RefsOf(subDag));
  }

  lemma RecordIsDistinct(c: TrustedCommit, subDag: seq<Block>)
    requires c.blocks == RefsOf(subDag) && DistinctReferences(subDag)
    ensures DistinctBlocks(c)
  {}

  /** The commits of every validator are proper: no block twice, none above its leader, leaders in order. */
  lemma RecordsAreProper(w: World, s: Setup, gcDepth: nat, runs: seq<View>, log: seq<LeaderStatus>, views: seq<View>,
      subDags: seq<seq<Block>>)
    requires w.Sound() && s.Valid() && IsOutput(w, s, gcDepth, runs, log, views, subDags)
    ensures ProperCommits(Records(CommittedLeaders(log), subDags))
  {
    var leaders := CommittedLeaders(log);
    var commits := Records(leaders, subDags);
    OutputSubDags(w, s, gcDepth, runs, log, views, subDags);
    forall i | 0 <= i < |commits|
      ensures DistinctBlocks(commits[i]) && forall r | r in commits[i].blocks :: r.round <= commits[i].leader.round
    {
      assert SubDagAt(leaders, views, subDags, i);
      RecordIsDistinct(commits[i], subDags[i]);
      forall r | r in commits[i].blocks ensures r.round <= commits[i].leader.round {
        InRecord(subDags[i], r);
        CommittedOnce(w, s, gcDepth, runs, log, views, subDags, i, i, r);
      }
    }
    forall i, j, r | 0 <= i < j < |commits| && r in commits[i].blocks ensures r !in commits[j].blocks {
      InRecord(subDags[i], r);
      InRecord(subDags[j], r);
      CommittedOnce(w, s, gcDepth, runs, log, views, subDags, i, j, r);
    }
  }

  lemma RecordedGcRound(cfg: Config, s: Cache, leaders: seq<BlockRef>, subDags: seq<seq<Block>>, n: nat)
    requires |leaders| == |subDags| && n <= |subDags| && Known(s) == Records(leaders, subDags)[..n]
    requires s.lastCommit == LastOf(Known(s))
    ensures GcRound(cfg, s) == GcBefore(leaders, n, cfg.gcDepth)
    ensures s.lastCommit == if n == 0 then None else Some(TrustedCommit(n, leaders[n - 1], RefsOf(subDags[n - 1])))
  {
    assert n > 0 ==> Known(s)[n - 1] == Records(leaders, subDags)[n - 1];
  }

  lemma NewBlockIsUnmarked(cfg: Config, c: Cache, leaders: seq<BlockRef>, subDags: seq<seq<Block>>, n: nat, r: BlockRef)
    requires |leaders| == |subDags| && n < |subDags| && Known(c) == Records(leaders, subDags)[..n] && Inv(cfg, c)
    requires r in References(subDags[n]) && r in Accepted(c) && r.round > GcRound(cfg, c)
    requires forall i | 0 <= i < n :: r !in References(subDags[i])
    ensures r !in c.committed
  {
    AboveGcInMemory(cfg, c, r);
    forall i | 0 <= i < n ensures r !in Known(c)[i].blocks {
      InRecord(subDags[i], r);
    }
  }

  lemma NextRecordBlock(w: World, s: Setup, cfg: Config, runs: seq<View>, log: seq<LeaderStatus>, views: seq<View>,
      subDags: seq<seq<Block>>, n: nat, c: Cache, r: BlockRef)
    requires w.Sound() && s.Valid() && IsOutput(w, s, cfg.gcDepth, runs, log, views, subDags) && n < |subDags|
    requires Inv(cfg, c) && Known(c) == Records(CommittedLeaders(log), subDags)[..n]
    requires views[n].blocks.Keys <= Accepted(c).Keys
    requires GcRound(cfg, c) == GcBefore(CommittedLeaders(log), n, cfg.gcDepth)
    requires r in References(subDags[n]) && SubDagAt(CommittedLeaders(log), views, subDags, n)
    ensures r in Accepted(c) && GcRound(cfg, c) < r.round <= CommittedLeaders(log)[n].round && r !in c.committed
  {
    CommittedAt(w, cfg.gcDepth, CommittedLeaders(log), views, subDags, n, r);
    forall i | 0 <= i < n ensures r !in References(subDags[i]) {
      CommittedOnce(w, s, cfg.gcDepth, runs, log, views, subDags, n, i, r);
    }
    NewBlockIsUnmarked(cfg, c, CommittedLeaders(log), subDags, n, r);
  }

  /** DagState may add the next commit of the linearizer: its blocks are held, above the GC round and not yet marked. */
  lemma NextRecordFits(w: World, s: Setup, cfg: Config, runs: seq<View>, log: seq<LeaderStatus>, views: seq<View>,
      subDags: seq<seq<Block>>, n: nat, c: Cache)
    requires w.Sound() && s.Valid() && IsOutput(w, s, cfg.gcDepth, runs, log, views, subDags) && n < |subDags|
    requires Inv(cfg, c) && Known(c) == Records(CommittedLeaders(log), subDags)[..n]
    requires views[n].blocks.Keys <= Accepted(c).Keys
    ensures IsNextCommit(cfg, c, Records(CommittedLeaders(log), subDags)[n])
  {
    var leaders := CommittedLeaders(log);
    var next := Records(leaders, subDags)[n];
    OutputSubDags(w, s, cfg.gcDepth, runs, log, views, subDags);
    RecordsAreProper(w, s, cfg.gcDepth, runs, log, views, subDags);
    RecordedGcRound(cfg, c, leaders, subDags, n);
    assert SubDagAt(leaders, views, subDags, n) && IsCommitAt(w, cfg.gcDepth, leaders, views, subDags, n);
    forall r | r in next.blocks
      ensures r in Accepted(c) && GcRound(cfg, c) < r.round <= next.leader.round && r !in c.committed
    {
      InRecord(subDags[n], r);
      NextRecordBlock(w, s, cfg, runs, log, views, subDags, n, c, r);
    }
  }
}
