/**
 What DagState rebuilds from a flushed store: the last committed round of every authority, from a
 checkpoint and the commits after it, and which blocks above the GC round are committed, by a scan over the
 commits from the last one down.
 */
module Recovery {
  import opened Types
  import opened CommittedRounds
  import opened DagCache

  // ---- Last committed rounds ----

  /**
   Over every run of blocks, commits, checkpoints, flushes and restarts, the rounds in memory are the per-authority
   maxima over all commits still known, and a restart would rebuild the maxima over all stored ones.
   */
  lemma RoundsAreMaxima(cfg: Config, ops: seq<Op>, s: Cache, a: Author)
    requires ValidConfig(cfg) && KeepsTops(cfg) && IsRun(cfg, ops, s) && a < cfg.authorities
    ensures |s.rounds| == cfg.authorities && IsLastCommittedRound(Known(s), a, s.rounds[a])
    ensures var t := Restart(cfg, s.store);
            |t.rounds| == cfg.authorities && IsLastCommittedRound(s.store.commits, a, t.rounds[a])
  {
    RunRefines(cfg, ops, s);
    RecoveredIsFold(cfg.authorities, s.store.commits, s.store.checkpoint);
    CommittedRoundsAreMaxima(cfg.authorities, Known(s), a);
    CommittedRoundsAreMaxima(cfg.authorities, s.store.commits, a);
  }

  /** The recovery loop over the stored commits after the checkpoint. */
  method RecoverRounds(cfg: Config, store: Store) returns (rounds: seq<Round>)
    requires CheckpointKept(cfg, store)
    ensures rounds == Restart(cfg, store).rounds == RaiseCommits(Zeros(cfg.authorities), store.commits)
  {
    RecoveredIsFold(cfg.authorities, store.commits, store.checkpoint);
    var start, commits := 0, store.commits;
    rounds := Zeros(cfg.authorities);
    if store.checkpoint.Some? {
      start, rounds := store.checkpoint.value.index, store.checkpoint.value.rounds;
    }
    assert commits[..0] == [];
    for i := start to |commits|
      invariant rounds == RaiseCommits(Zeros(cfg.authorities), commits[..i])
    {
      assert commits[..i + 1][..i] == commits[..i];
      rounds := RaiseRounds(rounds, commits[i].blocks);
    }
    assert commits[..|commits|] == commits;
  }

  method RaiseRounds(rounds: seq<Round>, refs: seq<BlockRef>) returns (raised: seq<Round>)
    ensures raised == RaiseAll(rounds, refs)
  {
    raised := rounds;
    for j := 0 to |refs|
      invariant raised == RaiseAll(rounds, refs[..j])
    {
      assert refs[..j + 1][..j] == refs[..j];
      var r := refs[j];
      if r.author < |raised| {
        raised := raised[r.author := Max(raised[r.author], r.round)];
      }
    }
    assert refs[..|refs|] == refs;
  }

  // ---- Committed blocks ----

  /** Marks the blocks of one commit; none of them is marked already. */
  method MarkCommit(c: TrustedCommit, gc: Round, committed: set<BlockRef>, recent: set<BlockRef>)
    returns (committed': set<BlockRef>)
    requires DistinctBlocks(c)
    requires forall r | r in c.blocks && r.round > gc :: r !in committed && r in recent
    ensures committed' == committed + set r | r in c.blocks && r.round > gc
  {
    committed' := committed;
    for i := 0 to |c.blocks|
      invariant committed' == committed + set r | r in c.blocks[..i] && r.round > gc
    {
      var r := c.blocks[i];
      assert c.blocks[..i + 1] == c.blocks[..i] + [r];
      if r.round > gc {
        assert r in c.blocks && r in recent;
        assert r !in c.blocks[..i];
        assert r !in committed';
        committed' := committed' + {r};
      }
    }
    assert c.blocks[..|c.blocks|] == c.blocks;
  }

  /**
   Over every run, commits are proper and stored together with their blocks; above the GC round exactly the blocks of
   the commits so far are marked, all of them in memory; and a restart marks exactly those of the stored commits.
   */
  lemma MarksSurvive(cfg: Config, ops: seq<Op>, s: Cache)
    requires ValidConfig(cfg) && KeepsTops(cfg) && IsRun(cfg, ops, s)
    ensures ProperCommits(Known(s)) && CommitsHeld(s.store.blocks, s.store.commits)
    ensures MarksExact(cfg, s) && MarksExact(cfg, Restart(cfg, s.store))
    ensures Known(Restart(cfg, s.store)) == s.store.commits
  {
    RunRefines(cfg, ops, s);
    RestartMarks(cfg, s.store, Restart(cfg, s.store));
  }

  /** Every committed block above the GC round is loaded by a restart. */
  lemma CommittedIsLoaded(cfg: Config, store: Store, i: nat)
    requires WellKeyed(cfg, store.blocks) && StoreProper(store) && i < |store.commits|
    ensures forall r | r in store.commits[i].blocks && r.round > StoredGcRound(cfg, store) ::
            r in Restart(cfg, store).recent
  {
    assert CommitHeld(store.blocks, store.commits[i]);
  }

  /**
   The backward scan of a restart. It stops at the first commit led at or below the GC round, and still marks exactly
   the blocks above the GC round that occur in some stored commit, each of them once and each found in memory.
   */
  method RecoverCommitted(cfg: Config, store: Store, recent: Dag) returns (committed: set<BlockRef>)
    requires WellKeyed(cfg, store.blocks) && StoreProper(store) && recent == Restart(cfg, store).recent
    ensures committed == Restart(cfg, store).committed
    ensures forall r :: r in committed <==> r.round > StoredGcRound(cfg, store) && InCommits(store.commits, r)
  {
    var commits, gc := store.commits, StoredGcRound(cfg, store);
    committed := {};
    var index := |commits|;
    while index > 0
      invariant 0 <= index <= |commits| && committed == CommittedAbove(commits, index, gc)
    {
      var commit := commits[index - 1];
      if gc > 0 && commit.leader.round <= gc {
        NothingBelow(commits, index, gc);
        return;
      }
      CommittedIsLoaded(cfg, store, index - 1);
      assert forall r | r in commit.blocks && r.round > gc :: r !in committed;
      committed := MarkCommit(commit, gc, committed, recent.Keys);
      CommittedStep(commits, index, gc);
      index := index - 1;
    }
  }

  lemma CommittedStep(commits: seq<TrustedCommit>, index: nat, gc: Round)
    requires 0 < index <= |commits|
    ensures CommittedAbove(commits, index - 1, gc) ==
            CommittedAbove(commits, index, gc) + set r | r in commits[index - 1].blocks && r.round > gc
  {}

  /** Commits before one led at or below the GC round have no block above it. */
  lemma NothingBelow(commits: seq<TrustedCommit>, index: nat, gc: Round)
    requires ProperCommits(commits) && 0 < index <= |commits| && commits[index - 1].leader.round <= gc
    ensures CommittedAbove(commits, 0, gc) == CommittedAbove(commits, index, gc)
  {
    forall r | r in CommittedAbove(commits, 0, gc) ensures r in CommittedAbove(commits, index, gc) {
      var i :| 0 <= i < |commits| && r in commits[i].blocks && r.round > gc;
      assert commits[i].leader.round > gc;
    }
  }
}
