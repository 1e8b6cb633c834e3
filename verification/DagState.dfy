/** DagState as an object whose methods update its fields. */
module DagState {
  import opened Types
  import opened CommittedRounds
  import opened DagCache
  import DagSteps

  /** The component, with the run it has gone through. Its answers are those of the plain set of accepted blocks. */
  class DagState {
    const cfg: Config
    var recent: Dag
    var refs: seq<set<BlockRef>>
    var committed: set<BlockRef>
    var evicted: seq<Round>
    var blocksToWrite: seq<Block>
    var commitsToWrite: seq<TrustedCommit>
    var checkpointsToWrite: seq<Checkpoint>
    var lastCommit: Option<TrustedCommit>
    var lastCommittedRounds: seq<Round>
    var store: Store
    ghost var ops: seq<Op>

    function State(): Cache
      reads this
    {
      Cache(recent, refs, committed, evicted, blocksToWrite, commitsToWrite, checkpointsToWrite, lastCommit,
        lastCommittedRounds, store)
    }

    ghost predicate Valid()
      reads this
    {
      ValidConfig(cfg) && KeepsTops(cfg) && IsRun(cfg, ops, State())
    }

    ghost function Accepted(): Dag
      reads this
    {
      PlainRun(ops).accepted
    }

    /** All commits still known. */
    ghost function Commits(): seq<TrustedCommit>
      reads this
    {
      Known(State())
    }

    /** The block among genesis and everything accepted. */
    ghost function Find(r: BlockRef): Option<Block>
      reads this
    {
      var blocks := if r.round == GENESIS_ROUND then cfg.genesis else Accepted();
      if r in blocks then Some(blocks[r]) else None
    }

    /** Starts on what an earlier run left in the store, with the commits stored and what they have committed. */
    constructor (cfg: Config, store: Store, ghost earlier: seq<Op>, ghost before: Cache)
      requires ValidConfig(cfg) && KeepsTops(cfg) && IsRun(cfg, earlier, before) && before.store == store
      ensures Valid() && this.cfg == cfg && ops == earlier + [RestartOp] && Accepted() == store.blocks
      ensures State() == Restart(cfg, store) && Commits() == store.commits && MarksExact(cfg, State())
      ensures LeavesRecent(store.blocks, recent, GcRound(cfg, State()), cfg.cachedRounds)
    {
      RunRefines(cfg, earlier, before);
      RunStep(cfg, earlier, before, RestartOp);
      var t := DagSteps.Recover(cfg, store);
      this.cfg := cfg;
      recent, refs, committed, evicted := t.recent, t.refs, t.committed, t.evicted;
      blocksToWrite, commitsToWrite, checkpointsToWrite := t.blocksToWrite, t.commitsToWrite, t.checkpointsToWrite;
      lastCommit, lastCommittedRounds, this.store := t.lastCommit, t.rounds, t.store;
      ops := earlier + [RestartOp];
      RestartMarks(cfg, store, t);
    }

    method Set(t: Cache)
      modifies this
      ensures State() == t && ops == old(ops)
    {
      recent, refs, committed, evicted := t.recent, t.refs, t.committed, t.evicted;
      blocksToWrite, commitsToWrite, checkpointsToWrite := t.blocksToWrite, t.commitsToWrite, t.checkpointsToWrite;
      lastCommit, lastCommittedRounds, store := t.lastCommit, t.rounds, t.store;
    }

    method ContainsBlocks(queried: seq<BlockRef>) returns (exist: seq<bool>)
      requires Valid() && forall r | r in queried :: r.author < cfg.authorities
      ensures |exist| == |queried|
      ensures forall i | 0 <= i < |queried| :: exist[i] <==> queried[i] in cfg.genesis || queried[i] in Accepted()
    {
      RunRefines(cfg, ops, State());
      exist := DagSteps.ContainsBlocks(cfg, State(), queried);
    }

    method GetBlocks(queried: seq<BlockRef>) returns (blocks: seq<Option<Block>>)
      requires Valid()
      ensures |blocks| == |queried|
      ensures forall i | 0 <= i < |queried| :: blocks[i] == Find(queried[i])
    {
      RunRefines(cfg, ops, State());
      blocks := DagSteps.GetBlocks(cfg, State(), queried);
      forall i | 0 <= i < |queried| ensures blocks[i] == Find(queried[i]) {
        if queried[i].round > GENESIS_ROUND {
          FindsLikeAccepted(cfg, State(), queried[i]);
        }
      }
    }

    method AcceptBlock(b: Block)
      requires Valid() && Enabled(cfg, State(), AcceptOp(b))
      modifies this
      ensures Valid() && ops == old(ops) + [AcceptOp(b)] && Accepted() == old(Accepted())[b.reference := b]
      ensures State() == Accept(cfg, old(State()), b) && store == old(store)
    {
      RunRefines(cfg, ops, State());
      RunStep(cfg, ops, State(), AcceptOp(b));
      var t := DagSteps.AcceptBlock(cfg, State(), b);
      Set(t);
      ops := ops + [AcceptOp(b)];
    }

    /** Whether a block in memory is committed; above the GC round that is whether a commit has it. */
    method IsCommitted(r: BlockRef) returns (yes: bool)
      requires Valid() && r in recent
      ensures r.round > GcRound(cfg, State()) ==> (yes <==> InCommits(Commits(), r))
    {
      RunRefines(cfg, ops, State());
      yes := r in committed;
    }

    method LastCommittedRounds() returns (rounds: seq<Round>)
      requires Valid()
      ensures |rounds| == cfg.authorities
      ensures forall a | 0 <= a < cfg.authorities :: IsLastCommittedRound(Commits(), a, rounds[a])
    {
      RunRefines(cfg, ops, State());
      rounds := lastCommittedRounds;
      forall a | 0 <= a < cfg.authorities ensures IsLastCommittedRound(Commits(), a, rounds[a]) {
        CommittedRoundsAreMaxima(cfg.authorities, Commits(), a);
      }
    }

    /** Marks the blocks of a commit and adds it. One at or below the last index is ignored. */
    method AddCommit(c: TrustedCommit)
      requires Valid() && Enabled(cfg, State(), AddCommitOp(c))
      modifies this
      ensures Valid() && ops == old(ops) + [AddCommitOp(c)] && Accepted() == old(Accepted())
      ensures State() == DagCache.AddCommit(old(State()), c) && GcRound(cfg, State()) >= GcRound(cfg, old(State()))
      ensures Commits() == old(Commits()) + if IsOld(old(State()), c) then [] else [c]
    {
      RunRefines(cfg, ops, State());
      RunStep(cfg, ops, State(), AddCommitOp(c));
      AddCommitKnows(State(), c);
      var t := DagSteps.AddCommit(cfg, State(), c);
      Set(t);
      ops := ops + [AddCommitOp(c)];
    }

    /** Has the committed rounds stored with the next flush. */
    method AddCommitInfo()
      requires Valid() && lastCommit.Some?
      modifies this
      ensures Valid() && ops == old(ops) + [AddCheckpointOp] && State() == AddCheckpoint(old(State()))
      ensures Accepted() == old(Accepted()) && Commits() == old(Commits())
      ensures checkpointsToWrite == old(checkpointsToWrite) + [Checkpoint(|Commits()|, lastCommittedRounds)]
    {
      RunRefines(cfg, ops, State());
      RunStep(cfg, ops, State(), AddCheckpointOp);
      checkpointsToWrite := checkpointsToWrite + [Checkpoint(lastCommit.value.index, lastCommittedRounds)];
      ops := ops + [AddCheckpointOp];
    }

    /** Afterwards everything accepted is in the store, and everything above the GC round is still in memory. */
    method Flush()
      requires Valid()
      modifies this
      ensures Valid() && ops == old(ops) + [FlushOp] && Accepted() == old(Accepted()) == store.blocks
      ensures blocksToWrite == [] && commitsToWrite == [] && checkpointsToWrite == [] && lastCommit == old(lastCommit)
      ensures Commits() == old(Commits()) == store.commits && lastCommittedRounds == old(lastCommittedRounds)
      ensures var written := old(checkpointsToWrite);
              written != [] ==> store.checkpoint == Some(written[|written| - 1])
      ensures forall r | r in Accepted() && r.round > GcRound(cfg, State()) :: r in recent
      ensures if old(blocksToWrite) == [] && old(commitsToWrite) == [] && old(checkpointsToWrite) == []
              then recent == old(recent) else LeavesRecent(old(recent), recent, GcRound(cfg, State()), cfg.cachedRounds)
    {
      RunRefines(cfg, ops, State());
      var t := DagSteps.FlushAll(cfg, State());
      FlushLeaves(cfg, ops, State(), t);
      Set(t);
      ops := ops + [FlushOp];
    }
  }
}
