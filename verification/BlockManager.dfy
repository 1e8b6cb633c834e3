/** Blocks are suspended until they are connected to the DAG (`BlockManager`). */
module BlockManager {
  import opened Types
  import opened BlockIndex
  import Steps = BlockSteps

  class BlockManager {
    const genesis: set<BlockRef>
    ghost const content: Content

    var suspended: map<BlockRef, Suspended>
    var missingAncestors: map<BlockRef, set<BlockRef>>
    var missingBlocks: set<BlockRef>

    // The accepted blocks and the GC round, as DagState presents them.
    var dag: Dag
    var gcRound: Round

    // The state, with every block taken in and those trusted because they were committed.
    ghost var state: State

    function Fields(): Steps.Manager
      reads this
    {
      Steps.Manager(Index(suspended, missingAncestors, missingBlocks), dag, gcRound)
    }

    ghost predicate Valid()
      reads this
    {
      && Fields().Represents(content, state)
      && ValidState(state, content, genesis)
      && forall r | r in genesis :: r.round == GENESIS_ROUND
    }

    /** Starts on the blocks of the DAG state, which may come from an earlier run; nothing is suspended. */
    constructor (genesis: set<BlockRef>, dag: Dag, gcRound: Round, ghost content: Content, ghost trusted: set<BlockRef>)
      requires forall r | r in genesis :: r.round == GENESIS_ROUND
      requires Faithful(content, dag) && AllProper(content, genesis, dag.Keys)
      requires trusted <= dag.Keys && DagClosed(content, dag.Keys, trusted, gcRound)
      ensures Valid() && this.genesis == genesis && this.content == content
      ensures this.dag == dag && this.gcRound == gcRound && state == StartState(dag.Keys, gcRound, trusted)
    {
      this.genesis := genesis;
      this.content := content;
      suspended, missingAncestors, missingBlocks := map[], map[], {};
      this.dag, this.gcRound := dag, gcRound;
      state := StartState(dag.Keys, gcRound, trusted);
    }

    method Set(m: Steps.Manager, ghost after: State)
      modifies this
      ensures Fields() == m && state == after
    {
      suspended, missingAncestors, missingBlocks := m.index.suspended, m.index.missingAncestors, m.index.missingBlocks;
      dag, gcRound, state := m.dag, m.gcRound, after;
    }

    /** Takes in received blocks; returns the accepted ones in causal order and what must be fetched. */
    method TryAcceptBlocks(blocks: seq<Block>) returns (accepted: seq<Block>, missing: set<BlockRef>)
      requires Valid() && forall b | b in blocks :: Proper(content, genesis, b)
      modifies this
      ensures Valid() && BatchState(old(state), state, content, genesis, blocks, false, accepted)
      ensures forall a :: a in missing <==>
              && a !in dag && a !in suspended && a.round > gcRound
              && exists b :: b in blocks && a in b.ancestors && b.reference.round > gcRound &&
                   b.reference !in old(dag) && b.reference !in old(suspended)
      ensures missingBlocks == old(missingBlocks) + missing - dag.Keys - suspended.Keys
      ensures forall r :: r in dag || r in suspended <==>
              r in old(dag) || r in old(suspended) || exists b :: b in blocks && b.reference == r && r.round > gcRound
    {
      var m;
      ghost var after;
      m, accepted, missing, after := Steps.TryAcceptBlocksInternal(Fields(), blocks, false, genesis, state, content);
      Set(m, after);
    }

    /** Takes in the blocks of certified commits, which are never suspended and report nothing missing. */
    method TryAcceptCommittedBlocks(blocks: seq<Block>) returns (accepted: seq<Block>)
      requires Valid() && forall b | b in blocks :: Proper(content, genesis, b)
      modifies this
      ensures Valid() && BatchState(old(state), state, content, genesis, blocks, true, accepted)
      ensures missingBlocks == old(missingBlocks) - dag.Keys - suspended.Keys
      ensures forall r :: r in dag || r in suspended <==>
              r in old(dag) || r in old(suspended) || exists b :: b in blocks && b.reference == r
      ensures forall b | b in blocks :: b.reference in dag
    {
      var m, missing;
      ghost var after;
      m, accepted, missing, after := Steps.TryAcceptBlocksInternal(Fields(), blocks, true, genesis, state, content);
      assert missing == {};
      Set(m, after);
    }

    method TryFindBlocks(refs: seq<BlockRef>) returns (missing: set<BlockRef>)
      requires Valid()
      modifies this
      ensures Valid() && state == old(state).(index := Request(old(state).index, missing))
      ensures forall r :: r in missing <==> r in refs && r.round > gcRound && r !in dag && r !in suspended
      ensures suspended == old(suspended) && missingBlocks == old(missingBlocks) + missing
    {
      var m;
      m, missing := Steps.TryFindBlocks(Fields(), refs, genesis, state, content);
      Set(m, state.(index := m.index));
    }

    /** The GC round has advanced: blocks that wait only for collected ancestors are accepted, in causal order. */
    method TryUnsuspendBlocksForLatestGcRound(newGcRound: Round) returns (ghost accepted: seq<Block>)
      requires Valid() && newGcRound >= gcRound
      modifies this
      ensures Valid() && gcRound == newGcRound && SweptState(old(state), state, content, genesis, accepted)
      ensures missingBlocks == set a | a in old(missingBlocks) && a.round > newGcRound
    {
      var m;
      ghost var after;
      m, after, accepted := Steps.TryUnsuspendForGcRound(Fields(), newGcRound, genesis, state, content);
      Set(m, after);
    }
  }
}
