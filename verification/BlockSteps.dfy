/** The operations of the block manager on its state as a value. */
module BlockSteps {
  import opened Types
  import opened Sorting
  import opened BlockIndex

  /** The indexes, and the accepted blocks and GC round as DagState presents them. */
  datatype Manager = Manager(index: Index, dag: Dag, gcRound: Round)
  {
    ghost predicate Represents(content: Content, st: State) {
      index == st.index && dag.Keys == st.dag && gcRound == st.gcRound && Faithful(content, dag)
    }
  }

  datatype TryAcceptResult = Accepted | SuspendedFor(fetch: set<BlockRef>) | Processed | Skipped

  // ---- Unsuspending ----

  /** Neither the lookup nor the removal can fail: that is the precondition. */
  method TryUnsuspendBlock(x: Index, r: BlockRef, dependency: BlockRef) returns (y: Index, unsuspended: Option<Block>)
    requires r in x.suspended && dependency in x.suspended[r].missing
    ensures y == Release(x, r, dependency)
    ensures unsuspended == if r in y.suspended then None else Some(x.suspended[r].block)
  {
    var block := x.suspended[r];
    var missing := block.missing - {dependency};
    if missing == {} {
      return x.(suspended := x.suspended - {r}), Some(block.block);
    }
    return x.(suspended := x.suspended[r := block.(missing := missing)]), None;
  }

  /** Releases all waiters of `p`; those left without a missing ancestor are returned. */
  method ReleaseWaiters(x: Index, p: BlockRef, waiters: set<BlockRef>, ghost content: Content, ghost gc: Round,
      ghost cleared: set<BlockRef>, ghost processing: set<BlockRef>)
    returns (y: Index, released: seq<Block>)
    requires Releasing(x, content, gc, cleared, processing, p, waiters)
    ensures Releasing(y, content, gc, cleared, processing + References(released), p, {})
    ensures y.missingAncestors == x.missingAncestors && y.missingBlocks == x.missingBlocks
    ensures References(released) <= x.suspended.Keys && y.suspended.Keys == x.suspended.Keys - References(released)
    ensures forall b | b in released :: b == content(b.reference) && Needed(b, gc) <= cleared + {p}
    ensures DistinctReferences(released)
  {
    y, released := x, [];
    var todo := waiters;
    assert processing + References(released) == processing;
    while todo != {}
      invariant Releasing(y, content, gc, cleared, processing + References(released), p, todo)
      invariant y.missingAncestors == x.missingAncestors && y.missingBlocks == x.missingBlocks
      invariant References(released) <= x.suspended.Keys && y.suspended.Keys == x.suspended.Keys - References(released)
      invariant forall b | b in released :: b == content(b.reference) && Needed(b, gc) <= cleared + {p}
      invariant DistinctReferences(released)
      decreases todo
    {
      var r :| r in todo;
      assert WaitsDuring(y, content, gc, cleared, p, todo, r);
      ReleaseStep(y, content, gc, cleared, processing + References(released), p, todo, r);
      var unsuspended;
      y, unsuspended := TryUnsuspendBlock(y, r, p);
      match unsuspended {
        case Some(block) =>
          ReferencesConcat(released, [block]);
          assert References([block]) == {r};
          assert processing + References(released) + {r} == processing + References(released + [block]);
          released := released + [block];
        case None =>
      }
      todo := todo - {r};
    }
  }

  /** One turn of the worklist: `p` is cleared and its waiters released. */
  method ProcessOne(x: Index, p: BlockRef, ghost content: Content, ghost gc: Round, ghost done: set<BlockRef>,
      ghost others: set<BlockRef>)
    returns (y: Index, released: seq<Block>)
    requires p !in others && Consistent(x, content, gc, done, others + {p})
    ensures Consistent(y, content, gc, done + {p}, others + References(released))
    ensures y.missingAncestors == x.missingAncestors - {p} && y.missingBlocks == x.missingBlocks
    ensures References(released) <= x.suspended.Keys && y.suspended.Keys == x.suspended.Keys - References(released)
    ensures forall b | b in released :: b == content(b.reference) && Needed(b, gc) <= done + {p}
    ensures DistinctReferences(released)
  {
    ReleasingStarts(x, content, gc, done, others + {p}, p);
    assert others + {p} - {p} == others;
    var waiters := {};
    y := x;
    if p in y.missingAncestors {
      waiters := y.missingAncestors[p];
      y := y.(missingAncestors := y.missingAncestors - {p});
    }
    y, released := ReleaseWaiters(y, p, waiters, content, gc, done, others);
    ReleasingEnds(y, content, gc, done, others + References(released), p);
  }

  /** Clears `accepted` and, transitively, every suspended block that no longer misses anything. */
  method UnsuspendChildren(x: Index, accepted: BlockRef, ghost content: Content, ghost gc: Round,
      ghost cleared: set<BlockRef>)
    returns (y: Index, unsuspended: seq<Block>)
    requires Consistent(x, content, gc, cleared, {accepted})
    ensures Unsuspended(x, y, content, gc, cleared + {accepted}, unsuspended)
  {
    y, unsuspended := x, [];
    var toProcess := [accepted];
    ghost var done := cleared;
    WorklistStart(x, content, gc, cleared, accepted);
    while toProcess != []
      invariant Consistent(y, content, gc, done, Elements(toProcess))
      invariant Worklist(x, y, cleared + {accepted}, toProcess, References(unsuspended), done)
      invariant Released(content, gc, cleared + {accepted}, unsuspended)
      decreases |y.suspended.Keys| + |toProcess|
    {
      var last := |toProcess| - 1;
      var p := toProcess[last];
      var rest := toProcess[..last];
      ElementsPop(toProcess, rest, p);
      ghost var before := y;
      var released;
      y, released := ProcessOne(y, p, content, gc, done, Elements(rest));
      FewerSuspended(before.suspended.Keys, y.suspended.Keys, released);
      WorklistStep(x, before, y, cleared + {accepted}, toProcess, rest, p, References(unsuspended), done, released);
      ReleasedStep(content, gc, cleared + {accepted}, unsuspended, released, done + {p});
      toProcess := rest + RefsOf(released);
      unsuspended := unsuspended + released;
      done := done + {p};
    }
    WorklistDone(x, y, cleared + {accepted}, References(unsuspended), done);
  }

  // ---- Receiving one block ----

  /** Stores blocks in the DAG, in order; a block that is already there is left alone. */
  method StoreBlocks(dag: Dag, blocks: seq<Block>, ghost content: Content) returns (stored: Dag)
    requires Faithful(content, dag) && forall b | b in blocks :: b == content(b.reference)
    ensures Faithful(content, stored) && stored.Keys == dag.Keys + References(blocks)
  {
    stored := dag;
    for i := 0 to |blocks|
      invariant Faithful(content, stored) && stored.Keys == dag.Keys + References(blocks[..i])
    {
      assert blocks[..i + 1] == blocks[..i] + [blocks[i]];
      ReferencesConcat(blocks[..i], [blocks[i]]);
      assert References([blocks[i]]) == {blocks[i].reference};
      assert blocks[i] in blocks;
      if blocks[i].reference !in stored {
        stored := stored[blocks[i].reference := blocks[i]];
      }
    }
    assert blocks[..|blocks|] == blocks;
  }

  /** Unsuspends what waited for an accepted block and stores everything in the DAG. */
  method AcceptAndUnsuspend(x: Index, dag: Dag, b: Block, committed: bool, ghost st: State, ghost content: Content,
      ghost genesis: set<BlockRef>)
    returns (y: Index, dag': Dag, accepted: seq<Block>)
    requires ValidState(st, content, genesis) && Proper(content, genesis, b) && b.reference !in st.dag
    requires dag.Keys == st.dag + (if committed then {b.reference} else {}) && Faithful(content, dag)
    requires Consistent(x, content, st.gcRound, st.dag, {b.reference})
    requires x.suspended.Keys == st.index.suspended.Keys - {b.reference}
    requires x.missingAncestors.Keys <= st.index.missingAncestors.Keys
    requires x.missingBlocks == st.index.missingBlocks - {b.reference}
    requires (!committed && NoIdleKeys(st.index) ==> NoIdleKeys(x))
    requires committed || (Needed(b, st.gcRound) <= st.dag && b.reference.round > st.gcRound)
    ensures Faithful(content, dag') && y.missingBlocks == st.index.missingBlocks - {b.reference}
    ensures ReceivedState(st,
            State(y, dag'.Keys, st.gcRound, st.received + {b.reference}, st.trusted +
              if committed then {b.reference} else {}),
                          content, genesis, b, committed, accepted)
  {
    var unsuspended;
    y, unsuspended := UnsuspendChildren(x, b.reference, content, st.gcRound, st.dag);
    accepted := [b] + unsuspended;
    ghost var after :=
      State(y, st.dag + References(accepted), st.gcRound, st.received + {b.reference}, st.trusted +
        if committed then {b.reference} else {});
    AcceptedState(st, after, content, genesis, b, unsuspended, committed);
    dag' := StoreAccepted(dag, st.dag, b, unsuspended, committed, content);
  }

  /** A committed block is stored before what waited for it, any other block together with it. */
  method StoreAccepted(dag: Dag, ghost before: set<BlockRef>, b: Block, unsuspended: seq<Block>, committed: bool,
      ghost content: Content) returns (dag': Dag)
    requires dag.Keys == before + (if committed then {b.reference} else {}) && Faithful(content, dag)
    requires b == content(b.reference) && forall x | x in unsuspended :: x == content(x.reference)
    ensures Faithful(content, dag') && dag'.Keys == before + References([b] + unsuspended)
  {
    ReferencesConcat([b], unsuspended);
    assert References([b]) == {b.reference};
    if committed {
      dag' := StoreBlocks(dag, unsuspended, content);
    } else {
      dag' := StoreBlocks(dag, [b] + unsuspended, content);
    }
  }

  /** Another block waits for the reference. */
  method WaitFor(ghost start: map<BlockRef, set<BlockRef>>, waiting: map<BlockRef, set<BlockRef>>,
      ghost missing: set<BlockRef>, ancestor: BlockRef, r: BlockRef)
    returns (waiting': map<BlockRef, set<BlockRef>>)
    requires waiting == AddWaiter(start, missing, r)
    ensures waiting' == AddWaiter(start, missing + {ancestor}, r)
  {
    AddWaiterStep(start, missing, r, ancestor);
    waiting' := waiting[ancestor := (if ancestor in waiting then waiting[ancestor] else {}) + {r}];
  }

  /** Enters the missing ancestors of a block into the indexes. */
  lemma FetchStep(missing: set<BlockRef>, known: set<BlockRef>, a: BlockRef)
    ensures missing + {a} - known == (missing - known) + if a in known then {} else {a}
  {}

  method RecordMissing(x: Index, b: Block, dag: set<BlockRef>, gcRound: Round, genesis: set<BlockRef>,
      ghost content: Content)
    returns (y: Index, missing: set<BlockRef>, fetch: set<BlockRef>)
    requires Proper(content, genesis, b) && forall r | r in genesis :: r.round == GENESIS_ROUND
    ensures missing == Needed(b, gcRound) - dag && fetch == missing - x.suspended.Keys
    ensures y ==
            x.(missingAncestors := AddWaiter(x.missingAncestors, missing, b.reference),
              missingBlocks := x.missingBlocks + fetch)
  {
    missing, fetch := {}, {};
    var waiting, blocks := x.missingAncestors, x.missingBlocks;
    AddWaiterNone(waiting, b.reference);
    for i := 0 to |b.ancestors|
      invariant missing == Unmet(b.ancestors[..i], gcRound, dag)
      invariant fetch == missing - x.suspended.Keys
      invariant waiting == AddWaiter(x.missingAncestors, missing, b.reference)
      invariant blocks == x.missingBlocks + fetch
    {
      var ancestor := b.ancestors[i];
      UnmetStep(b.ancestors, i, gcRound, dag);
      if (ancestor.round == GENESIS_ROUND || ancestor.round > gcRound) && ancestor !in dag && ancestor !in genesis {
        waiting := WaitFor(x.missingAncestors, waiting, missing, ancestor, b.reference);
        FetchStep(missing, x.suspended.Keys, ancestor);
        missing := missing + {ancestor};
        if ancestor !in x.suspended {
          fetch := fetch + {ancestor};
          blocks := blocks + {ancestor};
        }
      }
    }
    assert b.ancestors[..|b.ancestors|] == b.ancestors;
    y := x.(missingAncestors := waiting, missingBlocks := blocks);
  }

  /** Accepts, suspends or drops one block; an accepted block is only taken off the fetch list here. */
  method TryAcceptOneBlock(m: Manager, b: Block, genesis: set<BlockRef>, ghost content: Content)
    returns (x: Index, result: TryAcceptResult)
    requires Proper(content, genesis, b) && forall r | r in genesis :: r.round == GENESIS_ROUND
    ensures result.Processed? <==> b.reference in m.dag || b.reference in m.index.suspended
    ensures result.Skipped? ==> b.reference.round <= m.gcRound
    ensures result.Accepted? || result.SuspendedFor? ==> b.reference.round > m.gcRound
    ensures match result
      case Accepted => Needed(b, m.gcRound) <= m.dag.Keys &&
        x == m.index.(missingBlocks := m.index.missingBlocks - {b.reference})
      case SuspendedFor(fetch) =>
        var missing := Needed(b, m.gcRound) - m.dag.Keys;
        missing != {} && fetch == missing - m.index.suspended.Keys && x == Suspend(m.index, b, missing)
      case _ => x == m.index
  {
    x := m.index;
    if b.reference in x.suspended || b.reference in m.dag || b.reference in genesis {
      return x, Processed;
    }
    if b.reference.round <= m.gcRound {
      return x, Skipped;
    }
    var missing, fetch;
    x, missing, fetch := RecordMissing(x, b, m.dag.Keys, m.gcRound, genesis, content);
    x := x.(missingBlocks := x.missingBlocks - {b.reference});
    if missing != {} {
      x := x.(suspended := x.suspended[b.reference := Suspended(b, missing)]);
      return x, SuspendedFor(fetch);
    }
    AddWaiterNone(m.index.missingAncestors, b.reference);
    assert m.index.missingBlocks + fetch == m.index.missingBlocks;
    assert forall a | a in Needed(b, m.gcRound) :: a in m.dag || a in missing;
    return x, Accepted;
  }

  /** Not received before, and above the GC round. */
  ghost predicate IsNew(b: Block, st: State) {
    b.reference.round > st.gcRound && b.reference !in st.received
  }

  /** A block of an ordinary batch. */
  method ReceiveBlock(m: Manager, b: Block, genesis: set<BlockRef>, ghost st: State, ghost content: Content)
    returns (m': Manager, accepted: seq<Block>, fetch: set<BlockRef>, ghost after: State)
    requires ValidState(st, content, genesis) && m.Represents(content, st)
    requires Proper(content, genesis, b) && forall r | r in genesis :: r.round == GENESIS_ROUND
    ensures m'.Represents(content, after) && ReceivedState(st, after, content, genesis, b, false, accepted)
    ensures fetch == if IsNew(b, st) then Needed(b, st.gcRound) - st.received else {}
    ensures after.index.missingBlocks == st.index.missingBlocks + fetch - after.received
  {
    accepted, fetch, after := [], {}, st;
    var x, result := TryAcceptOneBlock(m, b, genesis, content);
    m' := m.(index := x);
    match result {
      case Processed =>
        NothingReceived(st, content, genesis, b);
      case Skipped =>
        NothingReceived(st, content, genesis, b);
      case SuspendedFor(ancestors) =>
        ReceivedSuspended(st, content, genesis, b);
        fetch, after := ancestors, st.(index := x, received := st.received + {b.reference});
      case Accepted =>
        ReceiveKeepsConsistent(st.index, content, st.gcRound, st.dag, b.reference);
        var y, dag;
        y, dag, accepted := AcceptAndUnsuspend(x, m.dag, b, false, st, content, genesis);
        m' := Manager(y, dag, m.gcRound);
        after := State(y, dag.Keys, st.gcRound, st.received + {b.reference}, st.trusted + {});
    }
  }

  /** A block of a committed batch is accepted whatever its ancestors. */
  method ReceiveCommittedBlock(m: Manager, b: Block, ghost genesis: set<BlockRef>, ghost st: State,
      ghost content: Content)
    returns (m': Manager, accepted: seq<Block>, ghost after: State)
    requires ValidState(st, content, genesis) && m.Represents(content, st) && Proper(content, genesis, b)
    ensures m'.Represents(content, after) && ReceivedState(st, after, content, genesis, b, true, accepted)
    ensures after.index.missingBlocks == st.index.missingBlocks - after.received
  {
    if b.reference in m.dag {
      ReceivedAgainCommitted(st, content, genesis, b);
      return m, [], st.(trusted := st.trusted + {b.reference});
    }
    var x := m.index.(missingBlocks := m.index.missingBlocks - {b.reference});
    if b.reference in x.suspended {
      x := x.(missingAncestors := RemoveWaiter(x.missingAncestors, x.suspended[b.reference].missing, b.reference));
    }
    x := x.(suspended := x.suspended - {b.reference});
    WithdrawKeepsConsistent(st.index, content, st.gcRound, st.dag, b.reference);
    var y, dag;
    y, dag, accepted := AcceptAndUnsuspend(x, m.dag[b.reference := b], b, true, st, content, genesis);
    m' := Manager(y, dag, m.gcRound);
    after := State(y, dag.Keys, st.gcRound, st.received + {b.reference}, st.trusted + {b.reference});
  }

  /** Takes in the next block of a batch. */
  method ReceiveNext(m: Manager, b: Block, committed: bool, accepted: seq<Block>, genesis: set<BlockRef>,
                     ghost start: State, ghost st: State, ghost blocks: seq<Block>, ghost content: Content)
    returns (m': Manager, accepted': seq<Block>, fetch: set<BlockRef>, ghost after: State)
    requires m.Represents(content, st) && Proper(content, genesis, b)
    requires forall r | r in genesis :: r.round == GENESIS_ROUND
    requires BatchState(start, st, content, genesis, blocks, committed, accepted)
    ensures m'.Represents(content, after)
    ensures BatchState(start, after, content, genesis, blocks + [b], committed, accepted')
    ensures fetch == if !committed && IsNew(b, st) then Needed(b, st.gcRound) - st.received else {}
    ensures after.received == st.received + (if committed || b.reference.round > st.gcRound then {b.reference} else {})
    ensures after.index.missingBlocks == st.index.missingBlocks + fetch - after.received
  {
    var more;
    if committed {
      m', more, after := ReceiveCommittedBlock(m, b, genesis, st, content);
      fetch := {};
    } else {
      m', more, fetch, after := ReceiveBlock(m, b, genesis, st, content);
    }
    BatchStep(start, st, after, content, genesis, blocks, b, committed, accepted, more);
    accepted' := accepted + more;
  }

  /** What is missing lies in rounds below all blocks from position `i` on. */
  ghost predicate Below(missing: set<BlockRef>, sorted: seq<Block>, i: nat) {
    forall a, j | a in missing && i <= j < |sorted| :: a.round < sorted[j].reference.round
  }

  lemma BelowStep(missing: set<BlockRef>, fetch: set<BlockRef>, sorted: seq<Block>, i: nat)
    requires i < |sorted| && Ascends(false, sorted) && Below(missing, sorted, i)
    requires forall a | a in fetch :: a.round < sorted[i].reference.round
    ensures Below(missing + fetch, sorted, i + 1) && forall a | a in missing :: a.round < sorted[i].reference.round
  {
    forall a, j | a in fetch && i < j < |sorted| ensures a.round < sorted[j].reference.round {
      assert Le(false, sorted[i], sorted[j]);
    }
  }

  /** `a` is an ancestor above the GC round of a block that is new to the state. */
  ghost predicate Wanted(blocks: seq<Block>, st: State, a: BlockRef) {
    exists b | b in blocks :: IsNew(b, st) && a in Needed(b, st.gcRound)
  }

  lemma WantedStep(blocks: seq<Block>, b: Block, st: State, a: BlockRef)
    ensures Wanted(blocks + [b], st, a) <==> Wanted(blocks, st, a) || (IsNew(b, st) && a in Needed(b, st.gcRound))
  {
    var all := blocks + [b];
    assert b in all;
    if Wanted(blocks, st, a) {
      var x :| x in blocks && IsNew(x, st) && a in Needed(x, st.gcRound);
      assert x in all;
    }
  }

  /** What a batch reports missing: ancestors of its new blocks that have not been received. */
  ghost predicate Reports(missing: set<BlockRef>, blocks: seq<Block>, committed: bool, st: State,
      received: set<BlockRef>)
  {
    forall a :: a in missing <==> !committed && a !in received && Wanted(blocks, st, a)
  }

  /** A block that is new to the state but was met before comes twice in the batch. */
  lemma MetBefore(blocks: seq<Block>, b: Block, st: State, received: set<BlockRef>, content: Content, a: BlockRef)
    requires received == st.received + TakenIn(blocks, st.gcRound, false)
    requires b == content(b.reference) && forall x | x in blocks :: x == content(x.reference)
    requires IsNew(b, st) && b.reference in received && a in Needed(b, st.gcRound)
    ensures Wanted(blocks, st, a)
  {
    var x :| x in blocks && x.reference == b.reference;
    assert IsNew(x, st);
  }

  lemma ReportsStep(missing: set<BlockRef>, fetch: set<BlockRef>, blocks: seq<Block>, b: Block, st: State,
      received: set<BlockRef>, received': set<BlockRef>, content: Content)
    requires Reports(missing, blocks, false, st, received)
    requires received == st.received + TakenIn(blocks, st.gcRound, false)
    requires received' == received + (if b.reference.round > st.gcRound then {b.reference} else {})
    requires b == content(b.reference) && forall x | x in blocks :: x == content(x.reference)
    requires b.reference !in missing && b.reference !in Needed(b, st.gcRound)
    requires fetch ==
             if b.reference.round > st.gcRound && b.reference !in received then Needed(b, st.gcRound) - received else {}
    ensures Reports(missing + fetch, blocks + [b], false, st, received')
  {
    forall a ensures a in missing + fetch <==> a !in received' && Wanted(blocks + [b], st, a) {
      WantedStep(blocks, b, st, a);
      if IsNew(b, st) && b.reference in received && a in Needed(b, st.gcRound) {
        MetBefore(blocks, b, st, received, content, a);
      }
    }
  }

  method SortByRound(blocks: seq<Block>) returns (sorted: seq<Block>)
    ensures Ascends(false, sorted) && multiset(sorted) == multiset(blocks) && forall b :: b in sorted <==> b in blocks
  {
    sorted := Sort(false, blocks);
    SortKeepsMembers(false, blocks);
  }

  /** The first `i` blocks of a batch are taken in. */
  ghost predicate Progress(m: Manager, sorted: seq<Block>, i: nat, committed: bool, accepted: seq<Block>,
      missing: set<BlockRef>, genesis: set<BlockRef>, st: State, after: State, content: Content)
  {
    && i <= |sorted| && m.Represents(content, after)
    && BatchState(st, after, content, genesis, sorted[..i], committed, accepted)
    && Reports(missing, sorted[..i], committed, st, after.received) && Below(missing, sorted, i)
    && after.index.missingBlocks == st.index.missingBlocks + missing - after.received
  }

  /** The next block of a batch reports what it misses. */
  lemma ReportsNext(sorted: seq<Block>, i: nat, committed: bool, missing: set<BlockRef>, fetch: set<BlockRef>,
      genesis: set<BlockRef>, st: State, received: set<BlockRef>, received': set<BlockRef>, content: Content)
    requires i < |sorted| && Ascends(false, sorted) && forall b | b in sorted :: Proper(content, genesis, b)
    requires received == st.received + TakenIn(sorted[..i], st.gcRound, committed)
    requires Reports(missing, sorted[..i], committed, st, received) && Below(missing, sorted, i)
    requires received' ==
             received + (if committed || sorted[i].reference.round > st.gcRound then {sorted[i].reference} else {})
    requires fetch ==
             if !committed && sorted[i].reference.round > st.gcRound && sorted[i].reference !in received
             then Needed(sorted[i], st.gcRound) - received else {}
    ensures Reports(missing + fetch, sorted[..i] + [sorted[i]], committed, st, received')
    ensures Below(missing + fetch, sorted, i + 1)
  {
    assert sorted[i] in sorted && Proper(content, genesis, sorted[i]);
    BelowStep(missing, fetch, sorted, i);
    if !committed {
      forall x | x in sorted[..i] ensures x == content(x.reference) {
        assert x in sorted;
      }
      ReportsStep(missing, fetch, sorted[..i], sorted[i], st, received, received', content);
    }
  }

  lemma MissingStep(blocks: set<BlockRef>, missing: set<BlockRef>, fetch: set<BlockRef>, received: set<BlockRef>,
      received': set<BlockRef>)
    requires received <= received'
    ensures blocks + missing - received + fetch - received' == blocks + (missing + fetch) - received'
  {}

  method ReceiveAt(m: Manager, sorted: seq<Block>, i: nat, committed: bool, accepted: seq<Block>,
      missing: set<BlockRef>, genesis: set<BlockRef>, ghost st: State, ghost before: State, ghost content: Content)
    returns (m': Manager, accepted': seq<Block>, missing': set<BlockRef>, ghost after: State)
    requires i < |sorted| && Ascends(false, sorted) && forall b | b in sorted :: Proper(content, genesis, b)
    requires forall r | r in genesis :: r.round == GENESIS_ROUND
    requires Progress(m, sorted, i, committed, accepted, missing, genesis, st, before, content)
    ensures Progress(m', sorted, i + 1, committed, accepted', missing', genesis, st, after, content)
  {
    PrefixStep(sorted, i);
    var fetch;
    assert sorted[i] in sorted;
    m', accepted', fetch, after :=
      ReceiveNext(m, sorted[i], committed, accepted, genesis, st, before, sorted[..i], content);
    ReportsNext(sorted, i, committed, missing, fetch, genesis, st, before.received, after.received, content);
    MissingStep(st.index.missingBlocks, missing, fetch, before.received, after.received);
    missing' := missing + fetch;
  }

  lemma TakenInAre(m: Manager, m': Manager, blocks: seq<Block>, committed: bool, st: State, after: State)
    requires after.received == st.received + TakenIn(blocks, m.gcRound, committed)
    requires st.received == m.dag.Keys + m.index.suspended.Keys
    requires after.received == m'.dag.Keys + m'.index.suspended.Keys
    ensures forall r :: r in m'.dag || r in m'.index.suspended <==>
            || r in m.dag || r in m.index.suspended
            || exists b :: b in blocks && b.reference == r && (committed || r.round > m.gcRound)
  {
    forall r
      ensures r in after.received <==>
              || r in m.dag || r in m.index.suspended
              || exists b :: b in blocks && b.reference == r && (committed || r.round > m.gcRound)
    {}
  }

  method ReceiveAll(m: Manager, sorted: seq<Block>, committed: bool, genesis: set<BlockRef>, ghost st: State,
      ghost content: Content)
    returns (m': Manager, accepted: seq<Block>, missing: set<BlockRef>, ghost after: State)
    requires ValidState(st, content, genesis) && m.Represents(content, st) && Ascends(false, sorted)
    requires forall r | r in genesis :: r.round == GENESIS_ROUND
    requires forall b | b in sorted :: Proper(content, genesis, b)
    ensures Progress(m', sorted, |sorted|, committed, accepted, missing, genesis, st, after, content)
  {
    m', accepted, missing, after := m, [], {}, st;
    BatchStart(st, content, genesis, committed);
    var i := 0;
    while i < |sorted|
      invariant Progress(m', sorted, i, committed, accepted, missing, genesis, st, after, content)
    {
      m', accepted, missing, after :=
        ReceiveAt(m', sorted, i, committed, accepted, missing, genesis, st, after, content);
      i := i + 1;
    }
  }

  /** What is reported, in terms of the block manager before and after. */
  lemma ReportedAre(m: Manager, m': Manager, blocks: seq<Block>, sorted: seq<Block>, committed: bool,
      missing: set<BlockRef>, st: State, received: set<BlockRef>)
    requires Reports(missing, sorted, committed, st, received) && forall b :: b in sorted <==> b in blocks
    requires st.received == m.dag.Keys + m.index.suspended.Keys && st.gcRound == m.gcRound
    requires received == m'.dag.Keys + m'.index.suspended.Keys
    ensures forall a :: a in missing <==>
            && !committed && a !in m'.dag && a !in m'.index.suspended && a.round > m.gcRound
            && exists b :: b in blocks && a in b.ancestors && b.reference.round > m.gcRound && b.reference !in m.dag &&
                 b.reference !in m.index.suspended
  {
    forall a
      ensures Wanted(sorted, st, a) <==>
              && a.round > m.gcRound
              && exists b :: b in blocks && a in b.ancestors && b.reference.round > m.gcRound &&
                   b.reference !in m.dag && b.reference !in m.index.suspended
    {
      if Wanted(sorted, st, a) {
        var b :| b in sorted && IsNew(b, st) && a in Needed(b, st.gcRound);
        assert b in blocks;
      }
      if b :| b in blocks && a in b.ancestors && b.reference.round > m.gcRound &&
              b.reference !in m.dag && b.reference !in m.index.suspended {
        assert b in sorted && IsNew(b, st);
      }
    }
  }

  /** All blocks of a batch are taken in. */
  lemma BatchDone(m: Manager, m': Manager, sorted: seq<Block>, blocks: seq<Block>, committed: bool,
      accepted: seq<Block>, missing: set<BlockRef>, genesis: set<BlockRef>, st: State, after: State, content: Content)
    requires ValidState(st, content, genesis) && m.Represents(content, st) && forall b :: b in sorted <==> b in blocks
    requires Progress(m', sorted, |sorted|, committed, accepted, missing, genesis, st, after, content)
    ensures m'.Represents(content, after) && BatchState(st, after, content, genesis, blocks, committed, accepted)
    ensures Reports(missing, sorted, committed, st, after.received)
    ensures st.received == m.dag.Keys + m.index.suspended.Keys && st.gcRound == m.gcRound
    ensures after.received == m'.dag.Keys + m'.index.suspended.Keys
    ensures after.received == st.received + TakenIn(blocks, m.gcRound, committed)
    ensures m'.index.missingBlocks == m.index.missingBlocks + missing - m'.dag.Keys - m'.index.suspended.Keys
  {
    assert sorted[..|sorted|] == sorted;
    BatchOfPermutation(st, after, content, genesis, sorted, blocks, committed, accepted);
  }

  /**
   Takes in a batch, lowest rounds first. Accepted blocks come out in causal order; what is reported
   missing is still missing afterwards, and committed blocks report nothing.
   */
  method TryAcceptBlocksInternal(m: Manager, blocks: seq<Block>, committed: bool, genesis: set<BlockRef>,
      ghost st: State, ghost content: Content)
    returns (m': Manager, accepted: seq<Block>, missing: set<BlockRef>, ghost after: State)
    requires ValidState(st, content, genesis) && m.Represents(content, st)
    requires forall r | r in genesis :: r.round == GENESIS_ROUND
    requires forall b | b in blocks :: Proper(content, genesis, b)
    ensures m'.Represents(content, after) && BatchState(st, after, content, genesis, blocks, committed, accepted)
    ensures forall a :: a in missing <==>
            && !committed && a !in m'.dag && a !in m'.index.suspended && a.round > m.gcRound
            && exists b :: b in blocks && a in b.ancestors && b.reference.round > m.gcRound && b.reference !in m.dag &&
                 b.reference !in m.index.suspended
    ensures m'.index.missingBlocks == m.index.missingBlocks + missing - m'.dag.Keys - m'.index.suspended.Keys
    ensures forall r :: r in m'.dag || r in m'.index.suspended <==>
            || r in m.dag || r in m.index.suspended
            || exists b :: b in blocks && b.reference == r && (committed || r.round > m.gcRound)
  {
    var sorted := SortByRound(blocks);
    m', accepted, missing, after := ReceiveAll(m, sorted, committed, genesis, st, content);
    BatchDone(m, m', sorted, blocks, committed, accepted, missing, genesis, st, after, content);
    ReportedAre(m, m', blocks, sorted, committed, missing, st, after.received);
    TakenInAre(m, m', blocks, committed, st, after);
  }

  // ---- Finding and collecting ----

  /** Enters references that are neither known nor suspended as missing. */
  method RequestMissing(x: Index, refs: seq<BlockRef>, dag: set<BlockRef>, gcRound: Round, genesis: set<BlockRef>)
    returns (y: Index, missing: set<BlockRef>)
    requires x.missingBlocks <= x.missingAncestors.Keys && forall r | r in genesis :: r.round == GENESIS_ROUND
    ensures missing == Unmet(refs, gcRound, dag + x.suspended.Keys) && y == Request(x, missing)
  {
    missing := {};
    var waiting, blocks := x.missingAncestors, x.missingBlocks;
    assert Request(x, {}).missingAncestors == x.missingAncestors;
    for i := 0 to |refs|
      invariant missing == Unmet(refs[..i], gcRound, dag + x.suspended.Keys)
      invariant waiting == Request(x, missing).missingAncestors && blocks == x.missingBlocks + missing
    {
      var r := refs[i];
      UnmetStep(refs, i, gcRound, dag + x.suspended.Keys);
      if r.round > gcRound && r !in dag && r !in genesis && r !in x.suspended {
        RequestStep(x, missing, r);
        missing := missing + {r};
        if r !in blocks {
          blocks := blocks + {r};
          if r !in waiting {
            waiting := waiting[r := {}];
          }
        }
      }
    }
    assert refs[..|refs|] == refs;
    y := Index(x.suspended, waiting, blocks);
  }

  /** Looks for references; those neither in the DAG nor suspended become missing. */
  method TryFindBlocks(m: Manager, refs: seq<BlockRef>, genesis: set<BlockRef>, ghost st: State, ghost content: Content)
    returns (m': Manager, missing: set<BlockRef>)
    requires ValidState(st, content, genesis) && m.Represents(content, st)
    requires forall r | r in genesis :: r.round == GENESIS_ROUND
    ensures forall r :: r in missing <==> r in refs && r.round > m.gcRound && r !in m.dag && r !in m.index.suspended
    ensures m' == m.(index := Request(m.index, missing)) && ValidState(st.(index := m'.index), content, genesis)
    ensures m'.index.missingBlocks == m.index.missingBlocks + missing
  {
    var y;
    y, missing := RequestMissing(m.index, refs, m.dag.Keys, m.gcRound, genesis);
    RequestKeepsConsistent(m.index, content, m.gcRound, m.dag.Keys, missing);
    m' := m.(index := y);
  }

  /** Drops one collected reference and accepts what it unsuspends. */
  method Collect(x: Index, dag: Dag, first: BlockRef, ghost st: State, ghost accepted: seq<Block>,
      ghost gone: set<BlockRef>, ghost gc: Round, ghost genesis: set<BlockRef>, ghost content: Content)
    returns (y: Index, dag': Dag, ghost accepted': seq<Block>)
    requires Sweeping(st, x, accepted, gone, content, genesis, gc) && Faithful(content, dag)
    requires dag.Keys == st.dag + References(accepted)
    requires first in x.missingAncestors && first !in x.suspended && first.round <= gc
    ensures Sweeping(st, y, accepted', gone + {first}, content, genesis, gc) && Faithful(content, dag')
    ensures dag'.Keys == st.dag + References(accepted')
    ensures |y.missingAncestors.Keys| < |x.missingAncestors.Keys| && y.missingBlocks == x.missingBlocks - {first}
  {
    y := x.(missingBlocks := x.missingBlocks - {first});
    ReceiveKeepsConsistent(x, content, st.gcRound, dag.Keys + gone, first);
    var unsuspended;
    y, unsuspended := UnsuspendChildren(y, first, content, st.gcRound, dag.Keys + gone);
    SweepStep(st, x, y, accepted, gone, content, genesis, gc, first, unsuspended);
    dag' := StoreBlocks(dag, unsuspended, content);
    accepted' := accepted + unsuspended;
    AcceptedKeys(st.dag, accepted, unsuspended);
    Smaller(y.missingAncestors.Keys, x.missingAncestors.Keys, first);
  }

  lemma AcceptedKeys(dag: set<BlockRef>, accepted: seq<Block>, more: seq<Block>)
    ensures dag + References(accepted + more) == dag + References(accepted) + References(more)
  {
    ReferencesConcat(accepted, more);
  }

  lemma GoneStep(blocks: set<BlockRef>, gone: set<BlockRef>, first: BlockRef)
    ensures blocks - gone - {first} == blocks - (gone + {first})
  {}

  /** The sweep takes off the fetch list exactly what is at or below the new GC round. */
  lemma SweptMissing(st: State, x: Index, accepted: seq<Block>, gone: set<BlockRef>, content: Content,
      genesis: set<BlockRef>, gc: Round, before: set<BlockRef>)
    requires Sweeping(st, x, accepted, gone, content, genesis, gc) && x.missingBlocks == before - gone
    requires forall a | a in x.missingAncestors :: a.round > gc
    ensures x.missingBlocks == set a | a in before && a.round > gc
  {
    assert x.missingBlocks <= x.missingAncestors.Keys;
  }

  /**
   Unsuspends blocks that wait only for collected ancestors. The lowest missing reference is never
   suspended, so the sweep does not panic; afterwards nothing at or below the GC round is waited for. What is
   released comes out in causal order above the new GC round.
   */
  method TryUnsuspendForGcRound(m: Manager, gcRound: Round, ghost genesis: set<BlockRef>, ghost st: State,
      ghost content: Content)
    returns (m': Manager, ghost after: State, ghost accepted: seq<Block>)
    requires ValidState(st, content, genesis) && m.Represents(content, st) && gcRound >= m.gcRound
    ensures m'.Represents(content, after) && m'.gcRound == gcRound && SweptState(st, after, content, genesis, accepted)
    ensures m'.index.missingBlocks == set a | a in m.index.missingBlocks && a.round > gcRound
  {
    ghost var gone: set<BlockRef> := {};
    accepted := [];
    SweepStart(st, content, genesis, gcRound);
    var x, dag := m.index, m.dag;
    assert References([]) == {};
    while x.missingAncestors.Keys != {}
      invariant Sweeping(st, x, accepted, gone, content, genesis, gcRound) && Faithful(content, dag)
      invariant dag.Keys == st.dag + References(accepted) && x.missingBlocks == m.index.missingBlocks - gone
      decreases |x.missingAncestors.Keys|
    {
      ghost var least := FirstExists(x.missingAncestors.Keys);
      var first :| first in x.missingAncestors.Keys && forall a | a in x.missingAncestors.Keys :: RefLe(first, a);
      if first.round > gcRound {
        AllAbove(x.missingAncestors.Keys, first, gcRound);
        break;
      }
      FirstIsNotSuspended(st, x, accepted, gone, content, genesis, gcRound, first);
      GoneStep(m.index.missingBlocks, gone, first);
      x, dag, accepted := Collect(x, dag, first, st, accepted, gone, gcRound, genesis, content);
      gone := gone + {first};
    }
    SweepDone(st, x, accepted, gone, content, genesis, gcRound);
    SweptMissing(st, x, accepted, gone, content, genesis, gcRound, m.index.missingBlocks);
    m', after := Manager(x, dag, gcRound), State(x, dag.Keys, gcRound, st.received, st.trusted);
  }
}
