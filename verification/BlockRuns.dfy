/** Properties of the block manager over whole runs, and the view it gives to the commit rule. */
module BlockRuns {
  import opened Types
  import opened Committee
  import opened Views
  import opened BlockIndex
  import BlockVerifier

  function Initial(gc: Round): State {
    StartState({}, gc, {})
  }

  /** `st` can result from taking in the batches one after the other, at a fixed GC round. */
  ghost predicate ResultsFrom(batches: seq<seq<Block>>, st: State, content: Content, genesis: set<BlockRef>, gc: Round)
    decreases |batches|
  {
    if batches == [] then st == Initial(gc)
    else
      var last := |batches| - 1;
      exists before, accepted ::
        && ResultsFrom(batches[..last], before, content, genesis, gc)
        && BatchState(before, st, content, genesis, batches[last], false, accepted)
  }

  /** All references above the GC round that the batches contain. */
  function AllTakenIn(batches: seq<seq<Block>>, gc: Round): set<BlockRef> {
    if batches == [] then {}
    else AllTakenIn(batches[..|batches| - 1], gc) + TakenIn(batches[|batches| - 1], gc, false)
  }

  lemma {:induction false} RunState(batches: seq<seq<Block>>, st: State, content: Content, genesis: set<BlockRef>,
      gc: Round)
    requires ResultsFrom(batches, st, content, genesis, gc)
    ensures ValidState(st, content, genesis) && NoIdleKeys(st.index)
    ensures st.received == AllTakenIn(batches, gc) && st.trusted == {} && st.gcRound == gc
    decreases |batches|
  {
    if batches != [] {
      var last := |batches| - 1;
      var before, accepted :| ResultsFrom(batches[..last], before, content, genesis, gc)
                              && BatchState(before, st, content, genesis, batches[last], false, accepted);
      RunState(batches[..last], before, content, genesis, gc);
    }
  }

  /**
   Confluence: whatever the order and grouping in which the same blocks arrive, the DAG, the suspended
   blocks and the missing references end up the same, and the DAG holds exactly the blocks whose whole
   history above the GC round has arrived.
   */
  lemma Confluence(batches1: seq<seq<Block>>, st1: State, batches2: seq<seq<Block>>, st2: State, content: Content,
      genesis: set<BlockRef>, gc: Round)
    requires ResultsFrom(batches1, st1, content, genesis, gc) && ResultsFrom(batches2, st2, content, genesis, gc)
    requires AllTakenIn(batches1, gc) == AllTakenIn(batches2, gc)
    ensures st1 == st2
    ensures forall r :: r in st1.dag <==> Connected(content, AllTakenIn(batches1, gc), {}, gc, r)
  {
    RunState(batches1, st1, content, genesis, gc);
    RunState(batches2, st2, content, genesis, gc);
    StateIsDetermined(st1, st2, content, genesis);
    forall r ensures r in st1.dag <==> Connected(content, AllTakenIn(batches1, gc), {}, gc, r) {
      DagIsConnected(st1, content, genesis, r);
    }
  }

  /** A connected block is one whose whole history above the GC round has been received. */
  lemma {:induction false} ConnectedMeansHistoryReceived(content: Content, genesis: set<BlockRef>,
      received: set<BlockRef>, gc: Round, r: BlockRef)
    requires AllProper(content, genesis, received)
    ensures Connected(content, received, {}, gc, r) <==> forall t | History(content, gc, r, t) :: t in received
    decreases r.round
  {
    assert History(content, gc, r, r);
    if Connected(content, received, {}, gc, r) {
      forall t | History(content, gc, r, t) ensures t in received {
        if t != r {
          var a :| a in Needed(content(r), gc) && a.round < r.round && History(content, gc, a, t);
          ConnectedMeansHistoryReceived(content, genesis, received, gc, a);
        }
      }
    }
    if forall t | History(content, gc, r, t) :: t in received {
      forall a | a in Needed(content(r), gc) && a.round < r.round ensures Connected(content, received, {}, gc, a) {
        forall t | History(content, gc, a, t) ensures t in received {
          assert History(content, gc, r, t);
        }
        ConnectedMeansHistoryReceived(content, genesis, received, gc, a);
      }
    }
  }

  /** `t` is `r` or reached from it through ancestors above the GC round. */
  ghost predicate History(content: Content, gc: Round, r: BlockRef, t: BlockRef)
    decreases r.round
  {
    t == r || exists a | a in Needed(content(r), gc) && a.round < r.round :: History(content, gc, a, t)
  }

  // ---- Runs of all operations ----

  /**
   An operation of the block manager. The blocks of certified commits come with the GC round above which they are
   closed: that of the last of these commits, which may be higher than the one in force when they arrive.
   */
  datatype Op =
    | Receive(blocks: seq<Block>)
    | ReceiveCommitted(blocks: seq<Block>, closedAbove: Round)
    | Find(refs: seq<BlockRef>)
    | Advance(gcRound: Round)

  /** Every ancestor above `gc` of a block of the batch is in the batch or already accepted. */
  ghost predicate BatchClosed(blocks: seq<Block>, gc: Round, dag: set<BlockRef>) {
    forall b | b in blocks :: Needed(b, gc) <= References(blocks) + dag
  }

  ghost predicate IsStep(op: Op, st: State, after: State, content: Content, genesis: set<BlockRef>) {
    match op
    case Receive(blocks) => exists accepted :: BatchState(st, after, content, genesis, blocks, false, accepted)
    case ReceiveCommitted(blocks, closedAbove) =>
      && BatchClosed(blocks, closedAbove, st.dag) && (forall b | b in blocks :: b == content(b.reference))
      && exists accepted :: BatchState(st, after, content, genesis, blocks, true, accepted)
    case Find(refs) => after ==
      st.(index := Request(st.index, Unmet(refs, st.gcRound, st.dag + st.index.suspended.Keys)))
    case Advance(gc) => after.gcRound == gc && exists accepted :: SweptState(st, after, content, genesis, accepted)
  }

  /** A run starts on a DAG that is closed above its GC round: an empty one, or what an earlier run left. */
  ghost predicate IsStart(st: State, content: Content, genesis: set<BlockRef>) {
    && st == StartState(st.dag, st.gcRound, {})
    && AllProper(content, genesis, st.dag) && DagClosed(content, st.dag, {}, st.gcRound)
  }

  ghost predicate IsRun(ops: seq<Op>, states: seq<State>, content: Content, genesis: set<BlockRef>) {
    && |states| == |ops| + 1 && IsStart(states[0], content, genesis)
    && forall k {:trigger StepAt(ops, states, content, genesis, k)} | 0 <= k < |ops| ::
      StepAt(ops, states, content, genesis, k)
  }

  ghost predicate StepAt(ops: seq<Op>, states: seq<State>, content: Content, genesis: set<BlockRef>, k: nat)
    requires |states| == |ops| + 1 && k < |ops|
  {
    IsStep(ops[k], states[k], states[k + 1], content, genesis)
  }

  /** The GC round that the committed blocks taken in so far wait for. */
  function Due(ops: seq<Op>): Round {
    if ops == [] then 0
    else
      var before := Due(ops[..|ops| - 1]);
      match ops[|ops| - 1]
      case ReceiveCommitted(_, gc) => if gc > before then gc else before
      case _ => before
  }

  /** Committed blocks have their ancestors above the round that is due. */
  ghost predicate TrustedClosed(st: State, content: Content, due: Round) {
    forall r | r in st.trusted :: Needed(content(r), due) <= st.dag
  }

  lemma FindKeepsValid(st: State, content: Content, genesis: set<BlockRef>, refs: seq<BlockRef>)
    requires ValidState(st, content, genesis)
    ensures ValidState(st.(index := Request(st.index, Unmet(refs, st.gcRound, st.dag + st.index.suspended.Keys))),
            content, genesis)
  {
    RequestKeepsConsistent(st.index, content, st.gcRound, st.dag,
      Unmet(refs, st.gcRound, st.dag + st.index.suspended.Keys));
  }

  lemma StepKeepsTrusted(op: Op, st: State, after: State, content: Content, genesis: set<BlockRef>, due: Round,
      due': Round)
    requires IsStep(op, st, after, content, genesis) && ValidState(st, content, genesis)
    requires TrustedClosed(st, content, due) && due' >= due && (op.ReceiveCommitted? ==> due' >= op.closedAbove)
    ensures ValidState(after, content, genesis) && TrustedClosed(after, content, due')
  {
    match op {
      case Receive(blocks) =>
        var accepted :| BatchState(st, after, content, genesis, blocks, false, accepted);
      case ReceiveCommitted(blocks, closedAbove) =>
        var accepted :| BatchState(st, after, content, genesis, blocks, true, accepted);
        assert References(blocks) <= after.dag;
        forall r | r in References(blocks) ensures Needed(content(r), due') <= after.dag {
          var b :| b in blocks && b.reference == r;
          assert Needed(b, due') <= Needed(b, closedAbove);
        }
      case Find(refs) =>
        FindKeepsValid(st, content, genesis, refs);
      case Advance(_) =>
        var accepted :| SweptState(st, after, content, genesis, accepted);
    }
    forall r | r in st.trusted ensures Needed(content(r), due') <= after.dag {
      assert Needed(content(r), due') <= Needed(content(r), due);
    }
  }

  /** Every state of a run is valid, and closed above the round that is due. */
  lemma {:induction false} RunKeepsTrusted(ops: seq<Op>, states: seq<State>, content: Content, genesis: set<BlockRef>,
      k: nat)
    requires IsRun(ops, states, content, genesis) && k <= |ops|
    ensures ValidState(states[k], content, genesis) && TrustedClosed(states[k], content, Due(ops[..k]))
    decreases k
  {
    if k > 0 {
      RunKeepsTrusted(ops, states, content, genesis, k - 1);
      assert StepAt(ops, states, content, genesis, k - 1);
      assert ops[..k][..k - 1] == ops[..k - 1];
      StepKeepsTrusted(ops[k - 1], states[k - 1], states[k], content, genesis, Due(ops[..k - 1]), Due(ops[..k]));
    }
  }

  /**
   Over every run of received and committed batches, searches and GC advances, the accepted blocks are a closed view,
   which is what the commit rule asks for, whenever the GC round has caught up with the committed blocks.
   */
  lemma ClosedOnceCaughtUp(ops: seq<Op>, states: seq<State>, content: Content, genesis: set<BlockRef>, k: nat, dag: Dag)
    requires IsRun(ops, states, content, genesis) && k <= |ops|
    requires dag.Keys == states[k].dag && Faithful(content, dag) && states[k].gcRound >= Due(ops[..k])
    ensures View(dag, states[k].gcRound).Closed()
  {
    var st := states[k];
    RunKeepsTrusted(ops, states, content, genesis, k);
    var v := View(dag, st.gcRound);
    forall r | r in v.blocks ensures v.EntryClosed(r) {
      assert EntryClosed(content, st.dag, st.trusted, st.gcRound, r);
      assert Proper(content, genesis, content(r));
      forall a | a in v.blocks[r].ancestors ensures a.round < r.round && (a.round > st.gcRound ==> a in v.blocks) {
        assert a.round > st.gcRound ==> a in Needed(content(r), st.gcRound) && a in Needed(content(r), Due(ops[..k]));
      }
    }
  }

  // ---- Exactly when it has caught up ----

  /** A run that ends at GC round `gc` with `due` still to come, in which every block taken in passes verification. */
  ghost predicate IsVerifiedRun(c: Committee, ops: seq<Op>, states: seq<State>, content: Content,
      genesis: set<BlockRef>, gc: Round, due: Round)
  {
    && IsRun(ops, states, content, genesis) && states[|ops|].gcRound == gc && Due(ops) == due
    && forall st, r | st in states && r in st.received :: BlockVerifier.WellFormed(c, genesis, content(r))
  }

  /** `dag` has the blocks that the run has accepted. */
  ghost predicate Gives(ops: seq<Op>, states: seq<State>, content: Content, dag: Dag)
    requires |states| == |ops| + 1
  {
    dag.Keys == states[|ops|].dag && Faithful(content, dag)
  }

  ghost predicate AlwaysClosed(c: Committee, genesis: set<BlockRef>, gc: Round, due: Round) {
    forall ops, states, content, dag |
      IsVerifiedRun(c, ops, states, content, genesis, gc, due) && Gives(ops, states, content, dag) ::
      View(dag, gc).Closed()
  }

  /** A committed block without its ancestors, which were collected when it was committed. */
  function Orphan(n: nat, due: Round): Block {
    Block(Ref(due + 1, 0), seq(n, i requires 0 <= i < n => Ref(due, i)), 0, [], [])
  }

  lemma OrphanIsWellFormed(c: Committee, genesis: set<BlockRef>, due: Round)
    requires c.Valid() && due > 0
    ensures BlockVerifier.WellFormed(c, genesis, Orphan(|c.stakes|, due))
  {
    var b := Orphan(|c.stakes|, due);
    forall a | a in c.Everyone() ensures a in BlockVerifier.ParentAuthors(b) {
      assert b.ancestors[a] in b.ancestors;
    }
    StakeBelowMonotone(c, c.Everyone(), BlockVerifier.ParentAuthors(b), |c.stakes|);
    StakeBelowEmpty(c, |c.stakes|);
    assert c.stakes == [] ==> c.Everyone() == {};
  }

  /** Such a block is taken in with a commit, at any GC round. */
  lemma OrphanIsTakenIn(content: Content, genesis: set<BlockRef>, gc: Round, n: nat, due: Round)
    requires due > 0 && content(Ref(due + 1, 0)) == Orphan(n, due)
    ensures var b := Orphan(n, due);
            BatchState(Initial(gc), StartState({b.reference}, gc, {b.reference}), content, genesis, [b], true, [b])
  {
    var b := Orphan(n, due);
    assert References([b]) == {b.reference} && TakenIn([b], gc, true) == {b.reference};
    assert CausallyPlaced([b], gc, {}, {b.reference}, 0);
  }

  /** Before the GC round has caught up, a run of one verified block leaves the view open. */
  lemma OpenBeforeCaughtUp(c: Committee, genesis: set<BlockRef>, gc: Round, due: Round)
    returns (ops: seq<Op>, states: seq<State>, content: Content, dag: Dag)
    requires c.Valid() && gc < due
    ensures IsVerifiedRun(c, ops, states, content, genesis, gc, due) && Gives(ops, states, content, dag)
    ensures !View(dag, gc).Closed()
  {
    var b := Orphan(|c.stakes|, due);
    ops, content, dag := [ReceiveCommitted([b], due)], _ => b, map[b.reference := b];
    states := [Initial(gc), StartState({b.reference}, gc, {b.reference})];
    OrphanIsWellFormed(c, genesis, due);
    OrphanIsTakenIn(content, genesis, gc, |c.stakes|, due);
    assert BatchClosed([b], due, Initial(gc).dag);
    assert StepAt(ops, states, content, genesis, 0);
    assert ops[..0] == [] && Due([]) == 0;
    assert b.ancestors[0] in b.ancestors && !View(dag, gc).EntryClosed(b.reference);
  }

  /**
   In every committee, the blocks accepted by runs of verified blocks are a closed view exactly from the moment the GC
   round has caught up with the committed blocks.
   */
  lemma ClosedIff(c: Committee, genesis: set<BlockRef>, gc: Round, due: Round)
    requires c.Valid()
    ensures AlwaysClosed(c, genesis, gc, due) <==> gc >= due
  {
    if gc >= due {
      forall ops, states, content, dag |
        IsVerifiedRun(c, ops, states, content, genesis, gc, due) && Gives(ops, states, content, dag)
        ensures View(dag, gc).Closed()
      {
        assert ops[..|ops|] == ops;
        ClosedOnceCaughtUp(ops, states, content, genesis, |ops|, dag);
      }
    } else {
      var ops, states, content, dag := OpenBeforeCaughtUp(c, genesis, gc, due);
    }
  }
}
