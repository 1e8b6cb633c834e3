/**
 Walks over the causal history above the GC round: hard-linking a proposed block
 (`DagState::link_causal_history`) and collecting the sub-DAG of a committed leader
 (`Linearizer::linearize_sub_dag`). Both stop at blocks that are already marked.
 */
module CausalHistory {
  import opened Types
  import opened Views

  /** `to` is reached from `from` through blocks above the GC round. */
  ghost predicate ReachesAbove(d: Dag, gc: Round, from: BlockRef, to: BlockRef)
    decreases from.round
  {
    from.round > gc &&
    (from == to ||
      (from in d && exists a | a in d[from].ancestors && a.round < from.round :: ReachesAbove(d, gc, a, to)))
  }

  /** With each block above the GC round, its ancestors above the GC round are marked. */
  ghost predicate MarkedClosed(d: Dag, gc: Round, marked: set<BlockRef>) {
    forall r {:trigger EntryMarked(d, gc, marked, r)} | r in marked && r in d && r.round > gc ::
      EntryMarked(d, gc, marked, r)
  }

  ghost predicate EntryMarked(d: Dag, gc: Round, marked: set<BlockRef>, r: BlockRef)
    requires r in d
  {
    forall a | a in d[r].ancestors && a.round > gc :: a in marked
  }

  lemma {:induction false} ReachedIsMarked(v: View, marked: set<BlockRef>, from: BlockRef, to: BlockRef)
    requires v.Closed() && MarkedClosed(v.blocks, v.gcRound, marked)
    requires from in marked && from in v.blocks && ReachesAbove(v.blocks, v.gcRound, from, to)
    ensures to in marked && to in v.blocks
    decreases from.round
  {
    if from != to {
      var a :| a in v.blocks[from].ancestors && a.round < from.round && ReachesAbove(v.blocks, v.gcRound, a, to);
      assert EntryMarked(v.blocks, v.gcRound, marked, from) && v.EntryClosed(from);
      ReachedIsMarked(v, marked, a, to);
    }
  }

  lemma {:induction false} ReachesAboveTransitive(d: Dag, gc: Round, a: BlockRef, b: BlockRef, c: BlockRef)
    requires ReachesAbove(d, gc, a, b) && ReachesAbove(d, gc, b, c)
    ensures ReachesAbove(d, gc, a, c)
    decreases a.round
  {
    if a != b {
      var x :| x in d[a].ancestors && x.round < a.round && ReachesAbove(d, gc, x, b);
      ReachesAboveTransitive(d, gc, x, b, c);
    }
  }

  lemma {:induction false} ReachesAboveDescends(d: Dag, gc: Round, from: BlockRef, to: BlockRef)
    requires ReachesAbove(d, gc, from, to)
    ensures to.round > gc && (from == to || to.round < from.round)
    decreases from.round
  {
    if from != to {
      var x :| x in d[from].ancestors && x.round < from.round && ReachesAbove(d, gc, x, to);
      ReachesAboveDescends(d, gc, x, to);
    }
  }

  /** A step from a reached block to an ancestor above the GC round. */
  lemma ReachesAncestor(v: View, root: BlockRef, r: BlockRef, a: BlockRef)
    requires v.Closed() && r in v.blocks && ReachesAbove(v.blocks, v.gcRound, root, r)
    requires a in v.blocks[r].ancestors && a.round > v.gcRound
    ensures ReachesAbove(v.blocks, v.gcRound, root, a)
  {
    assert v.EntryClosed(r);
    ReachesAboveDescends(v.blocks, v.gcRound, root, r);
    assert ReachesAbove(v.blocks, v.gcRound, a, a);
    assert ReachesAbove(v.blocks, v.gcRound, r, a);
    ReachesAboveTransitive(v.blocks, v.gcRound, root, r, a);
  }

  ghost function HistoryAbove(v: View, root: BlockRef): set<BlockRef> {
    set r | r in v.blocks && ReachesAbove(v.blocks, v.gcRound, root, r)
  }

  // ---- Hard links ----

  /** Marked blocks have each ancestor above the GC round marked or queued. */
  ghost predicate Pending(v: View, marked: set<BlockRef>, queued: set<BlockRef>) {
    forall r {:trigger EntryMarked(v.blocks, v.gcRound, marked + queued, r)} | r in marked && r in v.blocks &&
      r.round > v.gcRound ::
      EntryMarked(v.blocks, v.gcRound, marked + queued, r)
  }

  /** The state of the queue: what is linked and what is still to be looked at lies in the history of the root. */
  ghost predicate Linking(v: View, root: BlockRef, before: set<BlockRef>, linked: set<BlockRef>, newly: seq<BlockRef>,
      targets: seq<BlockRef>)
  {
    && linked == before + Elements(newly) && before !! Elements(newly) && Distinct(newly)
    && Elements(newly) <= HistoryAbove(v, root)
    && (forall t | t in targets && t.round > v.gcRound :: t in HistoryAbove(v, root))
    && (root.round > v.gcRound ==> root in linked || root in targets)
  }

  /** An entry that is collected or already linked is passed over. */
  lemma LinkSkip(v: View, root: BlockRef, before: set<BlockRef>, linked: set<BlockRef>, newly: seq<BlockRef>,
      targets: seq<BlockRef>)
    requires Linking(v, root, before, linked, newly, targets) && Pending(v, linked, Elements(targets)) && targets != []
    requires targets[0].round <= v.gcRound || targets[0] in linked
    ensures Linking(v, root, before, linked, newly, targets[1..]) && Pending(v, linked, Elements(targets[1..]))
  {
    assert targets == [targets[0]] + targets[1..];
    forall r | r in linked && r in v.blocks && r.round > v.gcRound
      ensures EntryMarked(v.blocks, v.gcRound, linked + Elements(targets[1..]), r)
    {
      assert EntryMarked(v.blocks, v.gcRound, linked + Elements(targets), r);
    }
  }

  lemma LinkStep(v: View, root: BlockRef, before: set<BlockRef>, linked: set<BlockRef>, newly: seq<BlockRef>,
      targets: seq<BlockRef>)
    requires v.Closed() && Linking(v, root, before, linked, newly, targets) && Pending(v, linked, Elements(targets))
    requires targets != []
    requires targets[0].round > v.gcRound && targets[0] !in linked
    ensures targets[0] in v.blocks
    ensures var t := targets[0]; var rest := targets[1..] + v.blocks[t].ancestors;
            Linking(v, root, before, linked + {t}, newly + [t], rest) && Pending(v, linked + {t}, Elements(rest))
  {
    var t := targets[0];
    assert t in targets;
    var rest := targets[1..] + v.blocks[t].ancestors;
    forall a | a in v.blocks[t].ancestors && a.round > v.gcRound ensures a in HistoryAbove(v, root) {
      ReachesAncestor(v, root, t, a);
      assert v.EntryClosed(t);
    }
    assert Elements(newly + [t]) == Elements(newly) + {t};
    forall r | r in linked + {t} && r in v.blocks && r.round > v.gcRound
      ensures EntryMarked(v.blocks, v.gcRound, linked + {t} + Elements(rest), r)
    {
      if r != t {
        assert EntryMarked(v.blocks, v.gcRound, linked + Elements(targets), r);
        assert linked + Elements(targets) <= linked + {t} + Elements(rest);
      }
    }
  }

  /** Hard-links the history of a block; what is newly linked is exactly what was not linked before. */
  method LinkCausalHistory(v: View, linked: set<BlockRef>, root: BlockRef)
    returns (linked': set<BlockRef>, newly: seq<BlockRef>)
    requires v.Closed() && (root.round > v.gcRound ==> root in v.blocks)
    requires linked <= v.blocks.Keys && MarkedClosed(v.blocks, v.gcRound, linked)
    ensures Distinct(newly) && Elements(newly) == HistoryAbove(v, root) - linked
    ensures linked' == linked + HistoryAbove(v, root) && MarkedClosed(v.blocks, v.gcRound, linked')
  {
    linked', newly := linked, [];
    var targets := [root];
    LinkStart(v, linked, root);
    while targets != []
      invariant Linking(v, root, linked, linked', newly, targets)
      invariant Pending(v, linked', Elements(targets))
      decreases |v.blocks.Keys - linked'|, |targets|
    {
      var t := targets[0];
      if t.round <= v.gcRound || t in linked' {
        LinkSkip(v, root, linked, linked', newly, targets);
        targets := targets[1..];
      } else {
        LinkStep(v, root, linked, linked', newly, targets);
        Smaller(v.blocks.Keys - (linked' + {t}), v.blocks.Keys - linked', t);
        targets := targets[1..] + v.blocks[t].ancestors;
        newly := newly + [t];
        linked' := linked' + {t};
      }
    }
    LinkDone(v, root, linked, linked', newly);
  }

  lemma LinkStart(v: View, linked: set<BlockRef>, root: BlockRef)
    requires v.Closed() && (root.round > v.gcRound ==> root in v.blocks) && MarkedClosed(v.blocks, v.gcRound, linked)
    ensures Linking(v, root, linked, linked, [], [root]) && Pending(v, linked, Elements([root]))
  {
    forall r | r in linked && r in v.blocks && r.round > v.gcRound
      ensures EntryMarked(v.blocks, v.gcRound, linked + Elements([root]), r)
    {
      assert EntryMarked(v.blocks, v.gcRound, linked, r);
    }
    assert root.round > v.gcRound ==> ReachesAbove(v.blocks, v.gcRound, root, root);
  }

  lemma LinkDone(v: View, root: BlockRef, before: set<BlockRef>, linked: set<BlockRef>, newly: seq<BlockRef>)
    requires v.Closed() && (root.round > v.gcRound ==> root in v.blocks)
    requires Linking(v, root, before, linked, newly, []) && Pending(v, linked, Elements([]))
    ensures Elements(newly) == HistoryAbove(v, root) - before
    ensures linked == before + HistoryAbove(v, root) && MarkedClosed(v.blocks, v.gcRound, linked)
  {
    assert linked + Elements([]) == linked;
    forall r | r in linked && r in v.blocks && r.round > v.gcRound ensures EntryMarked(v.blocks, v.gcRound, linked, r) {
      assert EntryMarked(v.blocks, v.gcRound, linked + Elements([]), r);
    }
    forall r | r in HistoryAbove(v, root) ensures r in linked {
      ReachedIsMarked(v, linked, root, r);
    }
  }
}
