/** One validator's DAG, and the world of all blocks that validators may hold. */
module Views {
  import opened Types
  import opened Committee
  import BlockVerifier

  /** The blocks a validator holds. At or below `gcRound` histories may be incomplete. */
  datatype View = View(blocks: Dag, gcRound: Round)
  {
    predicate EntryClosed(r: BlockRef)
      requires r in blocks
    {
      && blocks[r].reference == r
      && forall a | a in blocks[r].ancestors :: a.round < r.round && (a.round > gcRound ==> a in blocks)
    }

    /** Every block above the GC round has its ancestors above the GC round in the view. */
    predicate Closed() {
      forall r {:trigger EntryClosed(r)} | r in blocks :: EntryClosed(r)
    }

    function AtRound(round: Round): set<BlockRef> {
      set r | r in blocks && r.round == round
    }

    function AtSlot(slot: Slot): set<BlockRef> {
      set r | r in blocks && SlotOf(r) == slot
    }
  }

  function Authors(refs: set<BlockRef>): set<Author> {
    set r | r in refs :: r.author
  }

  /** `to` is `from` or lies in its causal history, following blocks of `d`. */
  ghost predicate Reaches(d: Dag, from: BlockRef, to: BlockRef)
    decreases from.round
  {
    || from == to
    || (from in d && exists a | a in d[from].ancestors && a.round < from.round :: Reaches(d, a, to))
  }

  /** Blocks of the view at `round` in the history of `from`. */
  ghost function HistoryAt(v: View, from: BlockRef, round: Round): set<BlockRef> {
    set r | r in v.AtRound(round) && Reaches(v.blocks, from, r)
  }

  lemma {:induction false} ReachesTransitive(d: Dag, a: BlockRef, b: BlockRef, c: BlockRef)
    requires Reaches(d, a, b) && Reaches(d, b, c)
    ensures Reaches(d, a, c)
    decreases a.round
  {
    if a != b {
      var x :| x in d[a].ancestors && x.round < a.round && Reaches(d, x, b);
      ReachesTransitive(d, x, b, c);
    }
  }

  lemma {:induction false} ReachesDescends(d: Dag, from: BlockRef, to: BlockRef)
    requires Reaches(d, from, to)
    ensures from == to || to.round < from.round
    decreases from.round
  {
    if from != to {
      var x :| x in d[from].ancestors && x.round < from.round && Reaches(d, x, to);
      ReachesDescends(d, x, to);
    }
  }

  /** A closed view holds everything above its GC round that one of its blocks reaches. */
  lemma {:induction false} ReachesInView(v: View, from: BlockRef, to: BlockRef)
    requires v.Closed() && from in v.blocks && to.round > v.gcRound
    requires Reaches(v.blocks, from, to)
    ensures to in v.blocks
    decreases from.round
  {
    if from != to {
      var x :| x in v.blocks[from].ancestors && x.round < from.round && Reaches(v.blocks, x, to);
      ReachesDescends(v.blocks, x, to);
      assert v.EntryClosed(from);
      ReachesInView(v, x, to);
    }
  }

  /** All blocks ever produced, with the authors that may deviate from the protocol. */
  datatype World = World(committee: Committee, genesis: set<BlockRef>, blocks: Dag, faulty: set<Author>)
  {
    /** Every block is verified; authors that are not faulty produce one block per slot. */
    predicate Sound() {
      && committee.Tolerates(faulty)
      && (forall r {:trigger Verified(r)} | r in blocks :: Verified(r))
      && (forall r, s {:trigger NotEquivocating(r, s)} | r in blocks && s in blocks :: NotEquivocating(r, s))
    }

    predicate Verified(r: BlockRef)
      requires r in blocks
    {
      blocks[r].reference == r && BlockVerifier.WellFormed(committee, genesis, blocks[r])
    }

    predicate NotEquivocating(r: BlockRef, s: BlockRef) {
      SlotOf(r) == SlotOf(s) && r.author !in faulty ==> r == s
    }

    /** Authors that are not faulty link each block to their latest earlier one. */
    predicate HonestChains() {
      forall r, s {:trigger LinksTo(r, s)} | r in blocks && s in blocks :: LinksTo(r, s)
    }

    predicate LinksTo(r: BlockRef, s: BlockRef)
      requires r in blocks && s in blocks
    {
      r.author == s.author && r.author !in faulty && s.round < r.round ==>
        blocks[r].ancestors != [] && s.round <= blocks[r].ancestors[0].round
    }

    predicate Holds(v: View) {
      && v.Closed()
      && forall r | r in v.blocks :: r in blocks && v.blocks[r] == blocks[r]
    }
  }

  lemma ParentsAreQuorum(w: World, v: View, r: BlockRef)
    requires w.Sound() && w.Holds(v)
    requires r in v.blocks && r.round > v.gcRound + 1
    ensures var parents := set a | a in v.blocks[r].ancestors && a.round + 1 == r.round;
            parents <= v.AtRound(r.round - 1) && w.committee.IsQuorum(Authors(parents))
  {
    var parents := set a | a in v.blocks[r].ancestors && a.round + 1 == r.round;
    assert v.EntryClosed(r) && w.Verified(r);
    assert Authors(parents) == BlockVerifier.ParentAuthors(v.blocks[r]);
  }

  /** A verified block has a quorum of authors in its history at every lower round above GC. */
  lemma {:induction false} HistoryIsQuorum(w: World, v: View, r: BlockRef, round: Round)
    requires w.Sound() && w.Holds(v)
    requires r in v.blocks && v.gcRound < round < r.round
    ensures w.committee.IsQuorum(Authors(HistoryAt(v, r, round)))
    decreases r.round
  {
    var parents := set a | a in v.blocks[r].ancestors && a.round + 1 == r.round;
    ParentsAreQuorum(w, v, r);
    if round + 1 == r.round {
      forall p | p in parents ensures p in HistoryAt(v, r, round) {
        assert Reaches(v.blocks, p, p);
      }
      StakeMonotone(w.committee, Authors(parents), Authors(HistoryAt(v, r, round)));
    } else {
      var author := QuorumHasHonest(w.committee, Authors(parents), w.faulty);
      var p :| p in parents && p.author == author;
      HistoryIsQuorum(w, v, p, round);
      assert HistoryAt(v, p, round) <= HistoryAt(v, r, round);
      StakeMonotone(w.committee, Authors(HistoryAt(v, p, round)), Authors(HistoryAt(v, r, round)));
    }
  }
}
