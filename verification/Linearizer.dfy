/**
 Expanding committed leaders into sub-DAGs (`Linearizer`): every committed leader brings the part of its
 history above the GC round that earlier leaders have not committed.
 */
module Linearizer {
  import opened Types
  import opened Views
  import opened Sorting
  import opened CausalHistory
  import opened BlockIndex

  /** Every block lists each ancestor once (verification admits one per author). */
  ghost predicate AncestorsDistinct(v: View) {
    forall r {:trigger Distinct(v.blocks[r].ancestors)} | r in v.blocks :: Distinct(v.blocks[r].ancestors)
  }

  function UncommittedSet(refs: seq<BlockRef>, gc: Round, committed: set<BlockRef>): set<BlockRef> {
    set a | a in refs && a.round > gc && a !in committed
  }

  /** Ancestors above the GC round that are not committed, in the order listed. */
  function Uncommitted(refs: seq<BlockRef>, gc: Round, committed: set<BlockRef>): (r: seq<BlockRef>)
    ensures Elements(r) == UncommittedSet(refs, gc, committed)
    ensures Distinct(refs) ==> Distinct(r)
  {
    if refs == [] then []
    else
      var last := |refs| - 1;
      var front := Uncommitted(refs[..last], gc, committed);
      assert refs == refs[..last] + [refs[last]];
      if refs[last].round > gc && refs[last] !in committed then
        assert Elements(front + [refs[last]]) == Elements(front) + {refs[last]};
        assert Distinct(refs) ==> refs[last] !in refs[..last];
        front + [refs[last]]
      else front
  }

  lemma FewerUnmarked(all: set<BlockRef>, marked: set<BlockRef>, found: set<BlockRef>)
    requires found <= all && found !! marked
    ensures |all - (marked + found)| <= |all - marked|
    ensures found != {} ==> |all - (marked + found)| < |all - marked|
  {
    SubsetSize(all - (marked + found), all - marked);
    if found != {} {
      var x :| x in found;
      Smaller(all - (marked + found), all - marked, x);
    }
  }

  /** The blocks taken from the stack from here on: last pushed first, each with its unmarked ancestors pushed. */
  ghost function Collected(d: Dag, gc: Round, marked: set<BlockRef>, stack: seq<BlockRef>): seq<Block>
    decreases |d.Keys - marked|, |stack|
  {
    if stack == [] || stack[|stack| - 1] !in d then []
    else
      var b := d[stack[|stack| - 1]];
      var found := Uncommitted(b.ancestors, gc, marked);
      if Elements(found) <= d.Keys then
        FewerUnmarked(d.Keys, marked, Elements(found));
        assert found != [] ==> found[0] in Elements(found);
        [b] + Collected(d, gc, marked + Elements(found), stack[..|stack| - 1] + found)
      else []
  }

  /** The sub-DAG of a leader: a function of its history and of what is committed. */
  ghost function Linearized(d: Dag, gc: Round, committed: set<BlockRef>, leader: BlockRef): seq<Block> {
    Sort(true, Collected(d, gc, committed + {leader}, [leader]))
  }

  /** What is above the GC round decides alone what is left out. */
  lemma {:induction false} UncommittedSame(refs: seq<BlockRef>, gc: Round, marked1: set<BlockRef>,
      marked2: set<BlockRef>)
    requires forall r: BlockRef | r.round > gc :: r in marked1 <==> r in marked2
    ensures Uncommitted(refs, gc, marked1) == Uncommitted(refs, gc, marked2)
    decreases |refs|
  {
    if refs != [] {
      UncommittedSame(refs[..|refs| - 1], gc, marked1, marked2);
    }
  }

  /** A closed view holds what it pushes. */
  lemma PushedIsHeld(v: View, x: BlockRef, marked: set<BlockRef>, rest: seq<BlockRef>, found: seq<BlockRef>)
    requires v.Closed() && x in v.blocks && (forall r | r in rest :: r in v.blocks)
    requires Elements(found) == UncommittedSet(v.blocks[x].ancestors, v.gcRound, marked)
    ensures Elements(found) <= v.blocks.Keys && forall r | r in rest + found :: r in v.blocks
  {
    assert v.EntryClosed(x);
    forall r | r in rest + found ensures r in v.blocks {
      assert r in rest || r in Elements(found);
    }
  }

  /** Two validators collect the same blocks in the same order. */
  lemma {:induction false} CollectedSame(w: World, v1: View, v2: View, marked1: set<BlockRef>, marked2: set<BlockRef>,
      stack: seq<BlockRef>)
    requires w.Holds(v1) && w.Holds(v2) && v1.gcRound == v2.gcRound
    requires forall r: BlockRef | r.round > v1.gcRound :: r in marked1 <==> r in marked2
    requires forall r | r in stack :: r in v1.blocks && r in v2.blocks
    ensures Collected(v1.blocks, v1.gcRound, marked1, stack) == Collected(v2.blocks, v2.gcRound, marked2, stack)
    decreases |v1.blocks.Keys - marked1|, |stack|
  {
    if stack != [] {
      var x, rest := stack[|stack| - 1], stack[..|stack| - 1];
      assert x in stack && v1.blocks[x] == v2.blocks[x];
      var found := Uncommitted(v1.blocks[x].ancestors, v1.gcRound, marked1);
      UncommittedSame(v1.blocks[x].ancestors, v1.gcRound, marked1, marked2);
      PushedIsHeld(v1, x, marked1, rest, found);
      PushedIsHeld(v2, x, marked2, rest, found);
      FewerUnmarked(v1.blocks.Keys, marked1, Elements(found));
      assert found != [] ==> found[0] in Elements(found);
      CollectedSame(w, v1, v2, marked1 + Elements(found), marked2 + Elements(found), rest + found);
    }
  }

  lemma LinearizedSame(w: World, v1: View, v2: View, committed: set<BlockRef>, leader: BlockRef)
    requires w.Holds(v1) && w.Holds(v2) && v1.gcRound == v2.gcRound && leader in v1.blocks && leader in v2.blocks
    ensures Linearized(v1.blocks, v1.gcRound, committed, leader) == Linearized(v2.blocks, v2.gcRound, committed, leader)
  {
    CollectedSame(w, v1, v2, committed + {leader}, committed + {leader}, [leader]);
  }

  /**
   The state of the stack: `marked` are the blocks of this sub-DAG so far, of which `stack` have not been
   followed yet.
   */
  ghost predicate Collecting(v: View, leader: BlockRef, committed: set<BlockRef>, marked: set<BlockRef>,
      stack: seq<BlockRef>, out: seq<Block>)
  {
    && marked <= HistoryAbove(v, leader) - committed && leader in marked
    && marked == References(out) + Elements(stack) && References(out) !! Elements(stack)
    && Distinct(stack) && DistinctReferences(out)
    && (forall b | b in out :: b.reference in v.blocks && b == v.blocks[b.reference])
    && Followed(v, committed + References(out), committed + marked)
  }

  /** Blocks of `done` have all their ancestors above the GC round in `all`. */
  ghost predicate Followed(v: View, done: set<BlockRef>, all: set<BlockRef>) {
    forall r {:trigger EntryMarked(v.blocks, v.gcRound, all, r)} | r in done && r in v.blocks && r.round > v.gcRound ::
      EntryMarked(v.blocks, v.gcRound, all, r)
  }

  lemma CollectStart(v: View, leader: BlockRef, committed: set<BlockRef>)
    requires v.Closed() && leader in v.blocks && leader.round > v.gcRound && leader !in committed
    requires MarkedClosed(v.blocks, v.gcRound, committed)
    ensures Collecting(v, leader, committed, {leader}, [leader], [])
  {
    assert ReachesAbove(v.blocks, v.gcRound, leader, leader);
    assert References([]) == {};
    forall r | r in committed + References([]) && r in v.blocks && r.round > v.gcRound
      ensures EntryMarked(v.blocks, v.gcRound, committed + {leader}, r)
    {
      assert EntryMarked(v.blocks, v.gcRound, committed, r);
    }
  }

  lemma CollectStep(v: View, leader: BlockRef, committed: set<BlockRef>, marked: set<BlockRef>, stack: seq<BlockRef>,
      out: seq<Block>, rest: seq<BlockRef>, x: BlockRef, found: seq<BlockRef>)
    requires v.Closed() && Collecting(v, leader, committed, marked, stack, out)
    requires stack == rest + [x] && x in v.blocks
    requires Elements(found) == UncommittedSet(v.blocks[x].ancestors, v.gcRound, committed + marked) && Distinct(found)
    ensures Collecting(v, leader, committed, marked + Elements(found), rest + found, out + [v.blocks[x]])
  {
    assert v.EntryClosed(x);
    assert x in Elements(stack) && x in HistoryAbove(v, leader);
    var b, marked', out' := v.blocks[x], marked + Elements(found), out + [v.blocks[x]];
    ElementsPop(stack, rest, x);
    ReferencesConcat(out, [b]);
    assert References([b]) == {x};
    DistinctConcat(out, [b]);
    assert Elements(rest + found) == Elements(rest) + Elements(found);
    FreshOnStack(rest, found, marked);
    forall a | a in Elements(found) ensures a in HistoryAbove(v, leader) {
      ReachesAncestor(v, leader, x, a);
    }
    FollowStep(v, committed, marked, out, x, found);
  }

  /** The walk makes progress, and what it pushes is new. */
  lemma CollectTurn(v: View, leader: BlockRef, committed: set<BlockRef>, marked: set<BlockRef>, stack: seq<BlockRef>,
      out: seq<Block>, x: BlockRef, found: seq<BlockRef>)
    requires v.Closed() && Collecting(v, leader, committed, marked, stack, out) && x in stack && x in v.blocks
    requires Elements(found) == UncommittedSet(v.blocks[x].ancestors, v.gcRound, committed + marked)
    ensures Elements(found) !! committed + marked
    ensures committed + marked + Elements(found) == committed + (marked + Elements(found))
    ensures |v.blocks.Keys - References(out + [v.blocks[x]])| < |v.blocks.Keys - References(out)|
  {
    StackIsNew(v, leader, committed, marked, stack, out, x);
    CollectShrinks(v, out, x);
  }

  lemma StackIsNew(v: View, leader: BlockRef, committed: set<BlockRef>, marked: set<BlockRef>, stack: seq<BlockRef>,
      out: seq<Block>, x: BlockRef)
    requires v.Closed() && Collecting(v, leader, committed, marked, stack, out) && x in stack && x in v.blocks
    ensures x !in References(out) && v.blocks[x].reference == x
  {
    assert v.EntryClosed(x) && x in Elements(stack);
  }

  lemma FreshOnStack(rest: seq<BlockRef>, found: seq<BlockRef>, marked: set<BlockRef>)
    requires Distinct(rest) && Distinct(found) && Elements(rest) <= marked && Elements(found) !! marked
    ensures Distinct(rest + found)
  {
    var q := rest + found;
    forall i, j | 0 <= i < j < |q| ensures q[i] != q[j] {
      if i < |rest| <= j {
        assert q[i] in Elements(rest) && q[j] in Elements(found);
      }
    }
  }

  lemma FollowStep(v: View, committed: set<BlockRef>, marked: set<BlockRef>, out: seq<Block>, x: BlockRef,
      found: seq<BlockRef>)
    requires v.Closed() && x in v.blocks && Followed(v, committed + References(out), committed + marked)
    requires Elements(found) == UncommittedSet(v.blocks[x].ancestors, v.gcRound, committed + marked)
    ensures Followed(v, committed + (References(out) + {x}), committed + (marked + Elements(found)))
  {
    var all := committed + (marked + Elements(found));
    forall r | r in committed + (References(out) + {x}) && r in v.blocks && r.round > v.gcRound
      ensures EntryMarked(v.blocks, v.gcRound, all, r)
    {
      if r != x {
        assert EntryMarked(v.blocks, v.gcRound, committed + marked, r);
      }
    }
  }

  lemma CollectDone(v: View, leader: BlockRef, committed: set<BlockRef>, marked: set<BlockRef>, out: seq<Block>)
    requires v.Closed() && Collecting(v, leader, committed, marked, [], out)
    ensures marked == References(out) == HistoryAbove(v, leader) - committed
    ensures MarkedClosed(v.blocks, v.gcRound, committed + marked)
    ensures committed + marked == committed + HistoryAbove(v, leader)
  {
    assert Elements([]) == {} && marked == References(out);
    forall r | r in committed + marked && r in v.blocks && r.round > v.gcRound
      ensures EntryMarked(v.blocks, v.gcRound, committed + marked, r)
    {
      assert r in committed + References(out);
    }
    forall r | r in HistoryAbove(v, leader) - committed ensures r in marked {
      ReachedIsMarked(v, committed + marked, leader, r);
    }
  }

  /** What is collected, whoever collects it. */
  lemma {:induction false} CollectedContents(v: View, leader: BlockRef, committed: set<BlockRef>, marked: set<BlockRef>,
      stack: seq<BlockRef>, out: seq<Block>) returns (all: set<BlockRef>)
    requires v.Closed() && AncestorsDistinct(v) && Collecting(v, leader, committed, marked, stack, out)
    ensures Collecting(v, leader, committed, all, [], out + Collected(v.blocks, v.gcRound, committed + marked, stack))
    decreases |v.blocks.Keys - References(out)|
  {
    if stack == [] {
      all := marked;
      assert out + [] == out;
    } else {
      var last := |stack| - 1;
      var x, rest := stack[last], stack[..last];
      ElementsPop(stack, rest, x);
      assert x in Elements(stack) && x in v.blocks && Distinct(v.blocks[x].ancestors);
      var found := Uncommitted(v.blocks[x].ancestors, v.gcRound, committed + marked);
      CollectStep(v, leader, committed, marked, stack, out, rest, x, found);
      CollectTurn(v, leader, committed, marked, stack, out, x, found);
      CollectedTurn(v, committed + marked, stack, out, found);
      all := CollectedContents(v, leader, committed, marked + Elements(found), rest + found, out + [v.blocks[x]]);
    }
  }

  /** The sub-DAG is the uncommitted history of the leader above the GC round, by round and author, each block once. */
  ghost predicate IsSubDag(v: View, committed: set<BlockRef>, leader: BlockRef, subDag: seq<Block>) {
    && References(subDag) == HistoryAbove(v, leader) - committed && DistinctReferences(subDag) && Ascends(true, subDag)
    && forall b | b in subDag :: b.reference in v.blocks && b == v.blocks[b.reference] && b.reference.round > v.gcRound
  }

  lemma SubDagOf(v: View, leader: BlockRef, committed: set<BlockRef>, marked: set<BlockRef>, out: seq<Block>)
    requires v.Closed() && Collecting(v, leader, committed, marked, [], out)
    ensures IsSubDag(v, committed, leader, Sort(true, out)) && committed + marked == committed + HistoryAbove(v, leader)
    ensures MarkedClosed(v.blocks, v.gcRound, committed + marked)
  {
    CollectDone(v, leader, committed, marked, out);
    SortedSubDag(out, Sort(true, out));
    SortedIsDistinct(true, out);
    InHistory(v, leader, Sort(true, out));
  }

  lemma LinearizedContents(v: View, committed: set<BlockRef>, leader: BlockRef)
    requires v.Closed() && AncestorsDistinct(v) && MarkedClosed(v.blocks, v.gcRound, committed)
    requires leader in v.blocks && leader.round > v.gcRound && leader !in committed
    ensures IsSubDag(v, committed, leader, Linearized(v.blocks, v.gcRound, committed, leader))
  {
    CollectStart(v, leader, committed);
    var all := CollectedContents(v, leader, committed, {leader}, [leader], []);
    var collected := Collected(v.blocks, v.gcRound, committed + {leader}, [leader]);
    assert [] + collected == collected;
    SubDagOf(v, leader, committed, all, collected);
  }

  // ---- What the validator must hold ----

  /** The history of the leader above the GC round is held; other blocks may lack ancestors. */
  ghost predicate HistoryHeld(v: View, leader: BlockRef) {
    forall r | ReachesAbove(v.blocks, v.gcRound, leader, r) :: r in v.blocks && v.EntryClosed(r)
  }

  /** That history as a view of its own. */
  ghost function HistoryOf(v: View, leader: BlockRef): View {
    View(map r | r in HistoryAbove(v, leader) :: v.blocks[r], v.gcRound)
  }

  lemma ReachedAncestor(v: View, leader: BlockRef, r: BlockRef, a: BlockRef)
    requires HistoryHeld(v, leader) && ReachesAbove(v.blocks, v.gcRound, leader, r)
    requires a in v.blocks[r].ancestors && a.round > v.gcRound
    ensures ReachesAbove(v.blocks, v.gcRound, leader, a)
  {
    ReachesAboveDescends(v.blocks, v.gcRound, leader, r);
    assert ReachesAbove(v.blocks, v.gcRound, a, a);
    assert ReachesAbove(v.blocks, v.gcRound, r, a);
    ReachesAboveTransitive(v.blocks, v.gcRound, leader, r, a);
  }

  lemma HistoryIsClosed(v: View, leader: BlockRef)
    requires HistoryHeld(v, leader)
    ensures HistoryOf(v, leader).Closed()
  {
    var part := HistoryOf(v, leader);
    forall r | r in part.blocks ensures part.EntryClosed(r) {
      forall a | a in v.blocks[r].ancestors && a.round > v.gcRound ensures a in part.blocks {
        ReachedAncestor(v, leader, r, a);
      }
    }
  }

  lemma {:induction false} ReachesInHistory(v: View, leader: BlockRef, from: BlockRef, to: BlockRef)
    requires HistoryHeld(v, leader) && ReachesAbove(v.blocks, v.gcRound, leader, from)
    ensures ReachesAbove(v.blocks, v.gcRound, from, to) <==>
            ReachesAbove(HistoryOf(v, leader).blocks, v.gcRound, from, to)
    decreases from.round
  {
    var part := HistoryOf(v, leader);
    assert from in part.blocks && part.blocks[from] == v.blocks[from];
    forall a | a in v.blocks[from].ancestors && a.round < from.round
      ensures ReachesAbove(v.blocks, v.gcRound, a, to) <==> ReachesAbove(part.blocks, v.gcRound, a, to)
    {
      if a.round > v.gcRound {
        ReachedAncestor(v, leader, from, a);
        ReachesInHistory(v, leader, a, to);
      }
    }
  }

  /** It is the same history. */
  lemma HistoryIsSame(v: View, leader: BlockRef)
    requires HistoryHeld(v, leader) && leader.round > v.gcRound
    ensures HistoryAbove(HistoryOf(v, leader), leader) == HistoryAbove(v, leader)
    ensures leader in HistoryOf(v, leader).blocks
  {
    assert ReachesAbove(v.blocks, v.gcRound, leader, leader);
    forall r ensures ReachesAbove(v.blocks, v.gcRound, leader, r) <==>
                     ReachesAbove(HistoryOf(v, leader).blocks, v.gcRound, leader, r)
    {
      ReachesInHistory(v, leader, leader, r);
    }
  }

  /** A set of blocks that has, with each, its ancestors above the GC round holds the history of each. */
  lemma {:induction false} HeldIfMarked(v: View, marked: set<BlockRef>, from: BlockRef, to: BlockRef)
    requires from in marked && ReachesAbove(v.blocks, v.gcRound, from, to)
    requires forall r | r in marked && r.round > v.gcRound ::
             r in v.blocks && v.EntryClosed(r) && EntryMarked(v.blocks, v.gcRound, marked, r)
    ensures to in v.blocks && v.EntryClosed(to)
    decreases from.round
  {
    if from != to {
      var a :| a in v.blocks[from].ancestors && a.round < from.round && ReachesAbove(v.blocks, v.gcRound, a, to);
      assert EntryMarked(v.blocks, v.gcRound, marked, from);
      HeldIfMarked(v, marked, a, to);
    }
  }

  /** A closed view holds the history of every leader in it. */
  lemma ClosedHolds(v: View, leader: BlockRef)
    requires v.Closed() && leader in v.blocks
    ensures HistoryHeld(v, leader)
  {
    forall r | ReachesAbove(v.blocks, v.gcRound, leader, r) ensures r in v.blocks && v.EntryClosed(r) {
      forall x | x in v.blocks.Keys && x.round > v.gcRound
        ensures v.EntryClosed(x) && EntryMarked(v.blocks, v.gcRound, v.blocks.Keys, x)
      {
        assert v.EntryClosed(x);
      }
      HeldIfMarked(v, v.blocks.Keys, leader, r);
    }
  }

  ghost predicate Within(part: View, v: View) {
    part.gcRound == v.gcRound && forall r | r in part.blocks :: r in v.blocks && v.blocks[r] == part.blocks[r]
  }

  // ---- The walk ----

  /** Empties the stack. The walk stays in `part`. */
  method CollectAll(v: View, ghost part: View, committed: set<BlockRef>, leader: BlockRef)
    returns (out: seq<Block>, committed': set<BlockRef>, ghost marked: set<BlockRef>)
    requires Within(part, v) && part.Closed() && AncestorsDistinct(part)
    requires MarkedClosed(part.blocks, part.gcRound, committed)
    requires leader in part.blocks && leader.round > v.gcRound && leader !in committed
    ensures committed' == committed + marked && Collecting(part, leader, committed, marked, [], out)
    ensures out == Collected(part.blocks, part.gcRound, committed + {leader}, [leader])
  {
    out := [];
    var buffer := [leader];
    committed' := committed + {leader};
    marked := {leader};
    CollectStart(part, leader, committed);
    ghost var all := Collected(part.blocks, part.gcRound, committed', buffer);
    assert [] + all == all;
    while buffer != []
      invariant committed' == committed + marked
      invariant Collecting(part, leader, committed, marked, buffer, out)
      invariant all == out + Collected(part.blocks, part.gcRound, committed', buffer)
      decreases |part.blocks.Keys - References(out)|
    {
      buffer, out, committed', marked := CollectNext(v, part, leader, committed, buffer, out, committed', marked);
    }
  }

  /** Leaders come in rising order: nothing committed is as high as the next leader. */
  ghost predicate AllBelow(committed: set<BlockRef>, round: Round) {
    forall r | r in committed :: r.round < round
  }

  /**
   Collects the sub-DAG of a leader, which is never committed already. It is exactly the uncommitted part of the
   leader's history above the GC round, each block once, by round and author; the committed blocks stay closed.
   */
  method LinearizeSubDag(v: View, committed: set<BlockRef>, leader: BlockRef)
    returns (subDag: seq<Block>, committed': set<BlockRef>)
    requires HistoryHeld(v, leader) && leader.round > v.gcRound && AllBelow(committed, leader.round)
    requires AncestorsDistinct(HistoryOf(v, leader))
    requires MarkedClosed(HistoryOf(v, leader).blocks, v.gcRound, committed)
    ensures IsSubDag(v, committed, leader, subDag)
    ensures subDag == Linearized(HistoryOf(v, leader).blocks, v.gcRound, committed, leader)
    ensures committed' == committed + HistoryAbove(v, leader)
    ensures MarkedClosed(HistoryOf(v, leader).blocks, v.gcRound, committed')
  {
    assert leader !in committed;
    ghost var part := HistoryOf(v, leader);
    HistoryIsClosed(v, leader);
    HistoryIsSame(v, leader);
    var out;
    ghost var marked;
    out, committed', marked := CollectAll(v, part, committed, leader);
    SubDagOf(part, leader, committed, marked, out);
    subDag := Sort(true, out);
  }

  lemma InHistory(v: View, leader: BlockRef, blocks: seq<Block>)
    requires References(blocks) <= HistoryAbove(v, leader)
    ensures forall b | b in blocks :: b.reference in v.blocks && b.reference.round > v.gcRound
  {
    forall b | b in blocks ensures b.reference in v.blocks && b.reference.round > v.gcRound {
      assert b.reference in References(blocks);
      ReachesAboveDescends(v.blocks, v.gcRound, leader, b.reference);
    }
  }

  /**
   One turn of the loop: the last block of the stack is taken out and its uncommitted ancestors are marked and pushed.
   */
  method CollectNext(v: View, ghost part: View, ghost leader: BlockRef, ghost before: set<BlockRef>,
      buffer: seq<BlockRef>, out: seq<Block>, committed: set<BlockRef>, ghost marked: set<BlockRef>)
    returns (buffer': seq<BlockRef>, out': seq<Block>, committed': set<BlockRef>, ghost marked': set<BlockRef>)
    requires Within(part, v) && part.Closed() && AncestorsDistinct(part) && buffer != []
    requires committed == before + marked && Collecting(part, leader, before, marked, buffer, out)
    ensures committed' == before + marked' && Collecting(part, leader, before, marked', buffer', out')
    ensures |part.blocks.Keys - References(out')| < |part.blocks.Keys - References(out)|
    ensures out + Collected(part.blocks, part.gcRound, committed, buffer) ==
            out' + Collected(part.blocks, part.gcRound, committed', buffer')
  {
    var last := |buffer| - 1;
    var x, rest := buffer[last], buffer[..last];
    ElementsPop(buffer, rest, x);
    var found := Uncommitted(v.blocks[x].ancestors, v.gcRound, committed);
    assert Distinct(part.blocks[x].ancestors);
    CollectStep(part, leader, before, marked, buffer, out, rest, x, found);
    CollectTurn(part, leader, before, marked, buffer, out, x, found);
    committed' := MarkAll(found, committed);
    CollectedTurn(part, committed, buffer, out, found);
    out', buffer', marked' := out + [v.blocks[x]], rest + found, marked + Elements(found);
  }

  lemma CollectedFirst(v: View, committed: set<BlockRef>, stack: seq<BlockRef>, found: seq<BlockRef>)
    requires v.Closed() && stack != [] && stack[|stack| - 1] in v.blocks
    requires found == Uncommitted(v.blocks[stack[|stack| - 1]].ancestors, v.gcRound, committed)
    ensures var x, rest := stack[|stack| - 1], stack[..|stack| - 1];
            Collected(v.blocks, v.gcRound, committed, stack) ==
            [v.blocks[x]] + Collected(v.blocks, v.gcRound, committed + Elements(found), rest + found)
  {
    assert v.EntryClosed(stack[|stack| - 1]);
  }

  lemma CollectedTurn(v: View, committed: set<BlockRef>, stack: seq<BlockRef>, out: seq<Block>, found: seq<BlockRef>)
    requires v.Closed() && stack != [] && stack[|stack| - 1] in v.blocks
    requires found == Uncommitted(v.blocks[stack[|stack| - 1]].ancestors, v.gcRound, committed)
    ensures var x, rest := stack[|stack| - 1], stack[..|stack| - 1];
            out + Collected(v.blocks, v.gcRound, committed, stack) ==
            out + [v.blocks[x]] + Collected(v.blocks, v.gcRound, committed + Elements(found), rest + found)
  {
    CollectedFirst(v, committed, stack, found);
  }

  /** Marks blocks one by one; none was marked before. */
  method MarkAll(found: seq<BlockRef>, committed: set<BlockRef>) returns (committed': set<BlockRef>)
    requires Distinct(found) && Elements(found) !! committed
    ensures committed' == committed + Elements(found)
  {
    committed' := committed;
    for i := 0 to |found|
      invariant committed' == committed + Elements(found[..i])
    {
      assert found[..i + 1] == found[..i] + [found[i]];
      assert found[i] in Elements(found);
      assert found[i] !in committed';
      committed' := committed' + {found[i]};
    }
    assert found[..|found|] == found;
  }

  lemma CollectShrinks(v: View, out: seq<Block>, x: BlockRef)
    requires x in v.blocks && v.blocks[x].reference == x && x !in References(out)
    ensures |v.blocks.Keys - References(out + [v.blocks[x]])| < |v.blocks.Keys - References(out)|
  {
    ReferencesConcat(out, [v.blocks[x]]);
    assert References([v.blocks[x]]) == {x};
    Smaller(v.blocks.Keys - References(out + [v.blocks[x]]), v.blocks.Keys - References(out), x);
  }

  lemma SortedSubDag(out: seq<Block>, sorted: seq<Block>)
    requires sorted == Sort(true, out)
    ensures References(sorted) == References(out) && forall b :: b in sorted <==> b in out
  {
    SortKeepsMembers(true, out);
    assert References(sorted) == References(out);
  }
}
