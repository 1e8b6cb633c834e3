/**
 The indexes of the block manager as values: the suspended blocks with what each misses, the missing
 references with who waits for them, and the references still to be fetched. What their consistency
 means, and the steps that keep it.
 */
module BlockIndex {
  import opened Types

  datatype Suspended = Suspended(block: Block, missing: set<BlockRef>)

  /** A reference determines its block: digests do not collide. */
  type Content = BlockRef -> Block

  datatype Index = Index(
    suspended: map<BlockRef, Suspended>,
    missingAncestors: map<BlockRef, set<BlockRef>>,
    missingBlocks: set<BlockRef>)

  /** Ancestors of a block above a GC round. */
  function Needed(b: Block, gc: Round): set<BlockRef> {
    set a | a in b.ancestors && a.round > gc
  }

  /** What verification guarantees of a block with regard to its ancestors. */
  ghost predicate Proper(content: Content, genesis: set<BlockRef>, b: Block) {
    && b == content(b.reference) && b.reference.round > GENESIS_ROUND
    && forall a | a in b.ancestors :: a.round < b.reference.round && (a.round == GENESIS_ROUND ==> a in genesis)
  }

  /** Suspended block `s` waits exactly for the ancestors above `gc` that are not cleared. */
  ghost predicate Waits(x: Index, content: Content, gc: Round, cleared: set<BlockRef>, s: BlockRef)
    requires s in x.suspended
  {
    && x.suspended[s].block == content(s) && content(s).reference == s
    && x.suspended[s].missing == Needed(content(s), gc) - cleared
    && x.suspended[s].missing != {}
    && x.suspended[s].missing <= x.missingAncestors.Keys
  }

  /** Missing reference `a` lists exactly the suspended blocks that need it. */
  ghost predicate Blocks(x: Index, content: Content, gc: Round, a: BlockRef)
    requires a in x.missingAncestors
  {
    x.missingAncestors[a] == set s | s in x.suspended && a in Needed(content(s), gc)
  }

  /**
   The indexes are consistent: nothing cleared is waited for, and what is to be fetched are the missing
   references that are neither suspended nor about to be processed.
   */
  ghost predicate Consistent(x: Index, content: Content, gc: Round, cleared: set<BlockRef>, processing: set<BlockRef>) {
    && (forall s {:trigger Waits(x, content, gc, cleared, s)} | s in x.suspended :: Waits(x, content, gc, cleared, s))
    && (forall a {:trigger Blocks(x, content, gc, a)} | a in x.missingAncestors :: Blocks(x, content, gc, a))
    && x.missingAncestors.Keys !! cleared && x.suspended.Keys !! cleared
    && x.missingBlocks == x.missingAncestors.Keys - x.suspended.Keys - processing
    && processing !! cleared && processing !! x.suspended.Keys
  }

  /** In a consistent state the two indexes are inverse relations. */
  lemma IndexesAreInverse(x: Index, content: Content, gc: Round, cleared: set<BlockRef>, processing: set<BlockRef>,
      s: BlockRef, a: BlockRef)
    requires Consistent(x, content, gc, cleared, processing)
    ensures (s in x.suspended && a in x.suspended[s].missing) <==>
            (a in x.missingAncestors && s in x.missingAncestors[a])
  {
    assert s in x.suspended ==> Waits(x, content, gc, cleared, s);
    assert a in x.missingAncestors ==> Blocks(x, content, gc, a);
  }

  function References(blocks: seq<Block>): set<BlockRef> {
    set b | b in blocks :: b.reference
  }

  /** Each block that is not exempt comes after its ancestors above `gc` that are not cleared beforehand. */
  ghost predicate InCausalOrder(blocks: seq<Block>, gc: Round, cleared: set<BlockRef>, exempt: set<BlockRef>) {
    forall i {:trigger CausallyPlaced(blocks, gc, cleared, exempt, i)} | 0 <= i < |blocks| ::
      CausallyPlaced(blocks, gc, cleared, exempt, i)
  }

  ghost predicate CausallyPlaced(blocks: seq<Block>, gc: Round, cleared: set<BlockRef>, exempt: set<BlockRef>, i: nat)
    requires i < |blocks|
  {
    blocks[i].reference in exempt || Needed(blocks[i], gc) <= cleared + References(blocks[..i])
  }

  ghost predicate AllProper(content: Content, genesis: set<BlockRef>, refs: set<BlockRef>) {
    forall r {:trigger content(r)} | r in refs :: Proper(content, genesis, content(r)) && content(r).reference == r
  }

  // ---- Steps on the indexes ----

  /** Removing a dependency from one suspended block. */
  function Release(x: Index, s: BlockRef, dependency: BlockRef): Index
    requires s in x.suspended
  {
    var rest := x.suspended[s].missing - {dependency};
    if rest == {} then x.(suspended := x.suspended - {s})
    else x.(suspended := x.suspended[s := x.suspended[s].(missing := rest)])
  }

  /**
   While the waiters of `p` are released one by one: those in `todo` still wait for `p`, the others
   treat it as cleared.
   */
  ghost predicate Releasing(x: Index, content: Content, gc: Round, cleared: set<BlockRef>, processing: set<BlockRef>,
      p: BlockRef, todo: set<BlockRef>)
  {
    && todo <= x.suspended.Keys
    && (forall s {:trigger WaitsDuring(x, content, gc, cleared, p, todo, s)} | s in x.suspended ::
      WaitsDuring(x, content, gc, cleared, p, todo, s))
    && (forall a {:trigger Blocks(x, content, gc, a)} | a in x.missingAncestors :: Blocks(x, content, gc, a))
    && x.missingAncestors.Keys !! cleared + {p} && x.suspended.Keys !! cleared
    && x.missingBlocks == x.missingAncestors.Keys - x.suspended.Keys - processing
    && processing !! cleared + {p} && processing !! x.suspended.Keys
    && p !in x.suspended && p !in cleared
  }

  ghost predicate WaitsDuring(x: Index, content: Content, gc: Round, cleared: set<BlockRef>, p: BlockRef,
      todo: set<BlockRef>, s: BlockRef)
    requires s in x.suspended
  {
    && x.suspended[s].block == content(s) && content(s).reference == s
    && x.suspended[s].missing == Needed(content(s), gc) - (if s in todo then cleared else cleared + {p})
    && x.suspended[s].missing != {}
    && x.suspended[s].missing <= x.missingAncestors.Keys + {p}
    && (s in todo ==> p in x.suspended[s].missing)
  }

  lemma ReleasingStarts(x: Index, content: Content, gc: Round, cleared: set<BlockRef>, processing: set<BlockRef>,
      p: BlockRef)
    requires Consistent(x, content, gc, cleared, processing) && p in processing
    ensures p in x.missingAncestors ==>
              Releasing(x.(missingAncestors := x.missingAncestors - {p}), content, gc, cleared, processing - {p}, p,
                x.missingAncestors[p])
    ensures p !in x.missingAncestors ==> Releasing(x, content, gc, cleared, processing - {p}, p, {})
  {
    var y := x.(missingAncestors := x.missingAncestors - {p});
    var todo := if p in x.missingAncestors then x.missingAncestors[p] else {};
    assert p in x.missingAncestors ==> Blocks(x, content, gc, p);
    assert p !in x.missingAncestors ==> y.missingAncestors == x.missingAncestors;
    forall s | s in y.suspended ensures WaitsDuring(y, content, gc, cleared, p, todo, s) {
      assert Waits(x, content, gc, cleared, s);
    }
    forall a | a in y.missingAncestors ensures Blocks(y, content, gc, a) {
      assert Blocks(x, content, gc, a);
    }
  }

  lemma ReleasingEnds(x: Index, content: Content, gc: Round, cleared: set<BlockRef>, processing: set<BlockRef>,
      p: BlockRef)
    requires Releasing(x, content, gc, cleared, processing, p, {})
    ensures Consistent(x, content, gc, cleared + {p}, processing)
  {
    forall s | s in x.suspended ensures Waits(x, content, gc, cleared + {p}, s) {
      assert WaitsDuring(x, content, gc, cleared, p, {}, s);
    }
  }

  /** Releasing one waiter: it either waits for less, or is connected and will be processed itself. */
  lemma ReleaseStep(x: Index, content: Content, gc: Round, cleared: set<BlockRef>, processing: set<BlockRef>,
      p: BlockRef, todo: set<BlockRef>, s: BlockRef)
    requires Releasing(x, content, gc, cleared, processing, p, todo) && s in todo
    ensures var y := Release(x, s, p);
            && p in x.suspended[s].missing
            && (s in y.suspended ==>
              Releasing(y, content, gc, cleared, processing, p, todo - {s}) && y.suspended.Keys == x.suspended.Keys)
            && (s !in y.suspended ==>
                  && Releasing(y, content, gc, cleared, processing + {s}, p, todo - {s})
                  && y.suspended.Keys == x.suspended.Keys - {s}
                  && Needed(content(s), gc) <= cleared + {p})
  {
    var y := Release(x, s, p);
    assert WaitsDuring(x, content, gc, cleared, p, todo, s);
    forall t | t in y.suspended ensures WaitsDuring(y, content, gc, cleared, p, todo - {s}, t) {
      assert WaitsDuring(x, content, gc, cleared, p, todo, t);
    }
    forall a | a in y.missingAncestors ensures Blocks(y, content, gc, a) {
      assert Blocks(x, content, gc, a);
    }
  }

  // ---- What the state means ----

  /** A received block is connected when it is trusted or all its ancestors above `gc` are connected. */
  ghost predicate Connected(content: Content, received: set<BlockRef>, trusted: set<BlockRef>, gc: Round, r: BlockRef)
    decreases r.round
  {
    || r in trusted
    || (r in received && forall a | a in Needed(content(r), gc) && a.round < r.round ::
      Connected(content, received, trusted, gc, a))
  }

  /** Every block of the DAG is trusted or has all its ancestors above `gc` in the DAG. */
  ghost predicate DagClosed(content: Content, dag: set<BlockRef>, trusted: set<BlockRef>, gc: Round) {
    forall r {:trigger EntryClosed(content, dag, trusted, gc, r)} | r in dag ::
      EntryClosed(content, dag, trusted, gc, r)
  }

  ghost predicate EntryClosed(content: Content, dag: set<BlockRef>, trusted: set<BlockRef>, gc: Round, r: BlockRef) {
    r in trusted || Needed(content(r), gc) <= dag
  }

  /** The whole state of a block manager, with the DAG it feeds and what it has been given. */
  datatype State = State(
    index: Index,
    dag: set<BlockRef>,
    gcRound: Round,
    received: set<BlockRef>,
    trusted: set<BlockRef>)

  ghost predicate ValidState(st: State, content: Content, genesis: set<BlockRef>) {
    && AllProper(content, genesis, st.received)
    && Consistent(st.index, content, st.gcRound, st.dag, {})
    && st.received == st.dag + st.index.suspended.Keys
    && st.trusted <= st.dag
    && DagClosed(content, st.dag, st.trusted, st.gcRound)
    && forall a | a in st.index.missingAncestors :: a.round > st.gcRound
  }

  /** Nothing is suspended or missing when a block manager starts on a DAG. */
  function StartState(dag: set<BlockRef>, gc: Round, trusted: set<BlockRef>): State {
    State(Index(map[], map[], {}), dag, gc, dag, trusted)
  }

  /** The DAG holds exactly the connected ones of the received blocks. */
  lemma {:induction false} DagIsConnected(st: State, content: Content, genesis: set<BlockRef>, r: BlockRef)
    requires ValidState(st, content, genesis)
    ensures r in st.dag <==> Connected(content, st.received, st.trusted, st.gcRound, r)
    decreases r.round
  {
    if r in st.dag && r !in st.trusted {
      assert EntryClosed(content, st.dag, st.trusted, st.gcRound, r);
      forall a | a in Needed(content(r), st.gcRound) && a.round < r.round
        ensures Connected(content, st.received, st.trusted, st.gcRound, a)
      {
        DagIsConnected(st, content, genesis, a);
      }
    } else if r !in st.dag && r in st.received {
      assert Waits(st.index, content, st.gcRound, st.dag, r);
      var a :| a in st.index.suspended[r].missing;
      assert Proper(content, genesis, content(r));
      DagIsConnected(st, content, genesis, a);
    }
  }

  /** No missing reference is kept that nobody waits for. */
  ghost predicate NoIdleKeys(x: Index) {
    forall a | a in x.missingAncestors :: x.missingAncestors[a] != {}
  }

  /**
   Confluence: the DAG and the suspended blocks depend only on what was received, what was trusted and
   the GC round; the missing references do too when nobody asked for more.
   */
  lemma StateIsDetermined(st1: State, st2: State, content: Content, genesis: set<BlockRef>)
    requires ValidState(st1, content, genesis) && ValidState(st2, content, genesis)
    requires st1.received == st2.received && st1.trusted == st2.trusted && st1.gcRound == st2.gcRound
    ensures st1.dag == st2.dag && st1.index.suspended == st2.index.suspended
    ensures NoIdleKeys(st1.index) && NoIdleKeys(st2.index) ==> st1 == st2
  {
    forall r ensures r in st1.dag <==> r in st2.dag {
      DagIsConnected(st1, content, genesis, r);
      DagIsConnected(st2, content, genesis, r);
    }
    assert st1.dag == st2.dag;
    SuspendedAre(st1, content, genesis);
    SuspendedAre(st2, content, genesis);
    var x1, x2 := st1.index, st2.index;
    forall s | s in x1.suspended ensures x1.suspended[s] == x2.suspended[s] {
      assert Waits(x1, content, st1.gcRound, st1.dag, s) && Waits(x2, content, st2.gcRound, st2.dag, s);
    }
    assert x1.suspended == x2.suspended;
    if NoIdleKeys(x1) && NoIdleKeys(x2) {
      SameKeys(st1, st2, content, genesis);
      SameKeys(st2, st1, content, genesis);
      assert x1.missingAncestors.Keys == x2.missingAncestors.Keys;
      forall a | a in x1.missingAncestors ensures x1.missingAncestors[a] == x2.missingAncestors[a] {
        assert Blocks(x1, content, st1.gcRound, a) && Blocks(x2, content, st2.gcRound, a);
      }
      assert x1.missingAncestors == x2.missingAncestors;
    }
  }

  lemma SuspendedAre(st: State, content: Content, genesis: set<BlockRef>)
    requires ValidState(st, content, genesis)
    ensures st.index.suspended.Keys == st.received - st.dag
  {}

  lemma SameKeys(st1: State, st2: State, content: Content, genesis: set<BlockRef>)
    requires ValidState(st1, content, genesis) && ValidState(st2, content, genesis)
    requires st1.index.suspended == st2.index.suspended && st1.gcRound == st2.gcRound && NoIdleKeys(st1.index)
    ensures st1.index.missingAncestors.Keys <= st2.index.missingAncestors.Keys
  {
    forall a | a in st1.index.missingAncestors ensures a in st2.index.missingAncestors {
      var s :| s in st1.index.missingAncestors[a];
      IndexesAreInverse(st1.index, content, st1.gcRound, st1.dag, {}, s, a);
      IndexesAreInverse(st2.index, content, st2.gcRound, st2.dag, {}, s, a);
    }
  }

  function RefsOf(blocks: seq<Block>): seq<BlockRef> {
    seq(|blocks|, i requires 0 <= i < |blocks| => blocks[i].reference)
  }

  lemma ReferencesConcat(a: seq<Block>, b: seq<Block>)
    ensures References(a + b) == References(a) + References(b)
    ensures Elements(RefsOf(a)) == References(a)
  {
    forall r | r in References(a) + References(b) ensures r in References(a + b) {
      if r in References(a) {
        var x :| x in a && x.reference == r;
        assert x in a + b;
      } else {
        var x :| x in b && x.reference == r;
        assert x in a + b;
      }
    }
    forall r | r in References(a) ensures r in RefsOf(a) {
      var i :| 0 <= i < |a| && a[i].reference == r;
      assert RefsOf(a)[i] == r;
    }
  }

  /** Appending blocks in causal order after what precedes them keeps the causal order. */
  lemma CausalConcat(a: seq<Block>, b: seq<Block>, gc: Round, cleared: set<BlockRef>, exempt: set<BlockRef>)
    requires InCausalOrder(a, gc, cleared, exempt)
    requires InCausalOrder(b, gc, cleared + References(a), exempt)
    ensures InCausalOrder(a + b, gc, cleared, exempt)
  {
    var c := a + b;
    forall i | 0 <= i < |c| ensures CausallyPlaced(c, gc, cleared, exempt, i) {
      if i < |a| {
        assert CausallyPlaced(a, gc, cleared, exempt, i);
        assert c[..i] == a[..i];
      } else {
        assert CausallyPlaced(b, gc, cleared + References(a), exempt, i - |a|);
        assert c[..i] == a + b[..i - |a|];
        ReferencesConcat(a, b[..i - |a|]);
      }
    }
  }

  lemma CausalWhenReady(b: seq<Block>, gc: Round, cleared: set<BlockRef>)
    requires forall x | x in b :: Needed(x, gc) <= cleared
    ensures InCausalOrder(b, gc, cleared, {})
  {
    forall i | 0 <= i < |b| ensures CausallyPlaced(b, gc, cleared, {}, i) {
      assert b[i] in b;
    }
  }

  lemma DistinctConcat(a: seq<Block>, b: seq<Block>)
    requires DistinctReferences(a) && DistinctReferences(b) && References(a) !! References(b)
    ensures DistinctReferences(a + b)
  {
    var c := a + b;
    forall i, j | 0 <= i < j < |c| ensures c[i].reference != c[j].reference {
      if i < |a| <= j {
        assert c[i] in a && c[j] in b;
        assert c[i].reference in References(a) && c[j].reference in References(b);
      }
    }
  }

  // ---- The worklist ----

  /** What unsuspending does: blocks leave the indexes in causal order, and nothing else does. */
  ghost predicate Unsuspended(x: Index, y: Index, content: Content, gc: Round, base: set<BlockRef>,
      unsuspended: seq<Block>)
  {
    && Consistent(y, content, gc, base + References(unsuspended), {})
    && References(unsuspended) <= x.suspended.Keys && y.suspended.Keys == x.suspended.Keys - References(unsuspended)
    && y.missingAncestors == x.missingAncestors - (base + References(unsuspended)) && y.missingBlocks == x.missingBlocks
    && Released(content, gc, base, unsuspended)
  }

  /** The state of the worklist: what is cleared or waiting to be, and what is left of the indexes. */
  ghost predicate Worklist(start: Index, x: Index, base: set<BlockRef>, toProcess: seq<BlockRef>, out: set<BlockRef>,
      done: set<BlockRef>)
  {
    && Distinct(toProcess) && Elements(toProcess) !! x.suspended.Keys
    && done + Elements(toProcess) == base + out
    && out <= start.suspended.Keys && x.suspended.Keys == start.suspended.Keys - out
    && x.missingAncestors == start.missingAncestors - done
    && x.missingBlocks == start.missingBlocks
  }

  /** What came out so far. */
  ghost predicate Released(content: Content, gc: Round, base: set<BlockRef>, unsuspended: seq<Block>) {
    && InCausalOrder(unsuspended, gc, base, {}) && DistinctReferences(unsuspended)
    && (forall b | b in unsuspended :: b == content(b.reference))
  }

  lemma RemoveTwice(m: map<BlockRef, set<BlockRef>>, s: set<BlockRef>, t: set<BlockRef>)
    ensures (m - s) - t == m - (s + t)
    ensures m.Keys !! s ==> m - s == m
  {}

  lemma WorklistStep(start: Index, x: Index, y: Index, base: set<BlockRef>, toProcess: seq<BlockRef>,
      rest: seq<BlockRef>, p: BlockRef, out: set<BlockRef>, done: set<BlockRef>, released: seq<Block>)
    requires Worklist(start, x, base, toProcess, out, done)
    requires toProcess == rest + [p] && Elements(toProcess) == Elements(rest) + {p}
    requires y.missingAncestors == x.missingAncestors - {p} && y.missingBlocks == x.missingBlocks
    requires References(released) <= x.suspended.Keys && y.suspended.Keys == x.suspended.Keys - References(released)
    requires DistinctReferences(released)
    ensures Worklist(start, y, base, rest + RefsOf(released), out + References(released), done + {p})
    ensures Elements(rest + RefsOf(released)) == Elements(rest) + References(released)
  {
    StackStep(toProcess, rest, p, released, x.suspended.Keys);
    RemoveTwice(start.missingAncestors, done, {p});
  }

  lemma WorklistStart(x: Index, content: Content, gc: Round, cleared: set<BlockRef>, accepted: BlockRef)
    requires Consistent(x, content, gc, cleared, {accepted})
    ensures Consistent(x, content, gc, cleared, Elements([accepted]))
    ensures Worklist(x, x, cleared + {accepted}, [accepted], References([]), cleared)
    ensures Released(content, gc, cleared + {accepted}, [])
  {
    assert Elements([accepted]) == {accepted};
    RemoveTwice(x.missingAncestors, cleared, {});
  }

  lemma WorklistDone(start: Index, x: Index, base: set<BlockRef>, out: set<BlockRef>, done: set<BlockRef>)
    requires Worklist(start, x, base, [], out, done)
    ensures done == base + out && Elements([]) == {}
  {}

  lemma StackStep(toProcess: seq<BlockRef>, rest: seq<BlockRef>, p: BlockRef, released: seq<Block>,
      suspended: set<BlockRef>)
    requires toProcess == rest + [p] && Distinct(toProcess)
    requires References(released) <= suspended && Elements(toProcess) !! suspended && DistinctReferences(released)
    ensures Distinct(rest + RefsOf(released))
    ensures Elements(rest + RefsOf(released)) == Elements(rest) + References(released)
  {
    ReferencesConcat(released, []);
    var next := rest + RefsOf(released);
    forall i, j | 0 <= i < j < |next| ensures next[i] != next[j] {
      if j < |rest| {
        assert next[i] == toProcess[i] && next[j] == toProcess[j];
      } else if i < |rest| {
        assert next[i] == toProcess[i] && next[i] in Elements(toProcess) && next[j] in Elements(RefsOf(released));
      } else {
        assert next[i] == released[i - |rest|].reference && next[j] == released[j - |rest|].reference;
      }
    }
  }

  lemma ReleasedStep(content: Content, gc: Round, base: set<BlockRef>, unsuspended: seq<Block>, released: seq<Block>,
      ready: set<BlockRef>)
    requires Released(content, gc, base, unsuspended) && DistinctReferences(released)
    requires References(released) !! References(unsuspended) && ready <= base + References(unsuspended)
    requires forall b | b in released :: b == content(b.reference) && Needed(b, gc) <= ready
    ensures Released(content, gc, base, unsuspended + released)
    ensures References(unsuspended + released) == References(unsuspended) + References(released)
  {
    ReferencesConcat(unsuspended, released);
    DistinctConcat(unsuspended, released);
    CausalWhenReady(released, gc, base + References(unsuspended));
    CausalConcat(unsuspended, released, gc, base, {});
  }

  lemma {:induction false} FewerSuspended(before: set<BlockRef>, after: set<BlockRef>, released: seq<Block>)
    requires References(released) <= before && after == before - References(released) && DistinctReferences(released)
    ensures |after| + |released| == |before|
    decreases |released|
  {
    if released == [] {
      assert References(released) == {};
      assert after == before;
    } else {
      var last := |released| - 1;
      var r := released[last].reference;
      assert released == released[..last] + [released[last]];
      ReferencesConcat(released[..last], [released[last]]);
      assert References([released[last]]) == {r};
      assert r !in References(released[..last]);
      FewerSuspended(before, after + {r}, released[..last]);
    }
  }

  // ---- Steps of receiving one block ----

  /** The references above `gc` that are not in the DAG. */
  function Unmet(refs: seq<BlockRef>, gc: Round, dag: set<BlockRef>): set<BlockRef> {
    set a | a in refs && a.round > gc && a !in dag
  }

  lemma UnmetStep(refs: seq<BlockRef>, i: nat, gc: Round, dag: set<BlockRef>)
    requires i < |refs|
    ensures Unmet(refs[..i + 1], gc, dag) == Unmet(refs[..i], gc, dag) + if refs[i].round > gc &&
            refs[i] !in dag then {refs[i]} else {}
  {
    assert refs[..i + 1] == refs[..i] + [refs[i]];
  }

  /** `r` waits for each of `refs`. */
  function AddWaiter(m: map<BlockRef, set<BlockRef>>, refs: set<BlockRef>,
      r: BlockRef): (n: map<BlockRef, set<BlockRef>>)
    ensures n.Keys == m.Keys + refs
  {
    map a | a in m.Keys + refs :: (if a in m then m[a] else {}) + (if a in refs then {r} else {})
  }

  lemma AddWaiterNone(m: map<BlockRef, set<BlockRef>>, r: BlockRef)
    ensures AddWaiter(m, {}, r) == m
  {
    var n := AddWaiter(m, {}, r);
    forall x | x in m ensures x in n && n[x] == m[x] {}
    assert n.Keys == m.Keys;
  }

  lemma AddWaiterOther(m: map<BlockRef, set<BlockRef>>, refs: set<BlockRef>, r: BlockRef, a: BlockRef, x: BlockRef)
    requires x in m.Keys + refs && x != a
    ensures AddWaiter(m, refs + {a}, r)[x] == AddWaiter(m, refs, r)[x]
  {}

  lemma AddWaiterOwn(m: map<BlockRef, set<BlockRef>>, refs: set<BlockRef>, r: BlockRef, a: BlockRef)
    ensures var n := AddWaiter(m, refs, r);
            AddWaiter(m, refs + {a}, r)[a] == (if a in n then n[a] else {}) + {r}
  {}

  lemma AddWaiterStep(m: map<BlockRef, set<BlockRef>>, refs: set<BlockRef>, r: BlockRef, a: BlockRef)
    ensures var n := AddWaiter(m, refs, r);
            AddWaiter(m, refs + {a}, r) == n[a := (if a in n then n[a] else {}) + {r}]
  {
    var n, more := AddWaiter(m, refs, r), AddWaiter(m, refs + {a}, r);
    var n' := n[a := (if a in n then n[a] else {}) + {r}];
    assert more.Keys == n'.Keys;
    forall x | x in more ensures more[x] == n'[x] {
      if x == a {
        AddWaiterOwn(m, refs, r, a);
      } else {
        AddWaiterOther(m, refs, r, a, x);
      }
    }
  }

  /** A block that misses `missing` is suspended. */
  function Suspend(x: Index, b: Block, missing: set<BlockRef>): Index {
    Index(x.suspended[b.reference := Suspended(b, missing)],
          AddWaiter(x.missingAncestors, missing, b.reference),
          x.missingBlocks + (missing - x.suspended.Keys) - {b.reference})
  }

  lemma SuspendKeepsConsistent(x: Index, content: Content, genesis: set<BlockRef>, gc: Round, dag: set<BlockRef>,
      b: Block)
    requires Consistent(x, content, gc, dag, {})
    requires Proper(content, genesis, b) && b.reference !in x.suspended && b.reference !in dag
    requires Needed(b, gc) - dag != {}
    ensures Consistent(Suspend(x, b, Needed(b, gc) - dag), content, gc, dag, {})
  {
    var r, missing := b.reference, Needed(b, gc) - dag;
    var y := Suspend(x, b, missing);
    forall s | s in y.suspended ensures Waits(y, content, gc, dag, s) {
      if s != r {
        assert Waits(x, content, gc, dag, s);
      }
    }
    forall a | a in y.missingAncestors ensures Blocks(y, content, gc, a) {
      if a in x.missingAncestors {
        assert Blocks(x, content, gc, a);
      } else {
        NotNeeded(x, content, gc, dag, {}, a);
      }
    }
  }

  /** A reference outside the DAG that is no key is needed by no suspended block. */
  lemma NotNeeded(x: Index, content: Content, gc: Round, cleared: set<BlockRef>, processing: set<BlockRef>, a: BlockRef)
    requires Consistent(x, content, gc, cleared, processing) && a !in cleared && a !in x.missingAncestors
    ensures forall s | s in x.suspended :: a !in Needed(content(s), gc)
  {
    forall s | s in x.suspended ensures a !in Needed(content(s), gc) {
      assert Waits(x, content, gc, cleared, s);
    }
  }

  /** A received block is no longer to be fetched, and is about to be processed. */
  lemma ReceiveKeepsConsistent(x: Index, content: Content, gc: Round, cleared: set<BlockRef>, r: BlockRef)
    requires Consistent(x, content, gc, cleared, {}) && r !in x.suspended && r !in cleared
    ensures Consistent(x.(missingBlocks := x.missingBlocks - {r}), content, gc, cleared, {r})
  {
    var y := x.(missingBlocks := x.missingBlocks - {r});
    forall s | s in y.suspended ensures Waits(y, content, gc, cleared, s) {
      assert Waits(x, content, gc, cleared, s);
    }
    forall a | a in y.missingAncestors ensures Blocks(y, content, gc, a) {
      assert Blocks(x, content, gc, a);
    }
  }

  /** `r` no longer waits for any of `refs`. */
  function RemoveWaiter(m: map<BlockRef, set<BlockRef>>, refs: set<BlockRef>,
      r: BlockRef): (n: map<BlockRef, set<BlockRef>>)
    ensures n.Keys == m.Keys
  {
    map a | a in m :: if a in refs then m[a] - {r} else m[a]
  }

  /** A committed block leaves the indexes, wherever it was. */
  function Withdrawn(x: Index, r: BlockRef): Index {
    Index(x.suspended - {r},
          if r in x.suspended then RemoveWaiter(x.missingAncestors, x.suspended[r].missing, r) else x.missingAncestors,
          x.missingBlocks - {r})
  }

  lemma WithdrawKeepsConsistent(x: Index, content: Content, gc: Round, dag: set<BlockRef>, r: BlockRef)
    requires Consistent(x, content, gc, dag, {}) && r !in dag
    ensures Consistent(Withdrawn(x, r), content, gc, dag, {r})
  {
    var y := Withdrawn(x, r);
    assert r in x.suspended ==> Waits(x, content, gc, dag, r);
    forall s | s in y.suspended ensures Waits(y, content, gc, dag, s) {
      assert Waits(x, content, gc, dag, s);
    }
    forall a | a in y.missingAncestors ensures Blocks(y, content, gc, a) {
      assert Blocks(x, content, gc, a);
    }
  }

  /** References asked for from outside become missing without a waiter. */
  function Request(x: Index, refs: set<BlockRef>): Index {
    x.(missingAncestors :=
      map a | a in x.missingAncestors.Keys + refs :: if a in x.missingAncestors then x.missingAncestors[a] else {},
       missingBlocks := x.missingBlocks + refs)
  }

  lemma RequestStep(x: Index, refs: set<BlockRef>, a: BlockRef)
    ensures var m := Request(x, refs).missingAncestors;
            Request(x, refs + {a}).missingAncestors == if a in m then m else m[a := {}]
  {
    var m, n := Request(x, refs).missingAncestors, Request(x, refs + {a}).missingAncestors;
    assert n.Keys == m.Keys + {a};
    forall k | k in n ensures n[k] == if k in m then m[k] else {} {}
  }

  lemma RequestKeepsConsistent(x: Index, content: Content, gc: Round, dag: set<BlockRef>, refs: set<BlockRef>)
    requires Consistent(x, content, gc, dag, {}) && refs !! dag && refs !! x.suspended.Keys
    ensures Consistent(Request(x, refs), content, gc, dag, {})
  {
    var y := Request(x, refs);
    forall s | s in y.suspended ensures Waits(y, content, gc, dag, s) {
      assert Waits(x, content, gc, dag, s);
    }
    forall a | a in y.missingAncestors ensures Blocks(y, content, gc, a) {
      if a in x.missingAncestors {
        assert Blocks(x, content, gc, a);
      } else {
        NotNeeded(x, content, gc, dag, {}, a);
      }
    }
  }

  // ---- Accepting into the DAG ----

  /** Accepting `r` and what it unsuspends gives a valid state again. */
  lemma AcceptKeepsValid(st: State, x: Index, content: Content, genesis: set<BlockRef>, r: BlockRef,
      unsuspended: seq<Block>, trust: bool)
    requires ValidState(st, content, genesis) && r !in st.dag
    requires Proper(content, genesis, content(r)) && content(r).reference == r
    requires trust || Needed(content(r), st.gcRound) <= st.dag
    requires Consistent(x, content, st.gcRound, st.dag + {r} + References(unsuspended), {})
    requires References(unsuspended) <= st.index.suspended.Keys - {r}
    requires x.suspended.Keys == st.index.suspended.Keys - {r} - References(unsuspended)
    requires x.missingAncestors.Keys <= st.index.missingAncestors.Keys
    requires InCausalOrder(unsuspended, st.gcRound, st.dag + {r}, {})
    requires forall b | b in unsuspended :: b == content(b.reference)
    ensures ValidState(State(x, st.dag + {r} + References(unsuspended), st.gcRound, st.received + {r}, st.trusted +
            if trust then {r} else {}), content, genesis)
  {
    var dag := st.dag + {r} + References(unsuspended);
    var trusted := st.trusted + if trust then {r} else {};
    forall q | q in dag ensures EntryClosed(content, dag, trusted, st.gcRound, q) {
      if q in st.dag {
        assert EntryClosed(content, st.dag, st.trusted, st.gcRound, q);
      } else if q != r {
        UnsuspendedIsClosed(unsuspended, st.gcRound, st.dag + {r}, q);
      }
    }
  }

  lemma UnsuspendedIsClosed(unsuspended: seq<Block>, gc: Round, base: set<BlockRef>, q: BlockRef)
    requires InCausalOrder(unsuspended, gc, base, {}) && q in References(unsuspended)
    ensures exists b | b in unsuspended :: b.reference == q && Needed(b, gc) <= base + References(unsuspended)
  {
    var i :| 0 <= i < |unsuspended| && unsuspended[i].reference == q;
    assert CausallyPlaced(unsuspended, gc, base, {}, i);
    assert unsuspended == unsuspended[..i] + unsuspended[i..];
    ReferencesConcat(unsuspended[..i], unsuspended[i..]);
  }

  lemma SuspendKeepsValid(st: State, content: Content, genesis: set<BlockRef>, b: Block)
    requires ValidState(st, content, genesis) && Proper(content, genesis, b)
    requires b.reference !in st.dag && b.reference !in st.index.suspended && Needed(b, st.gcRound) - st.dag != {}
    ensures ValidState(st.(index := Suspend(st.index, b, Needed(b, st.gcRound) - st.dag),
            received := st.received + {b.reference}), content, genesis)
    ensures NoIdleKeys(st.index) ==> NoIdleKeys(Suspend(st.index, b, Needed(b, st.gcRound) - st.dag))
  {
    SuspendKeepsConsistent(st.index, content, genesis, st.gcRound, st.dag, b);
  }

  /** Trusting a block that is already in the DAG changes nothing else. */
  lemma TrustKeepsValid(st: State, content: Content, genesis: set<BlockRef>, r: BlockRef)
    requires ValidState(st, content, genesis) && r in st.dag
    ensures ValidState(st.(trusted := st.trusted + {r}), content, genesis)
  {
    forall q | q in st.dag ensures EntryClosed(content, st.dag, st.trusted + {r}, st.gcRound, q) {
      assert EntryClosed(content, st.dag, st.trusted, st.gcRound, q);
    }
  }

  /** An accepted block followed by what it unsuspends, in causal order. */
  lemma AcceptedInOrder(b: Block, unsuspended: seq<Block>, gc: Round, dag: set<BlockRef>, exempt: set<BlockRef>)
    requires b.reference in exempt || Needed(b, gc) <= dag
    requires InCausalOrder(unsuspended, gc, dag + {b.reference}, {}) && DistinctReferences(unsuspended)
    requires References(unsuspended) !! dag + {b.reference} && b.reference !in dag
    ensures References([b] + unsuspended) == {b.reference} + References(unsuspended)
    ensures InCausalOrder([b] + unsuspended, gc, dag, exempt) && DistinctReferences([b] + unsuspended)
  {
    ReferencesConcat([b], unsuspended);
    assert References([b]) == {b.reference};
    assert CausallyPlaced([b], gc, dag, exempt, 0);
    forall i | 0 <= i < |unsuspended| ensures CausallyPlaced(unsuspended, gc, dag + References([b]), exempt, i) {
      assert CausallyPlaced(unsuspended, gc, dag + {b.reference}, {}, i);
    }
    CausalConcat([b], unsuspended, gc, dag, exempt);
    DistinctConcat([b], unsuspended);
  }

  lemma AcceptedState(st: State, after: State, content: Content, genesis: set<BlockRef>, b: Block,
      unsuspended: seq<Block>, trust: bool)
    requires ValidState(st, content, genesis) && b.reference !in st.dag && Proper(content, genesis, b)
    requires trust || Needed(b, st.gcRound) <= st.dag
    requires Consistent(after.index, content, st.gcRound, st.dag + {b.reference} + References(unsuspended), {})
    requires References(unsuspended) <= st.index.suspended.Keys - {b.reference}
    requires after.index.suspended.Keys == st.index.suspended.Keys - {b.reference} - References(unsuspended)
    requires after.index.missingAncestors.Keys <= st.index.missingAncestors.Keys
    requires InCausalOrder(unsuspended, st.gcRound, st.dag + {b.reference}, {}) && DistinctReferences(unsuspended)
    requires forall x | x in unsuspended :: x == content(x.reference)
    requires after ==
             State(after.index, st.dag + References([b] + unsuspended), st.gcRound, st.received + {b.reference},
               st.trusted + if trust then {b.reference} else {})
    ensures ValidState(after, content, genesis)
    ensures References([b] + unsuspended) == {b.reference} + References(unsuspended)
    ensures References([b] + unsuspended) !! st.dag
    ensures InCausalOrder([b] + unsuspended, st.gcRound, st.dag, if trust then {b.reference} else {})
    ensures DistinctReferences([b] + unsuspended)
  {
    AcceptKeepsValid(st, after.index, content, genesis, b.reference, unsuspended, trust);
    AcceptedInOrder(b, unsuspended, st.gcRound, st.dag, if trust then {b.reference} else {});
    assert st.dag + References([b] + unsuspended) == st.dag + {b.reference} + References(unsuspended);
  }

  ghost predicate Faithful(content: Content, dag: Dag) {
    forall r | r in dag :: dag[r] == content(r)
  }

  /** The accepted blocks are new, and in causal order after the DAG of before. */
  ghost predicate AcceptedAfter(st: State, content: Content, accepted: seq<Block>, exempt: set<BlockRef>) {
    && References(accepted) !! st.dag && DistinctReferences(accepted)
    && (forall x | x in accepted :: x == content(x.reference))
    && InCausalOrder(accepted, st.gcRound, st.dag, exempt)
  }

  /** What one received block does to the state. */
  ghost predicate ReceivedState(st: State, after: State, content: Content, genesis: set<BlockRef>, b: Block,
      committed: bool, accepted: seq<Block>)
  {
    && ValidState(after, content, genesis)
    && after.dag == st.dag + References(accepted) && after.gcRound == st.gcRound
    && after.received == st.received + (if committed || b.reference.round > st.gcRound then {b.reference} else {})
    && after.trusted == st.trusted + (if committed then {b.reference} else {})
    && AcceptedAfter(st, content, accepted, if committed then {b.reference} else {})
    && st.index.missingBlocks - {b.reference} <= after.index.missingBlocks
    && (!committed && NoIdleKeys(st.index) ==> NoIdleKeys(after.index))
  }

  /** A block that is already there, or too old, changes nothing. */
  lemma NothingReceived(st: State, content: Content, genesis: set<BlockRef>, b: Block)
    requires ValidState(st, content, genesis)
    requires b.reference in st.received || b.reference.round <= st.gcRound
    ensures ReceivedState(st, st, content, genesis, b, false, [])
  {
    assert References([]) == {};
  }

  lemma ReceivedSuspended(st: State, content: Content, genesis: set<BlockRef>, b: Block)
    requires ValidState(st, content, genesis) && Proper(content, genesis, b) && b.reference.round > st.gcRound
    requires b.reference !in st.dag && b.reference !in st.index.suspended && Needed(b, st.gcRound) - st.dag != {}
    ensures ReceivedState(st,
            st.(index := Suspend(st.index, b, Needed(b, st.gcRound) - st.dag), received := st.received + {b.reference}),
                          content, genesis, b, false, [])
  {
    SuspendKeepsValid(st, content, genesis, b);
    assert References([]) == {};
  }

  lemma ReceivedAgainCommitted(st: State, content: Content, genesis: set<BlockRef>, b: Block)
    requires ValidState(st, content, genesis) && b.reference in st.dag
    ensures ReceivedState(st, st.(trusted := st.trusted + {b.reference}), content, genesis, b, true, [])
  {
    TrustKeepsValid(st, content, genesis, b.reference);
    assert References([]) == {};
  }

  // ---- Batches ----

  /** The blocks of a batch that are taken in. */
  function TakenIn(blocks: seq<Block>, gc: Round, committed: bool): set<BlockRef> {
    set b | b in blocks && (committed || b.reference.round > gc) :: b.reference
  }

  /** What a batch does to the state. */
  ghost predicate BatchState(st: State, after: State, content: Content, genesis: set<BlockRef>, blocks: seq<Block>,
      committed: bool, accepted: seq<Block>)
  {
    && ValidState(after, content, genesis)
    && after.dag == st.dag + References(accepted) && after.gcRound == st.gcRound
    && after.received == st.received + TakenIn(blocks, st.gcRound, committed)
    && after.trusted == st.trusted + (if committed then References(blocks) else {})
    && AcceptedAfter(st, content, accepted, if committed then References(blocks) else {})
    && (!committed && NoIdleKeys(st.index) ==> NoIdleKeys(after.index))
  }

  lemma BatchStart(st: State, content: Content, genesis: set<BlockRef>, committed: bool)
    requires ValidState(st, content, genesis)
    ensures BatchState(st, st, content, genesis, [], committed, [])
  {
    assert References([]) == {} && TakenIn([], st.gcRound, committed) == {};
  }

  lemma BatchStep(st: State, mid: State, after: State, content: Content, genesis: set<BlockRef>, blocks: seq<Block>,
      b: Block, committed: bool, accepted: seq<Block>, more: seq<Block>)
    requires BatchState(st, mid, content, genesis, blocks, committed, accepted)
    requires ReceivedState(mid, after, content, genesis, b, committed, more)
    ensures BatchState(st, after, content, genesis, blocks + [b], committed, accepted + more)
  {
    ReferencesConcat(accepted, more);
    ReferencesConcat(blocks, [b]);
    assert References([b]) == {b.reference};
    assert TakenIn(blocks + [b], st.gcRound, committed) ==
           TakenIn(blocks, st.gcRound, committed) + (if committed ||
             b.reference.round > st.gcRound then {b.reference} else {});
    BatchOrder(st, content, accepted, more, if committed then References(blocks) else {},
      if committed then {b.reference} else {});
    assert (if committed then References(blocks) else {}) + (if committed then {b.reference} else {}) ==
      if committed then References(blocks + [b]) else {};
  }

  lemma BatchOrder(st: State, content: Content, accepted: seq<Block>, more: seq<Block>, exempt1: set<BlockRef>,
      exempt2: set<BlockRef>)
    requires AcceptedAfter(st, content, accepted, exempt1)
    requires References(more) !! st.dag + References(accepted) && DistinctReferences(more)
    requires forall x | x in more :: x == content(x.reference)
    requires InCausalOrder(more, st.gcRound, st.dag + References(accepted), exempt2)
    ensures AcceptedAfter(st, content, accepted + more, exempt1 + exempt2)
  {
    ReferencesConcat(accepted, more);
    DistinctConcat(accepted, more);
    ExemptMore(accepted, st.gcRound, st.dag, exempt1, exempt1 + exempt2);
    ExemptMore(more, st.gcRound, st.dag + References(accepted), exempt2, exempt1 + exempt2);
    CausalConcat(accepted, more, st.gcRound, st.dag, exempt1 + exempt2);
  }

  lemma ExemptMore(blocks: seq<Block>, gc: Round, cleared: set<BlockRef>, exempt: set<BlockRef>, more: set<BlockRef>)
    requires InCausalOrder(blocks, gc, cleared, exempt) && exempt <= more
    ensures InCausalOrder(blocks, gc, cleared, more)
  {
    forall i | 0 <= i < |blocks| ensures CausallyPlaced(blocks, gc, cleared, more, i) {
      assert CausallyPlaced(blocks, gc, cleared, exempt, i);
    }
  }

  /** The order of a batch does not matter to what it does. */
  lemma BatchOfPermutation(st: State, after: State, content: Content, genesis: set<BlockRef>, sorted: seq<Block>,
      blocks: seq<Block>, committed: bool, accepted: seq<Block>)
    requires BatchState(st, after, content, genesis, sorted, committed, accepted)
    requires forall b :: b in sorted <==> b in blocks
    ensures BatchState(st, after, content, genesis, blocks, committed, accepted)
  {
    assert TakenIn(sorted, st.gcRound, committed) == TakenIn(blocks, st.gcRound, committed);
    assert References(sorted) == References(blocks);
  }

  // ---- The GC sweep ----

  /** What moving to a new GC round does to the state: more blocks are accepted, in causal order above that round. */
  ghost predicate SweptState(st: State, after: State, content: Content, genesis: set<BlockRef>, accepted: seq<Block>) {
    && ValidState(after, content, genesis) && after.gcRound >= st.gcRound
    && after.dag == st.dag + References(accepted) && after.received == st.received && after.trusted == st.trusted
    && AcceptedAfter(st.(gcRound := after.gcRound), content, accepted, {})
    && (NoIdleKeys(st.index) ==> NoIdleKeys(after.index))
  }

  /**
   While the missing references at or below the new GC round are dropped, lowest first: those dropped so
   far count as cleared.
   */
  ghost predicate Sweeping(st: State, x: Index, accepted: seq<Block>, gone: set<BlockRef>, content: Content,
      genesis: set<BlockRef>, gc: Round)
  {
    var dag := st.dag + References(accepted);
    && AllProper(content, genesis, st.received)
    && Consistent(x, content, st.gcRound, dag + gone, {})
    && st.received == dag + x.suspended.Keys && st.trusted <= st.dag
    && DagClosedBut(content, dag, gone, st.trusted, st.gcRound)
    && (forall a | a in gone :: a.round <= gc)
    && SweptOrder(st, accepted, gone, content)
    && (NoIdleKeys(st.index) ==> NoIdleKeys(x))
  }

  ghost predicate DagClosedBut(content: Content, dag: set<BlockRef>, gone: set<BlockRef>, trusted: set<BlockRef>,
      gc: Round)
  {
    forall r {:trigger EntryClosed(content, dag + gone, trusted, gc, r)} | r in dag ::
      EntryClosed(content, dag + gone, trusted, gc, r)
  }

  ghost predicate SweptOrder(st: State, accepted: seq<Block>, gone: set<BlockRef>, content: Content) {
    && References(accepted) !! st.dag && DistinctReferences(accepted)
    && (forall b | b in accepted :: b == content(b.reference))
    && InCausalOrder(accepted, st.gcRound, st.dag + gone, {})
  }

  lemma SweepStart(st: State, content: Content, genesis: set<BlockRef>, gc: Round)
    requires ValidState(st, content, genesis)
    ensures Sweeping(st, st.index, [], {}, content, genesis, gc)
  {
    assert References([]) == {};
    assert st.dag + References([]) == st.dag && st.dag + {} == st.dag;
    forall r | r in st.dag ensures EntryClosed(content, st.dag + {}, st.trusted, st.gcRound, r) {
      assert EntryClosed(content, st.dag, st.trusted, st.gcRound, r);
    }
  }

  lemma AllAbove(refs: set<BlockRef>, first: BlockRef, gc: Round)
    requires first.round > gc && forall a | a in refs :: RefLe(first, a)
    ensures forall a | a in refs :: a.round > gc
  {
    forall a | a in refs ensures a.round > gc {
      assert RefLe(first, a);
    }
  }

  /** The lowest missing reference is never a suspended block: that one would miss a lower reference. */
  lemma FirstIsNotSuspended(st: State, x: Index, accepted: seq<Block>, gone: set<BlockRef>, content: Content,
      genesis: set<BlockRef>, gc: Round, first: BlockRef)
    requires Sweeping(st, x, accepted, gone, content, genesis, gc)
    requires first in x.missingAncestors && forall a | a in x.missingAncestors :: RefLe(first, a)
    ensures first !in x.suspended
  {
    assert first in x.suspended ==> Waits(x, content, st.gcRound, st.dag + References(accepted) + gone, first);
    assert first in x.suspended ==> Proper(content, genesis, content(first));
  }

  /** Clearing more beforehand keeps a causal order. */
  lemma ClearedMore(blocks: seq<Block>, gc: Round, cleared: set<BlockRef>, more: set<BlockRef>)
    requires InCausalOrder(blocks, gc, cleared, {}) && cleared <= more
    ensures InCausalOrder(blocks, gc, more, {})
  {
    forall i | 0 <= i < |blocks| ensures CausallyPlaced(blocks, gc, more, {}, i) {
      assert CausallyPlaced(blocks, gc, cleared, {}, i);
    }
  }

  lemma SweptOrderStep(st: State, accepted: seq<Block>, gone: set<BlockRef>, content: Content, first: BlockRef,
      unsuspended: seq<Block>)
    requires SweptOrder(st, accepted, gone, content)
    requires Released(content, st.gcRound, st.dag + References(accepted) + gone + {first}, unsuspended)
    requires References(unsuspended) !! st.dag + References(accepted)
    ensures SweptOrder(st, accepted + unsuspended, gone + {first}, content)
  {
    ReferencesConcat(accepted, unsuspended);
    DistinctConcat(accepted, unsuspended);
    ClearedMore(accepted, st.gcRound, st.dag + gone, st.dag + (gone + {first}));
    assert st.dag + (gone + {first}) + References(accepted) == st.dag + References(accepted) + gone + {first};
    CausalConcat(accepted, unsuspended, st.gcRound, st.dag + (gone + {first}), {});
  }

  lemma SweepStep(st: State, x: Index, y: Index, accepted: seq<Block>, gone: set<BlockRef>, content: Content,
      genesis: set<BlockRef>, gc: Round, first: BlockRef, unsuspended: seq<Block>)
    requires Sweeping(st, x, accepted, gone, content, genesis, gc)
    requires first in x.missingAncestors && first !in x.suspended && first.round <= gc
    requires Unsuspended(x.(missingBlocks := x.missingBlocks - {first}), y, content, st.gcRound,
                         st.dag + References(accepted) + gone + {first}, unsuspended)
    ensures Sweeping(st, y, accepted + unsuspended, gone + {first}, content, genesis, gc)
    ensures first !in y.missingAncestors && y.missingAncestors.Keys <= x.missingAncestors.Keys
  {
    var dag := st.dag + References(accepted);
    var dag', gone' := dag + References(unsuspended), gone + {first};
    ReferencesConcat(accepted, unsuspended);
    assert st.dag + References(accepted + unsuspended) == dag';
    assert dag' + gone' == dag + gone + {first} + References(unsuspended);
    forall q | q in dag' ensures EntryClosed(content, dag' + gone', st.trusted, st.gcRound, q) {
      if q in dag {
        assert EntryClosed(content, dag + gone, st.trusted, st.gcRound, q);
      } else {
        UnsuspendedIsClosed(unsuspended, st.gcRound, dag + gone + {first}, q);
      }
    }
    SweptOrderStep(st, accepted, gone, content, first, unsuspended);
  }

  /** When nothing missing is left at or below the new GC round, the state is valid for it. */
  lemma SweepDone(st: State, x: Index, accepted: seq<Block>, gone: set<BlockRef>, content: Content,
      genesis: set<BlockRef>, gc: Round)
    requires Sweeping(st, x, accepted, gone, content, genesis, gc) && gc >= st.gcRound
    requires forall a | a in x.missingAncestors :: a.round > gc
    ensures SweptState(st, State(x, st.dag + References(accepted), gc, st.received, st.trusted), content, genesis,
            accepted)
  {
    var dag := st.dag + References(accepted);
    forall s | s in x.suspended ensures Waits(x, content, gc, dag, s) {
      assert Waits(x, content, st.gcRound, dag + gone, s);
    }
    forall a | a in x.missingAncestors ensures Blocks(x, content, gc, a) {
      assert Blocks(x, content, st.gcRound, a);
    }
    forall q | q in dag ensures EntryClosed(content, dag, st.trusted, gc, q) {
      assert EntryClosed(content, dag + gone, st.trusted, st.gcRound, q);
      if q !in st.trusted {
        forall a | a in Needed(content(q), gc) ensures a in dag {
          assert a in Needed(content(q), st.gcRound);
        }
      }
    }
    SweptOrderDone(st, accepted, gone, content, gc);
  }

  /** Above the new GC round nothing that was dropped is needed. */
  lemma SweptOrderDone(st: State, accepted: seq<Block>, gone: set<BlockRef>, content: Content, gc: Round)
    requires SweptOrder(st, accepted, gone, content) && gc >= st.gcRound && forall a | a in gone :: a.round <= gc
    ensures InCausalOrder(accepted, gc, st.dag, {})
  {
    forall i | 0 <= i < |accepted| ensures CausallyPlaced(accepted, gc, st.dag, {}, i) {
      assert CausallyPlaced(accepted, st.gcRound, st.dag + gone, {}, i);
      forall a | a in Needed(accepted[i], gc) ensures a in st.dag + References(accepted[..i]) {
        assert a in Needed(accepted[i], st.gcRound);
      }
    }
  }
}
