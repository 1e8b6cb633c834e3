/** The commits of consensus among all blocks ever produced: what is committed with what, and who accepts it. */
module FinalityWorld {
  import opened Types
  import opened Committee
  import opened Views
  import opened CommitRule
  import opened CommitSafety
  import opened UniversalCommitter
  import opened BlockIndex
  import opened CausalHistory
  import opened TotalOrder
  import opened VoteLinks
  import opened Finality
  import opened FinalityBuffer
  import opened FinalityVotes
  import opened FinalizerInput

  /** All blocks, and the commits the validators agree on. */
  datatype Consensus = Consensus(world: World, setup: Setup, gcDepth: nat, runs: seq<View>, log: seq<LeaderStatus>,
    views: seq<View>, subDags: seq<seq<Block>>, commits: seq<SubDag>)
  {
    function Leaders(): seq<BlockRef> {
      CommittedLeaders(log)
    }

    function Gc(k: nat): Round
      requires k <= |Leaders()|
    {
      GcBefore(Leaders(), k, gcDepth)
    }

    ghost predicate Valid() {
      && world.Sound() && world.HonestChains() && setup.Valid() && setup.waveLength == 3
      && IsOutput(world, setup, gcDepth, runs, log, views, subDags) && Carries(Leaders(), subDags, commits)
    }

    /** Commit `k` has the block. */
    ghost predicate Has(k: nat, r: BlockRef) {
      k < |commits| && r in References(commits[k].blocks)
    }
  }

  lemma CommitFacts(n: Consensus, k: nat)
    requires n.Valid() && k < |n.commits|
    ensures |n.views| == |n.subDags| == |n.Leaders()| == |n.commits| && n.commits[k].blocks == n.subDags[k]
    ensures n.commits[k].leader == n.Leaders()[k] && Rises(n.Leaders())
    ensures SubDagAt(n.Leaders(), n.views, n.subDags, k)
    ensures IsCommitAt(n.world, n.gcDepth, n.Leaders(), n.views, n.subDags, k)
  {
    OutputSubDags(n.world, n.setup, n.gcDepth, n.runs, n.log, n.views, n.subDags);
  }

  lemma ViewAt(n: Consensus, d: nat)
    requires n.Valid() && d < |n.commits|
    ensures |n.views| == |n.Leaders()| == |n.commits| && n.world.Holds(n.views[d]) && n.views[d].gcRound == n.Gc(d)
    ensures n.Leaders()[d] in n.views[d].blocks
  {
    CommitFacts(n, d);
  }

  lemma GcGrows(n: Consensus, k: nat, m: nat)
    requires n.Valid() && k <= m < |n.commits|
    ensures n.Gc(k) <= n.Gc(m)
  {
    CommitFacts(n, m);
    GcRises(n.Leaders(), k, m, n.gcDepth);
  }

  lemma OneCommitHas(n: Consensus, i: nat, k: nat, r: BlockRef)
    requires n.Valid() && n.Has(i, r) && n.Has(k, r)
    ensures i == k
  {
    CommitFacts(n, i);
    CommitFacts(n, k);
    CommittedOnce(n.world, n.setup, n.gcDepth, n.runs, n.log, n.views, n.subDags, i, k, r);
  }

  lemma CommittedIsInWorld(n: Consensus, k: nat, b: Block)
    requires n.Valid() && k < |n.commits| && b in n.commits[k].blocks
    ensures b.reference in n.world.blocks && b == n.world.blocks[b.reference] && Descending(b)
  {
    CommitFacts(n, k);
    CommittedBlocks(n.world, n.setup, n.gcDepth, n.runs, n.log, n.views, n.subDags, k);
  }

  /** Some commit up to `k` has what was committed by then. */
  lemma CommitOf(n: Consensus, k: nat, r: BlockRef) returns (m: nat)
    requires n.Valid() && k < |n.commits| && r in Committed(n.subDags[..k + 1])
    ensures m <= k && n.Has(m, r)
  {
    CommitFacts(n, k);
    m := OneOfCommitted(n.subDags[..k + 1], r);
    CommitFacts(n, m);
  }

  /** Ancestors above the GC round are committed with their block or before. */
  lemma AncestorCommitted(n: Consensus, k: nat, z: BlockRef, a: BlockRef) returns (m: nat)
    requires n.Valid() && n.Has(k, z) && z in n.world.blocks && a in n.world.blocks[z].ancestors && a.round > n.Gc(k)
    ensures m <= k && n.Has(m, a)
  {
    CommitFacts(n, k);
    CommittedAt(n.world, n.gcDepth, n.Leaders(), n.views, n.subDags, k, z);
    m := CommitOf(n, k, a);
  }

  /** What reaches a block is not committed before it. */
  lemma {:induction false} NotBefore(n: Consensus, i: nat, r: BlockRef, k: nat, z: BlockRef)
    requires n.Valid() && n.Has(i, r) && n.Has(k, z) && Reaches(n.world.blocks, z, r) && r.round > n.Gc(k)
    ensures i <= k
    decreases z.round
  {
    if z == r {
      OneCommitHas(n, i, k, r);
    } else {
      var a :| a in n.world.blocks[z].ancestors && a.round < z.round && Reaches(n.world.blocks, a, r);
      ReachesDescends(n.world.blocks, a, r);
      var m := AncestorCommitted(n, k, z, a);
      GcGrows(n, m, k);
      NotBefore(n, i, r, m, a);
    }
  }

  // ---- Descent within the commits is descent in the world ----

  lemma EdgeStep(bs: seq<Block>, from: BlockRef, x: BlockRef, y: BlockRef)
    requires x in References(bs) && y in ChildrenIn(bs, x) && (x == from || Descends(EdgesIn(bs), from, x))
    ensures Descends(EdgesIn(bs), from, y)
  {
    var e := EdgesIn(bs);
    if x == from {
      assert IsPath(e, [from, y]);
    } else {
      var p :| IsPath(e, p) && p[0] == from && p[|p| - 1] == x;
      var q := p + [y];
      forall i | 0 <= i < |q| - 1 ensures q[i] in e && q[i + 1] in e[q[i]] {
        if i < |p| - 1 {
          assert q[i] == p[i] && q[i + 1] == p[i + 1];
        }
      }
      assert IsPath(e, q);
    }
  }

  lemma InRange(n: Consensus, i: nat, d: nat, m: nat, z: BlockRef)
    requires n.Valid() && i <= m <= d < |n.commits| && n.Has(m, z)
    ensures z in n.world.blocks && n.world.blocks[z] in AllBlocks(n.commits[i..d + 1])
    ensures n.world.blocks[z].reference == z
    ensures z in References(AllBlocks(n.commits[i..d + 1]))
  {
    var b :| b in n.commits[m].blocks && b.reference == z;
    CommittedIsInWorld(n, m, b);
    assert n.commits[i..d + 1][m - i] == n.commits[m];
    InAllBlocks(n.commits[i..d + 1], b);
  }

  /** Within commits `i` to `d`, a block descends from `r` if it reaches it. */
  lemma {:induction false} DescendsInCommits(n: Consensus, i: nat, d: nat, r: BlockRef, m: nat, z: BlockRef)
    requires n.Valid() && n.Has(i, r) && i <= m <= d < |n.commits| && n.Has(m, z) && r.round > n.Gc(d)
    requires Reaches(n.world.blocks, z, r) && z != r
    ensures Descends(EdgesIn(AllBlocks(n.commits[i..d + 1])), r, z)
    decreases z.round
  {
    var bs := AllBlocks(n.commits[i..d + 1]);
    var a :| a in n.world.blocks[z].ancestors && a.round < z.round && Reaches(n.world.blocks, a, r);
    InRange(n, i, d, m, z);
    assert z in ChildrenIn(bs, a);
    if a == r {
      InRange(n, i, d, i, r);
    } else {
      ReachesDescends(n.world.blocks, a, r);
      GcGrows(n, m, d);
      var k := AncestorCommitted(n, m, z, a);
      GcGrows(n, k, d);
      NotBefore(n, i, r, k, a);
      InRange(n, i, d, k, a);
      DescendsInCommits(n, i, d, r, k, a);
    }
    EdgeStep(bs, r, a, z);
  }

  /** And a descendant reaches it. */
  lemma {:induction false} PathReaches(w: World, bs: seq<Block>, p: seq<BlockRef>)
    requires forall b | b in bs :: b.reference in w.blocks && b == w.blocks[b.reference] && Descending(b)
    requires IsPath(EdgesIn(bs), p)
    ensures Reaches(w.blocks, p[|p| - 1], p[0])
    decreases |p|
  {
    var k, e := |p| - 2, EdgesIn(bs);
    assert p[k] in e && p[k + 1] in e[p[k]];
    var b :| b in bs && p[k] in b.ancestors && b.reference == p[k + 1];
    if k > 0 {
      var q := p[..k + 1];
      forall i | 0 <= i < |q| - 1 ensures q[i] in e && q[i + 1] in e[q[i]] {
        assert q[i] == p[i] && q[i + 1] == p[i + 1];
      }
      PathReaches(w, bs, q);
    } else {
      assert Reaches(w.blocks, p[k], p[0]);
    }
    assert p[k] in w.blocks[p[k + 1]].ancestors && p[k].round < p[k + 1].round;
  }

  lemma HomeInRange(commits: seq<SubDag>, i: nat, d: nat, b: Block) returns (k: nat)
    requires i <= d < |commits| && b in AllBlocks(commits[i..d + 1])
    ensures i <= k <= d && b in commits[k].blocks
  {
    var range := commits[i..d + 1];
    InAllBlocks(range, b);
    var q :| 0 <= q < |range| && b in range[q].blocks;
    k := i + q;
  }

  lemma RangeIsInWorld(n: Consensus, i: nat, d: nat, b: Block)
    requires n.Valid() && i <= d < |n.commits| && b in AllBlocks(n.commits[i..d + 1])
    ensures b.reference in n.world.blocks && b == n.world.blocks[b.reference] && Descending(b)
  {
    var k := HomeInRange(n.commits, i, d, b);
    CommittedIsInWorld(n, k, b);
  }

  lemma DescendantReaches(n: Consensus, i: nat, d: nat, r: BlockRef, z: BlockRef)
    requires n.Valid() && i <= d < |n.commits| && Descends(EdgesIn(AllBlocks(n.commits[i..d + 1])), r, z)
    ensures Reaches(n.world.blocks, z, r)
  {
    var bs := AllBlocks(n.commits[i..d + 1]);
    forall b | b in bs ensures b.reference in n.world.blocks && b == n.world.blocks[b.reference] && Descending(b) {
      RangeIsInWorld(n, i, d, b);
    }
    var p :| IsPath(EdgesIn(bs), p) && p[0] == r && p[|p| - 1] == z;
    PathReaches(n.world, bs, p);
  }

  // ---- The votes of a certificate accept ----

  lemma {:induction false} ReachesIsAbove(v: View, from: BlockRef, to: BlockRef)
    requires v.Closed() && from in v.blocks && to.round > v.gcRound && Reaches(v.blocks, from, to)
    ensures ReachesAbove(v.blocks, v.gcRound, from, to)
    decreases from.round
  {
    ReachesDescends(v.blocks, from, to);
    if from != to {
      var a :| a in v.blocks[from].ancestors && a.round < from.round && Reaches(v.blocks, a, to);
      ReachesDescends(v.blocks, a, to);
      assert v.EntryClosed(from);
      ReachesIsAbove(v, a, to);
    }
  }

  /** Whatever a view reaches is reached in the world. */
  lemma {:induction false} ReachesInWorld(w: World, v: View, from: BlockRef, to: BlockRef)
    requires w.Holds(v) && Reaches(v.blocks, from, to)
    ensures Reaches(w.blocks, from, to)
    decreases from.round
  {
    if from != to {
      var a :| a in v.blocks[from].ancestors && a.round < from.round && Reaches(v.blocks, a, to);
      ReachesInWorld(w, v, a, to);
    }
  }

  lemma {:induction false} AboveInWorld(w: World, v: View, from: BlockRef, to: BlockRef)
    requires w.Holds(v) && ReachesAbove(v.blocks, v.gcRound, from, to)
    ensures Reaches(w.blocks, from, to)
    decreases from.round
  {
    if from != to {
      var a :| a in v.blocks[from].ancestors && a.round < from.round && ReachesAbove(v.blocks, v.gcRound, a, to);
      AboveInWorld(w, v, a, to);
    }
  }

  lemma LeaderReaches(n: Consensus, i: nat, r: BlockRef)
    requires n.Valid() && n.Has(i, r)
    ensures Reaches(n.world.blocks, n.Leaders()[i], r) && r.round <= n.Leaders()[i].round
  {
    CommitFacts(n, i);
    assert r in HistoryAbove(n.views[i], n.Leaders()[i]);
    AboveInWorld(n.world, n.views[i], n.Leaders()[i], r);
    ReachesDescends(n.world.blocks, n.Leaders()[i], r);
  }

  /** What a committed leader reaches above the GC round is committed by then. */
  lemma HistoryCommitted(n: Consensus, d: nat, z: BlockRef) returns (m: nat)
    requires n.Valid() && d < |n.commits| && z in n.views[d].blocks && z.round > n.Gc(d)
    requires Reaches(n.views[d].blocks, n.Leaders()[d], z)
    ensures m <= d && n.Has(m, z)
  {
    ViewAt(n, d);
    ReachesIsAbove(n.views[d], n.Leaders()[d], z);
    assert z in HistoryAbove(n.views[d], n.Leaders()[d]);
    CommittedByThen(n, d, z);
    m := CommitOf(n, d, z);
  }

  lemma CommittedByThen(n: Consensus, d: nat, z: BlockRef)
    requires n.Valid() && d < |n.commits| == |n.views| && z in HistoryAbove(n.views[d], n.Leaders()[d])
    ensures z in Committed(n.subDags[..d + 1])
  {
    CommitFacts(n, d);
    CommittedNext(n.subDags, d);
  }

  lemma CommittedNext(subDags: seq<seq<Block>>, d: nat)
    requires d < |subDags|
    ensures Committed(subDags[..d + 1]) == Committed(subDags[..d]) + References(subDags[d])
  {
    assert subDags[..d + 1][..d] == subDags[..d];
  }

  /** A certificate of leader `i` in the history of leader `d`. */
  ghost predicate Certifies(n: Consensus, i: nat, d: nat, cert: BlockRef)
    requires n.Valid() && i < d < |n.commits|
  {
    CommitFacts(n, i);
    CommitFacts(n, d);
    && n.Leaders()[i].round > n.views[d].gcRound
    && cert in HistoryAt(n.views[d], n.Leaders()[d], n.Leaders()[i].round + 2)
    && IsCertificate(n.world.committee, n.views[d], cert, n.Leaders()[i])
  }

  ghost function VotesOf(n: Consensus, i: nat, d: nat, cert: BlockRef): set<BlockRef>
    requires n.Valid() && i < d < |n.commits| && Certifies(n, i, d, cert)
  {
    CommitFacts(n, d);
    CommitRule.Votes(n.views[d], cert, n.Leaders()[i])
  }

  /** Its votes are one round above leader `i`, reach the block, and are committed from `i` to `d`. */
  lemma VoteIsCommitted(n: Consensus, i: nat, d: nat, r: BlockRef, cert: BlockRef, y: BlockRef) returns (m: nat)
    requires n.Valid() && i < d < |n.commits| && n.Has(i, r) && r.round > n.Gc(d) && Certifies(n, i, d, cert)
    requires y in VotesOf(n, i, d, cert)
    ensures i <= m <= d && n.Has(m, y) && y in n.world.blocks && y.round == n.Leaders()[i].round + 1
    ensures Reaches(n.world.blocks, y, r) && cert in n.world.blocks && y in n.world.blocks[cert].ancestors
    ensures Descends(EdgesIn(AllBlocks(n.commits[i..d + 1])), r, y)
  {
    var v, leader := n.views[d], n.Leaders()[i];
    CommitFacts(n, i);
    CommitFacts(n, d);
    SupportedIsInHistory(v, SlotOf(leader), y);
    assert v.EntryClosed(cert);
    LeaderReaches(n, i, r);
    ReachesInWorld(n.world, v, y, leader);
    ReachesTransitive(n.world.blocks, y, leader, r);
    CertReaches(v, n.Leaders()[d], cert, y);
    m := HistoryCommitted(n, d, y);
    GcGrows(n, m, d);
    NotBefore(n, i, r, m, y);
    DescendsInCommits(n, i, d, r, m, y);
  }

  lemma CertReaches(v: View, root: BlockRef, cert: BlockRef, y: BlockRef)
    requires v.Closed() && cert in v.blocks && Reaches(v.blocks, root, cert) && y in v.blocks[cert].ancestors
    ensures Reaches(v.blocks, root, y)
  {
    assert v.EntryClosed(cert) && Reaches(v.blocks, y, y);
    ReachesTransitive(v.blocks, root, cert, y);
  }

  /** No vote of the certificate is on a chain that rejects. */
  ghost predicate VotesAccept(n: Consensus, h: Linkage, i: nat, d: nat, cert: BlockRef, r: BlockRef, t: nat)
    requires n.Valid() && i < d < |n.commits| && Certifies(n, i, d, cert) && h.Valid() && h.commits == n.commits
  {
    forall y, m {:trigger n.Has(m, y)} | y in VotesOf(n, i, d, cert) && i <= m <= d && n.Has(m, y) &&
      y in n.world.blocks ::
      !ChainRejects(h, m, n.world.blocks[y], r, t)
  }

  /** Then a quorum accepts the transaction by the deadline. */
  lemma CertificateAccepts(n: Consensus, h: Linkage, i: nat, d: nat, cert: BlockRef, r: BlockRef, t: nat)
    requires n.Valid() && i < d < |n.commits| && n.Has(i, r) && r.round > n.Gc(d) && Certifies(n, i, d, cert)
    requires h.Valid() && h.commits == n.commits && VotesAccept(n, h, i, d, cert, r, t)
    ensures AcceptedAt(n.world.committee, h, i, d, r, t)
  {
    var votes, accepting := VotesOf(n, i, d, cert), AcceptingAt(h, i, d, r, t);
    forall x | x in Authors(votes) ensures x in accepting {
      var y :| y in votes && y.author == x;
      var m := VoteIsCommitted(n, i, d, r, cert, y);
      VoteAccepts(n, h, i, d, m, y, r, t);
    }
    StakeMonotone(n.world.committee, Authors(votes), accepting);
  }

  lemma VoteAccepts(n: Consensus, h: Linkage, i: nat, d: nat, m: nat, y: BlockRef, r: BlockRef, t: nat)
    requires n.Valid() && i <= m <= d < |n.commits| && n.Has(m, y) && h.Valid() && h.commits == n.commits
    requires Descends(EdgesIn(AllBlocks(n.commits[i..d + 1])), r, y)
    requires y in n.world.blocks && !ChainRejects(h, m, n.world.blocks[y], r, t)
    ensures y.author in AcceptingAt(h, i, d, r, t)
  {
    var b :| b in n.commits[m].blocks && b.reference == y;
    CommittedIsInWorld(n, m, b);
    assert Accepts(h, i, d, m, b, r, t);
  }
}
