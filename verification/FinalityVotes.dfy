/**
 The accept votes that finalize a transaction, as a property of the committed blocks and of which commits
 were still linked when each commit came: what the stored links and votes of the finalizer say.
 */
module FinalityVotes {
  import opened Types
  import opened Committee
  import opened BlockIndex
  import opened VoteLinks
  import opened Finality
  import opened FinalityBuffer

  /** Commits, and for each the first commit still linked when its blocks were. */
  datatype Linkage = Linkage(commits: seq<SubDag>, starts: seq<nat>)
  {
    predicate Valid() {
      |commits| == |starts|
    }
  }

  /** `a` is the author's own ancestor that `b` names first. */
  ghost predicate IsOwnParent(b: Block, a: Block) {
    && b.ancestors != [] && b.ancestors[0] == a.reference && a.reference.author == b.reference.author
    && a.reference.round < b.reference.round
  }

  /** `a`, of commit `m`, is the own ancestor of `b`, of commit `k`, and was linked when `b` was. */
  ghost predicate IsLinkedParent(h: Linkage, k: nat, b: Block, m: nat, a: Block)
    requires h.Valid() && k < |h.commits|
  {
    h.starts[k] <= m <= k && a in h.commits[m].blocks && IsOwnParent(b, a)
  }

  /** The block of commit `k`, or one before it on the linked chain of its author, votes to reject. */
  ghost predicate ChainRejects(h: Linkage, k: nat, b: Block, target: BlockRef, t: nat)
    requires h.Valid() && k < |h.commits|
    decreases b.reference.round
  {
    Casts(b, target, t) || exists m: nat, a | IsLinkedParent(h, k, b, m, a) :: ChainRejects(h, m, a, target, t)
  }

  ghost function EdgesIn(bs: seq<Block>): Edges {
    map x | x in References(bs) :: ChildrenIn(bs, x)
  }

  /** The block of commit `m` descends from `target` within commits `i` to `j`, and its chain does not reject. */
  ghost predicate Accepts(h: Linkage, i: nat, j: nat, m: nat, b: Block, target: BlockRef, t: nat)
    requires h.Valid() && i <= j < |h.commits|
  {
    && i <= m <= j && b in h.commits[m].blocks
    && Descends(EdgesIn(AllBlocks(h.commits[i..j + 1])), target, b.reference) && !ChainRejects(h, m, b, target, t)
  }

  ghost function AcceptingAt(h: Linkage, i: nat, j: nat, target: BlockRef, t: nat): set<Author>
    requires h.Valid() && i <= j < |h.commits|
  {
    set m: nat, b | i <= m <= j && b in h.commits[m].blocks && Accepts(h, i, j, m, b, target, t) :: b.reference.author
  }

  /** Authors of descendants in commits `i` to `j` whose chains do not reject the transaction hold a quorum. */
  ghost predicate AcceptedAt(c: Committee, h: Linkage, i: nat, j: nat, target: BlockRef, t: nat)
    requires h.Valid() && i <= j < |h.commits|
  {
    c.IsQuorum(AcceptingAt(h, i, j, target, t))
  }

  // ---- Linking more, or for longer ----

  /** Up to `k` and down to `low`, the chains of `less` do not leave `low` and are linked in `more` too. */
  ghost predicate LinksLess(less: Linkage, more: Linkage, low: nat, k: nat) {
    && less.Valid() && more.Valid() && k < |less.commits| && k < |more.commits|
    && forall m | low <= m <= k ::
         low <= less.starts[m] && more.starts[m] <= less.starts[m] && less.commits[m].blocks == more.commits[m].blocks
  }

  /** Votes are inherited from what is linked: with more of it, more is rejected. */
  lemma {:induction false} RejectsMore(less: Linkage, more: Linkage, low: nat, k: nat, b: Block, target: BlockRef,
      t: nat)
    requires low <= k && LinksLess(less, more, low, k) && ChainRejects(less, k, b, target, t)
    ensures ChainRejects(more, k, b, target, t)
    decreases b.reference.round
  {
    if !Casts(b, target, t) {
      var m: nat, a :| IsLinkedParent(less, k, b, m, a) && ChainRejects(less, m, a, target, t);
      assert low <= less.starts[k] && more.starts[k] <= less.starts[k];
      assert low <= m <= k;
      RejectsMore(less, more, low, m, a, target, t);
      assert IsLinkedParent(more, k, b, m, a);
    }
  }

  lemma {:induction false} SameBlocks(a: seq<SubDag>, b: seq<SubDag>)
    requires |a| == |b| && forall m | 0 <= m < |a| :: a[m].blocks == b[m].blocks
    ensures AllBlocks(a) == AllBlocks(b)
    decreases |a|
  {
    if a != [] {
      SameBlocks(a[1..], b[1..]);
    }
  }

  /** What is accepted where more is linked is accepted where less is. */
  lemma AcceptedLess(c: Committee, less: Linkage, more: Linkage, low: nat, i: nat, j: nat, target: BlockRef, t: nat)
    requires low <= i <= j && LinksLess(less, more, low, j) && AcceptedAt(c, more, i, j, target, t)
    ensures AcceptedAt(c, less, i, j, target, t)
  {
    SameBlocks(less.commits[i..j + 1], more.commits[i..j + 1]);
    var a, b := AcceptingAt(more, i, j, target, t), AcceptingAt(less, i, j, target, t);
    forall x | x in a ensures x in b {
      var m: nat, y :| i <= m <= j && y in more.commits[m].blocks && Accepts(more, i, j, m, y, target, t) &&
        y.reference.author == x;
      if ChainRejects(less, m, y, target, t) {
        RejectsMore(less, more, low, m, y, target, t);
      }
      assert Accepts(less, i, j, m, y, target, t);
    }
    StakeMonotone(c, a, b);
  }

  // ---- Growing the set of blocks ----

  lemma PathGrows(bs: seq<Block>, more: seq<Block>, p: seq<BlockRef>)
    requires IsPath(EdgesIn(bs), p)
    ensures IsPath(EdgesIn(bs + more), p)
  {
    ReferencesConcat(bs, more);
    var e, e' := EdgesIn(bs), EdgesIn(bs + more);
    forall i | 0 <= i < |p| - 1 ensures p[i] in e' && p[i + 1] in e'[p[i]] {
      ChildrenConcat(bs, more, p[i]);
      assert p[i] in e && p[i + 1] in e[p[i]];
    }
  }

  lemma DescendsGrows(bs: seq<Block>, more: seq<Block>, from: BlockRef, to: BlockRef)
    requires Descends(EdgesIn(bs), from, to)
    ensures Descends(EdgesIn(bs + more), from, to)
  {
    var p :| IsPath(EdgesIn(bs), p) && p[0] == from && p[|p| - 1] == to;
    PathGrows(bs, more, p);
  }

  lemma {:induction false} PathRises(bs: seq<Block>, p: seq<BlockRef>)
    requires (forall b | b in bs :: Descending(b)) && IsPath(EdgesIn(bs), p)
    ensures p[0].round < p[|p| - 1].round
    decreases |p|
  {
    var n, e := |p| - 1, EdgesIn(bs);
    assert p[n - 1] in e && p[n - 1 + 1] in e[p[n - 1]];
    if n > 1 {
      var q := p[..n];
      forall i | 0 <= i < |q| - 1 ensures q[i] in e && q[i + 1] in e[q[i]] {
        assert q[i] == p[i] && q[i + 1] == p[i + 1];
      }
      PathRises(bs, q);
    }
  }

  lemma DescendsRises(bs: seq<Block>, from: BlockRef, to: BlockRef)
    requires (forall b | b in bs :: Descending(b)) && Descends(EdgesIn(bs), from, to)
    ensures from.round < to.round
  {
    var p :| IsPath(EdgesIn(bs), p) && p[0] == from && p[|p| - 1] == to;
    PathRises(bs, p);
  }

  /** A transaction that is accepted stays accepted as further commits come in. */
  lemma AcceptedStays(c: Committee, h: Linkage, i: nat, j: nat, k: nat, target: BlockRef, t: nat)
    requires h.Valid() && i <= j <= k < |h.commits| && AcceptedAt(c, h, i, j, target, t)
    ensures AcceptedAt(c, h, i, k, target, t)
  {
    assert h.commits[i..k + 1] == h.commits[i..j + 1] + h.commits[j + 1..k + 1];
    AllBlocksConcat(h.commits[i..j + 1], h.commits[j + 1..k + 1]);
    var before, after := AcceptingAt(h, i, j, target, t), AcceptingAt(h, i, k, target, t);
    forall x | x in before ensures x in after {
      var m: nat, b :| i <= m <= j && b in h.commits[m].blocks && Accepts(h, i, j, m, b, target, t) &&
        b.reference.author == x;
      DescendsGrows(AllBlocks(h.commits[i..j + 1]), AllBlocks(h.commits[j + 1..k + 1]), target, b.reference);
      assert Accepts(h, i, k, m, b, target, t);
    }
    StakeMonotone(c, before, after);
  }

  // ---- What the finalizer stores ----

  ghost predicate StoresChain(h: Linkage, m: nat, links: Links, b: Block, target: BlockRef)
    requires h.Valid() && m < |h.commits|
  {
    b.reference in links && forall t :: t in On(links[b.reference].rejects, target) <==>
      ChainRejects(h, m, b, target, t)
  }

  /** The stored votes of commits `start` up to `end`, on any block, are those of the linked chains. */
  ghost predicate VotesExact(h: Linkage, start: nat, end: nat, links: Links)
    requires h.Valid() && end <= |h.commits|
  {
    forall m, b, target {:trigger StoresChain(h, m, links, b, target)} | start <= m < end && b in h.commits[m].blocks ::
      StoresChain(h, m, links, b, target)
  }

  /** A newly linked block stores its own votes and those of its own ancestor, if that is linked. */
  lemma {:induction false} NewStoresChain(h: Linkage, start: nat, end: nat, links: Links, b: Block, target: BlockRef)
    requires h.Valid() && start <= end < |h.commits| && h.starts[end] == start && VotesExact(h, start, end, links)
    requires Linked(AllBlocks(h.commits[start..end]), links)
    requires Follows(AllBlocks(h.commits[start..end]), h.commits[end].blocks) && b in h.commits[end].blocks
    ensures StoresChain(h, end, LinkCommit(links, h.commits[end].blocks), b, target)
    decreases b.reference.round
  {
    var bs, blocks := AllBlocks(h.commits[start..end]), h.commits[end].blocks;
    var after := LinkCommit(links, blocks);
    LinkCommitVotes(bs, links, blocks);
    LinkCommitLinked(bs, links, blocks);
    assert VotesStored(after, b) && after.Keys == References(bs + blocks);
    forall m: nat, a | IsLinkedParent(h, end, b, m, a) ensures StoresChain(h, m, after, a, target) {
      if m == end {
        NewStoresChain(h, start, end, links, a, target);
      } else {
        assert StoresChain(h, m, links, a, target);
      }
    }
    forall t ensures t in On(after[b.reference].rejects, target) <==> ChainRejects(h, end, b, target, t) {
      NewVote(h, start, end, after, b, target, t);
    }
  }

  lemma NewVote(h: Linkage, start: nat, end: nat, links: Links, b: Block, target: BlockRef, t: nat)
    requires h.Valid() && start <= end < |h.commits| && h.starts[end] == start
    requires links.Keys == References(AllBlocks(h.commits[start..end]) + h.commits[end].blocks)
    requires VotesStored(links, b) && Descending(b)
    requires forall m: nat, a | IsLinkedParent(h, end, b, m, a) :: StoresChain(h, m, links, a, target)
    ensures t in On(links[b.reference].rejects, target) <==> ChainRejects(h, end, b, target, t)
  {
    var inherited := InheritedVotes(links, b);
    MergeOn(AddVotes(map[], b.transactionVotes), inherited, target);
    AddVotesContents(b.transactionVotes, target, t);
    if t in On(inherited, target) {
      var m, a := LinkedParentOf(h, start, end, b);
      assert StoresChain(h, m, links, a, target);
    }
    forall m: nat, a | IsLinkedParent(h, end, b, m, a) && ChainRejects(h, m, a, target, t)
      ensures t in On(inherited, target)
    {
      assert StoresChain(h, m, links, a, target);
    }
  }

  lemma LinkedParentOf(h: Linkage, start: nat, end: nat, b: Block) returns (m: nat, a: Block)
    requires h.Valid() && start <= end < |h.commits| && h.starts[end] == start
    requires b.ancestors != [] && b.ancestors[0].author == b.reference.author && Descending(b)
    requires b.ancestors[0] in References(AllBlocks(h.commits[start..end]) + h.commits[end].blocks)
    ensures IsLinkedParent(h, end, b, m, a) && a.reference == b.ancestors[0]
  {
    var bs := AllBlocks(h.commits[start..end]);
    a :| a in bs + h.commits[end].blocks && a.reference == b.ancestors[0];
    assert b.ancestors[0] in b.ancestors;
    m := end;
    if a !in h.commits[end].blocks {
      InAllBlocks(h.commits[start..end], a);
      var q :| 0 <= q < |h.commits[start..end]| && a in h.commits[start..end][q].blocks;
      m := start + q;
      assert h.commits[start..end][q] == h.commits[m];
    }
  }

  lemma VotesExactLink(h: Linkage, start: nat, end: nat, links: Links)
    requires h.Valid() && start <= end < |h.commits| && h.starts[end] == start && VotesExact(h, start, end, links)
    requires Linked(AllBlocks(h.commits[start..end]), links)
    requires Follows(AllBlocks(h.commits[start..end]), h.commits[end].blocks)
    ensures VotesExact(h, start, end + 1, LinkCommit(links, h.commits[end].blocks))
  {
    var after := LinkCommit(links, h.commits[end].blocks);
    LinkCommitVotes(AllBlocks(h.commits[start..end]), links, h.commits[end].blocks);
    forall m, b, target | start <= m < end + 1 && b in h.commits[m].blocks ensures StoresChain(h, m, after, b, target) {
      if m == end {
        NewStoresChain(h, start, end, links, b, target);
      } else {
        assert StoresChain(h, m, links, b, target);
      }
    }
  }

  /** Forgetting the first commit changes nothing that is stored for the others. */
  lemma VotesExactPop(h: Linkage, start: nat, end: nat, links: Links)
    requires h.Valid() && Ordered(h.commits) && start < end <= |h.commits| && VotesExact(h, start, end, links)
    ensures VotesExact(h, start + 1, end, links - References(h.commits[start].blocks))
  {
    var after := links - References(h.commits[start].blocks);
    forall m, b, target | start + 1 <= m < end && b in h.commits[m].blocks ensures StoresChain(h, m, after, b, target) {
      assert StoresChain(h, m, links, b, target);
      assert Follows(h.commits[start].blocks, h.commits[m].blocks);
      assert b.reference in References(h.commits[m].blocks);
    }
  }

  /** Counting over the stored links and votes is counting over the committed blocks. */
  lemma AcceptedByBlocks(c: Committee, h: Linkage, i: nat, j: nat, links: Links, target: BlockRef, t: nat)
    requires h.Valid() && i <= j < |h.commits| && VotesExact(h, i, j + 1, links)
    requires Linked(AllBlocks(h.commits[i..j + 1]), links)
    ensures Accepted(c, links, target, t) <==> AcceptedAt(c, h, i, j, target, t)
  {
    var bs := AllBlocks(h.commits[i..j + 1]);
    assert EdgesOf(links) == EdgesIn(bs) by {
      forall x | x in links ensures links[x].children == ChildrenIn(bs, x) {
        assert HasChildren(bs, links, x);
      }
    }
    var stored, plain := Accepting(links, target, t, Descendants(links, target)), AcceptingAt(h, i, j, target, t);
    forall x | x in stored ensures x in plain {
      var r :| r in Descendants(links, target) && r in links && t !in On(links[r].rejects, target) && r.author == x;
      var b :| b in bs && b.reference == r;
      InAllBlocks(h.commits[i..j + 1], b);
      var q :| 0 <= q < |h.commits[i..j + 1]| && b in h.commits[i..j + 1][q].blocks;
      assert h.commits[i + q] == h.commits[i..j + 1][q] && StoresChain(h, i + q, links, b, target);
      assert Accepts(h, i, j, i + q, b, target, t);
    }
    forall x | x in plain ensures x in stored {
      var m: nat, b :| i <= m <= j && b in h.commits[m].blocks && Accepts(h, i, j, m, b, target, t) &&
        b.reference.author == x;
      assert StoresChain(h, m, links, b, target);
      assert b.reference in Descendants(links, target);
    }
    assert stored == plain;
  }
}
