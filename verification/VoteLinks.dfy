/**
 The blocks of buffered commits as the commit finalizer keeps them: links from a block to the blocks that
 have it as an ancestor, and the reject votes of each block, made explicit along the chain of its author.
 */
module VoteLinks {
  import opened Types
  import opened Committee
  import opened Sorting
  import opened BlockIndex

  /** Rejected transactions by block. */
  type Votes = map<BlockRef, set<nat>>

  datatype BlockState = BlockState(children: set<BlockRef>, rejects: Votes)

  type Links = map<BlockRef, BlockState>

  function On(v: Votes, r: BlockRef): set<nat> {
    if r in v then v[r] else {}
  }

  function Merge(a: Votes, b: Votes): Votes {
    map r | r in a.Keys + b.Keys :: On(a, r) + On(b, r)
  }

  function Indices(rejects: seq<nat>): set<nat> {
    set t | t in rejects
  }

  function AddVotes(base: Votes, votes: seq<TransactionVotes>): Votes {
    if votes == [] then base
    else
      var last := votes[|votes| - 1];
      var v := AddVotes(base, votes[..|votes| - 1]);
      v[last.target := On(v, last.target) + Indices(last.rejects)]
  }

  /** The block itself votes to reject transaction `t` of `target`. */
  ghost predicate Casts(b: Block, target: BlockRef, t: nat) {
    exists v | v in b.transactionVotes :: v.target == target && t in v.rejects
  }

  lemma {:induction false} AddVotesContents(votes: seq<TransactionVotes>, target: BlockRef, t: nat)
    ensures t in On(AddVotes(map[], votes), target) <==> exists v | v in votes :: v.target == target && t in v.rejects
    decreases |votes|
  {
    if votes != [] {
      var last := |votes| - 1;
      assert votes == votes[..last] + [votes[last]];
      AddVotesContents(votes[..last], target, t);
    }
  }

  // ---- Linking ----

  function Entry(links: Links, b: Block): BlockState {
    if b.reference in links
      then links[b.reference].(rejects := AddVotes(links[b.reference].rejects, b.transactionVotes))
    else BlockState({}, AddVotes(map[], b.transactionVotes))
  }

  /** Enters a block with its own votes, and as a child of those of its ancestors that are there. */
  function Link(links: Links, b: Block): Links {
    var entered := links[b.reference := Entry(links, b)];
    map r | r in entered ::
      if r in b.ancestors then entered[r].(children := entered[r].children + {b.reference}) else entered[r]
  }

  function LinkAll(links: Links, blocks: seq<Block>): Links {
    if blocks == [] then links else Link(LinkAll(links, blocks[..|blocks| - 1]), blocks[|blocks| - 1])
  }

  ghost function ChildrenIn(bs: seq<Block>, x: BlockRef): set<BlockRef> {
    set b | b in bs && x in b.ancestors :: b.reference
  }

  lemma ChildrenConcat(a: seq<Block>, b: seq<Block>, x: BlockRef)
    ensures ChildrenIn(a + b, x) == ChildrenIn(a, x) + ChildrenIn(b, x)
  {}

  function Before(links: Links, x: BlockRef): set<BlockRef> {
    if x in links then links[x].children else {}
  }

  ghost predicate Descending(b: Block) {
    forall a | a in b.ancestors :: a.round < b.reference.round
  }

  /** New blocks ordered by round, each reference once. */
  ghost predicate Linkable(blocks: seq<Block>) {
    Ascends(false, blocks) && DistinctReferences(blocks) && forall b | b in blocks :: Descending(b)
  }

  lemma LinkableFront(blocks: seq<Block>)
    requires Linkable(blocks) && blocks != []
    ensures var last := |blocks| - 1;
            && Linkable(blocks[..last]) && blocks == blocks[..last] + [blocks[last]] && Descending(blocks[last])
            && References(blocks) == References(blocks[..last]) + {blocks[last].reference}
            && forall b | b in blocks[..last] ::
              b.reference != blocks[last].reference && b.reference.round <= blocks[last].reference.round
  {
    var last := |blocks| - 1;
    assert blocks == blocks[..last] + [blocks[last]];
    ReferencesConcat(blocks[..last], [blocks[last]]);
    forall b | b in blocks[..last]
      ensures b.reference != blocks[last].reference && b.reference.round <= blocks[last].reference.round
    {
      var i :| 0 <= i < last && blocks[i] == b;
      assert Le(false, blocks[i], blocks[last]);
    }
  }

  /** The entry of `x` after linking `blocks` into `links`. */
  ghost predicate Gained(links: Links, blocks: seq<Block>, after: Links, x: BlockRef) {
    && x in after && after[x].children == Before(links, x) + ChildrenIn(blocks, x)
    && (x in links ==> after[x].rejects == links[x].rejects)
  }

  ghost predicate OwnVotesEntered(after: Links, b: Block) {
    b.reference in after && after[b.reference].rejects == AddVotes(map[], b.transactionVotes)
  }

  /** What linking the blocks of a commit adds. */
  ghost predicate IsLinkedWith(links: Links, blocks: seq<Block>, after: Links) {
    && after.Keys == links.Keys + References(blocks)
    && (forall x {:trigger Gained(links, blocks, after, x)} | x in after :: Gained(links, blocks, after, x))
    && (forall b {:trigger OwnVotesEntered(after, b)} | b in blocks :: OwnVotesEntered(after, b))
  }

  lemma LinkGains(links: Links, front: Links, blocks: seq<Block>, b: Block, x: BlockRef)
    requires IsLinkedWith(links, blocks, front) && b.reference !in front && Descending(b)
    requires forall c | c in blocks :: Descending(c) && c.reference.round <= b.reference.round
    requires x in front || x == b.reference
    ensures Gained(links, blocks + [b], Link(front, b), x)
  {
    ChildrenConcat(blocks, [b], x);
    if x in front {
      assert Gained(links, blocks, front, x);
    } else {
      assert ChildrenIn(blocks, x) == {};
    }
  }

  lemma VotesEntered(front: Links, blocks: seq<Block>, b: Block, c: Block)
    requires b.reference !in front && (c in blocks || c == b)
    requires forall x {:trigger OwnVotesEntered(front, x)} | x in blocks :: OwnVotesEntered(front, x)
    ensures OwnVotesEntered(Link(front, b), c)
  {
    if c in blocks {
      assert OwnVotesEntered(front, c);
    }
  }

  lemma {:induction false} LinkAllLinks(links: Links, blocks: seq<Block>)
    requires Linkable(blocks) && links.Keys !! References(blocks)
    ensures IsLinkedWith(links, blocks, LinkAll(links, blocks))
    decreases |blocks|
  {
    var after := LinkAll(links, blocks);
    if blocks == [] {
      forall x | x in after ensures Gained(links, blocks, after, x) {}
    } else {
      var last := |blocks| - 1;
      var b, front := blocks[last], LinkAll(links, blocks[..last]);
      LinkableFront(blocks);
      LinkAllLinks(links, blocks[..last]);
      assert b.reference !in front by {
        assert b in blocks;
      }
      forall x | x in after ensures Gained(links, blocks, after, x) {
        LinkGains(links, front, blocks[..last], b, x);
      }
      forall c | c in blocks ensures OwnVotesEntered(after, c) {
        VotesEntered(front, blocks[..last], b, c);
      }
    }
  }

  // ---- Inheriting ----

  function InheritedVotes(links: Links, b: Block): Votes {
    if b.ancestors != [] && b.ancestors[0].author == b.reference.author &&
      b.ancestors[0] in links then links[b.ancestors[0]].rejects
    else map[]
  }

  function Inherit(links: Links, b: Block): Links
    requires b.reference in links
  {
    links[b.reference := links[b.reference].(rejects := Merge(links[b.reference].rejects, InheritedVotes(links, b)))]
  }

  function InheritAll(links: Links, blocks: seq<Block>): (after: Links)
    requires forall b | b in blocks :: b.reference in links
    ensures after.Keys == links.Keys
  {
    if blocks == [] then links else Inherit(InheritAll(links, blocks[..|blocks| - 1]), blocks[|blocks| - 1])
  }

  /** A block ends up with the votes it had and the final ones of its own ancestor. */
  ghost predicate Inherited(links: Links, after: Links, b: Block) {
    && b.reference in links && b.reference in after
    && after[b.reference].rejects == Merge(links[b.reference].rejects, InheritedVotes(after, b))
  }

  ghost predicate IsInheritedFrom(links: Links, blocks: seq<Block>, after: Links) {
    && after.Keys == links.Keys
    && (forall x | x in links :: after[x].children == links[x].children)
    && (forall x | x in links && x !in References(blocks) :: after[x] == links[x])
    && (forall b {:trigger Inherited(links, after, b)} | b in blocks :: Inherited(links, after, b))
  }

  lemma InheritNext(links: Links, front: Links, blocks: seq<Block>, b: Block, c: Block)
    requires IsInheritedFrom(links, blocks, front) && b.reference in links && b.reference !in References(blocks)
    requires Descending(b)
    requires forall c | c in blocks :: Descending(c) && c.reference.round <= b.reference.round
    requires c in blocks || c == b
    ensures Inherited(links, Inherit(front, b), c)
  {
    var after := Inherit(front, b);
    assert Descending(c);
    assert c.ancestors != [] ==> c.ancestors[0] in c.ancestors && c.ancestors[0] != b.reference;
    assert InheritedVotes(after, c) == InheritedVotes(front, c);
    if c in blocks {
      assert Inherited(links, front, c);
    }
  }

  lemma {:induction false} InheritAllVotes(links: Links, blocks: seq<Block>)
    requires Linkable(blocks) && forall b | b in blocks :: b.reference in links
    ensures IsInheritedFrom(links, blocks, InheritAll(links, blocks))
    decreases |blocks|
  {
    if blocks != [] {
      var last := |blocks| - 1;
      LinkableFront(blocks);
      InheritAllVotes(links, blocks[..last]);
      var b, front, after := blocks[last], InheritAll(links, blocks[..last]), InheritAll(links, blocks);
      assert b in blocks && b.reference !in References(blocks[..last]);
      forall c | c in blocks ensures Inherited(links, after, c) {
        InheritNext(links, front, blocks[..last], b, c);
      }
    }
  }

  // ---- One commit ----

  /** The links hold exactly the blocks `bs`, each with exactly its children among them. */
  ghost predicate Linked(bs: seq<Block>, links: Links) {
    && links.Keys == References(bs)
    && forall x {:trigger HasChildren(bs, links, x)} | x in links :: HasChildren(bs, links, x)
  }

  ghost predicate HasChildren(bs: seq<Block>, links: Links, x: BlockRef) {
    x in links && links[x].children == ChildrenIn(bs, x)
  }

  /** What the blocks of a further commit are to those already linked. */
  ghost predicate Follows(bs: seq<Block>, blocks: seq<Block>) {
    && DistinctReferences(blocks) && (forall b | b in blocks :: Descending(b)) && References(bs) !! References(blocks)
    && (forall a, b | a in bs && b in blocks :: b.reference !in a.ancestors)
  }

  lemma {:induction false} LinkAllEnters(links: Links, blocks: seq<Block>)
    ensures forall b | b in blocks :: b.reference in LinkAll(links, blocks)
    ensures links.Keys <= LinkAll(links, blocks).Keys
    decreases |blocks|
  {
    if blocks != [] {
      assert blocks == blocks[..|blocks| - 1] + [blocks[|blocks| - 1]];
      LinkAllEnters(links, blocks[..|blocks| - 1]);
    }
  }

  /** The blocks of a commit are entered in ascending order of round, then inherit in the same order. */
  function LinkCommit(links: Links, blocks: seq<Block>): Links {
    var s := Sort(false, blocks);
    LinkAllEnters(links, s);
    InheritAll(LinkAll(links, s), s)
  }

  lemma SortedLinkable(blocks: seq<Block>)
    requires DistinctReferences(blocks) && forall b | b in blocks :: Descending(b)
    ensures Linkable(Sort(false, blocks)) && References(Sort(false, blocks)) == References(blocks)
    ensures forall x :: ChildrenIn(Sort(false, blocks), x) == ChildrenIn(blocks, x)
  {
    SortKeepsMembers(false, blocks);
    SortedIsDistinct(false, blocks);
  }

  lemma LinkCommitSteps(bs: seq<Block>, links: Links, blocks: seq<Block>) returns (mid: Links)
    requires Linked(bs, links) && Follows(bs, blocks)
    ensures IsLinkedWith(links, Sort(false, blocks), mid)
    ensures IsInheritedFrom(mid, Sort(false, blocks), LinkCommit(links, blocks))
  {
    var s := Sort(false, blocks);
    SortedLinkable(blocks);
    LinkAllEnters(links, s);
    LinkAllLinks(links, s);
    mid := LinkAll(links, s);
    InheritAllVotes(mid, s);
  }

  /** Linking a commit keeps the links exact: the inverse of the ancestor relation on all buffered blocks. */
  lemma LinkCommitLinked(bs: seq<Block>, links: Links, blocks: seq<Block>)
    requires Linked(bs, links) && Follows(bs, blocks)
    ensures Linked(bs + blocks, LinkCommit(links, blocks))
  {
    var mid := LinkCommitSteps(bs, links, blocks);
    SortedLinkable(blocks);
    ReferencesConcat(bs, blocks);
    var s, after := Sort(false, blocks), LinkCommit(links, blocks);
    forall x | x in after ensures HasChildren(bs + blocks, after, x) {
      assert Gained(links, s, mid, x);
      ChildrenConcat(bs, blocks, x);
      if x in links {
        assert HasChildren(bs, links, x);
      } else {
        assert ChildrenIn(bs, x) == {};
      }
    }
  }

  /** The votes stored for a new block: its own, and those stored for its own ancestor. */
  ghost predicate VotesStored(links: Links, b: Block) {
    b.reference in links &&
      links[b.reference].rejects == Merge(AddVotes(map[], b.transactionVotes), InheritedVotes(links, b))
  }

  lemma LinkCommitVotes(bs: seq<Block>, links: Links, blocks: seq<Block>)
    requires Linked(bs, links) && Follows(bs, blocks)
    ensures var after := LinkCommit(links, blocks);
            && (forall x | x in links :: x in after && after[x].rejects == links[x].rejects)
            && (forall b | b in blocks :: VotesStored(after, b))
  {
    var mid := LinkCommitSteps(bs, links, blocks);
    SortKeepsMembers(false, blocks);
    SortedLinkable(blocks);
    var s, after := Sort(false, blocks), LinkCommit(links, blocks);
    forall x | x in links ensures x in after && after[x].rejects == links[x].rejects {
      assert Gained(links, s, mid, x);
    }
    forall b | b in blocks ensures VotesStored(after, b) {
      assert OwnVotesEntered(mid, b) && Inherited(mid, after, b);
    }
  }

  // ---- Accept votes ----

  type Edges = map<BlockRef, set<BlockRef>>

  ghost predicate IsPath(e: Edges, p: seq<BlockRef>) {
    |p| >= 2 && forall i | 0 <= i < |p| - 1 :: p[i] in e && p[i + 1] in e[p[i]]
  }

  /** `to` is reached from `from` by one or more links to children. */
  ghost predicate Descends(e: Edges, from: BlockRef, to: BlockRef) {
    exists p :: IsPath(e, p) && p[0] == from && p[|p| - 1] == to
  }

  ghost function EdgesOf(links: Links): Edges {
    map x | x in links :: links[x].children
  }

  /** The authors of descendants of a block that do not reject one of its transactions. */
  ghost function Accepting(links: Links, target: BlockRef, t: nat, among: set<BlockRef>): set<Author> {
    set r | r in among && r in links && t !in On(links[r].rejects, target) :: r.author
  }

  ghost function Descendants(links: Links, from: BlockRef): set<BlockRef> {
    set r | r in links && Descends(EdgesOf(links), from, r)
  }

  /** A quorum accepts the transaction. */
  ghost predicate Accepted(c: Committee, links: Links, target: BlockRef, t: nat) {
    c.IsQuorum(Accepting(links, target, t, Descendants(links, target)))
  }

  lemma DescendsStep(links: Links, from: BlockRef, x: BlockRef, y: BlockRef)
    requires x in links && y in links[x].children && (x == from || Descends(EdgesOf(links), from, x))
    ensures Descends(EdgesOf(links), from, y)
  {
    var e := EdgesOf(links);
    if x == from {
      assert IsPath(e, [from, y]);
    } else {
      var p :| IsPath(e, p) && p[0] == from && p[|p| - 1] == x;
      var q := p + [y];
      forall i | 0 <= i < |q| - 1 ensures q[i] in e && q[i + 1] in e[q[i]] {
        if i < |p| - 1 {
          assert q[i] == p[i] && q[i + 1] == p[i + 1];
        }
      }
      assert IsPath(e, q);
    }
  }

  /** A set with the children of `from` that is closed under children has every descendant. */
  lemma {:induction false} ClosedHasDescendants(links: Links, from: BlockRef, visited: set<BlockRef>, p: seq<BlockRef>)
    requires from in links && links[from].children <= visited
    requires forall x | x in visited && x in links :: links[x].children <= visited
    requires IsPath(EdgesOf(links), p) && p[0] == from
    ensures p[|p| - 1] in visited
    decreases |p|
  {
    if |p| > 2 {
      var q := p[..|p| - 1];
      assert IsPath(EdgesOf(links), q) by {
        forall i | 0 <= i < |q| - 1 ensures q[i] in EdgesOf(links) && q[i + 1] in EdgesOf(links)[q[i]] {
          assert q[i] == p[i] && q[i + 1] == p[i + 1];
        }
      }
      ClosedHasDescendants(links, from, visited, q);
      assert p[|p| - 2] == q[|q| - 1];
    }
    assert p[|p| - 2] in links;
  }
}
