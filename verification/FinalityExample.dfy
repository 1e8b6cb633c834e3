/**
 Five commits on which two runs of the finalizer disagree about a transaction: four authorities of equal stake, and in
 every round each links all four blocks of the round before.
 */
module FinalityExample {
  import opened Types
  import opened Committee
  import opened BlockIndex
  import opened VoteLinks
  import opened Finality
  import opened FinalityBuffer
  import opened FinalityVotes
  import opened FinalityRuns
  import opened FinalityFates
  import opened FinalityAgreement
  import opened FinalityDisputes
  import BlockVerifier

  /** The block whose only transaction is in dispute. */
  const TARGET := Ref(1, 0)

  /** The leader of the first commit, which votes on the target of the same round. */
  const EARLY := Ref(1, 2)

  /** Authors 2 and 3 reject: author 2 in round 1, without a link to the target, and author 3 in round 2. */
  function VotesOf(r: BlockRef): seq<TransactionVotes> {
    if r == EARLY || r == Ref(2, 3) then [TransactionVotes(TARGET, [0])] else []
  }

  function Others(author: Author): (Author, Author, Author) {
    if author == 0 then (1, 2, 3) else if author == 1 then (0, 2, 3) else if author == 2 then (0, 1, 3) else (0, 1, 2)
  }

  /** Own ancestor first. */
  function AncestorsOf(round: Round, author: Author): seq<BlockRef>
    requires round > 0
  {
    var o := Others(author);
    [Ref(round - 1, author), Ref(round - 1, o.0), Ref(round - 1, o.1), Ref(round - 1, o.2)]
  }

  function Node(round: Round, author: Author): Block
    requires round > 0
  {
    Block(Ref(round, author), AncestorsOf(round, author), 1, VotesOf(Ref(round, author)), [])
  }

  lemma OthersAre(author: Author, a: Author)
    requires author < 4 && a < 4
    ensures var o := Others(author); a == author || a == o.0 || a == o.1 || a == o.2
  {}

  lemma NodeAncestors(round: Round, author: Author, a: BlockRef)
    requires round > 0 && author < 4
    ensures a in AncestorsOf(round, author) <==> a.round == round - 1 && a.author < 4 && a.digest == 0
  {
    var list := AncestorsOf(round, author);
    assert list[0] in list && list[1] in list && list[2] in list && list[3] in list;
    if a.author < 4 {
      OthersAre(author, a.author);
    }
  }

  /** Who links all four blocks of the round before. */
  ghost predicate LinksAll(b: Block) {
    b.reference.round > 0 && b.reference.author < 4 &&
      b.ancestors == AncestorsOf(b.reference.round, b.reference.author)
  }

  lemma LinksAreQuorum(b: Block)
    requires LinksAll(b)
    ensures FOUR.IsQuorum(BlockVerifier.ParentAuthors(b))
  {
    forall a: nat | a < 4 ensures a in BlockVerifier.ParentAuthors(b) {
      NodeAncestors(b.reference.round, b.reference.author, Ref(b.reference.round - 1, a));
    }
    FourStakes(BlockVerifier.ParentAuthors(b));
  }

  lemma LinksAreWellFormed(b: Block, genesis: set<BlockRef>, i: nat)
    requires LinksAll(b) && i < 4 && forall a: nat | a < 4 :: Ref(0, a) in genesis
    ensures BlockVerifier.AncestorWellFormed(FOUR, genesis, b, i)
  {}

  lemma LinksAreDistinct(b: Block)
    requires LinksAll(b)
    ensures BlockVerifier.DistinctAuthors(b.ancestors)
  {}

  /** Verification lets such blocks through: it does not look at transaction votes. */
  lemma LinkedIsWellFormed(b: Block, genesis: set<BlockRef>)
    requires LinksAll(b) && forall a: nat | a < 4 :: Ref(0, a) in genesis
    ensures BlockVerifier.WellFormed(FOUR, genesis, b)
  {
    assert |b.ancestors| == 4 && |FOUR.stakes| == 4;
    forall i | 0 <= i < 4 ensures BlockVerifier.AncestorWellFormed(FOUR, genesis, b, i) {
      LinksAreWellFormed(b, genesis, i);
    }
    LinksAreDistinct(b);
    LinksAreQuorum(b);
  }

  /** The author of the leader of commit `k`, a block of round `k + 1`. */
  function LeaderOf(k: nat): Author {
    if k == 0 then 2 else if k == 1 then 1 else if k == 3 then 3 else 0
  }

  function BlocksOf(k: nat): seq<Block> {
    if k == 0 then [Node(1, 2)]
    else
      var o := Others(LeaderOf(k - 1));
      [Node(k, o.0), Node(k, o.1), Node(k, o.2), Node(k + 1, LeaderOf(k))]
  }

  function CommitAt(k: nat): SubDag {
    SubDag(k + 1, Ref(k + 1, LeaderOf(k)), BlocksOf(k), true, map[])
  }

  ghost predicate AreFive(commits: seq<SubDag>) {
    |commits| == 5 && forall k | 0 <= k < |commits| :: commits[k] == CommitAt(k)
  }

  /** The commit of a block. */
  function HomeOf(r: BlockRef): nat
    requires r.round > 0
  {
    if r.author == LeaderOf(r.round - 1) then r.round - 1 else r.round
  }

  lemma InHome(k: nat, b: Block)
    requires b in BlocksOf(k)
    ensures b.reference.round > 0 && b.reference.author < 4 && b == Node(b.reference.round, b.reference.author)
    ensures HomeOf(b.reference) == k
  {}

  lemma HomeHas(round: Round, author: Author)
    requires round > 0 && author < 4
    ensures Node(round, author) in BlocksOf(HomeOf(Ref(round, author)))
  {
    OthersAre(LeaderOf(round - 1), author);
  }

  lemma BlocksAre(k: nat)
    ensures Follows([], BlocksOf(k))
  {
    forall b | b in BlocksOf(k) ensures Descending(b) {
      InHome(k, b);
    }
  }

  lemma BlocksFollow(i: nat, a: Block, j: nat, b: Block)
    requires i < j && a in BlocksOf(i) && b in BlocksOf(j)
    ensures a.reference != b.reference && b.reference !in a.ancestors
  {
    InHome(i, a);
    InHome(j, b);
  }

  lemma CommitsFollow(i: nat, j: nat)
    requires i < j
    ensures Follows(BlocksOf(i), BlocksOf(j))
  {
    BlocksAre(j);
    forall a, b | a in BlocksOf(i) && b in BlocksOf(j)
      ensures a.reference != b.reference && b.reference !in a.ancestors
    {
      BlocksFollow(i, a, j, b);
    }
  }

  lemma CommitsOrdered(commits: seq<SubDag>)
    requires forall k | 0 <= k < |commits| :: commits[k] == CommitAt(k)
    ensures Ordered(commits)
  {
    forall i, j | 0 <= i < j < |commits| ensures Follows(commits[i].blocks, commits[j].blocks) {
      CommitsFollow(i, j);
    }
    forall j | 0 <= j < |commits| ensures Follows([], commits[j].blocks) {
      BlocksAre(j);
    }
  }

  lemma CommitsAre(commits: seq<SubDag>)
    requires AreFive(commits)
    ensures IsCommitSequence(commits)
  {
    CommitsOrdered(commits);
  }

  // ---- What is linked to what ----

  lemma ParentIs(h: Linkage, k: nat, round: Round, author: Author, m: nat, a: Block)
    requires h.Valid() && AreFive(h.commits) && k < 5 && round > 0
    requires IsLinkedParent(h, k, Node(round, author), m, a)
    ensures round > 1 && a == Node(round - 1, author) && m == HomeOf(a.reference)
  {
    InHome(m, a);
  }

  lemma BlocksDescend(commits: seq<SubDag>)
    requires forall k | 0 <= k < |commits| :: Follows([], commits[k].blocks)
    ensures forall b | b in AllBlocks(commits) :: Descending(b)
  {
    forall b | b in AllBlocks(commits) ensures Descending(b) {
      InAllBlocks(commits, b);
    }
  }

  lemma AllDescend(commits: seq<SubDag>, i: nat, j: nat)
    requires AreFive(commits) && i <= j < 5
    ensures forall b | b in AllBlocks(commits[i..j + 1]) :: Descending(b)
  {
    var some := commits[i..j + 1];
    forall k | 0 <= k < |some| ensures Follows([], some[k].blocks) {
      assert some[k] == commits[i + k] == CommitAt(i + k);
      BlocksAre(i + k);
    }
    BlocksDescend(some);
  }

  lemma InCommits(commits: seq<SubDag>, i: nat, j: nat, m: nat, b: Block)
    requires AreFive(commits) && i <= m <= j < 5 && b in BlocksOf(m)
    ensures b in AllBlocks(commits[i..j + 1])
  {
    assert commits[i..j + 1][m - i] == CommitAt(m);
    InAllBlocks(commits[i..j + 1], b);
  }

  /** Every block of round 2 has the target as an ancestor. */
  lemma LinksTarget(commits: seq<SubDag>, author: Author)
    requires AreFive(commits) && author < 4
    ensures Descends(EdgesIn(AllBlocks(commits[1..5])), TARGET, Ref(2, author))
  {
    var bs, b := AllBlocks(commits[1..5]), Node(2, author);
    HomeHas(1, 0);
    HomeHas(2, author);
    InCommits(commits, 1, 4, 1, Node(1, 0));
    InCommits(commits, 1, 4, HomeOf(Ref(2, author)), b);
    OthersAre(author, 0);
    assert TARGET in References(bs) && b.reference in ChildrenIn(bs, TARGET);
    assert IsPath(EdgesIn(bs), [TARGET, Ref(2, author)]);
  }

  // ---- One validator: nothing but the target is contested ----

  lemma NoVoteKept(commits: seq<SubDag>, author: Author)
    requires AreFive(commits) && author < 3
    ensures !ChainRejects(Narrowest(commits, 1), HomeOf(Ref(2, author)), Node(2, author), TARGET, 0)
  {
    var h, k := Narrowest(commits, 1), HomeOf(Ref(2, author));
    forall m: nat, a | IsLinkedParent(h, k, Node(2, author), m, a) ensures !ChainRejects(h, m, a, TARGET, 0) {
      ParentIs(h, k, 2, author, m, a);
      forall n: nat, x ensures !IsLinkedParent(h, m, Node(1, author), n, x) {
        if IsLinkedParent(h, m, Node(1, author), n, x) {
          ParentIs(h, m, 1, author, n, x);
        }
      }
    }
  }

  lemma AcceptsTarget(commits: seq<SubDag>, author: Author)
    requires AreFive(commits) && author < 3
    ensures author in AcceptingAt(Narrowest(commits, 1), 1, 4, TARGET, 0)
  {
    var h, m, b := Narrowest(commits, 1), HomeOf(Ref(2, author)), Node(2, author);
    HomeHas(2, author);
    LinksTarget(commits, author);
    NoVoteKept(commits, author);
    assert commits[m] == CommitAt(m);
    assert Accepts(h, 1, 4, m, b, TARGET, 0);
  }

  lemma QuorumAccepts(commits: seq<SubDag>)
    requires AreFive(commits)
    ensures AcceptedAt(FOUR, Narrowest(commits, 1), 1, 4, TARGET, 0)
  {
    AcceptsTarget(commits, 0);
    AcceptsTarget(commits, 1);
    AcceptsTarget(commits, 2);
    FourStakes(AcceptingAt(Narrowest(commits, 1), 1, 4, TARGET, 0));
  }

  // ---- The other validator: the only transaction of the first commit is contested too ----

  /** One author rejects the transaction of the first commit. */
  ghost function BothContested(commits: seq<SubDag>, early: nat, weak: nat): Stakes {
    var once: map<nat, nat> := map[0 := early];
    QuietStakes(commits, TARGET, 0, weak)[EARLY := once]
  }

  ghost function Second(commits: seq<SubDag>, n: nat): seq<Input>
    requires n <= |commits|
  {
    Inputs(commits, n, true, BothContested(commits, 1, 2))
  }

  lemma SecondRuns(commits: seq<SubDag>, n: nat)
    requires AreFive(commits) && n <= 5
    ensures RunsOver(FOUR, commits, Second(commits, n))
  {
    CommitsAre(commits);
    AllKnown(commits, BothContested(commits, 1, 2));
    InputsRun(FOUR, commits, n, true, BothContested(commits, 1, 2));
  }

  lemma EarlyDescendant(commits: seq<SubDag>, j: nat, m: nat, b: Block)
    requires AreFive(commits) && m <= j < 2 && b in commits[m].blocks
    requires Descends(EdgesIn(AllBlocks(commits[0..j + 1])), EARLY, b.reference)
    ensures b.reference.author == 1
  {
    AllDescend(commits, 0, j);
    DescendsRises(AllBlocks(commits[0..j + 1]), EARLY, b.reference);
    assert commits[m] == CommitAt(m);
    InHome(m, b);
  }

  /** Only the leader of the second commit descends from the first, which is no quorum. */
  lemma FirstIsNotAccepted(commits: seq<SubDag>, h: Linkage, j: nat)
    requires AreFive(commits) && h.Valid() && h.commits == commits[..2] && j < 2
    ensures !AcceptedAt(FOUR, h, 0, j, EARLY, 0)
  {
    var accepting := AcceptingAt(h, 0, j, EARLY, 0);
    assert h.commits[0..j + 1] == commits[0..j + 1];
    forall x | x in accepting ensures x == 1 {
      var m: nat, b :| 0 <= m <= j && b in h.commits[m].blocks && Accepts(h, 0, j, m, b, EARLY, 0) &&
        b.reference.author == x;
      EarlyDescendant(commits, j, m, b);
    }
    FourStakes(accepting);
  }

  lemma FirstIsOpen(commits: seq<SubDag>, h: Linkage, j: nat)
    requires AreFive(commits) && h.Valid() && h.commits == commits[..2] && j < 2
    ensures !IndirectlyFinalAt(FOUR, h, 0, j, EARLY, 0) && !TimedOutAt(FOUR, h, 0, j, EARLY, 0)
  {
    FirstIsNotAccepted(commits, h, j);
    assert h.commits[0] == CommitAt(0) && h.commits[j] == CommitAt(j);
  }

  lemma FirstIsHeld(commits: seq<SubDag>, inputs: seq<Input>)
    requires AreFive(commits) && RunsOver(FOUR, commits, inputs) && Commits(inputs) == commits[..2]
    requires Contested(FOUR, inputs, 0, EARLY, 0)
    ensures Run(FOUR, inputs).outputs == []
  {
    CommitsAre(commits);
    if Run(FOUR, inputs).outputs != [] {
      assert EARLY in References(commits[0].blocks) by {
        assert commits[0].blocks[0] == Node(1, 2);
      }
      var j := ContestedFate(FOUR, commits, inputs, 0, EARLY, 0);
      FirstIsOpen(commits, LinkageOf(FOUR, inputs), j);
    }
  }

  /** So the first commit is still there when the blocks of the third are linked. */
  lemma FirstStays(c: Committee, rejects: Stakes, latest: Round, queue: seq<CommitState>, links: Links)
    requires queue != [] && Sound(queue[0]) && !IsDecided(queue[0]) && Loud(c, rejects, queue[0].commit)
    ensures Popped(DirectPhase(c, rejects, latest, queue), links).outputs == []
  {
    if queue[0].pendingBlocks != {} {
      LoudStays(c, rejects, latest, queue, links);
    }
  }

  lemma NothingStarts(c: Committee, own: seq<SubDag>, q: Popping, input: Input)
    requires own != [] && Conserves(own, q) && q.outputs == [] && Loud(c, input.rejects, own[0])
    ensures StartAt(c, q, input) == 0
  {
    var queue := q.pending + [NewCommit(input.commit)];
    assert SoundAt(q.pending, 0) && CommitsOf(q.pending)[0] == own[0] == queue[0].commit;
    FirstStays(c, input.rejects, input.commit.leader.round, queue, q.links);
  }

  lemma FirstIsLoud(commits: seq<SubDag>)
    requires AreFive(commits)
    ensures Loud(FOUR, BothContested(commits, 1, 2), commits[0])
  {
    FourStakes({});
    assert commits[0].blocks == [Node(1, 2)];
    assert 0 in Weak(FOUR, BothContested(commits, 1, 2), EARLY);
  }

  lemma LocalCommits(commits: seq<SubDag>, n: nat, rejects: Stakes)
    requires AreFive(commits) && n <= 5
    ensures Commits(Inputs(commits, n, true, rejects)) == commits[..n]
    ensures Inputs(commits, 5, true, rejects)[..n] == Inputs(commits, n, true, rejects)
  {
    assert forall k | 0 <= k < 5 :: commits[k].(local := true) == commits[k];
  }

  lemma AllLocalCommits(commits: seq<SubDag>, rejects: Stakes)
    requires AreFive(commits)
    ensures Commits(Inputs(commits, 5, true, rejects)) == commits
  {
    LocalCommits(commits, 5, rejects);
    assert commits[..5] == commits;
  }

  lemma FirstIsLinkedToThird(commits: seq<SubDag>, inputs: seq<Input>, front: seq<Input>)
    requires AreFive(commits) && RunsOver(FOUR, commits, front) && Commits(front) == commits[..2]
    requires Contested(FOUR, front, 0, EARLY, 0) && front < inputs && Loud(FOUR, inputs[2].rejects, commits[0])
    ensures Starts(FOUR, inputs)[2] == 0
  {
    FirstIsHeld(commits, front);
    RunConserves(FOUR, front);
    NothingStarts(FOUR, commits[..2], Run(FOUR, front), inputs[2]);
    StartIs(FOUR, inputs, front);
  }

  lemma Vote(r: BlockRef)
    requires r == EARLY || r == Ref(2, 3)
    ensures Casts(Node(r.round, r.author), TARGET, 0)
  {
    assert TransactionVotes(TARGET, [0]) in VotesOf(r);
  }

  /** The linkage of a validator that keeps the second commit up to `j`, and the first until the third is linked. */
  ghost predicate KeepsFirst(h: Linkage, j: nat) {
    h.Valid() && AreFive(h.commits) && 1 <= j < 5 && (forall k | 1 <= k <= j :: h.starts[k] <= 1) &&
      (2 <= j ==> h.starts[2] == 0)
  }

  lemma ParentIsLinked(h: Linkage, j: nat, round: Round, author: Author)
    requires KeepsFirst(h, j) && 2 <= round && (author == 2 || author == 3) && HomeOf(Ref(round, author)) <= j
    requires round > 2 || author == 2
    ensures var m, n := HomeOf(Ref(round, author)), HomeOf(Ref(round - 1, author));
            IsLinkedParent(h, m, Node(round, author), n, Node(round - 1, author))
  {
    var n := HomeOf(Ref(round - 1, author));
    HomeHas(round - 1, author);
    assert h.commits[n] == CommitAt(n);
  }

  /** All later blocks of authors 2 and 3 inherit their votes. */
  lemma {:induction false} VotesKept(h: Linkage, j: nat, round: Round, author: Author)
    requires KeepsFirst(h, j) && 2 <= round && (author == 2 || author == 3) && HomeOf(Ref(round, author)) <= j
    ensures ChainRejects(h, HomeOf(Ref(round, author)), Node(round, author), TARGET, 0)
    decreases round
  {
    var m := HomeOf(Ref(round, author));
    if round == 2 && author == 3 {
      Vote(Ref(2, 3));
    } else {
      var n := HomeOf(Ref(round - 1, author));
      ParentIsLinked(h, j, round, author);
      if round == 2 {
        Vote(EARLY);
      } else {
        VotesKept(h, j, round - 1, author);
      }
    }
  }

  lemma TargetIsNotAccepted(h: Linkage, j: nat)
    requires KeepsFirst(h, j)
    ensures !AcceptedAt(FOUR, h, 1, j, TARGET, 0)
  {
    var accepting := AcceptingAt(h, 1, j, TARGET, 0);
    AllDescend(h.commits, 1, j);
    forall x | x in accepting ensures x < 2 {
      var m: nat, b :| 1 <= m <= j && b in h.commits[m].blocks && Accepts(h, 1, j, m, b, TARGET, 0) &&
        b.reference.author == x;
      DescendsRises(AllBlocks(h.commits[1..j + 1]), TARGET, b.reference);
      assert h.commits[m] == CommitAt(m);
      InHome(m, b);
      if x >= 2 {
        VotesKept(h, j, b.reference.round, x);
      }
    }
    FourStakes(accepting);
  }

  // ---- The disagreement ----

  lemma SecondStart(commits: seq<SubDag>)
    requires AreFive(commits)
    ensures Starts(FOUR, Second(commits, 5))[2] == 0
  {
    var front, rejects := Second(commits, 2), BothContested(commits, 1, 2);
    FourStakes({});
    SecondRuns(commits, 2);
    LocalCommits(commits, 2, rejects);
    ContestedThroughout(FOUR, front, 0, EARLY, 0, 1, rejects);
    FirstIsLoud(commits);
    FirstIsLinkedToThird(commits, Second(commits, 5), front);
  }

  lemma KeptFirst(commits: seq<SubDag>, inputs: seq<Input>, j: nat)
    requires AreFive(commits) && Commits(inputs) == commits && 1 <= j < 5 && Starts(FOUR, inputs)[j] <= 1
    requires Starts(FOUR, inputs)[2] == 0
    ensures KeepsFirst(LinkageOf(FOUR, inputs), j)
  {
    forall k | 1 <= k <= j ensures Starts(FOUR, inputs)[k] <= 1 {
      StartsRise(FOUR, inputs, k, j);
    }
  }

  /** Who keeps the first commit rejects. */
  lemma KeepingRejects(commits: seq<SubDag>, inputs: seq<Input>)
    requires AreFive(commits) && Contests(FOUR, commits, inputs, 1, TARGET, 0) && Commits(inputs) == commits
    requires Starts(FOUR, inputs)[2] == 0
    ensures RejectedIn(FOUR, inputs, 1, TARGET, 0)
  {
    CommitsAre(commits);
    TargetIsCommitted(commits);
    var j := ContestedFate(FOUR, commits, inputs, 1, TARGET, 0);
    if IndirectlyFinalAt(FOUR, LinkageOf(FOUR, inputs), 1, j, TARGET, 0) {
      KeptFirst(commits, inputs, j);
      TargetIsNotAccepted(LinkageOf(FOUR, inputs), j);
    }
  }

  lemma TargetIsCommitted(commits: seq<SubDag>)
    requires AreFive(commits)
    ensures TARGET in References(commits[1].blocks)
  {
    HomeHas(1, 0);
  }

  lemma StageIsSet(commits: seq<SubDag>)
    requires AreFive(commits)
    ensures Stage(FOUR, commits, 1, 4, TARGET, 2)
  {
    CommitsAre(commits);
    FourStakes({});
    TargetIsCommitted(commits);
  }

  lemma FirstAccepts(commits: seq<SubDag>) returns (inputs: seq<Input>)
    requires AreFive(commits)
    ensures Contests(FOUR, commits, inputs, 1, TARGET, 0) && !RejectedIn(FOUR, inputs, 1, TARGET, 0)
    ensures Commits(inputs) == commits && inputs == Inputs(commits, 5, true, QuietStakes(commits, TARGET, 0, 2))
  {
    StageIsSet(commits);
    QuorumAccepts(commits);
    AllLocalCommits(commits, QuietStakes(commits, TARGET, 0, 2));
    inputs := QuietRun(FOUR, commits, 1, 4, TARGET, 0, 2);
  }

  lemma SecondContests(commits: seq<SubDag>)
    requires AreFive(commits)
    ensures Contests(FOUR, commits, Second(commits, 5), 1, TARGET, 0) && Commits(Second(commits, 5)) == commits
  {
    StageIsSet(commits);
    InputsContest(FOUR, commits, 1, 4, TARGET, 0, 2, true, BothContested(commits, 1, 2));
    AllLocalCommits(commits, BothContested(commits, 1, 2));
  }

  lemma SecondRejects(commits: seq<SubDag>) returns (inputs: seq<Input>)
    requires AreFive(commits)
    ensures Contests(FOUR, commits, inputs, 1, TARGET, 0) && RejectedIn(FOUR, inputs, 1, TARGET, 0)
    ensures Commits(inputs) == commits && inputs == Second(commits, 5)
  {
    inputs := Second(commits, 5);
    SecondContests(commits);
    SecondStart(commits);
    KeepingRejects(commits, inputs);
  }

  /** So the transaction is disputed. */
  lemma TargetIsDisputed(commits: seq<SubDag>)
    requires AreFive(commits)
    ensures !Undisputed(FOUR, commits, 1, TARGET, 0)
  {
    if Undisputed(FOUR, commits, 1, TARGET, 0) {
      CommitsAre(commits);
      TargetIsCommitted(commits);
      var inputs1 := FirstAccepts(commits);
      var inputs2 := SecondRejects(commits);
      IndirectFatesAgree(FOUR, commits, inputs1, inputs2, 1, TARGET, 0);
    }
  }
}
