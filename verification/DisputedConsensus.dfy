/**
 The five commits of the example as the output of consensus, with one faulty authority of four. Two validators that
 decide these commits themselves, and count the votes in the blocks they have seen, disagree on a transaction.
 */
module DisputedConsensus {
  import opened Types
  import opened Committee
  import opened Views
  import opened CommitRule
  import opened UniversalCommitter
  import opened Sorting
  import opened CausalHistory
  import opened BlockIndex
  import opened Linearizer
  import opened TotalOrder
  import opened VoteLinks
  import opened Finality
  import opened FinalityRuns
  import opened FinalityAgreement
  import opened FinalityDisputes
  import opened FinalityExample
  import opened FinalizerInput
  import opened FinalityWorld
  import opened FinalityEverywhere

  // ---- The blocks ----

  predicate IsCell(top: Round, r: BlockRef) {
    1 <= r.round <= top && r.author < 4 && r.digest == 0
  }

  function Cells(top: Round): (cells: set<BlockRef>)
    ensures forall r :: r in cells <==> IsCell(top, r)
  {
    assert forall r | IsCell(top, r) :: r == Ref(r.round, r.author);
    set round: nat, author: nat | 1 <= round <= top && author < 4 :: Ref(round, author)
  }

  /** The blocks of the first `top` rounds. */
  function Grid(top: Round): Dag {
    map r | r in Cells(top) :: Node(r.round, r.author)
  }

  /** A second block of author 2 in round 2, which is never committed and rejects the transaction of the first. */
  function Rogue(): Block {
    Block(BlockRef(2, 2, 1), AncestorsOf(2, 2), 1, [TransactionVotes(EARLY, [0])], [])
  }

  function AllBlocksOf(top: Round): Dag {
    Grid(top)[Rogue().reference := Rogue()]
  }

  function WorldOf(top: Round): World {
    World(FOUR, {Ref(0, 0), Ref(0, 1), Ref(0, 2), Ref(0, 3)}, AllBlocksOf(top), {2})
  }

  lemma AncestorsAreDistinct(round: Round, author: Author)
    requires round > 0 && author < 4
    ensures Distinct(AncestorsOf(round, author))
  {}

  lemma GridIsClosed(top: Round)
    ensures View(Grid(top), 0).Closed()
  {
    var v := View(Grid(top), 0);
    forall r | r in v.blocks ensures v.EntryClosed(r) {
      forall a | a in v.blocks[r].ancestors ensures a.round < r.round && (a.round > 0 ==> a in v.blocks) {
        NodeAncestors(r.round, r.author, a);
      }
    }
  }

  lemma GridIsDistinct(top: Round)
    ensures AncestorsDistinct(View(Grid(top), 0))
  {
    var d := Grid(top);
    forall r | r in d ensures Distinct(d[r].ancestors) {
      AncestorsAreDistinct(r.round, r.author);
    }
  }

  lemma WorldIsVerified(w: World, top: Round, r: BlockRef)
    requires w == WorldOf(top) && r in w.blocks
    ensures w.Verified(r)
  {
    LinkedIsWellFormed(w.blocks[r], w.genesis);
  }

  lemma WorldIsSound(top: Round)
    ensures WorldOf(top).Sound() && WorldOf(top).HonestChains()
  {
    var w := WorldOf(top);
    FourStakes({2});
    forall r | r in w.blocks ensures w.Verified(r) {
      WorldIsVerified(w, top, r);
    }
  }

  lemma WorldHolds(top: Round)
    ensures WorldOf(top).Holds(View(Grid(top), 0))
  {
    GridIsClosed(top);
  }

  // ---- The votes ----

  lemma NodeCasts(round: Round, author: Author, r: BlockRef, t: nat)
    requires round > 0
    ensures Casts(Node(round, author), r, t) <==>
            r == TARGET && t == 0 && (Ref(round, author) == EARLY || Ref(round, author) == Ref(2, 3))
  {
    if Ref(round, author) == EARLY || Ref(round, author) == Ref(2, 3) {
      Vote(Ref(round, author));
    }
  }

  lemma RogueCasts(r: BlockRef, t: nat)
    ensures Casts(Rogue(), r, t) <==> r == EARLY && t == 0
  {
    assert TransactionVotes(EARLY, [0]) in Rogue().transactionVotes;
  }

  /** Author 3 votes where it first links the target, and author 2 is faulty. */
  lemma VotesAreHonest(top: Round)
    ensures HonestVotes(WorldOf(top))
  {
    var w := WorldOf(top);
    forall b, y, r, t | b in w.blocks && y in w.blocks ensures VotesWhenLinking(w, b, y, r, t) {
      if b.author == y.author && b.author !in w.faulty && Casts(w.blocks[b], r, t) && Reaches(w.blocks, y, r) {
        NodeCasts(b.round, b.author, r, t);
        ReachesDescends(w.blocks, y, r);
        NodeAncestors(2, 3, TARGET);
        assert Reaches(w.blocks, TARGET, TARGET);
      }
    }
  }

  lemma GridVoters(top: Round, r: BlockRef, t: nat)
    requires top >= 2
    ensures Voters(Grid(top), r, t) == if r == TARGET && t == 0 then {2, 3} else {}
  {
    var d := Grid(top);
    forall x | x in d ensures Casts(d[x], r, t) <==> r == TARGET && t == 0 && (x == EARLY || x == Ref(2, 3)) {
      NodeCasts(x.round, x.author, r, t);
    }
    VotersAre(d, r, t);
  }

  lemma VotersAre(d: Dag, r: BlockRef, t: nat)
    requires EARLY in d && Ref(2, 3) in d
    requires forall x | x in d :: Casts(d[x], r, t) <==> r == TARGET && t == 0 && (x == EARLY || x == Ref(2, 3))
    ensures Voters(d, r, t) == if r == TARGET && t == 0 then {2, 3} else {}
  {}

  lemma VotersWith(d: Dag, b: Block, r: BlockRef, t: nat)
    requires b.reference !in d
    ensures Voters(d[b.reference := b], r, t) == Voters(d, r, t) + if Casts(b, r, t) then {b.reference.author} else {}
  {
    var e := d[b.reference := b];
    assert e[b.reference] == b && forall x | x in d :: x in e && e[x] == d[x];
    forall a | a in Voters(d, r, t) ensures a in Voters(e, r, t) {
      var x :| x in d && Casts(d[x], r, t) && x.author == a;
      assert x in e && Casts(e[x], r, t);
    }
  }

  lemma AllVoters(top: Round, r: BlockRef, t: nat)
    requires top >= 2
    ensures Voters(AllBlocksOf(top), r, t) ==
            if r == TARGET && t == 0 then {2, 3} else if r == EARLY && t == 0 then {2} else {}
  {
    GridVoters(top, r, t);
    RogueCasts(r, t);
    VotersWith(Grid(top), Rogue(), r, t);
  }

  // ---- The direct rule commits every leader ----

  lemma {:induction false} FindsAmong(v: View, leader: BlockRef, from: BlockRef, i: nat, j: nat)
    requires v.Closed() && leader.round > v.gcRound && from in v.blocks && i <= j < |v.blocks[from].ancestors|
    requires v.blocks[from].ancestors[j] == leader
    requires forall k | i <= k < j ::
             v.blocks[from].ancestors[k].round == leader.round && v.blocks[from].ancestors[k].author != leader.author
    ensures FindAmong(v, SlotOf(leader), from, i) == Some(leader)
    decreases j - i
  {
    if i < j {
      FindsAmong(v, leader, from, i + 1, j);
    }
  }

  lemma EveryoneVotes(top: Round, leader: BlockRef, voter: BlockRef)
    requires IsCell(top, leader) && IsCell(top, voter) && voter.round == leader.round + 1
    ensures View(Grid(top), 0).Closed() && IsVote(View(Grid(top), 0), voter, leader)
  {
    var v, list := View(Grid(top), 0), AncestorsOf(voter.round, voter.author);
    GridIsClosed(top);
    NodeAncestors(voter.round, voter.author, leader);
    var j :| 0 <= j < |list| && list[j] == leader;
    FindsAmong(v, leader, voter, 0, j);
  }

  lemma EveryoneCertifies(top: Round, leader: BlockRef, cert: BlockRef)
    requires IsCell(top, leader) && IsCell(top, cert) && cert.round == leader.round + 2
    ensures View(Grid(top), 0).Closed() && IsCertificate(FOUR, View(Grid(top), 0), cert, leader)
  {
    var v := View(Grid(top), 0);
    GridIsClosed(top);
    var votes := CommitRule.Votes(v, cert, leader);
    forall a | 0 <= a < 4 ensures a in Authors(votes) {
      var voter := Ref(leader.round + 1, a);
      EveryoneVotes(top, leader, voter);
      NodeAncestors(cert.round, cert.author, voter);
      assert voter in votes;
    }
    FourStakes(Authors(votes));
  }

  lemma NobodyBlames(top: Round, leader: BlockRef)
    requires IsCell(top, leader)
    ensures !EnoughBlame(FOUR, View(Grid(top), 0), SlotOf(leader))
  {
    var v := View(Grid(top), 0);
    forall r | r in v.AtRound(leader.round + 1) ensures !IsBlame(v.blocks[r], leader.author) {
      NodeAncestors(r.round, r.author, leader);
    }
    assert Blames(v, SlotOf(leader)) == {};
    FourStakes(Authors({}));
  }

  lemma EveryoneSupports(top: Round, leader: BlockRef)
    requires IsCell(top, leader) && leader.round + 2 <= top
    ensures View(Grid(top), 0).Closed() && EnoughSupport(FOUR, View(Grid(top), 0), leader, leader.round + 2)
  {
    var v := View(Grid(top), 0);
    GridIsClosed(top);
    var certs := Certificates(FOUR, v, leader, leader.round + 2);
    forall a | 0 <= a < 4 ensures a in Authors(certs) {
      EveryoneCertifies(top, leader, Ref(leader.round + 2, a));
      assert Ref(leader.round + 2, a) in certs;
    }
    FourStakes(Authors(certs));
  }

  lemma DirectlyCommitted(top: Round, leader: BlockRef)
    requires IsCell(top, leader) && leader.round + 2 <= top
    ensures View(Grid(top), 0).Closed()
    ensures DirectlyDecides(FOUR, View(Grid(top), 0), SlotOf(leader), leader.round + 2, Commit(leader))
  {
    NobodyBlames(top, leader);
    EveryoneSupports(top, leader);
  }

  function Elected(round: Round): Author {
    if round == 0 then 0 else LeaderOf(round - 1)
  }

  /** Leaders in every round. */
  ghost predicate IsPipelined(s: Setup) {
    s.waveLength == 3 && s.pipeline && forall round :: s.schedule(round) == Elected(round)
  }

  ghost predicate IsTarget(t: Target, round: Round) {
    t.Valid() && t.slot == Slot(round, Elected(round)) && t.options.waveLength == 3
  }

  lemma FirstTarget(s: Setup, lo: Round, hi: Round) returns (t: Target)
    requires IsPipelined(s) && lo < hi
    ensures IsTarget(t, lo) && s.Targets(lo, hi) == [t] + s.Targets(lo + 1, hi)
  {
    var here := s.RoundTargets(lo, |s.Committers()|);
    RoundTargetsValid(s, lo, |s.Committers()|);
    t := here[0];
    assert t in here && here == [t];
  }

  lemma {:induction false} TargetsAre(s: Setup, lo: Round, hi: Round)
    requires IsPipelined(s) && lo <= hi
    ensures |s.Targets(lo, hi)| == hi - lo
    ensures forall i | 0 <= i < hi - lo :: IsTarget(s.Targets(lo, hi)[i], lo + i)
    decreases hi - lo
  {
    if lo < hi {
      var t := FirstTarget(s, lo, hi);
      TargetsAre(s, lo + 1, hi);
      var all := s.Targets(lo, hi);
      forall i | 0 <= i < hi - lo ensures IsTarget(all[i], lo + i) {
        if i > 0 {
          assert IsTarget(s.Targets(lo + 1, hi)[i - 1], lo + 1 + (i - 1));
        }
      }
    }
  }

  function LeaderAt(k: nat): BlockRef {
    Ref(k + 1, LeaderOf(k))
  }

  ghost predicate AreCommits(log: seq<LeaderStatus>, n: nat) {
    |log| == n && forall k | 0 <= k < n :: log[k] == Commit(LeaderAt(k))
  }

  lemma DecisionIs(t: Target)
    requires t.Valid() && t.options.waveLength == 3
    ensures t.DecisionRound() == t.slot.round + 2
  {
    LeaderIsDecidedAtEndOfWave(t.options, t.slot.round);
  }

  lemma DirectDecides(v: View, t: Target, later: seq<LeaderStatus>, leader: BlockRef, decisionRound: Round)
    requires v.Closed() && t.Valid() && t.slot.round > v.gcRound && t.DecisionRound() == decisionRound
    requires DirectlyDecides(FOUR, v, t.slot, decisionRound, Commit(leader))
    ensures Decides(FOUR, v, t, later, Commit(leader))
  {}

  lemma TargetDecided(top: Round, t: Target, k: nat, later: seq<LeaderStatus>)
    requires k + 3 <= top && IsTarget(t, k + 1)
    ensures View(Grid(top), 0).Closed() && Decides(FOUR, View(Grid(top), 0), t, later, Commit(LeaderAt(k)))
  {
    DecisionIs(t);
    DirectlyCommitted(top, LeaderAt(k));
    DirectDecides(View(Grid(top), 0), t, later, LeaderAt(k), k + 3);
  }

  lemma AllDecided(s: Setup, n: nat, top: Round, log: seq<LeaderStatus>)
    requires IsPipelined(s) && AreCommits(log, n) && n + 2 <= top
    ensures View(Grid(top), 0).Closed() && ValidTargets(View(Grid(top), 0), s.Targets(1, n + 1))
    ensures DecidesAll(FOUR, View(Grid(top), 0), s.Targets(1, n + 1), log)
  {
    var v, targets := View(Grid(top), 0), s.Targets(1, n + 1);
    GridIsClosed(top);
    TargetsAre(s, 1, n + 1);
    forall i | 0 <= i < n ensures DecidesAt(FOUR, v, targets, log, i) {
      TargetDecided(top, targets[i], i, log[i + 1..]);
    }
  }

  // ---- The commits ----

  lemma {:induction false} ReachesAll(top: Round, from: BlockRef, to: BlockRef)
    requires IsCell(top, from) && IsCell(top, to) && to.round < from.round
    ensures ReachesAbove(Grid(top), 0, from, to)
    decreases from.round
  {
    var a := if to.round + 1 == from.round then to else Ref(from.round - 1, 0);
    NodeAncestors(from.round, from.author, a);
    if a != to {
      ReachesAll(top, a, to);
    }
  }

  lemma HistoryIs(top: Round, leader: BlockRef)
    requires IsCell(top, leader)
    ensures HistoryAbove(View(Grid(top), 0), leader) ==
            set r | r in Cells(top) && (r == leader || r.round < leader.round)
  {
    forall r | r in Cells(top)
      ensures ReachesAbove(Grid(top), 0, leader, r) <==> r == leader || r.round < leader.round
    {
      if ReachesAbove(Grid(top), 0, leader, r) {
        ReachesAboveDescends(Grid(top), 0, leader, r);
      } else if r.round < leader.round {
        ReachesAll(top, leader, r);
      }
    }
  }

  /** What the first `k` commits have. */
  function Done(top: Round, k: nat): set<BlockRef> {
    set r | r in Cells(top) && HomeOf(r) < k
  }

  lemma DoneIsMarked(top: Round, k: nat)
    ensures MarkedClosed(Grid(top), 0, Done(top, k))
  {
    var d := Grid(top);
    forall r | r in Done(top, k) && r in d && r.round > 0 ensures EntryMarked(d, 0, Done(top, k), r) {
      forall a | a in d[r].ancestors && a.round > 0 ensures a in Done(top, k) {
        NodeAncestors(r.round, r.author, a);
      }
    }
  }

  lemma FourAscend(w: Block, x: Block, y: Block, z: Block)
    requires w.reference.round == x.reference.round == y.reference.round < z.reference.round
    requires w.reference.author < x.reference.author < y.reference.author
    ensures Ascends(true, [w, x, y, z]) && DistinctReferences([w, x, y, z])
  {}

  lemma BlocksAscend(k: nat)
    ensures Ascends(true, BlocksOf(k)) && DistinctReferences(BlocksOf(k))
  {
    if k > 0 {
      var o := Others(LeaderOf(k - 1));
      FourAscend(Node(k, o.0), Node(k, o.1), Node(k, o.2), Node(k + 1, LeaderOf(k)));
    }
  }

  lemma HomeMembers(top: Round, k: nat, subDag: seq<Block>, b: Block)
    requires k < top && References(subDag) == set r | r in Cells(top) && HomeOf(r) == k
    requires forall x | x in subDag :: x.reference in Grid(top) && x == Grid(top)[x.reference]
    ensures b in subDag <==> b in BlocksOf(k)
  {
    if b in subDag {
      assert b.reference in References(subDag);
      HomeHas(b.reference.round, b.reference.author);
    }
    if b in BlocksOf(k) {
      InHome(k, b);
      InRounds(k, b);
      assert b.reference in References(subDag);
      var x :| x in subDag && x.reference == b.reference;
    }
  }

  lemma InRounds(k: nat, b: Block)
    requires b in BlocksOf(k)
    ensures b.reference.round <= k + 1 && b.reference.digest == 0
  {}

  lemma HomeIsNew(top: Round, k: nat)
    requires k < top
    ensures HistoryAbove(View(Grid(top), 0), LeaderAt(k)) - Done(top, k) ==
            set r | r in Cells(top) && HomeOf(r) == k
  {
    HistoryIs(top, LeaderAt(k));
  }

  lemma HomeIsSorted(top: Round, k: nat, subDag: seq<Block>)
    requires k < top && References(subDag) == set r | r in Cells(top) && HomeOf(r) == k
    requires forall x | x in subDag :: x.reference in Grid(top) && x == Grid(top)[x.reference]
    requires Ascends(true, subDag) && DistinctReferences(subDag)
    ensures subDag == BlocksOf(k)
  {
    BlocksAscend(k);
    forall b ensures b in subDag <==> b in BlocksOf(k) {
      HomeMembers(top, k, subDag, b);
    }
    forall a, b | a in subDag && b in subDag && Le(true, a, b) && Le(true, b, a) ensures a == b {
      assert a.reference in Cells(top) && b.reference in Cells(top) && a.reference == b.reference;
    }
    SortedIsUnique(true, subDag, BlocksOf(k));
  }

  /** The linearizer outputs the blocks of the example. */
  lemma BlocksAreLinearized(top: Round, k: nat)
    requires k < top
    ensures BlocksOf(k) == Linearized(Grid(top), 0, Done(top, k), LeaderAt(k))
  {
    GridIsClosed(top);
    GridIsDistinct(top);
    DoneIsMarked(top, k);
    LinearizedContents(View(Grid(top), 0), Done(top, k), LeaderAt(k));
    HomeIsNew(top, k);
    HomeIsSorted(top, k, Linearized(Grid(top), 0, Done(top, k), LeaderAt(k)));
  }

  lemma {:induction false} CommittedAreDone(top: Round, subDags: seq<seq<Block>>)
    requires |subDags| <= top && forall k | 0 <= k < |subDags| :: subDags[k] == BlocksOf(k)
    ensures Committed(subDags) == Done(top, |subDags|)
    decreases |subDags|
  {
    if subDags != [] {
      var k := |subDags| - 1;
      CommittedAreDone(top, subDags[..k]);
      HomeReferences(top, k);
      DoneGrows(top, k);
    }
  }

  lemma DoneGrows(top: Round, k: nat)
    ensures Done(top, k + 1) == Done(top, k) + set r | r in Cells(top) && HomeOf(r) == k
  {}

  lemma HomeReferences(top: Round, k: nat)
    requires k < top
    ensures References(BlocksOf(k)) == set r | r in Cells(top) && HomeOf(r) == k
  {
    forall r | r in References(BlocksOf(k)) ensures r in Cells(top) && HomeOf(r) == k {
      var b :| b in BlocksOf(k) && b.reference == r;
      InHome(k, b);
      InRounds(k, b);
    }
    forall r | r in Cells(top) && HomeOf(r) == k ensures r in References(BlocksOf(k)) {
      HomeHas(r.round, r.author);
    }
  }

  lemma {:induction false} LeadersAre(log: seq<LeaderStatus>, n: nat)
    requires AreCommits(log, n)
    ensures |CommittedLeaders(log)| == n && forall k | 0 <= k < n :: CommittedLeaders(log)[k] == LeaderAt(k)
    decreases n
  {
    if n > 0 {
      LeadersAre(log[..n - 1], n - 1);
    }
  }

  // ---- The output of consensus ----

  ghost predicate Repeats<T(!new)>(s: seq<T>, n: nat, x: T) {
    |s| == n && forall i | 0 <= i < n :: s[i] == x
  }

  /** All five leaders are decided on the whole grid, which is also what every sub-DAG is collected from. */
  ghost predicate IsDisputed(n: Consensus, v: View) {
    && v == View(Grid(7), 0) && n.world == WorldOf(7) && IsPipelined(n.setup) && n.gcDepth >= 4
    && n.runs == [v] && AreCommits(n.log, 5) && Repeats(n.views, 5, v)
    && |n.subDags| == 5 && (forall k | 0 <= k < 5 :: n.subDags[k] == BlocksOf(k)) && AreFive(n.commits)
  }

  lemma StepIsRun(w: World, s: Setup, v: View, log: seq<LeaderStatus>, hi: Round)
    requires s.Valid() && w.Holds(v) && v.gcRound == 0 && forall k | 0 <= k < |log| :: log[k].IsDecided()
    requires ValidTargets(v, s.Targets(1, hi)) && DecidesAll(w.committee, v, s.Targets(1, hi), log)
    ensures IsStep(w, s, v, log, 0, hi, log)
  {
    assert log[..0] == [] && log[0..] == log;
  }

  lemma OneRun(w: World, s: Setup, views: seq<View>, log: seq<LeaderStatus>, hi: Round)
    requires s.Valid() && |views| == 1 && IsStep(w, s, views[0], log, 0, hi, log)
    ensures IsLog(w, s, views, log)
  {
    assert views[..|views| - 1] == [] && log[..0] == [];
    assert IsStep(w, s, views[|views| - 1], log, 0, hi, log) && IsLog(w, s, views[..|views| - 1], log[..0]);
  }

  lemma LogIsRun(w: World, s: Setup, top: Round, v: View, log: seq<LeaderStatus>, n: nat)
    requires w.committee == FOUR && v == View(Grid(top), 0) && w.Holds(v) && n + 2 <= top
    requires IsPipelined(s) && AreCommits(log, n)
    ensures IsLog(w, s, [v], log)
  {
    AllDecided(s, n, top, log);
    StepIsRun(w, s, v, log, n + 1);
    OneRun(w, s, [v], log, n + 1);
  }

  /** The view justifies the decision on the leader of commit `k`. */
  ghost predicate DecidedOn(w: World, s: Setup, v: View, status: LeaderStatus, k: nat)
    requires s.Valid()
  {
    exists t: Target, hi, statuses :: t.slot.round == k + 1 && JustifiedBy(w, s, t, status, v, hi, statuses)
  }

  lemma DecisionIsLocal(w: World, s: Setup, top: Round, v: View, log: seq<LeaderStatus>, n: nat, k: nat)
    requires w.committee == FOUR && v == View(Grid(top), 0) && w.Holds(v) && n + 2 <= top
    requires IsPipelined(s) && AreCommits(log, n) && k < n
    ensures DecidedOn(w, s, v, log[k], k)
  {
    AllDecided(s, n, top, log);
    TargetsAre(s, 1, n + 1);
    DecidedIsJustifiedBy(w, s, v, 1, n + 1, log, k);
  }

  lemma SubDagIs(top: Round, subDags: seq<seq<Block>>, k: nat)
    requires k < |subDags| <= top && forall i | 0 <= i < |subDags| :: subDags[i] == BlocksOf(i)
    ensures subDags[k] == Linearized(Grid(top), 0, Committed(subDags[..k]), LeaderAt(k))
  {
    CommittedAreDone(top, subDags[..k]);
    BlocksAreLinearized(top, k);
  }

  lemma NothingCollected(leaders: seq<BlockRef>, gcDepth: nat, k: nat)
    requires k < |leaders| && k <= gcDepth && forall i | 0 <= i < |leaders| :: leaders[i] == LeaderAt(i)
    ensures GcBefore(leaders, k, gcDepth) == 0
  {}

  lemma CommitIsMade(w: World, gcDepth: nat, leaders: seq<BlockRef>, views: seq<View>, subDags: seq<seq<Block>>,
      v: View, top: Round, k: nat)
    requires w.Holds(v) && v == View(Grid(top), 0) && k < |leaders| == |views| == |subDags| <= top && k <= gcDepth
    requires views[k] == v && forall i | 0 <= i < |leaders| :: leaders[i] == LeaderAt(i)
    requires forall i | 0 <= i < |subDags| :: subDags[i] == BlocksOf(i)
    ensures IsCommitAt(w, gcDepth, leaders, views, subDags, k)
  {
    SubDagIs(top, subDags, k);
    NothingCollected(leaders, gcDepth, k);
  }

  lemma AllCommitsMade(n: Consensus, v: View, leaders: seq<BlockRef>)
    requires IsDisputed(n, v) && n.world.Holds(v)
    requires |leaders| == 5 && forall i | 0 <= i < 5 :: leaders[i] == LeaderAt(i)
    ensures IsCommitHistory(n.world, n.gcDepth, leaders, n.views, n.subDags) && Carries(leaders, n.subDags, n.commits)
  {
    forall k | 0 <= k < 5 ensures IsCommitAt(n.world, n.gcDepth, leaders, n.views, n.subDags, k) {
      CommitIsMade(n.world, n.gcDepth, leaders, n.views, n.subDags, v, 7, k);
    }
  }

  ghost predicate HasLeaders(n: Consensus) {
    |n.Leaders()| == 5 && forall k | 0 <= k < 5 :: n.Leaders()[k] == LeaderAt(k)
  }

  lemma DisputedIsValid(n: Consensus, v: View)
    requires IsDisputed(n, v)
    ensures n.Valid() && n.world.Holds(v) && HasLeaders(n)
    ensures forall k | 0 <= k < 5 :: DecidedOn(n.world, n.setup, v, n.log[k], k)
  {
    WorldIsSound(7);
    WorldHolds(7);
    LogIsRun(n.world, n.setup, 7, v, n.log, 5);
    LeadersAre(n.log, 5);
    AllCommitsMade(n, v, n.Leaders());
    forall k | 0 <= k < 5 ensures DecidedOn(n.world, n.setup, v, n.log[k], k) {
      DecisionIsLocal(n.world, n.setup, 7, v, n.log, 5, k);
    }
  }

  lemma DecidedLocally(n: Consensus, v: View, k: nat)
    requires n.Valid() && n.world.Holds(v) && v.gcRound == 0 && HasLeaders(n) && AreCommits(n.log, 5)
    requires |n.commits| == 5 && k < 5 && DecidedOn(n.world, n.setup, v, n.log[k], k)
    ensures DecidedIn(n, k, v)
  {
    var t: Target, hi, statuses :| t.slot.round == k + 1 &&
      JustifiedBy(n.world, n.setup, t, n.log[k], v, hi, statuses);
    assert IsDecision(n, k, v, k, t, hi, statuses);
  }

  // ---- The validators ----

  /** All five commits, with the same blocks seen throughout. */
  ghost predicate IsValidator(n: Consensus, v: View, x: Validator, seen: Dag, rejects: Stakes) {
    && |n.commits| == 5 && x.inputs == Inputs(n.commits, 5, true, rejects)
    && Repeats(x.seen, 5, seen) && Repeats(x.decided, 5, v)
  }

  lemma SomeValidator(n: Consensus, v: View, seen: Dag, rejects: Stakes) returns (x: Validator)
    requires |n.commits| == 5
    ensures IsValidator(n, v, x, seen, rejects)
  {
    x := Validator(Inputs(n.commits, 5, true, rejects), seq(5, _ => seen), seq(5, _ => v));
  }

  lemma SeesCommits(n: Consensus, v: View, k: nat, r: BlockRef)
    requires IsDisputed(n, v) && n.Has(k, r)
    ensures r in Grid(7)
  {
    var b :| b in BlocksOf(k) && b.reference == r;
    InHome(k, b);
    InRounds(k, b);
  }

  lemma SeenIsIn(seen: Dag)
    requires seen == Grid(7) || seen == AllBlocksOf(7)
    ensures Grid(7).Keys <= seen.Keys
    ensures forall x | x in seen :: x in WorldOf(7).blocks && seen[x] == WorldOf(7).blocks[x]
  {}

  lemma SeesRightIf(n: Consensus, v: View, x: Validator, seen: Dag, rejects: Stakes, j: nat)
    requires n.Valid() && IsValidator(n, v, x, seen, rejects) && j < 5 && CountsVotes(n.world.committee, seen, rejects)
    requires forall r | r in seen :: r in n.world.blocks && seen[r] == n.world.blocks[r]
    requires forall k, r | 0 <= k < 5 && n.Has(k, r) :: r in seen
    requires v.blocks.Keys <= seen.Keys && forall k | 0 <= k < 5 :: DecidedIn(n, k, v)
    ensures SeesRight(n, x, j)
  {
    assert x.seen[j] == seen && x.inputs[j].rejects == rejects;
  }

  lemma ValidatesIf(n: Consensus, v: View, x: Validator, seen: Dag, rejects: Stakes)
    requires IsDisputed(n, v) && n.Valid() && n.world.Holds(v) && HasLeaders(n)
    requires forall k | 0 <= k < 5 :: DecidedOn(n.world, n.setup, v, n.log[k], k)
    requires IsValidator(n, v, x, seen, rejects) && RunsOver(FOUR, n.commits, x.inputs)
    requires (seen == Grid(7) || seen == AllBlocksOf(7)) && CountsVotes(FOUR, seen, rejects)
    ensures Validates(n, x)
  {
    SeenIsIn(seen);
    forall k, r | 0 <= k < 5 && n.Has(k, r) ensures r in seen {
      SeesCommits(n, v, k, r);
    }
    forall k | 0 <= k < 5 ensures DecidedIn(n, k, v) {
      DecidedLocally(n, v, k);
    }
    forall j | 0 <= j < 5 ensures SeesRight(n, x, j) {
      SeesRightIf(n, v, x, seen, rejects, j);
    }
  }

  lemma QuietStakesOn(commits: seq<SubDag>, r: BlockRef)
    requires r in QuietStakes(commits, TARGET, 0, 2)
    ensures QuietStakes(commits, TARGET, 0, 2)[r] == if r == TARGET then map[0 := 2] else map[]
  {}

  lemma FirstCountsOn(rejects: Stakes, r: BlockRef, t: nat)
    requires r in rejects && rejects[r] == if r == TARGET then map[0 := 2] else map[]
    ensures CountsVotesOn(FOUR, Grid(7), rejects, r, t)
  {
    FourStakes({2, 3});
    GridVoters(7, r, t);
  }

  lemma FirstCounts(commits: seq<SubDag>)
    ensures CountsVotes(FOUR, Grid(7), QuietStakes(commits, TARGET, 0, 2))
  {
    var rejects := QuietStakes(commits, TARGET, 0, 2);
    forall r, t: nat | r in rejects ensures CountsVotesOn(FOUR, Grid(7), rejects, r, t) {
      QuietStakesOn(commits, r);
      FirstCountsOn(rejects, r, t);
    }
  }

  lemma SecondCountsOn(rejects: Stakes, r: BlockRef, t: nat)
    requires r in rejects
    requires rejects[r] == if r == TARGET then map[0 := 2] else if r == EARLY then map[0 := 1] else map[]
    ensures CountsVotesOn(FOUR, AllBlocksOf(7), rejects, r, t)
  {
    FourStakes({2, 3});
    FourStakes({2});
    AllVoters(7, r, t);
  }

  lemma SecondCounts(commits: seq<SubDag>)
    ensures CountsVotes(FOUR, AllBlocksOf(7), BothContested(commits, 1, 2))
  {
    var rejects := BothContested(commits, 1, 2);
    forall r, t: nat | r in rejects ensures CountsVotesOn(FOUR, AllBlocksOf(7), rejects, r, t) {
      if r != EARLY {
        QuietStakesOn(commits, r);
      }
      SecondCountsOn(rejects, r, t);
    }
  }

  lemma FirstValidates(n: Consensus, v: View) returns (x: Validator)
    requires IsDisputed(n, v) && n.Valid() && n.world.Holds(v) && HasLeaders(n)
    requires forall k | 0 <= k < 5 :: DecidedOn(n.world, n.setup, v, n.log[k], k)
    ensures Validates(n, x) && Contests(FOUR, n.commits, x.inputs, 1, TARGET, 0) && Commits(x.inputs) == n.commits
    ensures !RejectedIn(FOUR, x.inputs, 1, TARGET, 0)
  {
    var rejects := QuietStakes(n.commits, TARGET, 0, 2);
    var inputs := FirstAccepts(n.commits);
    x := SomeValidator(n, v, Grid(7), rejects);
    FirstCounts(n.commits);
    ValidatesIf(n, v, x, Grid(7), rejects);
  }

  lemma SecondValidates(n: Consensus, v: View) returns (x: Validator)
    requires IsDisputed(n, v) && n.Valid() && n.world.Holds(v) && HasLeaders(n)
    requires forall k | 0 <= k < 5 :: DecidedOn(n.world, n.setup, v, n.log[k], k)
    ensures Validates(n, x) && Contests(FOUR, n.commits, x.inputs, 1, TARGET, 0) && Commits(x.inputs) == n.commits
    ensures RejectedIn(FOUR, x.inputs, 1, TARGET, 0)
  {
    var rejects := BothContested(n.commits, 1, 2);
    var inputs := SecondRejects(n.commits);
    x := SomeValidator(n, v, AllBlocksOf(7), rejects);
    SecondCounts(n.commits);
    ValidatesIf(n, v, x, AllBlocksOf(7), rejects);
  }

  lemma TargetIsOpen(n: Consensus, v: View)
    requires IsDisputed(n, v) && n.Valid() && HasLeaders(n)
    ensures Concerns(n, 1, 4, TARGET)
  {
    TargetIsCommitted(n.commits);
    FourthIsDeadline(n.commits);
  }

  lemma FourthIsDeadline(commits: seq<SubDag>)
    requires AreFive(commits)
    ensures IsDeadline(commits, 1, 4)
  {
    assert forall k | 0 <= k < 5 :: commits[k].leader.round == k + 1;
  }

  lemma SomeDisputed(gcDepth: nat) returns (n: Consensus, v: View)
    requires gcDepth >= 4
    ensures IsDisputed(n, v) && n.gcDepth == gcDepth
  {
    v := View(Grid(7), 0);
    var log := seq(5, k requires 0 <= k < 5 => Commit(LeaderAt(k)));
    var subDags := seq(5, k requires 0 <= k < 5 => BlocksOf(k));
    var commits := seq(5, k requires 0 <= k < 5 => CommitAt(k));
    n := Consensus(WorldOf(7), Setup(3, true, Elected), gcDepth, [v], log, seq(5, _ => v), subDags, commits);
  }

  /**
   Two validators that decide the commits of one consensus themselves, all honest authors voting as they should, and
   each counting the votes it has seen, output different fates for the transaction of the target. The first has
   output the first commit at once and with it forgotten the vote of author 2; the second has seen one more block, a
   vote on the first commit, and still keeps it when author 2's next block is linked.
   */
  lemma SameCommitsDifferentFates(gcDepth: nat) returns (n: Consensus, v1: Validator, v2: Validator)
    requires gcDepth >= 4
    ensures n.Valid() && n.gcDepth == gcDepth && n.world.committee == FOUR && HonestVotes(n.world)
    ensures Validates(n, v1) && Validates(n, v2) && Concerns(n, 1, 4, TARGET)
    ensures Commits(v1.inputs) == Commits(v2.inputs) == n.commits
    ensures forall k | 0 <= k < |n.commits| :: n.commits[k].local && n.commits[k].rejected == map[]
    ensures 1 < |Run(FOUR, v1.inputs).outputs| && 1 < |Run(FOUR, v2.inputs).outputs|
    ensures !RejectedIn(FOUR, v1.inputs, 1, TARGET, 0) && RejectedIn(FOUR, v2.inputs, 1, TARGET, 0)
  {
    var v;
    n, v := SomeDisputed(gcDepth);
    DisputedIsValid(n, v);
    VotesAreHonest(7);
    v1 := FirstValidates(n, v);
    v2 := SecondValidates(n, v);
    TargetIsOpen(n, v);
  }
}
