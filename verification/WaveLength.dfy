/**
 The commit rule counts blames only in the round after the leader. With waves of three rounds that is
 enough; with any longer wave two validators can decide one slot differently without a single fault.
 */
module WaveLength {
  import opened Types
  import opened Committee
  import opened Views
  import opened CommitRule
  import opened CommitSafety
  import BlockVerifier

  /** Direct decisions of two views on one slot always agree, with waves of the given length. */
  ghost predicate DirectDecisionsAgree(waveLength: nat)
    requires waveLength >= 3
  {
    forall w: World, v1: View, v2: View, slot: Slot, s1: LeaderStatus, s2: LeaderStatus ::
      BothDecide(w, v1, v2, slot, waveLength, s1, s2) ==> Agree(s1, s2)
  }

  ghost predicate BothDecide(w: World, v1: View, v2: View, slot: Slot, waveLength: nat, s1: LeaderStatus,
      s2: LeaderStatus)
    requires waveLength >= 3
  {
    && w.Sound() && w.HonestChains() && w.Holds(v1) && w.Holds(v2)
    && slot.round > v1.gcRound && slot.round > v2.gcRound
    && DirectlyDecides(w.committee, v1, slot, slot.round + waveLength - 1, s1)
    && DirectlyDecides(w.committee, v2, slot, slot.round + waveLength - 1, s2)
  }

  /** Direct decisions are consistent exactly for the default wave length. */
  lemma DirectDecisionsAgreeIff(waveLength: nat)
    requires waveLength >= 3
    ensures DirectDecisionsAgree(waveLength) <==> waveLength == 3
  {
    if waveLength == 3 {
      forall w: World, v1: View, v2: View, slot: Slot, s1: LeaderStatus, s2: LeaderStatus | BothDecide(w, v1, v2, slot,
        3, s1, s2)
        ensures Agree(s1, s2)
      {
        if s1.IsDecided() && s2.IsDecided() {
          DirectDecisionBinds(w, v1, v2, Target(slot, Options(3, 0, slot.round)), s1, [], s2) by {
            LeaderIsDecidedAtEndOfWave(Options(3, 0, slot.round), slot.round);
          }
        }
      }
    } else {
      LongWaveDisagreement(waveLength);
    }
  }

  // ---- Four authorities of equal stake; the leader of round 1 is authority 3 ----

  const LEADER := Ref(1, 3)

  /** The two other authors a block links to: authors 0 and 1 switch from author 2 to author 3 in round 3. */
  function Others(r: BlockRef): (Author, Author) {
    var third := if r.round <= 2 then 2 else 3;
    if r.author == 0 then (1, third) else if r.author == 1 then (0, third) else (0, 1)
  }

  /** Own ancestor first, then two others, all one round below. */
  function AncestorsOf(r: BlockRef): seq<BlockRef>
    requires r.round > 0
  {
    [Ref(r.round - 1, r.author), Ref(r.round - 1, Others(r).0), Ref(r.round - 1, Others(r).1)]
  }

  /** Authors 0, 1 and 3 produce a block in every round up to `last`; author 2 stops after round 2. */
  predicate Exists(r: BlockRef, last: Round) {
    && r.digest == 0 && 1 <= r.round <= last
    && (r.author == 0 || r.author == 1 || r.author == 3 || (r.author == 2 && r.round <= 2))
  }

  function Refs(last: Round): set<BlockRef> {
    set i, a | 1 <= i <= last && 0 <= a < 4 && Exists(Ref(i, a), last) :: Ref(i, a)
  }

  function MakeBlock(r: BlockRef): Block
    requires r.round > 0
  {
    Block(r, AncestorsOf(r), 0, [], [])
  }

  function LongWorld(last: Round): World {
    World(FOUR, {Ref(0, 0), Ref(0, 1), Ref(0, 2), Ref(0, 3)}, map r | r in Refs(last) :: MakeBlock(r), {})
  }

  /** The three blocks of round 2 without a link to the leader, and their ancestors. */
  function SkippingView(): View {
    View(map r | r in Refs(2) && r.author != 3 :: MakeBlock(r), 0)
  }

  /** Everything except the second block of author 2. */
  function CommittingView(last: Round): View {
    View(map r | r in Refs(last) && r != Ref(2, 2) :: MakeBlock(r), 0)
  }

  lemma RefsExist(last: Round)
    ensures forall r :: r in Refs(last) <==> Exists(r, last)
  {
    forall r | Exists(r, last) ensures r in Refs(last) {
      assert r == Ref(r.round, r.author);
    }
  }

  lemma InCommittingView(last: Round, r: BlockRef)
    ensures r in CommittingView(last).blocks <==> Exists(r, last) && r != Ref(2, 2)
    ensures r in CommittingView(last).blocks ==> CommittingView(last).blocks[r] == MakeBlock(r)
  {
    RefsExist(last);
  }

  lemma InSkippingView(r: BlockRef)
    ensures r in SkippingView().blocks <==> Exists(r, 2) && r.author != 3
    ensures r in SkippingView().blocks ==> SkippingView().blocks[r] == MakeBlock(r)
  {
    RefsExist(2);
  }

  lemma InLongWorld(last: Round, r: BlockRef)
    ensures r in LongWorld(last).blocks <==> Exists(r, last)
    ensures r in LongWorld(last).blocks ==> LongWorld(last).blocks[r] == MakeBlock(r)
  {
    RefsExist(last);
  }

  lemma ParentsOfBlock(r: BlockRef)
    requires r.round > 0
    ensures BlockVerifier.ParentAuthors(MakeBlock(r)) == {r.author, Others(r).0, Others(r).1}
  {
    var b := MakeBlock(r);
    assert b.ancestors[0] in b.ancestors && b.ancestors[1] in b.ancestors && b.ancestors[2] in b.ancestors;
  }

  lemma ParentsHoldQuorum(last: Round, r: BlockRef)
    requires Exists(r, last)
    ensures FOUR.IsQuorum(BlockVerifier.ParentAuthors(MakeBlock(r)))
  {
    ParentsOfBlock(r);
    var parents := {r.author, Others(r).0, Others(r).1};
    FourStakes(parents);
    if r.author <= 1 {
      assert 0 in parents && 1 in parents && (2 in parents || 3 in parents);
    } else {
      assert 0 in parents && 1 in parents && r.author in parents;
    }
  }

  lemma BlockIsWellFormed(last: Round, r: BlockRef)
    requires Exists(r, last)
    ensures BlockVerifier.WellFormed(FOUR, LongWorld(last).genesis, MakeBlock(r))
  {
    var b := MakeBlock(r);
    ParentsHoldQuorum(last, r);
    assert FOUR.IsValidIndex(r.author);
    assert |b.ancestors| == 3 && |FOUR.stakes| == 4;
    var genesis := LongWorld(last).genesis;
    forall i | 0 <= i < |b.ancestors| ensures BlockVerifier.AncestorWellFormed(FOUR, genesis, b, i) {
      AncestorIsWellFormed(last, r, i);
    }
  }

  lemma AncestorIsWellFormed(last: Round, r: BlockRef, i: nat)
    requires Exists(r, last) && i < 3
    ensures BlockVerifier.AncestorWellFormed(FOUR, LongWorld(last).genesis, MakeBlock(r), i)
  {
    assert i == 0 || i == 1 || i == 2;
    assert FOUR.IsValidIndex(AncestorsOf(r)[i].author);
  }

  lemma LongWorldIsSound(last: Round)
    ensures LongWorld(last).Sound() && LongWorld(last).HonestChains()
  {
    var w := LongWorld(last);
    RefsExist(last);
    FourStakes({});
    forall r | r in w.blocks ensures w.Verified(r) {
      BlockIsWellFormed(last, r);
    }
  }

  lemma SkippingViewIsHeld(last: Round)
    requires last >= 4
    ensures LongWorld(last).Holds(SkippingView())
  {
    var v := SkippingView();
    forall r | r in v.blocks
      ensures v.EntryClosed(r) && r in LongWorld(last).blocks && v.blocks[r] == LongWorld(last).blocks[r]
    {
      InSkippingView(r);
      InLongWorld(last, r);
      AncestorCases(r);
      forall a | a in v.blocks[r].ancestors ensures a.round < r.round && (a.round > 0 ==> a in v.blocks) {
        InSkippingView(a);
      }
    }
  }

  lemma CommittingViewIsClosed(last: Round)
    requires last >= 4
    ensures CommittingView(last).Closed()
  {
    var v := CommittingView(last);
    forall r | r in v.blocks ensures v.EntryClosed(r) {
      InCommittingView(last, r);
      AncestorCases(r);
      forall a | a in v.blocks[r].ancestors ensures a.round < r.round && (a.round > 0 ==> a in v.blocks) {
        InCommittingView(last, a);
      }
    }
  }

  lemma AncestorCases(r: BlockRef)
    requires r.round > 0
    ensures forall a | a in AncestorsOf(r) ::
            a.digest == 0 && a.round == r.round - 1 &&
              (a.author == r.author || a.author == Others(r).0 || a.author == Others(r).1)
  {}

  /** From round 3 on, every block of authors 0, 1 and 3 supports the leader. */
  lemma {:induction false} SupportsLeader(last: Round, r: BlockRef)
    requires last >= 4 && Exists(r, last) && r.author != 2 && (r.round >= 3 || r == Ref(2, 3))
    requires CommittingView(last).Closed() && r in CommittingView(last).blocks
    ensures FindSupported(CommittingView(last), SlotOf(LEADER), r) == Some(LEADER)
    decreases r.round
  {
    var own := AncestorsOf(r)[0];
    InCommittingView(last, own);
    InCommittingView(last, Ref(2, 0));
    InCommittingView(last, Ref(2, 1));
    InCommittingView(last, Ref(2, 3));
    if r == Ref(2, 3) {
      LeaderSupportsItself(last);
    } else if r.round > 3 || r.author == 3 {
      SupportsLeader(last, own);
      SupportsThroughOwn(last, r);
    } else {
      SupportsLeader(last, Ref(2, 3));
      NoSupport(last, 0);
      NoSupport(last, 1);
      SupportsThroughThird(last, r);
    }
  }

  lemma LeaderSupportsItself(last: Round)
    requires last >= 4 && CommittingView(last).Closed() && Ref(2, 3) in CommittingView(last).blocks
    ensures FindSupported(CommittingView(last), SlotOf(LEADER), Ref(2, 3)) == Some(LEADER)
  {
    var v, r := CommittingView(last), Ref(2, 3);
    assert v.blocks[r].ancestors == AncestorsOf(r);
    assert FindAmong(v, SlotOf(LEADER), r, 0) == Some(LEADER);
  }

  lemma SupportsThroughOwn(last: Round, r: BlockRef)
    requires CommittingView(last).Closed() && r in CommittingView(last).blocks && r.round >= 3
    requires AncestorsOf(r)[0] in CommittingView(last).blocks
    requires FindSupported(CommittingView(last), SlotOf(LEADER), AncestorsOf(r)[0]) == Some(LEADER)
    ensures FindSupported(CommittingView(last), SlotOf(LEADER), r) == Some(LEADER)
  {
    var v := CommittingView(last);
    assert v.blocks[r].ancestors == AncestorsOf(r);
    assert FindAmong(v, SlotOf(LEADER), r, 0) == Some(LEADER);
  }

  lemma SupportsThroughThird(last: Round, r: BlockRef)
    requires last >= 4 && (r == Ref(3, 0) || r == Ref(3, 1))
    requires CommittingView(last).Closed() && r in CommittingView(last).blocks
    requires forall a | 0 <= a < 4 && a != 2 :: Ref(2, a) in CommittingView(last).blocks
    requires FindSupported(CommittingView(last), SlotOf(LEADER), Ref(2, 3)) == Some(LEADER)
    requires FindSupported(CommittingView(last), SlotOf(LEADER), Ref(2, 0)) == None
    requires FindSupported(CommittingView(last), SlotOf(LEADER), Ref(2, 1)) == None
    ensures FindSupported(CommittingView(last), SlotOf(LEADER), r) == Some(LEADER)
  {
    var v, slot := CommittingView(last), SlotOf(LEADER);
    assert v.blocks[r].ancestors == AncestorsOf(r);
    assert FindAmong(v, slot, r, 2) == Some(LEADER);
    assert FindAmong(v, slot, r, 1) == Some(LEADER);
    assert FindAmong(v, slot, r, 0) == Some(LEADER);
  }

  lemma NoSupport(last: Round, author: Author)
    requires last >= 4 && (author == 0 || author == 1)
    requires CommittingView(last).Closed() && Ref(2, author) in CommittingView(last).blocks
    ensures FindSupported(CommittingView(last), SlotOf(LEADER), Ref(2, author)) == None
  {
    var v, slot, r := CommittingView(last), SlotOf(LEADER), Ref(2, author);
    assert FindAmong(v, slot, r, 3) == None;
    assert FindAmong(v, slot, r, 2) == None;
    assert FindAmong(v, slot, r, 1) == None;
    assert FindAmong(v, slot, r, 0) == None;
  }

  lemma LastRoundCertifies(last: Round, author: Author)
    requires last >= 4 && (author == 0 || author == 1 || author == 3)
    requires CommittingView(last).Closed() && Ref(last, author) in CommittingView(last).blocks
    ensures IsCertificate(FOUR, CommittingView(last), Ref(last, author), LEADER)
  {
    var v, cert := CommittingView(last), Ref(last, author);
    RefsExist(last);
    var votes := Votes(v, cert, LEADER);
    forall x | x == 0 || x == 1 || x == 3 ensures x in Authors(votes) {
      var vote := Ref(last - 1, x);
      assert Exists(vote, last);
      assert vote == AncestorsOf(cert)[0] || vote == AncestorsOf(cert)[1] || vote == AncestorsOf(cert)[2];
      SupportsLeader(last, vote);
      assert vote in votes;
    }
    FourStakes(Authors(votes));
  }

  /** With a longer wave one view skips the leader and another commits it. */
  lemma LongWaveExample(waveLength: nat)
    requires waveLength >= 4
    ensures BothDecide(LongWorld(waveLength), SkippingView(), CommittingView(waveLength), SlotOf(LEADER), waveLength,
                       Skip(SlotOf(LEADER)), Commit(LEADER))
  {
    LongWorldIsSound(waveLength);
    SkippingViewIsHeld(waveLength);
    CommittingViewIsHeld(waveLength);
    Blamed();
    NotBlamed(waveLength);
    Supported(waveLength);
    LeaderInCommittingView(waveLength);
    assert SlotOf(LEADER).round + waveLength - 1 == waveLength && LongWorld(waveLength).committee == FOUR;
    DirectlyDecidesBoth(LongWorld(waveLength), SkippingView(), CommittingView(waveLength), SlotOf(LEADER), LEADER,
      waveLength, waveLength);
  }

  lemma LongWaveDisagreement(waveLength: nat)
    requires waveLength >= 4
    ensures !DirectDecisionsAgree(waveLength)
  {
    LongWaveExample(waveLength);
    Disagreement(LongWorld(waveLength), SkippingView(), CommittingView(waveLength), SlotOf(LEADER), waveLength, LEADER);
  }

  lemma Disagreement(w: World, v1: View, v2: View, slot: Slot, waveLength: nat, leader: BlockRef)
    requires waveLength >= 3 && BothDecide(w, v1, v2, slot, waveLength, Skip(slot), Commit(leader))
    ensures !DirectDecisionsAgree(waveLength)
  {
    assert !Agree(Skip(slot), Commit(leader));
  }

  lemma DirectlyDecidesBoth(w: World, v1: View, v2: View, slot: Slot, leader: BlockRef, waveLength: nat,
      decision: Round)
    requires waveLength >= 4 && decision == slot.round + waveLength - 1 && slot == SlotOf(leader) && v1.Closed()
    requires v2.Closed() && slot.round > v1.gcRound && slot.round > v2.gcRound
    requires w.Sound() && w.HonestChains() && w.Holds(v1) && w.Holds(v2)
    requires EnoughBlame(w.committee, v1, slot) && !EnoughBlame(w.committee, v2, slot)
    requires leader in v2.AtSlot(slot) && EnoughSupport(w.committee, v2, leader, decision)
    ensures BothDecide(w, v1, v2, slot, waveLength, Skip(slot), Commit(leader))
  {}

  lemma LeaderInCommittingView(last: Round)
    requires last >= 4
    ensures LEADER in CommittingView(last).AtSlot(SlotOf(LEADER))
  {
    InCommittingView(last, LEADER);
  }

  lemma CommittingViewIsHeld(last: Round)
    requires last >= 4
    ensures LongWorld(last).Holds(CommittingView(last))
  {
    CommittingViewIsClosed(last);
    forall r | r in CommittingView(last).blocks
      ensures r in LongWorld(last).blocks && CommittingView(last).blocks[r] == LongWorld(last).blocks[r]
    {
      InCommittingView(last, r);
      InLongWorld(last, r);
    }
  }

  lemma Supported(last: Round)
    requires last >= 4 && CommittingView(last).Closed()
    ensures EnoughSupport(FOUR, CommittingView(last), LEADER, last)
  {
    RefsExist(last);
    var certs := Certificates(FOUR, CommittingView(last), LEADER, last);
    forall x | x == 0 || x == 1 || x == 3 ensures x in Authors(certs) {
      assert Exists(Ref(last, x), last);
      assert Ref(last, x) in CommittingView(last).blocks;
      LastRoundCertifies(last, x);
      assert Ref(last, x) in certs;
    }
    FourStakes(Authors(certs));
  }

  lemma Blamed()
    ensures EnoughBlame(FOUR, SkippingView(), SlotOf(LEADER))
  {
    var v, blames := SkippingView(), Blames(SkippingView(), SlotOf(LEADER));
    forall x | x == 0 || x == 1 || x == 2 ensures x in Authors(blames) {
      InSkippingView(Ref(2, x));
      assert Ref(2, x) in blames;
    }
    FourStakes(Authors(blames));
  }

  lemma NotBlamed(last: Round)
    requires last >= 4
    ensures !EnoughBlame(FOUR, CommittingView(last), SlotOf(LEADER))
  {
    var blames := Blames(CommittingView(last), SlotOf(LEADER));
    forall r | r in blames ensures r.author == 0 || r.author == 1 {
      InCommittingView(last, r);
      assert r == Ref(2, r.author);
      assert MakeBlock(r).ancestors[0] in MakeBlock(r).ancestors;
    }
    FourStakes(Authors(blames));
  }
}
