/**
 Safety of the commit rule across validators. Any two views of one world agree on every leader slot
 that both decide, whatever mix of direct and indirect decisions got them there.
 */
module CommitSafety {
  import opened Types
  import opened Committee
  import opened Views
  import opened CommitRule
  import BlockVerifier

  // ---- What a block supports does not depend on who looks at it ----

  lemma {:induction false} SupportSameInViews(w: World, v1: View, v2: View, slot: Slot, from: BlockRef)
    requires w.Holds(v1) && w.Holds(v2) && slot.round > v1.gcRound && slot.round > v2.gcRound
    requires from in v1.blocks && from in v2.blocks
    ensures FindSupported(v1, slot, from) == FindSupported(v2, slot, from)
    decreases from.round, |v1.blocks[from].ancestors| + 1
  {
    if from.round >= slot.round {
      SupportAmongSameInViews(w, v1, v2, slot, from, 0);
    }
  }

  lemma {:induction false} SupportAmongSameInViews(w: World, v1: View, v2: View, slot: Slot, from: BlockRef, i: nat)
    requires w.Holds(v1) && w.Holds(v2) && slot.round > v1.gcRound && slot.round > v2.gcRound
    requires from in v1.blocks && from in v2.blocks && i <= |v1.blocks[from].ancestors|
    ensures v1.blocks[from] == v2.blocks[from]
    ensures FindAmong(v1, slot, from, i) == FindAmong(v2, slot, from, i)
    decreases from.round, |v1.blocks[from].ancestors| - i
  {
    if i < |v1.blocks[from].ancestors| {
      var ancestor := v1.blocks[from].ancestors[i];
      SupportAmongSameInViews(w, v1, v2, slot, from, i + 1);
      assert v1.EntryClosed(from) && v2.EntryClosed(from);
      if SlotOf(ancestor) != slot && ancestor.round > slot.round {
        SupportSameInViews(w, v1, v2, slot, ancestor);
      }
    }
  }

  /** A supported block is a block of the slot, strictly below, in the history and in the view. */
  lemma {:induction false} SupportedIsInHistory(v: View, slot: Slot, from: BlockRef)
    requires v.Closed() && slot.round > v.gcRound && from in v.blocks
    ensures FindSupported(v, slot, from).Some? ==>
              var b := FindSupported(v, slot, from).value;
              SlotOf(b) == slot && b in v.blocks && slot.round < from.round && Reaches(v.blocks, from, b)
    decreases from.round, |v.blocks[from].ancestors| + 1
  {
    if from.round >= slot.round {
      SupportedAmongIsInHistory(v, slot, from, 0);
    }
  }

  lemma {:induction false} SupportedAmongIsInHistory(v: View, slot: Slot, from: BlockRef, i: nat)
    requires v.Closed() && slot.round > v.gcRound && from in v.blocks && i <= |v.blocks[from].ancestors|
    ensures FindAmong(v, slot, from, i).Some? ==>
              var b := FindAmong(v, slot, from, i).value;
              SlotOf(b) == slot && b in v.blocks && slot.round < from.round && Reaches(v.blocks, from, b)
    decreases from.round, |v.blocks[from].ancestors| - i
  {
    if i < |v.blocks[from].ancestors| {
      var ancestor := v.blocks[from].ancestors[i];
      assert v.EntryClosed(from);
      SupportedAmongIsInHistory(v, slot, from, i + 1);
      if SlotOf(ancestor) == slot {
        assert Reaches(v.blocks, ancestor, ancestor);
      } else if ancestor.round > slot.round {
        SupportedIsInHistory(v, slot, ancestor);
      }
    }
  }

  lemma VotesSameInViews(w: World, v1: View, v2: View, cert: BlockRef, leader: BlockRef)
    requires w.Holds(v1) && w.Holds(v2) && leader.round > v1.gcRound && leader.round > v2.gcRound
    requires cert in v1.blocks && cert in v2.blocks
    ensures Votes(v1, cert, leader) <= Votes(v2, cert, leader)
  {
    forall a | a in Votes(v1, cert, leader) ensures a in Votes(v2, cert, leader) {
      SupportedIsInHistory(v1, SlotOf(leader), a);
      assert v2.EntryClosed(cert);
      SupportSameInViews(w, v1, v2, SlotOf(leader), a);
    }
  }

  lemma CertificateSameInViews(w: World, v1: View, v2: View, cert: BlockRef, leader: BlockRef)
    requires w.Holds(v1) && w.Holds(v2) && leader.round > v1.gcRound && leader.round > v2.gcRound
    requires cert in v1.blocks && cert in v2.blocks
    ensures IsCertificate(w.committee, v1, cert, leader) <==> IsCertificate(w.committee, v2, cert, leader)
  {
    VotesSameInViews(w, v1, v2, cert, leader);
    VotesSameInViews(w, v2, v1, cert, leader);
    assert Votes(v1, cert, leader) == Votes(v2, cert, leader);
  }

  /** A view that holds a certificate holds the certified leader. */
  lemma CertifiedLeaderInView(w: World, v: View, cert: BlockRef, leader: BlockRef)
    requires w.Sound() && w.Holds(v) && leader.round > v.gcRound && cert in v.blocks
    requires IsCertificate(w.committee, v, cert, leader)
    ensures leader in v.AtSlot(SlotOf(leader))
  {
    var author := QuorumHasHonest(w.committee, Authors(Votes(v, cert, leader)), w.faulty);
    var vote :| vote in Votes(v, cert, leader) && vote.author == author;
    SupportedIsInHistory(v, SlotOf(leader), vote);
  }

  // ---- At most one block per slot can be certified ----

  /** What an honest author supports it supports in every later block of its own. */
  lemma {:induction false} SupportPersists(w: World, v1: View, v2: View, slot: Slot, early: BlockRef, late: BlockRef)
    requires w.Sound() && w.HonestChains() && w.Holds(v1) && w.Holds(v2)
    requires slot.round > v1.gcRound && slot.round > v2.gcRound
    requires early in v1.blocks && late in v2.blocks
    requires early.author == late.author && early.author !in w.faulty && early.round <= late.round
    requires FindSupported(v1, slot, early).Some?
    ensures FindSupported(v2, slot, late) == FindSupported(v1, slot, early)
    decreases late.round
  {
    if early.round == late.round {
      assert w.NotEquivocating(early, late);
      SupportSameInViews(w, v1, v2, slot, early);
    } else {
      assert w.LinksTo(late, early) && w.Verified(late);
      var own := v2.blocks[late].ancestors[0];
      assert BlockVerifier.AncestorWellFormed(w.committee, w.genesis, v2.blocks[late], 0);
      SupportedIsInHistory(v1, slot, early);
      assert v2.EntryClosed(late);
      SupportPersists(w, v1, v2, slot, early, own);
    }
  }

  /** Certified leaders of a slot are unique over all views, for every wave length. */
  lemma CertifiedLeaderUnique(w: World, v1: View, v2: View, cert1: BlockRef, cert2: BlockRef, leader1: BlockRef,
      leader2: BlockRef)
    requires w.Sound() && w.HonestChains() && w.Holds(v1) && w.Holds(v2)
    requires SlotOf(leader1) == SlotOf(leader2) && leader1.round > v1.gcRound && leader2.round > v2.gcRound
    requires cert1 in v1.blocks && IsCertificate(w.committee, v1, cert1, leader1)
    requires cert2 in v2.blocks && IsCertificate(w.committee, v2, cert2, leader2)
    ensures leader1 == leader2
  {
    var author :=
      QuorumIntersection(w.committee, Authors(Votes(v1, cert1, leader1)), Authors(Votes(v2, cert2, leader2)), w.faulty);
    var vote1 :| vote1 in Votes(v1, cert1, leader1) && vote1.author == author;
    var vote2 :| vote2 in Votes(v2, cert2, leader2) && vote2.author == author;
    if vote1.round <= vote2.round {
      SupportPersists(w, v1, v2, SlotOf(leader1), vote1, vote2);
    } else {
      SupportPersists(w, v2, v1, SlotOf(leader1), vote2, vote1);
    }
  }

  /** Two leaders of one slot cannot both have enough direct support. */
  lemma SupportedLeaderUnique(w: World, v1: View, v2: View, leader1: BlockRef, leader2: BlockRef, decisionRound: Round)
    requires w.Sound() && w.HonestChains() && w.Holds(v1) && w.Holds(v2)
    requires SlotOf(leader1) == SlotOf(leader2) && leader1.round > v1.gcRound && leader2.round > v2.gcRound
    requires EnoughSupport(w.committee, v1, leader1, decisionRound)
    requires EnoughSupport(w.committee, v2, leader2, decisionRound)
    ensures leader1 == leader2
  {
    var cert1 := SupportHasCertificate(w, v1, leader1, decisionRound);
    var cert2 := SupportHasCertificate(w, v2, leader2, decisionRound);
    CertifiedLeaderUnique(w, v1, v2, cert1, cert2, leader1, leader2);
  }

  lemma SupportHasCertificate(w: World, v: View, leader: BlockRef, decisionRound: Round) returns (cert: BlockRef)
    requires w.Sound() && w.Holds(v) && leader.round > v.gcRound
    requires EnoughSupport(w.committee, v, leader, decisionRound)
    ensures cert in v.AtRound(decisionRound) && IsCertificate(w.committee, v, cert, leader)
  {
    var author := QuorumHasHonest(w.committee, Authors(Certificates(w.committee, v, leader, decisionRound)), w.faulty);
    cert :| cert in Certificates(w.committee, v, leader, decisionRound) && cert.author == author;
  }

  // ---- A direct commit binds every later anchor ----

  /**
   If one view has enough support for a leader, every block of any view above the decision round
   has a certificate for it in its history.
   */
  lemma DirectCommitReachesEveryAnchor(w: World, v1: View, v2: View, leader: BlockRef, decisionRound: Round,
      anchor: BlockRef)
    requires w.Sound() && w.Holds(v1) && w.Holds(v2)
    requires leader.round > v1.gcRound && leader.round > v2.gcRound
    requires leader.round < decisionRound < anchor.round && anchor in v2.blocks
    requires EnoughSupport(w.committee, v1, leader, decisionRound)
    ensures leader in v2.AtSlot(SlotOf(leader)) && CertifiedBelow(w.committee, v2, anchor, leader, decisionRound)
  {
    var certs, history := Certificates(w.committee, v1, leader, decisionRound), HistoryAt(v2, anchor, decisionRound);
    HistoryIsQuorum(w, v2, anchor, decisionRound);
    var author := QuorumIntersection(w.committee, Authors(certs), Authors(history), w.faulty);
    var cert :| cert in certs && cert.author == author;
    var other :| other in history && other.author == author;
    assert w.NotEquivocating(cert, other);
    CertificateSameInViews(w, v1, v2, cert, leader);
    CertifiedLeaderInView(w, v2, cert, leader);
  }

  /** So every anchor decides to commit exactly that leader. */
  lemma DirectCommitDecidesAnchors(w: World, v1: View, v2: View, leader: BlockRef, decisionRound: Round,
      anchor: BlockRef, s: LeaderStatus)
    requires w.Sound() && w.HonestChains() && w.Holds(v1) && w.Holds(v2)
    requires leader.round > v1.gcRound && leader.round > v2.gcRound
    requires leader.round < decisionRound < anchor.round && anchor in v2.blocks
    requires EnoughSupport(w.committee, v1, leader, decisionRound)
    ensures AnchorDecides(w.committee, v2, anchor, SlotOf(leader), decisionRound, s) <==> s == Commit(leader)
  {
    DirectCommitReachesEveryAnchor(w, v1, v2, leader, decisionRound, anchor);
    if AnchorDecides(w.committee, v2, anchor, SlotOf(leader), decisionRound, s) && s.Commit? {
      var cert1 := SupportHasCertificate(w, v1, leader, decisionRound);
      var cert2 :| cert2 in HistoryAt(v2, anchor, decisionRound) && IsCertificate(w.committee, v2, cert2, s.leader);
      CertifiedLeaderUnique(w, v1, v2, cert1, cert2, leader, s.leader);
    }
  }

  // ---- A direct skip excludes every certificate, for waves of three rounds ----

  lemma DirectSkipExcludesCertificates(w: World, v1: View, v2: View, cert: BlockRef, leader: BlockRef)
    requires w.Sound() && w.Holds(v1) && w.Holds(v2)
    requires leader.round > v2.gcRound
    requires EnoughBlame(w.committee, v1, SlotOf(leader))
    requires cert in v2.blocks && cert.round == leader.round + 2
    ensures !IsCertificate(w.committee, v2, cert, leader)
  {
    if IsCertificate(w.committee, v2, cert, leader) {
      var slot := SlotOf(leader);
      var author :=
        QuorumIntersection(w.committee, Authors(Blames(v1, slot)), Authors(Votes(v2, cert, leader)), w.faulty);
      var blame :| blame in Blames(v1, slot) && blame.author == author;
      var vote :| vote in Votes(v2, cert, leader) && vote.author == author;
      SupportedIsInHistory(v2, slot, vote);
      assert v2.EntryClosed(cert);
      assert w.NotEquivocating(blame, vote);
      SupportInVotingRound(v2, slot, vote, 0);
    }
  }

  /** In the round after the leader only a direct link is support. */
  lemma {:induction false} SupportInVotingRound(v: View, slot: Slot, vote: BlockRef, i: nat)
    requires v.Closed() && slot.round > v.gcRound && vote in v.blocks && vote.round == slot.round + 1
    requires i <= |v.blocks[vote].ancestors|
    ensures FindAmong(v, slot, vote, i).Some? ==> FindAmong(v, slot, vote, i).value in v.blocks[vote].ancestors[i..]
    decreases |v.blocks[vote].ancestors| - i
  {
    if i < |v.blocks[vote].ancestors| {
      assert v.EntryClosed(vote);
      assert v.blocks[vote].ancestors[i].round <= slot.round;
      SupportInVotingRound(v, slot, vote, i + 1);
    }
  }

  /** After a direct skip in one view, every anchor in every view decides to skip. */
  lemma DirectSkipDecidesAnchors(w: World, v1: View, v2: View, slot: Slot, anchor: BlockRef, s: LeaderStatus)
    requires w.Sound() && w.Holds(v1) && w.Holds(v2)
    requires slot.round > v2.gcRound
    requires EnoughBlame(w.committee, v1, slot)
    ensures AnchorDecides(w.committee, v2, anchor, slot, slot.round + 2, s) <==> s == Skip(slot)
  {
    forall b | b in v2.AtSlot(slot) ensures !CertifiedBelow(w.committee, v2, anchor, b, slot.round + 2) {
      forall cert | cert in HistoryAt(v2, anchor, slot.round + 2) ensures !IsCertificate(w.committee, v2, cert, b) {
        DirectSkipExcludesCertificates(w, v1, v2, cert, b);
      }
    }
  }

  // ---- Agreement ----

  /** Two statuses of one slot agree unless both are decided and differ. */
  predicate Agree(s1: LeaderStatus, s2: LeaderStatus) {
    s1.IsDecided() && s2.IsDecided() ==> s1 == s2
  }

  /** The same anchor decides the same in both views. */
  lemma AnchorDecidesSame(w: World, v1: View, v2: View, anchor: BlockRef, slot: Slot, decisionRound: Round,
      s1: LeaderStatus, s2: LeaderStatus)
    requires w.Sound() && w.HonestChains() && w.Holds(v1) && w.Holds(v2)
    requires slot.round > v1.gcRound && slot.round > v2.gcRound && decisionRound > slot.round
    requires anchor in v1.blocks && anchor in v2.blocks
    requires AnchorDecides(w.committee, v1, anchor, slot, decisionRound, s1)
    requires AnchorDecides(w.committee, v2, anchor, slot, decisionRound, s2)
    ensures s1 == s2
  {
    if s1.Commit? {
      CertifiedBelowSame(w, v1, v2, anchor, s1.leader, decisionRound);
      if s2.Commit? {
        var cert1 :| cert1 in HistoryAt(v1, anchor, decisionRound) && IsCertificate(w.committee, v1, cert1, s1.leader);
        var cert2 :| cert2 in HistoryAt(v2, anchor, decisionRound) && IsCertificate(w.committee, v2, cert2, s2.leader);
        CertifiedLeaderUnique(w, v1, v2, cert1, cert2, s1.leader, s2.leader);
      }
    } else if s2.Commit? {
      CertifiedBelowSame(w, v2, v1, anchor, s2.leader, decisionRound);
    }
  }

  lemma CertifiedBelowSame(w: World, v1: View, v2: View, anchor: BlockRef, leader: BlockRef, decisionRound: Round)
    requires w.Sound() && w.Holds(v1) && w.Holds(v2)
    requires leader.round > v1.gcRound && leader.round > v2.gcRound && decisionRound > leader.round
    requires anchor in v1.blocks && anchor in v2.blocks
    requires CertifiedBelow(w.committee, v1, anchor, leader, decisionRound)
    ensures leader in v2.AtSlot(SlotOf(leader)) && CertifiedBelow(w.committee, v2, anchor, leader, decisionRound)
  {
    var cert :| cert in HistoryAt(v1, anchor, decisionRound) && IsCertificate(w.committee, v1, cert, leader);
    ReachesSameInViews(w, v1, v2, anchor, cert);
    CertificateSameInViews(w, v1, v2, cert, leader);
    CertifiedLeaderInView(w, v2, cert, leader);
    assert cert in HistoryAt(v2, anchor, decisionRound);
  }

  lemma {:induction false} ReachesSameInViews(w: World, v1: View, v2: View, from: BlockRef, to: BlockRef)
    requires w.Holds(v1) && w.Holds(v2) && to.round > v1.gcRound && to.round > v2.gcRound
    requires from in v1.blocks && from in v2.blocks && Reaches(v1.blocks, from, to)
    ensures Reaches(v2.blocks, from, to) && to in v2.blocks
    decreases from.round
  {
    if from != to {
      var x :| x in v1.blocks[from].ancestors && x.round < from.round && Reaches(v1.blocks, x, to);
      ReachesDescends(v1.blocks, x, to);
      assert v1.EntryClosed(from) && v2.EntryClosed(from);
      ReachesSameInViews(w, v1, v2, x, to);
    }
  }

  /** What a decided status says of the slot it decides. */
  lemma DecidesOwnSlot(c: Committee, v: View, t: Target, later: seq<LeaderStatus>, s: LeaderStatus)
    requires v.Closed() && t.Valid() && t.slot.round > v.gcRound
    requires Decides(c, v, t, later, s)
    ensures s.Round() == t.slot.round && s.LeaderSlot() == t.slot
    ensures s.Commit? ==> s.leader in v.AtSlot(t.slot)
  {
    match FindAnchor(later, t.slot.round + t.options.waveLength) {
      case Some(_) =>
      case None =>
    }
  }

  /** The anchor is one of the later committed leaders, at the required round. */
  lemma {:induction false} AnchorIsCommitted(later: seq<LeaderStatus>, minRound: Round)
    ensures FindAnchor(later, minRound).Some? ==>
              FindAnchor(later, minRound).value.round >= minRound && Commit(FindAnchor(later, minRound).value) in later
    decreases |later|
  {
    if later != [] {
      AnchorIsCommitted(later[1..], minRound);
    }
  }

  /** Without an anchor, every committed leader at the required round comes after an undecided one there. */
  lemma {:induction false} NoAnchor(later: seq<LeaderStatus>, minRound: Round, q: nat) returns (k: nat)
    requires FindAnchor(later, minRound).None? && q < |later| && later[q].Commit? && later[q].Round() >= minRound
    ensures k < q && later[k].Undecided? && later[k].Round() >= minRound
    decreases |later|
  {
    if later[0].Undecided? && later[0].Round() >= minRound {
      k := 0;
    } else {
      k := NoAnchor(later[1..], minRound, q - 1);
      k := k + 1;
    }
  }

  /** If the later statuses agree, so do the anchors. One list may be longer than the other. */
  lemma {:induction false} AnchorsAgree(later1: seq<LeaderStatus>, later2: seq<LeaderStatus>, minRound: Round)
    requires |later1| <= |later2|
    requires forall i | 0 <= i < |later1| :: later1[i].Round() == later2[i].Round() && Agree(later1[i], later2[i])
    requires FindAnchor(later1, minRound).Some? && FindAnchor(later2, minRound).Some?
    ensures FindAnchor(later1, minRound) == FindAnchor(later2, minRound)
    decreases |later1|
  {
    assert later1[0].Round() == later2[0].Round() && Agree(later1[0], later2[0]);
    if later1[0].Round() < minRound || later1[0].Skip? {
      AnchorsAgree(later1[1..], later2[1..], minRound);
    }
  }

  /** Agreement on one slot, when the later slots agree. */
  lemma DecisionsAgree(w: World, v1: View, v2: View, t: Target, later1: seq<LeaderStatus>, later2: seq<LeaderStatus>,
      s1: LeaderStatus, s2: LeaderStatus)
    requires w.Sound() && w.HonestChains() && w.Holds(v1) && w.Holds(v2)
    requires t.Valid() && t.options.waveLength == 3 && t.slot.round > v1.gcRound && t.slot.round > v2.gcRound
    requires Decides(w.committee, v1, t, later1, s1) && Decides(w.committee, v2, t, later2, s2)
    requires forall b | Commit(b) in later1 :: b in v1.blocks
    requires forall b | Commit(b) in later2 :: b in v2.blocks
    requires |later1| <= |later2|
    requires forall i | 0 <= i < |later1| :: later1[i].Round() == later2[i].Round() && Agree(later1[i], later2[i])
    ensures Agree(s1, s2)
  {
    LeaderIsDecidedAtEndOfWave(t.options, t.slot.round);
    if s1.IsDecided() && s2.IsDecided() {
      var d := t.DecisionRound();
      var direct1 := DirectlyDecides(w.committee, v1, t.slot, d, s1);
      var direct2 := DirectlyDecides(w.committee, v2, t.slot, d, s2);
      AnchorIsCommitted(later1, t.slot.round + 3);
      AnchorIsCommitted(later2, t.slot.round + 3);
      if direct1 {
        DirectDecisionBinds(w, v1, v2, t, s1, later2, s2);
      } else if direct2 {
        DirectDecisionBinds(w, v2, v1, t, s2, later1, s1);
      } else {
        AnchorsAgree(later1, later2, t.slot.round + 3);
        var anchor := FindAnchor(later1, t.slot.round + 3).value;
        AnchorDecidesSame(w, v1, v2, anchor, t.slot, d, s1, s2);
      }
    }
  }

  /** A direct decision in one view binds any decision in another. */
  lemma DirectDecisionBinds(w: World, v1: View, v2: View, t: Target, s1: LeaderStatus, later2: seq<LeaderStatus>,
      s2: LeaderStatus)
    requires w.Sound() && w.HonestChains() && w.Holds(v1) && w.Holds(v2)
    requires t.Valid() && t.options.waveLength == 3 && t.slot.round > v1.gcRound && t.slot.round > v2.gcRound
    requires s1.IsDecided() && DirectlyDecides(w.committee, v1, t.slot, t.DecisionRound(), s1)
    requires s2.IsDecided() && Decides(w.committee, v2, t, later2, s2)
    requires forall b | Commit(b) in later2 :: b in v2.blocks
    ensures s1 == s2
  {
    LeaderIsDecidedAtEndOfWave(t.options, t.slot.round);
    var d := t.DecisionRound();
    if DirectlyDecides(w.committee, v2, t.slot, d, s2) {
      if s1.Commit? {
        var cert1 := SupportHasCertificate(w, v1, s1.leader, d);
        if s2.Commit? {
          SupportedLeaderUnique(w, v1, v2, s1.leader, s2.leader, d);
        } else {
          DirectSkipExcludesCertificates(w, v2, v1, cert1, s1.leader);
        }
      } else if s2.Commit? {
        var cert2 := SupportHasCertificate(w, v2, s2.leader, d);
        DirectSkipExcludesCertificates(w, v1, v2, cert2, s2.leader);
      }
    } else {
      AnchorIsCommitted(later2, t.slot.round + 3);
      var anchor := FindAnchor(later2, t.slot.round + 3).value;
      if s1.Commit? {
        DirectCommitDecidesAnchors(w, v1, v2, s1.leader, d, anchor, s2);
      } else {
        DirectSkipDecidesAnchors(w, v1, v2, t.slot, anchor, s2);
      }
    }
  }

  lemma StatusesCommitInView(c: Committee, v: View, targets: seq<Target>, statuses: seq<LeaderStatus>)
    requires v.Closed() && ValidTargets(v, targets) && DecidesAll(c, v, targets, statuses)
    ensures forall i | 0 <= i < |statuses| :: statuses[i].Round() == targets[i].slot.round
    ensures forall b | Commit(b) in statuses :: b in v.blocks
  {
    forall i | 0 <= i < |statuses|
      ensures statuses[i].Round() == targets[i].slot.round && (statuses[i].Commit? ==> statuses[i].leader in v.blocks)
    {
      assert DecidesAt(c, v, targets, statuses, i);
      DecidesOwnSlot(c, v, targets[i], statuses[i + 1..], statuses[i]);
    }
  }

  /**
   Agreement. Two validators run the rule over leader slots that start at the same slot; one may
   know more rounds than the other. Wherever both decide, they decide the same.
   */
  lemma {:induction false} Agreement(w: World, v1: View, v2: View, targets1: seq<Target>, targets2: seq<Target>,
                                     statuses1: seq<LeaderStatus>, statuses2: seq<LeaderStatus>)
    requires w.Sound() && w.HonestChains() && w.Holds(v1) && w.Holds(v2)
    requires targets1 <= targets2 && ValidTargets(v1, targets1) && ValidTargets(v2, targets2)
    requires forall t | t in targets1 :: t.options.waveLength == 3
    requires DecidesAll(w.committee, v1, targets1, statuses1)
    requires DecidesAll(w.committee, v2, targets2, statuses2)
    ensures forall i | 0 <= i < |targets1| :: Agree(statuses1[i], statuses2[i])
    decreases |targets1|
  {
    if targets1 != [] {
      var rest1, rest2 := statuses1[1..], statuses2[1..];
      DecidesTail(w.committee, v1, targets1, statuses1);
      DecidesTail(w.committee, v2, targets2, statuses2);
      Agreement(w, v1, v2, targets1[1..], targets2[1..], rest1, rest2);
      StatusesCommitInView(w.committee, v1, targets1[1..], rest1);
      StatusesCommitInView(w.committee, v2, targets2[1..], rest2);
      assert targets1[0] in targets1 && targets1[0] == targets2[0];
      DecisionsAgree(w, v1, v2, targets1[0], rest1, rest2, statuses1[0], statuses2[0]);
      forall i | 0 <= i < |targets1| ensures Agree(statuses1[i], statuses2[i]) {
        if i > 0 {
          assert Agree(rest1[i - 1], rest2[i - 1]);
        }
      }
    }
  }

  lemma DecidesTail(c: Committee, v: View, targets: seq<Target>, statuses: seq<LeaderStatus>)
    requires v.Closed() && ValidTargets(v, targets) && DecidesAll(c, v, targets, statuses) && targets != []
    ensures ValidTargets(v, targets[1..]) && DecidesAll(c, v, targets[1..], statuses[1..])
    ensures Decides(c, v, targets[0], statuses[1..], statuses[0])
  {
    assert DecidesAt(c, v, targets, statuses, 0);
    forall i | 0 <= i < |targets[1..]| ensures DecidesAt(c, v, targets[1..], statuses[1..], i) {
      assert DecidesAt(c, v, targets, statuses, i + 1);
      assert statuses[1..][i + 1..] == statuses[i + 2..];
    }
  }
}
