/**
 Progress of the commit rule: what a view has to show for a leader to be committed. Agreement alone would be met by
 a rule that never decides.
 */
module CommitLiveness {
  import opened Types
  import opened Committee
  import opened Views
  import opened CommitRule
  import opened CommitSafety
  import opened UniversalCommitter

  // ---- Support ----

  /** `from` has a block of `slot` below it. */
  ghost predicate HasBelow(v: View, slot: Slot, from: BlockRef) {
    exists b :: SlotOf(b) == slot && b != from && Reaches(v.blocks, from, b)
  }

  /** The depth-first search finds a block of the slot whenever the history has one. */
  lemma {:induction false} SupportIsFound(v: View, slot: Slot, from: BlockRef)
    requires v.Closed() && slot.round > v.gcRound && from in v.blocks
    ensures FindSupported(v, slot, from).Some? <==> HasBelow(v, slot, from)
    decreases from.round
  {
    SupportedIsInHistory(v, slot, from);
    if HasBelow(v, slot, from) {
      var b :| SlotOf(b) == slot && b != from && Reaches(v.blocks, from, b);
      var a :| a in v.blocks[from].ancestors && a.round < from.round && Reaches(v.blocks, a, b);
      ReachesDescends(v.blocks, a, b);
      assert v.EntryClosed(from);
      if a != b {
        assert HasBelow(v, slot, a);
        SupportIsFound(v, slot, a);
      }
      var k :| 0 <= k < |v.blocks[from].ancestors| && v.blocks[from].ancestors[k] == a;
      FoundFrom(v, slot, from, 0, k);
    }
  }

  /** The search stops at the latest at an ancestor that is of the slot or supports it. */
  lemma {:induction false} FoundFrom(v: View, slot: Slot, from: BlockRef, i: nat, k: nat)
    requires v.Closed() && slot.round > v.gcRound && from in v.blocks && i <= k < |v.blocks[from].ancestors|
    requires var a := v.blocks[from].ancestors[k];
             SlotOf(a) == slot || (a in v.blocks && a.round > slot.round && FindSupported(v, slot, a).Some?)
    ensures FindAmong(v, slot, from, i).Some?
    decreases k - i
  {
    assert v.EntryClosed(from);
    if i < k {
      FoundFrom(v, slot, from, i + 1, k);
    }
  }

  /** A block of the voting round votes for the one block of the slot it links. */
  lemma {:induction false} LinkIsVote(v: View, vote: BlockRef, leader: BlockRef)
    requires v.Closed() && leader.round > v.gcRound && vote in v.blocks && vote.round == leader.round + 1
    requires leader in v.blocks[vote].ancestors
    requires forall a | a in v.blocks[vote].ancestors && SlotOf(a) == SlotOf(leader) :: a == leader
    ensures IsVote(v, vote, leader)
  {
    var slot := SlotOf(leader);
    assert Reaches(v.blocks, leader, leader);
    assert v.EntryClosed(vote);
    assert HasBelow(v, slot, vote);
    SupportIsFound(v, slot, vote);
    SupportInVotingRound(v, slot, vote, 0);
    SupportedIsInHistory(v, slot, vote);
  }

  /**
   A leader linked by a quorum of the next round, in blocks of which a quorum of the round after that each link a
   quorum, has enough support.
   */
  lemma LinkedLeaderHasSupport(c: Committee, v: View, leader: BlockRef, votes: set<BlockRef>, certs: set<BlockRef>)
    requires v.Closed() && leader.round > v.gcRound
    requires votes <= v.AtRound(leader.round + 1) && certs <= v.AtRound(leader.round + 2)
    requires forall r | r in votes :: leader in v.blocks[r].ancestors
    requires forall r, a | r in votes && a in v.blocks[r].ancestors && SlotOf(a) == SlotOf(leader) :: a == leader
    requires forall r | r in certs ::
             c.ReachedQuorum(c.StakeOf(Authors(set a | a in v.blocks[r].ancestors && a in votes)))
    requires c.ReachedQuorum(c.StakeOf(Authors(certs)))
    ensures EnoughSupport(c, v, leader, leader.round + 2)
  {
    forall r | r in certs ensures IsCertificate(c, v, r, leader) {
      var linked := set a | a in v.blocks[r].ancestors && a in votes;
      forall a | a in linked ensures a in Votes(v, r, leader) {
        LinkIsVote(v, a, leader);
      }
      StakeMonotone(c, Authors(linked), Authors(Votes(v, r, leader)));
    }
    assert certs <= Certificates(c, v, leader, leader.round + 2);
    StakeMonotone(c, Authors(certs), Authors(Certificates(c, v, leader, leader.round + 2)));
  }

  // ---- Decisions ----

  /** A supported leader after the last decided slot is decided at once, and committed unless it is also blamed. */
  lemma SupportedLeaderIsDecided(w: World, v: View, s: Setup, last: Round, highest: Round,
      statuses: seq<LeaderStatus>, leader: BlockRef)
    returns (i: nat)
    requires w.Sound() && w.HonestChains() && w.Holds(v) && s.Valid() && v.gcRound <= last < leader.round
    requires ValidTargets(v, s.Targets(last + 1, Monus(highest, 2) + 1))
    requires DecidesAll(w.committee, v, s.Targets(last + 1, Monus(highest, 2) + 1), statuses)
    requires forall r | r in v.blocks :: r.round <= highest
    requires leader in v.blocks && leader.author == s.schedule(leader.round)
    requires s.pipeline || leader.round % s.waveLength == 0
    requires EnoughSupport(w.committee, v, leader, leader.round + s.waveLength - 1)
    ensures i < |statuses| && statuses[i].LeaderSlot() == SlotOf(leader)
    ensures statuses[i] == if EnoughBlame(w.committee, v, SlotOf(leader)) then Skip(SlotOf(leader)) else Commit(leader)
  {
    var lo, hi := last + 1, Monus(highest, 2) + 1;
    SupportIsHeld(w, v, leader, leader.round + s.waveLength - 1, highest);
    assert lo <= leader.round < hi;
    i := DecidedAt(w, v, s, lo, hi, statuses, leader);
  }

  lemma SupportIsHeld(w: World, v: View, leader: BlockRef, decisionRound: Round, highest: Round)
    requires w.Sound() && w.Holds(v) && leader.round > v.gcRound
    requires EnoughSupport(w.committee, v, leader, decisionRound)
    requires forall r | r in v.blocks :: r.round <= highest
    ensures decisionRound <= highest
    ensures leader.round + 2 <= decisionRound ==> leader.round < Monus(highest, 2) + 1
  {
    var cert := SupportHasCertificate(w, v, leader, decisionRound);
  }

  lemma DecidedAt(w: World, v: View, s: Setup, lo: Round, hi: Round, statuses: seq<LeaderStatus>, leader: BlockRef)
    returns (i: nat)
    requires w.Sound() && w.HonestChains() && w.Holds(v) && s.Valid() && v.gcRound < lo <= leader.round < hi
    requires ValidTargets(v, s.Targets(lo, hi)) && DecidesAll(w.committee, v, s.Targets(lo, hi), statuses)
    requires leader in v.blocks && leader.author == s.schedule(leader.round)
    requires s.pipeline || leader.round % s.waveLength == 0
    requires EnoughSupport(w.committee, v, leader, leader.round + s.waveLength - 1)
    ensures i < |statuses| && statuses[i].LeaderSlot() == SlotOf(leader)
    ensures statuses[i] == if EnoughBlame(w.committee, v, SlotOf(leader)) then Skip(SlotOf(leader)) else Commit(leader)
  {
    i := StatusAt(w.committee, v, s, lo, hi, statuses, leader.round);
    var targets := s.Targets(lo, hi);
    DecidedRound(s, lo, hi, i);
    StatusIs(w, v, targets, statuses, i, leader);
  }

  lemma StatusIs(w: World, v: View, targets: seq<Target>, statuses: seq<LeaderStatus>, i: nat, leader: BlockRef)
    requires w.Sound() && w.HonestChains() && w.Holds(v) && ValidTargets(v, targets)
    requires DecidesAll(w.committee, v, targets, statuses) && i < |targets|
    requires leader in v.blocks && SlotOf(leader) == targets[i].slot
    requires EnoughSupport(w.committee, v, leader, targets[i].DecisionRound())
    ensures statuses[i] == if EnoughBlame(w.committee, v, SlotOf(leader)) then Skip(SlotOf(leader)) else Commit(leader)
  {
    assert DecidesAt(w.committee, v, targets, statuses, i);
    DecidesDirectly(w, v, targets[i], statuses[i + 1..], statuses[i], leader);
  }

  lemma DecidedRound(s: Setup, lo: Round, hi: Round, i: nat)
    requires s.Valid() && i < |s.Targets(lo, hi)|
    ensures var t := s.Targets(lo, hi)[i]; t.Valid() && t.DecisionRound() == t.slot.round + s.waveLength - 1
  {
    var t := s.Targets(lo, hi)[i];
    TargetsValid(s, lo, hi);
    assert t in s.Targets(lo, hi);
    LeaderIsDecidedAtEndOfWave(t.options, t.slot.round);
  }

  /** The direct rule decides the slot of a supported leader. */
  lemma DecidesDirectly(w: World, v: View, t: Target, later: seq<LeaderStatus>, status: LeaderStatus, leader: BlockRef)
    requires w.Sound() && w.HonestChains() && w.Holds(v) && t.Valid() && t.slot.round > v.gcRound
    requires Decides(w.committee, v, t, later, status)
    requires leader in v.AtSlot(t.slot) && EnoughSupport(w.committee, v, leader, t.DecisionRound())
    ensures status == if EnoughBlame(w.committee, v, t.slot) then Skip(t.slot) else Commit(leader)
  {
    if status.Commit? && EnoughSupport(w.committee, v, status.leader, t.DecisionRound()) {
      if SlotOf(status.leader) == SlotOf(leader) {
        SupportedLeaderUnique(w, v, v, leader, status.leader, t.DecisionRound());
      }
    }
  }

  /** With the wave length in use a supported leader is never blamed: it is committed. */
  lemma SupportedLeaderIsCommitted(w: World, v: View, s: Setup, last: Round, highest: Round,
      statuses: seq<LeaderStatus>, leader: BlockRef)
    returns (i: nat)
    requires w.Sound() && w.HonestChains() && w.Holds(v) && s.Valid() && v.gcRound <= last < leader.round
    requires s.waveLength == 3
    requires ValidTargets(v, s.Targets(last + 1, Monus(highest, 2) + 1))
    requires DecidesAll(w.committee, v, s.Targets(last + 1, Monus(highest, 2) + 1), statuses)
    requires forall r | r in v.blocks :: r.round <= highest
    requires leader in v.blocks && leader.author == s.schedule(leader.round)
    requires s.pipeline || leader.round % 3 == 0
    requires EnoughSupport(w.committee, v, leader, leader.round + 2)
    ensures i < |statuses| && statuses[i] == Commit(leader)
  {
    i := SupportedLeaderIsDecided(w, v, s, last, highest, statuses, leader);
    if EnoughBlame(w.committee, v, SlotOf(leader)) {
      var cert := SupportHasCertificate(w, v, leader, leader.round + 2);
      DirectSkipExcludesCertificates(w, v, v, cert, leader);
    }
  }

  lemma StretchIsDecided(w: World, v: View, s: Setup, last: Round, highest: Round, statuses: seq<LeaderStatus>,
      leaders: map<Round, BlockRef>, end: Round)
    requires w.Sound() && w.HonestChains() && w.Holds(v) && s.Valid() && v.gcRound <= last && s.waveLength == 3
    requires ValidTargets(v, s.Targets(last + 1, Monus(highest, 2) + 1))
    requires DecidesAll(w.committee, v, s.Targets(last + 1, Monus(highest, 2) + 1), statuses)
    requires forall r | r in v.blocks :: r.round <= highest
    requires forall r | last < r <= end && (s.pipeline || r % 3 == 0) ::
             && r in leaders && leaders[r] in v.AtSlot(Slot(r, s.schedule(r)))
             && EnoughSupport(w.committee, v, leaders[r], r + 2)
    ensures forall k | 0 <= k < |statuses| && statuses[k].Round() <= end :: statuses[k].IsDecided()
    ensures forall i, j | 0 <= i < j < |statuses| :: statuses[i].Round() < statuses[j].Round()
  {
    StatusesCover(w.committee, v, s, last + 1, Monus(highest, 2) + 1, statuses);
    forall k | 0 <= k < |statuses| && statuses[k].Round() <= end ensures statuses[k].IsDecided() {
      SupportedStatus(w, v, s, last, highest, statuses, leaders[statuses[k].Round()], k);
    }
  }

  /**
   The decided leaders that the rule outputs reach at least to the end of every stretch of slots after the last
   decided one that all have a supported leader.
   */
  lemma SupportedLeadersAreOutput(w: World, v: View, s: Setup, last: Round, highest: Round,
      statuses: seq<LeaderStatus>, decided: seq<LeaderStatus>, leaders: map<Round, BlockRef>, end: Round)
    requires w.Sound() && w.HonestChains() && w.Holds(v) && s.Valid() && v.gcRound <= last && s.waveLength == 3
    requires ValidTargets(v, s.Targets(last + 1, Monus(highest, 2) + 1))
    requires DecidesAll(w.committee, v, s.Targets(last + 1, Monus(highest, 2) + 1), statuses)
    requires forall r | r in v.blocks :: r.round <= highest
    requires forall r | last < r <= end && (s.pipeline || r % 3 == 0) ::
             && r in leaders && leaders[r] in v.AtSlot(Slot(r, s.schedule(r)))
             && EnoughSupport(w.committee, v, leaders[r], r + 2)
    requires IsDecidedPrefix(statuses, decided)
    ensures forall r | last < r <= end && (s.pipeline || r % 3 == 0) :: Commit(leaders[r]) in decided
  {
    StretchIsDecided(w, v, s, last, highest, statuses, leaders, end);
    forall r | last < r <= end && (s.pipeline || r % 3 == 0) ensures Commit(leaders[r]) in decided {
      var i := SupportedLeaderIsCommitted(w, v, s, last, highest, statuses, leaders[r]);
      PrefixReaches(statuses, decided, i);
    }
  }

  /** A leader slot that a quorum of the next round does not link is skipped. */
  lemma UnlinkedSlotIsSkipped(c: Committee, v: View, s: Setup, lo: Round, hi: Round, statuses: seq<LeaderStatus>,
      i: nat, blames: set<BlockRef>)
    requires s.Valid() && v.Closed() && ValidTargets(v, s.Targets(lo, hi))
    requires DecidesAll(c, v, s.Targets(lo, hi), statuses) && i < |statuses|
    requires blames <= v.AtRound(statuses[i].Round() + 1) && c.ReachedQuorum(c.StakeOf(Authors(blames)))
    requires forall r, a | r in blames && a in v.blocks[r].ancestors :: a.author != statuses[i].LeaderSlot().authority
    ensures statuses[i] == Skip(statuses[i].LeaderSlot())
  {
    var targets := s.Targets(lo, hi);
    StatusSlots(c, v, targets, statuses);
    assert blames <= Blames(v, targets[i].slot);
    StakeMonotone(c, Authors(blames), Authors(Blames(v, targets[i].slot)));
    assert DecidesAt(c, v, targets, statuses, i);
  }

  lemma SupportedStatus(w: World, v: View, s: Setup, last: Round, highest: Round, statuses: seq<LeaderStatus>,
      leader: BlockRef, k: nat)
    requires w.Sound() && w.HonestChains() && w.Holds(v) && s.Valid() && v.gcRound <= last < leader.round
    requires s.waveLength == 3
    requires ValidTargets(v, s.Targets(last + 1, Monus(highest, 2) + 1))
    requires DecidesAll(w.committee, v, s.Targets(last + 1, Monus(highest, 2) + 1), statuses)
    requires forall r | r in v.blocks :: r.round <= highest
    requires leader in v.blocks && leader.author == s.schedule(leader.round)
    requires s.pipeline || leader.round % 3 == 0
    requires EnoughSupport(w.committee, v, leader, leader.round + 2)
    requires k < |statuses| && statuses[k].Round() == leader.round
    ensures statuses[k] == Commit(leader)
  {
    var i := SupportedLeaderIsCommitted(w, v, s, last, highest, statuses, leader);
    StatusesCover(w.committee, v, s, last + 1, Monus(highest, 2) + 1, statuses);
  }

  /** The decided prefix holds an entry when all entries up to it are decided. */
  lemma PrefixReaches(statuses: seq<LeaderStatus>, decided: seq<LeaderStatus>, i: nat)
    requires IsDecidedPrefix(statuses, decided) && i < |statuses|
    requires forall k | 0 <= k <= i :: statuses[k].IsDecided()
    ensures statuses[i] in decided
  {
    assert i < |decided|;
    assert decided[i] == statuses[i];
  }
}
