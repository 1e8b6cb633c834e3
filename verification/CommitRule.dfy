/**
 The commit rule as plain definitions over one view: votes, certificates, blames, and what the
 direct and indirect rules decide about a leader slot. Stake is counted over sets of authors.
 */
module CommitRule {
  import opened Types
  import opened Committee
  import opened Views

  /** Options of one base committer. */
  datatype Options = Options(waveLength: nat, leaderOffset: nat, roundOffset: nat)
  {
    predicate Valid() {
      waveLength >= 3
    }

    function LeaderRound(wave: nat): Round {
      wave * waveLength + roundOffset
    }

    function DecisionRound(wave: nat): Round
      requires Valid()
    {
      wave * waveLength + waveLength - 1 + roundOffset
    }

    function WaveNumber(round: Round): nat
      requires Valid()
    {
      (if round < roundOffset then 0 else round - roundOffset) / waveLength
    }

    /** The committer elects a leader only in the first round of a wave. */
    predicate LeadsRound(round: Round)
      requires Valid()
    {
      LeaderRound(WaveNumber(round)) == round
    }
  }

  /** A round is led by a committer in the first round of a wave, and decided in its last. */
  lemma LeaderIsDecidedAtEndOfWave(o: Options, round: Round)
    requires o.Valid()
    ensures o.LeadsRound(round) <==> round >= o.roundOffset && (round - o.roundOffset) % o.waveLength == 0
    ensures o.LeadsRound(round) ==> o.DecisionRound(o.WaveNumber(round)) == round + o.waveLength - 1
  {
    if round >= o.roundOffset {
      var q, m := (round - o.roundOffset) / o.waveLength, (round - o.roundOffset) % o.waveLength;
      assert round - o.roundOffset == q * o.waveLength + m;
    } else {
      assert o.WaveNumber(round) == 0;
    }
  }

  /**
   The block of `slot` supported by `from`: the first one met in a depth-first search that follows
   ancestors in the order the block lists them. The view must hold what the search reads.
   */
  function FindSupported(v: View, slot: Slot, from: BlockRef): Option<BlockRef>
    requires v.Closed() && slot.round > v.gcRound && from in v.blocks
    decreases from.round, |v.blocks[from].ancestors| + 1
  {
    if from.round < slot.round then None else FindAmong(v, slot, from, 0)
  }

  function FindAmong(v: View, slot: Slot, from: BlockRef, i: nat): Option<BlockRef>
    requires v.Closed() && slot.round > v.gcRound && from in v.blocks && i <= |v.blocks[from].ancestors|
    decreases from.round, |v.blocks[from].ancestors| - i
  {
    if i == |v.blocks[from].ancestors| then None
    else
      var ancestor := v.blocks[from].ancestors[i];
      assert v.EntryClosed(from);
      if SlotOf(ancestor) == slot then Some(ancestor)
      else if ancestor.round <= slot.round then FindAmong(v, slot, from, i + 1)
      else
        match FindSupported(v, slot, ancestor)
        case Some(support) => Some(support)
        case None => FindAmong(v, slot, from, i + 1)
  }

  predicate IsVote(v: View, vote: BlockRef, leader: BlockRef)
    requires v.Closed() && leader.round > v.gcRound && vote in v.blocks
  {
    FindSupported(v, SlotOf(leader), vote) == Some(leader)
  }

  /** Votes for `leader` among the ancestors of `cert`. */
  function Votes(v: View, cert: BlockRef, leader: BlockRef): set<BlockRef>
    requires v.Closed() && leader.round > v.gcRound && cert in v.blocks
  {
    set a | a in v.blocks[cert].ancestors && a in v.blocks && IsVote(v, a, leader)
  }

  predicate IsCertificate(c: Committee, v: View, cert: BlockRef, leader: BlockRef)
    requires v.Closed() && leader.round > v.gcRound && cert in v.blocks
  {
    c.IsQuorum(Authors(Votes(v, cert, leader)))
  }

  function Certificates(c: Committee, v: View, leader: BlockRef, decisionRound: Round): set<BlockRef>
    requires v.Closed() && leader.round > v.gcRound
  {
    set r | r in v.AtRound(decisionRound) && IsCertificate(c, v, r, leader)
  }

  predicate EnoughSupport(c: Committee, v: View, leader: BlockRef, decisionRound: Round)
    requires v.Closed() && leader.round > v.gcRound
  {
    c.IsQuorum(Authors(Certificates(c, v, leader, decisionRound)))
  }

  predicate IsBlame(b: Block, leader: Author) {
    forall a | a in b.ancestors :: a.author != leader
  }

  function Blames(v: View, slot: Slot): set<BlockRef> {
    set r | r in v.AtRound(slot.round + 1) && IsBlame(v.blocks[r], slot.authority)
  }

  predicate EnoughBlame(c: Committee, v: View, slot: Slot) {
    c.IsQuorum(Authors(Blames(v, slot)))
  }

  /** `s` is what the direct rule says about `slot`. */
  ghost predicate DirectlyDecides(c: Committee, v: View, slot: Slot, decisionRound: Round, s: LeaderStatus)
    requires v.Closed() && slot.round > v.gcRound
  {
    match s
    case Skip(t) => t == slot && EnoughBlame(c, v, slot)
    case Commit(b) => !EnoughBlame(c, v, slot) && b in v.AtSlot(slot) && EnoughSupport(c, v, b, decisionRound)
    case Undecided(t) =>
      && t == slot && !EnoughBlame(c, v, slot)
      && forall b | b in v.AtSlot(slot) :: !EnoughSupport(c, v, b, decisionRound)
  }

  /** `leader` has a certificate in its decision round that the anchor reaches. */
  ghost predicate CertifiedBelow(c: Committee, v: View, anchor: BlockRef, leader: BlockRef, decisionRound: Round)
    requires v.Closed() && leader.round > v.gcRound
  {
    exists cert | cert in HistoryAt(v, anchor, decisionRound) :: IsCertificate(c, v, cert, leader)
  }

  /** `s` is what a committed anchor says about `slot`. */
  ghost predicate AnchorDecides(c: Committee, v: View, anchor: BlockRef, slot: Slot, decisionRound: Round,
      s: LeaderStatus)
    requires v.Closed() && slot.round > v.gcRound
  {
    match s
    case Commit(b) => b in v.AtSlot(slot) && CertifiedBelow(c, v, anchor, b, decisionRound)
    case Skip(t) => t == slot && forall b | b in v.AtSlot(slot) :: !CertifiedBelow(c, v, anchor, b, decisionRound)
    case Undecided(_) => false
  }

  /**
   The anchor: the first committed leader at round `minRound` or later, provided only skipped
   leaders precede it there.
   */
  function FindAnchor(later: seq<LeaderStatus>, minRound: Round): Option<BlockRef> {
    if later == [] then None
    else if later[0].Round() < minRound then FindAnchor(later[1..], minRound)
    else
      match later[0]
      case Commit(b) => Some(b)
      case Skip(_) => FindAnchor(later[1..], minRound)
      case Undecided(_) => None
  }

  ghost predicate IndirectlyDecides(c: Committee, v: View, slot: Slot, waveLength: nat, decisionRound: Round,
                                    later: seq<LeaderStatus>, s: LeaderStatus)
    requires v.Closed() && slot.round > v.gcRound
  {
    match FindAnchor(later, slot.round + waveLength)
    case Some(anchor) => AnchorDecides(c, v, anchor, slot, decisionRound, s)
    case None => s == Undecided(slot)
  }

  /** A leader slot together with the committer that decides it. */
  datatype Target = Target(slot: Slot, options: Options)
  {
    predicate Valid() {
      options.Valid() && options.LeadsRound(slot.round)
    }

    function DecisionRound(): Round
      requires options.Valid()
    {
      options.DecisionRound(options.WaveNumber(slot.round))
    }
  }

  /** The direct rule, then the indirect rule when the direct one leaves the slot undecided. */
  ghost predicate Decides(c: Committee, v: View, t: Target, later: seq<LeaderStatus>, s: LeaderStatus)
    requires v.Closed() && t.Valid() && t.slot.round > v.gcRound
  {
    || (s.IsDecided() && DirectlyDecides(c, v, t.slot, t.DecisionRound(), s))
    || (&& DirectlyDecides(c, v, t.slot, t.DecisionRound(), Undecided(t.slot))
        && IndirectlyDecides(c, v, t.slot, t.options.waveLength, t.DecisionRound(), later, s))
  }

  predicate ValidTargets(v: View, targets: seq<Target>) {
    forall i | 0 <= i < |targets| :: targets[i].Valid() && targets[i].slot.round > v.gcRound
  }

  /** Statuses of consecutive leader slots, each decided with the statuses after it. */
  ghost predicate DecidesAll(c: Committee, v: View, targets: seq<Target>, statuses: seq<LeaderStatus>)
    requires v.Closed() && ValidTargets(v, targets)
  {
    && |statuses| == |targets|
    && forall i {:trigger DecidesAt(c, v, targets, statuses, i)} | 0 <= i < |targets| ::
      DecidesAt(c, v, targets, statuses, i)
  }

  ghost predicate DecidesAt(c: Committee, v: View, targets: seq<Target>, statuses: seq<LeaderStatus>, i: nat)
    requires v.Closed() && ValidTargets(v, targets) && i < |targets| == |statuses|
  {
    Decides(c, v, targets[i], statuses[i + 1..], statuses[i])
  }
}
