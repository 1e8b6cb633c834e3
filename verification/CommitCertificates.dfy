/**
 A committed leader is certified in the history of the first leader committed three rounds or more above it,
 by a certificate that the view which decided it holds.
 */
module CommitCertificates {
  import opened Types
  import opened Committee
  import opened Views
  import opened CommitRule
  import opened CommitSafety
  import opened UniversalCommitter
  import opened TotalOrder

  /** Enough support in one view meets the history of every later block of another in a certificate. */
  lemma SupportMeetsHistory(w: World, v1: View, v2: View, leader: BlockRef, decisionRound: Round, anchor: BlockRef)
    returns (cert: BlockRef)
    requires w.Sound() && w.Holds(v1) && w.Holds(v2)
    requires leader.round > v1.gcRound && leader.round > v2.gcRound
    requires leader.round < decisionRound < anchor.round && anchor in v2.blocks
    requires EnoughSupport(w.committee, v1, leader, decisionRound)
    ensures cert in v1.blocks && cert in HistoryAt(v2, anchor, decisionRound)
    ensures IsCertificate(w.committee, v2, cert, leader)
  {
    var certs, history := Certificates(w.committee, v1, leader, decisionRound), HistoryAt(v2, anchor, decisionRound);
    HistoryIsQuorum(w, v2, anchor, decisionRound);
    var author := QuorumIntersection(w.committee, Authors(certs), Authors(history), w.faulty);
    cert :| cert in certs && cert.author == author;
    var other :| other in history && other.author == author;
    assert w.NotEquivocating(cert, other);
    CertificateSameInViews(w, v1, v2, cert, leader);
  }

  // ---- The anchor is the first leader committed three rounds above ----

  /** Before the anchor, every status from the required round on is a skip. */
  lemma {:induction false} AnchorPosition(later: seq<LeaderStatus>, minRound: Round) returns (q: nat)
    requires FindAnchor(later, minRound).Some?
    ensures q < |later| && later[q] == Commit(FindAnchor(later, minRound).value) && later[q].Round() >= minRound
    ensures forall k | 0 <= k < q :: later[k].Round() < minRound || later[k].Skip?
    decreases |later|
  {
    if later[0].Round() >= minRound && later[0].Commit? {
      q := 0;
    } else {
      var rest := AnchorPosition(later[1..], minRound);
      q := rest + 1;
      forall k | 0 <= k < q ensures later[k].Round() < minRound || later[k].Skip? {
        assert k > 0 ==> later[1..][k - 1] == later[k];
      }
    }
  }

  /** Where the log decides on the target of its `p`th entry and on those after it. */
  lemma LogFrom(w: World, s: Setup, runs: seq<View>, log: seq<LeaderStatus>, p: nat, q: nat, hi: Round)
    requires s.Valid() && IsLog(w, s, runs, log) && p + q < |log|
    ensures var t := s.Targets(1, NextRound(log));
            && |t| == |log| && t[p].slot.round == log[p].Round() && log[p + q].Round() == t[p + q].slot.round
            && Justified(w, s, t[p + q], log[p + q])
            && (q < |s.Targets(log[p].Round(), hi)| ==> s.Targets(log[p].Round(), hi)[q] == t[p + q])
  {
    LogsAreJustified(w, s, runs, log);
    var t, round := s.Targets(1, NextRound(log)), log[p].Round();
    assert JustifiedAt(w, s, t, log, p) && JustifiedAt(w, s, t, log, p + q);
    TargetsFrom(s, 1, NextRound(log), p);
    assert t[p..][q] == t[p + q];
    var end := NextRound(log);
    if hi <= end {
      TargetsSplitAt(s, round, hi, end);
    } else {
      TargetsSplitAt(s, round, end, hi);
    }
  }

  lemma TargetsSplitAt(s: Setup, lo: Round, mid: Round, hi: Round)
    requires s.Valid() && mid <= hi
    ensures s.Targets(lo, mid) <= s.Targets(lo, hi)
  {
    if lo <= mid {
      TargetsSplit(s, lo, mid, hi);
    }
  }

  /** What a view has decided along with the entry is what the log says. */
  lemma LogHasDecision(w: World, s: Setup, runs: seq<View>, log: seq<LeaderStatus>, p: nat, q: nat, v: View, hi: Round,
      statuses: seq<LeaderStatus>, t: Target)
    requires w.Sound() && w.HonestChains() && s.Valid() && s.waveLength == 3 && IsLog(w, s, runs, log)
    requires p + q < |log| && t.slot.round == log[p].Round() && JustifiedBy(w, s, t, log[p], v, hi, statuses)
    requires q < |statuses| && statuses[q].IsDecided()
    ensures log[p + q] == statuses[q]
  {
    var round := log[p].Round();
    LogFrom(w, s, runs, log, p, q, hi);
    DecidedIsJustified(w, s, v, round, hi, statuses, q);
    JustifiedAgree(w, s, s.Targets(round, hi)[q], statuses[q], log[p + q]);
  }

  lemma {:induction false} LeaderPosition(log: seq<LeaderStatus>, i: nat) returns (p: nat)
    requires i < |CommittedLeaders(log)|
    ensures p < |log| && log[p] == Commit(CommittedLeaders(log)[i])
    decreases |log|
  {
    var n := |log| - 1;
    if i < |CommittedLeaders(log[..n])| {
      p := LeaderPosition(log[..n], i);
    } else {
      p := n;
    }
  }

  lemma {:induction false} LeaderIndex(log: seq<LeaderStatus>, p: nat) returns (k: nat)
    requires p < |log| && log[p].Commit?
    ensures k < |CommittedLeaders(log)| && CommittedLeaders(log)[k] == log[p].leader
    decreases |log|
  {
    var n := |log| - 1;
    if p < n {
      k := LeaderIndex(log[..n], p);
    } else {
      k := |CommittedLeaders(log[..n])|;
    }
  }

  /** `d` is the first leader committed at least three rounds above that of `i`. */
  ghost predicate IsFirstAbove(leaders: seq<BlockRef>, i: nat, d: nat) {
    && i < d < |leaders| && leaders[d].round >= leaders[i].round + 3
    && forall k | i <= k < d :: leaders[k].round < leaders[i].round + 3
  }

  lemma NoneBetween(leaders: seq<BlockRef>, i: nat, d: nat, k: nat)
    requires Rises(leaders) && IsFirstAbove(leaders, i, d) && k < |leaders| && leaders[k].round >= leaders[i].round + 3
    ensures k == d || leaders[k].round > leaders[d].round
  {
    assert leaders[k].round >= leaders[i].round + 3;
  }

  /** The anchor does not come after the first leader above. */
  lemma AnchorIsNotLater(w: World, s: Setup, runs: seq<View>, log: seq<LeaderStatus>, p: nat, pd: nat, q: nat, v: View,
      hi: Round, statuses: seq<LeaderStatus>, t: Target, minRound: Round)
    requires w.Sound() && w.HonestChains() && s.Valid() && s.waveLength == 3 && IsLog(w, s, runs, log)
    requires p < pd < |log| && t.slot.round == log[p].Round() && JustifiedBy(w, s, t, log[p], v, hi, statuses)
    requires q < |statuses[1..]| && log[pd].Commit? && log[pd].Round() >= minRound
    requires forall k | 0 <= k < q :: statuses[1..][k].Round() < minRound || statuses[1..][k].Skip?
    ensures p + 1 + q <= pd
  {
    if pd < p + 1 + q {
      var k := pd - p;
      assert statuses[1..][k - 1] == statuses[k];
      SkipInLog(w, s, runs, log, p, k, v, hi, statuses, t, minRound);
    }
  }

  /** After entry `p`, `pd` is the first to commit a leader of `minRound` or later. */
  ghost predicate IsNextAbove(log: seq<LeaderStatus>, p: nat, pd: nat, minRound: Round) {
    && p < pd < |log| && log[pd].Commit? && log[pd].Round() >= minRound
    && forall k | p < k < pd && log[k].Commit? :: log[k].Round() < minRound
  }

  lemma FirstAbovePosition(log: seq<LeaderStatus>, i: nat, d: nat, p: nat) returns (pd: nat)
    requires forall x, y | 0 <= x < y < |log| :: log[x].Round() < log[y].Round()
    requires Rises(CommittedLeaders(log)) && IsFirstAbove(CommittedLeaders(log), i, d)
    requires p < |log| && log[p] == Commit(CommittedLeaders(log)[i])
    ensures IsNextAbove(log, p, pd, log[p].Round() + 3) && log[pd].leader == CommittedLeaders(log)[d]
  {
    pd := LeaderPosition(log, d);
    forall k | p < k < pd && log[k].Commit? ensures log[k].Round() < log[p].Round() + 3 {
      var m := LeaderIndex(log, k);
      if log[k].Round() >= log[p].Round() + 3 {
        NoneBetween(CommittedLeaders(log), i, d, m);
      }
    }
  }

  /** The log has the anchor by which a view has decided one of its entries. */
  lemma AnchorInLog(w: World, s: Setup, runs: seq<View>, log: seq<LeaderStatus>, p: nat, pd: nat, v: View, hi: Round,
      statuses: seq<LeaderStatus>, t: Target, minRound: Round, q: nat)
    requires w.Sound() && w.HonestChains() && s.Valid() && s.waveLength == 3 && IsLog(w, s, runs, log)
    requires IsNextAbove(log, p, pd, minRound)
    requires t.slot.round == log[p].Round() && JustifiedBy(w, s, t, log[p], v, hi, statuses)
    requires q < |statuses[1..]| && statuses[1..][q].Commit? && statuses[1..][q].Round() >= minRound
    requires forall k | 0 <= k < q :: statuses[1..][k].Round() < minRound || statuses[1..][k].Skip?
    ensures statuses[1..][q] == log[pd]
  {
    AnchorIsNotLater(w, s, runs, log, p, pd, q, v, hi, statuses, t, minRound);
    assert statuses[1..][q] == statuses[q + 1];
    LogHasDecision(w, s, runs, log, p, q + 1, v, hi, statuses, t);
    NextAboveIs(log, p, pd, minRound, p + q + 1);
  }

  lemma NextAboveIs(log: seq<LeaderStatus>, p: nat, pd: nat, minRound: Round, k: nat)
    requires IsNextAbove(log, p, pd, minRound) && p < k <= pd && log[k].Commit? && log[k].Round() >= minRound
    ensures k == pd
  {}

  lemma AnchorIsNext(w: World, s: Setup, runs: seq<View>, log: seq<LeaderStatus>, p: nat, pd: nat, v: View, hi: Round,
      statuses: seq<LeaderStatus>, t: Target, minRound: Round, anchor: BlockRef)
    requires w.Sound() && w.HonestChains() && s.Valid() && s.waveLength == 3 && IsLog(w, s, runs, log)
    requires IsNextAbove(log, p, pd, minRound)
    requires t.slot.round == log[p].Round() && JustifiedBy(w, s, t, log[p], v, hi, statuses)
    requires FindAnchor(statuses[1..], minRound) == Some(anchor)
    ensures log[pd].leader == anchor
  {
    var q := AnchorPosition(statuses[1..], minRound);
    AnchorInLog(w, s, runs, log, p, pd, v, hi, statuses, t, minRound, q);
  }

  lemma LogFirstAbove(w: World, s: Setup, runs: seq<View>, log: seq<LeaderStatus>, i: nat, d: nat, p: nat)
    returns (pd: nat)
    requires s.Valid() && IsLog(w, s, runs, log)
    requires IsFirstAbove(CommittedLeaders(log), i, d) && p < |log| && log[p] == Commit(CommittedLeaders(log)[i])
    ensures IsNextAbove(log, p, pd, log[p].Round() + 3) && log[pd].leader == CommittedLeaders(log)[d]
  {
    LogLeadersRise(w, s, runs, log);
    LogRises(w, s, runs, log);
    pd := FirstAbovePosition(log, i, d, p);
  }

  /** The anchor by which a view has decided a leader. */
  lemma AnchorIsFirstAbove(w: World, s: Setup, runs: seq<View>, log: seq<LeaderStatus>, i: nat, d: nat, p: nat, v: View,
      hi: Round, statuses: seq<LeaderStatus>, t: Target, anchor: BlockRef)
    requires w.Sound() && w.HonestChains() && s.Valid() && s.waveLength == 3 && IsLog(w, s, runs, log)
    requires IsFirstAbove(CommittedLeaders(log), i, d) && p < |log| && log[p] == Commit(CommittedLeaders(log)[i])
    requires t.slot.round == log[p].Round() && JustifiedBy(w, s, t, log[p], v, hi, statuses)
    requires FindAnchor(statuses[1..], log[p].Round() + 3) == Some(anchor)
    ensures anchor == CommittedLeaders(log)[d]
  {
    var pd := LogFirstAbove(w, s, runs, log, i, d, p);
    AnchorIsNext(w, s, runs, log, p, pd, v, hi, statuses, t, log[p].Round() + 3, anchor);
  }

  /** No leader is committed in the log where the view has skipped. */
  lemma SkipInLog(w: World, s: Setup, runs: seq<View>, log: seq<LeaderStatus>, p: nat, q: nat, v: View, hi: Round,
      statuses: seq<LeaderStatus>, t: Target, minRound: Round)
    requires w.Sound() && w.HonestChains() && s.Valid() && s.waveLength == 3 && IsLog(w, s, runs, log)
    requires p + q < |log| && t.slot.round == log[p].Round() && JustifiedBy(w, s, t, log[p], v, hi, statuses)
    requires q < |statuses| && (statuses[q].Round() < minRound || statuses[q].Skip?)
    ensures log[p + q].Round() < minRound || log[p + q].Skip?
  {
    if statuses[q].Skip? {
      LogHasDecision(w, s, runs, log, p, q, v, hi, statuses, t);
    } else {
      LogFrom(w, s, runs, log, p, q, hi);
      StatusesCommitInView(w.committee, v, s.Targets(log[p].Round(), hi), statuses);
    }
  }

  /**
   Whichever view decided the leader holds a certificate of it that the first leader committed three rounds above
   has in its history.
   */
  lemma DeciderHoldsCertificate(w: World, s: Setup, runs: seq<View>, log: seq<LeaderStatus>, i: nat, d: nat, p: nat,
      v: View, hi: Round, statuses: seq<LeaderStatus>, t: Target, v2: View)
    returns (cert: BlockRef)
    requires w.Sound() && w.HonestChains() && s.Valid() && s.waveLength == 3 && IsLog(w, s, runs, log)
    requires IsFirstAbove(CommittedLeaders(log), i, d) && p < |log| && log[p] == Commit(CommittedLeaders(log)[i])
    requires t.slot.round == log[p].Round() && JustifiedBy(w, s, t, log[p], v, hi, statuses)
    requires w.Holds(v2) && CommittedLeaders(log)[d] in v2.blocks && CommittedLeaders(log)[i].round > v2.gcRound
    ensures cert in v.blocks && cert in HistoryAt(v2, CommittedLeaders(log)[d], CommittedLeaders(log)[i].round + 2)
    ensures IsCertificate(w.committee, v2, cert, CommittedLeaders(log)[i])
  {
    DecidedByAnchor(w, s, runs, log, i, d, p, v, hi, statuses, t);
    cert := CertificateInBoth(w, v, v2, CommittedLeaders(log)[d], CommittedLeaders(log)[i]);
  }

  /** The view supports the leader itself, or has a certificate of it below the first leader above. */
  ghost predicate CertifiedBy(c: Committee, v: View, anchor: BlockRef, leader: BlockRef)
    requires v.Closed() && leader.round > v.gcRound
  {
    || EnoughSupport(c, v, leader, leader.round + 2)
    || (anchor in v.blocks && CertifiedBelow(c, v, anchor, leader, leader.round + 2))
  }

  lemma DecidedByAnchor(w: World, s: Setup, runs: seq<View>, log: seq<LeaderStatus>, i: nat, d: nat, p: nat, v: View,
      hi: Round, statuses: seq<LeaderStatus>, t: Target)
    requires w.Sound() && w.HonestChains() && s.Valid() && s.waveLength == 3 && IsLog(w, s, runs, log)
    requires IsFirstAbove(CommittedLeaders(log), i, d) && p < |log| && log[p] == Commit(CommittedLeaders(log)[i])
    requires t.slot.round == log[p].Round() && JustifiedBy(w, s, t, log[p], v, hi, statuses)
    ensures CertifiedBy(w.committee, v, CommittedLeaders(log)[d], CommittedLeaders(log)[i])
  {
    HowDecided(w, s, t, log[p].leader, v, hi, statuses);
    match FindAnchor(statuses[1..], log[p].Round() + 3) {
      case Some(anchor) => AnchorIsFirstAbove(w, s, runs, log, i, d, p, v, hi, statuses, t, anchor);
      case None =>
    }
  }

  lemma CertificateInBoth(w: World, v: View, v2: View, anchor: BlockRef, leader: BlockRef) returns (cert: BlockRef)
    requires w.Sound() && w.Holds(v) && w.Holds(v2) && leader.round > v.gcRound && leader.round > v2.gcRound
    requires CertifiedBy(w.committee, v, anchor, leader) && anchor in v2.blocks && anchor.round >= leader.round + 3
    ensures cert in v.blocks && cert in HistoryAt(v2, anchor, leader.round + 2)
    ensures IsCertificate(w.committee, v2, cert, leader)
  {
    if EnoughSupport(w.committee, v, leader, leader.round + 2) {
      cert := SupportMeetsHistory(w, v, v2, leader, leader.round + 2, anchor);
    } else {
      cert := AnchorCertificate(w, v, v2, anchor, leader);
    }
  }

  /** A committed leader has support in the view, or a certificate below the anchor. */
  lemma HowDecided(w: World, s: Setup, t: Target, leader: BlockRef, v: View, hi: Round, statuses: seq<LeaderStatus>)
    requires s.Valid() && s.waveLength == 3 && JustifiedBy(w, s, t, Commit(leader), v, hi, statuses)
    ensures leader in v.AtSlot(t.slot) && leader.round > v.gcRound
    ensures EnoughSupport(w.committee, v, leader, leader.round + 2) ||
            match FindAnchor(statuses[1..], leader.round + 3)
            case Some(anchor) => anchor in v.blocks && CertifiedBelow(w.committee, v, anchor, leader, leader.round + 2)
            case None => false
  {
    var targets := s.Targets(t.slot.round, hi);
    TargetsValid(s, t.slot.round, hi);
    assert targets[0] in targets && DecidesAt(w.committee, v, targets, statuses, 0);
    LeaderIsDecidedAtEndOfWave(t.options, t.slot.round);
    DecidesOwnSlot(w.committee, v, t, statuses[1..], Commit(leader));
    if FindAnchor(statuses[1..], leader.round + 3).Some? {
      StatusesCommitInView(w.committee, v, targets, statuses);
      var q := AnchorPosition(statuses[1..], leader.round + 3);
      assert statuses[1..][q] == statuses[q + 1];
    }
  }

  lemma AnchorCertificate(w: World, v: View, v2: View, anchor: BlockRef, leader: BlockRef) returns (cert: BlockRef)
    requires w.Sound() && w.Holds(v) && w.Holds(v2) && leader.round > v.gcRound && leader.round > v2.gcRound
    requires anchor in v.blocks && anchor in v2.blocks
    requires CertifiedBelow(w.committee, v, anchor, leader, leader.round + 2)
    ensures cert in v.blocks && cert in HistoryAt(v2, anchor, leader.round + 2)
    ensures IsCertificate(w.committee, v2, cert, leader)
  {
    cert :| cert in HistoryAt(v, anchor, leader.round + 2) && IsCertificate(w.committee, v, cert, leader);
    ReachesSameInViews(w, v, v2, anchor, cert);
    CertificateSameInViews(w, v, v2, cert, leader);
  }
}
