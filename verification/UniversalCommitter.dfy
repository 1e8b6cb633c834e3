/**
 The driver of the commit rule (`UniversalCommitter`): statuses of consecutive leader slots are
 computed from the highest round down, and the longest decided prefix is output. Over whole runs,
 the decisions of any two validators extend one another.
 */
module UniversalCommitter {
  import opened Types
  import opened Committee
  import opened Views
  import opened CommitRule
  import opened CommitSafety
  import opened BaseCommitter

  /** One leader per round; `schedule` elects it and is shared by all validators. */
  datatype Setup = Setup(waveLength: nat, pipeline: bool, schedule: Round -> Author)
  {
    predicate Valid() {
      waveLength >= 3
    }

    /** The builder: one committer per stage of the pipeline. */
    function Committers(): seq<Options> {
      if pipeline then seq(waveLength, (i: nat) => Options(waveLength, 0, i)) else [Options(waveLength, 0, 0)]
    }

    /** Leader slots of a round, in the order of the first `n` committers. */
    function RoundTargets(round: Round, n: nat): seq<Target>
      requires Valid() && n <= |Committers()|
    {
      if n == 0 then []
      else
        var o := Committers()[n - 1];
        RoundTargets(round, n - 1) + if o.LeadsRound(round) then [Target(Slot(round, schedule(round)), o)] else []
    }

    /** Leader slots of the rounds `lo`, ..., `hi - 1` in ascending order. */
    function Targets(lo: Round, hi: Round): seq<Target>
      requires Valid()
      decreases hi - lo
    {
      if lo >= hi then [] else RoundTargets(lo, |Committers()|) + Targets(lo + 1, hi)
    }
  }

  // ---- The enumeration of leader slots ----

  /** Leader slots of a round are valid targets in that round, and there is at most one. */
  lemma {:induction false} RoundTargetsValid(s: Setup, round: Round, n: nat)
    requires s.Valid() && n <= |s.Committers()|
    ensures forall t | t in s.RoundTargets(round, n) ::
            t.Valid() && t.slot == Slot(round, s.schedule(round)) && t.options.waveLength == s.waveLength
    ensures |s.RoundTargets(round, n)| <= 1
    ensures s.pipeline ==> |s.RoundTargets(round, n)| == if round % s.waveLength < n then 1 else 0
    decreases n
  {
    if n > 0 {
      RoundTargetsValid(s, round, n - 1);
      var o := s.Committers()[n - 1];
      LeaderIsDecidedAtEndOfWave(o, round);
      if s.pipeline {
        StageOfRound(round, n - 1, s.waveLength);
      }
    }
  }

  /** The same without the counts. */
  lemma RoundTargetsAre(s: Setup, round: Round)
    requires s.Valid()
    ensures forall t | t in s.RoundTargets(round, |s.Committers()|) ::
            t.Valid() && t.slot == Slot(round, s.schedule(round)) && t.options.waveLength == s.waveLength
    ensures |s.RoundTargets(round, |s.Committers()|)| <= 1
  {
    RoundTargetsValid(s, round, |s.Committers()|);
  }

  /** Without a pipeline the one committer leads the first round of each wave. */
  lemma WaveTargets(s: Setup, round: Round)
    requires s.Valid() && !s.pipeline
    ensures |s.RoundTargets(round, 1)| == if round % s.waveLength == 0 then 1 else 0
  {
    LeaderIsDecidedAtEndOfWave(s.Committers()[0], round);
    assert s.RoundTargets(round, 0) == [];
  }

  /** Exactly one stage of the pipeline leads each round. */
  lemma StageOfRound(round: nat, stage: nat, w: nat)
    requires 0 <= stage < w
    ensures (round >= stage && (round - stage) % w == 0) <==> round % w == stage
  {
    if round >= stage && (round - stage) % w == 0 {
      RemainderOf(round, w, (round - stage) / w, stage);
    }
    if round % w == stage {
      RemainderOf(round - stage, w, round / w, 0);
    }
  }

  /** The remainder is what is left over a multiple, if that is small enough. */
  lemma RemainderOf(x: nat, w: nat, q: int, m: nat)
    requires 0 <= m < w && x == q * w + m
    ensures x % w == m
  {
    DivisionUnique(w, x / w, x % w, q, m);
  }

  lemma DivisionUnique(w: nat, q1: int, m1: int, q2: int, m2: int)
    requires w > 0 && q1 * w + m1 == q2 * w + m2 && 0 <= m1 < w && 0 <= m2 < w
    ensures m1 == m2
  {
    assert (q1 - q2) * w == m2 - m1 && (q2 - q1) * w == m1 - m2;
    if q1 > q2 {
      ProductGrows(q1 - q2, w);
    } else if q1 < q2 {
      ProductGrows(q2 - q1, w);
    }
  }

  lemma {:induction false} ProductGrows(d: nat, w: nat)
    requires d >= 1
    ensures d * w >= w
    decreases d
  {
    if d > 1 {
      ProductGrows(d - 1, w);
      assert d * w == (d - 1) * w + w;
    }
  }

  lemma {:induction false} TargetsValid(s: Setup, lo: Round, hi: Round)
    requires s.Valid()
    ensures forall t | t in s.Targets(lo, hi) ::
            t.Valid() && lo <= t.slot.round < hi && t.options.waveLength == s.waveLength
    decreases hi - lo
  {
    if lo < hi {
      RoundTargetsAre(s, lo);
      TargetsValid(s, lo + 1, hi);
    }
  }

  lemma {:induction false} TargetScheduled(s: Setup, lo: Round, hi: Round, t: Target)
    requires s.Valid() && t in s.Targets(lo, hi)
    ensures t.slot == Slot(t.slot.round, s.schedule(t.slot.round))
    decreases hi - lo
  {
    RoundTargetsAre(s, lo);
    if t !in s.RoundTargets(lo, |s.Committers()|) {
      TargetScheduled(s, lo + 1, hi, t);
    }
  }

  lemma {:induction false} TargetsSplit(s: Setup, lo: Round, mid: Round, hi: Round)
    requires s.Valid() && lo <= mid <= hi
    ensures s.Targets(lo, hi) == s.Targets(lo, mid) + s.Targets(mid, hi)
    decreases mid - lo
  {
    if lo < mid {
      TargetsSplit(s, lo + 1, mid, hi);
    }
  }

  lemma RiseCons(here: seq<Target>, rest: seq<Target>, lo: Round)
    requires |here| <= 1 && (forall t | t in here :: t.slot.round == lo) && (forall t | t in rest :: t.slot.round > lo)
    requires forall i, j | 0 <= i < j < |rest| :: rest[i].slot.round < rest[j].slot.round
    ensures forall i, j | 0 <= i < j < |here + rest| :: (here + rest)[i].slot.round < (here + rest)[j].slot.round
  {
    var all := here + rest;
    forall i, j | 0 <= i < j < |all| ensures all[i].slot.round < all[j].slot.round {
      assert all[j] == rest[j - |here|] && rest[j - |here|] in rest;
      if i < |here| {
        assert all[i] == here[i] && here[i] in here;
      } else {
        assert all[i] == rest[i - |here|];
      }
    }
  }

  /** Leader slots come one per round, in rising order. */
  lemma {:induction false} TargetsRise(s: Setup, lo: Round, hi: Round)
    requires s.Valid()
    ensures forall i, j | 0 <= i < j < |s.Targets(lo, hi)| ::
            s.Targets(lo, hi)[i].slot.round < s.Targets(lo, hi)[j].slot.round
    decreases hi - lo
  {
    if lo < hi {
      RoundTargetsAre(s, lo);
      TargetsValid(s, lo + 1, hi);
      TargetsRise(s, lo + 1, hi);
      TargetsFront(s, lo, hi);
      RiseCons(s.RoundTargets(lo, |s.Committers()|), s.Targets(lo + 1, hi), lo);
    }
  }

  predicate HasSlot(targets: seq<Target>, slot: Slot) {
    exists i | 0 <= i < |targets| :: targets[i].slot == slot
  }

  lemma HasSlotConcat(front: seq<Target>, rest: seq<Target>, slot: Slot)
    ensures HasSlot(front + rest, slot) <==> HasSlot(front, slot) || HasSlot(rest, slot)
  {
    var all := front + rest;
    if HasSlot(rest, slot) {
      var i :| 0 <= i < |rest| && rest[i].slot == slot;
      assert all[|front| + i].slot == slot;
    }
    if HasSlot(front, slot) {
      var i :| 0 <= i < |front| && front[i].slot == slot;
      assert all[i].slot == slot;
    }
  }

  lemma RoundHasSlot(s: Setup, lo: Round, round: Round)
    requires s.Valid()
    ensures HasSlot(s.RoundTargets(lo, |s.Committers()|), Slot(round, s.schedule(round))) <==>
            lo == round && (s.pipeline || round % s.waveLength == 0)
  {
    var here := s.RoundTargets(lo, |s.Committers()|);
    RoundTargetsValid(s, lo, |s.Committers()|);
    if !s.pipeline {
      WaveTargets(s, lo);
    }
    if here != [] {
      assert here[0] in here;
    }
  }

  /** The rounds with a leader slot: all of them in a pipeline, else every `waveLength`th. */
  lemma {:induction false} TargetRounds(s: Setup, lo: Round, hi: Round, round: Round)
    requires s.Valid()
    ensures HasSlot(s.Targets(lo, hi), Slot(round, s.schedule(round))) <==>
            lo <= round < hi && (s.pipeline || round % s.waveLength == 0)
    decreases hi - lo
  {
    if lo < hi {
      TargetRounds(s, lo + 1, hi, round);
      RoundHasSlot(s, lo, round);
      TargetsFront(s, lo, hi);
      HasSlotConcat(s.RoundTargets(lo, |s.Committers()|), s.Targets(lo + 1, hi), Slot(round, s.schedule(round)));
    }
  }

  lemma AfterFront<T>(here: seq<T>, rest: seq<T>, k: nat)
    requires k < |rest|
    ensures (here + rest)[|here| + k..] == rest[k..] && (here + rest)[..|here| + k] == here + rest[..k]
    ensures (here + rest)[|here| + k] == rest[k]
  {}

  lemma FromRest(s: Setup, lo: Round, hi: Round, here: seq<Target>, rest: seq<Target>, k: nat, round: Round)
    requires s.Valid() && lo < round && here == s.RoundTargets(lo, |s.Committers()|) && k < |rest|
    requires rest[k..] == s.Targets(round, hi) && rest[..k] == s.Targets(lo + 1, round)
    ensures (here + rest)[|here| + k..] == s.Targets(round, hi) && (here + rest)[..|here| + k] == s.Targets(lo, round)
  {
    AfterFront(here, rest, k);
    TargetsFront(s, lo, round);
  }

  /** The slots from one of them on are the slots from its round on. */
  lemma {:induction false} TargetsFrom(s: Setup, lo: Round, hi: Round, j: nat)
    requires s.Valid() && j < |s.Targets(lo, hi)|
    ensures s.Targets(lo, hi)[j..] == s.Targets(s.Targets(lo, hi)[j].slot.round, hi)
    ensures s.Targets(lo, hi)[..j] == s.Targets(lo, s.Targets(lo, hi)[j].slot.round)
    decreases hi - lo
  {
    var here, rest := s.RoundTargets(lo, |s.Committers()|), s.Targets(lo + 1, hi);
    RoundTargetsAre(s, lo);
    TargetsFront(s, lo, hi);
    var all := s.Targets(lo, hi);
    if j < |here| {
      assert here[j] in here && all[j] == here[j];
      assert all[..0] == [] && all[0..] == all;
    } else {
      var k := j - |here|;
      TargetsFrom(s, lo + 1, hi, k);
      TargetsValid(s, lo + 1, hi);
      assert rest[k] in rest && all[j] == rest[k];
      FromRest(s, lo, hi, here, rest, k, rest[k].slot.round);
    }
  }

  lemma TargetsFront(s: Setup, lo: Round, hi: Round)
    requires s.Valid() && lo < hi
    ensures s.Targets(lo, hi) == s.RoundTargets(lo, |s.Committers()|) + s.Targets(lo + 1, hi)
  {}

  /** The first slot from its round on is the only one of that round. */
  lemma FirstOfRound(s: Setup, round: Round, hi: Round)
    requires s.Valid() && s.Targets(round, hi) != [] && s.Targets(round, hi)[0].slot.round == round
    ensures s.Targets(round, round + 1) == [s.Targets(round, hi)[0]]
  {
    var here, rest := s.RoundTargets(round, |s.Committers()|), s.Targets(round + 1, hi);
    RoundTargetsAre(s, round);
    TargetsValid(s, round + 1, hi);
    var first := s.Targets(round, hi)[0];
    assert first in here || first in rest;
    assert s.Targets(round + 1, round + 1) == [] && here + [] == here;
  }

  /** The slots up to one of them are the slots up to its round. */
  lemma TargetsThrough(s: Setup, lo: Round, hi: Round, j: nat)
    requires s.Valid() && j < |s.Targets(lo, hi)|
    ensures s.Targets(lo, hi)[..j + 1] == s.Targets(lo, s.Targets(lo, hi)[j].slot.round + 1)
  {
    var all := s.Targets(lo, hi);
    var round := all[j].slot.round;
    TargetsFrom(s, lo, hi, j);
    TargetsValid(s, lo, hi);
    assert all[j] in all;
    assert all[j..][0] == all[j];
    FirstOfRound(s, round, hi);
    TargetsSplit(s, lo, round, round + 1);
    assert all[..j + 1] == all[..j] + [all[j]];
  }

  // ---- The driver ----

  /** `r` is the longest prefix of decided leaders. */
  predicate IsDecidedPrefix(statuses: seq<LeaderStatus>, r: seq<LeaderStatus>) {
    && r <= statuses
    && (forall i | 0 <= i < |r| :: r[i].IsDecided())
    && (|r| < |statuses| ==> !statuses[|r|].IsDecided())
  }

  /** Decides one slot: the direct rule, then the indirect rule. */
  method Decide(ghost w: World, c: Committee, v: View, t: Target, later: seq<LeaderStatus>)
    returns (status: LeaderStatus)
    requires w.Sound() && w.HonestChains() && w.Holds(v) && w.committee == c
    requires t.Valid() && t.slot.round > v.gcRound
    requires forall b | Commit(b) in later :: b in v.blocks
    ensures Decides(c, v, t, later, status)
  {
    LeaderIsDecidedAtEndOfWave(t.options, t.slot.round);
    status := TryDirectDecide(w, c, v, t.slot, t.DecisionRound());
    if !status.IsDecided() {
      status := TryIndirectDecide(w, c, v, t.slot, t.options.waveLength, t.DecisionRound(), later);
    }
  }

  lemma DecidesAllCons(c: Committee, v: View, t: Target, s: LeaderStatus, targets: seq<Target>,
      statuses: seq<LeaderStatus>)
    requires v.Closed() && t.Valid() && t.slot.round > v.gcRound
    requires ValidTargets(v, targets) && DecidesAll(c, v, targets, statuses) && Decides(c, v, t, statuses, s)
    ensures ValidTargets(v, [t] + targets) && DecidesAll(c, v, [t] + targets, [s] + statuses)
  {
    var ts, ss := [t] + targets, [s] + statuses;
    forall i | 0 <= i < |ts| ensures DecidesAt(c, v, ts, ss, i) {
      if i == 0 {
        assert ss[1..] == statuses;
      } else {
        assert DecidesAt(c, v, targets, statuses, i - 1);
        assert ss[i + 1..] == statuses[i - 1 + 1..];
      }
    }
  }

  /** Decides one more slot in front of those already decided. */
  method DecideNext(ghost w: World, c: Committee, v: View, t: Target, ghost targets: seq<Target>,
      later: seq<LeaderStatus>)
    returns (leaders: seq<LeaderStatus>)
    requires w.Sound() && w.HonestChains() && w.Holds(v) && w.committee == c && t.Valid() && t.slot.round > v.gcRound
    requires ValidTargets(v, targets) && DecidesAll(c, v, targets, later)
    ensures ValidTargets(v, [t] + targets) && DecidesAll(c, v, [t] + targets, leaders)
  {
    StatusesCommitInView(c, v, targets, later);
    var status := Decide(w, c, v, t, later);
    DecidesAllCons(c, v, t, status, targets, later);
    leaders := [status] + later;
  }

  lemma RoundTargetsTurn(s: Setup, round: Round, n: nat, targets: seq<Target>)
    requires s.Valid() && n < |s.Committers()|
    ensures var o := s.Committers()[n];
            s.RoundTargets(round, n + 1) + targets ==
            s.RoundTargets(round, n) +
              if o.LeadsRound(round) then [Target(Slot(round, s.schedule(round)), o)] + targets else targets
  {}

  /** Decides the leader slots of one round, given the statuses of the later ones. */
  method DecideRound(ghost w: World, c: Committee, v: View, s: Setup, round: Round, ghost laterTargets: seq<Target>,
      later: seq<LeaderStatus>)
    returns (leaders: seq<LeaderStatus>)
    requires w.Sound() && w.HonestChains() && w.Holds(v) && w.committee == c && s.Valid() && round > v.gcRound
    requires ValidTargets(v, laterTargets) && DecidesAll(c, v, laterTargets, later)
    ensures ValidTargets(v, s.RoundTargets(round, |s.Committers()|) + laterTargets)
    ensures DecidesAll(c, v, s.RoundTargets(round, |s.Committers()|) + laterTargets, leaders)
  {
    leaders := later;
    var n := |s.Committers()|;
    ghost var all := s.RoundTargets(round, n) + laterTargets;
    ghost var targets := laterTargets;
    while n > 0
      invariant 0 <= n <= |s.Committers()|
      invariant s.RoundTargets(round, n) + targets == all
      invariant ValidTargets(v, targets) && DecidesAll(c, v, targets, leaders)
    {
      n := n - 1;
      RoundTargetsTurn(s, round, n, targets);
      var o := s.Committers()[n];
      if o.LeadsRound(round) {
        var t := Target(Slot(round, s.schedule(round)), o);
        leaders := DecideNext(w, c, v, t, targets, leaders);
        targets := [t] + targets;
      }
    }
    assert s.RoundTargets(round, 0) + targets == targets;
  }

  method TakeDecided(leaders: seq<LeaderStatus>) returns (decided: seq<LeaderStatus>)
    ensures IsDecidedPrefix(leaders, decided)
  {
    decided := [];
    while |decided| < |leaders| && leaders[|decided|].IsDecided()
      invariant |decided| <= |leaders| && decided <= leaders
      invariant forall i | 0 <= i < |decided| :: decided[i].IsDecided()
      decreases |leaders| - |decided|
    {
      decided := decided + [leaders[|decided|]];
    }
  }

  lemma StatusSlots(c: Committee, v: View, targets: seq<Target>, statuses: seq<LeaderStatus>)
    requires v.Closed() && ValidTargets(v, targets) && DecidesAll(c, v, targets, statuses)
    ensures |statuses| == |targets|
    ensures forall i | 0 <= i < |statuses| ::
            statuses[i].LeaderSlot() == targets[i].slot && statuses[i].Round() == targets[i].slot.round
  {
    forall i | 0 <= i < |statuses|
      ensures statuses[i].LeaderSlot() == targets[i].slot && statuses[i].Round() == targets[i].slot.round
    {
      assert DecidesAt(c, v, targets, statuses, i);
      DecidesOwnSlot(c, v, targets[i], statuses[i + 1..], statuses[i]);
    }
  }

  /** There is a status for every leader slot of the rounds `lo`, ..., `hi - 1`. */
  lemma StatusAt(c: Committee, v: View, s: Setup, lo: Round, hi: Round, statuses: seq<LeaderStatus>, r: Round)
    returns (i: nat)
    requires s.Valid() && v.Closed() && ValidTargets(v, s.Targets(lo, hi))
    requires DecidesAll(c, v, s.Targets(lo, hi), statuses)
    requires lo <= r < hi && (s.pipeline || r % s.waveLength == 0)
    ensures i < |statuses| == |s.Targets(lo, hi)| && statuses[i].LeaderSlot() == Slot(r, s.schedule(r))
    ensures s.Targets(lo, hi)[i].slot == Slot(r, s.schedule(r))
  {
    TargetRounds(s, lo, hi, r);
    StatusSlots(c, v, s.Targets(lo, hi), statuses);
    i :| 0 <= i < |s.Targets(lo, hi)| && s.Targets(lo, hi)[i].slot == Slot(r, s.schedule(r));
  }

  /** The statuses are those of the leader slots of the rounds `lo`, ..., `hi - 1`, in ascending order. */
  lemma StatusesCover(c: Committee, v: View, s: Setup, lo: Round, hi: Round, statuses: seq<LeaderStatus>)
    requires s.Valid() && v.Closed() && ValidTargets(v, s.Targets(lo, hi))
    requires DecidesAll(c, v, s.Targets(lo, hi), statuses)
    ensures forall i | 0 <= i < |statuses| :: var r := statuses[i].Round();
            && lo <= r < hi && (s.pipeline || r % s.waveLength == 0)
            && statuses[i].LeaderSlot() == Slot(r, s.schedule(r))
    ensures forall i, j | 0 <= i < j < |statuses| :: statuses[i].Round() < statuses[j].Round()
  {
    var targets := s.Targets(lo, hi);
    TargetsRise(s, lo, hi);
    StatusSlots(c, v, targets, statuses);
    forall i | 0 <= i < |statuses|
      ensures var r := targets[i].slot.round;
              && lo <= r < hi && (s.pipeline || r % s.waveLength == 0) && targets[i].slot == Slot(r, s.schedule(r))
    {
      assert targets[i] in targets;
      TargetScheduled(s, lo, hi, targets[i]);
      TargetRounds(s, lo, hi, targets[i].slot.round);
    }
  }

  /** A slot stays undecided only if an undecided one comes before each committed leader from the next wave on. */
  lemma UndecidedIsBlocked(c: Committee, v: View, s: Setup, lo: Round, hi: Round, statuses: seq<LeaderStatus>, i: nat,
      q: nat)
    returns (k: nat)
    requires s.Valid() && v.Closed() && ValidTargets(v, s.Targets(lo, hi))
    requires DecidesAll(c, v, s.Targets(lo, hi), statuses) && i < q < |statuses|
    requires statuses[i].Undecided? && statuses[q].Commit?
    requires statuses[q].Round() >= statuses[i].Round() + s.waveLength
    ensures i < k < q && statuses[k].Undecided? && statuses[k].Round() >= statuses[i].Round() + s.waveLength
  {
    var t, later := s.Targets(lo, hi)[i], statuses[i + 1..];
    TargetsValid(s, lo, hi);
    assert t in s.Targets(lo, hi);
    assert DecidesAt(c, v, s.Targets(lo, hi), statuses, i);
    DecidesOwnSlot(c, v, t, later, statuses[i]);
    k := NoAnchor(later, t.slot.round + s.waveLength, q - (i + 1));
    k := k + i + 1;
  }

  /** No slot is undecided for which there is an anchor among the later ones. */
  ghost predicate NoneAnchored(statuses: seq<LeaderStatus>, waveLength: nat) {
    forall i, q | 0 <= i < q < |statuses| && statuses[i].Undecided? && statuses[q].Commit? ::
      statuses[q].Round() >= statuses[i].Round() + waveLength ==>
        exists k | i < k < q :: statuses[k].Undecided? && statuses[k].Round() >= statuses[i].Round() + waveLength
  }

  lemma UndecidedAreBlocked(c: Committee, v: View, s: Setup, lo: Round, hi: Round, statuses: seq<LeaderStatus>)
    requires s.Valid() && v.Closed() && ValidTargets(v, s.Targets(lo, hi))
    requires DecidesAll(c, v, s.Targets(lo, hi), statuses)
    ensures NoneAnchored(statuses, s.waveLength)
  {
    forall i, q | 0 <= i < q < |statuses| && statuses[i].Undecided? && statuses[q].Commit? &&
      statuses[q].Round() >= statuses[i].Round() + s.waveLength
      ensures exists k | i < k < q ::
              statuses[k].Undecided? && statuses[k].Round() >= statuses[i].Round() + s.waveLength
    {
      var k := UndecidedIsBlocked(c, v, s, lo, hi, statuses, i, q);
    }
  }

  predicate Has(statuses: seq<LeaderStatus>, slot: Slot) {
    exists i | 0 <= i < |statuses| :: statuses[i].LeaderSlot() == slot
  }

  /** The slots tried are those after the last decided round, up to two rounds below the highest. */
  lemma SlotsTried(c: Committee, v: View, s: Setup, last: Round, highest: Round, statuses: seq<LeaderStatus>)
    requires s.Valid() && v.Closed() && ValidTargets(v, s.Targets(last + 1, Monus(highest, 2) + 1))
    requires DecidesAll(c, v, s.Targets(last + 1, Monus(highest, 2) + 1), statuses)
    ensures forall i | 0 <= i < |statuses| :: var r := statuses[i].Round();
            && last < r && r + 2 <= highest && (s.pipeline || r % s.waveLength == 0)
            && statuses[i].LeaderSlot() == Slot(r, s.schedule(r))
    ensures forall r | last < r && r + 2 <= highest && (s.pipeline || r % s.waveLength == 0) ::
            Has(statuses, Slot(r, s.schedule(r)))
    ensures forall i, j | 0 <= i < j < |statuses| :: statuses[i].Round() < statuses[j].Round()
  {
    var hi := Monus(highest, 2) + 1;
    StatusesCover(c, v, s, last + 1, hi, statuses);
    forall r | last < r && r + 2 <= highest && (s.pipeline || r % s.waveLength == 0)
      ensures Has(statuses, Slot(r, s.schedule(r)))
    {
      var i := StatusAt(c, v, s, last + 1, hi, statuses, r);
    }
  }

  /** Decides the leader slots of the rounds `lo`, ..., `hi - 1`, from the highest down. */
  method DecideRounds(ghost w: World, c: Committee, v: View, s: Setup, lo: Round, hi: Round)
    returns (leaders: seq<LeaderStatus>)
    requires w.Sound() && w.HonestChains() && w.Holds(v) && w.committee == c && s.Valid() && v.gcRound < lo
    ensures ValidTargets(v, s.Targets(lo, hi)) && DecidesAll(c, v, s.Targets(lo, hi), leaders)
  {
    leaders := [];
    var round := hi;
    while round > lo
      invariant lo <= round <= hi || round == hi <= lo
      invariant ValidTargets(v, s.Targets(round, hi)) && DecidesAll(c, v, s.Targets(round, hi), leaders)
    {
      round := round - 1;
      leaders := DecideRound(w, c, v, s, round, s.Targets(round + 1, hi), leaders);
    }
  }

  /** Decides all leader slots after the last decided round that the view has enough rounds for. */
  method TryDecide(ghost w: World, c: Committee, v: View, s: Setup, lastDecided: Slot, highestAccepted: Round)
    returns (decided: seq<LeaderStatus>, ghost statuses: seq<LeaderStatus>)
    requires w.Sound() && w.HonestChains() && w.Holds(v) && w.committee == c && s.Valid()
    requires v.gcRound <= lastDecided.round
    ensures ValidTargets(v, s.Targets(lastDecided.round + 1, Monus(highestAccepted, 2) + 1))
    ensures DecidesAll(c, v, s.Targets(lastDecided.round + 1, Monus(highestAccepted, 2) + 1), statuses)
    ensures forall i | 0 <= i < |statuses| :: var r := statuses[i].Round();
            && lastDecided.round < r && r + 2 <= highestAccepted && (s.pipeline || r % s.waveLength == 0)
            && statuses[i].LeaderSlot() == Slot(r, s.schedule(r))
    ensures forall r | lastDecided.round < r && r + 2 <= highestAccepted && (s.pipeline || r % s.waveLength == 0) ::
            Has(statuses, Slot(r, s.schedule(r)))
    ensures forall i, j | 0 <= i < j < |statuses| :: statuses[i].Round() < statuses[j].Round()
    ensures NoneAnchored(statuses, s.waveLength)
    ensures IsDecidedPrefix(statuses, decided)
  {
    var leaders := DecideRounds(w, c, v, s, lastDecided.round + 1, Monus(highestAccepted, 2) + 1);
    SlotsTried(c, v, s, lastDecided.round, highestAccepted, leaders);
    UndecidedAreBlocked(c, v, s, lastDecided.round + 1, Monus(highestAccepted, 2) + 1, leaders);
    statuses := leaders;
    decided := TakeDecided(leaders);
  }

  // ---- Whole runs ----

  /** The round after the last decided one. */
  function NextRound(log: seq<LeaderStatus>): Round {
    if log == [] then 1 else log[|log| - 1].Round() + 1
  }

  /**
   `log` is what a validator has decided after running the rule on `views` in turn. Each time it
   starts after its last decision and keeps some prefix of the decided leaders.
   */
  ghost predicate IsLog(w: World, s: Setup, views: seq<View>, log: seq<LeaderStatus>)
    requires s.Valid()
    decreases |views|
  {
    if views == [] then log == []
    else
      var v := views[|views| - 1];
      exists n, hi, statuses | 0 <= n <= |log| ::
        IsStep(w, s, v, log, n, hi, statuses) && IsLog(w, s, views[..|views| - 1], log[..n])
  }

  /** One run of the rule on `v` extends the first `n` decisions to `log`. */
  ghost predicate IsStep(w: World, s: Setup, v: View, log: seq<LeaderStatus>, n: nat, hi: Round,
      statuses: seq<LeaderStatus>)
    requires s.Valid() && n <= |log|
  {
    var start := NextRound(log[..n]);
    && w.Holds(v) && v.gcRound < start
    && ValidTargets(v, s.Targets(start, hi)) && DecidesAll(w.committee, v, s.Targets(start, hi), statuses)
    && log[n..] <= statuses && forall i | n <= i < |log| :: log[i].IsDecided()
  }

  /** `status` is a decision on `t` that some view justifies. */
  ghost predicate Justified(w: World, s: Setup, t: Target, status: LeaderStatus)
    requires s.Valid()
  {
    status.IsDecided() && exists v, hi, statuses :: JustifiedBy(w, s, t, status, v, hi, statuses)
  }

  ghost predicate JustifiedBy(w: World, s: Setup, t: Target, status: LeaderStatus, v: View, hi: Round,
      statuses: seq<LeaderStatus>)
    requires s.Valid()
  {
    && w.Holds(v) && v.gcRound < t.slot.round
    && s.Targets(t.slot.round, hi) != [] && s.Targets(t.slot.round, hi)[0] == t
    && ValidTargets(v, s.Targets(t.slot.round, hi))
    && DecidesAll(w.committee, v, s.Targets(t.slot.round, hi), statuses)
    && statuses[0] == status
  }

  /** One justified decision for each of the slots, in order. */
  ghost predicate Justifies(w: World, s: Setup, targets: seq<Target>, log: seq<LeaderStatus>)
    requires s.Valid()
  {
    && |targets| == |log|
    && forall i {:trigger JustifiedAt(w, s, targets, log, i)} | 0 <= i < |log| :: JustifiedAt(w, s, targets, log, i)
  }

  ghost predicate JustifiedAt(w: World, s: Setup, targets: seq<Target>, log: seq<LeaderStatus>, i: nat)
    requires s.Valid() && i < |targets| == |log|
  {
    log[i].Round() == targets[i].slot.round && Justified(w, s, targets[i], log[i])
  }

  lemma JustifiesConcat(w: World, s: Setup, targets1: seq<Target>, log1: seq<LeaderStatus>, targets2: seq<Target>,
      log2: seq<LeaderStatus>)
    requires s.Valid() && Justifies(w, s, targets1, log1) && Justifies(w, s, targets2, log2)
    ensures Justifies(w, s, targets1 + targets2, log1 + log2)
  {
    var targets, log := targets1 + targets2, log1 + log2;
    forall i | 0 <= i < |log| ensures JustifiedAt(w, s, targets, log, i) {
      if i < |log1| {
        assert JustifiedAt(w, s, targets1, log1, i);
      } else {
        assert JustifiedAt(w, s, targets2, log2, i - |log1|);
      }
    }
  }

  lemma {:induction false} DecidesSuffix(c: Committee, v: View, targets: seq<Target>, statuses: seq<LeaderStatus>,
      j: nat)
    requires v.Closed() && ValidTargets(v, targets) && DecidesAll(c, v, targets, statuses) && j <= |targets|
    ensures ValidTargets(v, targets[j..]) && DecidesAll(c, v, targets[j..], statuses[j..])
    decreases j
  {
    if j > 0 {
      DecidesTail(c, v, targets, statuses);
      DecidesSuffix(c, v, targets[1..], statuses[1..], j - 1);
      assert targets[1..][j - 1..] == targets[j..] && statuses[1..][j - 1..] == statuses[j..];
    } else {
      assert targets[0..] == targets && statuses[0..] == statuses;
    }
  }

  /** What one run of the rule decides is justified by its view. */
  lemma DecidedIsJustifiedBy(w: World, s: Setup, v: View, lo: Round, hi: Round, statuses: seq<LeaderStatus>, j: nat)
    requires s.Valid() && w.Holds(v) && v.gcRound < lo
    requires ValidTargets(v, s.Targets(lo, hi)) && DecidesAll(w.committee, v, s.Targets(lo, hi), statuses)
    requires j < |statuses|
    ensures JustifiedBy(w, s, s.Targets(lo, hi)[j], statuses[j], v, hi, statuses[j..])
  {
    var targets := s.Targets(lo, hi);
    TargetsValid(s, lo, hi);
    assert targets[j] in targets;
    TargetsFrom(s, lo, hi, j);
    DecidesSuffix(w.committee, v, targets, statuses, j);
  }

  lemma DecidedIsJustified(w: World, s: Setup, v: View, lo: Round, hi: Round, statuses: seq<LeaderStatus>, j: nat)
    requires s.Valid() && w.Holds(v) && v.gcRound < lo
    requires ValidTargets(v, s.Targets(lo, hi)) && DecidesAll(w.committee, v, s.Targets(lo, hi), statuses)
    requires j < |statuses| && statuses[j].IsDecided()
    ensures Justified(w, s, s.Targets(lo, hi)[j], statuses[j])
    ensures statuses[j].Round() == s.Targets(lo, hi)[j].slot.round
  {
    DecidedIsJustifiedBy(w, s, v, lo, hi, statuses, j);
    StatusesCommitInView(w.committee, v, s.Targets(lo, hi), statuses);
  }

  lemma AddedIsJustified(w: World, s: Setup, v: View, log: seq<LeaderStatus>, n: nat, hi: Round,
      statuses: seq<LeaderStatus>, j: nat)
    requires s.Valid() && n < |log| && IsStep(w, s, v, log, n, hi, statuses) && j < |log[n..]|
    ensures var targets, added := s.Targets(NextRound(log[..n]), hi), log[n..];
            && |added| <= |targets| && |added| <= |statuses| && added[j] == statuses[j]
            && Justified(w, s, targets[j], added[j]) && added[j].Round() == targets[j].slot.round
  {
    assert log[n..][j] == log[n + j];
    DecidedIsJustified(w, s, v, NextRound(log[..n]), hi, statuses, j);
  }

  /** The decisions one step adds are justified, on the slots that follow. */
  lemma StepJustified(w: World, s: Setup, v: View, log: seq<LeaderStatus>, n: nat, hi: Round,
      statuses: seq<LeaderStatus>)
    requires s.Valid() && n < |log| && IsStep(w, s, v, log, n, hi, statuses)
    ensures NextRound(log[..n]) <= NextRound(log)
    ensures Justifies(w, s, s.Targets(NextRound(log[..n]), NextRound(log)), log[n..])
  {
    var lo, added := NextRound(log[..n]), log[n..];
    var targets := s.Targets(lo, hi);
    var last := |added| - 1;
    assert added[last] == log[|log| - 1];
    forall j | 0 <= j < |added|
      ensures added[j] == statuses[j] && Justified(w, s, targets[j], added[j])
      ensures added[j].Round() == targets[j].slot.round
    {
      AddedIsJustified(w, s, v, log, n, hi, statuses, j);
    }
    JustifiesPrefix(w, s, targets, added);
    AddedSpan(s, lo, hi, last, NextRound(log));
  }

  /** The slots that one step decides are those up to the round it reaches. */
  lemma AddedSpan(s: Setup, lo: Round, hi: Round, last: nat, next: Round)
    requires s.Valid() && last < |s.Targets(lo, hi)| && next == s.Targets(lo, hi)[last].slot.round + 1
    ensures lo <= next && s.Targets(lo, hi)[..last + 1] == s.Targets(lo, next)
  {
    TargetsThrough(s, lo, hi, last);
    TargetsValid(s, lo, hi);
    assert s.Targets(lo, hi)[last] in s.Targets(lo, hi);
  }

  lemma JustifiesPrefix(w: World, s: Setup, targets: seq<Target>, added: seq<LeaderStatus>)
    requires s.Valid() && |added| <= |targets|
    requires forall j | 0 <= j < |added| ::
             Justified(w, s, targets[j], added[j]) && added[j].Round() == targets[j].slot.round
    ensures Justifies(w, s, targets[..|added|], added)
  {
    var prefix := targets[..|added|];
    forall j | 0 <= j < |added| ensures JustifiedAt(w, s, prefix, added, j) {
      assert prefix[j] == targets[j];
    }
  }

  lemma Rejoin<T>(s: seq<T>, n: nat)
    requires n <= |s|
    ensures s[..n] + s[n..] == s
  {}

  /** A log has one justified decision for each leader slot up to its last. */
  lemma {:induction false} LogsAreJustified(w: World, s: Setup, views: seq<View>, log: seq<LeaderStatus>)
    requires s.Valid() && IsLog(w, s, views, log)
    ensures Justifies(w, s, s.Targets(1, NextRound(log)), log)
    ensures NextRound(log) >= 1
    decreases |views|
  {
    if views != [] {
      var v := views[|views| - 1];
      var n, hi, statuses :| 0 <= n <= |log| && IsStep(w, s, v, log, n, hi, statuses) &&
        IsLog(w, s, views[..|views| - 1], log[..n]);
      LogsAreJustified(w, s, views[..|views| - 1], log[..n]);
      if n == |log| {
        assert log[..n] == log;
      } else {
        StepJustified(w, s, v, log, n, hi, statuses);
        var start := NextRound(log[..n]);
        TargetsSplit(s, 1, start, NextRound(log));
        JustifiesConcat(w, s, s.Targets(1, start), log[..n], s.Targets(start, NextRound(log)), log[n..]);
        Rejoin(log, n);
      }
    }
  }

  /** Decisions come in rising order of round. */
  lemma LogRises(w: World, s: Setup, views: seq<View>, log: seq<LeaderStatus>)
    requires s.Valid() && IsLog(w, s, views, log)
    ensures forall i, j | 0 <= i < j < |log| :: log[i].Round() < log[j].Round()
  {
    var targets := s.Targets(1, NextRound(log));
    LogsAreJustified(w, s, views, log);
    TargetsRise(s, 1, NextRound(log));
    forall i, j | 0 <= i < j < |log| ensures log[i].Round() < log[j].Round() {
      assert JustifiedAt(w, s, targets, log, i) && JustifiedAt(w, s, targets, log, j);
    }
  }

  /** Two justified decisions on one slot are equal. */
  lemma JustifiedAgree(w: World, s: Setup, t: Target, s1: LeaderStatus, s2: LeaderStatus)
    requires w.Sound() && w.HonestChains() && s.Valid() && s.waveLength == 3
    requires Justified(w, s, t, s1) && Justified(w, s, t, s2)
    ensures s1 == s2
  {
    var v1, hi1, statuses1 :| JustifiedBy(w, s, t, s1, v1, hi1, statuses1);
    var v2, hi2, statuses2 :| JustifiedBy(w, s, t, s2, v2, hi2, statuses2);
    var lo := t.slot.round;
    TargetsValid(s, lo, hi1);
    TargetsValid(s, lo, hi2);
    if hi1 <= hi2 {
      TargetsSplit(s, lo, hi1, hi2);
      Agreement(w, v1, v2, s.Targets(lo, hi1), s.Targets(lo, hi2), statuses1, statuses2);
    } else {
      TargetsSplit(s, lo, hi2, hi1);
      Agreement(w, v2, v1, s.Targets(lo, hi2), s.Targets(lo, hi1), statuses2, statuses1);
    }
  }

  /** Of the slots up to two rounds, one list extends the other. */
  lemma TargetsExtend(s: Setup, next1: Round, next2: Round)
    requires s.Valid() && next1 >= 1 && next2 >= 1
    ensures s.Targets(1, next1) <= s.Targets(1, next2) || s.Targets(1, next2) <= s.Targets(1, next1)
  {
    if next1 <= next2 {
      TargetsSplit(s, 1, next1, next2);
    } else {
      TargetsSplit(s, 1, next2, next1);
    }
  }

  /** Logs justified on slots of which one list extends the other. */
  lemma JustifiedLogsAgree(w: World, s: Setup, targets1: seq<Target>, log1: seq<LeaderStatus>, targets2: seq<Target>,
      log2: seq<LeaderStatus>)
    requires w.Sound() && w.HonestChains() && s.Valid() && s.waveLength == 3
    requires Justifies(w, s, targets1, log1) && Justifies(w, s, targets2, log2)
    requires (targets1 <= targets2 || targets2 <= targets1) && |log1| <= |log2|
    ensures log1 <= log2
  {
    forall i | 0 <= i < |log1| ensures log1[i] == log2[i] {
      assert JustifiedAt(w, s, targets1, log1, i) && JustifiedAt(w, s, targets2, log2, i);
      JustifiedAgree(w, s, targets1[i], log1[i], log2[i]);
    }
  }

  /**
   Safety over whole runs: the decision logs of any two validators are prefixes of one another,
   whatever views they ran the rule on and when.
   */
  lemma LogsAgree(w: World, s: Setup, views1: seq<View>, log1: seq<LeaderStatus>, views2: seq<View>,
      log2: seq<LeaderStatus>)
    requires w.Sound() && w.HonestChains() && s.Valid() && s.waveLength == 3
    requires IsLog(w, s, views1, log1) && IsLog(w, s, views2, log2)
    requires |log1| <= |log2|
    ensures log1 <= log2
  {
    LogsAreJustified(w, s, views1, log1);
    LogsAreJustified(w, s, views2, log2);
    var next1, next2 := NextRound(log1), NextRound(log2);
    TargetsExtend(s, next1, next2);
    JustifiedLogsAgree(w, s, s.Targets(1, next1), log1, s.Targets(1, next2), log2);
  }
}
