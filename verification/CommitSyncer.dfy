/** Schedules which commits to fetch, and hands fetched ones over without a gap (`CommitSyncer`). */
module CommitSyncer {
  import opened Types
  import opened CommitRanges

  function RangeSet(ranges: seq<CommitRange>): set<CommitRange> {
    set r | r in ranges
  }

  // ---- Scheduling ----

  ghost function Scheduled(s: Syncer, batch: nat, limit: nat): Syncer
    requires batch > 0
  {
    var after := Max(s.synced, Highest(s));
    var ranges := Batches(after, batch, limit);
    s.(pending := s.pending + RangeSet(ranges),
       highestScheduled := if ranges == [] then s.highestScheduled else Some(LastEnd(after, ranges)))
  }

  lemma ScheduleTurn(s: Syncer, batch: nat, limit: nat)
    requires batch > 0
    ensures var after := Max(s.synced, Highest(s));
            Scheduled(s, batch, limit) ==
            if after + batch > limit then s
            else Scheduled(s.(pending := s.pending + {CommitRange(after + 1, after + batch)},
              highestScheduled := Some(after + batch)), batch, limit)
  {
    var after := Max(s.synced, Highest(s));
    if after + batch <= limit {
      var first, rest := CommitRange(after + 1, after + batch), Batches(after + batch, batch, limit);
      assert RangeSet([first] + rest) == {first} + RangeSet(rest);
      assert s.pending + ({first} + RangeSet(rest)) == (s.pending + {first}) + RangeSet(rest);
    } else {
      assert RangeSet([]) == {};
      assert s.pending + {} == s.pending;
    }
  }

  lemma ScheduleNext(s: Syncer, t: Syncer, sent: set<CommitRange>, batch: nat, limit: nat, after: nat)
    requires Inv(s, sent) && batch > 0 && after == Max(s.synced, Highest(s)) && after + batch <= limit
    requires t == s.(pending := s.pending + {CommitRange(after + 1, after + batch)},
                     highestScheduled := Some(after + batch))
    ensures Inv(t, sent) && after + batch == Max(t.synced, Highest(t))
    ensures Scheduled(t, batch, limit) == Scheduled(s, batch, limit)
  {
    ScheduleTurn(s, batch, limit);
    ScheduleKeepsInv(s, sent, CommitRange(after + 1, after + batch));
  }

  lemma ScheduleEnds(s: Syncer, batch: nat, limit: nat, after: nat)
    requires batch > 0 && after == Max(s.synced, Highest(s)) && after + batch > limit
    ensures Scheduled(s, batch, limit) == s
  {
    ScheduleTurn(s, batch, limit);
  }

  /** What is scheduled: all full batches above what is synced or scheduled that end at or below the limit. */
  lemma ScheduledAre(s: Syncer, batch: nat, limit: nat)
    requires batch > 0
    ensures var t, after := Scheduled(s, batch, limit), Max(s.synced, Highest(s));
            && (forall r :: r in t.pending <==>
                  r in s.pending || (r.end <= limit && exists k: nat :: r == Batch(after, batch, k)))
            && (after + batch > limit ==> t.highestScheduled == s.highestScheduled)
            && (after + batch <= limit ==> t.highestScheduled.Some? && Highest(t) <= limit < Highest(t) + batch)
            && (after + batch <= limit ==> exists k: nat :: Highest(t) == Batch(after, batch, k).end)
  {
    var after := Max(s.synced, Highest(s));
    var ranges := Batches(after, batch, limit);
    BatchesTile(after, batch, limit);
    forall r ensures r in ranges <==> r.end <= limit && exists k: nat :: r == Batch(after, batch, k) {
      BatchesAre(after, batch, limit, r);
    }
    if ranges != [] {
      assert ranges[|ranges| - 1] in ranges;
    }
  }

  /** The batches that fit are scheduled, right above what is synced or scheduled. */
  method Schedule(s: Syncer, ghost sent: set<CommitRange>, batch: nat, quorum: CommitIndex, local: CommitIndex,
      handled: CommitIndex, threshold: nat)
    returns (t: Syncer)
    requires Inv(s, sent) && batch > 0
    ensures Inv(t, sent)
    ensures t == Scheduled(s.(synced := Max(s.synced, local)), batch, Min(quorum, handled + threshold))
  {
    t := s.(synced := Max(s.synced, local));
    AdvanceKeepsInv(s, sent, t.synced);
    var prevEnd := Max(t.synced, Highest(t));
    ghost var limit := Min(quorum, handled + threshold);
    while prevEnd <= quorum
      invariant Inv(t, sent) && prevEnd == Max(t.synced, Highest(t))
      invariant Scheduled(t, batch, limit) == Scheduled(s.(synced := Max(s.synced, local)), batch, limit)
      decreases quorum + 1 - prevEnd
    {
      var range := CommitRange(prevEnd + 1, prevEnd + batch);
      if quorum < range.end || handled + threshold < range.end {
        ScheduleEnds(t, batch, limit, prevEnd);
        return;
      }
      ghost var before := t;
      t := t.(pending := t.pending + {range}, highestScheduled := Some(range.end));
      ScheduleNext(before, t, sent, batch, limit, prevEnd);
      prevEnd := prevEnd + batch;
    }
    ScheduleEnds(t, batch, limit, prevEnd);
  }

  // ---- Starting fetches ----

  /** At least one, at most two thirds of the committee, fewer the more fetched ranges wait. */
  function ParallelFetches(parallel: nat, size: nat, ahead: nat, waiting: nat): nat {
    Max(Min(Min(parallel, size * 2 / 3), Monus(ahead, waiting)), 1)
  }

  lemma FetchTarget(n: nat, parallel: nat, size: nat, ahead: nat, waiting: nat)
    ensures n >= ParallelFetches(parallel, size, ahead, waiting) <==>
            n >= 1 && (n >= parallel || n >= size * 2 / 3 || n + waiting >= ahead)
    ensures n <= ParallelFetches(parallel, size, ahead, waiting) <==>
            n <= 1 || (n <= parallel && n <= size * 2 / 3 && n + waiting <= ahead)
  {}

  /** Some of the pending ranges, the lowest ones, are now being fetched. */
  ghost predicate Started(s: Syncer, t: Syncer) {
    && t == s.(pending := t.pending, inflight := t.inflight)
    && t.pending <= s.pending && t.inflight == s.inflight + (s.pending - t.pending)
    && (forall a, b | a in s.pending - t.pending && b in t.pending :: RangeLe(a, b))
  }

  lemma StartedStep(s: Syncer, t: Syncer, range: CommitRange)
    requires Started(s, t) && range in t.pending && forall x | x in t.pending :: RangeLe(range, x)
    ensures Started(s, t.(pending := t.pending - {range}, inflight := t.inflight + {range}))
  {
    var u := t.(pending := t.pending - {range}, inflight := t.inflight + {range});
    forall a, b | a in s.pending - u.pending && b in u.pending ensures RangeLe(a, b) {
      assert a == range || a in s.pending - t.pending;
    }
  }

  lemma StartStep(s: Syncer, t: Syncer, sent: set<CommitRange>, range: CommitRange)
    requires Inv(t, sent) && Started(s, t) && range in t.pending && forall x | x in t.pending :: RangeLe(range, x)
    ensures var u := t.(pending := t.pending - {range}, inflight := t.inflight + {range});
            Inv(u, sent) && Started(s, u) && |u.inflight| == |t.inflight| + 1
  {
    StartKeepsInv(t, sent, range);
    StartedStep(s, t, range);
    assert range !in t.inflight;
  }

  lemma NoneStarted(s: Syncer)
    ensures Started(s, s)
  {
    assert s.inflight + (s.pending - s.pending) == s.inflight;
  }

  method StartFetches(s: Syncer, ghost sent: set<CommitRange>, parallel: nat, size: nat, ahead: nat) returns (t: Syncer)
    requires Inv(s, sent)
    ensures Inv(t, sent) && Started(s, t)
    ensures t.pending != {} ==>
            && |t.inflight| >= 1
            && (|t.inflight| >= parallel || |t.inflight| >= size * 2 / 3 || |t.inflight| + |s.fetched| >= ahead)
    ensures t != s ==>
            || |t.inflight| == 1
            || (|t.inflight| <= parallel && |t.inflight| <= size * 2 / 3 && |t.inflight| + |s.fetched| <= ahead)
  {
    var target := ParallelFetches(parallel, size, ahead, |s.fetched|);
    t := s;
    NoneStarted(s);
    ghost var started := false;
    while |t.inflight| < target && t.pending != {}
      invariant Inv(t, sent) && Started(s, t) && if started then 1 <= |t.inflight| <= target else t == s
      decreases t.pending
    {
      ghost var m := FirstRangeExists(t.pending);
      var range :| range in t.pending && forall x | x in t.pending :: RangeLe(range, x);
      StartStep(s, t, sent, range);
      t := t.(pending := t.pending - {range}, inflight := t.inflight + {range});
      started := true;
    }
    FetchTarget(|t.inflight|, parallel, size, ahead, |s.fetched|);
  }

  // ---- Fetched commits ----

  /** The range starts at most one above what was synced before it, and brings something new. */
  ghost predicate Extends(synced: CommitIndex, handed: seq<CommitRange>, k: nat)
    requires k < |handed|
  {
    var before := if k == 0 then synced else handed[k - 1].end;
    handed[k].start <= before + 1 && before < handed[k].end
  }

  ghost predicate WithoutGap(synced: CommitIndex, handed: seq<CommitRange>) {
    forall k {:trigger Extends(synced, handed, k)} | 0 <= k < |handed| :: Extends(synced, handed, k)
  }

  lemma WithoutGapStep(synced: CommitIndex, handed: seq<CommitRange>, r: CommitRange)
    requires WithoutGap(synced, handed) && r.start <= LastEnd(synced, handed) + 1 && LastEnd(synced, handed) < r.end
    ensures WithoutGap(synced, handed + [r])
  {
    var all := handed + [r];
    forall k | 0 <= k < |all| ensures Extends(synced, all, k) {
      if k < |handed| {
        assert Extends(synced, handed, k);
      }
    }
  }

  lemma WithoutGapFront(synced: CommitIndex, handed: seq<CommitRange>)
    requires WithoutGap(synced, handed) && handed != []
    ensures WithoutGap(synced, handed[..|handed| - 1])
  {
    var front := handed[..|handed| - 1];
    forall k | 0 <= k < |front| ensures Extends(synced, front, k) {
      assert Extends(synced, handed, k);
    }
  }

  /** Everything from `synced` to the end of the last range handed over is in one of them. */
  lemma {:induction false} HandedCovers(synced: CommitIndex, handed: seq<CommitRange>, i: CommitIndex)
    requires WithoutGap(synced, handed) && synced < i <= LastEnd(synced, handed)
    ensures Covered(RangeSet(handed), i)
    decreases |handed|
  {
    var last := |handed| - 1;
    assert Extends(synced, handed, last);
    if handed[last].Has(i) {
      assert handed[last] in RangeSet(handed);
    } else {
      WithoutGapFront(synced, handed);
      HandedCovers(synced, handed[..last], i);
      var r :| r in RangeSet(handed[..last]) && r.Has(i);
      assert r in RangeSet(handed);
    }
  }

  /** Each range handed over comes with the commits that fill it. */
  ghost predicate AllFilled(handed: seq<CommitRange>, commits: seq<seq<FetchedCommit>>) {
    |commits| == |handed| && forall k | 0 <= k < |handed| :: Fills(handed[k], commits[k])
  }

  /**
   What has left the buffer of `s` was handed over as it was stored, or was synced already. The rest is still there,
   and starts above all of it.
   */
  ghost predicate Leaves(s: Syncer, t: Syncer, handed: seq<CommitRange>, commits: seq<seq<FetchedCommit>>) {
    && t == s.(fetched := t.fetched, synced := LastEnd(s.synced, handed))
    && WithoutGap(s.synced, handed) && AllFilled(handed, commits)
    && (forall k | 0 <= k < |handed| :: handed[k] in s.fetched && commits[k] == s.fetched[handed[k]])
    && (forall r | r in t.fetched :: r in s.fetched && t.fetched[r] == s.fetched[r] && r !in handed)
    && (forall r | r in s.fetched && r !in t.fetched :: r.start <= t.synced + 1 && (r in handed <==> r.end > s.synced))
    && (forall k, r | 0 <= k < |handed| && r in t.fetched :: handed[k].end < r.start)
  }

  lemma HandedLeaves(s: Syncer, t: Syncer, handed: seq<CommitRange>, commits: seq<seq<FetchedCommit>>,
      range: CommitRange)
    requires Leaves(s, t, handed, commits) && range in t.fetched && Fills(range, t.fetched[range])
    requires s.synced <= t.synced < range.end && range.start <= t.synced + 1
    requires forall x | x in t.fetched && x != range :: range.end < x.start
    ensures Leaves(s, Popped(t, range), handed + [range], commits + [t.fetched[range]])
  {
    WithoutGapStep(s.synced, handed, range);
    var all := handed + [range];
    forall r ensures r in all <==> r in handed || r == range {}
  }

  lemma DroppedLeaves(s: Syncer, t: Syncer, handed: seq<CommitRange>, commits: seq<seq<FetchedCommit>>,
      range: CommitRange)
    requires Leaves(s, t, handed, commits) && range in t.fetched && range.start <= range.end <= t.synced
    ensures Leaves(s, t.(fetched := t.fetched - {range}), handed, commits)
  {
    assert range.end <= s.synced;
  }

  /** A range that comes first in the order ends before the others start. */
  lemma FirstIsBelow(s: Syncer, sent: set<CommitRange>, range: CommitRange)
    requires Inv(s, sent) && range in s.fetched && forall x | x in s.fetched :: RangeLe(range, x)
    ensures range.start <= range.end && forall x | x in s.fetched && x != range :: range.end < x.start
  {
    forall x | x in s.fetched && x != range ensures range.end < x.start {
      assert range in Open(s) + sent && x in Open(s) + sent && Apart(range, x);
    }
  }

  lemma SentStep(sent: set<CommitRange>, handed: seq<CommitRange>, range: CommitRange)
    ensures sent + RangeSet(handed + [range]) == sent + RangeSet(handed) + {range}
  {}

  /** The first range is handed over when it starts without a gap and brings something new. */
  lemma HandStep(s: Syncer, t: Syncer, sent: set<CommitRange>, handed: seq<CommitRange>,
      commits: seq<seq<FetchedCommit>>, range: CommitRange)
    requires Inv(t, sent + RangeSet(handed)) && Leaves(s, t, handed, commits) && s.synced <= t.synced
    requires range in t.fetched && forall x | x in t.fetched :: RangeLe(range, x)
    requires range.start <= t.synced + 1 && t.synced < range.end
    ensures Inv(Popped(t, range), sent + RangeSet(handed + [range]))
    ensures Leaves(s, Popped(t, range), handed + [range], commits + [t.fetched[range]])
  {
    SentStep(sent, handed, range);
    PoppedKeepsInv(t, sent + RangeSet(handed), range);
    assert Fills(range, t.fetched[range]);
    FirstIsBelow(t, sent + RangeSet(handed), range);
    HandedLeaves(s, t, handed, commits, range);
  }

  lemma DropStep(s: Syncer, t: Syncer, sent: set<CommitRange>, handed: seq<CommitRange>,
      commits: seq<seq<FetchedCommit>>, range: CommitRange)
    requires Inv(t, sent + RangeSet(handed)) && Leaves(s, t, handed, commits)
    requires range in t.fetched && forall x | x in t.fetched :: RangeLe(range, x)
    requires range.end <= t.synced
    ensures Inv(t.(fetched := t.fetched - {range}), sent + RangeSet(handed))
    ensures Leaves(s, t.(fetched := t.fetched - {range}), handed, commits)
  {
    DroppedKeepsInv(t, sent + RangeSet(handed), range);
    FirstIsBelow(t, sent + RangeSet(handed), range);
    DroppedLeaves(s, t, handed, commits, range);
  }

  lemma GapStays(fetched: map<CommitRange, seq<FetchedCommit>>, range: CommitRange, synced: CommitIndex)
    requires range.start > synced + 1 && forall x | x in fetched :: RangeLe(range, x)
    ensures forall r | r in fetched :: r.start > synced + 1
  {}

  lemma LeavesAll(s: Syncer, t: Syncer, handed: seq<CommitRange>, commits: seq<seq<FetchedCommit>>)
    requires Leaves(s, t, handed, commits) && forall r | r in t.fetched :: r.start > t.synced + 1
    ensures forall r | r in s.fetched :: r in t.fetched <==> r.start > t.synced + 1
    ensures forall r | r in s.fetched :: r in handed <==> s.synced < r.end && r.start <= t.synced + 1
  {}

  /** Hands over fetched ranges from the lowest on, as long as there is no gap. */
  method HandOver(s: Syncer, ghost sent: set<CommitRange>)
    returns (t: Syncer, handed: seq<CommitRange>, commits: seq<seq<FetchedCommit>>)
    requires Inv(s, sent)
    ensures Inv(t, sent + RangeSet(handed)) && t == s.(fetched := t.fetched, synced := t.synced)
    ensures WithoutGap(s.synced, handed) && t.synced == LastEnd(s.synced, handed)
    ensures AllFilled(handed, commits)
    ensures forall k | 0 <= k < |handed| :: handed[k] in s.fetched && commits[k] == s.fetched[handed[k]]
    ensures forall r | r in s.fetched :: r in t.fetched <==> r.start > t.synced + 1
    ensures forall r | r in s.fetched :: r in handed <==> s.synced < r.end && r.start <= t.synced + 1
    ensures forall r | r in t.fetched :: r in s.fetched && t.fetched[r] == s.fetched[r]
  {
    t, handed, commits := s, [], [];
    assert sent + RangeSet([]) == sent;
    while t.fetched.Keys != {}
      invariant Inv(t, sent + RangeSet(handed)) && Leaves(s, t, handed, commits) && s.synced <= t.synced
      decreases t.fetched.Keys
    {
      ghost var m := FirstRangeExists(t.fetched.Keys);
      var range :| range in t.fetched.Keys && forall x | x in t.fetched.Keys :: RangeLe(range, x);
      if range.start > t.synced + 1 {
        GapStays(t.fetched, range, t.synced);
        break;
      }
      if range.end <= t.synced {
        DropStep(s, t, sent, handed, commits, range);
        t := t.(fetched := t.fetched - {range});
      } else {
        HandStep(s, t, sent, handed, commits, range);
        handed, commits := handed + [range], commits + [t.fetched[range]];
        t := Popped(t, range);
      }
    }
    LeavesAll(s, t, handed, commits);
  }

  /** What was fetched is kept, unless all of it is synced already; the rest of the range is fetched again. */
  method TakeIn(s: Syncer, range: CommitRange, end: CommitIndex, result: seq<FetchedCommit>) returns (t: Syncer)
    ensures t == Received(s, range, end, result)
  {
    t := s.(inflight := s.inflight - {range});
    if end < range.end {
      t := t.(pending := t.pending + {CommitRange(end + 1, range.end)});
    }
    if t.synced < end {
      t := t.(fetched := t.fetched[CommitRange(range.start, end) := result]);
    }
  }

  /** A fetch has returned a non-empty prefix of its range. */
  method HandleResult(s: Syncer, ghost sent: set<CommitRange>, range: CommitRange, result: seq<FetchedCommit>,
      local: CommitIndex)
    returns (t: Syncer, handed: seq<CommitRange>, commits: seq<seq<FetchedCommit>>)
    requires Inv(s, sent) && range in s.inflight
    requires result != [] && result[|result| - 1].index <= range.end
    requires Fills(CommitRange(range.start, result[|result| - 1].index), result)
    ensures Inv(t, sent + RangeSet(handed))
    ensures WithoutGap(Max(s.synced, local), handed) && t.synced == LastEnd(Max(s.synced, local), handed)
    ensures AllFilled(handed, commits)
    ensures var end, synced := result[|result| - 1].index, Max(s.synced, local);
            var known := if synced < end then s.fetched[CommitRange(range.start, end) := result] else s.fetched;
            && (forall k | 0 <= k < |handed| :: handed[k] in known && commits[k] == known[handed[k]])
            && (forall r | r in known :: r in t.fetched <==> r.start > t.synced + 1)
            && (forall r | r in known :: r in handed <==> synced < r.end && r.start <= t.synced + 1)
            && (forall r | r in t.fetched :: r in known && t.fetched[r] == known[r])
    ensures t.inflight == s.inflight - {range} && t.highestScheduled == s.highestScheduled
    ensures var end := result[|result| - 1].index;
            t.pending == if end < range.end then s.pending + {CommitRange(end + 1, range.end)} else s.pending
  {
    var end := result[|result| - 1].index;
    t := s.(synced := Max(s.synced, local));
    AdvanceKeepsInv(s, sent, t.synced);
    ReceivedKeepsInv(t, sent, range, end, result);
    t := TakeIn(t, range, end, result);
    t, handed, commits := HandOver(t, sent);
  }

  // ---- The component ----

  class CommitSyncer {
    const batchSize: nat
    const batchesAhead: nat
    const parallelFetches: nat
    const committeeSize: nat
    var pendingFetches: set<CommitRange>
    var inflightFetches: set<CommitRange>
    var fetchedRanges: map<CommitRange, seq<FetchedCommit>>
    var highestScheduledIndex: Option<CommitIndex>
    var syncedCommitIndex: CommitIndex

    // The ranges handed to Core so far.
    ghost var sent: set<CommitRange>

    function State(): Syncer
      reads this
    {
      Syncer(pendingFetches, inflightFetches, fetchedRanges, highestScheduledIndex, syncedCommitIndex)
    }

    ghost predicate Valid()
      reads this
    {
      batchSize > 0 && Inv(State(), sent)
    }

    constructor (batchSize: nat, batchesAhead: nat, parallelFetches: nat, committeeSize: nat, local: CommitIndex)
      requires batchSize > 0
      ensures Valid() && State() == Syncer({}, {}, map[], None, local) && sent == {}
    {
      this.batchSize, this.batchesAhead, this.parallelFetches, this.committeeSize := batchSize, batchesAhead,
        parallelFetches, committeeSize;
      pendingFetches, inflightFetches, fetchedRanges := {}, {}, map[];
      highestScheduledIndex, syncedCommitIndex, sent := None, local, {};
    }

    method Set(t: Syncer, ghost all: set<CommitRange>)
      modifies this
      ensures State() == t && sent == all
    {
      pendingFetches, inflightFetches, fetchedRanges := t.pending, t.inflight, t.fetched;
      highestScheduledIndex, syncedCommitIndex, sent := t.highestScheduled, t.synced, all;
    }

    method TryScheduleOnce(quorum: CommitIndex, local: CommitIndex, handled: CommitIndex)
      requires Valid()
      modifies this
      ensures Valid() && sent == old(sent)
      ensures State() ==
              Scheduled(old(State()).(synced := Max(old(syncedCommitIndex), local)), batchSize,
                Min(quorum, handled + batchSize * batchesAhead))
      ensures var after := Max(Max(old(syncedCommitIndex), local), Highest(old(State())));
              forall r :: r in pendingFetches <==>
                (|| r in old(pendingFetches)
                 || (&& r.end <= quorum && r.end <= handled + batchSize * batchesAhead
                     && exists k: nat :: r == Batch(after, batchSize, k)))
    {
      ScheduledAre(State().(synced := Max(syncedCommitIndex, local)), batchSize,
        Min(quorum, handled + batchSize * batchesAhead));
      var t := Schedule(State(), sent, batchSize, quorum, local, handled, batchSize * batchesAhead);
      Set(t, sent);
    }

    method TryStartFetches()
      requires Valid()
      modifies this
      ensures Valid() && sent == old(sent) && Started(old(State()), State())
      ensures pendingFetches != {} ==>
              && |inflightFetches| >= 1
              && (|| |inflightFetches| >= parallelFetches || |inflightFetches| >= committeeSize * 2 / 3
                  || |inflightFetches| + |fetchedRanges| >= batchesAhead)
      ensures inflightFetches != old(inflightFetches) ==>
              || |inflightFetches| == 1
              || (&& |inflightFetches| <= parallelFetches && |inflightFetches| <= committeeSize * 2 / 3
                  && |inflightFetches| + |fetchedRanges| <= batchesAhead)
    {
      var t := StartFetches(State(), sent, parallelFetches, committeeSize, batchesAhead);
      Set(t, sent);
    }

    method HandleFetchResult(range: CommitRange, result: seq<FetchedCommit>, local: CommitIndex)
      returns (handed: seq<CommitRange>, commits: seq<seq<FetchedCommit>>)
      requires Valid() && range in inflightFetches
      requires result != [] && result[|result| - 1].index <= range.end
      requires Fills(CommitRange(range.start, result[|result| - 1].index), result)
      modifies this
      ensures Valid() && sent == old(sent) + RangeSet(handed)
      ensures WithoutGap(Max(old(syncedCommitIndex), local), handed)
      ensures syncedCommitIndex == LastEnd(Max(old(syncedCommitIndex), local), handed)
      ensures AllFilled(handed, commits)
      ensures var end, synced := result[|result| - 1].index, Max(old(syncedCommitIndex), local);
              var was := old(fetchedRanges);
              var known := if synced < end then was[CommitRange(range.start, end) := result] else was;
              && (forall k | 0 <= k < |handed| :: handed[k] in known && commits[k] == known[handed[k]])
              && (forall r | r in known :: r in fetchedRanges <==> r.start > syncedCommitIndex + 1)
              && (forall r | r in known :: r in handed <==> synced < r.end && r.start <= syncedCommitIndex + 1)
              && (forall r | r in fetchedRanges :: r in known && fetchedRanges[r] == known[r])
      ensures inflightFetches == old(inflightFetches) - {range} && highestScheduledIndex == old(highestScheduledIndex)
      ensures var end, was := result[|result| - 1].index, old(pendingFetches);
              pendingFetches == if end < range.end then was + {CommitRange(end + 1, range.end)} else was
    {
      var t;
      t, handed, commits := HandleResult(State(), sent, range, result, local);
      Set(t, sent + RangeSet(handed));
    }
  }
}
