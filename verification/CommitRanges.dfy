/** Ranges of commit indices, and what the commit syncer keeps of them. */
module CommitRanges {
  import opened Types

  /** Inclusive at both ends. */
  datatype CommitRange = CommitRange(start: CommitIndex, end: CommitIndex)
  {
    predicate Has(i: CommitIndex) {
      start <= i <= end
    }
  }

  /** Ordered by start, then by end. */
  predicate RangeLe(a: CommitRange, b: CommitRange) {
    a.start < b.start || (a.start == b.start && a.end <= b.end)
  }

  predicate Apart(a: CommitRange, b: CommitRange) {
    a.end < b.start || b.end < a.start
  }

  /** A commit as it is fetched: its index stands for its content. */
  datatype FetchedCommit = FetchedCommit(index: CommitIndex, digest: nat)

  datatype Syncer = Syncer(
    pending: set<CommitRange>,
    inflight: set<CommitRange>,
    fetched: map<CommitRange, seq<FetchedCommit>>,
    highestScheduled: Option<CommitIndex>,
    synced: CommitIndex)

  function Highest(s: Syncer): CommitIndex {
    match s.highestScheduled
    case Some(i) => i
    case None => 0
  }

  /** Ranges still to be dealt with. */
  function Open(s: Syncer): set<CommitRange> {
    s.pending + s.inflight + s.fetched.Keys
  }

  /** Distinct ranges have no index in common, and none lies above `high`. */
  ghost predicate Tiled(ranges: set<CommitRange>, high: CommitIndex) {
    && (forall r | r in ranges :: r.start <= r.end <= high)
    && (forall a, b | a in ranges && b in ranges && a != b :: Apart(a, b))
  }

  ghost predicate Covers(ranges: set<CommitRange>, above: CommitIndex, high: CommitIndex) {
    forall i | above < i <= high :: Covered(ranges, i)
  }

  ghost predicate Covered(ranges: set<CommitRange>, i: CommitIndex) {
    exists r | r in ranges :: r.Has(i)
  }

  /** The commits fetched for a range are those of its indices, in order. */
  ghost predicate Fills(r: CommitRange, commits: seq<FetchedCommit>) {
    r.start <= r.end && |commits| == r.end - r.start + 1 && forall k | 0 <= k < |commits| ::
      commits[k].index == r.start + k
  }

  /**
   Ranges that wait, are being fetched, are fetched, or were handed over are all disjoint; those not handed
   over cover every index from the synced one up to the highest scheduled one.
   */
  ghost predicate Inv(s: Syncer, sent: set<CommitRange>) {
    && Tiled(Open(s) + sent, Highest(s))
    && s.pending !! s.inflight && s.pending + s.inflight !! s.fetched.Keys && Open(s) !! sent
    && Covers(Open(s), s.synced, Highest(s))
    && (forall r | r in s.fetched :: Fills(r, s.fetched[r]))
  }

  /**
   Every index above the synced one, up to the highest scheduled one, is in exactly one range, and this range is
   waiting, being fetched or fetched, never two of these and never handed over.
   */
  lemma InOneRange(s: Syncer, sent: set<CommitRange>, i: CommitIndex) returns (r: CommitRange)
    requires Inv(s, sent) && s.synced < i <= Highest(s)
    ensures r.Has(i) && forall q | q in Open(s) + sent && q.Has(i) :: q == r
    ensures r !in sent && (r in s.pending || r in s.inflight || r in s.fetched)
    ensures !(r in s.pending && r in s.inflight) && !(r in s.pending + s.inflight && r in s.fetched)
  {
    assert Covered(Open(s), i);
    r :| r in Open(s) && r.Has(i);
    forall q | q in Open(s) + sent && q.Has(i) ensures q == r {
      assert r in Open(s) + sent;
      assert q == r || Apart(q, r);
    }
  }

  // ---- Scheduling ----

  /** Full batches from `after` on that end at or below `limit`. */
  function Batches(after: CommitIndex, batch: nat, limit: nat): seq<CommitRange>
    requires batch > 0
    decreases limit - after
  {
    if after + batch > limit then [] else [CommitRange(after + 1, after + batch)] + Batches(after + batch, batch, limit)
  }

  function LastEnd(after: CommitIndex, ranges: seq<CommitRange>): CommitIndex {
    if ranges == [] then after else ranges[|ranges| - 1].end
  }

  /** Ranges of full size, one after another from `after` on. */
  ghost predicate Adjacent(after: CommitIndex, ranges: seq<CommitRange>, batch: nat) {
    && (ranges != [] ==> ranges[0].start == after + 1)
    && (forall k | 0 <= k < |ranges| :: ranges[k].end == ranges[k].start + batch - 1)
    && (forall k | 0 < k < |ranges| :: ranges[k].start == ranges[k - 1].end + 1)
  }

  /** They are adjacent, end at or below the limit, and leave out less than a batch. */
  lemma {:induction false} BatchesTile(after: CommitIndex, batch: nat, limit: nat)
    requires batch > 0
    ensures var rs := Batches(after, batch, limit);
            && Adjacent(after, rs, batch) && (forall r | r in rs :: r.end <= limit)
            && LastEnd(after, rs) + batch > limit
    decreases limit - after
  {
    if after + batch <= limit {
      BatchesTile(after + batch, batch, limit);
      AdjacentCons(after, Batches(after + batch, batch, limit), batch);
    }
  }

  /** The `k`th full batch above `after`. */
  function Batch(after: CommitIndex, batch: nat, k: nat): CommitRange {
    CommitRange(after + k * batch + 1, after + (k + 1) * batch)
  }

  /** They are all the full batches above `after` that end at or below the limit. */
  lemma {:induction false} BatchesAre(after: CommitIndex, batch: nat, limit: nat, r: CommitRange)
    requires batch > 0
    ensures r in Batches(after, batch, limit) <==> r.end <= limit && exists k: nat :: r == Batch(after, batch, k)
    decreases limit - after
  {
    if after + batch <= limit {
      var next := after + batch;
      BatchesAre(next, batch, limit, r);
      assert Batch(after, batch, 0) == CommitRange(after + 1, after + batch);
      if exists k: nat :: r == Batch(after, batch, k) {
        var k: nat :| r == Batch(after, batch, k);
        if k > 0 {
          NextBatch(after, batch, k - 1);
        }
      }
      if exists k: nat :: r == Batch(next, batch, k) {
        var k: nat :| r == Batch(next, batch, k);
        NextBatch(after, batch, k);
      }
    } else {
      forall k: nat ensures Batch(after, batch, k).end > limit {
        BatchEnds(after, batch, k);
      }
    }
  }

  lemma NextBatch(after: CommitIndex, batch: nat, k: nat)
    ensures Batch(after, batch, k + 1) == Batch(after + batch, batch, k)
  {
    assert (k + 1) * batch == k * batch + batch && (k + 1 + 1) * batch == (k + 1) * batch + batch;
  }

  lemma BatchEnds(after: CommitIndex, batch: nat, k: nat)
    ensures Batch(after, batch, k).end >= after + batch
  {
    assert (k + 1) * batch == k * batch + batch;
  }

  lemma AdjacentCons(after: CommitIndex, rest: seq<CommitRange>, batch: nat)
    requires batch > 0 && Adjacent(after + batch, rest, batch)
    ensures Adjacent(after, [CommitRange(after + 1, after + batch)] + rest, batch)
  {}

  /** Adding a range right above everything scheduled so far. */
  lemma ScheduleKeepsInv(s: Syncer, sent: set<CommitRange>, r: CommitRange)
    requires Inv(s, sent) && r.start == Max(s.synced, Highest(s)) + 1 && r.start <= r.end
    ensures Inv(s.(pending := s.pending + {r}, highestScheduled := Some(r.end)), sent) && r !in Open(s)
  {
    var t := s.(pending := s.pending + {r}, highestScheduled := Some(r.end));
    assert Open(t) == Open(s) + {r};
    forall i | t.synced < i <= r.end ensures Covered(Open(t), i) {
      if i < r.start {
        assert Covered(Open(s), i);
        var x :| x in Open(s) && x.Has(i);
        assert x in Open(t);
      } else {
        assert r in Open(t) && r.Has(i);
      }
    }
  }

  lemma AdvanceKeepsInv(s: Syncer, sent: set<CommitRange>, synced: CommitIndex)
    requires Inv(s, sent) && synced >= s.synced
    ensures Inv(s.(synced := synced), sent)
  {
    assert Open(s.(synced := synced)) == Open(s);
  }

  // ---- Fetching ----

  lemma StartKeepsInv(s: Syncer, sent: set<CommitRange>, r: CommitRange)
    requires Inv(s, sent) && r in s.pending
    ensures Inv(s.(pending := s.pending - {r}, inflight := s.inflight + {r}), sent)
  {
    assert Open(s.(pending := s.pending - {r}, inflight := s.inflight + {r})) == Open(s);
  }

  /** The rest of a range that was fetched in part is to be fetched again. */
  function Split(s: Syncer, r: CommitRange, end: CommitIndex): Syncer {
    s.(inflight := s.inflight - {r},
      pending := if end < r.end then s.pending + {CommitRange(end + 1, r.end)} else s.pending)
  }

  /** With what was fetched, unless all of it is synced already. */
  function Received(s: Syncer, r: CommitRange, end: CommitIndex, commits: seq<FetchedCommit>): Syncer {
    var t := Split(s, r, end);
    if s.synced < end then t.(fetched := t.fetched[CommitRange(r.start, end) := commits]) else t
  }

  lemma PartsApart(ranges: set<CommitRange>, high: CommitIndex, r: CommitRange, part: CommitRange, x: CommitRange)
    requires Tiled(ranges, high) && r in ranges && x in ranges && x != r && r.start <= part.start && part.end <= r.end
    ensures Apart(part, x) && Apart(x, part)
  {
    assert Apart(r, x);
  }

  lemma ReceivedTiles(s: Syncer, sent: set<CommitRange>, r: CommitRange, end: CommitIndex, commits: seq<FetchedCommit>)
    requires Inv(s, sent) && r in s.inflight && r.start <= end <= r.end
    ensures var t := Received(s, r, end, commits);
            && Tiled(Open(t) + sent, Highest(s))
            && t.pending !! t.inflight && t.pending + t.inflight !! t.fetched.Keys && Open(t) !! sent
  {
    var t, all := Received(s, r, end, commits), Open(s) + sent;
    var head, tail := CommitRange(r.start, end), CommitRange(end + 1, r.end);
    assert r in all;
    forall x | x in all && x != r ensures Apart(head, x) && Apart(x, head) {
      PartsApart(all, Highest(s), r, head, x);
    }
    if end < r.end {
      forall x | x in all && x != r ensures Apart(tail, x) && Apart(x, tail) {
        PartsApart(all, Highest(s), r, tail, x);
      }
    }
    forall x | x in Open(t) + sent ensures (x in all && x != r) || x == head || (end < r.end && x == tail) {}
  }

  lemma ReceivedCovers(s: Syncer, sent: set<CommitRange>, r: CommitRange, end: CommitIndex, commits: seq<FetchedCommit>)
    requires Inv(s, sent) && r in s.inflight && r.start <= end <= r.end
    ensures Covers(Open(Received(s, r, end, commits)), s.synced, Highest(s))
  {
    var t := Received(s, r, end, commits);
    forall i | s.synced < i <= Highest(s) ensures Covered(Open(t), i) {
      assert Covered(Open(s), i);
      var x :| x in Open(s) && x.Has(i);
      if x != r {
        assert x in Open(t);
      } else if i <= end {
        assert CommitRange(r.start, end) in Open(t) && CommitRange(r.start, end).Has(i);
      } else {
        assert CommitRange(end + 1, r.end) in Open(t) && CommitRange(end + 1, r.end).Has(i);
      }
    }
  }

  lemma ReceivedKeepsInv(s: Syncer, sent: set<CommitRange>, r: CommitRange, end: CommitIndex,
      commits: seq<FetchedCommit>)
    requires Inv(s, sent) && r in s.inflight && r.start <= end <= r.end && Fills(CommitRange(r.start, end), commits)
    ensures Inv(Received(s, r, end, commits), sent)
  {
    ReceivedTiles(s, sent, r, end, commits);
    ReceivedCovers(s, sent, r, end, commits);
  }

  // ---- Handing over ----

  /** A fetched range that starts without a gap leaves; what it has is synced then. */
  function Popped(s: Syncer, r: CommitRange): Syncer {
    s.(fetched := s.fetched - {r}, synced := Max(s.synced, r.end))
  }

  lemma PoppedKeepsInv(s: Syncer, sent: set<CommitRange>, r: CommitRange)
    requires Inv(s, sent) && r in s.fetched
    ensures Inv(Popped(s, r), sent + {r})
  {
    var t := Popped(s, r);
    assert Open(s) == Open(t) + {r} && r !in Open(t) && Open(t) + (sent + {r}) == Open(s) + sent;
    forall i | t.synced < i <= Highest(t) ensures Covered(Open(t), i) {
      assert Covered(Open(s), i);
      var x :| x in Open(s) && x.Has(i);
      assert x in Open(t);
    }
  }

  /** A range that is synced already leaves without being handed over. */
  lemma DroppedKeepsInv(s: Syncer, sent: set<CommitRange>, r: CommitRange)
    requires Inv(s, sent) && r in s.fetched && r.end <= s.synced
    ensures Inv(s.(fetched := s.fetched - {r}), sent)
  {
    var t := s.(fetched := s.fetched - {r});
    assert Open(s) == Open(t) + {r};
    forall i | t.synced < i <= Highest(t) ensures Covered(Open(t), i) {
      assert Covered(Open(s), i);
      var x :| x in Open(s) && x.Has(i);
      assert x in Open(t);
    }
  }

  /** The range with the lowest start (`BTreeMap::first_key_value`). */
  lemma {:induction false} FirstRangeExists(ranges: set<CommitRange>) returns (m: CommitRange)
    requires ranges != {}
    ensures m in ranges && forall x | x in ranges :: RangeLe(m, x)
    decreases ranges
  {
    var x :| x in ranges;
    if ranges == {x} {
      m := x;
    } else {
      var y := FirstRangeExists(ranges - {x});
      m := if RangeLe(x, y) then x else y;
      forall z | z in ranges ensures RangeLe(m, z) {
        assert z == x || z in ranges - {x};
      }
    }
  }
}
