/** What a call of the commit finalizer leaves undone, and why: it decides as soon as it can. */
module FinalityTiming {
  import opened Types
  import opened Committee
  import opened BlockIndex
  import opened VoteLinks
  import opened Finality
  import FinalityRuns

  // ---- Direct finalization ----

  /** If `q` is the first commit that is not examined, it is remote and its leader certificate may be missing. */
  ghost predicate WaitsAt(pending: seq<CommitState>, latest: Round, q: nat)
    requires q < |pending|
  {
    pending[q].pendingBlocks != {} && (forall k | 0 <= k < q :: pending[k].pendingBlocks == {}) ==>
      !pending[q].commit.local && pending[q].commit.leader.round + 3 > latest
  }

  /** All commits are examined up to the first one that has to wait. */
  ghost predicate WaitsInOrder(pending: seq<CommitState>, latest: Round) {
    forall q {:trigger WaitsAt(pending, latest, q)} | 0 <= q < |pending| :: WaitsAt(pending, latest, q)
  }

  lemma WaitsCons(first: CommitState, rest: seq<CommitState>, latest: Round)
    requires first.pendingBlocks == {} && WaitsInOrder(rest, latest)
    ensures WaitsInOrder([first] + rest, latest)
  {
    var all := [first] + rest;
    forall q | 0 <= q < |all| ensures WaitsAt(all, latest, q) {
      if q > 0 {
        assert WaitsAt(rest, latest, q - 1);
        forall k | 0 <= k < q - 1 ensures rest[k] == all[k + 1] {}
      }
    }
  }

  lemma WaitsTail(pending: seq<CommitState>, latest: Round)
    requires pending != [] && pending[0].pendingBlocks == {} && WaitsInOrder(pending, latest)
    ensures WaitsInOrder(pending[1..], latest)
  {
    var rest := pending[1..];
    forall q | 0 <= q < |rest| ensures WaitsAt(rest, latest, q) {
      assert WaitsAt(pending, latest, q + 1);
      forall k | 0 < k < q + 1 ensures pending[k] == rest[k - 1] {}
    }
  }

  lemma {:induction false} DirectWaits(c: Committee, rejects: Stakes, latest: Round, pending: seq<CommitState>)
    ensures WaitsInOrder(DirectPhase(c, rejects, latest, pending), latest)
    decreases |pending|
  {
    if pending != [] {
      DirectWaits(c, rejects, latest, pending[1..]);
      var rest := DirectPhase(c, rejects, latest, pending[1..]);
      if pending[0].pendingBlocks == {} {
        WaitsCons(pending[0], rest, latest);
      } else if !MustWait(pending[0], latest) {
        WaitsCons(DirectlyFinalized(c, rejects, pending[0]), rest, latest);
      }
    }
  }

  lemma {:induction false} PoppedWaits(pending: seq<CommitState>, links: Links, latest: Round)
    requires WaitsInOrder(pending, latest)
    ensures WaitsInOrder(Popped(pending, links).pending, latest)
    decreases |pending|
  {
    if pending != [] && IsDecided(pending[0]) {
      WaitsTail(pending, latest);
      PoppedWaits(pending[1..], links - References(pending[0].commit.blocks), latest);
    }
  }

  // ---- Indirect finalization ----

  /** No pending transaction of the first commit could be decided, unless it is the only commit. */
  ghost predicate Quiet(c: Committee, rejects: Stakes, pending: seq<CommitState>, links: Links) {
    |pending| > 1 && pending[0].pendingBlocks == {} ==>
      forall r, t | t in On(pending[0].pendingTransactions, r) ::
        !c.ReachedQuorum(StakeOn(rejects, r, t)) && !Accepted(c, links, r, t)
  }

  /** A turn decides each pending transaction that it can: late rejects first, then accepted ones, then the deadline. */
  lemma TurnIs(c: Committee, rejects: Stakes, links: Links, latest: Round, s: CommitState, s': CommitState)
    requires s' == IndirectlyFinalized(c, rejects, links, latest, s)
    ensures forall r, t :: t in On(s'.pendingTransactions, r) <==>
            && t in On(s.pendingTransactions, r) && s.commit.leader.round + 3 > latest
            && !c.ReachedQuorum(StakeOn(rejects, r, t)) && !Accepted(c, links, r, t)
    ensures forall r, t :: t in On(s'.rejectedTransactions, r) <==>
            || t in On(s.rejectedTransactions, r)
            || (&& t in On(s.pendingTransactions, r)
                && (|| c.ReachedQuorum(StakeOn(rejects, r, t))
                    || (s.commit.leader.round + 3 <= latest && !Accepted(c, links, r, t))))
  {
    forall r, t
      ensures t in On(s'.pendingTransactions, r) <==>
              && t in On(s.pendingTransactions, r) && s.commit.leader.round + 3 > latest
              && !c.ReachedQuorum(StakeOn(rejects, r, t)) && !Accepted(c, links, r, t)
    {
      FinalityRuns.IndirectDecides(c, rejects, links, latest, s, r, t);
    }
    forall r, t
      ensures t in On(s'.rejectedTransactions, r) <==>
              || t in On(s.rejectedTransactions, r)
              || (&& t in On(s.pendingTransactions, r)
                  && (|| c.ReachedQuorum(StakeOn(rejects, r, t))
                      || (s.commit.leader.round + 3 <= latest && !Accepted(c, links, r, t))))
    {
      FinalityRuns.IndirectDecides(c, rejects, links, latest, s, r, t);
    }
  }

  /** What a turn leaves pending is neither rejected by a quorum nor accepted. */
  lemma TurnIsQuiet(c: Committee, rejects: Stakes, links: Links, latest: Round, s: CommitState, r: BlockRef, t: nat)
    requires t in On(IndirectlyFinalized(c, rejects, links, latest, s).pendingTransactions, r)
    ensures !c.ReachedQuorum(StakeOn(rejects, r, t)) && !Accepted(c, links, r, t)
  {
    FinalityRuns.IndirectDecides(c, rejects, links, latest, s, r, t);
  }

  lemma {:induction false} IndirectEnds(c: Committee, rejects: Stakes, pending: seq<CommitState>, links: Links,
      latest: Round)
    requires WaitsInOrder(pending, latest)
    ensures var p := IndirectPhase(c, rejects, pending, links);
            WaitsInOrder(p.pending, latest) && Quiet(c, rejects, p.pending, p.links)
    decreases |pending|
  {
    if |pending| > 1 && pending[0].pendingBlocks == {} {
      var last := pending[|pending| - 1].commit.leader.round;
      var first := IndirectlyFinalized(c, rejects, links, last, pending[0]);
      WaitsTail(pending, latest);
      WaitsCons(first, pending[1..], latest);
      PoppedWaits([first] + pending[1..], links, latest);
      var p := Popped([first] + pending[1..], links);
      if p.outputs != [] {
        IndirectEnds(c, rejects, p.pending, p.links, latest);
      } else {
        forall r, t | t in On(first.pendingTransactions, r)
          ensures !c.ReachedQuorum(StakeOn(rejects, r, t)) && !Accepted(c, links, r, t)
        {
          TurnIsQuiet(c, rejects, links, last, pending[0], r, t);
        }
        PoppedNone([first] + pending[1..], links);
      }
    }
  }

  lemma PoppedNone(pending: seq<CommitState>, links: Links)
    requires Popped(pending, links).outputs == []
    ensures Popped(pending, links) == Popping(pending, links, [])
  {}

  /** What one call leaves in the buffer. */
  lemma ProcessedEnds(c: Committee, f: Finalizer, commit: SubDag, rejects: Stakes)
    ensures var p := Processed(c, f, commit, rejects);
            WaitsInOrder(p.pending, commit.leader.round) && Quiet(c, rejects, p.pending, p.links)
  {
    var latest := commit.leader.round;
    var direct := DirectPhase(c, rejects, latest, f.pending + [NewCommit(commit)]);
    DirectWaits(c, rejects, latest, f.pending + [NewCommit(commit)]);
    PoppedWaits(direct, f.links, latest);
    var p := Popped(direct, f.links);
    IndirectEnds(c, rejects, p.pending, LinkCommit(p.links, commit.blocks), latest);
  }
}
