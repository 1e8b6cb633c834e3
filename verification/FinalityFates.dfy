/**
 Over every run each transaction of an output commit is rejected or final for a stated reason. The reasons of
 indirect finalization depend on the commits and on which of them were still linked when each was processed.
 */
module FinalityFates {
  import opened Types
  import opened Committee
  import opened BlockIndex
  import opened VoteLinks
  import opened Finality
  import opened FinalityBuffer
  import opened FinalityVotes
  import opened FinalityRuns

  /** The sequence of all commits: linearizer order, rising leaders, nothing rejected yet. */
  ghost predicate IsCommitSequence(commits: seq<SubDag>) {
    Ordered(commits) && Rising(commits) && forall i | 0 <= i < |commits| :: commits[i].rejected == map[]
  }

  /** The decision on every transaction of an output commit is explained. */
  ghost predicate OutputExplained(c: Committee, h: Linkage, inputs: seq<Input>, i: nat, out: SubDag, r: BlockRef,
      t: nat) {
    if t in On(out.rejected, r) then Rejected(c, h, inputs, i, r, t) else Final(c, h, inputs, i, r, t)
  }

  ghost predicate OutputSettled(c: Committee, h: Linkage, inputs: seq<Input>, i: nat, out: SubDag) {
    forall r, t {:trigger OutputExplained(c, h, inputs, i, out, r, t)} | r in References(out.blocks) ::
      OutputExplained(c, h, inputs, i, out, r, t)
  }

  ghost predicate SettledAt(c: Committee, h: Linkage, inputs: seq<Input>, start: nat, pending: seq<CommitState>, q: nat)
    requires q < |pending|
  {
    Settled(c, h, inputs, start + q, pending[q])
  }

  ghost predicate AllSettled(c: Committee, h: Linkage, inputs: seq<Input>, start: nat, pending: seq<CommitState>) {
    forall q {:trigger SettledAt(c, h, inputs, start, pending, q)} | 0 <= q < |pending| ::
      SettledAt(c, h, inputs, start, pending, q)
  }

  ghost predicate OutputAt(c: Committee, h: Linkage, inputs: seq<Input>, start: nat, outputs: seq<SubDag>, q: nat)
    requires q < |outputs|
  {
    OutputSettled(c, h, inputs, start + q, outputs[q])
  }

  ghost predicate OutputsSettled(c: Committee, h: Linkage, inputs: seq<Input>, start: nat, outputs: seq<SubDag>) {
    forall q {:trigger OutputAt(c, h, inputs, start, outputs, q)} | 0 <= q < |outputs| ::
      OutputAt(c, h, inputs, start, outputs, q)
  }

  /** The stored votes are exact, for the commits from `start` that are linked up to `end`. */
  ghost predicate VotesAt(h: Linkage, start: nat, end: nat, links: Links) {
    h.Valid() && start <= end <= |h.commits| && VotesExact(h, start, end, links)
  }

  /** A decided commit that is output. */
  lemma OutputOfSettled(c: Committee, h: Linkage, inputs: seq<Input>, i: nat, s: CommitState)
    requires IsDecided(s) && Settled(c, h, inputs, i, s) && s.commit.rejected == map[]
    ensures OutputSettled(c, h, inputs, i, Output(s))
  {
    assert s.commit.rejected + s.rejectedTransactions == s.rejectedTransactions;
    forall r, t | r in References(s.commit.blocks) ensures OutputExplained(c, h, inputs, i, Output(s), r, t) {
      assert Explained(c, h, inputs, i, s, r, t);
    }
  }

  lemma SettledTail(c: Committee, h: Linkage, inputs: seq<Input>, start: nat, pending: seq<CommitState>)
    requires pending != [] && AllSettled(c, h, inputs, start, pending)
    ensures Settled(c, h, inputs, start, pending[0]) && AllSettled(c, h, inputs, start + 1, pending[1..])
  {
    assert SettledAt(c, h, inputs, start, pending, 0);
    var tail, next := pending[1..], start + 1;
    forall q | 0 <= q < |tail| ensures SettledAt(c, h, inputs, next, tail, q) {
      assert SettledAt(c, h, inputs, start, pending, q + 1);
    }
  }

  lemma OutputsSettledCons(c: Committee, h: Linkage, inputs: seq<Input>, start: nat, first: SubDag, rest: seq<SubDag>)
    requires OutputSettled(c, h, inputs, start, first) && OutputsSettled(c, h, inputs, start + 1, rest)
    ensures OutputsSettled(c, h, inputs, start, [first] + rest)
  {
    var outs := [first] + rest;
    forall q | 0 <= q < |outs| ensures OutputAt(c, h, inputs, start, outs, q) {
      if q > 0 {
        assert OutputAt(c, h, inputs, start + 1, rest, q - 1);
      }
    }
  }

  lemma OutputsSettledConcat(c: Committee, h: Linkage, inputs: seq<Input>, start: nat, first: seq<SubDag>,
      second: seq<SubDag>)
    requires OutputsSettled(c, h, inputs, start, first) && OutputsSettled(c, h, inputs, start + |first|, second)
    ensures OutputsSettled(c, h, inputs, start, first + second)
  {
    var outs := first + second;
    forall q | 0 <= q < |outs| ensures OutputAt(c, h, inputs, start, outs, q) {
      if q < |first| {
        assert OutputAt(c, h, inputs, start, first, q);
      } else {
        assert OutputAt(c, h, inputs, start + |first|, second, q - |first|);
      }
    }
  }

  /** What holds of the buffer between two pops: its commits begin at `start`, those before `end` are linked. */
  ghost predicate Holding(c: Committee, h: Linkage, inputs: seq<Input>, start: nat, end: nat,
      pending: seq<CommitState>, links: Links)
  {
    && start + |pending| == |inputs| <= |h.commits| && CommitsOf(pending) == h.commits[start..|inputs|]
    && AllSettled(c, h, inputs, start, pending) && VotesAt(h, start, end, links)
    && end <= |inputs| <= end + 1 && (0 < end == |inputs| ==> h.starts[end - 1] <= start)
  }

  lemma HoldingPop(c: Committee, h: Linkage, inputs: seq<Input>, start: nat, end: nat, pending: seq<CommitState>,
      links: Links)
    requires IsCommitSequence(h.commits) && Holding(c, h, inputs, start, end, pending, links) && pending != []
    requires start < end
    ensures Holding(c, h, inputs, start + 1, end, pending[1..], links - References(pending[0].commit.blocks))
  {
    assert CommitsOf(pending)[0] == h.commits[start] == pending[0].commit;
    assert CommitsOf(pending[1..]) == CommitsOf(pending)[1..] == h.commits[start + 1..|inputs|];
    SettledTail(c, h, inputs, start, pending);
    VotesExactPop(h, start, end, links);
  }

  ghost predicate PoppedTo(c: Committee, h: Linkage, inputs: seq<Input>, start: nat, end: nat, p: Popping) {
    && OutputsSettled(c, h, inputs, start, p.outputs)
    && (p.pending != [] ==> Holding(c, h, inputs, start + |p.outputs|, end, p.pending, p.links))
  }

  lemma PoppedToCons(c: Committee, h: Linkage, inputs: seq<Input>, start: nat, end: nat, first: SubDag,
      p: Popping)
    requires OutputSettled(c, h, inputs, start, first) && PoppedTo(c, h, inputs, start + 1, end, p)
    ensures PoppedTo(c, h, inputs, start, end, p.(outputs := [first] + p.outputs))
  {
    OutputsSettledCons(c, h, inputs, start, first, p.outputs);
  }

  lemma FirstOutput(c: Committee, h: Linkage, inputs: seq<Input>, start: nat, end: nat, pending: seq<CommitState>,
      links: Links)
    requires IsCommitSequence(h.commits) && Holding(c, h, inputs, start, end, pending, links) && pending != []
    requires IsDecided(pending[0])
    ensures OutputSettled(c, h, inputs, start, Output(pending[0]))
  {
    assert CommitsOf(pending)[0] == h.commits[start];
    SettledTail(c, h, inputs, start, pending);
    OutputOfSettled(c, h, inputs, start, pending[0]);
  }

  lemma {:induction false} PoppedFates(c: Committee, h: Linkage, inputs: seq<Input>, start: nat, end: nat,
      pending: seq<CommitState>, links: Links)
    requires IsCommitSequence(h.commits) && Holding(c, h, inputs, start, end, pending, links)
    ensures PoppedTo(c, h, inputs, start, end, Popped(pending, links))
    decreases |pending|
  {
    if pending != [] && IsDecided(pending[0]) {
      FirstOutput(c, h, inputs, start, end, pending, links);
      var after := links - References(pending[0].commit.blocks);
      if start < end {
        HoldingPop(c, h, inputs, start, end, pending, links);
        PoppedFates(c, h, inputs, start + 1, end, pending[1..], after);
      } else {
        assert pending[1..] == [];
      }
      PoppedToCons(c, h, inputs, start, end, Output(pending[0]), Popped(pending[1..], after));
    }
  }

  lemma SettledCons(c: Committee, h: Linkage, inputs: seq<Input>, start: nat, first: CommitState,
      rest: seq<CommitState>)
    requires Settled(c, h, inputs, start, first) && AllSettled(c, h, inputs, start + 1, rest)
    ensures AllSettled(c, h, inputs, start, [first] + rest)
  {
    var pending, next := [first] + rest, start + 1;
    forall q | 0 <= q < |pending| ensures SettledAt(c, h, inputs, start, pending, q) {
      if q > 0 {
        assert SettledAt(c, h, inputs, next, rest, q - 1);
      }
    }
  }

  // ---- Direct finalization ----

  lemma {:induction false} DirectFates(c: Committee, h: Linkage, inputs: seq<Input>, start: nat,
      pending: seq<CommitState>)
    requires start + |pending| == |inputs| && AllSettled(c, h, inputs, start, pending)
    requires forall q | 0 <= q < |pending| :: Sound(pending[q]) && pending[q].commit == inputs[start + q].commit
    requires AllAvailable(LastRejects(inputs), pending)
    ensures inputs != [] ==>
            AllSettled(c, h, inputs, start,
              DirectPhase(c, inputs[|inputs| - 1].rejects, inputs[|inputs| - 1].commit.leader.round, pending))
    decreases |pending|
  {
    if pending != [] {
      var last := inputs[|inputs| - 1];
      var first := pending[0];
      assert first.commit == inputs[start + 0].commit && Sound(first);
      SettledTail(c, h, inputs, start, pending);
      assert Available(last.rejects, pending[0]) && AllAvailable(last.rejects, pending[1..]);
      forall q | 0 <= q < |pending[1..]|
        ensures Sound(pending[1..][q]) && pending[1..][q].commit == inputs[start + 1 + q].commit
      {
        assert pending[1..][q] == pending[q + 1] && pending[q + 1].commit == inputs[start + (q + 1)].commit;
      }
      DirectFates(c, h, inputs, start + 1, pending[1..]);
      if first.pendingBlocks == {} {
        SettledCons(c, h, inputs, start, first, DirectPhase(c, last.rejects, last.commit.leader.round, pending[1..]));
      } else if !MustWait(first, last.commit.leader.round) {
        DirectSettles(c, h, inputs, start, first);
        SettledCons(c, h, inputs, start, DirectlyFinalized(c, last.rejects, first),
          DirectPhase(c, last.rejects, last.commit.leader.round, pending[1..]));
      }
    }
  }

  // ---- Indirect finalization ----

  ghost predicate StillOpen(h: Linkage, inputs: seq<Input>, i: nat) {
    i < |inputs| <= |h.commits| && Open(h.commits, i, |inputs| - 1)
  }

  ghost predicate AllOpen(h: Linkage, inputs: seq<Input>, start: nat) {
    forall i {:trigger StillOpen(h, inputs, i)} | start <= i < |inputs| :: StillOpen(h, inputs, i)
  }

  /** For the first commit, counting over the links is counting over the commits from it on. */
  lemma FirstAccepted(c: Committee, h: Linkage, inputs: seq<Input>, start: nat, pending: seq<CommitState>, links: Links,
      r: BlockRef, t: nat)
    requires Holding(c, h, inputs, start, |inputs|, pending, links)
    requires pending != [] && Linked(AllBlocks(CommitsOf(pending)), links)
    ensures CountsAlike(c, h, start, |inputs| - 1, links, r, t)
  {
    AcceptedByBlocks(c, h, start, |inputs| - 1, links, r, t);
  }

  lemma FirstTurn(c: Committee, h: Linkage, inputs: seq<Input>, start: nat, pending: seq<CommitState>, links: Links)
    requires Holding(c, h, inputs, start, |inputs|, pending, links) && Follow(inputs, h)
    requires AllOpen(h, inputs, start)
    requires pending != [] && pending[0].pendingBlocks == {} && Linked(AllBlocks(CommitsOf(pending)), links)
    ensures var last := inputs[|inputs| - 1];
            Settled(c, h, inputs, start,
              IndirectlyFinalized(c, last.rejects, links, last.commit.leader.round, pending[0]))
  {
    var j := |inputs| - 1;
    SettledTail(c, h, inputs, start, pending);
    assert StillOpen(h, inputs, start);
    assert CommitsOf(pending)[0] == pending[0].commit == h.commits[start];
    assert Commits(inputs)[j] == inputs[j].commit == h.commits[j];
    forall r, t | r in References(pending[0].commit.blocks) ensures CountsAlike(c, h, start, j, links, r, t) {
      FirstAccepted(c, h, inputs, start, pending, links, r, t);
    }
    IndirectSettles(c, h, inputs, start, j, links, pending[0],
      IndirectlyFinalized(c, inputs[j].rejects, links, h.commits[j].leader.round, pending[0]));
  }

  lemma HoldingReplaced(c: Committee, h: Linkage, inputs: seq<Input>, start: nat, end: nat,
      pending: seq<CommitState>, links: Links, first: CommitState)
    requires Holding(c, h, inputs, start, end, pending, links) && pending != [] && first.commit == pending[0].commit
    requires Settled(c, h, inputs, start, first)
    ensures Holding(c, h, inputs, start, end, [first] + pending[1..], links)
  {
    SettledTail(c, h, inputs, start, pending);
    SettledCons(c, h, inputs, start, first, pending[1..]);
    assert CommitsOf([first] + pending[1..]) == CommitsOf(pending);
  }

  lemma PoppedToConcat(c: Committee, h: Linkage, inputs: seq<Input>, start: nat, next: nat, end: nat,
      first: seq<SubDag>, p: Popping)
    requires OutputsSettled(c, h, inputs, start, first) && PoppedTo(c, h, inputs, next, end, p)
    requires next == start + |first|
    ensures PoppedTo(c, h, inputs, start, end, p.(outputs := first + p.outputs))
  {
    OutputsSettledConcat(c, h, inputs, start, first, p.outputs);
  }

  /** One turn: the first commit looked at again, and what is popped then. */
  lemma TurnFates(c: Committee, h: Linkage, inputs: seq<Input>, start: nat, pending: seq<CommitState>,
      links: Links)
    requires IsCommitSequence(h.commits) && inputs != [] && Follow(inputs, h)
    requires AllOpen(h, inputs, start)
    requires Holding(c, h, inputs, start, |inputs|, pending, links) && Linked(AllBlocks(CommitsOf(pending)), links)
    requires pending != [] && pending[0].pendingBlocks == {}
    ensures var last := inputs[|inputs| - 1];
            var first := IndirectlyFinalized(c, last.rejects, links, last.commit.leader.round, pending[0]);
            PoppedTo(c, h, inputs, start, |inputs|, Popped([first] + pending[1..], links))
  {
    var last := inputs[|inputs| - 1];
    var first := IndirectlyFinalized(c, last.rejects, links, last.commit.leader.round, pending[0]);
    FirstTurn(c, h, inputs, start, pending, links);
    HoldingReplaced(c, h, inputs, start, |inputs|, pending, links, first);
    PoppedFates(c, h, inputs, start, |inputs|, [first] + pending[1..], links);
  }

  /** A turn in terms of its result only. */
  lemma TurnResult(c: Committee, h: Linkage, inputs: seq<Input>, start: nat, pending: seq<CommitState>,
      links: Links) returns (p: Popping)
    requires IsCommitSequence(h.commits) && inputs != [] && Follow(inputs, h)
    requires AllOpen(h, inputs, start)
    requires Holding(c, h, inputs, start, |inputs|, pending, links)
    requires Buffered(pending, links, inputs[|inputs| - 1].commit.leader.round)
    requires |pending| > 1 && pending[0].pendingBlocks == {}
    ensures PoppedTo(c, h, inputs, start, |inputs|, p) && |p.pending| + |p.outputs| == |pending|
    ensures p.pending != [] ==> Buffered(p.pending, p.links, inputs[|inputs| - 1].commit.leader.round)
    ensures var rejects := inputs[|inputs| - 1].rejects;
            IndirectPhase(c, rejects, pending, links) ==
            if p.outputs == [] then p else var rest := IndirectPhase(c, rejects, p.pending, p.links);
              rest.(outputs := p.outputs + rest.outputs)
  {
    var last := inputs[|inputs| - 1];
    TurnFates(c, h, inputs, start, pending, links);
    var first := IndirectlyFinalized(c, last.rejects, links, last.commit.leader.round, pending[0]);
    IndirectTurn(c, last.rejects, pending, links, first, last.commit.leader.round);
    p := Popped([first] + pending[1..], links);
  }

  /** What is known of the commits and of the last input. */
  ghost predicate Setting(h: Linkage, inputs: seq<Input>) {
    IsCommitSequence(h.commits) && inputs != [] && Follow(inputs, h)
  }

  ghost predicate Continues(c: Committee, h: Linkage, inputs: seq<Input>, start: nat, pending: seq<CommitState>,
      links: Links)
    requires inputs != []
  {
    pending != [] ==>
      Holding(c, h, inputs, start, |inputs|, pending, links) &&
        Buffered(pending, links, inputs[|inputs| - 1].commit.leader.round)
  }

  lemma {:induction false} IndirectFates(c: Committee, h: Linkage, inputs: seq<Input>, start: nat,
      pending: seq<CommitState>, links: Links)
    requires Setting(h, inputs) && AllOpen(h, inputs, start) && Continues(c, h, inputs, start, pending, links)
    ensures PoppedTo(c, h, inputs, start, |inputs|, IndirectPhase(c, inputs[|inputs| - 1].rejects, pending, links))
    decreases |pending|, 0
  {
    if |pending| > 1 && pending[0].pendingBlocks == {} {
      var p := TurnResult(c, h, inputs, start, pending, links);
      if p.outputs != [] {
        var next := start + |p.outputs|;
        OpenFrom(h, inputs, start, next);
        TurnContinues(c, h, inputs, start, next, p);
        IndirectRest(c, h, inputs, start, next, p);
      }
    } else {
      NothingPopped(c, h, inputs, start, pending, links);
    }
  }

  lemma TurnContinues(c: Committee, h: Linkage, inputs: seq<Input>, start: nat, next: nat, p: Popping)
    requires inputs != [] && PoppedTo(c, h, inputs, start, |inputs|, p) && next == start + |p.outputs|
    requires p.pending != [] ==> Buffered(p.pending, p.links, inputs[|inputs| - 1].commit.leader.round)
    ensures Continues(c, h, inputs, next, p.pending, p.links) && OutputsSettled(c, h, inputs, start, p.outputs)
  {}

  lemma OpenFrom(h: Linkage, inputs: seq<Input>, start: nat, later: nat)
    requires AllOpen(h, inputs, start) && start <= later
    ensures AllOpen(h, inputs, later)
  {}

  lemma {:induction false} IndirectRest(c: Committee, h: Linkage, inputs: seq<Input>, start: nat, next: nat, p: Popping)
    requires Setting(h, inputs) && AllOpen(h, inputs, next) && Continues(c, h, inputs, next, p.pending, p.links)
    requires OutputsSettled(c, h, inputs, start, p.outputs) && next == start + |p.outputs|
    ensures var rest := IndirectPhase(c, inputs[|inputs| - 1].rejects, p.pending, p.links);
            PoppedTo(c, h, inputs, start, |inputs|, rest.(outputs := p.outputs + rest.outputs))
    decreases |p.pending|, 1
  {
    IndirectFates(c, h, inputs, next, p.pending, p.links);
    PoppedToConcat(c, h, inputs, start, next, |inputs|, p.outputs,
      IndirectPhase(c, inputs[|inputs| - 1].rejects, p.pending, p.links));
  }

  lemma NothingPopped(c: Committee, h: Linkage, inputs: seq<Input>, start: nat, pending: seq<CommitState>,
      links: Links)
    requires pending != [] ==> Holding(c, h, inputs, start, |inputs|, pending, links)
    ensures PoppedTo(c, h, inputs, start, |inputs|, Popping(pending, links, []))
  {}

  // ---- One step ----

  lemma OutputsStay(c: Committee, h: Linkage, inputs: seq<Input>, n: nat, outputs: seq<SubDag>)
    requires n <= |inputs| && OutputsSettled(c, h, inputs[..n], 0, outputs)
    ensures OutputsSettled(c, h, inputs, 0, outputs)
  {
    forall q | 0 <= q < |outputs| ensures OutputAt(c, h, inputs, 0, outputs, q) {
      assert OutputAt(c, h, inputs[..n], 0, outputs, q);
      forall r, t | r in References(outputs[q].blocks) ensures OutputExplained(c, h, inputs, q, outputs[q], r, t) {
        assert OutputExplained(c, h, inputs[..n], q, outputs[q], r, t);
        EvidenceStays(c, h, inputs, n, q, r, t);
      }
    }
  }

  /** What is known between two calls. */
  ghost predicate Between(c: Committee, h: Linkage, inputs: seq<Input>, q: Popping) {
    && Follow(inputs, h) && Conserves(Commits(inputs), q)
    && PoppedTo(c, h, inputs, 0, |inputs|, q)
  }

  lemma NewSettled(c: Committee, h: Linkage, inputs: seq<Input>, start: nat, pending: seq<CommitState>, commit: SubDag)
    requires inputs != [] && AllSettled(c, h, inputs[..|inputs| - 1], start, pending)
    ensures AllSettled(c, h, inputs, start, pending + [NewCommit(commit)])
  {
    var queue := pending + [NewCommit(commit)];
    forall q | 0 <= q < |queue| ensures SettledAt(c, h, inputs, start, queue, q) {
      if q < |pending| {
        assert SettledAt(c, h, inputs[..|inputs| - 1], start, pending, q);
        SettledStays(c, h, inputs, |inputs| - 1, start + q, pending[q]);
      }
    }
  }

  lemma QueueCommits(h: Linkage, inputs: seq<Input>, start: nat, pending: seq<CommitState>)
    requires Setting(h, inputs) && start <= |inputs| - 1
    requires CommitsOf(pending) == Commits(inputs[..|inputs| - 1])[start..]
    ensures CommitsOf(pending + [NewCommit(inputs[|inputs| - 1].commit)]) == h.commits[start..|inputs|]
  {
    var n := |inputs| - 1;
    FollowPrefix(inputs, h, n);
    assert CommitsOf(pending + [NewCommit(inputs[n].commit)]) == CommitsOf(pending) + [inputs[n].commit];
    assert Commits(inputs)[n] == inputs[n].commit == h.commits[n];
    assert h.commits[..n][start..] == h.commits[start..n];
    assert h.commits[start..n] + [h.commits[n]] == h.commits[start..n + 1];
  }

  lemma QueueVotes(c: Committee, h: Linkage, inputs: seq<Input>, q: Popping)
    requires Follow(inputs, h) && PoppedTo(c, h, inputs, 0, |inputs|, q) && |q.outputs| + |q.pending| == |inputs|
    ensures VotesAt(h, |q.outputs|, |inputs|, q.links) && AllSettled(c, h, inputs, |q.outputs|, q.pending)
  {}

  lemma BetweenCounts(c: Committee, h: Linkage, inputs: seq<Input>, q: Popping)
    requires Between(c, h, inputs, q)
    ensures |q.outputs| + |q.pending| == |inputs| && CommitsOf(q.pending) == Commits(inputs)[|q.outputs|..]
  {
    assert |CommitsOf(q.pending)| == |Commits(inputs)| - |q.outputs|;
  }

  lemma NewHolding(c: Committee, h: Linkage, inputs: seq<Input>, q: Popping)
    requires Setting(h, inputs) && Between(c, h, inputs[..|inputs| - 1], q)
    ensures Holding(c, h, inputs, |q.outputs|, |inputs| - 1, q.pending + [NewCommit(inputs[|inputs| - 1].commit)],
            q.links)
  {
    var n := |inputs| - 1;
    BetweenCounts(c, h, inputs[..n], q);
    QueueCommits(h, inputs, |q.outputs|, q.pending);
    QueueVotes(c, h, inputs[..n], q);
    NewSettled(c, h, inputs, |q.outputs|, q.pending, inputs[n].commit);
  }

  lemma OpenWhileRecent(commits: seq<SubDag>, n: nat, start: nat, pending: seq<CommitState>, i: nat)
    requires n < |commits| && start <= i <= n && Rising(commits) && CommitsOf(pending) == commits[..n][start..]
    requires n > 0 ==> Recent(pending, commits[n - 1].leader.round)
    ensures Open(commits, i, n)
  {
    if i < n {
      assert commits[..n][start..][i - start] == commits[i] == CommitsOf(pending)[i - start];
      assert commits[i].leader.round + INDIRECT_REJECT_DEPTH > commits[n - 1].leader.round;
    }
  }

  lemma AllStillOpen(h: Linkage, inputs: seq<Input>, start: nat, pending: seq<CommitState>)
    requires Setting(h, inputs) && start <= |inputs| - 1
    requires CommitsOf(pending) == Commits(inputs[..|inputs| - 1])[start..]
    requires |inputs| > 1 ==> Recent(pending, inputs[|inputs| - 2].commit.leader.round)
    ensures AllOpen(h, inputs, start)
  {
    var n := |inputs| - 1;
    FollowPrefix(inputs, h, n);
    assert n > 0 ==> Commits(inputs)[n - 1] == h.commits[n - 1];
    forall i | start <= i < |inputs| ensures StillOpen(h, inputs, i) {
      OpenWhileRecent(h.commits, n, start, pending, i);
    }
  }

  lemma BufferedAreOpen(h: Linkage, inputs: seq<Input>, q: Popping)
    requires Setting(h, inputs) && Conserves(Commits(inputs[..|inputs| - 1]), q)
    ensures AllOpen(h, inputs, |q.outputs|)
  {
    AllStillOpen(h, inputs, |q.outputs|, q.pending);
  }

  lemma DirectHolding(c: Committee, h: Linkage, inputs: seq<Input>, start: nat, queue: seq<CommitState>,
      links: Links)
    requires Setting(h, inputs) && Holding(c, h, inputs, start, |inputs| - 1, queue, links)
    requires AllSound(queue) && AllAvailable(inputs[|inputs| - 1].rejects, queue)
    ensures Holding(c, h, inputs, start, |inputs| - 1,
            DirectPhase(c, inputs[|inputs| - 1].rejects, inputs[|inputs| - 1].commit.leader.round, queue), links)
  {
    var last := inputs[|inputs| - 1];
    forall q | 0 <= q < |queue| ensures Sound(queue[q]) && queue[q].commit == inputs[start + q].commit {
      assert SoundAt(queue, q) && CommitsOf(queue)[q] == h.commits[start + q] == Commits(inputs)[start + q];
    }
    DirectFates(c, h, inputs, start, queue);
    DirectKeepsCommits(c, last.rejects, last.commit.leader.round, queue);
  }

  lemma LinkHolding(c: Committee, h: Linkage, inputs: seq<Input>, start: nat, pending: seq<CommitState>,
      links: Links)
    requires Setting(h, inputs) && Holding(c, h, inputs, start, |inputs| - 1, pending, links) && pending != []
    requires h.starts[|inputs| - 1] == start
    requires Linked(AllBlocks(CommitsOf(pending)[..|pending| - 1]), links)
    requires Follows(AllBlocks(CommitsOf(pending)[..|pending| - 1]), inputs[|inputs| - 1].commit.blocks)
    ensures Holding(c, h, inputs, start, |inputs|, pending, LinkCommit(links, inputs[|inputs| - 1].commit.blocks))
  {
    var n := |inputs| - 1;
    var commit := inputs[n].commit;
    assert CommitsOf(pending)[..|pending| - 1] == h.commits[start..n];
    assert h.commits[n] == Commits(inputs)[n] == commit && h.commits[start..n + 1] == h.commits[start..n] + [commit];
    VotesExactLink(h, start, n, links);
  }

  /** The certifier knows the blocks of all commits to be looked at. */
  ghost predicate Informed(inputs: seq<Input>, pending: seq<CommitState>)
    requires inputs != []
  {
    var last := inputs[|inputs| - 1];
    AllAvailable(last.rejects, pending) && References(last.commit.blocks) <= last.rejects.Keys
  }

  /** The state after the direct part of the last input, with its outputs explained. */
  lemma DirectResult(c: Committee, h: Linkage, inputs: seq<Input>, q: Popping)
    requires Setting(h, inputs) && Between(c, h, inputs[..|inputs| - 1], q)
    requires Next(Finalizer(q.pending, q.links), inputs[|inputs| - 1].commit) && Informed(inputs, q.pending)
    ensures var last := inputs[|inputs| - 1];
            var p := Popped(DirectPhase(c, last.rejects, last.commit.leader.round,
              q.pending + [NewCommit(last.commit)]), q.links);
            PoppedTo(c, h, inputs, |q.outputs|, |inputs| - 1, p)
  {
    var last := inputs[|inputs| - 1];
    var queue := q.pending + [NewCommit(last.commit)];
    NewHolding(c, h, inputs, q);
    NewIsReady(last.rejects, q.pending, last.commit);
    DirectHolding(c, h, inputs, |q.outputs|, queue, q.links);
    PoppedFates(c, h, inputs, |q.outputs|, |inputs| - 1, DirectPhase(c, last.rejects, last.commit.leader.round, queue),
      q.links);
  }

  /** From the direct part to the end of the call. */
  lemma IndirectResult(c: Committee, h: Linkage, inputs: seq<Input>, start: nat, d: Popping)
    requires Setting(h, inputs) && AllOpen(h, inputs, start) && PoppedTo(c, h, inputs, start, |inputs| - 1, d)
    requires d.pending != [] && h.starts[|inputs| - 1] == start + |d.outputs|
    requires Linked(AllBlocks(CommitsOf(d.pending)[..|d.pending| - 1]), d.links)
    requires Follows(AllBlocks(CommitsOf(d.pending)[..|d.pending| - 1]), inputs[|inputs| - 1].commit.blocks)
    requires Buffered(d.pending, LinkCommit(d.links, inputs[|inputs| - 1].commit.blocks),
             inputs[|inputs| - 1].commit.leader.round)
    ensures var rest :=
            IndirectPhase(c, inputs[|inputs| - 1].rejects, d.pending,
              LinkCommit(d.links, inputs[|inputs| - 1].commit.blocks));
            PoppedTo(c, h, inputs, start, |inputs|, rest.(outputs := d.outputs + rest.outputs))
  {
    LinkHolding(c, h, inputs, start + |d.outputs|, d.pending, d.links);
    OpenFrom(h, inputs, start, start + |d.outputs|);
    IndirectRest(c, h, inputs, start, start + |d.outputs|,
      Popping(d.pending, LinkCommit(d.links, inputs[|inputs| - 1].commit.blocks), d.outputs));
  }

  lemma BetweenFacts(c: Committee, h: Linkage, inputs: seq<Input>, q: Popping)
    requires Between(c, h, inputs, q)
    ensures Conserves(Commits(inputs), q) && Inv(Finalizer(q.pending, q.links))
  {}

  /** What the direct part of a call leaves. */
  ghost function DirectOf(c: Committee, q: Popping, input: Input): Popping {
    Popped(DirectPhase(c, input.rejects, input.commit.leader.round, q.pending + [NewCommit(input.commit)]), q.links)
  }

  lemma BufferFacts(commits: seq<SubDag>, commit: SubDag, d: Popping)
    requires DirectKeeps(commits, commit, d) && d.pending != []
    ensures Linked(AllBlocks(CommitsOf(d.pending)[..|d.pending| - 1]), d.links)
    ensures Follows(AllBlocks(CommitsOf(d.pending)[..|d.pending| - 1]), commit.blocks)
    ensures Buffered(d.pending, LinkCommit(d.links, commit.blocks), commit.leader.round)
  {}

  lemma DirectIsKept(c: Committee, q: Popping, input: Input, d: Popping)
    requires Inv(Finalizer(q.pending, q.links)) && Next(Finalizer(q.pending, q.links), input.commit)
    requires d == DirectOf(c, q, input)
    ensures DirectKeeps(CommitsOf(q.pending) + [input.commit], input.commit, d)
  {
    DirectPart(c, Finalizer(q.pending, q.links), input.commit, input.rejects);
  }

  lemma DirectIsBuffered(c: Committee, q: Popping, input: Input, d: Popping)
    requires Inv(Finalizer(q.pending, q.links)) && Next(Finalizer(q.pending, q.links), input.commit)
    requires d == DirectOf(c, q, input) && d.pending != []
    ensures Linked(AllBlocks(CommitsOf(d.pending)[..|d.pending| - 1]), d.links)
    ensures Follows(AllBlocks(CommitsOf(d.pending)[..|d.pending| - 1]), input.commit.blocks)
    ensures Buffered(d.pending, LinkCommit(d.links, input.commit.blocks), input.commit.leader.round)
  {
    DirectIsKept(c, q, input, d);
    BufferFacts(CommitsOf(q.pending) + [input.commit], input.commit, d);
  }

  lemma ProcessedIs(c: Committee, q: Popping, input: Input, d: Popping)
    requires d == DirectOf(c, q, input)
    ensures StartAt(c, q, input) == |q.outputs| + |d.outputs|
    ensures Processed(c, Finalizer(q.pending, q.links), input.commit, input.rejects) ==
            if d.pending == [] then d
            else var rest := IndirectPhase(c, input.rejects, d.pending, LinkCommit(d.links, input.commit.blocks));
                 rest.(outputs := d.outputs + rest.outputs)
  {}

  lemma RestFates(c: Committee, h: Linkage, inputs: seq<Input>, q: Popping, d: Popping)
    requires Setting(h, inputs) && Conserves(Commits(inputs[..|inputs| - 1]), q)
    requires Inv(Finalizer(q.pending, q.links)) && Next(Finalizer(q.pending, q.links), inputs[|inputs| - 1].commit)
    requires d == DirectOf(c, q, inputs[|inputs| - 1]) && d.pending != []
    requires PoppedTo(c, h, inputs, |q.outputs|, |inputs| - 1, d)
    requires h.starts[|inputs| - 1] == |q.outputs| + |d.outputs|
    ensures var last := inputs[|inputs| - 1];
            var rest := IndirectPhase(c, last.rejects, d.pending, LinkCommit(d.links, last.commit.blocks));
            PoppedTo(c, h, inputs, |q.outputs|, |inputs|, rest.(outputs := d.outputs + rest.outputs))
  {
    BufferedAreOpen(h, inputs, q);
    DirectIsBuffered(c, q, inputs[|inputs| - 1], d);
    IndirectResult(c, h, inputs, |q.outputs|, d);
  }

  lemma ProcessedFates(c: Committee, h: Linkage, inputs: seq<Input>, q: Popping) returns (p: Popping)
    requires Setting(h, inputs) && Between(c, h, inputs[..|inputs| - 1], q)
    requires Next(Finalizer(q.pending, q.links), inputs[|inputs| - 1].commit) && Informed(inputs, q.pending)
    requires h.starts[|inputs| - 1] == StartAt(c, q, inputs[|inputs| - 1])
    ensures PoppedTo(c, h, inputs, |q.outputs|, |inputs|, p)
    ensures Advanced(c, q, inputs[|inputs| - 1]) == p.(outputs := q.outputs + p.outputs)
  {
    var last := inputs[|inputs| - 1];
    p := Processed(c, Finalizer(q.pending, q.links), last.commit, last.rejects);
    var d := DirectOf(c, q, last);
    DirectResult(c, h, inputs, q);
    ProcessedIs(c, q, last, d);
    if d.pending != [] {
      BetweenFacts(c, h, inputs[..|inputs| - 1], q);
      RestFates(c, h, inputs, q, d);
    }
  }

  lemma AfterEarlier(c: Committee, h: Linkage, inputs: seq<Input>, earlier: seq<SubDag>, p: Popping)
    requires inputs != [] && OutputsSettled(c, h, inputs[..|inputs| - 1], 0, earlier)
    requires PoppedTo(c, h, inputs, |earlier|, |inputs|, p)
    ensures PoppedTo(c, h, inputs, 0, |inputs|, p.(outputs := earlier + p.outputs))
  {
    OutputsStay(c, h, inputs, |inputs| - 1, earlier);
    PoppedToConcat(c, h, inputs, 0, |earlier|, |inputs|, earlier, p);
  }

  lemma AdvancedFates(c: Committee, h: Linkage, inputs: seq<Input>, q: Popping)
    requires Setting(h, inputs) && Between(c, h, inputs[..|inputs| - 1], q)
    requires Next(Finalizer(q.pending, q.links), inputs[|inputs| - 1].commit) && Informed(inputs, q.pending)
    requires h.starts[|inputs| - 1] == StartAt(c, q, inputs[|inputs| - 1])
    ensures PoppedTo(c, h, inputs, 0, |inputs|, Advanced(c, q, inputs[|inputs| - 1]))
  {
    var p := ProcessedFates(c, h, inputs, q);
    AfterEarlier(c, h, inputs, q.outputs, p);
  }

  lemma StartFates(c: Committee, h: Linkage)
    ensures PoppedTo(c, h, [], 0, 0, Popping([], map[], []))
  {}

  lemma RunStepFates(c: Committee, h: Linkage, inputs: seq<Input>, q: Popping, p: Popping)
    requires Setting(h, inputs) && Between(c, h, inputs[..|inputs| - 1], q)
    requires Next(Finalizer(q.pending, q.links), inputs[|inputs| - 1].commit) && Informed(inputs, q.pending)
    requires h.starts[|inputs| - 1] == StartAt(c, q, inputs[|inputs| - 1])
    requires Conserves(Commits(inputs), p) && p == Advanced(c, q, inputs[|inputs| - 1])
    ensures Between(c, h, inputs, p)
  {
    AdvancedFates(c, h, inputs, q);
  }

  /** The linkage is that of the run, and perhaps of what comes after it. */
  ghost predicate IsLinkageOf(c: Committee, h: Linkage, inputs: seq<Input>) {
    Follow(inputs, h) && Starts(c, inputs) == h.starts[..|inputs|]
  }

  lemma LinkagePrefix(c: Committee, h: Linkage, inputs: seq<Input>)
    requires IsLinkageOf(c, h, inputs) && inputs != []
    ensures IsLinkageOf(c, h, inputs[..|inputs| - 1])
    ensures h.starts[|inputs| - 1] == StartAt(c, Run(c, inputs[..|inputs| - 1]), inputs[|inputs| - 1])
  {
    var n := |inputs| - 1;
    FollowPrefix(inputs, h, n);
    StartsPrefix(c, inputs, n);
    assert h.starts[..n] == h.starts[..|inputs|][..n];
    assert h.starts[n] == h.starts[..|inputs|][n];
  }

  lemma RunInforms(c: Committee, inputs: seq<Input>)
    requires IsRun(c, inputs) && inputs != []
    ensures var q := Run(c, inputs[..|inputs| - 1]);
            Informed(inputs, q.pending) && Next(Finalizer(q.pending, q.links), inputs[|inputs| - 1].commit)
  {
    var front := inputs[..|inputs| - 1];
    RunConserves(c, front);
    RetainsAvailable(LastRejects(front), inputs[|inputs| - 1].rejects, Run(c, front).pending);
  }

  /** All that the last step of a run builds on, `q` being what the run was before it. */
  lemma RunLast(c: Committee, h: Linkage, inputs: seq<Input>, q: Popping) returns (p: Popping)
    requires IsCommitSequence(h.commits) && IsLinkageOf(c, h, inputs) && IsRun(c, inputs) && inputs != []
    requires q == Run(c, inputs[..|inputs| - 1])
    ensures Setting(h, inputs) && Informed(inputs, q.pending)
    ensures Next(Finalizer(q.pending, q.links), inputs[|inputs| - 1].commit)
    ensures h.starts[|inputs| - 1] == StartAt(c, q, inputs[|inputs| - 1])
    ensures p == Run(c, inputs) == Advanced(c, q, inputs[|inputs| - 1]) && Conserves(Commits(inputs), p)
  {
    RunConserves(c, inputs);
    LinkagePrefix(c, h, inputs);
    RunInforms(c, inputs);
    p := Run(c, inputs);
  }

  lemma RunFront(c: Committee, inputs: seq<Input>)
    requires IsRun(c, inputs) && inputs != []
    ensures IsRun(c, inputs[..|inputs| - 1])
  {}

  lemma {:induction false} FatesOf(c: Committee, h: Linkage, inputs: seq<Input>) returns (p: Popping)
    requires IsCommitSequence(h.commits) && IsLinkageOf(c, h, inputs) && IsRun(c, inputs)
    ensures p == Run(c, inputs) && Between(c, h, inputs, p)
    decreases |inputs|
  {
    if inputs == [] {
      RunConserves(c, inputs);
      StartFates(c, h);
      p := Run(c, inputs);
    } else {
      LinkagePrefix(c, h, inputs);
      RunFront(c, inputs);
      var q := FatesOf(c, h, inputs[..|inputs| - 1]);
      p := RunLast(c, h, inputs, q);
      RunStepFates(c, h, inputs, q, p);
    }
  }

  /**
   Over every run on a sequence of commits, in every output commit each rejected transaction was rejected by a
   quorum or still lacked acceptance when the first leader three rounds above was committed, and each other
   transaction had no reject vote when examined or was accepted before that (`PoppedTo` has all outputs
   settled). The stored votes are exactly those of the linked chains, for every block still buffered.
   */
  lemma RunFates(c: Committee, h: Linkage, inputs: seq<Input>)
    requires IsCommitSequence(h.commits) && IsLinkageOf(c, h, inputs) && IsRun(c, inputs)
    ensures Between(c, h, inputs, Run(c, inputs))
  {
    var p := FatesOf(c, h, inputs);
  }
}
