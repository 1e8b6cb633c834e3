/** How the transactions of committed sub-DAGs become final or rejected (`CommitFinalizer`). */
module Finality {
  import opened Types
  import opened Committee
  import opened BlockIndex
  import opened VoteLinks

  /** Rounds above a leader after which one of its certificates must be committed (`DEFAULT_WAVE_LENGTH`). */
  const WAVE_LENGTH: Round := 3

  /** Rounds above a leader after which its undecided transactions are rejected. */
  const INDIRECT_REJECT_DEPTH: Round := 3

  /** A committed sub-DAG, with the transactions rejected in it once it is finalized. */
  datatype SubDag = SubDag(index: CommitIndex, leader: BlockRef, blocks: seq<Block>, local: bool, rejected: Votes)

  /** Reject stake known to the transaction certifier, for every transaction with a reject vote. */
  type Stakes = map<BlockRef, map<nat, nat>>

  datatype CommitState = CommitState(commit: SubDag, pendingBlocks: set<BlockRef>, pendingTransactions: Votes,
      rejectedTransactions: Votes)

  datatype Finalizer = Finalizer(pending: seq<CommitState>, links: Links)

  function NewCommit(commit: SubDag): CommitState {
    CommitState(commit, References(commit.blocks), map[], map[])
  }

  function VotedOn(rejects: Stakes, r: BlockRef): set<nat> {
    if r in rejects then rejects[r].Keys else {}
  }

  function StakeOn(rejects: Stakes, r: BlockRef, t: nat): nat {
    if r in rejects && t in rejects[r] then rejects[r][t] else 0
  }

  // ---- Maps of transactions ----

  /** Keeps the sets that have an element. */
  function Tidy(v: Votes): Votes {
    map r | r in v && v[r] != {} :: v[r]
  }

  function Without(v: Votes, gone: Votes): Votes {
    map r | r in v && v[r] - On(gone, r) != {} :: v[r] - On(gone, r)
  }

  lemma TidyOn(v: Votes, r: BlockRef)
    ensures On(Tidy(v), r) == On(v, r)
  {}

  lemma WithoutOn(v: Votes, gone: Votes, r: BlockRef)
    ensures On(Without(v, gone), r) == On(v, r) - On(gone, r)
  {}

  lemma MergeOn(a: Votes, b: Votes, r: BlockRef)
    ensures On(Merge(a, b), r) == On(a, r) + On(b, r)
  {}

  // ---- Direct finalization ----

  function Weak(c: Committee, rejects: Stakes, r: BlockRef): set<nat> {
    set t | t in VotedOn(rejects, r) && !c.ReachedQuorum(StakeOn(rejects, r, t))
  }

  function Strong(c: Committee, rejects: Stakes, r: BlockRef): set<nat> {
    set t | t in VotedOn(rejects, r) && c.ReachedQuorum(StakeOn(rejects, r, t))
  }

  /** Transactions without a reject vote are final, those rejected by a quorum are rejected, the others stay pending. */
  function DirectlyFinalized(c: Committee, rejects: Stakes, s: CommitState): CommitState {
    s.(pendingBlocks := {},
       pendingTransactions := Tidy(map r | r in s.pendingBlocks :: Weak(c, rejects, r)),
       rejectedTransactions := Tidy(map r | r in s.pendingBlocks :: Strong(c, rejects, r)))
  }

  /** A remote commit has to wait until its leader certificate must be committed. */
  predicate MustWait(s: CommitState, latest: Round) {
    !s.commit.local && s.commit.leader.round + WAVE_LENGTH > latest
  }

  /** Direct finalization goes through the buffer up to the first commit that has to wait. */
  function DirectPhase(c: Committee, rejects: Stakes, latest: Round,
      pending: seq<CommitState>): (after: seq<CommitState>)
    ensures |after| == |pending|
  {
    if pending == [] then []
    else if pending[0].pendingBlocks == {} then [pending[0]] + DirectPhase(c, rejects, latest, pending[1..])
    else if MustWait(pending[0], latest) then pending
    else [DirectlyFinalized(c, rejects, pending[0])] + DirectPhase(c, rejects, latest, pending[1..])
  }

  // ---- Output ----

  predicate IsDecided(s: CommitState) {
    s.pendingBlocks == {} && s.pendingTransactions == map[]
  }

  function Output(s: CommitState): SubDag {
    s.commit.(rejected := s.commit.rejected + s.rejectedTransactions)
  }

  datatype Popping = Popping(pending: seq<CommitState>, links: Links, outputs: seq<SubDag>)

  /** Takes the decided commits from the front of the buffer, and their blocks out of the links. */
  function Popped(pending: seq<CommitState>, links: Links): (p: Popping)
    ensures |p.pending| + |p.outputs| == |pending| && p.pending == pending[|p.outputs|..]
    ensures p.pending != [] ==> !IsDecided(p.pending[0])
  {
    if pending == [] || !IsDecided(pending[0]) then Popping(pending, links, [])
    else
      var p := Popped(pending[1..], links - References(pending[0].commit.blocks));
      p.(outputs := [Output(pending[0])] + p.outputs)
  }

  // ---- Indirect finalization ----

  function LateSet(c: Committee, rejects: Stakes, v: Votes, r: BlockRef): set<nat> {
    set t | t in On(v, r) && c.ReachedQuorum(StakeOn(rejects, r, t))
  }

  function LateRejects(c: Committee, rejects: Stakes, v: Votes): Votes {
    map r | r in v :: LateSet(c, rejects, v, r)
  }

  ghost function AcceptedSet(c: Committee, links: Links, v: Votes, r: BlockRef): set<nat> {
    set t | t in On(v, r) && Accepted(c, links, r, t)
  }

  ghost function AcceptedOf(c: Committee, links: Links, v: Votes): Votes {
    map r | r in v :: AcceptedSet(c, links, v, r)
  }

  /** The pending transactions of a commit that neither reached a reject quorum nor are accepted. */
  ghost function StillPending(c: Committee, rejects: Stakes, links: Links, s: CommitState): Votes {
    var p := Without(s.pendingTransactions, LateRejects(c, rejects, s.pendingTransactions));
    Without(p, AcceptedOf(c, links, p))
  }

  function LateRejected(c: Committee, rejects: Stakes, s: CommitState): Votes {
    Merge(s.rejectedTransactions, Tidy(LateRejects(c, rejects, s.pendingTransactions)))
  }

  ghost function IndirectlyFinalized(c: Committee, rejects: Stakes, links: Links, latest: Round,
      s: CommitState): CommitState {
    var p, v := StillPending(c, rejects, links, s), LateRejected(c, rejects, s);
    if s.commit.leader.round + INDIRECT_REJECT_DEPTH <= latest
      then s.(pendingTransactions := map[], rejectedTransactions := Merge(v, p))
    else s.(pendingTransactions := p, rejectedTransactions := v)
  }

  /** As long as something is finalized, the first commit is looked at again; the last commit only helps the others. */
  ghost function IndirectPhase(c: Committee, rejects: Stakes, pending: seq<CommitState>, links: Links): (p: Popping)
    ensures |p.pending| + |p.outputs| == |pending|
    decreases |pending|
  {
    if |pending| <= 1 || pending[0].pendingBlocks != {} then Popping(pending, links, [])
    else
      var first := IndirectlyFinalized(c, rejects, links, pending[|pending| - 1].commit.leader.round, pending[0]);
      var p := Popped([first] + pending[1..], links);
      if p.outputs == [] then p
      else
        var rest := IndirectPhase(c, rejects, p.pending, p.links);
        rest.(outputs := p.outputs + rest.outputs)
  }

  /** What processing one commit does to the buffer, and the commits it outputs. */
  ghost function Processed(c: Committee, f: Finalizer, commit: SubDag, rejects: Stakes): (p: Popping)
    ensures |p.pending| + |p.outputs| == |f.pending| + 1
  {
    var direct := Popped(DirectPhase(c, rejects, commit.leader.round, f.pending + [NewCommit(commit)]), f.links);
    if direct.pending == [] then direct
    else
      var rest := IndirectPhase(c, rejects, direct.pending, LinkCommit(direct.links, commit.blocks));
      rest.(outputs := direct.outputs + rest.outputs)
  }
}
