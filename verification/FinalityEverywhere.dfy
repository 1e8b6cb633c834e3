/**
 Agreement on every transaction: what one validator outputs as final, directly or indirectly, no other rejects,
 by a quorum or for want of acceptance, with the reject votes each of them counts in the blocks it has seen.
 */
module FinalityEverywhere {
  import opened Types
  import opened Committee
  import opened Views
  import opened CommitRule
  import opened UniversalCommitter
  import opened BlockIndex
  import opened TotalOrder
  import opened CommitCertificates
  import opened VoteLinks
  import opened Finality
  import opened FinalityBuffer
  import opened FinalityVotes
  import opened FinalityRuns
  import opened FinalityFates
  import opened FinalityAgreement
  import opened FinalizerInput
  import opened FinalityWorld
  import BlockVerifier

  // ---- What validators see ----

  ghost function Voters(seen: Dag, r: BlockRef, t: nat): set<Author> {
    set x | x in seen && Casts(seen[x], r, t) :: x.author
  }

  /** The certifier's stakes are those of the authors that vote to reject in the blocks seen. */
  ghost predicate CountsVotes(c: Committee, seen: Dag, rejects: Stakes) {
    forall r, t {:trigger CountsVotesOn(c, seen, rejects, r, t)} | r in rejects :: CountsVotesOn(c, seen, rejects, r, t)
  }

  ghost predicate CountsVotesOn(c: Committee, seen: Dag, rejects: Stakes, r: BlockRef, t: nat)
    requires r in rejects
  {
    && (t in rejects[r] <==> Voters(seen, r, t) != {})
    && (t in rejects[r] ==> rejects[r][t] == c.StakeOf(Voters(seen, r, t)))
  }

  /** A finalizer run, the blocks seen at each input, and the view in which each local commit was decided. */
  datatype Validator = Validator(inputs: seq<Input>, seen: seq<Dag>, decided: seq<View>)

  /** `v` decided leader `k`, before its commit moved the GC round. */
  ghost predicate DecidedIn(n: Consensus, k: nat, v: View)
    requires n.Valid() && k < |n.commits|
  {
    && n.world.Holds(v) && v.gcRound <= n.Gc(k)
    && exists p: nat, t, hi, statuses | p < |n.log| :: IsDecision(n, k, v, p, t, hi, statuses)
  }

  ghost predicate IsDecision(n: Consensus, k: nat, v: View, p: nat, t: Target, hi: Round, statuses: seq<LeaderStatus>)
    requires n.Valid() && k < |n.commits| && p < |n.log|
  {
    n.log[p] == Commit(n.Leaders()[k]) && t.slot.round == n.log[p].Round()
    && JustifiedBy(n.world, n.setup, t, n.log[p], v, hi, statuses)
  }

  ghost predicate SeesRight(n: Consensus, v: Validator, j: nat)
    requires n.Valid() && j < |v.inputs| == |v.seen| == |v.decided| && |v.inputs| <= |n.commits|
  {
    && (forall x | x in v.seen[j] :: x in n.world.blocks && v.seen[j][x] == n.world.blocks[x])
    && (forall k, x | 0 <= k <= j && n.Has(k, x) :: x in v.seen[j])
    && CountsVotes(n.world.committee, v.seen[j], v.inputs[j].rejects)
    && (forall k | 0 <= k <= j && v.inputs[k].commit.local ::
          DecidedIn(n, k, v.decided[k]) && v.decided[k].blocks.Keys <= v.seen[j].Keys)
  }

  /** The validator processes the commits, sees what it has committed or decided on, and counts the votes it sees. */
  ghost predicate Validates(n: Consensus, v: Validator)
    requires n.Valid()
  {
    && RunsOver(n.world.committee, n.commits, v.inputs) && |v.inputs| == |v.seen| == |v.decided|
    && forall j {:trigger SeesRight(n, v, j)} | 0 <= j < |v.inputs| :: SeesRight(n, v, j)
  }

  /** Authors that are not faulty vote on a block when they first link it, in the block that does. */
  ghost predicate HonestVotes(w: World) {
    forall b, y, r, t {:trigger VotesWhenLinking(w, b, y, r, t)} | b in w.blocks && y in w.blocks ::
      VotesWhenLinking(w, b, y, r, t)
  }

  ghost predicate VotesWhenLinking(w: World, b: BlockRef, y: BlockRef, r: BlockRef, t: nat)
    requires b in w.blocks && y in w.blocks
  {
    b.author == y.author && b.author !in w.faulty && Casts(w.blocks[b], r, t) && Reaches(w.blocks, y, r) ==>
      b.round <= y.round && Reaches(w.blocks, b, r)
  }

  // ---- The chain of an honest author ----

  /** The own ancestor of an honest block is at or above every earlier block of its author. */
  lemma OwnParent(w: World, y: BlockRef, b: BlockRef) returns (own: BlockRef)
    requires w.Sound() && w.HonestChains() && y in w.blocks && b in w.blocks && y.author == b.author
    requires y.author !in w.faulty
    requires b.round < y.round
    ensures w.blocks[y].ancestors != [] && own == w.blocks[y].ancestors[0] && own in w.blocks[y].ancestors
    ensures own.author == y.author && b.round <= own.round < y.round
  {
    assert w.LinksTo(y, b) && w.Verified(y);
    own := w.blocks[y].ancestors[0];
    assert BlockVerifier.AncestorWellFormed(w.committee, w.genesis, w.blocks[y], 0);
  }

  /** A committed honest block reaches every earlier block of its author above the GC round. */
  lemma {:induction false} OwnReaches(n: Consensus, m: nat, y: BlockRef, b: BlockRef)
    requires n.Valid() && n.Has(m, y) && y in n.world.blocks && b in n.world.blocks
    requires y.author == b.author && y.author !in n.world.faulty && n.Gc(m) < b.round <= y.round
    ensures Reaches(n.world.blocks, y, b)
    decreases y.round
  {
    if y.round == b.round {
      assert n.world.NotEquivocating(y, b);
    } else {
      var own := OwnParent(n.world, y, b);
      var k := AncestorCommitted(n, m, y, own);
      GcGrows(n, k, m);
      HasInWorld(n, k, own);
      OwnReaches(n, k, own, b);
    }
  }

  lemma HasInWorld(n: Consensus, k: nat, x: BlockRef)
    requires n.Valid() && n.Has(k, x)
    ensures x in n.world.blocks && n.world.blocks[x].reference == x && n.world.blocks[x] in n.commits[k].blocks
  {
    var b :| b in n.commits[k].blocks && b.reference == x;
    CommittedIsInWorld(n, k, b);
  }

  /** A view holds the earlier blocks of an honest author above its GC round. */
  lemma {:induction false} OwnInView(w: World, v: View, y: BlockRef, b: BlockRef)
    requires w.Sound() && w.HonestChains() && w.Holds(v) && y in v.blocks && b in w.blocks
    requires y.author == b.author && y.author !in w.faulty && v.gcRound < b.round <= y.round
    ensures b in v.blocks
    decreases y.round
  {
    if y.round == b.round {
      assert w.NotEquivocating(y, b);
    } else {
      var own := OwnParent(w, y, b);
      assert v.EntryClosed(y);
      OwnInView(w, v, own, b);
    }
  }

  /** Its vote is committed with it or before. */
  lemma {:induction false} OwnCommitted(n: Consensus, m: nat, y: BlockRef, b: BlockRef) returns (k: nat)
    requires n.Valid() && n.Has(m, y) && y in n.world.blocks && b in n.world.blocks
    requires y.author == b.author && y.author !in n.world.faulty && n.Gc(m) < b.round <= y.round
    ensures k <= m && n.Has(k, b)
    decreases y.round
  {
    if y.round == b.round {
      assert n.world.NotEquivocating(y, b);
      k := m;
    } else {
      var own := OwnParent(n.world, y, b);
      k := AncestorCommitted(n, m, y, own);
      GcGrows(n, k, m);
      HasInWorld(n, k, own);
      k := OwnCommitted(n, k, own, b);
    }
  }

  // ---- Indirectly final, so not rejected by a quorum ----

  /** From commit `i` up to `j`, everything from `i` on is linked. */
  ghost predicate LinksFrom(n: Consensus, h: Linkage, i: nat, j: nat) {
    && h.Valid() && j < |h.commits| <= |n.commits|
    && forall k | i <= k <= j :: h.starts[k] <= i && h.commits[k].blocks == n.commits[k].blocks
  }

  /** The chain of an honest block has its author's vote. */
  lemma {:induction false} ChainHasVote(n: Consensus, h: Linkage, i: nat, j: nat, r: BlockRef, t: nat, m: nat,
      y: BlockRef, b: BlockRef)
    requires n.Valid() && n.Has(i, r) && i <= m <= j && LinksFrom(n, h, i, j) && n.Has(m, y) && r.round > n.Gc(m)
    requires y in n.world.blocks && b in n.world.blocks && y.author == b.author && y.author !in n.world.faulty
    requires b.round <= y.round && Casts(n.world.blocks[b], r, t) && Reaches(n.world.blocks, b, r)
    ensures ChainRejects(h, m, n.world.blocks[y], r, t)
    decreases y.round
  {
    ReachesDescends(n.world.blocks, b, r);
    if y.round == b.round {
      assert n.world.NotEquivocating(y, b);
    } else {
      var own := OwnParent(n.world, y, b);
      var k := AncestorCommitted(n, m, y, own);
      GcGrows(n, k, m);
      HasInWorld(n, k, own);
      HasInWorld(n, m, y);
      OwnReaches(n, k, own, b);
      ReachesTransitive(n.world.blocks, own, b, r);
      NotBefore(n, i, r, k, own);
      ChainHasVote(n, h, i, j, r, t, k, own, b);
      assert IsLinkedParent(h, m, n.world.blocks[y], k, n.world.blocks[own]);
    }
  }

  /** What a quorum accepts in the commits, no quorum rejects in any blocks. */
  lemma AcceptedIsNotRejected(n: Consensus, h: Linkage, i: nat, j: nat, r: BlockRef, t: nat, seen: Dag)
    requires n.Valid() && HonestVotes(n.world) && n.Has(i, r) && i <= j && LinksFrom(n, h, i, j) && r.round > n.Gc(j)
    requires AcceptedAt(n.world.committee, h, i, j, r, t)
    requires forall x | x in seen :: x in n.world.blocks && seen[x] == n.world.blocks[x]
    ensures !n.world.committee.IsQuorum(Voters(seen, r, t))
  {
    if n.world.committee.IsQuorum(Voters(seen, r, t)) {
      var author :=
        QuorumIntersection(n.world.committee, AcceptingAt(h, i, j, r, t), Voters(seen, r, t), n.world.faulty);
      var m: nat, a :| i <= m <= j && a in h.commits[m].blocks && Accepts(h, i, j, m, a, r, t) &&
        a.reference.author == author;
      var b :| b in seen && Casts(seen[b], r, t) && b.author == author;
      AcceptingContradicts(n, h, i, j, r, t, m, a, b);
    }
  }

  lemma SameRange(n: Consensus, h: Linkage, i: nat, j: nat)
    requires LinksFrom(n, h, i, j) && i <= j
    ensures AllBlocks(h.commits[i..j + 1]) == AllBlocks(n.commits[i..j + 1])
  {
    SameBlocks(h.commits[i..j + 1], n.commits[i..j + 1]);
  }

  lemma AcceptingContradicts(n: Consensus, h: Linkage, i: nat, j: nat, r: BlockRef, t: nat, m: nat, a: Block,
      b: BlockRef)
    requires n.Valid() && HonestVotes(n.world) && n.Has(i, r) && i <= m <= j && LinksFrom(n, h, i, j)
    requires r.round > n.Gc(j)
    requires a in h.commits[m].blocks && Descends(EdgesIn(AllBlocks(h.commits[i..j + 1])), r, a.reference)
    requires b in n.world.blocks && Casts(n.world.blocks[b], r, t) && b.author == a.reference.author
    requires b.author !in n.world.faulty
    ensures ChainRejects(h, m, a, r, t)
  {
    SameRange(n, h, i, j);
    DescendantReaches(n, i, j, r, a.reference);
    CommittedIsInWorld(n, m, a);
    assert VotesWhenLinking(n.world, b, a.reference, r, t);
    GcGrows(n, m, j);
    ChainHasVote(n, h, i, j, r, t, m, a.reference, b);
  }

  // ---- Directly final, so accepted by the deadline ----

  lemma NothingSeen(n: Consensus, v: Validator, i: nat, j: nat, r: BlockRef, t: nat, x: BlockRef)
    requires n.Valid() && Validates(n, v) && i <= j < |v.inputs| && DirectlyFinalAt(v.inputs, i, j, r, t)
    requires x in v.seen[j]
    ensures x in n.world.blocks && !Casts(n.world.blocks[x], r, t)
  {
    assert SeesRight(n, v, j) && CountsVotesOn(n.world.committee, v.seen[j], v.inputs[j].rejects, r, t);
    NobodyVotes(v.seen[j], r, t);
  }

  lemma NothingCommitted(n: Consensus, v: Validator, i: nat, j: nat, r: BlockRef, t: nat, m: nat, a: Block)
    requires n.Valid() && Validates(n, v) && i <= j < |v.inputs| && DirectlyFinalAt(v.inputs, i, j, r, t)
    requires m <= j && m < |n.commits| && a in n.commits[m].blocks
    ensures !Casts(a, r, t)
  {
    CommittedIsInWorld(n, m, a);
    assert n.Has(m, a.reference) && SeesRight(n, v, j);
    NothingSeen(n, v, i, j, r, t, a.reference);
  }

  lemma NobodyVotes(seen: Dag, r: BlockRef, t: nat)
    requires Voters(seen, r, t) == {}
    ensures forall x | x in seen :: !Casts(seen[x], r, t)
  {
    forall x | x in seen ensures Casts(seen[x], r, t) ==> x.author in Voters(seen, r, t) {}
  }

  lemma DeadlineIsAbove(n: Consensus, i: nat, d: nat)
    requires n.Valid() && i <= d < |n.commits| && IsDeadline(n.commits, i, d)
    ensures i < d && IsFirstAbove(n.Leaders(), i, d)
  {
    CommitFacts(n, d);
    FirstAboveIf(n.commits, n.subDags, n.Leaders(), i, d);
  }

  lemma FirstAboveIf(commits: seq<SubDag>, subDags: seq<seq<Block>>, leaders: seq<BlockRef>, i: nat, d: nat)
    requires Carries(leaders, subDags, commits) && i <= d < |commits| && IsDeadline(commits, i, d)
    ensures i < d && IsFirstAbove(leaders, i, d)
  {
    assert forall k | 0 <= k < |commits| :: commits[k].leader == leaders[k];
  }

  /** The certificate that the deciding view holds. */
  lemma CertificateOf(n: Consensus, i: nat, d: nat, v: View, p: nat, t: Target, hi: Round, statuses: seq<LeaderStatus>)
    returns (cert: BlockRef)
    requires n.Valid() && i <= d < |n.commits| && IsDeadline(n.commits, i, d) && n.Leaders()[i].round > n.Gc(d)
    requires p < |n.log| && IsDecision(n, i, v, p, t, hi, statuses)
    ensures i < d && Certifies(n, i, d, cert) && cert in v.blocks
  {
    DeadlineIsAbove(n, i, d);
    ViewAt(n, d);
    cert := DeciderHoldsCertificate(n.world, n.setup, n.runs, n.log, i, d, p, v, hi, statuses, t, n.views[d]);
    CertifiesIf(n, i, d, cert);
  }

  lemma CertifiesIf(n: Consensus, i: nat, d: nat, cert: BlockRef)
    requires n.Valid() && i < d < |n.commits| == |n.views| && n.Leaders()[i].round > n.Gc(d)
    requires n.views[d].Closed() && n.views[d].gcRound == n.Gc(d)
    requires cert in HistoryAt(n.views[d], n.Leaders()[d], n.Leaders()[i].round + 2)
    requires IsCertificate(n.world.committee, n.views[d], cert, n.Leaders()[i])
    ensures Certifies(n, i, d, cert)
  {}

  /** Every committed leader is certified by its deadline. */
  lemma CertifiedByDeadline(n: Consensus, i: nat, d: nat) returns (cert: BlockRef)
    requires n.Valid() && i <= d < |n.commits| && IsDeadline(n.commits, i, d) && n.Leaders()[i].round > n.Gc(d)
    ensures i < d && Certifies(n, i, d, cert)
  {
    CommitFacts(n, i);
    var p := LeaderPosition(n.log, i);
    LogsAreJustified(n.world, n.setup, n.runs, n.log);
    var targets := n.setup.Targets(1, NextRound(n.log));
    assert JustifiedAt(n.world, n.setup, targets, n.log, p);
    var v, hi, statuses :| JustifiedBy(n.world, n.setup, targets[p], n.log[p], v, hi, statuses);
    assert IsDecision(n, i, v, p, targets[p], hi, statuses);
    cert := CertificateOf(n, i, d, v, p, targets[p], hi, statuses);
  }

  /** A validator that finalizes directly at the deadline or later has seen all that is committed by then. */
  lemma LateDirectAccepts(n: Consensus, v: Validator, h: Linkage, i: nat, j: nat, d: nat, r: BlockRef, t: nat)
    requires n.Valid() && Validates(n, v) && n.Has(i, r) && i <= d <= j < |v.inputs| && IsDeadline(n.commits, i, d)
    requires r.round > n.Gc(d) && DirectlyFinalAt(v.inputs, i, j, r, t) && h.Valid() && h.commits == n.commits
    ensures AcceptedAt(n.world.committee, h, i, d, r, t)
  {
    LeaderReaches(n, i, r);
    var cert := CertifiedByDeadline(n, i, d);
    forall m, a | 0 <= m < d + 1 && m < |n.commits| && a in n.commits[m].blocks ensures !Casts(a, r, t) {
      NothingCommitted(n, v, i, j, r, t, m, a);
    }
    forall y, m | y in VotesOf(n, i, d, cert) && i <= m <= d && n.Has(m, y) && y in n.world.blocks
      ensures !ChainRejects(h, m, n.world.blocks[y], r, t)
    {
      HasInWorld(n, m, y);
      EarlyChainsAccept(h, d + 1, m, n.world.blocks[y], r, t);
    }
    CertificateAccepts(n, h, i, d, cert, r, t);
  }

  /** A chain from the deciding view leads to blocks of the view or of commits already seen. */
  lemma {:induction false} SeenChainAccepts(n: Consensus, v: Validator, h: Linkage, i: nat, j: nat, r: BlockRef, t: nat,
      k: nat, b: Block)
    requires n.Valid() && Validates(n, v) && i <= j < |v.inputs| && DirectlyFinalAt(v.inputs, i, j, r, t)
    requires h.Valid() && h.commits == n.commits && v.inputs[i].commit.local
    requires k < |n.commits| && b in n.commits[k].blocks && (k <= j || b.reference in v.decided[i].blocks)
    ensures !ChainRejects(h, k, b, r, t)
    decreases b.reference.round
  {
    CommittedIsInWorld(n, k, b);
    assert SeesRight(n, v, j) && DecidedIn(n, i, v.decided[i]);
    assert n.Has(k, b.reference);
    NothingSeen(n, v, i, j, r, t, b.reference);
    forall m: nat, a | IsLinkedParent(h, k, b, m, a) ensures !ChainRejects(h, m, a, r, t) {
      if m > j {
        ParentInView(n, i, m, v.decided[i], b, a);
      }
      SeenChainAccepts(n, v, h, i, j, r, t, m, a);
    }
  }

  lemma ParentInView(n: Consensus, i: nat, m: nat, view: View, b: Block, a: Block)
    requires n.Valid() && i <= m < |n.commits| && n.world.Holds(view) && view.gcRound <= n.Gc(i)
    requires a in n.commits[m].blocks && IsOwnParent(b, a) && b.reference in view.blocks
    requires b.reference in n.world.blocks && b == n.world.blocks[b.reference]
    ensures a.reference in view.blocks
  {
    CommitFacts(n, m);
    assert n.Has(m, a.reference);
    CommittedOnce(n.world, n.setup, n.gcDepth, n.runs, n.log, n.views, n.subDags, m, m, a.reference);
    GcGrows(n, i, m);
    assert view.EntryClosed(b.reference) && a.reference in b.ancestors;
  }

  /** A validator that finalizes a local commit directly holds a certificate of its leader. */
  lemma LocalDirectAccepts(n: Consensus, v: Validator, h: Linkage, i: nat, j: nat, d: nat, r: BlockRef, t: nat)
    requires n.Valid() && Validates(n, v) && n.Has(i, r) && i <= d < |n.commits| && IsDeadline(n.commits, i, d)
    requires i <= j < |v.inputs| && v.inputs[i].commit.local
    requires r.round > n.Gc(d) && DirectlyFinalAt(v.inputs, i, j, r, t) && h.Valid() && h.commits == n.commits
    ensures AcceptedAt(n.world.committee, h, i, d, r, t)
  {
    LeaderReaches(n, i, r);
    var view := v.decided[i];
    assert SeesRight(n, v, j) && DecidedIn(n, i, view);
    var p: nat, target, hi, statuses :| p < |n.log| && IsDecision(n, i, view, p, target, hi, statuses);
    var cert := CertificateOf(n, i, d, view, p, target, hi, statuses);
    GcGrows(n, i, d);
    forall y, m | y in VotesOf(n, i, d, cert) && i <= m <= d && n.Has(m, y) && y in n.world.blocks
      ensures !ChainRejects(h, m, n.world.blocks[y], r, t)
    {
      VoteInView(n, i, d, r, cert, y, view);
      HasInWorld(n, m, y);
      SeenChainAccepts(n, v, h, i, j, r, t, m, n.world.blocks[y]);
    }
    CertificateAccepts(n, h, i, d, cert, r, t);
  }

  lemma VoteInView(n: Consensus, i: nat, d: nat, r: BlockRef, cert: BlockRef, y: BlockRef, view: View)
    requires n.Valid() && i < d < |n.commits| && n.Has(i, r) && r.round > n.Gc(d) && Certifies(n, i, d, cert)
    requires y in VotesOf(n, i, d, cert) && n.world.Holds(view) && cert in view.blocks && view.gcRound <= n.Gc(i)
    ensures y in view.blocks
  {
    var m := VoteIsCommitted(n, i, d, r, cert, y);
    LeaderReaches(n, i, r);
    GcGrows(n, i, d);
    assert view.EntryClosed(cert);
  }

  /** The vote of an honest author on the certificate, and its reject vote if it casts one. */
  lemma HonestVoteIsEarly(n: Consensus, i: nat, d: nat, r: BlockRef, t: nat, cert: BlockRef, y: BlockRef, b: BlockRef)
    returns (m: nat)
    requires n.Valid() && HonestVotes(n.world) && i < d < |n.commits| && n.Has(i, r) && r.round > n.Gc(d)
    requires Certifies(n, i, d, cert) && y in VotesOf(n, i, d, cert) && y.author == b.author
    requires b.author !in n.world.faulty
    requires b in n.world.blocks && Casts(n.world.blocks[b], r, t)
    ensures i <= m <= d && n.Has(m, y) && y in n.world.blocks && n.Gc(m) <= n.Gc(d) < b.round <= y.round
  {
    m := VoteIsCommitted(n, i, d, r, cert, y);
    assert VotesWhenLinking(n.world, b, y, r, t);
    ReachesDescends(n.world.blocks, b, r);
    GcGrows(n, m, d);
  }

  /** An honest author on a certificate that rejects would have been seen to. */
  lemma DirectSeesHonest(n: Consensus, v: Validator, i: nat, j: nat, d: nat, r: BlockRef, t: nat, cert: BlockRef,
      y: BlockRef, b: BlockRef)
    requires n.Valid() && HonestVotes(n.world) && Validates(n, v) && i < d < |n.commits| && n.Has(i, r)
    requires r.round > n.Gc(d)
    requires Certifies(n, i, d, cert) && y in VotesOf(n, i, d, cert) && y.author == b.author
    requires b.author !in n.world.faulty
    requires b in n.world.blocks && Casts(n.world.blocks[b], r, t) && i <= j < |v.inputs|
    requires d <= j || (v.inputs[i].commit.local && cert in v.decided[i].blocks)
    ensures b in v.seen[j]
  {
    var m := HonestVoteIsEarly(n, i, d, r, t, cert, y, b);
    assert SeesRight(n, v, j);
    if d <= j {
      var k := OwnCommitted(n, m, y, b);
    } else {
      assert DecidedIn(n, i, v.decided[i]);
      VoteInView(n, i, d, r, cert, y, v.decided[i]);
      GcGrows(n, i, d);
      OwnInView(n.world, v.decided[i], y, b);
    }
  }

  /** The certificate behind a direct finalization. */
  lemma DirectHasCertificate(n: Consensus, v: Validator, i: nat, j: nat, d: nat, r: BlockRef, t: nat)
    returns (cert: BlockRef)
    requires n.Valid() && Validates(n, v) && n.Has(i, r) && i <= d < |n.commits| && IsDeadline(n.commits, i, d)
    requires i <= j < |v.inputs| && r.round > n.Gc(d) && DirectlyFinalAt(v.inputs, i, j, r, t)
    ensures i < d && Certifies(n, i, d, cert)
    ensures d <= j || (v.inputs[i].commit.local && cert in v.decided[i].blocks)
  {
    LeaderReaches(n, i, r);
    DirectIsLocalOrLate(n, v, i, j, d, r, t);
    if v.inputs[i].commit.local {
      assert SeesRight(n, v, j) && DecidedIn(n, i, v.decided[i]);
      var p: nat, target, hi, statuses :| p < |n.log| && IsDecision(n, i, v.decided[i], p, target, hi, statuses);
      cert := CertificateOf(n, i, d, v.decided[i], p, target, hi, statuses);
    } else {
      cert := CertifiedByDeadline(n, i, d);
    }
  }

  lemma DirectIsLocalOrLate(n: Consensus, v: Validator, i: nat, j: nat, d: nat, r: BlockRef, t: nat)
    requires n.Valid() && Validates(n, v) && i <= d < |n.commits| && IsDeadline(n.commits, i, d)
    requires i <= j < |v.inputs| && DirectlyFinalAt(v.inputs, i, j, r, t)
    ensures v.inputs[i].commit.local || d <= j
  {
    assert SameCommit(v.inputs[i].commit, n.commits[i]) && SameCommit(v.inputs[j].commit, n.commits[j]);
  }

  /** No quorum rejects what is directly final. */
  lemma DirectIsNotRejected(n: Consensus, v: Validator, i: nat, j: nat, d: nat, r: BlockRef, t: nat, seen: Dag)
    requires n.Valid() && HonestVotes(n.world) && Validates(n, v) && n.Has(i, r) && i <= d < |n.commits|
    requires IsDeadline(n.commits, i, d) && i <= j < |v.inputs| && r.round > n.Gc(d)
    requires DirectlyFinalAt(v.inputs, i, j, r, t)
    requires forall x | x in seen :: x in n.world.blocks && seen[x] == n.world.blocks[x]
    ensures !n.world.committee.IsQuorum(Voters(seen, r, t))
  {
    if n.world.committee.IsQuorum(Voters(seen, r, t)) {
      var cert := DirectHasCertificate(n, v, i, j, d, r, t);
      var votes := VotesOf(n, i, d, cert);
      var author := QuorumIntersection(n.world.committee, Authors(votes), Voters(seen, r, t), n.world.faulty);
      var y :| y in votes && y.author == author;
      var b :| b in seen && Casts(seen[b], r, t) && b.author == author;
      DirectSeesHonest(n, v, i, j, d, r, t, cert, y, b);
      NothingSeen(n, v, i, j, r, t, b);
    }
  }

  /** What is directly final anywhere is accepted in every linkage at the deadline. */
  lemma DirectIsAccepted(n: Consensus, v: Validator, h: Linkage, i: nat, j: nat, d: nat, r: BlockRef, t: nat)
    requires n.Valid() && Validates(n, v) && n.Has(i, r) && i <= d < |n.commits| && IsDeadline(n.commits, i, d)
    requires i <= j < |v.inputs| && r.round > n.Gc(d) && DirectlyFinalAt(v.inputs, i, j, r, t)
    requires h.Valid() && h.commits == n.commits
    ensures AcceptedAt(n.world.committee, h, i, d, r, t)
  {
    DirectIsLocalOrLate(n, v, i, j, d, r, t);
    if d <= j {
      LateDirectAccepts(n, v, h, i, j, d, r, t);
    } else {
      LocalDirectAccepts(n, v, h, i, j, d, r, t);
    }
  }

  // ---- Agreement ----

  /** The transaction of commit `i` with deadline `d`, which the GC round has not passed by then. */
  ghost predicate Concerns(n: Consensus, i: nat, d: nat, r: BlockRef) {
    n.Valid() && n.Has(i, r) && i <= d < |n.commits| && IsDeadline(n.commits, i, d) && r.round > n.Gc(d)
  }

  lemma FinalIsNotQuorumRejected(n: Consensus, v1: Validator, v2: Validator, i: nat, d: nat, r: BlockRef, t: nat,
      j1: nat, j2: nat)
    requires Concerns(n, i, d, r) && HonestVotes(n.world) && Validates(n, v1) && Validates(n, v2)
    requires i <= j1 < |v1.inputs| && i <= j2 < |v2.inputs|
    requires DirectlyFinalAt(v1.inputs, i, j1, r, t) ||
             IndirectlyFinalAt(n.world.committee, LinkageOf(n.world.committee, v1.inputs), i, j1, r, t)
    ensures !QuorumRejectedAt(n.world.committee, v2.inputs, j2, r, t)
  {
    var c := n.world.committee;
    assert SeesRight(n, v2, j2);
    if DirectlyFinalAt(v1.inputs, i, j1, r, t) {
      DirectIsNotRejected(n, v1, i, j1, d, r, t, v2.seen[j2]);
    } else {
      IndirectLinks(n, v1, i, d, j1, r, t);
      AcceptedIsNotRejected(n, LinkageOf(c, v1.inputs), i, j1, r, t, v2.seen[j2]);
    }
    NoQuorumCounted(c, v2.seen[j2], v2.inputs[j2].rejects, r, t);
  }

  lemma NoQuorumCounted(c: Committee, seen: Dag, rejects: Stakes, r: BlockRef, t: nat)
    requires CountsVotes(c, seen, rejects) && !c.IsQuorum(Voters(seen, r, t))
    ensures !c.ReachedQuorum(StakeOn(rejects, r, t))
  {
    if r in rejects {
      assert CountsVotesOn(c, seen, rejects, r, t);
    }
  }

  lemma IndirectLinks(n: Consensus, v: Validator, i: nat, d: nat, j: nat, r: BlockRef, t: nat)
    requires Concerns(n, i, d, r) && Validates(n, v) && i <= j < |v.inputs|
    requires IndirectlyFinalAt(n.world.committee, LinkageOf(n.world.committee, v.inputs), i, j, r, t)
    ensures LinksFrom(n, LinkageOf(n.world.committee, v.inputs), i, j) && j <= d && r.round > n.Gc(j)
  {
    var c := n.world.committee;
    OpenForAll(n.commits, v.inputs, i, j);
    DeadlineIs(n.commits, i, d, j);
    GcGrows(n, j, d);
    RunLinksFrom(n, v.inputs, i, j);
  }

  lemma RunLinksFrom(n: Consensus, inputs: seq<Input>, i: nat, j: nat)
    requires RunsOver(n.world.committee, n.commits, inputs) && i <= j < |inputs|
    requires Starts(n.world.committee, inputs)[j] <= i
    ensures LinksFrom(n, LinkageOf(n.world.committee, inputs), i, j)
  {
    NarrowestLinksLess(n.world.committee, n.commits, inputs, i, j);
  }

  lemma FinalIsNotTimedOut(n: Consensus, v1: Validator, v2: Validator, i: nat, d: nat, r: BlockRef, t: nat, j1: nat,
      j2: nat)
    requires Concerns(n, i, d, r) && Validates(n, v1) && Validates(n, v2)
    requires i <= j1 < |v1.inputs| && i <= j2 < |v2.inputs| && Undisputed(n.world.committee, n.commits, i, r, t)
    requires DirectlyFinalAt(v1.inputs, i, j1, r, t) ||
             IndirectlyFinalAt(n.world.committee, LinkageOf(n.world.committee, v1.inputs), i, j1, r, t)
    ensures !TimedOutAt(n.world.committee, LinkageOf(n.world.committee, v2.inputs), i, j2, r, t)
  {
    var c := n.world.committee;
    if TimedOutAt(c, LinkageOf(c, v2.inputs), i, j2, r, t) {
      TimedOutIsNotAccepted(c, n.commits, v2.inputs, i, j2, r, t);
      DeadlineIs(n.commits, i, d, j2);
      if DirectlyFinalAt(v1.inputs, i, j1, r, t) {
        DirectIsAccepted(n, v1, Widest(n.commits), i, j1, d, r, t);
      } else {
        NoFinalAndTimedOut(c, n.commits, v1.inputs, v2.inputs, i, j1, j2, r, t);
      }
    }
  }

  lemma FinalElsewhere(n: Consensus, v1: Validator, v2: Validator, i: nat, d: nat, r: BlockRef, t: nat)
    requires Concerns(n, i, d, r) && HonestVotes(n.world) && Validates(n, v1) && Validates(n, v2)
    requires IsCommitSequence(n.commits) && Undisputed(n.world.committee, n.commits, i, r, t)
    requires i < |Run(n.world.committee, v1.inputs).outputs| && i < |Run(n.world.committee, v2.inputs).outputs|
    ensures RejectedIn(n.world.committee, v2.inputs, i, r, t) ==> RejectedIn(n.world.committee, v1.inputs, i, r, t)
  {
    var c := n.world.committee;
    if RejectedIn(c, v2.inputs, i, r, t) && !RejectedIn(c, v1.inputs, i, r, t) {
      var j1 := WhyFinal(c, n.commits, v1.inputs, i, r, t);
      var j2 := WhyRejected(c, n.commits, v2.inputs, i, r, t);
      FinalIsNotQuorumRejected(n, v1, v2, i, d, r, t, j1, j2);
      FinalIsNotTimedOut(n, v1, v2, i, d, r, t, j1, j2);
    }
  }

  lemma WhyFinal(c: Committee, commits: seq<SubDag>, inputs: seq<Input>, i: nat, r: BlockRef, t: nat) returns (j: nat)
    requires IsCommitSequence(commits) && RunsOver(c, commits, inputs) && i < |Run(c, inputs).outputs|
    requires i < |commits| && r in References(commits[i].blocks) && !RejectedIn(c, inputs, i, r, t)
    ensures i <= j < |inputs|
    ensures (DirectlyFinalAt(inputs, i, j, r, t) || IndirectlyFinalAt(c, LinkageOf(c, inputs), i, j, r, t))
  {
    var h := LinkageOf(c, inputs);
    OutputIsExplained(c, commits, inputs, i, r, t);
    j :| i <= j < |inputs| && (DirectlyFinalAt(inputs, i, j, r, t) || IndirectlyFinalAt(c, h, i, j, r, t));
  }

  lemma WhyRejected(c: Committee, commits: seq<SubDag>, inputs: seq<Input>, i: nat, r: BlockRef, t: nat)
    returns (j: nat)
    requires IsCommitSequence(commits) && RunsOver(c, commits, inputs) && i < |Run(c, inputs).outputs|
    requires i < |commits| && r in References(commits[i].blocks) && RejectedIn(c, inputs, i, r, t)
    ensures i <= j < |inputs|
    ensures (QuorumRejectedAt(c, inputs, j, r, t) || TimedOutAt(c, LinkageOf(c, inputs), i, j, r, t))
  {
    var h := LinkageOf(c, inputs);
    OutputIsExplained(c, commits, inputs, i, r, t);
    j :| i <= j < |inputs| && (QuorumRejectedAt(c, inputs, j, r, t) || TimedOutAt(c, h, i, j, r, t));
  }

  /**
   Agreement on every transaction. Validators that process the commits of one consensus output the same fate for
   every undisputed transaction, however each of them came to it: finalized directly or indirectly, rejected by a
   quorum or for want of acceptance. Each counts the reject votes in the blocks it has seen itself.
   */
  lemma AllFatesAgree(n: Consensus, v1: Validator, v2: Validator, i: nat, d: nat, r: BlockRef, t: nat)
    requires Concerns(n, i, d, r) && HonestVotes(n.world) && Validates(n, v1) && Validates(n, v2)
    requires (forall k | 0 <= k < |n.commits| :: n.commits[k].rejected == map[])
    requires Undisputed(n.world.committee, n.commits, i, r, t)
    requires i < |Run(n.world.committee, v1.inputs).outputs| && i < |Run(n.world.committee, v2.inputs).outputs|
    ensures RejectedIn(n.world.committee, v1.inputs, i, r, t) <==> RejectedIn(n.world.committee, v2.inputs, i, r, t)
  {
    LinearizedCommitsAreOrdered(n.world, n.setup, n.gcDepth, n.runs, n.log, n.views, n.subDags, n.commits);
    FinalElsewhere(n, v1, v2, i, d, r, t);
    FinalElsewhere(n, v2, v1, i, d, r, t);
  }
}
