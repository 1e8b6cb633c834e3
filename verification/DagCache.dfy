/**
 DagState as a cache in front of a store: recent blocks are kept in memory per authority, everything is
 written through on flush, and old blocks are evicted. Over every run it answers like a plain set of
 accepted blocks.
 */
module DagCache {
  import opened Types
  import opened CommittedRounds

  datatype Config = Config(authorities: nat, cachedRounds: nat, gcDepth: nat, genesis: Dag)

  /** Persistent storage: blocks, commits with consecutive indices from 1, and the last checkpoint. */
  datatype Store = Store(blocks: Dag, commits: seq<TrustedCommit>, checkpoint: Option<Checkpoint>)

  const EMPTY := Store(map[], [], None)

  /** In-memory state together with the store behind it. */
  datatype Cache = Cache(
    recent: Dag,
    refs: seq<set<BlockRef>>,
    committed: set<BlockRef>,
    evicted: seq<Round>,
    blocksToWrite: seq<Block>,
    commitsToWrite: seq<TrustedCommit>,
    checkpointsToWrite: seq<Checkpoint>,
    lastCommit: Option<TrustedCommit>,
    rounds: seq<Round>,
    store: Store)

  // ---- Helpers of the source ----

  function LastCommitRound(s: Cache): Round {
    match s.lastCommit
    case Some(c) => c.leader.round
    case None => 0
  }

  function GcRound(cfg: Config, s: Cache): Round {
    Monus(LastCommitRound(s), cfg.gcDepth)
  }

  /** Keeps at least `cachedRounds` rounds below the last one, and everything above the GC round. */
  function EvictionRound(lastRound: Round, gcRound: Round, cachedRounds: nat): Round {
    Min(gcRound, Monus(lastRound, cachedRounds))
  }

  /** The highest round among a set of references, or the genesis round. */
  ghost function HighestRound(refs: set<BlockRef>): Round
    decreases refs
  {
    if refs == {} then GENESIS_ROUND
    else
      var r :| r in refs;
      var rest := HighestRound(refs - {r});
      if r.round > rest then r.round else rest
  }

  lemma {:induction false} HighestRoundBounds(refs: set<BlockRef>)
    ensures forall r | r in refs :: r.round <= HighestRound(refs)
    ensures refs == {} ==> HighestRound(refs) == GENESIS_ROUND
    ensures refs != {} ==> exists r | r in refs :: r.round == HighestRound(refs)
    decreases refs
  {
    if refs != {} {
      var r :| r in refs &&
        HighestRound(refs) == (var rest := HighestRound(refs - {r}); if r.round > rest then r.round else rest);
      HighestRoundBounds(refs - {r});
      forall q | q in refs ensures q.round <= HighestRound(refs) {
        assert q == r || q in refs - {r};
      }
    }
  }

  /** What determines the highest round. */
  lemma HighestRoundIs(refs: set<BlockRef>, round: Round)
    requires forall r | r in refs :: r.round <= round
    requires refs == {} ==> round == GENESIS_ROUND
    requires refs != {} ==> exists r | r in refs :: r.round == round
    ensures HighestRound(refs) == round
  {
    HighestRoundBounds(refs);
  }

  // ---- Operations, as functions of the state ----

  function OfAuthor(d: Dag, a: Author): set<BlockRef> {
    set r | r in d && r.author == a
  }

  /** Whether the cache, and if need be the store, has the block. */
  ghost predicate Contains(cfg: Config, s: Cache, r: BlockRef)
    requires r.author < |s.refs|
  {
    if r in s.refs[r.author] || r in cfg.genesis then true
    else if s.refs[r.author] == {} || HighestRound(s.refs[r.author]) < r.round then false
    else r in s.store.blocks
  }

  function Lookup(cfg: Config, s: Cache, r: BlockRef): Option<Block> {
    if r.round == GENESIS_ROUND then if r in cfg.genesis then Some(cfg.genesis[r]) else None
    else if r in s.recent then Some(s.recent[r])
    else if r in s.store.blocks then Some(s.store.blocks[r])
    else None
  }

  /** A new block in memory. */
  function Remember(s: Cache, b: Block): Cache
    requires b.reference.author < |s.refs|
  {
    s.(recent := s.recent[b.reference := b],
       refs := s.refs[b.reference.author := s.refs[b.reference.author] + {b.reference}],
       blocksToWrite := s.blocksToWrite + [b])
  }

  ghost function Accept(cfg: Config, s: Cache, b: Block): Cache
    requires b.reference.author < |s.refs|
  {
    if Contains(cfg, s, b.reference) then s else Remember(s, b)
  }

  /** Whether the index of the commit is at or below the last one. */
  predicate IsOld(s: Cache, c: TrustedCommit) {
    s.lastCommit.Some? && c.index <= s.lastCommit.value.index
  }

  /** The blocks of the commit are marked while it is collected; then it is added. */
  function AddCommit(s: Cache, c: TrustedCommit): Cache {
    if IsOld(s, c) then s
    else
      s.(committed := s.committed + Elements(c.blocks), lastCommit := Some(c), rounds := RaiseAll(s.rounds, c.blocks),
         commitsToWrite := s.commitsToWrite + [c])
  }

  /** Has the committed rounds stored with the next flush. */
  function AddCheckpoint(s: Cache): Cache
    requires s.lastCommit.Some?
  {
    s.(checkpointsToWrite := s.checkpointsToWrite + [Checkpoint(s.lastCommit.value.index, s.rounds)])
  }

  function Written(store: Store, blocks: seq<Block>, commits: seq<TrustedCommit>, checkpoints: seq<Checkpoint>): Store {
    Store(WriteBlocks(store.blocks, blocks), store.commits + commits,
      if checkpoints == [] then store.checkpoint else Some(checkpoints[|checkpoints| - 1]))
  }

  function WriteBlocks(d: Dag, blocks: seq<Block>): Dag {
    if blocks == [] then d
    else WriteBlocks(d, blocks[..|blocks| - 1])[blocks[|blocks| - 1].reference := blocks[|blocks| - 1]]
  }

  ghost function AuthorityEvictionRound(cfg: Config, s: Cache, a: Author): Round
    requires a < |s.refs|
  {
    EvictionRound(HighestRound(s.refs[a]), GcRound(cfg, s), cfg.cachedRounds)
  }

  /** Drops from memory, per authority, everything up to its eviction round. */
  ghost function Evict(cfg: Config, s: Cache): Cache {
    s.(recent :=
      map r | r in s.recent && (r.author < |s.refs| ==>
        r.round > AuthorityEvictionRound(cfg, s, r.author)) :: s.recent[r],
       refs := seq(|s.refs|,
         a requires 0 <= a < |s.refs| => set r | r in s.refs[a] && r.round > AuthorityEvictionRound(cfg, s, a)),
       committed :=
         (set r | r in s.committed && (r.author < |s.refs| ==> r.round > AuthorityEvictionRound(cfg, s, r.author))),
       evicted := seq(|s.refs|, a requires 0 <= a < |s.refs| => AuthorityEvictionRound(cfg, s, a)))
  }

  function AfterWrite(s: Cache): Cache {
    s.(store := Written(s.store, s.blocksToWrite, s.commitsToWrite, s.checkpointsToWrite),
       blocksToWrite := [], commitsToWrite := [], checkpointsToWrite := [])
  }

  ghost function Flush(cfg: Config, s: Cache): Cache {
    if s.blocksToWrite == [] && s.commitsToWrite == [] && s.checkpointsToWrite == [] then s
    else Evict(cfg, AfterWrite(s))
  }

  function LastOf(commits: seq<TrustedCommit>): Option<TrustedCommit> {
    if commits == [] then None else Some(commits[|commits| - 1])
  }

  /** The GC round that the stored commits lead to. */
  function StoredGcRound(cfg: Config, store: Store): Round {
    match LastOf(store.commits)
    case Some(c) => Monus(c.leader.round, cfg.gcDepth)
    case None => 0
  }

  ghost function RecoveryEvictionRound(cfg: Config, store: Store, a: Author): Round {
    EvictionRound(HighestRound(OfAuthor(store.blocks, a)), StoredGcRound(cfg, store), cfg.cachedRounds)
  }

  /** Blocks above the GC round in the commits from `from` on. */
  ghost function CommittedAbove(commits: seq<TrustedCommit>, from: nat, gc: Round): set<BlockRef>
    requires from <= |commits|
  {
    set i, r | from <= i < |commits| && r in commits[i].blocks && r.round > gc :: r
  }

  /** A restart loads, per authority, the stored blocks above its eviction round, and which of them are committed. */
  ghost function Restart(cfg: Config, store: Store): Cache {
    Cache(
      map r | r in store.blocks && r.author < cfg.authorities && r.round > RecoveryEvictionRound(cfg, store,
        r.author) :: store.blocks[r],
      seq(cfg.authorities,
        a requires 0 <= a < cfg.authorities => set r | r in store.blocks && r.author ==
          a && r.round > RecoveryEvictionRound(cfg, store, a)),
      CommittedAbove(store.commits, 0, StoredGcRound(cfg, store)),
      seq(cfg.authorities, a requires 0 <= a < cfg.authorities => RecoveryEvictionRound(cfg, store, a)),
      [], [], [], LastOf(store.commits), Recovered(cfg.authorities, store.commits, store.checkpoint), store)
  }

  // ---- The invariant ----

  /** All accepted blocks: those stored and those waiting to be written. */
  function Accepted(s: Cache): Dag {
    WriteBlocks(s.store.blocks, s.blocksToWrite)
  }

  ghost predicate WellKeyed(cfg: Config, d: Dag) {
    forall r | r in d :: d[r].reference == r && r.round > GENESIS_ROUND && r.author < cfg.authorities
  }

  /** The references of an authority in memory, and which of its accepted blocks are there. */
  ghost predicate AuthorityKept(cfg: Config, s: Cache, a: Author)
    requires a < |s.refs| == |s.evicted|
  {
    && s.refs[a] == OfAuthor(s.recent, a)
    && s.evicted[a] <= GcRound(cfg, s) && s.evicted[a] <= Monus(HighestRound(s.refs[a]), cfg.cachedRounds)
    && (forall r | r in Accepted(s) && r.author == a && r.round > s.evicted[a] :: r in s.recent)
    && (forall r | r in Accepted(s) && r.author == a :: r.round <= HighestRound(s.refs[a]))
  }

  ghost predicate DistinctBlocks(c: TrustedCommit) {
    Distinct(c.blocks)
  }

  /** Commits as the linearizer makes them: leaders at or above their blocks and in order, no block twice. */
  ghost predicate ProperCommits(commits: seq<TrustedCommit>) {
    && (forall i | 0 <= i < |commits| :: DistinctBlocks(commits[i]) && forall r | r in commits[i].blocks ::
      r.round <= commits[i].leader.round)
    && (forall i, j | 0 <= i < j < |commits| :: commits[i].leader.round <= commits[j].leader.round)
    && (forall i, j, r | 0 <= i < j < |commits| && r in commits[i].blocks :: r !in commits[j].blocks)
  }

  /** The leader and the blocks of the commit are there. */
  ghost predicate CommitHeld(d: Dag, c: TrustedCommit) {
    c.leader in d && forall r | r in c.blocks :: r in d
  }

  ghost predicate CommitsHeld(d: Dag, commits: seq<TrustedCommit>) {
    forall i {:trigger CommitHeld(d, commits[i])} | 0 <= i < |commits| :: CommitHeld(d, commits[i])
  }

  ghost predicate InCommits(commits: seq<TrustedCommit>, r: BlockRef) {
    exists i | 0 <= i < |commits| :: r in commits[i].blocks
  }

  /** What is stored of commits is proper, and stored together with its blocks. */
  ghost predicate StoreProper(store: Store) {
    ProperCommits(store.commits) && CommitsHeld(store.blocks, store.commits)
  }

  /** The commits so far: stored or waiting to be written. */
  function Known(s: Cache): seq<TrustedCommit> {
    s.store.commits + s.commitsToWrite
  }

  /** Above the GC round, exactly the blocks of the commits so far are marked. */
  ghost predicate MarksExact(cfg: Config, s: Cache) {
    && s.committed <= s.recent.Keys
    && forall r | r in s.recent && r.round > GcRound(cfg, s) :: r in s.committed <==> InCommits(Known(s), r)
  }

  ghost predicate CommitsKept(cfg: Config, s: Cache) {
    && ProperCommits(Known(s)) && CommitsHeld(Accepted(s), Known(s)) && StoreProper(s.store) && MarksExact(cfg, s)
  }

  ghost predicate BlocksKept(cfg: Config, s: Cache) {
    && |s.refs| == cfg.authorities && |s.evicted| == cfg.authorities
    && WellKeyed(cfg, Accepted(s)) && (forall r | r in cfg.genesis :: r.round == GENESIS_ROUND)
    && (forall r | r in s.recent :: r in Accepted(s) && s.recent[r] == Accepted(s)[r])
    && (forall b | b in s.blocksToWrite :: b.reference in s.recent)
    && (forall a {:trigger AuthorityKept(cfg, s, a)} | 0 <= a < cfg.authorities :: AuthorityKept(cfg, s, a))
    && s.lastCommit == LastOf(Known(s))
  }

  ghost predicate CheckpointKept(cfg: Config, store: Store) {
    store.checkpoint.Some? ==> IsCheckpoint(cfg.authorities, store.commits, store.checkpoint.value)
  }

  /** The rounds are those of all commits so far, and every checkpoint is right. */
  ghost predicate RoundsKept(cfg: Config, s: Cache) {
    && s.rounds == RaiseCommits(Zeros(cfg.authorities), Known(s)) && CheckpointKept(cfg, s.store)
    && (forall i | 0 <= i < |s.checkpointsToWrite| :: IsCheckpoint(cfg.authorities, Known(s), s.checkpointsToWrite[i]))
    && (s.lastCommit.Some? ==> s.lastCommit.value.index == |Known(s)|)
    && (forall i | 0 <= i < |Known(s)| :: Known(s)[i].index == i + 1)
  }

  ghost predicate Inv(cfg: Config, s: Cache) {
    BlocksKept(cfg, s) && CommitsKept(cfg, s) && RoundsKept(cfg, s)
  }

  /** In a state of the invariant the answers are those of the set of accepted blocks. */
  lemma AnswersLikeAccepted(cfg: Config, s: Cache, r: BlockRef)
    requires BlocksKept(cfg, s) && r.author < cfg.authorities
    ensures Contains(cfg, s, r) <==> r in cfg.genesis || r in Accepted(s)
  {
    assert AuthorityKept(cfg, s, r.author);
    HighestRoundBounds(s.refs[r.author]);
    WriteBlocksContents(s.store.blocks, s.blocksToWrite);
  }

  lemma FindsLikeAccepted(cfg: Config, s: Cache, r: BlockRef)
    requires BlocksKept(cfg, s) && r.round > GENESIS_ROUND
    ensures Lookup(cfg, s, r) == if r in Accepted(s) then Some(Accepted(s)[r]) else None
  {
    WriteBlocksContents(s.store.blocks, s.blocksToWrite);
  }

  /** Every accepted block above the GC round is in memory. */
  lemma AboveGcInMemory(cfg: Config, s: Cache, r: BlockRef)
    requires BlocksKept(cfg, s) && r in Accepted(s) && r.round > GcRound(cfg, s)
    ensures r in s.recent && s.recent[r] == Accepted(s)[r]
  {
    assert AuthorityKept(cfg, s, r.author);
  }

  /** The eviction round in terms of the rounds themselves. */
  lemma EvictedBelow(refs: set<BlockRef>, gcRound: Round, cachedRounds: nat, round: Round)
    requires round > GENESIS_ROUND
    ensures round > EvictionRound(HighestRound(refs), gcRound, cachedRounds) <==>
            round > gcRound || forall x | x in refs :: x.round < round + cachedRounds
  {
    HighestRoundBounds(refs);
  }

  /** Of `before`, everything above `gc` is left, and per author what is less than `cachedRounds` below its highest. */
  ghost predicate LeavesRecent(before: Dag, after: Dag, gc: Round, cachedRounds: nat) {
    forall r :: r in after <==>
      && r in before
      && (r.round > gc || forall x | x in before && x.author == r.author :: x.round < r.round + cachedRounds)
  }

  /**
   A block leaves memory exactly when it is at or below the GC round and its author has one in memory that is at
   least `cachedRounds` rounds above.
   */
  lemma EvictKeeps(cfg: Config, s: Cache)
    requires BlocksKept(cfg, s)
    ensures LeavesRecent(s.recent, Evict(cfg, s).recent, GcRound(cfg, s), cfg.cachedRounds)
  {
    forall r | r in s.recent
      ensures r in Evict(cfg, s).recent <==>
              || r.round > GcRound(cfg, s)
              || forall x | x in s.recent && x.author == r.author :: x.round < r.round + cfg.cachedRounds
    {
      assert r in Accepted(s);
      assert AuthorityKept(cfg, s, r.author);
      EvictedBelow(s.refs[r.author], GcRound(cfg, s), cfg.cachedRounds, r.round);
    }
  }

  /** A restart loads by the same rule, applied to everything stored. */
  lemma RestartKeeps(cfg: Config, store: Store)
    requires WellKeyed(cfg, store.blocks)
    ensures LeavesRecent(store.blocks, Restart(cfg, store).recent, StoredGcRound(cfg, store), cfg.cachedRounds)
  {
    forall r | r in store.blocks
      ensures r in Restart(cfg, store).recent <==>
              || r.round > StoredGcRound(cfg, store)
              || forall x | x in store.blocks && x.author == r.author :: x.round < r.round + cfg.cachedRounds
    {
      EvictedBelow(OfAuthor(store.blocks, r.author), StoredGcRound(cfg, store), cfg.cachedRounds, r.round);
    }
  }

  lemma {:induction false} WriteBlocksContents(d: Dag, blocks: seq<Block>)
    ensures forall r :: r in WriteBlocks(d, blocks) <==> r in d || exists b | b in blocks :: b.reference == r
    ensures forall r | r in d && (forall b | b in blocks :: b.reference != r) :: WriteBlocks(d, blocks)[r] == d[r]
    decreases |blocks|
  {
    if blocks != [] {
      var last := |blocks| - 1;
      assert blocks == blocks[..last] + [blocks[last]];
      WriteBlocksContents(d, blocks[..last]);
    }
  }

  // ---- Every operation keeps the invariant ----

  /** Losing low references does not change the highest round. */
  lemma HighestSurvives(refs: set<BlockRef>, round: Round)
    requires round < HighestRound(refs) || refs == {}
    ensures HighestRound(set r | r in refs && r.round > round) == HighestRound(refs)
  {
    HighestRoundBounds(refs);
    var kept := set r | r in refs && r.round > round;
    if refs != {} {
      var top :| top in refs && top.round == HighestRound(refs);
      assert top in kept;
    }
    HighestRoundIs(kept, HighestRound(refs));
  }

  lemma HighestGrows(refs: set<BlockRef>, r: BlockRef)
    ensures HighestRound(refs + {r}) >= HighestRound(refs) && HighestRound(refs + {r}) >= r.round
  {
    HighestRoundBounds(refs);
    HighestRoundBounds(refs + {r});
    if refs != {} {
      var q :| q in refs && q.round == HighestRound(refs);
      assert q in refs + {r};
    }
    assert r in refs + {r};
  }

  lemma RememberAccepts(cfg: Config, s: Cache, b: Block)
    requires b.reference.author < |s.refs|
    ensures Accepted(Remember(s, b)) == Accepted(s)[b.reference := b]
  {
    var t := Remember(s, b);
    assert t.blocksToWrite[..|t.blocksToWrite| - 1] == s.blocksToWrite;
  }

  lemma RememberKeepsAuthority(cfg: Config, s: Cache, b: Block, a: Author)
    requires a < |s.refs| == |s.evicted| && AuthorityKept(cfg, s, a) && b.reference.author < |s.refs|
    ensures AuthorityKept(cfg, Remember(s, b), a)
  {
    var t := Remember(s, b);
    RememberAccepts(cfg, s, b);
    assert t.refs[a] == OfAuthor(t.recent, a);
    if a == b.reference.author {
      HighestGrows(s.refs[a], b.reference);
    }
  }

  lemma AcceptKeepsBlocks(cfg: Config, s: Cache, b: Block)
    requires BlocksKept(cfg, s) && b.reference.round > GENESIS_ROUND && b.reference.author < cfg.authorities
    requires b.reference in Accepted(s) ==> Accepted(s)[b.reference] == b
    ensures BlocksKept(cfg, Accept(cfg, s, b)) && Accepted(Accept(cfg, s, b)) == Accepted(s)[b.reference := b]
    ensures Accept(cfg, s, b) == if b.reference in Accepted(s) then s else Remember(s, b)
  {
    AnswersLikeAccepted(cfg, s, b.reference);
    if b.reference !in Accepted(s) {
      RememberAccepts(cfg, s, b);
      forall a | 0 <= a < cfg.authorities ensures AuthorityKept(cfg, Remember(s, b), a) {
        assert AuthorityKept(cfg, s, a);
        RememberKeepsAuthority(cfg, s, b, a);
      }
    }
  }

  lemma HeldInMore(d: Dag, more: Dag, commits: seq<TrustedCommit>)
    requires CommitsHeld(d, commits) && d.Keys <= more.Keys
    ensures CommitsHeld(more, commits)
  {
    forall i | 0 <= i < |commits| ensures CommitHeld(more, commits[i]) {
      assert CommitHeld(d, commits[i]);
    }
  }

  /** A new block is in no commit yet. */
  lemma RememberKeepsCommits(cfg: Config, s: Cache, b: Block)
    requires Inv(cfg, s) && b.reference.author < |s.refs| && b.reference !in Accepted(s)
    ensures CommitsKept(cfg, Remember(s, b))
  {
    var t := Remember(s, b);
    RememberAccepts(cfg, s, b);
    HeldInMore(Accepted(s), Accepted(t), Known(s));
    assert !InCommits(Known(s), b.reference) by {
      forall i | 0 <= i < |Known(s)| ensures b.reference !in Known(s)[i].blocks {
        assert CommitHeld(Accepted(s), Known(s)[i]);
      }
    }
  }

  lemma AcceptKeepsInv(cfg: Config, s: Cache, b: Block)
    requires Inv(cfg, s) && b.reference.round > GENESIS_ROUND && b.reference.author < cfg.authorities
    requires b.reference in Accepted(s) ==> Accepted(s)[b.reference] == b
    ensures Inv(cfg, Accept(cfg, s, b)) && Accepted(Accept(cfg, s, b)) == Accepted(s)[b.reference := b]
    ensures Accept(cfg, s, b).store == s.store
  {
    AcceptKeepsBlocks(cfg, s, b);
    if b.reference !in Accepted(s) {
      RememberKeepsCommits(cfg, s, b);
      assert Known(Remember(s, b)) == Known(s);
    }
  }

  /** What the linearizer guarantees of the next commit: blocks above the GC round that are not marked yet. */
  ghost predicate IsNextCommit(cfg: Config, s: Cache, c: TrustedCommit) {
    && c.index == (if s.lastCommit.Some? then s.lastCommit.value.index + 1 else 1)
    && c.leader.round >= LastCommitRound(s) && CommitHeld(Accepted(s), c) && DistinctBlocks(c)
    && forall r | r in c.blocks :: GcRound(cfg, s) < r.round <= c.leader.round && r !in s.committed
  }

  lemma AddCommitKeepsBlocks(cfg: Config, s: Cache, c: TrustedCommit)
    requires BlocksKept(cfg, s) && IsNextCommit(cfg, s, c)
    ensures BlocksKept(cfg, AddCommit(s, c))
  {
    var t := AddCommit(s, c);
    assert Known(t) == Known(s) + [c];
    forall a | 0 <= a < cfg.authorities ensures AuthorityKept(cfg, t, a) {
      assert AuthorityKept(cfg, s, a);
      AddCommitKeepsAuthority(cfg, s, c, a);
    }
  }

  lemma AddCommitKnows(s: Cache, c: TrustedCommit)
    ensures Known(AddCommit(s, c)) == Known(s) + if IsOld(s, c) then [] else [c]
  {}

  lemma AddCommitKeepsAuthority(cfg: Config, s: Cache, c: TrustedCommit, a: Author)
    requires a < |s.refs| == |s.evicted| && AuthorityKept(cfg, s, a) && c.leader.round >= LastCommitRound(s)
    ensures AuthorityKept(cfg, AddCommit(s, c), a)
  {}

  lemma NewBlocks(cfg: Config, s: Cache, c: TrustedCommit, r: BlockRef)
    requires Inv(cfg, s) && IsNextCommit(cfg, s, c) && r in c.blocks
    ensures r in s.recent && !InCommits(Known(s), r)
  {
    AboveGcInMemory(cfg, s, r);
  }

  lemma ProperNext(commits: seq<TrustedCommit>, c: TrustedCommit)
    requires ProperCommits(commits) && DistinctBlocks(c)
    requires forall r | r in c.blocks :: r.round <= c.leader.round && !InCommits(commits, r)
    requires LastOf(commits).Some? ==> LastOf(commits).value.leader.round <= c.leader.round
    ensures ProperCommits(commits + [c])
  {
    var all, n := commits + [c], |commits|;
    forall i, j | 0 <= i < j < |all| ensures all[i].leader.round <= all[j].leader.round {
      if j == n {
        assert all[i].leader.round <= commits[n - 1].leader.round;
      }
    }
    forall i, j, r | 0 <= i < j < |all| && r in all[i].blocks ensures r !in all[j].blocks {
      if j == n {
        assert InCommits(commits, r);
      }
    }
  }

  lemma AddCommitKeepsCommits(cfg: Config, s: Cache, c: TrustedCommit)
    requires Inv(cfg, s) && IsNextCommit(cfg, s, c) && !IsOld(s, c)
    ensures CommitsKept(cfg, AddCommit(s, c))
  {
    var t := AddCommit(s, c);
    assert Known(t) == Known(s) + [c];
    forall r | r in c.blocks ensures r in s.recent && !InCommits(Known(s), r) {
      NewBlocks(cfg, s, c, r);
    }
    ProperNext(Known(s), c);
    HeldNext(Accepted(s), Known(s), c);
    AddCommitMarks(cfg, s, c, t);
  }

  lemma HeldNext(d: Dag, commits: seq<TrustedCommit>, c: TrustedCommit)
    requires CommitsHeld(d, commits) && CommitHeld(d, c)
    ensures CommitsHeld(d, commits + [c])
  {
    var all := commits + [c];
    forall i | 0 <= i < |all| ensures CommitHeld(d, all[i]) {
      assert i < |commits| ==> CommitHeld(d, commits[i]) && all[i] == commits[i];
    }
  }

  lemma InCommitsNext(commits: seq<TrustedCommit>, c: TrustedCommit, r: BlockRef)
    ensures InCommits(commits + [c], r) <==> InCommits(commits, r) || r in c.blocks
  {
    var all := commits + [c];
    if InCommits(commits, r) {
      var i :| 0 <= i < |commits| && r in commits[i].blocks;
      assert r in all[i].blocks;
    }
    assert all[|commits|] == c;
  }

  lemma AddCommitMarks(cfg: Config, s: Cache, c: TrustedCommit, t: Cache)
    requires MarksExact(cfg, s) && t == AddCommit(s, c) && !IsOld(s, c) && Known(t) == Known(s) + [c]
    requires c.leader.round >= LastCommitRound(s) && forall r | r in c.blocks :: r in s.recent
    ensures MarksExact(cfg, t)
  {
    forall r | r in t.recent && r.round > GcRound(cfg, t) ensures r in t.committed <==> InCommits(Known(t), r) {
      InCommitsNext(Known(s), c, r);
      assert r.round > GcRound(cfg, s);
    }
  }

  lemma AddCommitKeepsRounds(cfg: Config, s: Cache, c: TrustedCommit)
    requires RoundsKept(cfg, s) && s.lastCommit == LastOf(Known(s)) && IsNextCommit(cfg, s, c) && !IsOld(s, c)
    ensures RoundsKept(cfg, AddCommit(s, c))
  {
    var t := AddCommit(s, c);
    AddCommitKnows(s, c);
    RaiseCommitsNext(Zeros(cfg.authorities), Known(s), c);
    forall i | 0 <= i < |t.checkpointsToWrite|
      ensures IsCheckpoint(cfg.authorities, Known(t), t.checkpointsToWrite[i])
    {
      CheckpointStays(cfg.authorities, Known(s), [c], s.checkpointsToWrite[i]);
    }
  }

  lemma RaiseCommitsNext(rounds: seq<Round>, commits: seq<TrustedCommit>, c: TrustedCommit)
    ensures RaiseCommits(rounds, commits + [c]) == RaiseAll(RaiseCommits(rounds, commits), c.blocks)
  {
    assert (commits + [c])[..|commits|] == commits;
  }

  lemma AddCommitKeepsInv(cfg: Config, s: Cache, c: TrustedCommit)
    requires Inv(cfg, s) && (IsOld(s, c) || IsNextCommit(cfg, s, c))
    ensures Inv(cfg, AddCommit(s, c)) && Accepted(AddCommit(s, c)) == Accepted(s) && AddCommit(s, c).store == s.store
  {
    if !IsOld(s, c) {
      AddCommitKeepsBlocks(cfg, s, c);
      AddCommitKeepsCommits(cfg, s, c);
      AddCommitKeepsRounds(cfg, s, c);
    }
  }

  lemma AddCheckpointKeepsInv(cfg: Config, s: Cache)
    requires Inv(cfg, s) && s.lastCommit.Some?
    ensures Inv(cfg, AddCheckpoint(s)) && Accepted(AddCheckpoint(s)) == Accepted(s) && AddCheckpoint(s).store == s.store
  {
    var t := AddCheckpoint(s);
    assert Known(t) == Known(s) && Known(s)[..|Known(s)|] == Known(s);
    forall a | 0 <= a < cfg.authorities ensures AuthorityKept(cfg, t, a) {
      assert AuthorityKept(cfg, s, a);
    }
  }

  /** Eviction leaves the highest block of every authority. */
  ghost predicate KeepsTops(cfg: Config) {
    cfg.cachedRounds >= 1 || cfg.authorities == 0 || (cfg.authorities == 1 && cfg.gcDepth >= 1)
  }

  lemma EvictionLeavesTop(cfg: Config, s: Cache, a: Author)
    requires Inv(cfg, s) && KeepsTops(cfg) && a < cfg.authorities
    ensures AuthorityEvictionRound(cfg, s, a) < HighestRound(s.refs[a]) || s.refs[a] == {}
  {
    assert AuthorityKept(cfg, s, a);
    HighestRoundBounds(s.refs[a]);
    if s.refs[a] != {} && cfg.cachedRounds == 0 && s.lastCommit.Some? {
      var n := |Known(s)| - 1;
      assert CommitHeld(Accepted(s), Known(s)[n]) && Known(s)[n].leader.author == a;
    }
  }

  lemma EvictKeepsAuthority(cfg: Config, s: Cache, a: Author)
    requires a < |s.refs| == |s.evicted| && AuthorityKept(cfg, s, a) && s.blocksToWrite == []
    requires AuthorityEvictionRound(cfg, s, a) < HighestRound(s.refs[a]) || s.refs[a] == {}
    ensures AuthorityKept(cfg, Evict(cfg, s), a)
  {
    var t, round := Evict(cfg, s), AuthorityEvictionRound(cfg, s, a);
    HighestRoundBounds(s.refs[a]);
    HighestSurvives(s.refs[a], round);
    assert t.refs[a] == set r | r in s.refs[a] && r.round > round;
    assert t.refs[a] == OfAuthor(t.recent, a);
  }

  lemma EvictKeepsBlocks(cfg: Config, s: Cache)
    requires Inv(cfg, s) && s.blocksToWrite == [] && KeepsTops(cfg)
    ensures BlocksKept(cfg, Evict(cfg, s))
  {
    var t := Evict(cfg, s);
    assert Known(t) == Known(s);
    forall a | 0 <= a < cfg.authorities ensures AuthorityKept(cfg, t, a) {
      assert AuthorityKept(cfg, s, a);
      EvictionLeavesTop(cfg, s, a);
      EvictKeepsAuthority(cfg, s, a);
    }
  }

  lemma WriteKeepsRounds(cfg: Config, s: Cache)
    requires RoundsKept(cfg, s)
    ensures RoundsKept(cfg, AfterWrite(s))
  {
    var w := AfterWrite(s);
    assert Known(w) == Known(s);
    if s.checkpointsToWrite == [] && s.store.checkpoint.Some? {
      CheckpointStays(cfg.authorities, s.store.commits, s.commitsToWrite, s.store.checkpoint.value);
    }
  }

  lemma WriteKeepsBlocks(cfg: Config, s: Cache)
    requires BlocksKept(cfg, s)
    ensures BlocksKept(cfg, AfterWrite(s)) && Accepted(AfterWrite(s)) == Accepted(s) && Known(AfterWrite(s)) == Known(s)
  {
    var w := AfterWrite(s);
    assert Known(w) == Known(s) && Accepted(w) == Accepted(s);
    forall a | 0 <= a < cfg.authorities ensures AuthorityKept(cfg, w, a) {
      assert AuthorityKept(cfg, s, a);
    }
  }

  lemma WriteKeepsInv(cfg: Config, s: Cache)
    requires Inv(cfg, s)
    ensures Inv(cfg, AfterWrite(s)) && Accepted(AfterWrite(s)) == Accepted(s)
  {
    WriteKeepsBlocks(cfg, s);
    WriteKeepsRounds(cfg, s);
  }

  lemma EvictKeepsMarks(cfg: Config, s: Cache)
    requires Inv(cfg, s)
    ensures MarksExact(cfg, Evict(cfg, s))
  {
    var t := Evict(cfg, s);
    assert Known(t) == Known(s);
    forall r | r in t.committed ensures r in t.recent {
      assert r in s.recent;
    }
  }

  lemma EvictKeepsInv(cfg: Config, s: Cache)
    requires Inv(cfg, s) && s.blocksToWrite == [] && KeepsTops(cfg)
    ensures Inv(cfg, Evict(cfg, s)) && Accepted(Evict(cfg, s)) == Accepted(s) && Evict(cfg, s).store == s.store
  {
    EvictKeepsBlocks(cfg, s);
    EvictKeepsMarks(cfg, s);
    assert Known(Evict(cfg, s)) == Known(s);
  }

  lemma FlushKeepsInv(cfg: Config, s: Cache)
    requires Inv(cfg, s) && KeepsTops(cfg)
    ensures Inv(cfg, Flush(cfg, s)) && Accepted(Flush(cfg, s)) == Accepted(s) == Flush(cfg, s).store.blocks
  {
    if s.blocksToWrite != [] || s.commitsToWrite != [] || s.checkpointsToWrite != [] {
      WriteKeepsInv(cfg, s);
      EvictKeepsInv(cfg, AfterWrite(s));
    }
  }

  lemma RecoveryLeavesTop(cfg: Config, store: Store, a: Author)
    requires WellKeyed(cfg, store.blocks) && StoreProper(store) && KeepsTops(cfg) && a < cfg.authorities
    ensures var refs := OfAuthor(store.blocks, a);
            RecoveryEvictionRound(cfg, store, a) < HighestRound(refs) || refs == {}
  {
    var refs := OfAuthor(store.blocks, a);
    HighestRoundBounds(refs);
    if refs != {} && cfg.cachedRounds == 0 && store.commits != [] {
      var c := store.commits[|store.commits| - 1];
      assert CommitHeld(store.blocks, c) && c.leader in refs;
    }
  }

  lemma RestartRefs(cfg: Config, store: Store, a: Author)
    requires WellKeyed(cfg, store.blocks) && a < cfg.authorities
    ensures var t := Restart(cfg, store);
            && t.refs[a] == (set r | r in OfAuthor(store.blocks, a) && r.round > RecoveryEvictionRound(cfg, store, a))
            && t.refs[a] == OfAuthor(t.recent, a) && t.evicted[a] == RecoveryEvictionRound(cfg, store, a)
  {
    var t, refs, round := Restart(cfg, store), OfAuthor(store.blocks, a), RecoveryEvictionRound(cfg, store, a);
    assert t.refs[a] == set r | r in refs && r.round > round;
    assert t.refs[a] == OfAuthor(t.recent, a);
  }

  lemma RestartKeepsAuthority(cfg: Config, store: Store, a: Author)
    requires WellKeyed(cfg, store.blocks) && StoreProper(store) && KeepsTops(cfg) && a < cfg.authorities
    ensures AuthorityKept(cfg, Restart(cfg, store), a)
  {
    var t, refs, round := Restart(cfg, store), OfAuthor(store.blocks, a), RecoveryEvictionRound(cfg, store, a);
    HighestRoundBounds(refs);
    RecoveryLeavesTop(cfg, store, a);
    HighestSurvives(refs, round);
    RestartRefs(cfg, store, a);
    assert Accepted(t) == store.blocks;
  }

  lemma CommittedIsRecent(cfg: Config, store: Store, r: BlockRef)
    requires WellKeyed(cfg, store.blocks) && CommitsHeld(store.blocks, store.commits)
    requires r in CommittedAbove(store.commits, 0, StoredGcRound(cfg, store))
    ensures r in store.blocks && r in Restart(cfg, store).recent && InCommits(store.commits, r)
  {
    var i :| 0 <= i < |store.commits| && r in store.commits[i].blocks && r.round > StoredGcRound(cfg, store);
    assert CommitHeld(store.blocks, store.commits[i]);
  }

  /** After a restart every committed block above the GC round is in memory, and exactly these are marked. */
  lemma RestartMarks(cfg: Config, store: Store, t: Cache)
    requires WellKeyed(cfg, store.blocks) && CommitsHeld(store.blocks, store.commits) && t == Restart(cfg, store)
    ensures Known(t) == store.commits && GcRound(cfg, t) == StoredGcRound(cfg, store) && MarksExact(cfg, t)
  {
    var marks := CommittedAbove(store.commits, 0, StoredGcRound(cfg, store));
    assert t.store == store && t.commitsToWrite == [] && t.committed == marks;
    assert Known(t) == store.commits;
    forall r | r in marks ensures r in t.recent && InCommits(store.commits, r) {
      CommittedIsRecent(cfg, store, r);
    }
  }

  lemma RestartKeepsInv(cfg: Config, store: Store)
    requires WellKeyed(cfg, store.blocks) && StoreProper(store) && KeepsTops(cfg) && CheckpointKept(cfg, store)
    requires forall i | 0 <= i < |store.commits| :: store.commits[i].index == i + 1
    requires forall r | r in cfg.genesis :: r.round == GENESIS_ROUND
    ensures Inv(cfg, Restart(cfg, store)) && Accepted(Restart(cfg, store)) == store.blocks
  {
    var t := Restart(cfg, store);
    RestartMarks(cfg, store, t);
    RecoveredIsFold(cfg.authorities, store.commits, store.checkpoint);
    forall a | 0 <= a < cfg.authorities ensures AuthorityKept(cfg, t, a) {
      RestartKeepsAuthority(cfg, store, a);
    }
  }

  // ---- Runs, and the plain machine they are compared with ----

  datatype Op = AcceptOp(block: Block) | AddCommitOp(commit: TrustedCommit) | AddCheckpointOp | FlushOp | RestartOp

  /** What callers guarantee of an operation. */
  ghost predicate Enabled(cfg: Config, s: Cache, op: Op) {
    match op
    case AcceptOp(b) =>
      && b.reference.round > GENESIS_ROUND && b.reference.author < cfg.authorities
      && (b.reference in Accepted(s) ==> Accepted(s)[b.reference] == b)
    case AddCommitOp(c) => IsOld(s, c) || IsNextCommit(cfg, s, c)
    case AddCheckpointOp => s.lastCommit.Some?
    case FlushOp => true
    case RestartOp => true
  }

  ghost function Step(cfg: Config, s: Cache, op: Op): Cache
    requires |s.refs| == cfg.authorities && Enabled(cfg, s, op)
  {
    match op
    case AcceptOp(b) => Accept(cfg, s, b)
    case AddCommitOp(c) => AddCommit(s, c)
    case AddCheckpointOp => AddCheckpoint(s)
    case FlushOp => Flush(cfg, s)
    case RestartOp => Restart(cfg, s.store)
  }

  /** Two plain sets: what was accepted, and what of it is safe on disk. */
  datatype Plain = Plain(accepted: Dag, persisted: Dag)

  function PlainStep(p: Plain, op: Op): Plain {
    match op
    case AcceptOp(b) => p.(accepted := p.accepted[b.reference := b])
    case AddCommitOp(_) => p
    case AddCheckpointOp => p
    case FlushOp => p.(persisted := p.accepted)
    case RestartOp => p.(accepted := p.persisted)
  }

  function PlainRun(ops: seq<Op>): Plain {
    if ops == [] then Plain(map[], map[]) else PlainStep(PlainRun(ops[..|ops| - 1]), ops[|ops| - 1])
  }

  /** `s` results from the operations, starting with an empty store. */
  ghost predicate IsRun(cfg: Config, ops: seq<Op>, s: Cache)
    decreases |ops|
  {
    if ops == [] then s == Restart(cfg, EMPTY)
    else
      exists before ::
        && IsRun(cfg, ops[..|ops| - 1], before) && |before.refs| == cfg.authorities
        && Enabled(cfg, before, ops[|ops| - 1]) && s == Step(cfg, before, ops[|ops| - 1])
  }

  ghost predicate ValidConfig(cfg: Config) {
    forall r | r in cfg.genesis :: r.round == GENESIS_ROUND
  }

  lemma StoredIndices(cfg: Config, s: Cache)
    requires RoundsKept(cfg, s)
    ensures forall i | 0 <= i < |s.store.commits| :: s.store.commits[i].index == i + 1
  {
    forall i | 0 <= i < |s.store.commits| ensures s.store.commits[i].index == i + 1 {
      assert Known(s)[i] == s.store.commits[i];
    }
  }

  lemma StepRefines(cfg: Config, s: Cache, op: Op)
    requires ValidConfig(cfg) && KeepsTops(cfg) && Inv(cfg, s) && WellKeyed(cfg, s.store.blocks)
    requires |s.refs| == cfg.authorities && Enabled(cfg, s, op)
    ensures var t := Step(cfg, s, op);
            && Inv(cfg, t) && Plain(Accepted(t), t.store.blocks) == PlainStep(Plain(Accepted(s), s.store.blocks), op)
            && WellKeyed(cfg, t.store.blocks)
  {
    match op {
      case AcceptOp(b) => AcceptKeepsInv(cfg, s, b);
      case AddCommitOp(c) => AddCommitKeepsInv(cfg, s, c);
      case AddCheckpointOp => AddCheckpointKeepsInv(cfg, s);
      case FlushOp => FlushKeepsInv(cfg, s);
      case RestartOp => StoredIndices(cfg, s); RestartKeepsInv(cfg, s.store);
    }
  }

  lemma {:induction false} RunRefines(cfg: Config, ops: seq<Op>, s: Cache)
    requires ValidConfig(cfg) && KeepsTops(cfg) && IsRun(cfg, ops, s)
    ensures Inv(cfg, s) && Accepted(s) == PlainRun(ops).accepted && s.store.blocks == PlainRun(ops).persisted
    ensures WellKeyed(cfg, s.store.blocks)
    decreases |ops|
  {
    if ops == [] {
      RestartKeepsInv(cfg, EMPTY);
    } else {
      var op := ops[|ops| - 1];
      var before :| IsRun(cfg, ops[..|ops| - 1], before) && |before.refs| == cfg.authorities &&
        Enabled(cfg, before, op) && s == Step(cfg, before, op);
      RunRefines(cfg, ops[..|ops| - 1], before);
      StepRefines(cfg, before, op);
    }
  }

  /** `s` answers like the plain set, and has in memory everything above the GC round. */
  ghost predicate Faithful(cfg: Config, s: Cache, p: Plain) {
    && |s.refs| == cfg.authorities
    && (forall r: BlockRef | r.author < cfg.authorities :: Contains(cfg, s, r) <==> r in cfg.genesis || r in p.accepted)
    && (forall r: BlockRef | r.round > GENESIS_ROUND ::
      Lookup(cfg, s, r) == if r in p.accepted then Some(p.accepted[r]) else None)
    && (forall r | r in p.accepted && r.round > GcRound(cfg, s) :: r in s.recent)
  }

  /** Over every run the cache is faithful to the plain set of accepted blocks. */
  lemma CacheIsFaithful(cfg: Config, ops: seq<Op>, s: Cache)
    requires ValidConfig(cfg) && KeepsTops(cfg) && IsRun(cfg, ops, s)
    ensures Faithful(cfg, s, PlainRun(ops))
  {
    RunRefines(cfg, ops, s);
    forall r: BlockRef | r.author < cfg.authorities
      ensures Contains(cfg, s, r) <==> r in cfg.genesis || r in PlainRun(ops).accepted
    {
      AnswersLikeAccepted(cfg, s, r);
    }
    forall r: BlockRef | r.round > GENESIS_ROUND
      ensures Lookup(cfg, s, r) == if r in PlainRun(ops).accepted then Some(PlainRun(ops).accepted[r]) else None
    {
      FindsLikeAccepted(cfg, s, r);
    }
    forall r | r in PlainRun(ops).accepted && r.round > GcRound(cfg, s) ensures r in s.recent {
      AboveGcInMemory(cfg, s, r);
    }
  }

  lemma RunStep(cfg: Config, ops: seq<Op>, s: Cache, op: Op)
    requires IsRun(cfg, ops, s) && |s.refs| == cfg.authorities && Enabled(cfg, s, op)
    ensures IsRun(cfg, ops + [op], Step(cfg, s, op)) && PlainRun(ops + [op]) == PlainStep(PlainRun(ops), op)
  {
    PlainRunStep(ops, op);
    var more := ops + [op];
    assert more[..|more| - 1] == ops && more[|more| - 1] == op;
  }

  lemma PlainRunStep(ops: seq<Op>, op: Op)
    ensures PlainRun(ops + [op]) == PlainStep(PlainRun(ops), op)
  {
    assert (ops + [op])[..|ops + [op]| - 1] == ops;
  }

  /** What a flush leaves: everything is in the store, and what is above the GC round is in memory too. */
  lemma FlushLeaves(cfg: Config, ops: seq<Op>, s: Cache, t: Cache)
    requires ValidConfig(cfg) && KeepsTops(cfg) && IsRun(cfg, ops, s) && t == Flush(cfg, s)
    ensures IsRun(cfg, ops + [FlushOp], t)
    ensures PlainRun(ops + [FlushOp]).accepted == PlainRun(ops).accepted == t.store.blocks
    ensures t.blocksToWrite == [] && t.commitsToWrite == [] && t.checkpointsToWrite == []
    ensures t.lastCommit == s.lastCommit && t.rounds == s.rounds && Known(t) == Known(s) == t.store.commits
    ensures forall r | r in PlainRun(ops).accepted && r.round > GcRound(cfg, t) :: r in t.recent
  {
    RunRefines(cfg, ops, s);
    RunStep(cfg, ops, s, FlushOp);
    CacheIsFaithful(cfg, ops + [FlushOp], t);
  }
}
