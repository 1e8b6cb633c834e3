/**
 When the cache of DagState may forget: eviction can take the last block of an authority out of memory, and the
 authority then looks as if it had none. This happens exactly when no round is cached below the last one, unless
 the only authority leads every commit itself.
 */
module DagForgets {
  import opened Types
  import opened Committee
  import opened CommittedRounds
  import opened DagCache
  import BlockVerifier

  ghost predicate HasGenesis(cfg: Config) {
    forall a: nat | a < cfg.authorities :: Ref(0, a) in cfg.genesis
  }

  /** Every accepted block is one that verification lets through. */
  ghost predicate AllVerified(c: Committee, cfg: Config, ops: seq<Op>) {
    && |c.stakes| == cfg.authorities
    && forall i | 0 <= i < |ops| && ops[i].AcceptOp? :: BlockVerifier.WellFormed(c, cfg.genesis.Keys, ops[i].block)
  }

  ghost predicate IsVerifiedRun(c: Committee, cfg: Config, ops: seq<Op>, s: Cache) {
    AllVerified(c, cfg, ops) && IsRun(cfg, ops, s)
  }

  // ---- A committee in which one authority holds all stake ----

  function Lone(n: nat, holder: Author): Committee {
    Committee(0, seq(n, i => if i == holder then 1 else 0))
  }

  lemma {:induction false} LoneStake(n: nat, holder: Author, s: set<Author>, k: nat)
    requires k <= n
    ensures Lone(n, holder).StakeBelow(s, k) == if holder < k && holder in s then 1 else 0
    decreases k
  {
    if k > 0 {
      LoneStake(n, holder, s, k - 1);
    }
  }

  lemma LoneQuorum(n: nat, holder: Author, s: set<Author>)
    requires holder < n && holder in s
    ensures Lone(n, holder).IsQuorum(s)
  {
    var c := Lone(n, holder);
    LoneStake(n, holder, s, n);
    LoneStake(n, holder, c.Everyone(), n);
  }

  // ---- The blocks ----

  /** A block of the holder, on top of its own last block. */
  function Chained(round: Round, holder: Author): Block
    requires round > 0
  {
    Block(Ref(round, holder), [Ref(round - 1, holder)], 0, [], [])
  }

  /** The only block of authority 0. */
  function Victim(holder: Author): Block {
    if holder == 0 then Chained(1, 0) else Block(Ref(1, 0), [Ref(0, 0), Ref(0, holder)], 0, [], [])
  }

  lemma ChainedIsWellFormed(cfg: Config, round: Round, holder: Author)
    requires HasGenesis(cfg) && round > 0 && holder < cfg.authorities
    ensures BlockVerifier.WellFormed(Lone(cfg.authorities, holder), cfg.genesis.Keys, Chained(round, holder))
  {
    var c, b := Lone(cfg.authorities, holder), Chained(round, holder);
    assert b.ancestors[0] in b.ancestors;
    LoneQuorum(cfg.authorities, holder, BlockVerifier.ParentAuthors(b));
  }

  lemma VictimIsWellFormed(cfg: Config, holder: Author)
    requires HasGenesis(cfg) && holder < cfg.authorities
    ensures BlockVerifier.WellFormed(Lone(cfg.authorities, holder), cfg.genesis.Keys, Victim(holder))
  {
    var b := Victim(holder);
    if holder == 0 {
      ChainedIsWellFormed(cfg, 1, 0);
    } else {
      assert b.ancestors[0] in b.ancestors && b.ancestors[1] in b.ancestors;
      LoneQuorum(cfg.authorities, holder, BlockVerifier.ParentAuthors(b));
    }
  }

  // ---- The run ----

  /** The victim is accepted, then `k` rounds of the holder. */
  function Growing(holder: Author, k: nat): seq<Op> {
    if k == 0 then [AcceptOp(Victim(holder))] else Growing(holder, k - 1) + [AcceptOp(Chained(k, holder))]
  }

  /** The holder leads the first commit, which has all its blocks. */
  function FirstCommit(holder: Author, k: nat): TrustedCommit {
    TrustedCommit(1, Ref(k, holder), seq(k, i requires 0 <= i < k => Ref(i + 1, holder)))
  }

  /** Authority 0 as the holder needs no block but the victim. */
  function Forgetting(holder: Author, k: nat): seq<Op> {
    Growing(holder, if holder == 0 then 0 else k) + [AddCommitOp(FirstCommit(holder, k))] + [FlushOp]
  }

  lemma {:induction false} GrowingIsVerified(cfg: Config, holder: Author, k: nat)
    requires HasGenesis(cfg) && holder < cfg.authorities
    ensures AllVerified(Lone(cfg.authorities, holder), cfg, Growing(holder, k))
    decreases k
  {
    if k == 0 {
      VictimIsWellFormed(cfg, holder);
    } else {
      GrowingIsVerified(cfg, holder, k - 1);
      ChainedIsWellFormed(cfg, k, holder);
    }
  }

  lemma ForgettingIsVerified(cfg: Config, holder: Author, k: nat)
    requires HasGenesis(cfg) && holder < cfg.authorities
    ensures AllVerified(Lone(cfg.authorities, holder), cfg, Forgetting(holder, k))
  {
    GrowingIsVerified(cfg, holder, if holder == 0 then 0 else k);
  }

  /** Nothing is committed or stored yet; the victim is all that authority 0 has. */
  ghost predicate Grown(cfg: Config, holder: Author, k: nat, s: Cache) {
    && Inv(cfg, s) && cfg.authorities > 0 && s.refs[0] == {Ref(1, 0)} && s.lastCommit == None && s.committed == {}
    && s.blocksToWrite != [] && (forall i | 1 <= i <= k :: Ref(i, holder) in Accepted(s))
    && (forall r | r in Accepted(s) :: r == Ref(1, 0) || r.round <= k)
  }

  /** The state after a growing run that still has the victim. */
  ghost predicate IsGrown(cfg: Config, holder: Author, k: nat, ops: seq<Op>, s: Cache) {
    IsRun(cfg, ops, s) && Grown(cfg, holder, k, s) && Ref(1, 0) in PlainRun(ops).accepted
  }

  lemma EmptyInv(cfg: Config, s: Cache)
    requires ValidConfig(cfg) && s == Restart(cfg, EMPTY)
    ensures Inv(cfg, s) && s.lastCommit == None && s.committed == {} && Accepted(s) == map[]
    ensures forall a | 0 <= a < cfg.authorities :: s.refs[a] == {}
  {
    assert Known(s) == [];
    forall a | 0 <= a < cfg.authorities ensures s.refs[a] == {} && AuthorityKept(cfg, s, a) {
      assert OfAuthor(EMPTY.blocks, a) == {};
    }
  }

  lemma GrowFirst(cfg: Config, holder: Author) returns (s: Cache)
    requires ValidConfig(cfg) && holder < cfg.authorities
    ensures IsGrown(cfg, holder, 0, [AcceptOp(Victim(holder))], s)
  {
    var start, b := Restart(cfg, EMPTY), Victim(holder);
    EmptyInv(cfg, start);
    RunStep(cfg, [], start, AcceptOp(b));
    AcceptKeepsInv(cfg, start, b);
    AcceptKeepsBlocks(cfg, start, b);
    s := Remember(start, b);
    assert [] + [AcceptOp(b)] == [AcceptOp(b)];
    assert Accepted(s) == map[b.reference := b];
  }

  /** What a block of the holder leaves as it was. */
  lemma GrownStays(cfg: Config, holder: Author, k: nat, s: Cache, t: Cache, b: Block)
    requires |s.refs| == cfg.authorities && b == Chained(k + 1, holder) && 0 < holder < cfg.authorities
    requires t == Remember(s, b)
    requires s.refs[0] == {Ref(1, 0)} && s.lastCommit == None && s.committed == {}
    ensures |t.refs| == cfg.authorities && t.refs[0] == {Ref(1, 0)} && t.lastCommit == None && t.committed == {}
    ensures t.blocksToWrite != []
  {}

  lemma HolderGrows(holder: Author, k: nat, before: Dag, after: Dag, b: Block)
    requires b == Chained(k + 1, holder) && after == before[b.reference := b]
    requires forall i | 1 <= i <= k :: Ref(i, holder) in before
    requires forall r | r in before :: r == Ref(1, 0) || r.round <= k
    ensures forall i | 1 <= i <= k + 1 :: Ref(i, holder) in after
    ensures forall r | r in after :: r == Ref(1, 0) || r.round <= k + 1
  {}

  lemma GrowsBy(cfg: Config, holder: Author, k: nat, s: Cache)
    requires Grown(cfg, holder, k, s) && 0 < holder < cfg.authorities
    ensures var b := Chained(k + 1, holder);
            b.reference !in Accepted(s) && Accept(cfg, s, b) == Remember(s, b) &&
              Grown(cfg, holder, k + 1, Remember(s, b))
  {
    var b := Chained(k + 1, holder);
    AcceptKeepsBlocks(cfg, s, b);
    AcceptKeepsInv(cfg, s, b);
    GrownStays(cfg, holder, k, s, Remember(s, b), b);
    HolderGrows(holder, k, Accepted(s), Accepted(Remember(s, b)), b);
  }

  lemma GrowNext(cfg: Config, holder: Author, k: nat, ops: seq<Op>, s: Cache)
    requires IsGrown(cfg, holder, k, ops, s) && 0 < holder < cfg.authorities
    ensures var b := Chained(k + 1, holder); IsGrown(cfg, holder, k + 1, ops + [AcceptOp(b)], Remember(s, b))
  {
    GrowsBy(cfg, holder, k, s);
    RunStep(cfg, ops, s, AcceptOp(Chained(k + 1, holder)));
  }

  lemma Grow(cfg: Config, holder: Author, k: nat) returns (s: Cache)
    requires ValidConfig(cfg) && holder < cfg.authorities && (holder == 0 ==> k == 0)
    ensures IsGrown(cfg, holder, k, Growing(holder, k), s)
  {
    s := GrowFirst(cfg, holder);
    var ops := [AcceptOp(Victim(holder))];
    for i := 0 to k
      invariant ops == Growing(holder, i) && IsGrown(cfg, holder, i, ops, s)
    {
      GrowNext(cfg, holder, i, ops, s);
      ops, s := ops + [AcceptOp(Chained(i + 1, holder))], Remember(s, Chained(i + 1, holder));
    }
  }

  // ---- The commit and the flush ----

  lemma CommitFits(cfg: Config, holder: Author, k: nat, g: nat, s: Cache)
    requires Grown(cfg, holder, g, s) && holder < cfg.authorities && k == cfg.gcDepth + 1
    requires if holder == 0 then k == 1 else g == k
    ensures IsNextCommit(cfg, s, FirstCommit(holder, k))
  {
    VictimIsAccepted(cfg, holder, g, s);
    CommitIsHeld(Accepted(s), holder, k);
    FitsIfHeld(cfg, s, FirstCommit(holder, k));
  }

  lemma FitsIfHeld(cfg: Config, s: Cache, c: TrustedCommit)
    requires s.lastCommit == None && s.committed == {} && c.index == 1
    requires CommitHeld(Accepted(s), c) && DistinctBlocks(c)
    requires forall r | r in c.blocks :: 0 < r.round <= c.leader.round
    ensures IsNextCommit(cfg, s, c)
  {}

  lemma VictimIsAccepted(cfg: Config, holder: Author, g: nat, s: Cache)
    requires Grown(cfg, holder, g, s)
    ensures Ref(1, 0) in Accepted(s)
  {
    assert AuthorityKept(cfg, s, 0);
    assert Ref(1, 0) in s.refs[0] && Ref(1, 0) in s.recent;
  }

  lemma CommitIsHeld(d: Dag, holder: Author, k: nat)
    requires k > 0 && forall i | 1 <= i <= k :: Ref(i, holder) in d
    ensures CommitHeld(d, FirstCommit(holder, k)) && DistinctBlocks(FirstCommit(holder, k))
    ensures forall r | r in FirstCommit(holder, k).blocks :: 0 < r.round <= k
  {}

  lemma FlushForgets(cfg: Config, s: Cache)
    requires |s.refs| == cfg.authorities > 0 && s.refs[0] == {Ref(1, 0)} && s.blocksToWrite != []
    requires cfg.cachedRounds == 0
    requires GcRound(cfg, s) == 1
    ensures Flush(cfg, s).refs[0] == {} && |Flush(cfg, s).refs| == cfg.authorities
  {
    var w := AfterWrite(s);
    HighestRoundIs(w.refs[0], 1);
    assert AuthorityEvictionRound(cfg, w, 0) == 1;
  }

  /** A run of well-formed blocks after which the block of authority 0 seems to be unknown. */
  lemma Forget(cfg: Config, holder: Author) returns (t: Cache)
    requires ValidConfig(cfg) && holder < cfg.authorities && cfg.cachedRounds == 0 && (holder == 0 ==> cfg.gcDepth == 0)
    ensures var ops := Forgetting(holder, cfg.gcDepth + 1);
            IsRun(cfg, ops, t) && |t.refs| == cfg.authorities && t.refs[0] == {} && Ref(1, 0) in PlainRun(ops).accepted
  {
    var k := cfg.gcDepth + 1;
    var g := if holder == 0 then 0 else k;
    var c := FirstCommit(holder, k);
    var s := Grow(cfg, holder, g);
    CommitFits(cfg, holder, k, g, s);
    RunStep(cfg, Growing(holder, g), s, AddCommitOp(c));
    var s' := AddCommit(s, c);
    RunStep(cfg, Growing(holder, g) + [AddCommitOp(c)], s', FlushOp);
    FlushForgets(cfg, s');
    t := Flush(cfg, s');
  }

  lemma ForgetVerified(cfg: Config, holder: Author) returns (t: Cache)
    requires ValidConfig(cfg) && HasGenesis(cfg) && holder < cfg.authorities && cfg.cachedRounds == 0
    requires holder == 0 ==> cfg.gcDepth == 0
    ensures var ops := Forgetting(holder, cfg.gcDepth + 1);
            && IsVerifiedRun(Lone(cfg.authorities, holder), cfg, ops, t)
            && |t.refs| == cfg.authorities && t.refs[0] == {} && Ref(1, 0) in PlainRun(ops).accepted
  {
    t := Forget(cfg, holder);
    ForgettingIsVerified(cfg, holder, cfg.gcDepth + 1);
  }

  lemma Unfaithful(cfg: Config, t: Cache, p: Plain)
    requires ValidConfig(cfg) && |t.refs| == cfg.authorities > 0 && t.refs[0] == {} && Ref(1, 0) in p.accepted
    ensures !Faithful(cfg, t, p)
  {
    assert Ref(1, 0) !in cfg.genesis && !Contains(cfg, t, Ref(1, 0));
  }

  /**
   The cache is faithful over every run of verified blocks, in every committee, exactly when eviction leaves the
   last block of every authority: a round is cached, or the only authority leads above the GC round.
   */
  lemma FaithfulIff(cfg: Config)
    requires ValidConfig(cfg) && HasGenesis(cfg)
    ensures (forall c, ops, s | IsVerifiedRun(c, cfg, ops, s) :: Faithful(cfg, s, PlainRun(ops))) <==> KeepsTops(cfg)
  {
    if KeepsTops(cfg) {
      forall c, ops, s | IsVerifiedRun(c, cfg, ops, s) ensures Faithful(cfg, s, PlainRun(ops)) {
        CacheIsFaithful(cfg, ops, s);
      }
    } else {
      var holder := if cfg.authorities == 1 then 0 else 1;
      var ops := Forgetting(holder, cfg.gcDepth + 1);
      var t := ForgetVerified(cfg, holder);
      Unfaithful(cfg, t, PlainRun(ops));
    }
  }
}
