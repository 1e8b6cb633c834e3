/** The operations of DagState, step by step as they are carried out, each computing what `DagCache` defines. */
module DagSteps {
  import opened Types
  import opened CommittedRounds
  import opened DagCache
  import Recovery

  /** The round of the last reference in order. */
  method LastRound(refs: set<BlockRef>) returns (round: Round)
    ensures round == HighestRound(refs)
  {
    if refs == {} {
      HighestRoundIs(refs, GENESIS_ROUND);
      return GENESIS_ROUND;
    }
    ghost var m := LastExists(refs);
    var last :| last in refs && forall x | x in refs :: RefLe(x, last);
    forall x | x in refs ensures x.round <= last.round {
      assert RefLe(x, last);
    }
    HighestRoundIs(refs, last.round);
    return last.round;
  }

  /**
   Existence checks: first the references in memory, then the store for what may have been evicted. A
   reference above the highest one in memory is not looked up on disk.
   */
  method ContainsBlocks(cfg: Config, s: Cache, refs: seq<BlockRef>) returns (exist: seq<bool>)
    requires BlocksKept(cfg, s) && forall r | r in refs :: r.author < cfg.authorities
    ensures |exist| == |refs|
    ensures forall i | 0 <= i < |refs| :: exist[i] <==> refs[i] in cfg.genesis || refs[i] in Accepted(s)
  {
    exist := [];
    var missing: seq<nat> := [];
    for i := 0 to |refs|
      invariant |exist| == i
      invariant forall k | 0 <= k < |missing| :: missing[k] < i
      invariant forall j | 0 <= j < i && j !in missing :: exist[j] <==> Contains(cfg, s, refs[j])
      invariant forall j | 0 <= j < i && j in missing :: Contains(cfg, s, refs[j]) <==> refs[j] in s.store.blocks
    {
      var r := refs[i];
      assert r in refs;
      var highest := LastRound(s.refs[r.author]);
      if r in s.refs[r.author] || r in cfg.genesis {
        exist := exist + [true];
      } else if s.refs[r.author] == {} || highest < r.round {
        exist := exist + [false];
      } else {
        exist := exist + [false];
        missing := missing + [i];
      }
    }
    for k := 0 to |missing|
      invariant |exist| == |refs|
      invariant forall j | 0 <= j < |refs| && j !in missing[k..] :: exist[j] <==> Contains(cfg, s, refs[j])
      invariant forall j | 0 <= j < |refs| && j in missing :: Contains(cfg, s, refs[j]) <==> refs[j] in s.store.blocks
    {
      assert missing[k] in missing;
      assert missing[k..] == [missing[k]] + missing[k + 1..];
      exist := exist[missing[k] := refs[missing[k]] in s.store.blocks];
    }
    forall i | 0 <= i < |refs| ensures exist[i] <==> refs[i] in cfg.genesis || refs[i] in Accepted(s) {
      assert refs[i] in refs;
      AnswersLikeAccepted(cfg, s, refs[i]);
    }
  }

  /** Block lookups: genesis, then memory, then the store. */
  method GetBlocks(cfg: Config, s: Cache, refs: seq<BlockRef>) returns (blocks: seq<Option<Block>>)
    ensures |blocks| == |refs| && forall i | 0 <= i < |refs| :: blocks[i] == Lookup(cfg, s, refs[i])
  {
    blocks := [];
    var missing: seq<nat> := [];
    for i := 0 to |refs|
      invariant |blocks| == i
      invariant forall k | 0 <= k < |missing| :: missing[k] < i
      invariant forall j | 0 <= j < i && j !in missing :: blocks[j] == Lookup(cfg, s, refs[j])
      invariant forall j | 0 <= j < i && j in missing :: refs[j].round != GENESIS_ROUND && refs[j] !in s.recent
    {
      var r := refs[i];
      if r.round == GENESIS_ROUND {
        blocks := blocks + [if r in cfg.genesis then Some(cfg.genesis[r]) else None];
      } else if r in s.recent {
        blocks := blocks + [Some(s.recent[r])];
      } else {
        blocks := blocks + [None];
        missing := missing + [i];
      }
    }
    for k := 0 to |missing|
      invariant |blocks| == |refs|
      invariant forall j | 0 <= j < |refs| && j !in missing[k..] :: blocks[j] == Lookup(cfg, s, refs[j])
      invariant forall j | 0 <= j < |refs| && j in missing :: refs[j].round != GENESIS_ROUND && refs[j] !in s.recent
    {
      var j := missing[k];
      assert j in missing;
      assert missing[k..] == [missing[k]] + missing[k + 1..];
      blocks := blocks[j := if refs[j] in s.store.blocks then Some(s.store.blocks[refs[j]]) else None];
    }
  }

  method AcceptBlock(cfg: Config, s: Cache, b: Block) returns (t: Cache)
    requires BlocksKept(cfg, s) && b.reference.author < cfg.authorities && b.reference.round > GENESIS_ROUND
    ensures t == Accept(cfg, s, b)
  {
    var exist := ContainsBlocks(cfg, s, [b.reference]);
    AnswersLikeAccepted(cfg, s, b.reference);
    assert [b.reference][0] == b.reference;
    if exist[0] {
      return s;
    }
    t := Remember(s, b);
  }

  /** Marks the blocks of a commit, each found in memory and not marked before, and adds the commit. */
  method AddCommit(cfg: Config, s: Cache, c: TrustedCommit) returns (t: Cache)
    requires Inv(cfg, s) && (IsOld(s, c) || IsNextCommit(cfg, s, c))
    ensures t == DagCache.AddCommit(s, c)
  {
    if s.lastCommit.Some? && c.index <= s.lastCommit.value.index {
      return s;
    }
    forall r | r in c.blocks ensures r in s.recent {
      NewBlocks(cfg, s, c, r);
    }
    var committed := Recovery.MarkCommit(c, GcRound(cfg, s), s.committed, s.recent.Keys);
    assert committed == s.committed + Elements(c.blocks);
    var rounds := Recovery.RaiseRounds(s.rounds, c.blocks);
    t := s.(committed := committed, lastCommit := Some(c), rounds := rounds, commitsToWrite := s.commitsToWrite + [c]);
  }

  /** Evicts the references of one authority, lowest first, up to a round. */
  method EvictAuthority(recent: Dag, refs: set<BlockRef>, round: Round) returns (recent': Dag, refs': set<BlockRef>)
    ensures refs' == set r | r in refs && r.round > round
    ensures recent' == map r | r in recent && !(r in refs && r.round <= round) :: recent[r]
  {
    recent', refs' := recent, refs;
    while refs' != {}
      invariant refs' <= refs && forall r | r in refs - refs' :: r.round <= round
      invariant recent' == map r | r in recent && r !in refs - refs' :: recent[r]
      decreases refs'
    {
      ghost var m := FirstExists(refs');
      var first :| first in refs' && forall x | x in refs' :: RefLe(first, x);
      if first.round > round {
        forall x | x in refs' ensures x.round > round {
          assert RefLe(first, x);
        }
        break;
      }
      recent' := recent' - {first};
      refs' := refs' - {first};
    }
  }

  /** The memory after the authorities below `n` have been cleaned up. */
  ghost predicate EvictedUpTo(cfg: Config, s: Cache, n: nat, recent: Dag, refs: seq<set<BlockRef>>, evicted: seq<Round>)
    requires n <= |s.refs| == |s.evicted|
  {
    && recent ==
      (map r | r in s.recent && !(r.author < n && r.round <= AuthorityEvictionRound(cfg, s, r.author)) :: s.recent[r])
    && |refs| == |evicted| == |s.refs|
    && (forall a | 0 <= a < n ::
      refs[a] == (set r | r in s.refs[a] && r.round > AuthorityEvictionRound(cfg, s, a)) && evicted[a] ==
        AuthorityEvictionRound(cfg, s, a))
    && (forall a | n <= a < |refs| :: refs[a] == s.refs[a])
  }

  lemma EvictStep(cfg: Config, s: Cache, a: nat, recent: Dag, refs: seq<set<BlockRef>>, evicted: seq<Round>,
      recent': Dag, refs': set<BlockRef>, round: Round)
    requires a < |s.refs| == |s.evicted| && AuthorityKept(cfg, s, a) && EvictedUpTo(cfg, s, a, recent, refs, evicted)
    requires round == AuthorityEvictionRound(cfg, s, a)
    requires refs' == set r | r in refs[a] && r.round > round
    requires recent' == map r | r in recent && !(r in refs[a] && r.round <= round) :: recent[r]
    ensures EvictedUpTo(cfg, s, a + 1, recent', refs[a := refs'], evicted[a := round])
  {
    RecentStep(cfg, s, a, recent, refs[a], recent', round);
  }

  lemma RecentStep(cfg: Config, s: Cache, a: nat, recent: Dag, refs: set<BlockRef>, recent': Dag, round: Round)
    requires a < |s.refs| && refs == OfAuthor(s.recent, a) && round == AuthorityEvictionRound(cfg, s, a)
    requires recent == map r | r in s.recent && !(r.author < a && r.author < |s.refs| &&
               r.round <= AuthorityEvictionRound(cfg, s, r.author)) :: s.recent[r]
    requires recent' == map r | r in recent && !(r in refs && r.round <= round) :: recent[r]
    ensures recent' == map r | r in s.recent && !(r.author < a + 1 && r.author < |s.refs| &&
              r.round <= AuthorityEvictionRound(cfg, s, r.author)) :: s.recent[r]
  {
    forall r ensures r in recent' <==>
      r in s.recent && !(r.author < a + 1 && r.round <= AuthorityEvictionRound(cfg, s, r.author)) {
      assert r in recent <==> r in s.recent && !(r.author < a && r.round <= AuthorityEvictionRound(cfg, s, r.author));
      assert r.author < a + 1 <==> r.author < a || r.author == a;
    }
    forall r | r in recent' ensures recent'[r] == s.recent[r] {}
  }

  lemma EvictDone(cfg: Config, s: Cache, recent: Dag, refs: seq<set<BlockRef>>, evicted: seq<Round>)
    requires BlocksKept(cfg, s) && s.committed <= s.recent.Keys && EvictedUpTo(cfg, s, |s.refs|, recent, refs, evicted)
    ensures s.(recent := recent, refs := refs, committed := s.committed * recent.Keys, evicted := evicted) ==
            Evict(cfg, s)
  {
    var t := Evict(cfg, s);
    assert recent == t.recent;
    assert s.committed * recent.Keys == t.committed;
    assert refs == t.refs;
    assert evicted == t.evicted;
  }

  /** Cleans up the memory of every authority. */
  method EvictAll(cfg: Config, s: Cache) returns (t: Cache)
    requires BlocksKept(cfg, s) && s.committed <= s.recent.Keys
    ensures t == Evict(cfg, s)
  {
    var recent: Dag, refs: seq<set<BlockRef>>, evicted: seq<Round> := s.recent, s.refs, s.evicted;
    var a := 0;
    while a < cfg.authorities
      invariant 0 <= a <= cfg.authorities && EvictedUpTo(cfg, s, a, recent, refs, evicted)
    {
      assert AuthorityKept(cfg, s, a);
      var last := LastRound(refs[a]);
      var round := EvictionRound(last, GcRound(cfg, s), cfg.cachedRounds);
      var recent', refs' := EvictAuthority(recent, refs[a], round);
      EvictStep(cfg, s, a, recent, refs, evicted, recent', refs', round);
      recent, refs, evicted := recent', refs[a := refs'], evicted[a := round];
      a := a + 1;
    }
    EvictDone(cfg, s, recent, refs, evicted);
    t := s.(recent := recent, refs := refs, committed := s.committed * recent.Keys, evicted := evicted);
  }

  method FlushAll(cfg: Config, s: Cache) returns (t: Cache)
    requires Inv(cfg, s)
    ensures t == Flush(cfg, s)
    ensures if s.blocksToWrite == [] && s.commitsToWrite == [] && s.checkpointsToWrite == [] then t == s
            else LeavesRecent(s.recent, t.recent, GcRound(cfg, s), cfg.cachedRounds)
  {
    if s.blocksToWrite == [] && s.commitsToWrite == [] && s.checkpointsToWrite == [] {
      return s;
    }
    WriteKeepsInv(cfg, s);
    EvictKeeps(cfg, AfterWrite(s));
    t := EvictAll(cfg, AfterWrite(s));
  }

  // ---- Recovery ----

  /** The memory loaded for the authorities below `n`. */
  ghost predicate LoadedUpTo(cfg: Config, store: Store, n: nat, recent: Dag, refs: seq<set<BlockRef>>,
      evicted: seq<Round>)
  {
    && recent ==
      (map r | r in store.blocks && r.author < n && r.round > RecoveryEvictionRound(cfg, store,
        r.author) :: store.blocks[r])
    && |refs| == |evicted| == n
    && forall a | 0 <= a < n ::
         && refs[a] == (set r | r in store.blocks && r.author == a && r.round > RecoveryEvictionRound(cfg, store, a))
         && evicted[a] == RecoveryEvictionRound(cfg, store, a)
  }

  lemma LoadStep(cfg: Config, store: Store, a: nat, recent: Dag, refs: seq<set<BlockRef>>, evicted: seq<Round>,
      loaded: set<BlockRef>, round: Round)
    requires LoadedUpTo(cfg, store, a, recent, refs, evicted) && round == RecoveryEvictionRound(cfg, store, a)
    requires loaded == set r | r in store.blocks && r.author == a && r.round > round
    ensures LoadedUpTo(cfg, store, a + 1, recent + map r | r in loaded :: store.blocks[r], refs + [loaded],
            evicted + [round])
  {
    var recent' := recent + map r | r in loaded :: store.blocks[r];
    forall r ensures r in recent' <==>
      r in store.blocks && r.author < a + 1 && r.round > RecoveryEvictionRound(cfg, store, r.author) {
      assert r in recent <==>
        r in store.blocks && r.author < a && r.round > RecoveryEvictionRound(cfg, store, r.author);
    }
  }

  lemma LoadDone(cfg: Config, store: Store, recent: Dag, refs: seq<set<BlockRef>>, evicted: seq<Round>)
    requires LoadedUpTo(cfg, store, cfg.authorities, recent, refs, evicted)
    ensures var t := Restart(cfg, store);
            Cache(recent, refs, t.committed, evicted, [], [], [], LastOf(store.commits), t.rounds, store) == t
  {
    var t := Restart(cfg, store);
    assert recent == t.recent;
    assert refs == t.refs;
    assert evicted == t.evicted;
  }

  /** Loads the stored blocks of one authority above its eviction round. */
  method LoadAuthority(store: Store, a: Author, round: Round, recent: Dag) returns (recent': Dag, refs: set<BlockRef>)
    requires forall r | r in recent :: r.author != a
    ensures refs == set r | r in store.blocks && r.author == a && r.round > round
    ensures recent' == recent + map r | r in refs :: store.blocks[r]
  {
    var blocks := set r | r in store.blocks && r.author == a && r.round > round;
    recent', refs := recent, {};
    ghost var all := blocks;
    while blocks != {}
      invariant blocks <= all && refs == all - blocks
      invariant recent' == recent + map r | r in refs :: store.blocks[r]
      decreases blocks
    {
      var r :| r in blocks;
      blocks := blocks - {r};
      refs := refs + {r};
      recent' := recent'[r := store.blocks[r]];
    }
  }

  /** Loads the recent blocks of every authority, then marks the committed ones by the scan over the commits. */
  method Recover(cfg: Config, store: Store) returns (t: Cache)
    requires WellKeyed(cfg, store.blocks) && StoreProper(store) && CheckpointKept(cfg, store)
    ensures t == Restart(cfg, store)
    ensures LeavesRecent(store.blocks, t.recent, StoredGcRound(cfg, store), cfg.cachedRounds)
  {
    var recent: Dag, refs: seq<set<BlockRef>>, evicted: seq<Round> := map[], [], [];
    var last := LastOf(store.commits);
    var rounds := Recovery.RecoverRounds(cfg, store);
    var gc := StoredGcRound(cfg, store);
    var a := 0;
    while a < cfg.authorities
      invariant 0 <= a <= cfg.authorities && LoadedUpTo(cfg, store, a, recent, refs, evicted)
    {
      var lastRound := LastRound(OfAuthor(store.blocks, a));
      var round := EvictionRound(lastRound, gc, cfg.cachedRounds);
      assert round == RecoveryEvictionRound(cfg, store, a);
      var recent', loaded := LoadAuthority(store, a, round, recent);
      LoadStep(cfg, store, a, recent, refs, evicted, loaded, round);
      recent, refs, evicted := recent', refs + [loaded], evicted + [round];
      a := a + 1;
    }
    LoadDone(cfg, store, recent, refs, evicted);
    var committed := Recovery.RecoverCommitted(cfg, store, recent);
    t := Cache(recent, refs, committed, evicted, [], [], [], last, rounds, store);
    RestartKeeps(cfg, store);
  }
}
