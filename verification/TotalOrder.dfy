/** Agreement on the output of consensus: the sequence of committed sub-DAGs, block by block. */
module TotalOrder {
  import opened Types
  import opened Views
  import opened CausalHistory
  import opened UniversalCommitter
  import opened BlockIndex
  import opened Linearizer

  /** The leaders a decision log commits. */
  function CommittedLeaders(log: seq<LeaderStatus>): seq<BlockRef> {
    if log == [] then []
    else CommittedLeaders(log[..|log| - 1]) + match log[|log| - 1] case Commit(b) => [b] case _ => []
  }

  ghost predicate Rises(leaders: seq<BlockRef>) {
    forall i, j | 0 <= i < j < |leaders| :: leaders[i].round < leaders[j].round
  }

  lemma {:induction false} LeadersRise(log: seq<LeaderStatus>)
    requires forall i, j | 0 <= i < j < |log| :: log[i].Round() < log[j].Round()
    ensures Rises(CommittedLeaders(log))
    ensures forall b | b in CommittedLeaders(log) :: log != [] && b.round <= log[|log| - 1].Round()
    decreases |log|
  {
    if log != [] {
      LeadersRise(log[..|log| - 1]);
    }
  }

  /** Committed leaders come in strictly rising order of round. */
  lemma LogLeadersRise(w: World, s: Setup, runs: seq<View>, log: seq<LeaderStatus>)
    requires s.Valid() && IsLog(w, s, runs, log)
    ensures Rises(CommittedLeaders(log))
  {
    LogRises(w, s, runs, log);
    LeadersRise(log);
  }

  /** The GC round in force when a commit is made: it follows the previous commit. */
  function GcBefore(leaders: seq<BlockRef>, i: nat, gcDepth: nat): Round
    requires i <= |leaders|
  {
    if i == 0 then 0 else Monus(leaders[i - 1].round, gcDepth)
  }

  /** Everything in the sub-DAGs. */
  function Committed(subDags: seq<seq<Block>>): set<BlockRef> {
    if subDags == [] then {} else Committed(subDags[..|subDags| - 1]) + References(subDags[|subDags| - 1])
  }

  lemma {:induction false} InCommitted(subDags: seq<seq<Block>>, i: nat, r: BlockRef)
    requires i < |subDags| && r in References(subDags[i])
    ensures r in Committed(subDags)
    decreases |subDags|
  {
    if i < |subDags| - 1 {
      InCommitted(subDags[..|subDags| - 1], i, r);
    }
  }

  lemma {:induction false} OneOfCommitted(subDags: seq<seq<Block>>, r: BlockRef) returns (k: nat)
    requires r in Committed(subDags)
    ensures k < |subDags| && r in References(subDags[k])
    decreases |subDags|
  {
    k := |subDags| - 1;
    if r !in References(subDags[k]) {
      k := OneOfCommitted(subDags[..|subDags| - 1], r);
    }
  }

  /** A validator's commits: `subDags[i]` is linearized for `leaders[i]` from the blocks held at that time. */
  ghost predicate IsCommitHistory(w: World, gcDepth: nat, leaders: seq<BlockRef>, views: seq<View>,
      subDags: seq<seq<Block>>)
  {
    && |leaders| == |views| == |subDags|
    && forall i {:trigger IsCommitAt(w, gcDepth, leaders, views, subDags, i)} | 0 <= i < |leaders| ::
         IsCommitAt(w, gcDepth, leaders, views, subDags, i)
  }

  ghost predicate IsCommitAt(w: World, gcDepth: nat, leaders: seq<BlockRef>, views: seq<View>,
      subDags: seq<seq<Block>>, i: nat)
    requires |leaders| == |views| == |subDags| && i < |leaders|
  {
    && w.Holds(views[i]) && views[i].gcRound == GcBefore(leaders, i, gcDepth)
    && leaders[i] in views[i].blocks && leaders[i].round > views[i].gcRound
    && subDags[i] == Linearized(views[i].blocks, views[i].gcRound, Committed(subDags[..i]), leaders[i])
  }

  // ---- What the sub-DAGs are ----

  /** The sub-DAGs of all commits before `n` are what the linearizer promises. */
  ghost predicate AreSubDags(leaders: seq<BlockRef>, views: seq<View>, subDags: seq<seq<Block>>, n: nat)
    requires |leaders| == |views| == |subDags| && n <= |leaders|
  {
    forall i {:trigger SubDagAt(leaders, views, subDags, i)} | 0 <= i < n :: SubDagAt(leaders, views, subDags, i)
  }

  ghost predicate SubDagAt(leaders: seq<BlockRef>, views: seq<View>, subDags: seq<seq<Block>>, i: nat)
    requires |leaders| == |views| == |subDags| && i < |leaders|
  {
    IsSubDag(views[i], Committed(subDags[..i]), leaders[i], subDags[i])
  }

  lemma VerifiedDistinct(w: World, v: View)
    requires w.Sound() && w.Holds(v)
    ensures AncestorsDistinct(v)
  {
    forall r | r in v.blocks ensures Distinct(v.blocks[r].ancestors) {
      assert w.Verified(r);
    }
  }

  lemma GcRises(leaders: seq<BlockRef>, k: nat, i: nat, gcDepth: nat)
    requires Rises(leaders) && k <= i <= |leaders|
    ensures GcBefore(leaders, k, gcDepth) <= GcBefore(leaders, i, gcDepth)
  {
    if 0 < k < i {
      assert leaders[k - 1].round < leaders[i - 1].round;
    }
  }

  /** Whatever is committed lies at or below the leader of its commit, with its ancestors above that GC round. */
  lemma CommittedAt(w: World, gcDepth: nat, leaders: seq<BlockRef>, views: seq<View>, subDags: seq<seq<Block>>, k: nat,
      r: BlockRef)
    requires IsCommitHistory(w, gcDepth, leaders, views, subDags) && k < |leaders|
    requires SubDagAt(leaders, views, subDags, k) && r in References(subDags[k])
    ensures r in views[k].blocks && GcBefore(leaders, k, gcDepth) < r.round <= leaders[k].round
    ensures forall a | a in views[k].blocks[r].ancestors && a.round > views[k].gcRound ::
            a in Committed(subDags[..k + 1])
  {
    assert IsCommitAt(w, gcDepth, leaders, views, subDags, k);
    assert r in HistoryAbove(views[k], leaders[k]);
    ReachesAboveDescends(views[k].blocks, views[k].gcRound, leaders[k], r);
    forall a | a in views[k].blocks[r].ancestors && a.round > views[k].gcRound
      ensures a in Committed(subDags[..k + 1])
    {
      assert views[k].EntryClosed(r);
      ReachesAncestor(views[k], leaders[k], r, a);
      assert subDags[..k + 1][..k] == subDags[..k] && subDags[..k + 1][k] == subDags[k];
    }
  }

  lemma {:induction false} CommittedGrows(subDags: seq<seq<Block>>, k: nat, n: nat)
    requires k <= n <= |subDags|
    ensures Committed(subDags[..k]) <= Committed(subDags[..n])
    decreases n
  {
    if k < n {
      CommittedGrows(subDags, k, n - 1);
      assert subDags[..n][..n - 1] == subDags[..n - 1];
    }
  }

  lemma RisesBefore(leaders: seq<BlockRef>, n: nat, leader: BlockRef, k: nat, gcDepth: nat)
    requires k < n <= |leaders| && Rises(leaders[..n] + [leader])
    ensures leaders[k].round < leader.round && GcBefore(leaders, k, gcDepth) <= GcBefore(leaders, n, gcDepth)
  {
    var rising := leaders[..n] + [leader];
    assert rising[k] == leaders[k] && rising[n - 1] == leaders[n - 1] && rising[n] == leader;
    assert k > 0 ==> rising[k - 1] == leaders[k - 1];
  }

  /** The ancestors above `gc` are committed by then. */
  ghost predicate HasCommitted(w: World, committed: set<BlockRef>, gc: Round, r: BlockRef) {
    r in w.blocks && forall a | a in w.blocks[r].ancestors && a.round > gc :: a in committed
  }

  lemma CommittedInWorld(w: World, gcDepth: nat, leaders: seq<BlockRef>, views: seq<View>, subDags: seq<seq<Block>>,
      k: nat, n: nat, r: BlockRef)
    requires IsCommitHistory(w, gcDepth, leaders, views, subDags) && k < n <= |leaders|
    requires SubDagAt(leaders, views, subDags, k) && r in References(subDags[k])
    ensures r.round <= leaders[k].round && w.Holds(views[k]) && r in views[k].blocks
    ensures HasCommitted(w, Committed(subDags[..n]), GcBefore(leaders, k, gcDepth), r)
  {
    CommittedAt(w, gcDepth, leaders, views, subDags, k, r);
    CommittedGrows(subDags, k + 1, n);
    assert IsCommitAt(w, gcDepth, leaders, views, subDags, k);
  }

  lemma CommittedReadyAt(w: World, gcDepth: nat, leaders: seq<BlockRef>, views: seq<View>, subDags: seq<seq<Block>>,
      n: nat, leader: BlockRef, r: BlockRef)
    requires IsCommitHistory(w, gcDepth, leaders, views, subDags) && n <= |leaders|
    requires AreSubDags(leaders, views, subDags, n)
    requires Rises(leaders[..n] + [leader]) && r in Committed(subDags[..n])
    ensures r.round < leader.round
    ensures HasCommitted(w, Committed(subDags[..n]), GcBefore(leaders, n, gcDepth), r)
  {
    var k := OneOfCommitted(subDags[..n], r);
    assert SubDagAt(leaders, views, subDags, k);
    CommittedInWorld(w, gcDepth, leaders, views, subDags, k, n, r);
    RisesBefore(leaders, n, leader, k, gcDepth);
  }

  /** Before each commit, what is committed is closed above the GC round and lies below the leader. */
  lemma CommittedReady(w: World, gcDepth: nat, leaders: seq<BlockRef>, views: seq<View>, subDags: seq<seq<Block>>,
      n: nat, v: View, leader: BlockRef)
    requires IsCommitHistory(w, gcDepth, leaders, views, subDags) && n <= |leaders|
    requires AreSubDags(leaders, views, subDags, n)
    requires Rises(leaders[..n] + [leader]) && w.Holds(v) && v.gcRound == GcBefore(leaders, n, gcDepth)
    ensures MarkedClosed(v.blocks, v.gcRound, Committed(subDags[..n]))
    ensures AllBelow(Committed(subDags[..n]), leader.round)
  {
    forall r | r in Committed(subDags[..n])
      ensures r.round < leader.round
      ensures r in v.blocks && r.round > v.gcRound ==> EntryMarked(v.blocks, v.gcRound, Committed(subDags[..n]), r)
    {
      CommittedReadyAt(w, gcDepth, leaders, views, subDags, n, leader, r);
    }
  }

  lemma NextSubDag(w: World, gcDepth: nat, leaders: seq<BlockRef>, views: seq<View>, subDags: seq<seq<Block>>, i: nat)
    requires w.Sound() && IsCommitHistory(w, gcDepth, leaders, views, subDags) && Rises(leaders) && i < |leaders|
    requires AreSubDags(leaders, views, subDags, i)
    ensures SubDagAt(leaders, views, subDags, i) && leaders[i] !in Committed(subDags[..i])
  {
    assert IsCommitAt(w, gcDepth, leaders, views, subDags, i);
    assert leaders[..i] + [leaders[i]] == leaders[..i + 1];
    CommittedReady(w, gcDepth, leaders, views, subDags, i, views[i], leaders[i]);
    VerifiedDistinct(w, views[i]);
    LinearizedContents(views[i], Committed(subDags[..i]), leaders[i]);
  }

  /** Every sub-DAG is the new history of its leader; no leader was committed before. */
  lemma {:induction false} SubDagsAre(w: World, gcDepth: nat, leaders: seq<BlockRef>, views: seq<View>,
      subDags: seq<seq<Block>>, n: nat)
    requires w.Sound() && IsCommitHistory(w, gcDepth, leaders, views, subDags) && Rises(leaders) && n <= |leaders|
    ensures AreSubDags(leaders, views, subDags, n)
    ensures forall i | 0 <= i < n :: leaders[i] !in Committed(subDags[..i])
    decreases n
  {
    if n > 0 {
      SubDagsAre(w, gcDepth, leaders, views, subDags, n - 1);
      NextSubDag(w, gcDepth, leaders, views, subDags, n - 1);
    }
  }

  /** What a validator outputs: the sub-DAGs of the leaders its log commits. */
  ghost predicate IsOutput(w: World, s: Setup, gcDepth: nat, runs: seq<View>, log: seq<LeaderStatus>, views: seq<View>,
      subDags: seq<seq<Block>>)
    requires s.Valid()
  {
    IsLog(w, s, runs, log) && IsCommitHistory(w, gcDepth, CommittedLeaders(log), views, subDags)
  }

  lemma OutputSubDags(w: World, s: Setup, gcDepth: nat, runs: seq<View>, log: seq<LeaderStatus>, views: seq<View>,
      subDags: seq<seq<Block>>)
    requires w.Sound() && s.Valid() && IsOutput(w, s, gcDepth, runs, log, views, subDags)
    ensures Rises(CommittedLeaders(log)) && AreSubDags(CommittedLeaders(log), views, subDags, |subDags|)
  {
    LogLeadersRise(w, s, runs, log);
    SubDagsAre(w, gcDepth, CommittedLeaders(log), views, subDags, |subDags|);
  }

  // ---- Agreement ----

  lemma SamePrefix<T>(a: seq<T>, b: seq<T>, i: nat)
    requires i < |a| && i < |b| && a[..i] == b[..i] && a[i] == b[i]
    ensures a[..i + 1] == b[..i + 1]
  {
    assert a[..i + 1] == a[..i] + [a[i]] && b[..i + 1] == b[..i] + [b[i]];
  }

  lemma CommitSame(w: World, gcDepth: nat, leaders1: seq<BlockRef>, views1: seq<View>, subDags1: seq<seq<Block>>,
      leaders2: seq<BlockRef>, views2: seq<View>, subDags2: seq<seq<Block>>, i: nat)
    requires |leaders1| == |views1| == |subDags1| && |leaders2| == |views2| == |subDags2| && i < |leaders1|
    requires leaders1 <= leaders2 && subDags1[..i] == subDags2[..i]
    requires IsCommitAt(w, gcDepth, leaders1, views1, subDags1, i)
    requires IsCommitAt(w, gcDepth, leaders2, views2, subDags2, i)
    ensures subDags1[i] == subDags2[i]
  {
    LinearizedSame(w, views1[i], views2[i], Committed(subDags1[..i]), leaders1[i]);
  }

  /** Validators that commit the same leaders commit the same blocks with each of them, in the same order. */
  lemma {:induction false} SubDagsAgree(w: World, gcDepth: nat, leaders1: seq<BlockRef>, views1: seq<View>,
      subDags1: seq<seq<Block>>, leaders2: seq<BlockRef>, views2: seq<View>, subDags2: seq<seq<Block>>, n: nat)
    requires IsCommitHistory(w, gcDepth, leaders1, views1, subDags1)
    requires IsCommitHistory(w, gcDepth, leaders2, views2, subDags2)
    requires leaders1 <= leaders2 && n <= |leaders1|
    ensures subDags1[..n] == subDags2[..n]
    decreases n
  {
    if n > 0 {
      var i := n - 1;
      SubDagsAgree(w, gcDepth, leaders1, views1, subDags1, leaders2, views2, subDags2, i);
      assert IsCommitAt(w, gcDepth, leaders1, views1, subDags1, i) &&
        IsCommitAt(w, gcDepth, leaders2, views2, subDags2, i);
      CommitSame(w, gcDepth, leaders1, views1, subDags1, leaders2, views2, subDags2, i);
      SamePrefix(subDags1, subDags2, i);
    }
  }

  lemma {:induction false} LeadersOfPrefix(log1: seq<LeaderStatus>, log2: seq<LeaderStatus>)
    requires log1 <= log2
    ensures CommittedLeaders(log1) <= CommittedLeaders(log2)
    decreases |log2|
  {
    if |log1| < |log2| {
      LeadersOfPrefix(log1, log2[..|log2| - 1]);
    } else {
      assert log1 == log2;
    }
  }

  /**
   Total order: the outputs of any two validators extend one another, block by block, equivocating blocks included.
   Validators may have decided at different times, from different views, directly or indirectly.
   */
  lemma CommittedSubDagsAgree(w: World, s: Setup, gcDepth: nat,
      runs1: seq<View>, log1: seq<LeaderStatus>, views1: seq<View>, subDags1: seq<seq<Block>>,
      runs2: seq<View>, log2: seq<LeaderStatus>, views2: seq<View>, subDags2: seq<seq<Block>>)
    requires w.Sound() && w.HonestChains() && s.Valid() && s.waveLength == 3 && |log1| <= |log2|
    requires IsOutput(w, s, gcDepth, runs1, log1, views1, subDags1)
    requires IsOutput(w, s, gcDepth, runs2, log2, views2, subDags2)
    ensures CommittedLeaders(log1) <= CommittedLeaders(log2) && subDags1 <= subDags2
  {
    LogsAgree(w, s, runs1, log1, runs2, log2);
    LeadersOfPrefix(log1, log2);
    SubDagsAgree(w, gcDepth, CommittedLeaders(log1), views1, subDags1, CommittedLeaders(log2), views2, subDags2,
      |subDags1|);
    assert subDags1[..|subDags1|] == subDags1;
  }

  /** No block is committed twice, and every committed block lies between the GC round and its leader's round. */
  lemma CommittedOnce(w: World, s: Setup, gcDepth: nat, runs: seq<View>, log: seq<LeaderStatus>, views: seq<View>,
      subDags: seq<seq<Block>>, i: nat, j: nat, r: BlockRef)
    requires w.Sound() && s.Valid() && IsOutput(w, s, gcDepth, runs, log, views, subDags)
    requires i < |subDags| && j < |subDags| && r in References(subDags[i])
    ensures r in References(subDags[j]) ==> i == j
    ensures GcBefore(CommittedLeaders(log), i, gcDepth) < r.round <= CommittedLeaders(log)[i].round
  {
    var leaders := CommittedLeaders(log);
    OutputSubDags(w, s, gcDepth, runs, log, views, subDags);
    assert SubDagAt(leaders, views, subDags, i) && SubDagAt(leaders, views, subDags, j);
    CommittedAt(w, gcDepth, leaders, views, subDags, i, r);
    if r in References(subDags[j]) && i < j {
      InCommitted(subDags[..j], i, r);
    } else if r in References(subDags[j]) && j < i {
      InCommitted(subDags[..i], j, r);
    }
  }

  /** A block is never committed after one that refers to it. */
  lemma AncestorsComeFirst(w: World, s: Setup, gcDepth: nat, runs: seq<View>, log: seq<LeaderStatus>, views: seq<View>,
      subDags: seq<seq<Block>>, i: nat, j: nat, a: BlockRef, x: BlockRef)
    requires w.Sound() && s.Valid() && IsOutput(w, s, gcDepth, runs, log, views, subDags)
    requires i < j < |subDags| && a in References(subDags[i]) && x in References(subDags[j])
    ensures a in w.blocks && x !in w.blocks[a].ancestors
  {
    var leaders := CommittedLeaders(log);
    OutputSubDags(w, s, gcDepth, runs, log, views, subDags);
    assert SubDagAt(leaders, views, subDags, i) && IsCommitAt(w, gcDepth, leaders, views, subDags, i);
    CommittedAt(w, gcDepth, leaders, views, subDags, i, a);
    CommittedOnce(w, s, gcDepth, runs, log, views, subDags, j, i, x);
    GcRises(leaders, i, j, gcDepth);
    if x in w.blocks[a].ancestors {
      var k := OneOfCommitted(subDags[..i + 1], x);
      CommittedOnce(w, s, gcDepth, runs, log, views, subDags, j, k, x);
    }
  }

  // ---- Expanding committed leaders ----

  lemma HoldsAbove(w: World, d: Dag, low: Round, high: Round)
    requires w.Holds(View(d, low)) && low <= high
    ensures w.Holds(View(d, high))
  {
    forall r | r in d ensures View(d, high).EntryClosed(r) {
      assert View(d, low).EntryClosed(r);
    }
  }

  /** One more commit. */
  lemma HistoryExtends(w: World, gcDepth: nat, leaders: seq<BlockRef>, views: seq<View>, subDags: seq<seq<Block>>,
      leader: BlockRef, v: View, subDag: seq<Block>)
    requires IsCommitHistory(w, gcDepth, leaders, views, subDags) && w.Holds(v)
    requires v.gcRound == GcBefore(leaders, |leaders|, gcDepth) && leader in v.blocks && leader.round > v.gcRound
    requires subDag == Linearized(v.blocks, v.gcRound, Committed(subDags), leader)
    ensures IsCommitHistory(w, gcDepth, leaders + [leader], views + [v], subDags + [subDag])
    ensures Committed(subDags + [subDag]) == Committed(subDags) + References(subDag)
  {
    var ls, vs, ss, n := leaders + [leader], views + [v], subDags + [subDag], |leaders|;
    assert ss[..n] == subDags;
    forall i | 0 <= i < |ls| ensures IsCommitAt(w, gcDepth, ls, vs, ss, i) {
      if i < n {
        assert IsCommitAt(w, gcDepth, leaders, views, subDags, i);
        assert ss[..i] == subDags[..i];
      }
    }
  }

  ghost predicate InWorld(w: World, d: Dag) {
    forall r | r in d :: r in w.blocks && d[r] == w.blocks[r]
  }

  ghost predicate Expanded(w: World, d: Dag, gcDepth: nat, leaders: seq<BlockRef>, views: seq<View>,
      subDags: seq<seq<Block>>, lastRound: Round, committed: set<BlockRef>)
  {
    && IsCommitHistory(w, gcDepth, leaders, views, subDags) && committed == Committed(subDags)
    && lastRound == (if leaders == [] then 0 else leaders[|leaders| - 1].round) && InWorld(w, d)
  }

  /** Every leader has its history above the GC round that the leader before it leads to. */
  ghost predicate AllHeld(d: Dag, gcDepth: nat, before: seq<BlockRef>, leaders: seq<BlockRef>) {
    forall i {:trigger HeldAt(d, gcDepth, before, leaders, i)} | 0 <= i < |leaders| ::
      HeldAt(d, gcDepth, before, leaders, i)
  }

  ghost predicate HeldAt(d: Dag, gcDepth: nat, before: seq<BlockRef>, leaders: seq<BlockRef>, i: nat)
    requires i < |leaders|
  {
    HistoryHeld(View(d, GcBefore(before + leaders, |before| + i, gcDepth)), leaders[i])
  }

  /** A DAG that is closed above the last GC round will do. */
  lemma CaughtUpHolds(w: World, d: Dag, gcDepth: nat, before: seq<BlockRef>, leaders: seq<BlockRef>)
    requires w.Holds(View(d, GcBefore(before, |before|, gcDepth))) && Rises(before + leaders)
    requires forall l | l in leaders :: l in d
    ensures InWorld(w, d) && AllHeld(d, gcDepth, before, leaders)
  {
    forall i | 0 <= i < |leaders| ensures HeldAt(d, gcDepth, before, leaders, i) {
      var all, n := before + leaders, |before|;
      GcRises(all, n, n + i, gcDepth);
      assert n > 0 ==> all[n - 1] == before[n - 1];
      HoldsAbove(w, d, GcBefore(before, n, gcDepth), GcBefore(all, n + i, gcDepth));
      ClosedHolds(View(d, GcBefore(all, n + i, gcDepth)), leaders[i]);
    }
  }

  lemma HistoryInWorld(w: World, v: View, leader: BlockRef)
    requires InWorld(w, v.blocks) && HistoryHeld(v, leader)
    ensures w.Holds(HistoryOf(v, leader))
  {
    HistoryIsClosed(v, leader);
  }

  /** The next leader finds what the linearizer asks for. */
  lemma ExpandReady(w: World, v: View, gcDepth: nat, leaders: seq<BlockRef>, views: seq<View>,
      subDags: seq<seq<Block>>, lastRound: Round, leader: BlockRef)
    requires w.Sound() && Rises(leaders + [leader]) && leader.round > GENESIS_ROUND && w.Holds(v)
    requires IsCommitHistory(w, gcDepth, leaders, views, subDags) && v.gcRound == Monus(lastRound, gcDepth)
    requires lastRound == (if leaders == [] then 0 else leaders[|leaders| - 1].round)
    ensures AncestorsDistinct(v) && MarkedClosed(v.blocks, v.gcRound, Committed(subDags)) && leader.round > v.gcRound
    ensures AllBelow(Committed(subDags), leader.round)
  {
    var n := |leaders|;
    var rising := leaders + [leader];
    assert Rises(leaders) by {
      assert forall i | 0 <= i < n :: leaders[i] == rising[i];
    }
    assert n > 0 ==> rising[n - 1] == leaders[n - 1] && rising[n] == leader;
    assert leaders[..n] == leaders && subDags[..n] == subDags;
    SubDagsAre(w, gcDepth, leaders, views, subDags, n);
    CommittedReady(w, gcDepth, leaders, views, subDags, n, v, leader);
    VerifiedDistinct(w, v);
  }

  lemma ExpandNext(w: World, d: Dag, gcDepth: nat, leaders: seq<BlockRef>, views: seq<View>, subDags: seq<seq<Block>>,
      lastRound: Round, committed: set<BlockRef>, leader: BlockRef, v: View, subDag: seq<Block>)
    requires Expanded(w, d, gcDepth, leaders, views, subDags, lastRound, committed) && w.Holds(v)
    requires v.gcRound == Monus(lastRound, gcDepth) < leader.round && leader in v.blocks
    requires subDag == Linearized(v.blocks, v.gcRound, committed, leader)
    ensures Expanded(w, d, gcDepth, leaders + [leader], views + [v], subDags + [subDag], leader.round,
            committed + References(subDag))
  {
    HistoryExtends(w, gcDepth, leaders, views, subDags, leader, v, subDag);
  }

  method HandleLeader(ghost w: World, d: Dag, gcDepth: nat, lastRound: Round, leader: BlockRef,
      committed: set<BlockRef>, ghost leaders: seq<BlockRef>, ghost views: seq<View>, ghost subDags: seq<seq<Block>>)
    returns (subDag: seq<Block>, committed': set<BlockRef>)
    requires w.Sound() && Rises(leaders + [leader]) && leader.round > GENESIS_ROUND
    requires Expanded(w, d, gcDepth, leaders, views, subDags, lastRound, committed)
    requires HistoryHeld(View(d, Monus(lastRound, gcDepth)), leader)
    ensures Expanded(w, d, gcDepth, leaders + [leader],
            views + [HistoryOf(View(d, Monus(lastRound, gcDepth)), leader)], subDags + [subDag], leader.round,
              committed')
  {
    var v := View(d, Monus(lastRound, gcDepth));
    ghost var part := HistoryOf(v, leader);
    HistoryInWorld(w, v, leader);
    ExpandReady(w, part, gcDepth, leaders, views, subDags, lastRound, leader);
    HistoryIsSame(v, leader);
    subDag, committed' := LinearizeSubDag(v, committed, leader);
    ExpandNext(w, d, gcDepth, leaders, views, subDags, lastRound, committed, leader, part, subDag);
    assert committed' == committed + References(subDag);
  }

  /**
   Expands newly committed leaders, the GC round following each commit. Given leaders in rising order no assertion
   fails, and the commits extend the validator's history. Of the DAG it is asked only that it holds the history of
   each leader, so that it may have the blocks of later commits without all their ancestors.
   */
  method HandleCommit(ghost w: World, d: Dag, gcDepth: nat, lastRound: Round, leaders: seq<BlockRef>,
      committed: set<BlockRef>, ghost before: seq<BlockRef>, ghost views: seq<View>, ghost subDags: seq<seq<Block>>)
    returns (more: seq<seq<Block>>, committed': set<BlockRef>, ghost views': seq<View>)
    requires w.Sound() && Expanded(w, d, gcDepth, before, views, subDags, lastRound, committed)
    requires Rises(before + leaders) && (forall l | l in leaders :: l.round > GENESIS_ROUND)
    requires AllHeld(d, gcDepth, before, leaders)
    ensures IsCommitHistory(w, gcDepth, before + leaders, views', subDags + more)
    ensures committed' == Committed(subDags + more)
  {
    more, committed', views' := [], committed, views;
    var last := lastRound;
    assert before + leaders[..0] == before && subDags + [] == subDags;
    for i := 0 to |leaders|
      invariant Expanded(w, d, gcDepth, before + leaders[..i], views', subDags + more, last, committed')
    {
      RisesThrough(before, leaders, i);
      HeldNext(d, gcDepth, before, leaders, i, last);
      var subDag;
      subDag, committed' := HandleLeader(w, d, gcDepth, last, leaders[i], committed', before + leaders[..i], views',
        subDags + more);
      assert subDags + more + [subDag] == subDags + (more + [subDag]);
      views' := views' + [HistoryOf(View(d, Monus(last, gcDepth)), leaders[i])];
      more, last := more + [subDag], leaders[i].round;
    }
    assert leaders[..|leaders|] == leaders;
  }

  lemma HeldNext(d: Dag, gcDepth: nat, before: seq<BlockRef>, leaders: seq<BlockRef>, i: nat, last: Round)
    requires AllHeld(d, gcDepth, before, leaders) && i < |leaders|
    requires var done := before + leaders[..i]; last == if done == [] then 0 else done[|done| - 1].round
    ensures HistoryHeld(View(d, Monus(last, gcDepth)), leaders[i])
  {
    var all, done := before + leaders, before + leaders[..i];
    assert HeldAt(d, gcDepth, before, leaders, i);
    assert |done| == |before| + i && forall k | 0 <= k < |done| :: done[k] == all[k];
  }

  lemma RisesThrough(before: seq<BlockRef>, leaders: seq<BlockRef>, i: nat)
    requires Rises(before + leaders) && i < |leaders|
    ensures Rises(before + leaders[..i] + [leaders[i]])
    ensures before + leaders[..i] + [leaders[i]] == before + leaders[..i + 1]
  {
    var all, some := before + leaders, before + leaders[..i] + [leaders[i]];
    assert forall k | 0 <= k < |some| :: some[k] == all[k];
  }
}
