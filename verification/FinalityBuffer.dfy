/** What every call keeps of the finalizer's buffer: order, conservation, bounds and exact links. */
module FinalityBuffer {
  import opened Types
  import opened Committee
  import opened BlockIndex
  import opened VoteLinks
  import opened Finality

  function CommitsOf(pending: seq<CommitState>): (r: seq<SubDag>)
    ensures |r| == |pending|
  {
    seq(|pending|, i requires 0 <= i < |pending| => pending[i].commit)
  }

  function AllBlocks(commits: seq<SubDag>): seq<Block> {
    if commits == [] then [] else commits[0].blocks + AllBlocks(commits[1..])
  }

  /** Commits in the order of the linearizer: no block twice, none with an ancestor in a later commit. */
  ghost predicate Ordered(commits: seq<SubDag>) {
    && (forall j | 0 <= j < |commits| :: Follows([], commits[j].blocks))
    && (forall i, j | 0 <= i < j < |commits| :: Follows(commits[i].blocks, commits[j].blocks))
  }

  ghost predicate Rising(commits: seq<SubDag>) {
    forall i, j | 0 <= i < j < |commits| :: commits[i].leader.round < commits[j].leader.round
  }

  lemma {:induction false} InAllBlocks(commits: seq<SubDag>, b: Block)
    ensures b in AllBlocks(commits) <==> exists i | 0 <= i < |commits| :: b in commits[i].blocks
    decreases |commits|
  {
    if commits != [] {
      InAllBlocks(commits[1..], b);
      if i :| 0 <= i < |commits| && b in commits[i].blocks {
        assert i == 0 || commits[1..][i - 1] == commits[i];
      }
      if b in AllBlocks(commits[1..]) {
        var i :| 0 <= i < |commits[1..]| && b in commits[1..][i].blocks;
        assert commits[i + 1] == commits[1..][i];
      }
    }
  }

  lemma {:induction false} AllBlocksConcat(a: seq<SubDag>, b: seq<SubDag>)
    ensures AllBlocks(a + b) == AllBlocks(a) + AllBlocks(b)
    decreases |a|
  {
    if a == [] {
      assert a + b == b;
    } else {
      assert (a + b)[1..] == a[1..] + b;
      AllBlocksConcat(a[1..], b);
    }
  }

  lemma OneCommit(commit: SubDag)
    ensures AllBlocks([commit]) == commit.blocks
  {
    assert [commit][1..] == [];
  }

  /** A commit follows everything before it. */
  lemma FollowsAll(commits: seq<SubDag>, j: nat)
    requires Ordered(commits) && j < |commits|
    ensures Follows(AllBlocks(commits[..j]), commits[j].blocks)
  {
    forall a | a in AllBlocks(commits[..j]) ensures exists i | 0 <= i < j :: a in commits[i].blocks {
      InAllBlocks(commits[..j], a);
    }
    forall r | r in References(AllBlocks(commits[..j])) ensures r !in References(commits[j].blocks) {
      var a :| a in AllBlocks(commits[..j]) && a.reference == r;
      var i :| 0 <= i < j && a in commits[i].blocks;
      assert Follows(commits[i].blocks, commits[j].blocks);
    }
    assert Follows([], commits[j].blocks);
  }

  // ---- Transactions of one commit ----

  /** Before direct finalization nothing is recorded; afterwards only transactions of the commit's blocks. */
  ghost predicate Sound(s: CommitState) {
    && (s.pendingBlocks != {} ==>
      s.pendingBlocks == References(s.commit.blocks) && s.pendingTransactions == map[] &&
        s.rejectedTransactions == map[])
    && s.pendingTransactions.Keys <= References(s.commit.blocks)
    && s.rejectedTransactions.Keys <= References(s.commit.blocks)
    && (forall r | r in s.pendingTransactions :: s.pendingTransactions[r] != {})
  }

  /** The certifier still has the votes that matter for the commit. */
  ghost predicate Available(rejects: Stakes, s: CommitState) {
    && References(s.commit.blocks) <= rejects.Keys
    && forall r | r in s.pendingTransactions :: s.pendingTransactions[r] <= VotedOn(rejects, r)
  }

  lemma DirectKeepsSound(c: Committee, rejects: Stakes, s: CommitState)
    requires Sound(s)
    ensures Sound(DirectlyFinalized(c, rejects, s))
    ensures References(s.commit.blocks) <= rejects.Keys ==> Available(rejects, DirectlyFinalized(c, rejects, s))
  {}

  lemma StillPendingShrinks(c: Committee, rejects: Stakes, links: Links, s: CommitState)
    ensures var p := StillPending(c, rejects, links, s);
            && p.Keys <= s.pendingTransactions.Keys
            && forall r | r in p :: p[r] <= s.pendingTransactions[r] && p[r] != {}
  {}

  lemma LateRejectedKeys(c: Committee, rejects: Stakes, s: CommitState)
    ensures LateRejected(c, rejects, s).Keys <= s.rejectedTransactions.Keys + s.pendingTransactions.Keys
  {}

  lemma IndirectKeepsSound(c: Committee, rejects: Stakes, links: Links, latest: Round, s: CommitState)
    requires Sound(s) && s.pendingBlocks == {}
    ensures Sound(IndirectlyFinalized(c, rejects, links, latest, s))
    ensures Available(rejects, s) ==> Available(rejects, IndirectlyFinalized(c, rejects, links, latest, s))
  {
    StillPendingShrinks(c, rejects, links, s);
    LateRejectedKeys(c, rejects, s);
  }

  ghost predicate SoundAt(pending: seq<CommitState>, i: nat)
    requires i < |pending|
  {
    Sound(pending[i])
  }

  ghost predicate AllSound(pending: seq<CommitState>) {
    forall i {:trigger SoundAt(pending, i)} | 0 <= i < |pending| :: SoundAt(pending, i)
  }

  lemma SoundSuffix(pending: seq<CommitState>, k: nat)
    requires AllSound(pending) && k <= |pending|
    ensures AllSound(pending[k..])
  {
    var rest := pending[k..];
    forall i | 0 <= i < |rest| ensures SoundAt(rest, i) {
      assert SoundAt(pending, k + i);
    }
  }

  lemma SoundReplaced(pending: seq<CommitState>, first: CommitState)
    requires AllSound(pending) && pending != [] && Sound(first)
    ensures AllSound([first] + pending[1..])
  {
    var q := [first] + pending[1..];
    forall i | 0 <= i < |q| ensures SoundAt(q, i) {
      assert i > 0 ==> SoundAt(pending, i) && q[i] == pending[i];
    }
  }

  ghost predicate AllAvailable(rejects: Stakes, pending: seq<CommitState>) {
    forall i | 0 <= i < |pending| :: Available(rejects, pending[i])
  }

  lemma NewIsReady(rejects: Stakes, pending: seq<CommitState>, commit: SubDag)
    requires AllSound(pending)
    ensures AllSound(pending + [NewCommit(commit)])
    ensures AllAvailable(rejects, pending) && References(commit.blocks) <= rejects.Keys ==>
              AllAvailable(rejects, pending + [NewCommit(commit)])
  {
    var q := pending + [NewCommit(commit)];
    forall i | 0 <= i < |q| ensures SoundAt(q, i) {
      assert i < |pending| ==> SoundAt(pending, i) && q[i] == pending[i];
    }
  }

  lemma {:induction false} DirectKeepsReady(c: Committee, rejects: Stakes, latest: Round, pending: seq<CommitState>)
    requires AllSound(pending)
    ensures AllSound(DirectPhase(c, rejects, latest, pending))
    ensures AllAvailable(rejects, pending) ==> AllAvailable(rejects, DirectPhase(c, rejects, latest, pending))
    decreases |pending|
  {
    if pending != [] {
      SoundSuffix(pending, 1);
      DirectKeepsReady(c, rejects, latest, pending[1..]);
      assert SoundAt(pending, 0);
      DirectKeepsSound(c, rejects, pending[0]);
      var after, rest := DirectPhase(c, rejects, latest, pending), DirectPhase(c, rejects, latest, pending[1..]);
      forall i | 0 <= i < |after|
        ensures SoundAt(after, i) && (AllAvailable(rejects, pending) ==> Available(rejects, after[i]))
      {
        assert SoundAt(pending, i) && (i > 0 ==> pending[i] == pending[1..][i - 1] && SoundAt(rest, i - 1));
      }
    }
  }

  // ---- Popping ----

  /** Blocks of the first commit have no child that stays behind, and are no child of one that stays. */
  lemma PopLinks(commits: seq<SubDag>, n: nat, links: Links)
    requires Ordered(commits) && 0 < n <= |commits| && Linked(AllBlocks(commits[..n]), links)
    ensures Linked(AllBlocks(commits[1..][..n - 1]), links - References(commits[0].blocks))
  {
    var rest := commits[1..][..n - 1];
    assert commits[..n][0] == commits[0] && commits[..n][1..] == rest;
    ReferencesConcat(commits[0].blocks, AllBlocks(rest));
    forall r | r in References(AllBlocks(rest))
      ensures r !in References(commits[0].blocks) && ChildrenIn(commits[0].blocks, r) == {}
    {
      var b :| b in AllBlocks(rest) && b.reference == r;
      InAllBlocks(rest, b);
      var i :| 0 <= i < |rest| && b in rest[i].blocks;
      assert rest[i] == commits[i + 1];
      assert Follows(commits[0].blocks, commits[i + 1].blocks);
    }
    var after := links - References(commits[0].blocks);
    forall x | x in after ensures HasChildren(AllBlocks(rest), after, x) {
      assert HasChildren(AllBlocks(commits[..n]), links, x);
      ChildrenConcat(commits[0].blocks, AllBlocks(rest), x);
    }
  }

  lemma OrderedSuffix(commits: seq<SubDag>, k: nat)
    requires k <= |commits|
    ensures Ordered(commits) ==> Ordered(commits[k..])
    ensures Rising(commits) ==> Rising(commits[k..])
  {}

  /** The outputs are the first commits of the buffer, with what was rejected in them. */
  ghost predicate AreOutputsOf(outputs: seq<SubDag>, commits: seq<SubDag>) {
    |outputs| <= |commits| && forall i | 0 <= i < |outputs| ::
      outputs[i] == commits[i].(rejected := outputs[i].rejected)
  }

  /** What popping leaves of a buffer with these commits, of which the first `n` were linked. */
  ghost predicate PopKeeps(commits: seq<SubDag>, n: nat, p: Popping) {
    && AreOutputsOf(p.outputs, commits) && CommitsOf(p.pending) == commits[|p.outputs|..]
    && var m := if n < |p.outputs| then 0 else n - |p.outputs|;
       m <= |p.pending| && Linked(AllBlocks(CommitsOf(p.pending)[..m]), p.links)
  }

  lemma PopKeepsCons(commits: seq<SubDag>, n: nat, out: SubDag, p: Popping)
    requires commits != [] && PopKeeps(commits[1..], if n == 0 then 0 else n - 1, p)
    requires out == commits[0].(rejected := out.rejected)
    ensures PopKeeps(commits, n, p.(outputs := [out] + p.outputs))
  {
    assert commits[1..][|p.outputs|..] == commits[|[out] + p.outputs|..];
    forall i | 0 <= i < |[out] + p.outputs|
      ensures ([out] + p.outputs)[i] == commits[i].(rejected := ([out] + p.outputs)[i].rejected)
    {
      assert i > 0 ==> p.outputs[i - 1] == commits[1..][i - 1].(rejected := p.outputs[i - 1].rejected);
    }
  }

  /** All commits of the buffer are linked, or all but the last. */
  lemma {:induction false} PoppedKeepsLinks(pending: seq<CommitState>, links: Links, n: nat)
    requires Ordered(CommitsOf(pending)) && |pending| - 1 <= n <= |pending|
    requires Linked(AllBlocks(CommitsOf(pending)[..n]), links)
    ensures PopKeeps(CommitsOf(pending), n, Popped(pending, links))
    decreases |pending|
  {
    var commits := CommitsOf(pending);
    if pending != [] && IsDecided(pending[0]) {
      assert CommitsOf(pending[1..]) == commits[1..];
      OrderedSuffix(commits, 1);
      var after := links - References(pending[0].commit.blocks);
      if n > 0 {
        PopLinks(commits, n, links);
        PoppedKeepsLinks(pending[1..], after, n - 1);
      } else {
        assert after == links && pending[1..] == [] && commits[..0] == commits[1..][..0] == [];
        PoppedKeepsLinks(pending[1..], after, 0);
      }
      PopKeepsCons(commits, n, Output(pending[0]), Popped(pending[1..], after));
    }
  }

  // ---- Direct and indirect phases keep the commits ----

  lemma {:induction false} DirectKeepsCommits(c: Committee, rejects: Stakes, latest: Round, pending: seq<CommitState>)
    ensures CommitsOf(DirectPhase(c, rejects, latest, pending)) == CommitsOf(pending)
    decreases |pending|
  {
    if pending != [] {
      DirectKeepsCommits(c, rejects, latest, pending[1..]);
      assert CommitsOf(pending) == [pending[0].commit] + CommitsOf(pending[1..]);
    }
  }

  /** A commit whose leader is old enough has been through direct finalization. */
  ghost predicate Examined(s: CommitState, latest: Round) {
    s.commit.leader.round + WAVE_LENGTH <= latest ==> s.pendingBlocks == {}
  }

  lemma {:induction false} DirectExamines(c: Committee, rejects: Stakes, latest: Round, pending: seq<CommitState>)
    requires Rising(CommitsOf(pending))
    ensures forall i | 0 <= i < |pending| :: Examined(DirectPhase(c, rejects, latest, pending)[i], latest)
    decreases |pending|
  {
    if pending != [] {
      assert CommitsOf(pending[1..]) == CommitsOf(pending)[1..];
      DirectExamines(c, rejects, latest, pending[1..]);
      forall i | 0 <= i < |pending| ensures Examined(DirectPhase(c, rejects, latest, pending)[i], latest) {
        assert i == 0 || pending[i] == pending[1..][i - 1];
        assert CommitsOf(pending)[i] == pending[i].commit && CommitsOf(pending)[0] == pending[0].commit;
      }
    }
  }

  // ---- The invariant between calls ----

  /** Every buffered commit is led less than three rounds below the latest. */
  ghost predicate Recent(pending: seq<CommitState>, latest: Round) {
    forall i | 0 <= i < |pending| :: pending[i].commit.leader.round + INDIRECT_REJECT_DEPTH > latest
  }

  ghost predicate Inv(f: Finalizer) {
    && Ordered(CommitsOf(f.pending)) && Rising(CommitsOf(f.pending))
    && Linked(AllBlocks(CommitsOf(f.pending)), f.links) && AllSound(f.pending)
    && (f.pending != [] ==>
      !IsDecided(f.pending[0]) && Recent(f.pending, f.pending[|f.pending| - 1].commit.leader.round))
  }

  lemma {:induction false} RisingSpreads(commits: seq<SubDag>, j: nat)
    requires Rising(commits) && j < |commits|
    ensures commits[j].leader.round >= commits[0].leader.round + j
    decreases j
  {
    if j > 0 {
      RisingSpreads(commits, j - 1);
    }
  }

  /** At most three commits are buffered. */
  lemma AtMostThreeBuffered(f: Finalizer)
    requires Inv(f)
    ensures |f.pending| <= 3
  {
    if f.pending != [] {
      RisingSpreads(CommitsOf(f.pending), |f.pending| - 1);
    }
  }

  /** Children always have an entry themselves. */
  lemma NoDanglingChild(bs: seq<Block>, links: Links, x: BlockRef, y: BlockRef)
    requires Linked(bs, links) && x in links && y in links[x].children
    ensures y in links
  {
    assert HasChildren(bs, links, x);
  }

  /** What the next commit must be: new blocks in linearizer order and a later leader. */
  ghost predicate Next(f: Finalizer, commit: SubDag) {
    && Ordered(CommitsOf(f.pending) + [commit]) && Rising(CommitsOf(f.pending) + [commit])
  }

  /** The buffer at the start of indirect finalization. */
  ghost predicate Buffered(pending: seq<CommitState>, links: Links, latest: Round) {
    && pending != [] && pending[|pending| - 1].commit.leader.round == latest
    && Ordered(CommitsOf(pending)) && Rising(CommitsOf(pending)) && Linked(AllBlocks(CommitsOf(pending)), links)
    && AllSound(pending) && !IsDecided(pending[0]) && forall i | 0 <= i < |pending| :: Examined(pending[i], latest)
  }

  lemma RecentFromFirst(pending: seq<CommitState>, latest: Round)
    requires pending != [] && Rising(CommitsOf(pending))
    requires pending[0].commit.leader.round + INDIRECT_REJECT_DEPTH > latest
    ensures Recent(pending, latest)
  {
    forall i | 0 <= i < |pending| ensures pending[i].commit.leader.round + INDIRECT_REJECT_DEPTH > latest {
      assert CommitsOf(pending)[i] == pending[i].commit && CommitsOf(pending)[0] == pending[0].commit;
    }
  }

  lemma FullSlice(pending: seq<CommitState>)
    ensures CommitsOf(pending)[..|pending|] == CommitsOf(pending)
  {}

  /** What a turn leaves of the buffer `pending`. */
  ghost predicate TurnKeeps(pending: seq<CommitState>, p: Popping, latest: Round) {
    && AreOutputsOf(p.outputs, CommitsOf(pending)) && CommitsOf(p.pending) == CommitsOf(pending)[|p.outputs|..]
    && (p.pending != [] ==> Buffered(p.pending, p.links, latest))
    && (p.pending == [] ==> p.links == map[])
    && (p.outputs == [] ==> Recent(p.pending, latest))
  }

  lemma AfterPop(pending: seq<CommitState>, q: seq<CommitState>, p: Popping, latest: Round)
    requires q != [] && CommitsOf(q) == CommitsOf(pending) && Ordered(CommitsOf(q)) && Rising(CommitsOf(q))
    requires q[|q| - 1].commit.leader.round == latest && forall i | 0 <= i < |q| :: Examined(q[i], latest)
    requires !IsDecided(q[0]) ==> q[0].commit.leader.round + INDIRECT_REJECT_DEPTH > latest
    requires PopKeeps(CommitsOf(q), |q|, p) && |p.pending| + |p.outputs| == |q| && p.pending == q[|p.outputs|..]
    requires AllSound(q) && (p.pending != [] ==> !IsDecided(p.pending[0]))
    ensures TurnKeeps(pending, p, latest)
  {
    FullSlice(p.pending);
    OrderedSuffix(CommitsOf(q), |p.outputs|);
    SoundSuffix(q, |p.outputs|);
    if p.outputs == [] {
      RecentFromFirst(p.pending, latest);
    }
  }

  /** The first commit looked at once more, and what is then popped. */
  lemma IndirectTurn(c: Committee, rejects: Stakes, pending: seq<CommitState>, links: Links, first: CommitState,
      latest: Round)
    requires |pending| > 1 && Buffered(pending, links, latest) && pending[0].pendingBlocks == {}
    requires first == IndirectlyFinalized(c, rejects, links, latest, pending[0])
    ensures TurnKeeps(pending, Popped([first] + pending[1..], links), latest)
  {
    assert SoundAt(pending, 0);
    IndirectKeepsSound(c, rejects, links, latest, pending[0]);
    assert first.pendingBlocks == {} &&
      (!IsDecided(first) ==> first.commit.leader.round + INDIRECT_REJECT_DEPTH > latest) &&
        first.commit == pending[0].commit;
    TurnOnFirst(pending, links, first, latest);
  }

  lemma TurnOnFirst(pending: seq<CommitState>, links: Links, first: CommitState, latest: Round)
    requires |pending| > 1 && Buffered(pending, links, latest) && first.pendingBlocks == {} && Sound(first)
    requires first.commit == pending[0].commit
    requires !IsDecided(first) ==> first.commit.leader.round + INDIRECT_REJECT_DEPTH > latest
    ensures TurnKeeps(pending, Popped([first] + pending[1..], links), latest)
  {
    var q := [first] + pending[1..];
    assert CommitsOf(q) == CommitsOf(pending);
    FullSlice(q);
    PoppedKeepsLinks(q, links, |q|);
    SoundReplaced(pending, first);
    forall i | 0 <= i < |q| ensures Examined(q[i], latest) {
      assert i > 0 ==> q[i] == pending[i];
    }
    AfterPop(pending, q, Popped(q, links), latest);
  }

  /** The result of indirect finalization keeps what the buffer had, and every commit left is recent. */
  lemma {:induction false} IndirectKeepsBuffer(c: Committee, rejects: Stakes, pending: seq<CommitState>, links: Links,
      latest: Round)
    requires Buffered(pending, links, latest)
    ensures var p := IndirectPhase(c, rejects, pending, links);
            && AreOutputsOf(p.outputs, CommitsOf(pending)) && CommitsOf(p.pending) == CommitsOf(pending)[|p.outputs|..]
            && LeftBuffered(p, latest)
    decreases |pending|
  {
    if |pending| <= 1 || pending[0].pendingBlocks != {} {
      assert Examined(pending[0], latest);
      RecentFromFirst(pending, latest);
    } else {
      var first := IndirectlyFinalized(c, rejects, links, latest, pending[0]);
      IndirectTurn(c, rejects, pending, links, first, latest);
      var p := Popped([first] + pending[1..], links);
      if p.outputs != [] {
        if p.pending != [] {
          IndirectKeepsBuffer(c, rejects, p.pending, p.links, latest);
        }
        var rest := IndirectPhase(c, rejects, p.pending, p.links);
        OutputsConcat(CommitsOf(pending), p.outputs, rest.outputs);
      }
    }
  }

  lemma OutputsConcat(commits: seq<SubDag>, first: seq<SubDag>, second: seq<SubDag>)
    requires AreOutputsOf(first, commits) && AreOutputsOf(second, commits[|first|..])
    ensures AreOutputsOf(first + second, commits) && commits[|first|..][|second|..] == commits[|first + second|..]
  {
    forall i | 0 <= i < |first + second|
      ensures (first + second)[i] == commits[i].(rejected := (first + second)[i].rejected)
    {
      if i >= |first| {
        assert (first + second)[i] == second[i - |first|] && commits[|first|..][i - |first|] == commits[i];
      }
    }
  }

  /** Linking the new commit completes the links of the commits left. */
  lemma LinksComplete(commits: seq<SubDag>, commit: SubDag, p: Popping, latest: Round)
    requires Ordered(commits) && Rising(commits) && commits != [] && commits[|commits| - 1] == commit
    requires commit.leader.round == latest
    requires |p.outputs| < |commits| && CommitsOf(p.pending) == commits[|p.outputs|..] && p.pending != []
    requires Linked(AllBlocks(CommitsOf(p.pending)[..|p.pending| - 1]), p.links)
    requires AllSound(p.pending) && !IsDecided(p.pending[0])
    requires forall i | 0 <= i < |p.pending| :: Examined(p.pending[i], latest)
    ensures Buffered(p.pending, LinkCommit(p.links, commit.blocks), latest)
    ensures Follows(AllBlocks(CommitsOf(p.pending)[..|p.pending| - 1]), commit.blocks)
  {
    var n, left := |p.pending| - 1, CommitsOf(p.pending);
    OrderedSuffix(commits, |p.outputs|);
    assert left[n] == commit && left == left[..n] + [commit];
    assert p.pending[n].commit == left[n];
    FollowsAll(left, n);
    LinkCommitLinked(AllBlocks(left[..n]), p.links, commit.blocks);
    AllBlocksConcat(left[..n], [commit]);
    OneCommit(commit);
  }

  /** The state after direct finalization and the first pops. */
  ghost predicate DirectKeeps(commits: seq<SubDag>, commit: SubDag, p: Popping) {
    && AreOutputsOf(p.outputs, commits) && CommitsOf(p.pending) == commits[|p.outputs|..]
    && (p.pending == [] ==> p.links == map[])
    && (p.pending != [] ==>
          && Buffered(p.pending, LinkCommit(p.links, commit.blocks), commit.leader.round)
          && Linked(AllBlocks(CommitsOf(p.pending)[..|p.pending| - 1]), p.links)
          && Follows(AllBlocks(CommitsOf(p.pending)[..|p.pending| - 1]), commit.blocks))
  }

  lemma AfterDirect(commits: seq<SubDag>, commit: SubDag, direct: seq<CommitState>, p: Popping)
    requires commits != [] && commits[|commits| - 1] == commit && CommitsOf(direct) == commits && Ordered(commits)
    requires Rising(commits) && AllSound(direct)
    requires forall i | 0 <= i < |direct| :: Examined(direct[i], commit.leader.round)
    requires PopKeeps(commits, |commits| - 1, p) && |p.pending| + |p.outputs| == |direct|
    requires p.pending == direct[|p.outputs|..] && (p.pending != [] ==> !IsDecided(p.pending[0]))
    ensures DirectKeeps(commits, commit, p)
  {
    if p.pending != [] {
      SoundSuffix(direct, |p.outputs|);
      LinksComplete(commits, commit, p, commit.leader.round);
    }
  }

  lemma DirectPart(c: Committee, f: Finalizer, commit: SubDag, rejects: Stakes)
    requires Inv(f) && Next(f, commit)
    ensures DirectKeeps(CommitsOf(f.pending) + [commit], commit,
            Popped(DirectPhase(c, rejects, commit.leader.round, f.pending + [NewCommit(commit)]), f.links))
  {
    var queue, latest := f.pending + [NewCommit(commit)], commit.leader.round;
    var commits := CommitsOf(f.pending) + [commit];
    assert CommitsOf(queue) == commits;
    DirectKeepsCommits(c, rejects, latest, queue);
    DirectExamines(c, rejects, latest, queue);
    NewIsReady(rejects, f.pending, commit);
    DirectKeepsReady(c, rejects, latest, queue);
    DirectPopped(f, commit, DirectPhase(c, rejects, latest, queue));
  }

  lemma DirectPopped(f: Finalizer, commit: SubDag, direct: seq<CommitState>)
    requires Inv(f) && Next(f, commit) && CommitsOf(direct) == CommitsOf(f.pending) + [commit] && AllSound(direct)
    requires forall i | 0 <= i < |direct| :: Examined(direct[i], commit.leader.round)
    ensures DirectKeeps(CommitsOf(f.pending) + [commit], commit, Popped(direct, f.links))
  {
    var commits := CommitsOf(f.pending) + [commit];
    assert commits[..|f.pending|] == CommitsOf(f.pending);
    PoppedKeepsLinks(direct, f.links, |f.pending|);
    AfterDirect(commits, commit, direct, Popped(direct, f.links));
  }

  ghost predicate LeftBuffered(p: Popping, latest: Round) {
    if p.pending == [] then p.links == map[] else Buffered(p.pending, p.links, latest) && Recent(p.pending, latest)
  }

  lemma BufferedIsInv(p: Popping, latest: Round)
    requires LeftBuffered(p, latest)
    ensures Inv(Finalizer(p.pending, p.links)) && Recent(p.pending, latest)
  {
    if p.pending == [] {
      assert CommitsOf(p.pending) == [];
    }
  }

  /**
   Processing a commit: outputs and buffer together are the earlier buffer and the new commit, in order, each
   once; the links hold exactly the blocks still buffered; and no commit stays whose leader is three or more
   rounds below the new one.
   */
  lemma ProcessedKeepsInv(c: Committee, f: Finalizer, commit: SubDag, rejects: Stakes)
    requires Inv(f) && Next(f, commit)
    ensures var p := Processed(c, f, commit, rejects); var commits := CommitsOf(f.pending) + [commit];
            && Inv(Finalizer(p.pending, p.links)) && Recent(p.pending, commit.leader.round)
            && AreOutputsOf(p.outputs, commits) && CommitsOf(p.pending) == commits[|p.outputs|..]
  {
    var commits := CommitsOf(f.pending) + [commit];
    var direct := Popped(DirectPhase(c, rejects, commit.leader.round, f.pending + [NewCommit(commit)]), f.links);
    DirectPart(c, f, commit, rejects);
    if direct.pending == [] {
      BufferedIsInv(direct, commit.leader.round);
    } else {
      var links := LinkCommit(direct.links, commit.blocks);
      IndirectKeepsBuffer(c, rejects, direct.pending, links, commit.leader.round);
      var rest := IndirectPhase(c, rejects, direct.pending, links);
      OutputsConcat(commits, direct.outputs, rest.outputs);
      BufferedIsInv(rest, commit.leader.round);
    }
  }

  // ---- What the certifier has to keep ----

  lemma PoppedAvailable(rejects: Stakes, pending: seq<CommitState>, p: Popping)
    requires AllAvailable(rejects, pending) && |p.outputs| <= |pending| && p.pending == pending[|p.outputs|..]
    ensures AllAvailable(rejects, p.pending)
  {}

  lemma {:induction false} IndirectAvailable(c: Committee, rejects: Stakes, pending: seq<CommitState>, links: Links)
    requires AllSound(pending) && AllAvailable(rejects, pending)
    ensures AllAvailable(rejects, IndirectPhase(c, rejects, pending, links).pending)
    decreases |pending|
  {
    if |pending| > 1 && pending[0].pendingBlocks == {} {
      var latest := pending[|pending| - 1].commit.leader.round;
      var first := IndirectlyFinalized(c, rejects, links, latest, pending[0]);
      assert SoundAt(pending, 0);
      IndirectKeepsSound(c, rejects, links, latest, pending[0]);
      SoundReplaced(pending, first);
      var q := [first] + pending[1..];
      forall i | 0 <= i < |q| ensures Available(rejects, q[i]) {
        assert i > 0 ==> q[i] == pending[i];
      }
      var p := Popped(q, links);
      PoppedAvailable(rejects, q, p);
      if p.outputs != [] {
        SoundSuffix(q, |p.outputs|);
        IndirectAvailable(c, rejects, p.pending, p.links);
      }
    }
  }

  /** The certifier has the votes that matter for what stays buffered. */
  lemma ProcessedAvailable(c: Committee, f: Finalizer, commit: SubDag, rejects: Stakes)
    requires AllSound(f.pending) && AllAvailable(rejects, f.pending) && References(commit.blocks) <= rejects.Keys
    ensures AllAvailable(rejects, Processed(c, f, commit, rejects).pending)
  {
    var queue := f.pending + [NewCommit(commit)];
    NewIsReady(rejects, f.pending, commit);
    DirectKeepsReady(c, rejects, commit.leader.round, queue);
    var after := DirectPhase(c, rejects, commit.leader.round, queue);
    var direct := Popped(after, f.links);
    PoppedAvailable(rejects, after, direct);
    SoundSuffix(after, |direct.outputs|);
    if direct.pending != [] {
      IndirectAvailable(c, rejects, direct.pending, LinkCommit(direct.links, commit.blocks));
    }
  }
}
