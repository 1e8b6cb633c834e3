/** The last committed round of every authority, as a fold over the commits. */
module CommittedRounds {
  import opened Types

  /** A commit as DagState sees it. */
  datatype TrustedCommit = TrustedCommit(index: CommitIndex, leader: BlockRef, blocks: seq<BlockRef>)

  /** The rounds at some commit, stored to shorten recovery (`CommitInfo`). */
  datatype Checkpoint = Checkpoint(index: CommitIndex, rounds: seq<Round>)

  function Zeros(n: nat): seq<Round> {
    seq(n, _ => 0)
  }

  function Raise(rounds: seq<Round>, r: BlockRef): (raised: seq<Round>)
    ensures |raised| == |rounds|
  {
    if r.author < |rounds| && rounds[r.author] < r.round then rounds[r.author := r.round] else rounds
  }

  /** Raises the rounds by all blocks of a commit. */
  function RaiseAll(rounds: seq<Round>, refs: seq<BlockRef>): (raised: seq<Round>)
    ensures |raised| == |rounds|
  {
    if refs == [] then rounds else Raise(RaiseAll(rounds, refs[..|refs| - 1]), refs[|refs| - 1])
  }

  function RaiseCommits(rounds: seq<Round>, commits: seq<TrustedCommit>): (raised: seq<Round>)
    ensures |raised| == |rounds|
  {
    if commits == [] then rounds
    else RaiseAll(RaiseCommits(rounds, commits[..|commits| - 1]), commits[|commits| - 1].blocks)
  }

  /** `m` is the highest round of a committed block of the authority, or zero. */
  ghost predicate IsLastCommittedRound(commits: seq<TrustedCommit>, a: Author, m: Round) {
    && (forall c, r | c in commits && r in c.blocks && r.author == a :: r.round <= m)
    && (m == 0 || exists c, r | c in commits && r in c.blocks :: r.author == a && r.round == m)
  }

  lemma {:induction false} RaiseAllIsMaximum(rounds: seq<Round>, refs: seq<BlockRef>, a: Author)
    requires a < |rounds|
    ensures var m := RaiseAll(rounds, refs)[a];
            && m >= rounds[a] && (forall r | r in refs && r.author == a :: r.round <= m)
            && (m == rounds[a] || exists r | r in refs :: r.author == a && r.round == m)
    decreases |refs|
  {
    if refs != [] {
      var last := |refs| - 1;
      assert refs == refs[..last] + [refs[last]];
      RaiseAllIsMaximum(rounds, refs[..last], a);
      assert refs[last] in refs;
    }
  }

  /** Folding all commits gives, per authority, the highest committed round. */
  lemma {:induction false} CommittedRoundsAreMaxima(n: nat, commits: seq<TrustedCommit>, a: Author)
    requires a < n
    ensures IsLastCommittedRound(commits, a, RaiseCommits(Zeros(n), commits)[a])
    decreases |commits|
  {
    if commits != [] {
      var last := |commits| - 1;
      assert commits == commits[..last] + [commits[last]];
      CommittedRoundsAreMaxima(n, commits[..last], a);
      RaiseAllIsMaximum(RaiseCommits(Zeros(n), commits[..last]), commits[last].blocks, a);
      var before, m := RaiseCommits(Zeros(n), commits[..last])[a], RaiseCommits(Zeros(n), commits)[a];
      assert commits[last] in commits;
      if m == before && m != 0 {
        var c, r :| c in commits[..last] && r in c.blocks && r.author == a && r.round == m;
        assert c in commits;
      }
    }
  }

  lemma {:induction false} RaiseCommitsConcat(rounds: seq<Round>, first: seq<TrustedCommit>, second: seq<TrustedCommit>)
    ensures RaiseCommits(rounds, first + second) == RaiseCommits(RaiseCommits(rounds, first), second)
    decreases |second|
  {
    if second == [] {
      assert first + second == first;
    } else {
      var last := |second| - 1;
      assert (first + second)[..|first + second| - 1] == first + second[..last];
      RaiseCommitsConcat(rounds, first, second[..last]);
    }
  }

  /** A checkpoint stands for the commits up to its index. */
  ghost predicate IsCheckpoint(n: nat, commits: seq<TrustedCommit>, c: Checkpoint) {
    c.index <= |commits| && c.rounds == RaiseCommits(Zeros(n), commits[..c.index])
  }

  lemma CheckpointStays(n: nat, commits: seq<TrustedCommit>, more: seq<TrustedCommit>, c: Checkpoint)
    requires IsCheckpoint(n, commits, c)
    ensures IsCheckpoint(n, commits + more, c)
  {
    assert (commits + more)[..c.index] == commits[..c.index];
  }

  /** What a restart computes: the checkpoint, raised by the commits stored after it. */
  function Recovered(n: nat, commits: seq<TrustedCommit>, checkpoint: Option<Checkpoint>): seq<Round> {
    match checkpoint
    case Some(c) => RaiseCommits(c.rounds, if c.index <= |commits| then commits[c.index..] else [])
    case None => RaiseCommits(Zeros(n), commits)
  }

  /** Recovery from any checkpoint gives the fold over all stored commits. */
  lemma RecoveredIsFold(n: nat, commits: seq<TrustedCommit>, checkpoint: Option<Checkpoint>)
    requires checkpoint.Some? ==> IsCheckpoint(n, commits, checkpoint.value)
    ensures Recovered(n, commits, checkpoint) == RaiseCommits(Zeros(n), commits)
  {
    match checkpoint {
      case None =>
      case Some(c) =>
        assert commits == commits[..c.index] + commits[c.index..];
        RaiseCommitsConcat(Zeros(n), commits[..c.index], commits[c.index..]);
    }
  }
}
