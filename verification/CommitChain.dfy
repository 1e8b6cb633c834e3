/** Commits fetched from a peer are trusted when they form a chain certified by a quorum (`verify_commits`). */
module CommitChain {
  import opened Types
  import opened Committee
  import opened CommitRanges

  /** A commit names the digest of the one before it; `content` stands for its leader and blocks. */
  datatype ChainCommit = ChainCommit(index: CommitIndex, previousDigest: nat, content: nat)

  type Digest = ChainCommit -> nat

  /** A serialized value that may not parse. */
  datatype Received<+T> = Malformed | Parsed(value: T)

  datatype Error =
    | MalformedCommit
    | UnexpectedStartCommit
    | UnexpectedCommitSequence
    | NoCommitReceived
    | MalformedBlock
    | InvalidBlock
    | NotEnoughCommitVotes

  datatype Result<+T> = Ok(value: T) | Err(error: Error)

  // ---- What a response means ----

  /** Consecutive indices, each commit naming the digest of the one before it. */
  ghost predicate IsChain(digest: Digest, commits: seq<ChainCommit>) {
    forall k | 0 < k < |commits| ::
      commits[k].index == commits[k - 1].index + 1 && commits[k].previousDigest == digest(commits[k - 1])
  }

  function RefOf(digest: Digest, c: ChainCommit): CommitRef {
    CommitRef(c.index, digest(c))
  }

  /** The authors of blocks that vote for a commit. */
  function Voters(blocks: seq<Block>, vote: CommitRef): set<Author> {
    set b | b in blocks && vote in b.commitVotes :: b.reference.author
  }

  /** A chain within the range whose end commit has the votes of a quorum. */
  ghost predicate Certified(c: Committee, digest: Digest, range: CommitRange, commits: seq<ChainCommit>,
      blocks: seq<Block>)
  {
    && commits != [] && IsChain(digest, commits) && commits[0].index == range.start
    && commits[|commits| - 1].index <= range.end
    && c.IsQuorum(Voters(blocks, RefOf(digest, commits[|commits| - 1])))
  }

  // ---- Checking commits ----

  /** Whether a commit may come after those taken so far. */
  function CheckNext(digest: Digest, range: CommitRange, taken: seq<ChainCommit>, commit: ChainCommit): Option<Error> {
    if taken == [] then if commit.index != range.start then Some(UnexpectedStartCommit) else None
    else
      var last := taken[|taken| - 1];
      if commit.index != last.index + 1 ||
        commit.previousDigest != digest(last) then Some(UnexpectedCommitSequence) else None
  }

  /** The first commit that is out of place or beyond the end of the range ends the scan. */
  function ScanCommits(digest: Digest, range: CommitRange, taken: seq<ChainCommit>,
      rest: seq<Received<ChainCommit>>): Result<seq<ChainCommit>>
    decreases |rest|
  {
    if rest == [] then Ok(taken)
    else
      match rest[0]
      case Malformed => Err(MalformedCommit)
      case Parsed(commit) =>
        match CheckNext(digest, range, taken, commit)
        case Some(e) => Err(e)
        case None =>
          if commit.index > range.end then Ok(taken) else ScanCommits(digest, range, taken + [commit], rest[1..])
  }

  ghost predicate InRange(digest: Digest, range: CommitRange, taken: seq<ChainCommit>) {
    IsChain(digest, taken) && (taken != [] ==> taken[0].index == range.start && taken[|taken| - 1].index <= range.end)
  }

  /** What a scan takes after `taken` are the first of the commits it is given. */
  ghost predicate TakesFrom(taken: seq<ChainCommit>, rest: seq<Received<ChainCommit>>, value: seq<ChainCommit>) {
    && taken <= value && |value| - |taken| <= |rest|
    && forall k | |taken| <= k < |value| :: rest[k - |taken|] == Parsed(value[k])
  }

  lemma TakesNext(taken: seq<ChainCommit>, rest: seq<Received<ChainCommit>>, value: seq<ChainCommit>)
    requires rest != [] && rest[0].Parsed? && TakesFrom(taken + [rest[0].value], rest[1..], value)
    ensures TakesFrom(taken, rest, value)
  {
    forall k | |taken| <= k < |value| ensures rest[k - |taken|] == Parsed(value[k]) {
      if k > |taken| {
        assert rest[1..][k - |taken| - 1] == rest[k - |taken|];
      } else {
        assert value[k] == (taken + [rest[0].value])[k];
      }
    }
  }

  /** The commit has its place right after `taken`. */
  ghost predicate Continues(digest: Digest, range: CommitRange, taken: seq<ChainCommit>, commit: ChainCommit) {
    if taken == [] then commit.index == range.start
    else
      var last := taken[|taken| - 1];
      commit.index == last.index + 1 && commit.previousDigest == digest(last)
  }

  /** The scan ends after `value`: nothing else was sent, or a next commit of the chain that is beyond the range. */
  ghost predicate EndsAfter(digest: Digest, range: CommitRange, value: seq<ChainCommit>,
      rest: seq<Received<ChainCommit>>)
  {
    rest != [] ==> rest[0].Parsed? && rest[0].value.index > range.end && Continues(digest, range, value, rest[0].value)
  }

  /** A response that begins with the chain `value` in the range, and goes beyond the range after it if at all. */
  ghost predicate Admits(digest: Digest, range: CommitRange, sent: seq<Received<ChainCommit>>,
      value: seq<ChainCommit>)
  {
    && |value| <= |sent| && AllParsed(value) == sent[..|value|] && IsChain(digest, value)
    && (value != [] ==> value[0].index == range.start && value[|value| - 1].index <= range.end)
    && EndsAfter(digest, range, value, sent[|value|..])
  }

  lemma InRangeNext(digest: Digest, range: CommitRange, taken: seq<ChainCommit>, commit: ChainCommit)
    requires InRange(digest, range, taken) && CheckNext(digest, range, taken, commit).None? && commit.index <= range.end
    ensures InRange(digest, range, taken + [commit])
  {}

  /** What the scan takes. */
  lemma {:induction false} ScannedIsChain(digest: Digest, range: CommitRange, taken: seq<ChainCommit>,
      rest: seq<Received<ChainCommit>>)
    requires InRange(digest, range, taken)
    ensures var r := ScanCommits(digest, range, taken, rest);
            r.Ok? ==>
              && InRange(digest, range, r.value) && TakesFrom(taken, rest, r.value)
              && EndsAfter(digest, range, r.value, rest[|r.value| - |taken|..])
    decreases |rest|
  {
    if rest != [] && rest[0].Parsed? && CheckNext(digest, range, taken, rest[0].value).None? &&
      rest[0].value.index <= range.end {
      InRangeNext(digest, range, taken, rest[0].value);
      ScannedIsChain(digest, range, taken + [rest[0].value], rest[1..]);
      var r := ScanCommits(digest, range, taken, rest);
      if r.Ok? {
        TakesNext(taken, rest, r.value);
        RestNext(rest, |r.value| - |taken|);
      }
    }
  }

  lemma RestNext<T>(rest: seq<T>, n: nat)
    requires 1 <= n <= |rest|
    ensures rest[1..][n - 1..] == rest[n..]
  {}

  lemma CheckPasses(digest: Digest, range: CommitRange, value: seq<ChainCommit>, n: nat)
    requires InRange(digest, range, value) && n < |value|
    ensures CheckNext(digest, range, value[..n], value[n]).None? && value[n].index <= range.end
    ensures value[..n] + [value[n]] == value[..n + 1]
  {
    IndexInRange(digest, range, value, n);
  }

  /** What is left of `rest` begins with what is left of `value`. */
  ghost predicate BeginsWith(rest: seq<Received<ChainCommit>>, value: seq<ChainCommit>, n: nat) {
    n <= |value| <= n + |rest| && forall k | n <= k < |value| :: rest[k - n] == Parsed(value[k])
  }

  lemma BeginsNext(rest: seq<Received<ChainCommit>>, value: seq<ChainCommit>, n: nat)
    requires BeginsWith(rest, value, n) && n < |value|
    ensures rest[0] == Parsed(value[n]) && BeginsWith(rest[1..], value, n + 1)
    ensures rest[1..][|value| - (n + 1)..] == rest[|value| - n..]
  {
    assert rest[n - n] == Parsed(value[n]);
    forall k | n + 1 <= k < |value| ensures rest[1..][k - (n + 1)] == Parsed(value[k]) {
      assert rest[k - n] == Parsed(value[k]);
    }
  }

  /** It takes all it can. */
  lemma {:induction false} ChainIsScanned(digest: Digest, range: CommitRange, value: seq<ChainCommit>, n: nat,
      rest: seq<Received<ChainCommit>>)
    requires InRange(digest, range, value) && BeginsWith(rest, value, n)
    requires EndsAfter(digest, range, value, rest[|value| - n..])
    ensures ScanCommits(digest, range, value[..n], rest) == Ok(value)
    decreases |rest|
  {
    if n < |value| {
      CheckPasses(digest, range, value, n);
      BeginsNext(rest, value, n);
      ChainIsScanned(digest, range, value, n + 1, rest[1..]);
    } else {
      assert value[..n] == value && rest[0..] == rest;
    }
  }

  lemma TakesFromStart(sent: seq<Received<ChainCommit>>, value: seq<ChainCommit>)
    ensures TakesFrom([], sent, value) <==> |value| <= |sent| && AllParsed(value) == sent[..|value|]
  {
    var parsed := AllParsed(value);
    forall k | 0 <= k < |value| ensures parsed[k] == Parsed(value[k]) {}
    if TakesFrom([], sent, value) {
      forall k | 0 <= k < |value| ensures parsed[k] == sent[..|value|][k] {
        assert sent[k - 0] == Parsed(value[k]);
      }
    }
    if |value| <= |sent| && parsed == sent[..|value|] {
      forall k | 0 <= k < |value| ensures sent[k] == Parsed(value[k]) {
        assert parsed[k] == sent[..|value|][k];
      }
    }
  }

  /** The scan succeeds with exactly the chain that the response admits. */
  lemma ScanAdmits(digest: Digest, range: CommitRange, sent: seq<Received<ChainCommit>>, value: seq<ChainCommit>)
    ensures ScanCommits(digest, range, [], sent) == Ok(value) <==> Admits(digest, range, sent, value)
  {
    TakesFromStart(sent, value);
    if ScanCommits(digest, range, [], sent) == Ok(value) {
      ScannedIsChain(digest, range, [], sent);
    }
    if Admits(digest, range, sent, value) {
      assert value[..0] == [];
      ChainIsScanned(digest, range, value, 0, sent);
    }
  }

  /** The error says what is wrong with the first commit that does not fit. */
  ghost predicate RefusedFor(digest: Digest, range: CommitRange, taken: seq<ChainCommit>, x: Received<ChainCommit>,
      error: Error)
  {
    match x
    case Malformed => error == MalformedCommit
    case Parsed(commit) =>
      && !Continues(digest, range, taken, commit)
      && error == if taken == [] then UnexpectedStartCommit else UnexpectedCommitSequence
  }

  ghost predicate Refuses(digest: Digest, range: CommitRange, sent: seq<Received<ChainCommit>>,
      taken: seq<ChainCommit>, error: Error)
  {
    && |taken| < |sent| && AllParsed(taken) == sent[..|taken|] && InRange(digest, range, taken)
    && RefusedFor(digest, range, taken, sent[|taken|], error)
  }

  /** A chain within the range passes as a whole. */
  lemma {:induction false} ChainPasses(digest: Digest, range: CommitRange, commits: seq<ChainCommit>, n: nat)
    requires InRange(digest, range, commits) && n <= |commits|
    ensures ScanCommits(digest, range, commits[..n], AllParsed(commits[n..])) == Ok(commits)
    decreases |commits| - n
  {
    if n < |commits| {
      var rest := AllParsed(commits[n..]);
      assert rest[1..] == AllParsed(commits[n + 1..]);
      assert commits[..n] + [commits[n]] == commits[..n + 1];
      IndexInRange(digest, range, commits, n);
      ChainPasses(digest, range, commits, n + 1);
    } else {
      assert commits[..n] == commits;
    }
  }

  function AllParsed<T>(values: seq<T>): seq<Received<T>> {
    seq(|values|, i requires 0 <= i < |values| => Parsed(values[i]))
  }

  lemma {:induction false} IndexInRange(digest: Digest, range: CommitRange, commits: seq<ChainCommit>, n: nat)
    requires InRange(digest, range, commits) && n < |commits|
    ensures commits[n].index == range.start + n && commits[n].index <= range.end
  {
    ChainIndex(digest, commits, n);
    ChainIndex(digest, commits, |commits| - 1);
  }

  lemma {:induction false} ChainIndex(digest: Digest, commits: seq<ChainCommit>, n: nat)
    requires IsChain(digest, commits) && n < |commits|
    ensures commits[n].index == commits[0].index + n
    decreases n
  {
    if n > 0 {
      ChainIndex(digest, commits, n - 1);
    }
  }

  // ---- Checking votes ----

  predicate AllVerified(accepts: Block -> bool, blocks: seq<Received<Block>>) {
    forall b | b in blocks :: b.Parsed? && accepts(b.value)
  }

  method CollectCommits(digest: Digest, range: CommitRange, serialized: seq<Received<ChainCommit>>)
    returns (r: Result<seq<ChainCommit>>)
    ensures r == ScanCommits(digest, range, [], serialized)
    ensures r.Ok? ==> Admits(digest, range, serialized, r.value)
    ensures r.Err? ==> exists taken :: Refuses(digest, range, serialized, taken, r.error)
  {
    var commits: seq<ChainCommit> := [];
    var i := 0;
    assert serialized[0..] == serialized;
    while i < |serialized|
      invariant 0 <= i == |commits| <= |serialized|
      invariant AllParsed(commits) == serialized[..i] && InRange(digest, range, commits)
      invariant ScanCommits(digest, range, [], serialized) == ScanCommits(digest, range, commits, serialized[i..])
    {
      if serialized[i].Malformed? {
        assert Refuses(digest, range, serialized, commits, MalformedCommit);
        return Err(MalformedCommit);
      }
      var commit := serialized[i].value;
      var error := CheckNext(digest, range, commits, commit);
      if error.Some? {
        assert Refuses(digest, range, serialized, commits, error.value);
        return Err(error.value);
      }
      if commit.index > range.end {
        break;
      }
      assert serialized[i..][1..] == serialized[i + 1..];
      commits := commits + [commit];
      i := i + 1;
    }
    r := Ok(commits);
    ScanAdmits(digest, range, serialized, commits);
  }

  /** The vote blocks, and whether the authors among them that vote for the commit are a quorum. */
  method CollectVotes(c: Committee, accepts: Block -> bool, vote: CommitRef, serialized: seq<Received<Block>>)
    returns (r: Result<seq<Block>>, reached: bool)
    ensures r.Ok? <==> AllVerified(accepts, serialized)
    ensures r.Ok? ==> AllParsed(r.value) == serialized && (reached <==> c.IsQuorum(Voters(r.value, vote)))
    ensures r.Err? ==> r.error in {MalformedBlock, InvalidBlock}
  {
    var aggregator := new StakeAggregator(c);
    var blocks: seq<Block> := [];
    reached := false;
    for i := 0 to |serialized|
      invariant aggregator.Valid() && aggregator.committee == c && aggregator.votes == Voters(blocks, vote)
      invariant AllVerified(accepts, serialized[..i]) && AllParsed(blocks) == serialized[..i]
    {
      assert serialized[i] in serialized;
      if serialized[i].Malformed? {
        return Err(MalformedBlock), false;
      }
      var block := serialized[i].value;
      if !accepts(block) {
        return Err(InvalidBlock), false;
      }
      VotersNext(blocks, block, vote);
      for j := 0 to |block.commitVotes|
        invariant aggregator.Valid() && aggregator.committee == c
        invariant aggregator.votes == Voters(blocks, vote) +
                  if vote in block.commitVotes[..j] then {block.reference.author} else {}
      {
        if block.commitVotes[j] == vote {
          var _ := aggregator.Add(block.reference.author);
        }
      }
      assert block.commitVotes[..|block.commitVotes|] == block.commitVotes;
      blocks := blocks + [block];
    }
    assert serialized[..|serialized|] == serialized;
    reached := c.ReachedQuorum(aggregator.stake);
    r := Ok(blocks);
  }

  lemma VotersNext(blocks: seq<Block>, b: Block, vote: CommitRef)
    ensures Voters(blocks + [b], vote) == Voters(blocks, vote) +
            if vote in b.commitVotes then {b.reference.author} else {}
  {}

  /**
   Success means a certified chain that is a prefix of what was sent. A certified chain within the range that
   arrives with verified votes is always accepted.
   */
  method VerifyCommits(c: Committee, digest: Digest, accepts: Block -> bool, range: CommitRange,
      serializedCommits: seq<Received<ChainCommit>>, serializedVotes: seq<Received<Block>>)
    returns (r: Result<(seq<ChainCommit>, seq<Block>)>)
    ensures r.Ok? ==>
              && Certified(c, digest, range, r.value.0, r.value.1) && AllParsed(r.value.1) == serializedVotes
              && AllVerified(accepts, serializedVotes) && Admits(digest, range, serializedCommits, r.value.0)
    ensures forall commits, blocks |
              && Admits(digest, range, serializedCommits, commits) && commits != []
              && AllParsed(blocks) == serializedVotes && AllVerified(accepts, serializedVotes)
              && c.IsQuorum(Voters(blocks, RefOf(digest, commits[|commits| - 1]))) :: r == Ok((commits, blocks))
    ensures r.Err? ==>
              match r.error
              case NoCommitReceived => Admits(digest, range, serializedCommits, [])
              case MalformedBlock => !AllVerified(accepts, serializedVotes)
              case InvalidBlock => !AllVerified(accepts, serializedVotes)
              case NotEnoughCommitVotes =>
                && AllVerified(accepts, serializedVotes)
                && exists commits :: Admits(digest, range, serializedCommits, commits)
              case error => exists taken :: Refuses(digest, range, serializedCommits, taken, error)
  {
    forall commits | Admits(digest, range, serializedCommits, commits)
      ensures ScanCommits(digest, range, [], serializedCommits) == Ok(commits)
    {
      ScanAdmits(digest, range, serializedCommits, commits);
    }
    var scanned := CollectCommits(digest, range, serializedCommits);
    if scanned.Err? {
      return Err(scanned.error);
    }
    var commits := scanned.value;
    if commits == [] {
      return Err(NoCommitReceived);
    }
    var end := commits[|commits| - 1];
    var blocks, reached := CollectVotes(c, accepts, RefOf(digest, end), serializedVotes);
    if blocks.Err? {
      return Err(blocks.error);
    }
    SameParsed(blocks.value, serializedVotes);
    if !reached {
      return Err(NotEnoughCommitVotes);
    }
    r := Ok((commits, blocks.value));
  }

  lemma SameParsed<T(!new)>(values: seq<T>, received: seq<Received<T>>)
    requires AllParsed(values) == received
    ensures forall other | AllParsed(other) == received :: other == values
  {
    forall other | AllParsed(other) == received ensures other == values {
      forall i | 0 <= i < |values| ensures other[i] == values[i] {
        assert AllParsed(other)[i] == AllParsed(values)[i];
      }
    }
  }

  // ---- Agreement ----

  ghost predicate Injective(digest: Digest) {
    forall a, b | digest(a) == digest(b) :: a == b
  }

  /** A validator's own commits, from index 1 on. */
  ghost predicate IsSequence(digest: Digest, commits: seq<ChainCommit>) {
    IsChain(digest, commits) && (commits != [] ==> commits[0].index == 1)
  }

  /** The author votes only for commits of its own sequence. */
  ghost predicate VotesFrom(digest: Digest, own: seq<ChainCommit>, b: Block) {
    forall v | v in b.commitVotes :: exists k | 0 <= k < |own| :: v == RefOf(digest, own[k])
  }

  /** Down the chain from a commit that is in a sequence, everything is in the sequence. */
  lemma {:induction false} ChainInSequence(digest: Digest, own: seq<ChainCommit>, commits: seq<ChainCommit>, k: nat,
      n: nat)
    requires Injective(digest) && IsSequence(digest, own) && IsChain(digest, commits) && commits != []
    requires k < |own| && commits[|commits| - 1] == own[k] && n < |commits|
    requires commits[0].index >= 1
    ensures 1 <= commits[n].index <= |own| && commits[n] == own[commits[n].index - 1]
    decreases |commits| - n
  {
    ChainIndex(digest, commits, n);
    ChainIndex(digest, own, k);
    if n < |commits| - 1 {
      ChainInSequence(digest, own, commits, k, n + 1);
      var i := commits[n + 1].index - 1;
      assert commits[n + 1].index == commits[n].index + 1;
      ChainIndex(digest, commits, n + 1);
      assert digest(commits[n]) == digest(own[i - 1]);
    }
  }

  /** A quorum's vote for the end of a chain comes from an honest sequence that has the whole chain. */
  lemma VoterHasChain(digest: Digest, own: seq<ChainCommit>, commits: seq<ChainCommit>, blocks: seq<Block>, a: Author,
      n: nat)
    requires Injective(digest) && IsSequence(digest, own) && IsChain(digest, commits) && commits != []
    requires commits[0].index >= 1 && n < |commits|
    requires a in Voters(blocks, RefOf(digest, commits[|commits| - 1]))
    requires forall b | b in blocks && b.reference.author == a :: VotesFrom(digest, own, b)
    ensures 1 <= commits[n].index <= |own| && commits[n] == own[commits[n].index - 1]
  {
    var vote := RefOf(digest, commits[|commits| - 1]);
    var b :| b in blocks && vote in b.commitVotes && b.reference.author == a;
    var k :| 0 <= k < |own| && vote == RefOf(digest, own[k]);
    ChainInSequence(digest, own, commits, k, n);
  }

  /**
   Two certified responses agree on every index they share, if authors outside a set of less than a third of
   the stake each vote from one sequence of their own. The sequences of different authors need not agree.
   */
  lemma CertifiedCommitsAgree(c: Committee, digest: Digest, faulty: set<Author>, own: map<Author, seq<ChainCommit>>,
                              range1: CommitRange, commits1: seq<ChainCommit>, blocks1: seq<Block>,
                              range2: CommitRange, commits2: seq<ChainCommit>, blocks2: seq<Block>, n: nat, m: nat)
    requires Injective(digest) && c.Tolerates(faulty) && range1.start >= 1 && range2.start >= 1
    requires forall a | a !in faulty && c.IsValidIndex(a) :: a in own && IsSequence(digest, own[a])
    requires forall b | b in blocks1 + blocks2 && b.reference.author in own && b.reference.author !in faulty ::
             VotesFrom(digest, own[b.reference.author], b)
    requires Certified(c, digest, range1, commits1, blocks1) && Certified(c, digest, range2, commits2, blocks2)
    requires n < |commits1| && m < |commits2| && commits1[n].index == commits2[m].index
    ensures commits1[n] == commits2[m]
  {
    var q1, q2 := Voters(blocks1, RefOf(digest, commits1[|commits1| - 1])),
      Voters(blocks2, RefOf(digest, commits2[|commits2| - 1]));
    var a := QuorumIntersection(c, q1, q2, faulty);
    forall b | b in blocks1 && b.reference.author == a ensures VotesFrom(digest, own[a], b) {
      assert b in blocks1 + blocks2;
    }
    forall b | b in blocks2 && b.reference.author == a ensures VotesFrom(digest, own[a], b) {
      assert b in blocks1 + blocks2;
    }
    VoterHasChain(digest, own[a], commits1, blocks1, a, n);
    VoterHasChain(digest, own[a], commits2, blocks2, a, m);
  }
}
