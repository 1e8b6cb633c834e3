/**
 The loops of the commit rule (`BaseCommitter`): stake is aggregated block by block with early exits,
 a memo of votes and a quick rejection, and each method computes what the plain rule defines.
 */
module BaseCommitter {
  import opened Types
  import opened Committee
  import opened Views
  import opened CommitRule
  import CommitSafety

  /** The memo only records answers about its leader. */
  predicate MemoSound(v: View, leader: BlockRef, allVotes: map<BlockRef, bool>)
    requires v.Closed() && leader.round > v.gcRound
  {
    forall r | r in allVotes :: allVotes[r] <==> r in v.blocks && IsVote(v, r, leader)
  }

  /** Authors of the votes among the first `n` ancestors of a block. */
  ghost function VotersAmong(v: View, cert: BlockRef, leader: BlockRef, n: nat): set<Author>
    requires v.Closed() && leader.round > v.gcRound && cert in v.blocks && n <= |v.blocks[cert].ancestors|
  {
    set i | 0 <= i < n && v.blocks[cert].ancestors[i] in v.blocks && IsVote(v, v.blocks[cert].ancestors[i], leader)
      :: v.blocks[cert].ancestors[i].author
  }

  lemma VotersAmongStep(v: View, cert: BlockRef, leader: BlockRef, n: nat)
    requires v.Closed() && leader.round > v.gcRound && cert in v.blocks && n < |v.blocks[cert].ancestors|
    ensures var a := v.blocks[cert].ancestors[n];
            VotersAmong(v, cert, leader, n + 1) ==
            VotersAmong(v, cert, leader, n) + if a in v.blocks && IsVote(v, a, leader) then {a.author} else {}
  {}

  lemma VotersAmongAll(v: View, cert: BlockRef, leader: BlockRef, n: nat)
    requires v.Closed() && leader.round > v.gcRound && cert in v.blocks && n <= |v.blocks[cert].ancestors|
    ensures VotersAmong(v, cert, leader, n) <= Authors(Votes(v, cert, leader))
    ensures n == |v.blocks[cert].ancestors| ==> VotersAmong(v, cert, leader, n) == Authors(Votes(v, cert, leader))
  {
    var ancestors := v.blocks[cert].ancestors;
    forall x | x in VotersAmong(v, cert, leader, n) ensures x in Authors(Votes(v, cert, leader)) {
      var i :| 0 <= i < n && ancestors[i] in v.blocks && IsVote(v, ancestors[i], leader) && ancestors[i].author == x;
      assert ancestors[i] in Votes(v, cert, leader);
    }
  }

  /** Whether one reference is a vote, through the memo. */
  method LookUpVote(v: View, cert: BlockRef, reference: BlockRef, leader: BlockRef, allVotes: map<BlockRef, bool>)
    returns (isVote: bool, memo: map<BlockRef, bool>)
    requires v.Closed() && leader.round > v.gcRound && cert in v.blocks && reference in v.blocks[cert].ancestors
    requires MemoSound(v, leader, allVotes)
    ensures isVote <==> reference in v.blocks && IsVote(v, reference, leader)
    ensures MemoSound(v, leader, memo)
  {
    if reference in allVotes {
      return allVotes[reference], allVotes;
    }
    if reference in v.blocks {
      isVote := IsVote(v, reference, leader);
    } else {
      assert v.EntryClosed(cert);
      assert reference.round <= v.gcRound;
      isVote := false;
    }
    memo := allVotes[reference := isVote];
  }

  method CheckCertificate(c: Committee, v: View, cert: BlockRef, leader: BlockRef, allVotes: map<BlockRef, bool>)
    returns (certificate: bool, memo: map<BlockRef, bool>)
    requires v.Closed() && leader.round > v.gcRound && cert in v.blocks
    requires MemoSound(v, leader, allVotes)
    ensures certificate <==> IsCertificate(c, v, cert, leader)
    ensures MemoSound(v, leader, memo)
  {
    memo := allVotes;
    var aggregator := new StakeAggregator(c);
    var ancestors := v.blocks[cert].ancestors;
    StakeBelowEmpty(c, |c.stakes|);
    for i := 0 to |ancestors|
      invariant aggregator.Valid() && aggregator.committee == c && fresh(aggregator)
      invariant MemoSound(v, leader, memo)
      invariant aggregator.votes == VotersAmong(v, cert, leader, i) && !c.IsQuorum(aggregator.votes)
    {
      var isVote;
      isVote, memo := LookUpVote(v, cert, ancestors[i], leader, memo);
      VotersAmongStep(v, cert, leader, i);
      if isVote {
        var reached := aggregator.Add(ancestors[i].author);
        if reached {
          VotersAmongAll(v, cert, leader, i + 1);
          StakeMonotone(c, aggregator.votes, Authors(Votes(v, cert, leader)));
          return true, memo;
        }
      }
    }
    VotersAmongAll(v, cert, leader, |ancestors|);
    return false, memo;
  }

  lemma AuthorsOfPrefix(q: seq<BlockRef>, n: nat)
    requires n < |q|
    ensures Authors(Elements(q[..n + 1])) == Authors(Elements(q[..n])) + {q[n].author}
  {
    assert q[..n + 1] == q[..n] + [q[n]];
  }

  /** Stake of the blocks of a round, an author counted once per block. */
  method TotalStake(c: Committee, q: seq<BlockRef>) returns (total: nat)
    ensures total >= c.StakeOf(Authors(Elements(q)))
  {
    total := 0;
    StakeBelowEmpty(c, |c.stakes|);
    assert Authors(Elements(q[..0])) == {};
    for i := 0 to |q|
      invariant total >= c.StakeOf(Authors(Elements(q[..i])))
    {
      AuthorsOfPrefix(q, i);
      StakeAdd(c, Authors(Elements(q[..i])), q[i].author);
      total := total + c.Stake(q[i].author);
    }
    assert q[..|q|] == q;
  }

  method EnoughLeaderSupport(c: Committee, v: View, leader: BlockRef, decisionRound: Round) returns (enough: bool)
    requires v.Closed() && leader.round > v.gcRound
    ensures enough <==> EnoughSupport(c, v, leader, decisionRound)
  {
    var blocks := Ascending(v.AtRound(decisionRound));
    ghost var certificates := Certificates(c, v, leader, decisionRound);
    var total := TotalStake(c, blocks);
    assert Elements(blocks) == v.AtRound(decisionRound);
    if !c.ReachedQuorum(total) {
      StakeMonotone(c, Authors(certificates), Authors(v.AtRound(decisionRound)));
      return false;
    }
    var aggregator := new StakeAggregator(c);
    var allVotes := map[];
    StakeBelowEmpty(c, |c.stakes|);
    for i := 0 to |blocks|
      invariant aggregator.Valid() && aggregator.committee == c && fresh(aggregator)
      invariant MemoSound(v, leader, allVotes)
      invariant aggregator.votes == Authors(set r | r in blocks[..i] && r in certificates)
      invariant !c.IsQuorum(aggregator.votes)
    {
      assert blocks[i] in blocks;
      var certificate;
      certificate, allVotes := CheckCertificate(c, v, blocks[i], leader, allVotes);
      assert blocks[..i + 1] == blocks[..i] + [blocks[i]];
      if certificate {
        var reached := aggregator.Add(blocks[i].author);
        assert aggregator.votes == Authors(set r | r in blocks[..i + 1] && r in certificates);
        if reached {
          StakeMonotone(c, aggregator.votes, Authors(certificates));
          return true;
        }
      }
    }
    assert (set r | r in blocks[..|blocks|] && r in certificates) == certificates;
    return false;
  }

  method EnoughLeaderBlame(c: Committee, v: View, slot: Slot) returns (enough: bool)
    ensures enough <==> EnoughBlame(c, v, slot)
  {
    var blocks := Ascending(v.AtRound(slot.round + 1));
    ghost var blames := Blames(v, slot);
    var aggregator := new StakeAggregator(c);
    StakeBelowEmpty(c, |c.stakes|);
    for i := 0 to |blocks|
      invariant aggregator.Valid() && aggregator.committee == c && fresh(aggregator)
      invariant aggregator.votes == Authors(set r | r in blocks[..i] && r in blames) && !c.IsQuorum(aggregator.votes)
    {
      assert blocks[i] in blocks;
      assert blocks[..i + 1] == blocks[..i] + [blocks[i]];
      if IsBlame(v.blocks[blocks[i]], slot.authority) {
        var reached := aggregator.Add(blocks[i].author);
        assert aggregator.votes == Authors(set r | r in blocks[..i + 1] && r in blames);
        if reached {
          StakeMonotone(c, aggregator.votes, Authors(blames));
          return true;
        }
      }
    }
    assert (set r | r in blocks[..|blocks|] && r in blames) == blames;
    return false;
  }

  /** The direct rule. In a sound world at most one leader has enough support, so it never panics. */
  method TryDirectDecide(ghost w: World, c: Committee, v: View, slot: Slot, decisionRound: Round)
    returns (status: LeaderStatus)
    requires w.Sound() && w.HonestChains() && w.Holds(v) && w.committee == c
    requires slot.round > v.gcRound
    ensures DirectlyDecides(c, v, slot, decisionRound, status)
  {
    var blamed := EnoughLeaderBlame(c, v, slot);
    if blamed {
      return Skip(slot);
    }
    var leaders := Ascending(v.AtSlot(slot));
    var supported: seq<BlockRef> := [];
    for i := 0 to |leaders|
      invariant forall b :: b in supported <==>
                b in leaders[..i] && b in v.AtSlot(slot) && EnoughSupport(c, v, b, decisionRound)
      invariant StrictlyAscending(supported)
    {
      assert leaders[i] in leaders;
      assert leaders[..i + 1] == leaders[..i] + [leaders[i]];
      PrefixBelow(leaders, i);
      var enough := EnoughLeaderSupport(c, v, leaders[i], decisionRound);
      if enough {
        supported := supported + [leaders[i]];
      }
    }
    assert leaders[..|leaders|] == leaders;
    if |supported| > 1 {
      assert supported[0] in supported && supported[1] in supported;
      CommitSafety.SupportedLeaderUnique(w, v, v, supported[0], supported[1], decisionRound);
      assert false;
    }
    if supported == [] {
      return Undecided(slot);
    }
    assert supported[0] in supported;
    return Commit(supported[0]);
  }

  /** Some target of the frontier still leads to `t`. */
  ghost predicate Leads(v: View, frontier: set<BlockRef>, t: BlockRef) {
    exists x | x in frontier :: Reaches(v.blocks, x, t)
  }

  /** Ancestors of a block at a lower round, found by a frontier walked from the highest reference down. */
  method AncestorsAtRound(v: View, later: BlockRef, round: Round) returns (found: set<BlockRef>)
    requires v.Closed() && later in v.blocks && round > v.gcRound
    ensures found == HistoryAt(v, later, round) - {later}
  {
    var linked := Elements(v.blocks[later].ancestors);
    ghost var remaining := v.blocks.Keys;
    FrontierStart(v, later, round);
    while linked != {}
      invariant Frontier(v, later, round, linked)
      invariant Remains(v, linked, remaining)
      decreases |remaining|
    {
      ghost var m := LastExists(linked);
      var last :| last in linked && forall x | x in linked :: RefLe(x, last);
      if last.round <= round {
        forall x | x in linked ensures x.round <= round {
          assert RefLe(x, last);
        }
        break;
      }
      FrontierInView(v, later, round, linked, last);
      ghost var before := remaining;
      remaining := RemainsStep(v, linked, last, before);
      FrontierStep(v, later, last, round, linked);
      linked := linked - {last} + Elements(v.blocks[last].ancestors);
    }
    FrontierDone(v, later, round, linked);
    found := set r | r in linked && r.round >= round;
  }

  /** The frontier lies in the history and still leads to every target. */
  ghost predicate Frontier(v: View, later: BlockRef, round: Round, linked: set<BlockRef>) {
    && (forall x {:trigger Reaches(v.blocks, later, x)} | x in linked ::
      Reaches(v.blocks, later, x) && x.round < later.round)
    && (forall t {:trigger Leads(v, linked, t)} | t in HistoryAt(v, later, round) && t != later :: Leads(v, linked, t))
  }

  /** `remaining` holds, with each reference, every smaller one of the view, and what the frontier may still visit. */
  ghost predicate Remains(v: View, linked: set<BlockRef>, remaining: set<BlockRef>) {
    && remaining <= v.blocks.Keys
    && (forall x, y | x in v.blocks && y in remaining && RefLess(x, y) :: x in remaining)
    && (forall x | x in linked && x.round > v.gcRound :: x in remaining)
  }

  /** A visited reference is never met again: what remains is strictly below it. */
  lemma RemainsStep(v: View, linked: set<BlockRef>, last: BlockRef, remaining: set<BlockRef>)
    returns (rest: set<BlockRef>)
    requires v.Closed() && last in v.blocks && last.round > v.gcRound && last in linked
    requires forall x | x in linked :: RefLe(x, last)
    requires Remains(v, linked, remaining)
    ensures Remains(v, linked - {last} + Elements(v.blocks[last].ancestors), rest) && |rest| < |remaining|
  {
    rest := set x | x in remaining && RefLess(x, last);
    assert v.EntryClosed(last);
    Smaller(rest, remaining, last);
  }

  lemma FrontierInView(v: View, later: BlockRef, round: Round, linked: set<BlockRef>, x: BlockRef)
    requires v.Closed() && later in v.blocks && x in linked && x.round > v.gcRound
    requires Frontier(v, later, round, linked)
    ensures x in v.blocks
  {
    assert Reaches(v.blocks, later, x);
    ReachesInView(v, later, x);
  }

  lemma FrontierStart(v: View, later: BlockRef, round: Round)
    requires v.Closed() && later in v.blocks
    ensures Frontier(v, later, round, Elements(v.blocks[later].ancestors))
    ensures Remains(v, Elements(v.blocks[later].ancestors), v.blocks.Keys)
  {
    var linked := Elements(v.blocks[later].ancestors);
    assert v.EntryClosed(later);
    forall x | x in linked ensures Reaches(v.blocks, later, x) {
      assert Reaches(v.blocks, x, x);
    }
    forall t | t in HistoryAt(v, later, round) && t != later ensures Leads(v, linked, t) {
      var a :| a in v.blocks[later].ancestors && a.round < later.round && Reaches(v.blocks, a, t);
      assert a in linked;
    }
  }

  /** Replacing a block above the target round by its ancestors loses no target. */
  lemma FrontierStep(v: View, later: BlockRef, last: BlockRef, round: Round, linked: set<BlockRef>)
    requires v.Closed() && last in v.blocks && last.round > round && last in linked
    requires Frontier(v, later, round, linked)
    ensures Frontier(v, later, round, linked - {last} + Elements(v.blocks[last].ancestors))
  {
    var linked' := linked - {last} + Elements(v.blocks[last].ancestors);
    assert v.EntryClosed(last);
    assert Reaches(v.blocks, later, last);
    forall t | t in HistoryAt(v, later, round) && t != later ensures Leads(v, linked', t) {
      assert Leads(v, linked, t);
      var x :| x in linked && Reaches(v.blocks, x, t);
      if x == last {
        var a :| a in v.blocks[last].ancestors && a.round < last.round && Reaches(v.blocks, a, t);
        assert a in linked';
      } else {
        assert x in linked';
      }
    }
    forall a | a in v.blocks[last].ancestors ensures Reaches(v.blocks, later, a) {
      assert Reaches(v.blocks, a, a);
      assert Reaches(v.blocks, last, a);
      ReachesTransitive(v.blocks, later, last, a);
    }
  }

  /** When nothing above the target round is left, the frontier at that round is the answer. */
  lemma FrontierDone(v: View, later: BlockRef, round: Round, linked: set<BlockRef>)
    requires v.Closed() && later in v.blocks && round > v.gcRound
    requires Frontier(v, later, round, linked) && forall x | x in linked :: x.round <= round
    ensures (set r | r in linked && r.round >= round) == HistoryAt(v, later, round) - {later}
  {
    var found := set r | r in linked && r.round >= round;
    forall r | r in found ensures r in HistoryAt(v, later, round) - {later} {
      assert Reaches(v.blocks, later, r);
      ReachesInView(v, later, r);
    }
    forall t | t in HistoryAt(v, later, round) - {later} ensures t in found {
      assert Leads(v, linked, t);
      var x :| x in linked && Reaches(v.blocks, x, t);
      ReachesDescends(v.blocks, x, t);
    }
  }

  /** Whether some potential certificate certifies the leader. */
  method AnyCertificate(c: Committee, v: View, candidates: set<BlockRef>, leader: BlockRef) returns (found: bool)
    requires v.Closed() && leader.round > v.gcRound && candidates <= v.blocks.Keys
    ensures found <==> exists cert | cert in candidates :: IsCertificate(c, v, cert, leader)
  {
    var allVotes := map[];
    var blocks := Ascending(candidates);
    for i := 0 to |blocks|
      invariant MemoSound(v, leader, allVotes)
      invariant forall j | 0 <= j < i :: !IsCertificate(c, v, blocks[j], leader)
    {
      assert blocks[i] in blocks;
      var certificate;
      certificate, allVotes := CheckCertificate(c, v, blocks[i], leader, allVotes);
      if certificate {
        return true;
      }
    }
    forall cert | cert in candidates ensures !IsCertificate(c, v, cert, leader) {
      assert cert in blocks;
    }
    return false;
  }

  method DecideLeaderFromAnchor(ghost w: World, c: Committee, v: View, anchor: BlockRef, slot: Slot,
      decisionRound: Round)
    returns (status: LeaderStatus)
    requires w.Sound() && w.HonestChains() && w.Holds(v) && w.committee == c
    requires slot.round > v.gcRound && slot.round < decisionRound < anchor.round && anchor in v.blocks
    ensures AnchorDecides(c, v, anchor, slot, decisionRound, status)
  {
    var leaders := Ascending(v.AtSlot(slot));
    var potential := AncestorsAtRound(v, anchor, decisionRound);
    assert potential == HistoryAt(v, anchor, decisionRound);
    var certified: seq<BlockRef> := [];
    for i := 0 to |leaders|
      invariant forall b :: b in certified <==>
                b in leaders[..i] && b in v.AtSlot(slot) && CertifiedBelow(c, v, anchor, b, decisionRound)
      invariant StrictlyAscending(certified)
    {
      assert leaders[i] in leaders;
      assert leaders[..i + 1] == leaders[..i] + [leaders[i]];
      PrefixBelow(leaders, i);
      var found := AnyCertificate(c, v, potential, leaders[i]);
      if found {
        certified := certified + [leaders[i]];
      }
    }
    assert leaders[..|leaders|] == leaders;
    if |certified| > 1 {
      assert certified[0] in certified && certified[1] in certified;
      CommitSafety.AnchorDecidesSame(w, v, v, anchor, slot, decisionRound, Commit(certified[0]), Commit(certified[1]));
      assert false;
    }
    if certified == [] {
      return Skip(slot);
    }
    assert certified[0] in certified;
    return Commit(certified[0]);
  }

  /** The indirect rule over the statuses of the later leaders, in ascending order. */
  method TryIndirectDecide(ghost w: World, c: Committee, v: View, slot: Slot, waveLength: nat, decisionRound: Round,
      leaders: seq<LeaderStatus>)
    returns (status: LeaderStatus)
    requires w.Sound() && w.HonestChains() && w.Holds(v) && w.committee == c
    requires slot.round > v.gcRound && slot.round < decisionRound < slot.round + waveLength
    requires forall b | Commit(b) in leaders :: b in v.blocks
    ensures IndirectlyDecides(c, v, slot, waveLength, decisionRound, leaders, status)
    ensures forall q | 0 <= q < |leaders| && leaders[q].Commit? && leaders[q].Round() >= slot.round + waveLength ::
            (forall k | 0 <= k < q :: leaders[k].Round() < slot.round + waveLength || leaders[k].Skip?) ==>
            AnchorDecides(c, v, leaders[q].leader, slot, decisionRound, status)
    ensures status == Undecided(slot) <==>
            forall q | 0 <= q < |leaders| && leaders[q].Commit? && leaders[q].Round() >= slot.round + waveLength ::
              exists k | 0 <= k < q :: leaders[k].Round() >= slot.round + waveLength && leaders[k].Undecided?
  {
    var i := 0;
    while i < |leaders|
      invariant 0 <= i <= |leaders|
      invariant forall k | 0 <= k < i :: leaders[k].Round() < slot.round + waveLength || leaders[k].Skip?
      invariant FindAnchor(leaders, slot.round + waveLength) == FindAnchor(leaders[i..], slot.round + waveLength)
    {
      assert leaders[i..][1..] == leaders[i + 1..];
      if slot.round + waveLength <= leaders[i].Round() {
        match leaders[i] {
          case Commit(anchor) =>
            assert leaders[i] in leaders;
            status := DecideLeaderFromAnchor(w, c, v, anchor, slot, decisionRound);
            return;
          case Skip(_) =>
          case Undecided(_) => return Undecided(slot);
        }
      }
      i := i + 1;
    }
    return Undecided(slot);
  }
}
