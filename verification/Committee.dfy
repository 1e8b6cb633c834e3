/** Voting power, thresholds and the quorum intersection that every safety argument rests on. */
module Committee {
  import opened Types

  /** The authorities of an epoch; the position of a stake is the authority index. */
  datatype Committee = Committee(epoch: nat, stakes: seq<nat>)
  {
    /** What the constructor asserts of its input. */
    predicate Valid() {
      TotalStake() > 0
    }

    predicate IsValidIndex(a: Author) {
      a < |stakes|
    }

    function Stake(a: Author): nat {
      if a < |stakes| then stakes[a] else 0
    }

    /** Stake of the authors of `s` with an index below `n`. */
    function StakeBelow(s: set<Author>, n: nat): nat {
      if n == 0 then 0
      else StakeBelow(s, n - 1) + if n - 1 in s then Stake(n - 1) else 0
    }

    /** Stake of a set of authors, each counted once. */
    function StakeOf(s: set<Author>): nat {
      StakeBelow(s, |stakes|)
    }

    function Everyone(): set<Author> {
      set a | 0 <= a < |stakes| && IsValidIndex(a)
    }

    function TotalStake(): nat {
      StakeOf(Everyone())
    }

    function QuorumThreshold(): nat {
      2 * TotalStake() / 3 + 1
    }

    function ValidityThreshold(): nat {
      (TotalStake() + 2) / 3
    }

    predicate ReachedQuorum(stake: nat) {
      stake >= QuorumThreshold()
    }

    predicate ReachedValidity(stake: nat) {
      stake >= ValidityThreshold()
    }

    /** The authors of `s` hold a quorum. */
    predicate IsQuorum(s: set<Author>) {
      ReachedQuorum(StakeOf(s))
    }

    /** The fault assumption: faulty authors hold less than the validity threshold. */
    predicate Tolerates(faulty: set<Author>) {
      !ReachedValidity(StakeOf(faulty))
    }
  }

  lemma ThresholdsAreComplementary(c: Committee)
    ensures c.QuorumThreshold() + c.ValidityThreshold() == c.TotalStake() + 1
  {}

  lemma {:induction false} StakeBelowMonotone(c: Committee, s: set<Author>, t: set<Author>, n: nat)
    requires s <= t
    ensures c.StakeBelow(s, n) <= c.StakeBelow(t, n)
    decreases n
  {
    if n > 0 {
      StakeBelowMonotone(c, s, t, n - 1);
    }
  }

  lemma StakeMonotone(c: Committee, s: set<Author>, t: set<Author>)
    requires s <= t
    ensures c.StakeOf(s) <= c.StakeOf(t)
  {
    StakeBelowMonotone(c, s, t, |c.stakes|);
  }

  lemma {:induction false} StakeBelowUnion(c: Committee, s: set<Author>, t: set<Author>, n: nat)
    ensures c.StakeBelow(s + t, n) + c.StakeBelow(s * t, n) == c.StakeBelow(s, n) + c.StakeBelow(t, n)
    decreases n
  {
    if n > 0 {
      StakeBelowUnion(c, s, t, n - 1);
    }
  }

  lemma {:induction false} StakeBelowEmpty(c: Committee, n: nat)
    ensures c.StakeBelow({}, n) == 0
    decreases n
  {
    if n > 0 {
      StakeBelowEmpty(c, n - 1);
    }
  }

  lemma {:induction false} StakeBelowSingle(c: Committee, a: Author, n: nat)
    ensures c.StakeBelow({a}, n) == if a < n then c.Stake(a) else 0
    decreases n
  {
    if n > 0 {
      StakeBelowSingle(c, a, n - 1);
    }
  }

  /** Counting one more author adds exactly its stake. */
  lemma StakeAdd(c: Committee, s: set<Author>, a: Author)
    ensures c.StakeOf(s + {a}) == if a in s then c.StakeOf(s) else c.StakeOf(s) + c.Stake(a)
  {
    if a in s {
      assert s + {a} == s;
    } else {
      StakeBelowUnion(c, s, {a}, |c.stakes|);
      assert s * {a} == {};
      StakeBelowEmpty(c, |c.stakes|);
      StakeBelowSingle(c, a, |c.stakes|);
    }
  }

  lemma {:induction false} StakeBelowCapped(c: Committee, s: set<Author>, n: nat)
    requires n <= |c.stakes|
    ensures c.StakeBelow(s, n) <= c.StakeBelow(c.Everyone(), n)
    ensures c.StakeBelow(s, n) == c.StakeBelow(s * c.Everyone(), n)
    decreases n
  {
    if n > 0 {
      StakeBelowCapped(c, s, n - 1);
    }
  }

  /** A set whose stake exceeds that of `faulty` has a member of the committee outside it. */
  lemma MoreStakeHasOutsider(c: Committee, s: set<Author>, faulty: set<Author>) returns (a: Author)
    requires c.StakeOf(s) > c.StakeOf(faulty)
    ensures a in s && a !in faulty && c.IsValidIndex(a)
  {
    StakeBelowCapped(c, s, |c.stakes|);
    var rest := (s * c.Everyone()) - faulty;
    if rest == {} {
      assert forall x | x in s * c.Everyone() :: x in faulty || x in rest;
      StakeMonotone(c, s * c.Everyone(), faulty);
      assert false;
    }
    a :| a in rest;
  }

  /** Two quorums share an author that is not faulty. */
  lemma QuorumIntersection(c: Committee, q1: set<Author>, q2: set<Author>, faulty: set<Author>) returns (a: Author)
    requires c.IsQuorum(q1) && c.IsQuorum(q2) && c.Tolerates(faulty)
    ensures a in q1 && a in q2 && a !in faulty && c.IsValidIndex(a)
  {
    StakeBelowUnion(c, q1, q2, |c.stakes|);
    StakeBelowCapped(c, q1 + q2, |c.stakes|);
    a := MoreStakeHasOutsider(c, q1 * q2, faulty);
  }

  /** A quorum has an author that is not faulty. */
  lemma QuorumHasHonest(c: Committee, q: set<Author>, faulty: set<Author>) returns (a: Author)
    requires c.IsQuorum(q) && c.Tolerates(faulty)
    ensures a in q && a !in faulty && c.IsValidIndex(a)
  {
    a := QuorumIntersection(c, q, q, faulty);
  }

  /** No set of faulty authors reaches a quorum, and the others always do (no quorum needs a fault). */
  lemma HonestAuthorsAreQuorum(c: Committee, faulty: set<Author>)
    requires c.Tolerates(faulty)
    ensures c.IsQuorum(c.Everyone() - faulty)
    ensures !c.IsQuorum(faulty)
  {
    var honest := c.Everyone() - faulty;
    StakeBelowUnion(c, honest, faulty, |c.stakes|);
    assert honest * faulty == {};
    StakeBelowEmpty(c, |c.stakes|);
    StakeMonotone(c, c.Everyone(), honest + faulty);
    if c.IsQuorum(faulty) {
      var a := QuorumHasHonest(c, faulty, faulty);
      assert false;
    }
  }

  /** Counts stake, each author once (`StakeAggregator<QuorumThreshold>`). */
  class StakeAggregator {
    const committee: Committee
    var votes: set<Author>
    var stake: nat

    ghost predicate Valid()
      reads this
    {
      stake == committee.StakeOf(votes)
    }

    constructor (committee: Committee)
      ensures Valid() && this.committee == committee && votes == {}
    {
      this.committee := committee;
      votes := {};
      stake := 0;
      new;
      StakeBelowEmpty(committee, |committee.stakes|);
    }

    /** Adds a vote; the result says whether the authors counted so far hold a quorum. */
    method Add(vote: Author) returns (reached: bool)
      requires Valid()
      modifies this
      ensures Valid() && votes == old(votes) + {vote}
      ensures reached <==> committee.IsQuorum(votes)
    {
      StakeAdd(committee, votes, vote);
      if vote !in votes {
        votes := votes + {vote};
        stake := stake + committee.Stake(vote);
      } else {
        assert votes + {vote} == votes;
      }
      reached := committee.ReachedQuorum(stake);
    }
  }

  // ---- Four authorities of equal stake ----

  const FOUR := Committee(0, [1, 1, 1, 1])

  function One(s: set<Author>, a: Author): nat {
    if a in s then 1 else 0
  }

  lemma FourStakes(s: set<Author>)
    ensures FOUR.StakeOf(s) == One(s, 0) + One(s, 1) + One(s, 2) + One(s, 3)
    ensures FOUR.QuorumThreshold() == 3 && FOUR.ValidityThreshold() == 2
  {
    BelowFour(s);
    BelowFour(FOUR.Everyone());
    assert FOUR.IsValidIndex(0) && FOUR.IsValidIndex(1) && FOUR.IsValidIndex(2) && FOUR.IsValidIndex(3);
  }

  lemma BelowFour(s: set<Author>)
    ensures FOUR.StakeOf(s) == One(s, 0) + One(s, 1) + One(s, 2) + One(s, 3)
  {
    assert FOUR.StakeBelow(s, 1) == FOUR.StakeBelow(s, 0) + if 0 in s then 1 else 0;
    assert FOUR.StakeBelow(s, 2) == FOUR.StakeBelow(s, 1) + if 1 in s then 1 else 0;
    assert FOUR.StakeBelow(s, 3) == FOUR.StakeBelow(s, 2) + if 2 in s then 1 else 0;
    assert FOUR.StakeBelow(s, 4) == FOUR.StakeBelow(s, 3) + if 3 in s then 1 else 0;
  }
}
