/** Values shared by every component: block references, blocks, slots and leader statuses. */
module Types {

  type Round = nat
  type Author = nat
  type CommitIndex = nat

  const GENESIS_ROUND: Round := 0

  datatype Option<+T> = None | Some(value: T)

  /** A reference identifies a block: the digest is taken to be collision free. */
  datatype BlockRef = BlockRef(round: Round, author: Author, digest: nat)

  /** The block of an author that does not equivocate in the round. */
  function Ref(round: Round, author: Author): BlockRef {
    BlockRef(round, author, 0)
  }

  datatype Slot = Slot(round: Round, authority: Author)

  datatype CommitRef = CommitRef(index: CommitIndex, digest: nat)

  /** Explicit reject votes of a block on transactions of another block. */
  datatype TransactionVotes = TransactionVotes(target: BlockRef, rejects: seq<nat>)

  /** A verified block. Transactions are represented by their number. */
  datatype Block = Block(
    reference: BlockRef,
    ancestors: seq<BlockRef>,
    transactions: nat,
    transactionVotes: seq<TransactionVotes>,
    commitVotes: seq<CommitRef>)

  type Dag = map<BlockRef, Block>

  datatype LeaderStatus = Commit(leader: BlockRef) | Skip(slot: Slot) | Undecided(slot: Slot)
  {
    function Round(): Round {
      match this
      case Commit(b) => b.round
      case Skip(s) => s.round
      case Undecided(s) => s.round
    }

    function LeaderSlot(): Slot {
      match this
      case Commit(b) => SlotOf(b)
      case Skip(s) => s
      case Undecided(s) => s
    }

    predicate IsDecided() {
      !Undecided?
    }
  }

  function Min(a: nat, b: nat): nat {
    if a < b then a else b
  }

  function Max(a: nat, b: nat): nat {
    if a < b then b else a
  }

  /** Subtraction that saturates at zero. */
  function Monus(a: nat, b: nat): nat {
    if a < b then 0 else a - b
  }

  function SlotOf(r: BlockRef): Slot {
    Slot(r.round, r.author)
  }

  /** The derived order on references: round, then author, then digest. */
  predicate RefLess(a: BlockRef, b: BlockRef) {
    || a.round < b.round
    || (a.round == b.round && a.author < b.author)
    || (a.round == b.round && a.author == b.author && a.digest < b.digest)
  }

  predicate RefLe(a: BlockRef, b: BlockRef) {
    a == b || RefLess(a, b)
  }

  /** A non-empty set of references has a last element (`BTreeSet::last`). */
  lemma {:induction false} LastExists(s: set<BlockRef>) returns (m: BlockRef)
    requires s != {}
    ensures m in s && forall x | x in s :: RefLe(x, m)
    decreases s
  {
    var x :| x in s;
    if s == {x} {
      m := x;
    } else {
      var m' := LastExists(s - {x});
      m := if RefLess(m', x) then x else m';
      forall y | y in s ensures RefLe(y, m) {
        assert y == x || y in s - {x};
      }
    }
  }

  /** A non-empty set of references has a first element (`BTreeSet::first`). */
  lemma {:induction false} FirstExists(s: set<BlockRef>) returns (m: BlockRef)
    requires s != {}
    ensures m in s && forall x | x in s :: RefLe(m, x)
    decreases s
  {
    var x :| x in s;
    if s == {x} {
      m := x;
    } else {
      var m' := FirstExists(s - {x});
      m := if RefLess(x, m') then x else m';
      forall y | y in s ensures RefLe(m, y) {
        assert y == x || y in s - {x};
      }
    }
  }

  /** Every reference of `q` is smaller than all after it. */
  predicate StrictlyAscending(q: seq<BlockRef>) {
    forall i, j | 0 <= i < j < |q| :: RefLess(q[i], q[j])
  }

  function Elements(q: seq<BlockRef>): set<BlockRef> {
    set r | r in q
  }

  lemma PrefixBelow(q: seq<BlockRef>, i: nat)
    requires StrictlyAscending(q) && i < |q|
    ensures forall r | r in q[..i] :: RefLess(r, q[i])
  {
    forall r | r in q[..i] ensures RefLess(r, q[i]) {
      var j :| 0 <= j < i && q[..i][j] == r;
      assert q[j] == r;
    }
  }

  /** The elements of an ordered set in iteration order. */
  method Ascending(s: set<BlockRef>) returns (q: seq<BlockRef>)
    ensures StrictlyAscending(q)
    ensures forall r :: r in q <==> r in s
  {
    q := [];
    var rest := s;
    while rest != {}
      invariant StrictlyAscending(q)
      invariant rest <= s && forall r :: r in q <==> r in s - rest
      invariant forall x, y | x in q && y in rest :: RefLess(x, y)
      decreases rest
    {
      ghost var m := FirstExists(rest);
      var first :| first in rest && forall x | x in rest :: RefLe(first, x);
      forall y | y in rest - {first} ensures RefLess(first, y) {
        assert y in rest;
        assert RefLe(first, y);
      }
      q := q + [first];
      rest := rest - {first};
    }
  }

  lemma Smaller(a: set<BlockRef>, b: set<BlockRef>, x: BlockRef)
    requires a <= b - {x} && x in b
    ensures |a| < |b|
  {
    SubsetSize(a, b - {x});
  }

  lemma {:induction false} SubsetSize(a: set<BlockRef>, b: set<BlockRef>)
    requires a <= b
    ensures |a| <= |b|
    decreases a
  {
    if a != {} {
      var x :| x in a;
      SubsetSize(a - {x}, b - {x});
    }
  }

  predicate Distinct(refs: seq<BlockRef>) {
    forall i, j | 0 <= i < j < |refs| :: refs[i] != refs[j]
  }

  predicate DistinctReferences(blocks: seq<Block>) {
    forall i, j | 0 <= i < j < |blocks| :: blocks[i].reference != blocks[j].reference
  }

  /** Popping a stack of distinct references. */
  lemma ElementsPop(stack: seq<BlockRef>, rest: seq<BlockRef>, p: BlockRef)
    requires stack != [] && rest == stack[..|stack| - 1] && p == stack[|stack| - 1]
    requires Distinct(stack)
    ensures stack == rest + [p] && Distinct(rest) && p !in Elements(rest) && Elements(stack) == Elements(rest) + {p}
  {
    assert stack == rest + [p];
    forall i, j | 0 <= i < j < |rest| ensures rest[i] != rest[j] {
      assert rest[i] == stack[i] && rest[j] == stack[j];
    }
    forall i | 0 <= i < |rest| ensures rest[i] != p {
      assert rest[i] == stack[i];
    }
  }
}
