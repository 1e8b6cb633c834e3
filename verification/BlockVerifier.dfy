/** The checks that define a well-formed DAG (`SignedBlockVerifier::verify_block`). */
module BlockVerifier {
  import opened Types
  import opened Committee

  datatype Error =
    | WrongEpoch
    | UnexpectedGenesisBlock
    | InvalidAuthorityIndex
    | InvalidSignature
    | TooManyAncestors
    | InsufficientParentStakes(stake: nat)
    | InvalidAncestorAuthority(position: nat)
    | InvalidAncestorPosition(position: nat)
    | InvalidAncestorRound(position: nat)
    | InvalidGenesisAncestor(position: nat)
    | DuplicatedAncestorsAuthority(position: nat)

  /** Authors of the ancestors one round below the block. */
  function ParentAuthors(b: Block): set<Author> {
    set a | a in b.ancestors && a.round + 1 == b.reference.round :: a.author
  }

  predicate AncestorWellFormed(c: Committee, genesis: set<BlockRef>, b: Block, i: nat)
    requires i < |b.ancestors|
  {
    var a := b.ancestors[i];
    && c.IsValidIndex(a.author)
    && (i == 0 <==> a.author == b.reference.author)
    && a.round < b.reference.round
    && (a.round == GENESIS_ROUND ==> a in genesis)
  }

  predicate DistinctAuthors(ancestors: seq<BlockRef>) {
    forall i, j | 0 <= i < j < |ancestors| :: ancestors[i].author != ancestors[j].author
  }

  /** The structure every verified block has. */
  predicate WellFormed(c: Committee, genesis: set<BlockRef>, b: Block) {
    && b.reference.round > GENESIS_ROUND
    && c.IsValidIndex(b.reference.author)
    && 0 < |b.ancestors| <= |c.stakes|
    && (forall i | 0 <= i < |b.ancestors| :: AncestorWellFormed(c, genesis, b, i))
    && DistinctAuthors(b.ancestors)
    && c.IsQuorum(ParentAuthors(b))
  }

  /** The first check that ancestor `i` fails, in the order the checks are made. */
  function AncestorError(c: Committee, genesis: set<BlockRef>, b: Block, i: nat): Option<Error>
    requires i < |b.ancestors|
  {
    var a := b.ancestors[i];
    if !c.IsValidIndex(a.author) then Some(InvalidAncestorAuthority(i))
    else if (i == 0) != (a.author == b.reference.author) then Some(InvalidAncestorPosition(i))
    else if a.round >= b.reference.round then Some(InvalidAncestorRound(i))
    else if a.round == GENESIS_ROUND && a !in genesis then Some(InvalidGenesisAncestor(i))
    else if exists j | 0 <= j < i :: b.ancestors[j].author == a.author then Some(DuplicatedAncestorsAuthority(i))
    else None
  }

  /** `e` is the error of the first ancestor that has one. */
  predicate IsFirstAncestorError(c: Committee, genesis: set<BlockRef>, b: Block, e: Error) {
    exists i | 0 <= i < |b.ancestors| ::
      && AncestorError(c, genesis, b, i) == Some(e)
      && forall j | 0 <= j < i :: AncestorError(c, genesis, b, j) == None
  }

  /** Stake of the parents among the first `n` ancestors. */
  ghost function ParentPrefix(b: Block, n: nat): set<Author>
    requires n <= |b.ancestors|
  {
    set i | 0 <= i < n && b.ancestors[i].round + 1 == b.reference.round :: b.ancestors[i].author
  }

  lemma ParentPrefixStep(c: Committee, b: Block, n: nat)
    requires n < |b.ancestors|
    requires forall j | 0 <= j < n :: b.ancestors[j].author != b.ancestors[n].author
    ensures c.StakeOf(ParentPrefix(b, n + 1)) ==
            c.StakeOf(ParentPrefix(b, n)) +
              if b.ancestors[n].round + 1 == b.reference.round then c.Stake(b.ancestors[n].author) else 0
  {
    var a := b.ancestors[n];
    if a.round + 1 == b.reference.round {
      assert ParentPrefix(b, n + 1) == ParentPrefix(b, n) + {a.author};
      StakeAdd(c, ParentPrefix(b, n), a.author);
    } else {
      assert ParentPrefix(b, n + 1) == ParentPrefix(b, n);
    }
  }

  /** No ancestor has an error exactly when they are all well formed and by distinct authors. */
  lemma NoErrorsMeansWellFormed(c: Committee, genesis: set<BlockRef>, b: Block)
    ensures (forall i | 0 <= i < |b.ancestors| :: AncestorError(c, genesis, b, i) == None) <==>
            ((forall i | 0 <= i < |b.ancestors| :: AncestorWellFormed(c, genesis, b, i)) &&
              DistinctAuthors(b.ancestors))
  {
    if forall i | 0 <= i < |b.ancestors| :: AncestorError(c, genesis, b, i) == None {
      forall i, j | 0 <= i < j < |b.ancestors| ensures b.ancestors[i].author != b.ancestors[j].author {
        assert AncestorError(c, genesis, b, j) == None;
      }
      forall i | 0 <= i < |b.ancestors| ensures AncestorWellFormed(c, genesis, b, i) {
        assert AncestorError(c, genesis, b, i) == None;
      }
    }
    if (forall i | 0 <= i < |b.ancestors| :: AncestorWellFormed(c, genesis, b, i)) && DistinctAuthors(b.ancestors) {
      forall i | 0 <= i < |b.ancestors| ensures AncestorError(c, genesis, b, i) == None {
        assert AncestorWellFormed(c, genesis, b, i);
      }
    }
  }

  method CheckBlock(c: Committee, genesis: set<BlockRef>, b: Block, epoch: nat, signatureValid: bool)
    returns (error: Option<Error>)
    ensures error == None <==> epoch == c.epoch && signatureValid && WellFormed(c, genesis, b)
    ensures error.Some? ==>
      match error.value
      case WrongEpoch => epoch != c.epoch
      case UnexpectedGenesisBlock => b.reference.round == GENESIS_ROUND
      case InvalidAuthorityIndex => !c.IsValidIndex(b.reference.author)
      case InvalidSignature => !signatureValid
      case TooManyAncestors => |b.ancestors| > |c.stakes|
      case InsufficientParentStakes(stake) => stake == c.StakeOf(ParentAuthors(b)) < c.QuorumThreshold()
      case _ => IsFirstAncestorError(c, genesis, b, error.value)
  {
    NoErrorsMeansWellFormed(c, genesis, b);
    if epoch != c.epoch { return Some(WrongEpoch); }
    if b.reference.round == GENESIS_ROUND { return Some(UnexpectedGenesisBlock); }
    if !c.IsValidIndex(b.reference.author) { return Some(InvalidAuthorityIndex); }
    if !signatureValid { return Some(InvalidSignature); }
    if |b.ancestors| > |c.stakes| { return Some(TooManyAncestors); }
    if b.ancestors == [] {
      assert ParentAuthors(b) == {};
      StakeBelowEmpty(c, |c.stakes|);
      return Some(InsufficientParentStakes(0));
    }
    var seen := new bool[|c.stakes|](_ => false);
    var parentStakes := 0;
    assert ParentPrefix(b, 0) == {};
    StakeBelowEmpty(c, |c.stakes|);
    for i := 0 to |b.ancestors|
      invariant forall j | 0 <= j < i :: AncestorError(c, genesis, b, j) == None
      invariant forall x | 0 <= x < |c.stakes| :: seen[x] <==> exists j | 0 <= j < i :: b.ancestors[j].author == x
      invariant parentStakes == c.StakeOf(ParentPrefix(b, i))
    {
      var a := b.ancestors[i];
      ghost var expected := AncestorError(c, genesis, b, i);
      if !c.IsValidIndex(a.author) { return Some(InvalidAncestorAuthority(i)); }
      if (i == 0 && a.author != b.reference.author) || (i > 0 && a.author == b.reference.author) {
        return Some(InvalidAncestorPosition(i));
      }
      if a.round >= b.reference.round { return Some(InvalidAncestorRound(i)); }
      if a.round == GENESIS_ROUND && a !in genesis { return Some(InvalidGenesisAncestor(i)); }
      if seen[a.author] { return Some(DuplicatedAncestorsAuthority(i)); }
      seen[a.author] := true;
      ParentPrefixStep(c, b, i);
      if a.round == b.reference.round - 1 {
        parentStakes := parentStakes + c.Stake(a.author);
      }
    }
    assert ParentPrefix(b, |b.ancestors|) == ParentAuthors(b);
    if !c.ReachedQuorum(parentStakes) {
      return Some(InsufficientParentStakes(parentStakes));
    }
    return None;
  }

  /** What is wrong with the ancestor that an error names; all those before it are in order. */
  lemma ErrorMeans(c: Committee, genesis: set<BlockRef>, b: Block, e: Error)
    requires IsFirstAncestorError(c, genesis, b, e)
    ensures match e
      case InvalidAncestorAuthority(i) => i < |b.ancestors| && b.ancestors[i].author >= |c.stakes|
      case InvalidAncestorPosition(i) =>
        i < |b.ancestors| && (i == 0) != (b.ancestors[i].author == b.reference.author)
      case InvalidAncestorRound(i) => i < |b.ancestors| && b.ancestors[i].round >= b.reference.round
      case InvalidGenesisAncestor(i) => i < |b.ancestors| && b.ancestors[i].round == 0 && b.ancestors[i] !in genesis
      case DuplicatedAncestorsAuthority(i) =>
        i < |b.ancestors| && exists j | 0 <= j < i :: b.ancestors[j].author == b.ancestors[i].author
      case _ => false
  {
    var i :| 0 <= i < |b.ancestors| && AncestorError(c, genesis, b, i) == Some(e);
  }

  lemma WellFormedMeans(c: Committee, genesis: set<BlockRef>, b: Block)
    requires WellFormed(c, genesis, b)
    ensures b.reference.round > 0 && b.reference.author < |c.stakes| && 0 < |b.ancestors| <= |c.stakes|
    ensures forall i | 0 <= i < |b.ancestors| :: var a := b.ancestors[i];
            && a.author < |c.stakes| && (i == 0 <==> a.author == b.reference.author)
            && a.round < b.reference.round && (a.round == 0 ==> a in genesis)
    ensures forall i, j | 0 <= i < j < |b.ancestors| :: b.ancestors[i].author != b.ancestors[j].author
  {
    forall i | 0 <= i < |b.ancestors|
      ensures var a := b.ancestors[i];
              && a.author < |c.stakes| && (i == 0 <==> a.author == b.reference.author)
              && a.round < b.reference.round && (a.round == 0 ==> a in genesis)
    {
      assert AncestorWellFormed(c, genesis, b, i);
    }
  }

  /** Verifies a block whose epoch and signature have been decoded. A result of `None` accepts it. */
  method VerifyBlock(c: Committee, genesis: set<BlockRef>, b: Block, epoch: nat, signatureValid: bool)
    returns (error: Option<Error>)
    ensures error == None <==> epoch == c.epoch && signatureValid && WellFormed(c, genesis, b)
    ensures error == None ==>
      && b.reference.round > 0 && b.reference.author < |c.stakes| && 0 < |b.ancestors| <= |c.stakes|
      && (forall i | 0 <= i < |b.ancestors| :: var a := b.ancestors[i];
        && a.author < |c.stakes| && (i == 0 <==> a.author == b.reference.author)
        && a.round < b.reference.round && (a.round == 0 ==> a in genesis))
      && (forall i, j | 0 <= i < j < |b.ancestors| :: b.ancestors[i].author != b.ancestors[j].author)
    ensures error.Some? ==>
      match error.value
      case WrongEpoch => epoch != c.epoch
      case UnexpectedGenesisBlock => b.reference.round == 0
      case InvalidAuthorityIndex => b.reference.author >= |c.stakes|
      case InvalidSignature => !signatureValid
      case TooManyAncestors => |b.ancestors| > |c.stakes|
      case InsufficientParentStakes(stake) => stake == c.StakeOf(ParentAuthors(b)) < c.QuorumThreshold()
      case InvalidAncestorAuthority(i) => i < |b.ancestors| && b.ancestors[i].author >= |c.stakes|
      case InvalidAncestorPosition(i) =>
        i < |b.ancestors| && (i == 0) != (b.ancestors[i].author == b.reference.author)
      case InvalidAncestorRound(i) => i < |b.ancestors| && b.ancestors[i].round >= b.reference.round
      case InvalidGenesisAncestor(i) => i < |b.ancestors| && b.ancestors[i].round == 0 && b.ancestors[i] !in genesis
      case DuplicatedAncestorsAuthority(i) =>
        i < |b.ancestors| && exists j | 0 <= j < i :: b.ancestors[j].author == b.ancestors[i].author
  {
    error := CheckBlock(c, genesis, b, epoch, signatureValid);
    if error == None {
      WellFormedMeans(c, genesis, b);
    } else if IsFirstAncestorError(c, genesis, b, error.value) {
      ErrorMeans(c, genesis, b, error.value);
    }
  }
}
