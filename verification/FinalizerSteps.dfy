/** The loops of the commit finalizer, each computing what `VoteLinks` and `Finality` define. */
module FinalizerSteps {
  import opened Types
  import opened Committee
  import opened Sorting
  import opened BlockIndex
  import opened VoteLinks
  import opened Finality
  import opened FinalityBuffer
  import opened FinalityTiming

  // ---- Links ----

  method LinkBlock(links: Links, b: Block) returns (links': Links)
    ensures links' == Link(links, b)
  {
    var state := if b.reference in links then links[b.reference] else BlockState({}, map[]);
    ghost var base := state.rejects;
    for i := 0 to |b.transactionVotes|
      invariant state ==
                BlockState(if b.reference in links then links[b.reference].children else {},
                  AddVotes(base, b.transactionVotes[..i]))
    {
      var votes := b.transactionVotes[i];
      assert b.transactionVotes[..i + 1][..i] == b.transactionVotes[..i];
      state := state.(rejects :=
        state.rejects[votes.target := On(state.rejects, votes.target) + Indices(votes.rejects)]);
    }
    assert b.transactionVotes[..|b.transactionVotes|] == b.transactionVotes;
    links' := links[b.reference := state];
    ghost var entered := links';
    for i := 0 to |b.ancestors|
      invariant links'.Keys == entered.Keys
      invariant forall r | r in entered ::
        links'[r] ==
          if r in b.ancestors[..i] then entered[r].(children := entered[r].children + {b.reference}) else entered[r]
    {
      var a := b.ancestors[i];
      assert b.ancestors[..i + 1] == b.ancestors[..i] + [a];
      if a in links' {
        links' := links'[a := links'[a].(children := links'[a].children + {b.reference})];
      }
    }
    assert b.ancestors[..|b.ancestors|] == b.ancestors;
  }

  lemma LinkAllStep(links: Links, s: seq<Block>, i: nat)
    requires i < |s|
    ensures LinkAll(links, s[..i + 1]) == Link(LinkAll(links, s[..i]), s[i])
  {
    assert s[..i + 1][..i] == s[..i];
  }

  method LinkBlocks(links: Links, blocks: seq<Block>) returns (links': Links)
    ensures links' == LinkAll(links, Sort(false, blocks))
  {
    var s := Sort(false, blocks);
    links' := links;
    for i := 0 to |s|
      invariant links' == LinkAll(links, s[..i])
    {
      LinkAllStep(links, s, i);
      links' := LinkBlock(links', s[i]);
    }
    assert s[..|s|] == s;
  }

  /** A block takes over the votes stored for its own ancestor, if that is still there. */
  method InheritBlock(links: Links, b: Block) returns (links': Links)
    requires b.reference in links
    ensures links' == Inherit(links, b)
  {
    links' := links;
    if b.ancestors != [] && b.ancestors[0].author == b.reference.author && b.ancestors[0] in links {
      var inherited := links[b.ancestors[0]].rejects;
      links' := links[b.reference := links[b.reference].(rejects := Merge(links[b.reference].rejects, inherited))];
    } else {
      MergeNothing(links[b.reference].rejects);
    }
  }

  method InheritRejectVotes(links: Links, blocks: seq<Block>) returns (links': Links)
    requires forall b | b in Sort(false, blocks) :: b.reference in links
    ensures links' == InheritAll(links, Sort(false, blocks))
  {
    var s := Sort(false, blocks);
    links' := links;
    for i := 0 to |s|
      invariant forall b | b in s[..i] :: b.reference in links
      invariant links' == InheritAll(links, s[..i])
    {
      PrefixStep(s, i);
      assert s[..i + 1][..i] == s[..i];
      links' := InheritBlock(links', s[i]);
    }
    assert s[..|s|] == s;
  }

  lemma MergeNothing(v: Votes)
    ensures Merge(v, map[]) == v
  {
    assert Merge(v, map[]).Keys == v.Keys;
    forall r | r in v ensures Merge(v, map[])[r] == v[r] {
      assert On(v, r) + On(map[], r) == v[r];
    }
  }

  // ---- Accept votes ----

  /** Where the walk stands: what was visited and what is queued descends from the block, and nothing is lost. */
  ghost predicate Walking(links: Links, target: BlockRef, visited: set<BlockRef>, queued: set<BlockRef>) {
    && target in links && visited <= Descendants(links, target) && queued <= Descendants(links, target)
    && links[target].children <= visited + queued
    && forall x | x in visited :: links[x].children <= visited + queued
  }

  ghost predicate Closed(links: Links) {
    forall x | x in links :: links[x].children <= links.Keys
  }

  lemma WalkStart(links: Links, target: BlockRef)
    requires target in links && Closed(links)
    ensures Walking(links, target, {}, links[target].children)
  {
    forall y | y in links[target].children ensures y in Descendants(links, target) {
      DescendsStep(links, target, target, y);
    }
  }

  lemma WalkStep(links: Links, target: BlockRef, visited: set<BlockRef>, queued: set<BlockRef>, x: BlockRef)
    requires Walking(links, target, visited, queued) && Closed(links) && x in queued
    ensures Walking(links, target, visited + {x}, (queued - {x}) + (links[x].children - (visited + {x})))
  {
    forall y | y in links[x].children ensures y in Descendants(links, target) {
      DescendsStep(links, target, x, y);
    }
  }

  lemma WalkDone(links: Links, target: BlockRef, visited: set<BlockRef>)
    requires Walking(links, target, visited, {})
    ensures visited == Descendants(links, target)
  {
    forall y | y in Descendants(links, target) ensures y in visited {
      var p :| IsPath(EdgesOf(links), p) && p[0] == target && p[|p| - 1] == y;
      ClosedHasDescendants(links, target, visited, p);
    }
  }

  /** The votes counted so far, and the transactions that reached a quorum. */
  ghost predicate Tally(c: Committee, links: Links, target: BlockRef, pending: set<nat>, visited: set<BlockRef>,
      accepts: map<nat, set<Author>>, finalized: set<nat>)
  {
    && finalized <= pending && accepts.Keys == pending - finalized
    && (forall t | t in accepts :: accepts[t] == Accepting(links, target, t, visited) && !c.IsQuorum(accepts[t]))
    && (forall t | t in finalized :: Accepted(c, links, target, t))
  }

  lemma TallyStep(c: Committee, links: Links, target: BlockRef, pending: set<nat>, visited: set<BlockRef>,
      accepts: map<nat, set<Author>>, finalized: set<nat>, x: BlockRef, accepts': map<nat, set<Author>>,
        newly: set<nat>)
    requires Tally(c, links, target, pending, visited, accepts, finalized) && x in links
    requires visited + {x} <= Descendants(links, target)
    requires Counted(c, accepts, On(links[x].rejects, target), x.author, accepts', newly)
    ensures Tally(c, links, target, pending, visited + {x}, accepts', finalized + newly)
  {
    forall t | t in accepts
      ensures Accepting(links, target, t, visited + {x}) ==
              if t in On(links[x].rejects, target) then accepts[t] else accepts[t] + {x.author}
    {}
    forall t | t in newly ensures Accepted(c, links, target, t) {
      var some, all := Accepting(links, target, t, visited + {x}),
        Accepting(links, target, t, Descendants(links, target));
      StakeMonotone(c, some, all);
    }
  }

  /** One block's author is counted for every transaction the block does not reject. */
  ghost predicate Counted(c: Committee, accepts: map<nat, set<Author>>, rejected: set<nat>, author: Author,
      accepts': map<nat, set<Author>>, newly: set<nat>)
  {
    && newly == (set t | t in accepts && t !in rejected && c.IsQuorum(accepts[t] + {author}))
    && accepts' == map t | t in accepts && t !in newly :: if t in rejected then accepts[t] else accepts[t] + {author}
  }

  method AddAccepts(c: Committee, accepts: map<nat, set<Author>>, rejected: set<nat>, author: Author)
    returns (accepts': map<nat, set<Author>>, newly: set<nat>)
    ensures Counted(c, accepts, rejected, author, accepts', newly)
  {
    accepts', newly := accepts, {};
    var rest := accepts.Keys;
    while rest != {}
      invariant rest <= accepts.Keys == accepts'.Keys
      invariant newly == set t | t in accepts && t !in rest && t !in rejected && c.IsQuorum(accepts[t] + {author})
      invariant forall t | t in accepts ::
                accepts'[t] == if t in rest || t in rejected then accepts[t] else accepts[t] + {author}
      decreases rest
    {
      var t :| t in rest;
      rest := rest - {t};
      if t in rejected {
        continue;
      }
      accepts' := accepts'[t := accepts'[t] + {author}];
      if c.IsQuorum(accepts'[t]) {
        newly := newly + {t};
      }
    }
    accepts' := map t | t in accepts' && t !in newly :: accepts'[t];
  }

  /**
   The pending transactions of a block that are accepted by the authors of its descendants. The walk ends
   early once every transaction has its quorum, and still returns exactly those that have one.
   */
  method CountAccepts(c: Committee, links: Links, target: BlockRef, pending: set<nat>) returns (finalized: set<nat>)
    requires target in links && Closed(links)
    ensures finalized == set t | t in pending && Accepted(c, links, target, t)
  {
    finalized := {};
    if pending == {} {
      return;
    }
    var accepts: map<nat, set<Author>> := map t | t in pending :: {};
    var queue, visited := links[target].children, {};
    WalkStart(links, target);
    StakeBelowEmpty(c, |c.stakes|);
    while queue != {}
      invariant Walking(links, target, visited, queue)
      invariant Tally(c, links, target, pending, visited, accepts, finalized)
      decreases links.Keys - visited, queue
    {
      ghost var m := FirstExists(queue);
      var x :| x in queue && forall y | y in queue :: RefLe(x, y);
      if x in visited {
        queue := queue - {x};
        continue;
      }
      WalkStep(links, target, visited, queue, x);
      var accepts', newly := AddAccepts(c, accepts, On(links[x].rejects, target), x.author);
      TallyStep(c, links, target, pending, visited, accepts, finalized, x, accepts', newly);
      queue := queue - {x};
      visited := visited + {x};
      accepts, finalized := accepts', finalized + newly;
      if accepts == map[] {
        TallyAll(c, links, target, pending, visited, accepts, finalized);
        return;
      }
      queue := queue + (links[x].children - visited);
    }
    WalkDone(links, target, visited);
  }

  lemma TallyAll(c: Committee, links: Links, target: BlockRef, pending: set<nat>, visited: set<BlockRef>,
      accepts: map<nat, set<Author>>, finalized: set<nat>)
    requires Tally(c, links, target, pending, visited, accepts, finalized) && accepts == map[]
    ensures finalized == set t | t in pending && Accepted(c, links, target, t)
  {
    assert pending - finalized == {};
    assert forall t | t in pending :: t in finalized || t in pending - finalized;
  }

  // ---- Direct finalization ----

  /** Those among the transactions whose reject stake has, or has not, reached a quorum. */
  function Voted(c: Committee, votes: map<nat, nat>, among: set<nat>, quorum: bool): set<nat> {
    set t | t in among && t in votes && c.ReachedQuorum(votes[t]) == quorum
  }

  lemma VotedNext(c: Committee, votes: map<nat, nat>, done: set<nat>, t: nat, quorum: bool)
    requires t in votes
    ensures Voted(c, votes, done + {t}, quorum) ==
            if c.ReachedQuorum(votes[t]) ==
              quorum then Voted(c, votes, done, quorum) + {t} else Voted(c, votes, done, quorum)
  {}

  /** The reject votes on one block: below a quorum the transaction stays pending, otherwise it is rejected. */
  method SortVotes(c: Committee, r: BlockRef, votes: map<nat, nat>, pending: Votes, rejected: Votes)
    returns (pending': Votes, rejected': Votes)
    requires r !in pending && r !in rejected
    ensures pending' == Tidied(pending, r, Voted(c, votes, votes.Keys, false))
    ensures rejected' == Tidied(rejected, r, Voted(c, votes, votes.Keys, true))
  {
    pending', rejected' := pending, rejected;
    var done, rest := {}, votes.Keys;
    while rest != {}
      invariant rest + done == votes.Keys
      invariant pending' == Tidied(pending, r, Voted(c, votes, done, false))
      invariant rejected' == Tidied(rejected, r, Voted(c, votes, done, true))
      decreases rest
    {
      var t :| t in rest;
      VotedNext(c, votes, done, t, false);
      VotedNext(c, votes, done, t, true);
      if !c.ReachedQuorum(votes[t]) {
        pending' := pending'[r := On(pending', r) + {t}];
      } else {
        rejected' := rejected'[r := On(rejected', r) + {t}];
      }
      rest, done := rest - {t}, done + {t};
    }
    assert done == votes.Keys;
  }

  /** An entry only where there is something to enter. */
  function Tidied(v: Votes, r: BlockRef, ts: set<nat>): Votes {
    if ts == {} then v else v[r := ts]
  }

  method DirectFinalizeCommit(c: Committee, rejects: Stakes, s: CommitState) returns (s': CommitState)
    requires s.pendingBlocks <= rejects.Keys && s.pendingTransactions == map[] && s.rejectedTransactions == map[]
    ensures s' == DirectlyFinalized(c, rejects, s)
  {
    var pending: Votes, rejected: Votes := map[], map[];
    var rest := s.pendingBlocks;
    while rest != {}
      invariant rest <= s.pendingBlocks
      invariant pending == Tidy(map r | r in s.pendingBlocks - rest :: Weak(c, rejects, r))
      invariant rejected == Tidy(map r | r in s.pendingBlocks - rest :: Strong(c, rejects, r))
      decreases rest
    {
      var r :| r in rest;
      var pending', rejected' := SortVotes(c, r, rejects[r], pending, rejected);
      assert Voted(c, rejects[r], rejects[r].Keys, false) == Weak(c, rejects, r);
      assert Voted(c, rejects[r], rejects[r].Keys, true) == Strong(c, rejects, r);
      TidyNext(s.pendingBlocks - rest, s.pendingBlocks - (rest - {r}), r, x => Weak(c, rejects, x));
      TidyNext(s.pendingBlocks - rest, s.pendingBlocks - (rest - {r}), r, x => Strong(c, rejects, x));
      rest := rest - {r};
      pending, rejected := pending', rejected';
    }
    assert s.pendingBlocks - rest == s.pendingBlocks;
    s' := s.(pendingBlocks := {}, pendingTransactions := pending, rejectedTransactions := rejected);
  }

  lemma TidyNext(done: set<BlockRef>, more: set<BlockRef>, r: BlockRef, f: BlockRef -> set<nat>)
    requires more == done + {r} && r !in done
    ensures Tidy(map x | x in more :: f(x)) == Tidied(Tidy(map x | x in done :: f(x)), r, f(r))
  {
    var a, b := Tidy(map x | x in more :: f(x)), Tidied(Tidy(map x | x in done :: f(x)), r, f(r));
    assert a.Keys == b.Keys;
  }

  /** What happens to the commit at one position, unless it has to wait. */
  function Examine(c: Committee, rejects: Stakes, s: CommitState): CommitState {
    if s.pendingBlocks == {} then s else DirectlyFinalized(c, rejects, s)
  }

  lemma DirectTurn(c: Committee, rejects: Stakes, latest: Round, pending: seq<CommitState>, i: nat)
    requires i < |pending|
    ensures var s := pending[i];
            DirectPhase(c, rejects, latest, pending[i..]) ==
            if s.pendingBlocks != {} && MustWait(s, latest) then pending[i..]
            else [Examine(c, rejects, s)] + DirectPhase(c, rejects, latest, pending[i + 1..])
  {
    assert pending[i..][0] == pending[i] && pending[i..][1..] == pending[i + 1..];
  }

  method DirectFinalizeNext(c: Committee, rejects: Stakes, s: CommitState) returns (s': CommitState)
    requires Sound(s) && Available(rejects, s)
    ensures s' == Examine(c, rejects, s)
  {
    if s.pendingBlocks == {} {
      return s;
    }
    s' := DirectFinalizeCommit(c, rejects, s);
  }

  ghost predicate Progress(c: Committee, rejects: Stakes, latest: Round, pending: seq<CommitState>, i: nat,
      done: seq<CommitState>)
  {
    |done| == i <= |pending| &&
      DirectPhase(c, rejects, latest, pending) == done + DirectPhase(c, rejects, latest, pending[i..])
  }

  lemma ProgressStep(c: Committee, rejects: Stakes, latest: Round, pending: seq<CommitState>, i: nat,
      done: seq<CommitState>, s: CommitState)
    requires Progress(c, rejects, latest, pending, i, done) && i < |pending| && s == Examine(c, rejects, pending[i])
    requires pending[i].pendingBlocks == {} || !MustWait(pending[i], latest)
    ensures Progress(c, rejects, latest, pending, i + 1, done + [s])
  {
    DirectTurn(c, rejects, latest, pending, i);
    var rest := DirectPhase(c, rejects, latest, pending[i + 1..]);
    assert done + ([s] + rest) == (done + [s]) + rest;
  }

  lemma ProgressStop(c: Committee, rejects: Stakes, latest: Round, pending: seq<CommitState>, i: nat,
      done: seq<CommitState>)
    requires Progress(c, rejects, latest, pending, i, done)
    requires i < |pending| ==> pending[i].pendingBlocks != {} && MustWait(pending[i], latest)
    ensures DirectPhase(c, rejects, latest, pending) == done + pending[i..]
  {
    if i < |pending| {
      DirectTurn(c, rejects, latest, pending, i);
    } else {
      assert pending[i..] == [];
    }
  }

  /** Direct finalization over the buffer, stopping at the first commit that has to wait. */
  method DirectFinalize(c: Committee, rejects: Stakes, pending: seq<CommitState>) returns (pending': seq<CommitState>)
    requires pending != [] && AllSound(pending) && AllAvailable(rejects, pending)
    ensures pending' == DirectPhase(c, rejects, pending[|pending| - 1].commit.leader.round, pending)
  {
    var latest := pending[|pending| - 1].commit.leader.round;
    pending' := pending;
    var i := 0;
    assert pending[0..] == pending;
    while i < |pending| && (pending'[i].pendingBlocks == {} || !MustWait(pending'[i], latest))
      invariant i <= |pending| == |pending'| && pending'[i..] == pending[i..]
      invariant Progress(c, rejects, latest, pending, i, pending'[..i])
    {
      SameAt(pending', pending, i);
      assert SoundAt(pending, i);
      var s := DirectFinalizeNext(c, rejects, pending'[i]);
      ProgressStep(c, rejects, latest, pending, i, pending'[..i], s);
      InPlace(pending', pending, i, s);
      pending' := pending'[i := s];
      i := i + 1;
    }
    if i < |pending| {
      SameAt(pending', pending, i);
    }
    ProgressStop(c, rejects, latest, pending, i, pending'[..i]);
    assert pending' == pending'[..i] + pending'[i..];
  }

  lemma SameAt<T>(after: seq<T>, before: seq<T>, i: nat)
    requires i < |before| == |after| && after[i..] == before[i..]
    ensures after[i] == before[i]
  {
    assert after[i] == after[i..][0] && before[i] == before[i..][0];
  }

  lemma InPlace<T>(after: seq<T>, before: seq<T>, i: nat, x: T)
    requires i < |before| == |after| && after[i..] == before[i..]
    ensures after[i := x][..i + 1] == after[..i] + [x] && after[i := x][i + 1..] == before[i + 1..]
  {
    assert after[i := x][i + 1..] == after[i..][1..];
    assert before[i + 1..] == before[i..][1..];
  }

  // ---- Output ----

  /** Pops the decided commits; their blocks leave the links. */
  method PopFinalized(pending: seq<CommitState>, links: Links) returns (p: Popping)
    ensures p == Popped(pending, links)
  {
    p := Popping(pending, links, []);
    while p.pending != [] && IsDecided(p.pending[0])
      invariant Popped(pending, links) == (var q := Popped(p.pending, p.links); q.(outputs := p.outputs + q.outputs))
      decreases |p.pending|
    {
      var s := p.pending[0];
      var links' := RemoveBlocks(p.links, s.commit.blocks);
      p := Popping(p.pending[1..], links', p.outputs + [Output(s)]);
    }
  }

  method RemoveBlocks(links: Links, blocks: seq<Block>) returns (links': Links)
    ensures links' == links - References(blocks)
  {
    links' := links;
    for i := 0 to |blocks|
      invariant links' == links - References(blocks[..i])
    {
      assert blocks[..i + 1] == blocks[..i] + [blocks[i]];
      ReferencesConcat(blocks[..i], [blocks[i]]);
      assert References([blocks[i]]) == {blocks[i].reference};
      links' := links' - {blocks[i].reference};
    }
    assert blocks[..|blocks|] == blocks;
  }

  // ---- Indirect finalization ----

  /** Removes transactions that are no longer pending, and their block with the last of them. */
  method RemovePending(v: Votes, r: BlockRef, gone: set<nat>) returns (v': Votes)
    ensures v' == if r !in v then v else if v[r] - gone == {} then v - {r} else v[r := v[r] - gone]
  {
    if r !in v {
      return v;
    }
    v' := v[r := v[r] - gone];
    if v'[r] == {} {
      v' := v' - {r};
      assert v' == v - {r};
    }
  }

  ghost predicate AllNonEmpty(v: Votes) {
    forall r | r in v :: v[r] != {}
  }

  ghost function Part(v: Votes, done: set<BlockRef>): Votes {
    map r | r in v && r in done :: v[r]
  }

  method RemoveAll(v: Votes, gone: Votes) returns (v': Votes)
    requires AllNonEmpty(v)
    ensures v' == Without(v, gone)
  {
    v' := v;
    var done, rest := {}, gone.Keys;
    WithoutNothing(v, Part(gone, done));
    while rest != {}
      invariant rest + done == gone.Keys && rest !! done
      invariant v' == Without(v, Part(gone, done))
      decreases rest
    {
      var r :| r in rest;
      v' := RemovePending(v', r, gone[r]);
      RemovedNext(v, gone, done, r);
      rest, done := rest - {r}, done + {r};
    }
    assert Part(gone, done) == gone;
  }

  lemma WithoutNothing(v: Votes, gone: Votes)
    requires AllNonEmpty(v) && gone == map[]
    ensures Without(v, gone) == v
  {
    forall r | r in v ensures v[r] - On(gone, r) == v[r] {}
  }

  lemma RemovedNext(v: Votes, gone: Votes, done: set<BlockRef>, r: BlockRef)
    requires AllNonEmpty(v) && r in gone && r !in done
    ensures var w := Without(v, Part(gone, done));
            Without(v, Part(gone, done + {r})) ==
            if r !in w then w else if w[r] - gone[r] == {} then w - {r} else w[r := w[r] - gone[r]]
  {
    var w, w' := Without(v, Part(gone, done)), Without(v, Part(gone, done + {r}));
    forall x | x in v && x != r ensures On(Part(gone, done), x) == On(Part(gone, done + {r}), x) {}
    assert r in v ==> r in w && w[r] == v[r];
  }

  method ExtendAll(v: Votes, more: Votes) returns (v': Votes)
    ensures v' == Merge(v, more)
  {
    v' := v;
    MergeNothing(v);
    var done, rest := {}, more.Keys;
    assert Part(more, done) == map[];
    while rest != {}
      invariant rest + done == more.Keys && rest !! done
      invariant v' == Merge(v, Part(more, done))
      decreases rest
    {
      var r :| r in rest;
      MergedNext(v, more, done, r);
      v' := v'[r := On(v', r) + more[r]];
      rest, done := rest - {r}, done + {r};
    }
    assert Part(more, done) == more;
  }

  lemma MergedNext(v: Votes, more: Votes, done: set<BlockRef>, r: BlockRef)
    requires r in more && r !in done
    ensures var w := Merge(v, Part(more, done));
            Merge(v, Part(more, done + {r})) == w[r := On(w, r) + more[r]]
  {
    var p, p' := Part(more, done), Part(more, done + {r});
    var w, w' := Merge(v, p), Merge(v, p');
    assert p'.Keys == p.Keys + {r};
    forall x | x in w' ensures w'[x] == w[r := On(w, r) + more[r]][x] {
      if x == r {
        assert On(w, r) == On(v, r) && On(p', r) == more[r];
      } else {
        assert On(p', x) == On(p, x);
      }
    }
  }

  /** Pending transactions whose reject stake has reached a quorum by now. */
  method LateOf(c: Committee, votes: map<nat, nat>, pending: set<nat>) returns (late: set<nat>)
    requires pending <= votes.Keys
    ensures late == Voted(c, votes, pending, true)
  {
    late := {};
    var done, rest := {}, pending;
    while rest != {}
      invariant rest + done == pending && late == Voted(c, votes, done, true)
      decreases rest
    {
      var t :| t in rest;
      VotedNext(c, votes, done, t, true);
      if c.ReachedQuorum(votes[t]) {
        late := late + {t};
      }
      rest, done := rest - {t}, done + {t};
    }
    assert done == pending;
  }

  /** Collects the late rejects of all blocks. */
  method CollectLate(c: Committee, rejects: Stakes, v: Votes) returns (all: Votes)
    requires v.Keys <= rejects.Keys && forall r | r in v :: v[r] <= VotedOn(rejects, r)
    ensures all == Tidy(LateRejects(c, rejects, v))
  {
    all := map[];
    var done, rest := {}, v.Keys;
    while rest != {}
      invariant rest + done == v.Keys && rest !! done
      invariant all == Tidy(map r | r in done :: LateSet(c, rejects, v, r))
      decreases rest
    {
      var r :| r in rest;
      var late := LateOf(c, rejects[r], v[r]);
      assert late == LateSet(c, rejects, v, r);
      TidyLate(c, rejects, v, done, done + {r}, r);
      if late != {} {
        all := all[r := late];
      }
      rest, done := rest - {r}, done + {r};
    }
    assert (map r | r in done :: LateSet(c, rejects, v, r)) == LateRejects(c, rejects, v);
  }

  lemma TidyLate(c: Committee, rejects: Stakes, v: Votes, done: set<BlockRef>, more: set<BlockRef>, r: BlockRef)
    requires more == done + {r} && r !in done
    ensures Tidy(map x | x in more :: LateSet(c, rejects, v, x)) ==
            Tidied(Tidy(map x | x in done :: LateSet(c, rejects, v, x)), r, LateSet(c, rejects, v, r))
  {
    var a, b := Tidy(map x | x in more :: LateSet(c, rejects, v, x)),
      Tidied(Tidy(map x | x in done :: LateSet(c, rejects, v, x)), r, LateSet(c, rejects, v, r));
    assert a.Keys == b.Keys;
  }

  method CheckPending(c: Committee, rejects: Stakes, s: CommitState) returns (s': CommitState)
    requires Sound(s) && Available(rejects, s)
    ensures s' ==
            s.(pendingTransactions := Without(s.pendingTransactions, LateRejects(c, rejects, s.pendingTransactions)),
                     rejectedTransactions := LateRejected(c, rejects, s))
  {
    var all := CollectLate(c, rejects, s.pendingTransactions);
    WithoutTidy(s.pendingTransactions, LateRejects(c, rejects, s.pendingTransactions));
    var pending := RemoveAll(s.pendingTransactions, all);
    var rejected := ExtendAll(s.rejectedTransactions, all);
    s' := s.(pendingTransactions := pending, rejectedTransactions := rejected);
  }

  lemma WithoutTidy(v: Votes, gone: Votes)
    ensures Without(v, Tidy(gone)) == Without(v, gone)
  {
    forall r | r in v ensures On(Tidy(gone), r) == On(gone, r) {}
  }

  method FinalizeAccepted(c: Committee, links: Links, v: Votes) returns (v': Votes)
    requires AllNonEmpty(v) && v.Keys <= links.Keys && Closed(links)
    ensures v' == Without(v, AcceptedOf(c, links, v))
  {
    var all: Votes := map[];
    var done, rest := {}, v.Keys;
    while rest != {}
      invariant rest + done == v.Keys && rest !! done
      invariant all == Tidy(map r | r in done :: AcceptedSet(c, links, v, r))
      decreases rest
    {
      var r :| r in rest;
      var accepted := CountAccepts(c, links, r, v[r]);
      assert accepted == AcceptedSet(c, links, v, r);
      TidyAccepted(c, links, v, done, done + {r}, r);
      if accepted != {} {
        all := all[r := accepted];
      }
      rest, done := rest - {r}, done + {r};
    }
    assert (map r | r in done :: AcceptedSet(c, links, v, r)) == AcceptedOf(c, links, v);
    WithoutTidy(v, AcceptedOf(c, links, v));
    v' := RemoveAll(v, all);
  }

  lemma TidyAccepted(c: Committee, links: Links, v: Votes, done: set<BlockRef>, more: set<BlockRef>, r: BlockRef)
    requires more == done + {r} && r !in done
    ensures Tidy(map x | x in more :: AcceptedSet(c, links, v, x)) ==
            Tidied(Tidy(map x | x in done :: AcceptedSet(c, links, v, x)), r, AcceptedSet(c, links, v, r))
  {
    var a, b := Tidy(map x | x in more :: AcceptedSet(c, links, v, x)),
      Tidied(Tidy(map x | x in done :: AcceptedSet(c, links, v, x)), r, AcceptedSet(c, links, v, r));
    assert a.Keys == b.Keys;
  }

  method FinalizePending(c: Committee, rejects: Stakes, links: Links, latest: Round, s: CommitState)
    returns (s': CommitState)
    requires Sound(s) && Available(rejects, s) && s.pendingTransactions.Keys <= links.Keys && Closed(links)
    ensures s' == IndirectlyFinalized(c, rejects, links, latest, s)
  {
    s' := CheckPending(c, rejects, s);
    var pending := FinalizeAccepted(c, links, s'.pendingTransactions);
    s' := s'.(pendingTransactions := pending);
    if s'.commit.leader.round + INDIRECT_REJECT_DEPTH <= latest {
      var rejected := ExtendAll(s'.rejectedTransactions, s'.pendingTransactions);
      s' := s'.(pendingTransactions := map[], rejectedTransactions := rejected);
    }
  }

  /** Late rejects, then accepted transactions, then the rest if the latest leader is far enough above. */
  method IndirectFinalize(c: Committee, rejects: Stakes, links: Links, latest: Round, s: CommitState)
    returns (s': CommitState)
    requires Sound(s) && Available(rejects, s) && s.pendingTransactions.Keys <= links.Keys && Closed(links)
    ensures s' == IndirectlyFinalized(c, rejects, links, latest, s)
    ensures forall r, t :: t in On(s'.pendingTransactions, r) <==>
            && t in On(s.pendingTransactions, r) && s.commit.leader.round + 3 > latest
            && !c.ReachedQuorum(StakeOn(rejects, r, t)) && !Accepted(c, links, r, t)
    ensures forall r, t :: t in On(s'.rejectedTransactions, r) <==>
            || t in On(s.rejectedTransactions, r)
            || (&& t in On(s.pendingTransactions, r)
                && (|| c.ReachedQuorum(StakeOn(rejects, r, t))
                    || (s.commit.leader.round + 3 <= latest && !Accepted(c, links, r, t))))
  {
    s' := FinalizePending(c, rejects, links, latest, s);
    TurnIs(c, rejects, links, latest, s, s');
  }

  /** The first commit has its blocks among the links. */
  lemma FirstIsLinked(pending: seq<CommitState>, links: Links, latest: Round)
    requires Buffered(pending, links, latest)
    ensures References(pending[0].commit.blocks) <= links.Keys && Closed(links)
  {
    var commits := CommitsOf(pending);
    ReferencesConcat(commits[0].blocks, AllBlocks(commits[1..]));
    forall x | x in links ensures links[x].children <= links.Keys {
      forall y | y in links[x].children ensures y in links {
        NoDanglingChild(AllBlocks(commits), links, x, y);
      }
    }
  }

  /** The first commit of the buffer, looked at again. */
  method IndirectFirst(c: Committee, rejects: Stakes, pending: seq<CommitState>, links: Links, latest: Round)
    returns (first: CommitState)
    requires pending != [] && pending[0].pendingBlocks == {} && AllAvailable(rejects, pending)
    requires Buffered(pending, links, latest)
    ensures first == IndirectlyFinalized(c, rejects, links, latest, pending[0])
    ensures AllAvailable(rejects, [first] + pending[1..])
  {
    FirstIsLinked(pending, links, latest);
    assert SoundAt(pending, 0);
    first := IndirectFinalize(c, rejects, links, latest, pending[0]);
    IndirectKeepsSound(c, rejects, links, latest, pending[0]);
    AvailableReplaced(rejects, pending, first);
  }

  /** One more turn on the first commit. */
  method IndirectNext(c: Committee, rejects: Stakes, pending: seq<CommitState>, links: Links) returns (p: Popping)
    requires |pending| > 1 && pending[0].pendingBlocks == {} && AllAvailable(rejects, pending)
    requires Buffered(pending, links, pending[|pending| - 1].commit.leader.round)
    ensures p ==
            Popped([IndirectlyFinalized(c, rejects, links, pending[|pending| - 1].commit.leader.round,
              pending[0])] + pending[1..], links)
    ensures AllAvailable(rejects, p.pending) && TurnKeeps(pending, p, pending[|pending| - 1].commit.leader.round)
  {
    var first := IndirectFirst(c, rejects, pending, links, pending[|pending| - 1].commit.leader.round);
    IndirectTurn(c, rejects, pending, links, first, pending[|pending| - 1].commit.leader.round);
    p := PopFinalized([first] + pending[1..], links);
    AvailableSuffix(rejects, [first] + pending[1..], |p.outputs|);
  }

  lemma AvailableSuffix(rejects: Stakes, pending: seq<CommitState>, k: nat)
    requires AllAvailable(rejects, pending) && k <= |pending|
    ensures AllAvailable(rejects, pending[k..])
  {}

  lemma AvailableReplaced(rejects: Stakes, pending: seq<CommitState>, first: CommitState)
    requires pending != [] && AllAvailable(rejects, pending) && Available(rejects, first)
    ensures AllAvailable(rejects, [first] + pending[1..])
  {
    var q := [first] + pending[1..];
    forall i | 0 <= i < |q| ensures Available(rejects, q[i]) {
      assert i > 0 ==> q[i] == pending[i];
    }
  }

  /** What remains to be done, after what was output so far. */
  ghost function Continued(c: Committee, rejects: Stakes, p: Popping): Popping {
    var q := IndirectPhase(c, rejects, p.pending, p.links);
    q.(outputs := p.outputs + q.outputs)
  }

  lemma ContinuedTurn(c: Committee, rejects: Stakes, p: Popping)
    requires |p.pending| > 1 && p.pending[0].pendingBlocks == {}
    ensures var first :=
            IndirectlyFinalized(c, rejects, p.links, p.pending[|p.pending| - 1].commit.leader.round, p.pending[0]);
            var q := Popped([first] + p.pending[1..], p.links);
            Continued(c, rejects, p) == if q.outputs ==
              [] then q.(outputs := p.outputs) else Continued(c, rejects, q.(outputs := p.outputs + q.outputs))
  {
    var first := IndirectlyFinalized(c, rejects, p.links, p.pending[|p.pending| - 1].commit.leader.round, p.pending[0]);
    var q := Popped([first] + p.pending[1..], p.links);
    ThreeParts(p.outputs, q.outputs, IndirectPhase(c, rejects, q.pending, q.links).outputs);
  }

  lemma ThreeParts<T>(x: seq<T>, y: seq<T>, z: seq<T>)
    ensures x + (y + z) == (x + y) + z && x + [] == x
  {}

  ghost predicate InTurn(rejects: Stakes, p: Popping, latest: Round) {
    AllAvailable(rejects, p.pending) && (p.pending != [] ==> Buffered(p.pending, p.links, latest))
  }

  /** One turn; it was the last if nothing came out. */
  method IndirectStep(c: Committee, rejects: Stakes, p: Popping, ghost latest: Round) returns (p': Popping, last: bool)
    requires InTurn(rejects, p, latest) && |p.pending| > 1 && p.pending[0].pendingBlocks == {}
    ensures InTurn(rejects, p', latest) && (last || |p'.pending| < |p.pending|)
    ensures Continued(c, rejects, p) == if last then p' else Continued(c, rejects, p')
  {
    ContinuedTurn(c, rejects, p);
    var q := IndirectNext(c, rejects, p.pending, p.links);
    last := q.outputs == [];
    p' := q.(outputs := p.outputs + q.outputs);
    assert last ==> p.outputs + q.outputs == p.outputs;
  }

  method IndirectFinalizeAll(c: Committee, rejects: Stakes, pending: seq<CommitState>, links: Links)
    returns (p: Popping)
    requires pending != [] && Buffered(pending, links, pending[|pending| - 1].commit.leader.round)
    requires AllAvailable(rejects, pending)
    ensures p == IndirectPhase(c, rejects, pending, links) && AllAvailable(rejects, p.pending)
  {
    ghost var latest := pending[|pending| - 1].commit.leader.round;
    p := Popping(pending, links, []);
    while |p.pending| > 1 && p.pending[0].pendingBlocks == {}
      invariant InTurn(rejects, p, latest) && IndirectPhase(c, rejects, pending, links) == Continued(c, rejects, p)
      decreases |p.pending|
    {
      var last;
      p, last := IndirectStep(c, rejects, p, latest);
      if last {
        return;
      }
    }
  }

  /** The new commit joins the buffer; direct finalization and its output. */
  method DirectPass(c: Committee, f: Finalizer, commit: SubDag, rejects: Stakes) returns (p: Popping)
    requires AllSound(f.pending) && AllAvailable(rejects, f.pending) && References(commit.blocks) <= rejects.Keys
    ensures p == Popped(DirectPhase(c, rejects, commit.leader.round, f.pending + [NewCommit(commit)]), f.links)
    ensures AllAvailable(rejects, p.pending)
  {
    var queue := f.pending + [NewCommit(commit)];
    NewIsReady(rejects, f.pending, commit);
    var direct := DirectFinalize(c, rejects, queue);
    DirectKeepsReady(c, rejects, commit.leader.round, queue);
    p := PopFinalized(direct, f.links);
  }

  method LinkNew(links: Links, blocks: seq<Block>) returns (links': Links)
    ensures links' == LinkCommit(links, blocks)
  {
    LinkAllEnters(links, Sort(false, blocks));
    links' := LinkBlocks(links, blocks);
    links' := InheritRejectVotes(links', blocks);
  }

  method ProcessPhases(c: Committee, f: Finalizer, commit: SubDag, rejects: Stakes) returns (p: Popping)
    requires Inv(f) && Next(f, commit) && AllAvailable(rejects, f.pending) && References(commit.blocks) <= rejects.Keys
    ensures p == Processed(c, f, commit, rejects) && AllAvailable(rejects, p.pending)
  {
    p := DirectPass(c, f, commit, rejects);
    DirectPart(c, f, commit, rejects);
    if p.pending == [] {
      return;
    }
    var links := LinkNew(p.links, commit.blocks);
    var rest := IndirectFinalizeAll(c, rejects, p.pending, links);
    p := rest.(outputs := p.outputs + rest.outputs);
  }

  /** One commit: direct finalization, then indirect finalization of what is left. */
  method ProcessCommit(c: Committee, f: Finalizer, commit: SubDag, rejects: Stakes) returns (p: Popping)
    requires Inv(f) && Next(f, commit) && AllAvailable(rejects, f.pending) && References(commit.blocks) <= rejects.Keys
    ensures p == Processed(c, f, commit, rejects) && AllAvailable(rejects, p.pending)
    ensures WaitsInOrder(p.pending, commit.leader.round) && Quiet(c, rejects, p.pending, p.links)
  {
    ProcessedEnds(c, f, commit, rejects);
    p := ProcessPhases(c, f, commit, rejects);
  }
}
