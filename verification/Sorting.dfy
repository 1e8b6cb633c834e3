/** The stable sorts of blocks by round, or by round and author, that several components apply. */
module Sorting {
  import opened Types

  /** `a` may stand before `b`: by round, and within a round by author if that counts. */
  predicate Le(byAuthor: bool, a: Block, b: Block) {
    || a.reference.round < b.reference.round
    || (a.reference.round == b.reference.round && (byAuthor ==> a.reference.author <= b.reference.author))
  }

  predicate Ascends(byAuthor: bool, blocks: seq<Block>) {
    forall i, j | 0 <= i < j < |blocks| :: Le(byAuthor, blocks[i], blocks[j])
  }

  /** The position after the last of the first `n` blocks that may stand before `b`. */
  function Position(byAuthor: bool, b: Block, sorted: seq<Block>, n: nat): (k: nat)
    requires n <= |sorted|
    ensures k <= n && (k > 0 ==> Le(byAuthor, sorted[k - 1], b))
    ensures forall i | k <= i < n :: !Le(byAuthor, sorted[i], b)
  {
    if n == 0 || Le(byAuthor, sorted[n - 1], b) then n else Position(byAuthor, b, sorted, n - 1)
  }

  function Insert(byAuthor: bool, b: Block, sorted: seq<Block>): seq<Block> {
    var k := Position(byAuthor, b, sorted, |sorted|);
    sorted[..k] + [b] + sorted[k..]
  }

  lemma InsertAscends(byAuthor: bool, b: Block, sorted: seq<Block>)
    requires Ascends(byAuthor, sorted)
    ensures Ascends(byAuthor, Insert(byAuthor, b, sorted))
  {
    var k, r := Position(byAuthor, b, sorted, |sorted|), Insert(byAuthor, b, sorted);
    forall i, j | 0 <= i < j < |r| ensures Le(byAuthor, r[i], r[j]) {
      if j < k {
        assert r[i] == sorted[i] && r[j] == sorted[j];
      } else if j == k {
        assert r[i] == sorted[i] && r[j] == b;
        assert i < k - 1 ==> Le(byAuthor, sorted[i], sorted[k - 1]);
      } else {
        assert r[j] == sorted[j - 1];
        if i < k {
          assert r[i] == sorted[i];
        } else if i > k {
          assert r[i] == sorted[i - 1];
        } else {
          assert r[i] == b;
        }
      }
    }
  }

  lemma InsertIsPermutation(byAuthor: bool, b: Block, sorted: seq<Block>)
    ensures multiset(Insert(byAuthor, b, sorted)) == multiset(sorted) + multiset{b}
  {
    var k := Position(byAuthor, b, sorted, |sorted|);
    assert sorted == sorted[..k] + sorted[k..];
  }

  lemma SortStep(byAuthor: bool, blocks: seq<Block>, front: seq<Block>)
    requires blocks != [] && Ascends(byAuthor, front) && multiset(front) == multiset(blocks[..|blocks| - 1])
    ensures var r := Insert(byAuthor, blocks[|blocks| - 1], front);
            Ascends(byAuthor, r) && multiset(r) == multiset(blocks)
  {
    var last := |blocks| - 1;
    InsertAscends(byAuthor, blocks[last], front);
    InsertIsPermutation(byAuthor, blocks[last], front);
    assert blocks == blocks[..last] + [blocks[last]];
  }

  function Sort(byAuthor: bool, blocks: seq<Block>): (r: seq<Block>)
    ensures Ascends(byAuthor, r) && multiset(r) == multiset(blocks)
  {
    if blocks == [] then []
    else
      var last := |blocks| - 1;
      var front := Sort(byAuthor, blocks[..last]);
      SortStep(byAuthor, blocks, front);
      Insert(byAuthor, blocks[last], front)
  }

  lemma SortKeepsMembers(byAuthor: bool, blocks: seq<Block>)
    ensures |Sort(byAuthor, blocks)| == |blocks|
    ensures forall b :: b in Sort(byAuthor, blocks) <==> b in blocks
  {
    var r := Sort(byAuthor, blocks);
    assert |multiset(r)| == |multiset(blocks)|;
    forall b ensures b in r <==> b in blocks {
      assert b in r <==> b in multiset(r);
      assert b in blocks <==> b in multiset(blocks);
    }
  }

  lemma InsertIsDistinct(byAuthor: bool, b: Block, sorted: seq<Block>)
    requires DistinctReferences(sorted) && forall x | x in sorted :: x.reference != b.reference
    ensures DistinctReferences(Insert(byAuthor, b, sorted))
  {
    var k, r := Position(byAuthor, b, sorted, |sorted|), Insert(byAuthor, b, sorted);
    forall i, j | 0 <= i < j < |r| ensures r[i].reference != r[j].reference {
      assert i < k ==> r[i] == sorted[i];
      assert i > k ==> r[i] == sorted[i - 1];
      assert j < k ==> r[j] == sorted[j];
      assert j > k ==> r[j] == sorted[j - 1];
    }
  }

  lemma {:induction false} SortedIsDistinct(byAuthor: bool, blocks: seq<Block>)
    requires DistinctReferences(blocks)
    ensures DistinctReferences(Sort(byAuthor, blocks))
    decreases |blocks|
  {
    if blocks != [] {
      var last := |blocks| - 1;
      var front := Sort(byAuthor, blocks[..last]);
      SortedIsDistinct(byAuthor, blocks[..last]);
      SortKeepsMembers(byAuthor, blocks[..last]);
      forall b | b in front ensures b.reference != blocks[last].reference {
        assert b in blocks[..last];
      }
      InsertIsDistinct(byAuthor, blocks[last], front);
    }
  }

  /** There is one way to sort blocks of which no two are level. */
  lemma {:induction false} SortedIsUnique(byAuthor: bool, s: seq<Block>, t: seq<Block>)
    requires Ascends(byAuthor, s) && Ascends(byAuthor, t) && DistinctReferences(s) && DistinctReferences(t)
    requires forall b :: b in s <==> b in t
    requires forall a, b | a in s && b in s && Le(byAuthor, a, b) && Le(byAuthor, b, a) :: a == b
    ensures s == t
    decreases |s|
  {
    if |s| > 0 && |t| > 0 {
      var n, m := |s| - 1, |t| - 1;
      assert s[n] in s && s[n] in t && t[m] in t && t[m] in s;
      assert s[n] == t[m];
      assert s == s[..n] + [s[n]] && t == t[..m] + [t[m]];
      forall b ensures b in s[..n] <==> b in t[..m] {
        assert b in s <==> b in t;
      }
      SortedIsUnique(byAuthor, s[..n], t[..m]);
    } else if s + t != [] {
      var b := SomeMember(s + t);
    }
  }

  lemma SomeMember(s: seq<Block>) returns (b: Block)
    requires s != []
    ensures b in s
  {
    b := s[0];
  }

  lemma PrefixStep(blocks: seq<Block>, i: nat)
    requires i < |blocks|
    ensures blocks[..i + 1] == blocks[..i] + [blocks[i]] && blocks[i] in blocks
  {}
}
