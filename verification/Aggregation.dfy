/** What the minimal covering prefix set of an address set is, independently of any algorithm. */
module Aggregation {
  import opened Ipv4
  import opened Ordering

  type Addresses = iset<int>

  ghost predicate Within(b: Block, s: Addresses) {
    forall x :: Covers(b, x) ==> x in s
  }

  /** `b` is a prefix inside `s` that no larger prefix inside `s` contains. */
  ghost predicate MaximalIn(b: Block, s: Addresses) {
    && Aligned(b)
    && Within(b, s)
    && (forall c: Block :: Aligned(c) && Within(c, s) && Covers(c, b.low) ==> c.size <= b.size)
  }

  ghost predicate CoveredBy(x: int, blocks: seq<Block>) {
    exists i :: 0 <= i < |blocks| && Covers(blocks[i], x)
  }

  /** The address set a list of prefixes denotes. */
  ghost function Union(blocks: seq<Block>): Addresses {
    iset x | CoveredBy(x, blocks)
  }

  ghost predicate AllAligned(blocks: seq<Block>) {
    forall i :: 0 <= i < |blocks| ==> Aligned(blocks[i])
  }

  /** `blocks` lists the maximal prefixes of `s`, each once. */
  ghost predicate ListsMaximal(blocks: seq<Block>, s: Addresses) {
    && Distinct(blocks)
    && (forall b :: b in blocks <==> MaximalIn(b, s))
  }

  lemma MaximalDisjoint(a: Block, b: Block, x: int, s: Addresses)
    requires MaximalIn(a, s) && MaximalIn(b, s) && Covers(a, x) && Covers(b, x)
    ensures a == b
  {
    if a.size <= b.size {
      Laminar(a, b, x);
      assert Covers(b, a.low);
      Laminar(b, a, x);
    } else {
      Laminar(b, a, x);
      assert Covers(a, b.low);
      assert false;
    }
  }

  /** Every prefix inside `s` extends to a maximal one. */
  lemma ExtendToMaximal(b: Block, s: Addresses) returns (m: Block)
    requires Aligned(b) && Within(b, s)
    ensures MaximalIn(m, s) && b.size <= m.size && Covers(m, b.low)
    decreases 32 - b.size
  {
    if c: Block :| Aligned(c) && Within(c, s) && Covers(c, b.low) && c.size > b.size {
      Laminar(b, c, b.low);
      m := ExtendToMaximal(c, s);
      Laminar(c, m, c.low);
    } else {
      m := b;
    }
  }

  lemma PointInMaximal(x: int, s: Addresses) returns (m: Block)
    requires x in s && 0 <= x < SPACE
    ensures MaximalIn(m, s) && Covers(m, x)
  {
    m := ExtendToMaximal(Block(x, 0), s);
  }

  /** The maximal prefixes cover the set exactly. */
  lemma MaximalCoverExactly(blocks: seq<Block>, s: Addresses)
    requires ListsMaximal(blocks, s)
    requires forall x :: x in s ==> 0 <= x < SPACE
    ensures Union(blocks) == s
  {
    forall x ensures x in Union(blocks) <==> x in s {
      if x in s {
        var m := PointInMaximal(x, s);
        assert m in blocks;
      }
      if CoveredBy(x, blocks) {
        var i :| 0 <= i < |blocks| && Covers(blocks[i], x);
        assert blocks[i] in blocks;
      }
    }
  }

  /** Within one exact cover, each maximal prefix owns a cover element that starts inside it. */
  lemma Representative(m: Block, cover: seq<Block>, s: Addresses) returns (j: nat)
    requires MaximalIn(m, s) && AllAligned(cover) && Union(cover) == s
    ensures j < |cover| && m.low <= cover[j].low && End(cover[j]) <= End(m)
  {
    assert Covers(m, m.low);
    assert m.low in Union(cover);
    j :| 0 <= j < |cover| && Covers(cover[j], m.low);
    assert Within(cover[j], s) by {
      forall x | Covers(cover[j], x) ensures x in s { assert CoveredBy(x, cover); }
    }
    Laminar(cover[j], m, m.low);
  }

  lemma Representatives(blocks: seq<Block>, cover: seq<Block>, s: Addresses) returns (owner: seq<nat>)
    requires forall i :: 0 <= i < |blocks| ==> MaximalIn(blocks[i], s)
    requires AllAligned(cover) && Union(cover) == s
    ensures |owner| == |blocks|
    ensures forall i :: 0 <= i < |owner| ==>
      owner[i] < |cover| && blocks[i].low <= cover[owner[i]].low && End(cover[owner[i]]) <= End(blocks[i])
  {
    owner := [];
    while |owner| < |blocks|
      invariant |owner| <= |blocks|
      invariant forall i :: 0 <= i < |owner| ==>
        owner[i] < |cover| && blocks[i].low <= cover[owner[i]].low && End(cover[owner[i]]) <= End(blocks[i])
    {
      var j := Representative(blocks[|owner|], cover, s);
      owner := owner + [j];
    }
  }

  /** Pigeonhole: distinct naturals below `n` number at most `n`. */
  lemma {:induction false} DistinctBelow(s: seq<nat>, n: nat)
    requires Distinct(s) && forall i :: 0 <= i < |s| ==> s[i] < n
    ensures |s| <= n
    decreases n
  {
    assert s == [] || s[0] < n;
    if k :| 0 <= k < |s| && s[k] == n - 1 {
      var rest := s[..k] + s[k + 1..];
      assert forall i :: 0 <= i < |rest| ==> rest[i] == if i < k then s[i] else s[i + 1];
      DistinctBelow(rest, n - 1);
    } else if n > 0 {
      DistinctBelow(s, n - 1);
    }
  }

  /** Minimality: no prefix list denoting `s` is shorter than the list of its maximal prefixes. */
  lemma MaximalIsMinimal(blocks: seq<Block>, cover: seq<Block>, s: Addresses)
    requires ListsMaximal(blocks, s)
    requires AllAligned(cover) && Union(cover) == s
    ensures |blocks| <= |cover|
  {
    forall i | 0 <= i < |blocks| ensures MaximalIn(blocks[i], s) { assert blocks[i] in blocks; }
    var owner := Representatives(blocks, cover, s);
    forall i, j | 0 <= i < j < |owner| ensures owner[i] != owner[j] {
      if owner[i] == owner[j] {
        MaximalDisjoint(blocks[i], blocks[j], cover[owner[i]].low, s);
        assert false;
      }
    }
    DistinctBelow(owner, |cover|);
  }
}
