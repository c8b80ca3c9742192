/**
 * Paths over the road list: a path is a sequence of road positions. This
 * module defines when a path is a walk between two intersections, its live
 * weight and its static length, and the predecessor chains that
 * `PathFinder.buildPath` follows.
 */
module Walks {
  import opened Costs
  import opened Intersections
  import opened Roads

  type Path = seq<nat>

  /** Every road length is non-negative, so every weight is. */
  predicate NonNegativeLengths(roads: seq<Road>) {
    forall i :: 0 <= i < |roads| ==> roads[i].length >= 0.0
  }

  /** Every entry names a road of the list. */
  predicate ValidPath(roads: seq<Road>, p: Path) {
    forall k :: 0 <= k < |p| ==> p[k] < |roads|
  }

  /** Consecutive roads meet: each destination is the next road's source. */
  predicate Chained(roads: seq<Road>, p: Path)
    requires ValidPath(roads, p)
  {
    forall k :: 0 <= k < |p| - 1 ==> roads[p[k]].dst == roads[p[k + 1]].src
  }

  /** `p` leads from `s` to `t` (the empty path leads from a node to itself). */
  predicate IsWalk(roads: seq<Road>, p: Path, s: Id, t: Id) {
    && ValidPath(roads, p)
    && (|p| == 0 ==> s == t)
    && (|p| > 0 ==> roads[p[0]].src == s && roads[p[|p| - 1]].dst == t && Chained(roads, p))
  }

  /** A walk extended by one road that leaves its end is a walk to that road's destination. */
  lemma WalkSnoc(roads: seq<Road>, p: Path, e: nat, s: Id, t: Id)
    ensures IsWalk(roads, p + [e], s, t) <==>
      e < |roads| && roads[e].dst == t && IsWalk(roads, p, s, roads[e].src)
  {
    var q := p + [e];
    assert q[..|p|] == p;
    if IsWalk(roads, q, s, t) {
      assert ValidPath(roads, p) by {
        forall k | 0 <= k < |p| ensures p[k] < |roads| { assert q[k] == p[k]; }
      }
      if |p| > 0 {
        assert q[|p| - 1] == p[|p| - 1];
        assert roads[p[|p| - 1]].dst == roads[e].src;
      }
    }
  }

  /** The live weight of a path: the sum of its roads' weights (infinite if one is blocked). */
  function PathWeight(roads: seq<Road>, lit: set<Id>, p: Path): Cost
    requires ValidPath(roads, p)
    decreases |p|
  {
    if |p| == 0 then Fin(0.0)
    else
      assert ValidPath(roads, p[..|p| - 1]);
      Add(PathWeight(roads, lit, p[..|p| - 1]), Weight(roads[p[|p| - 1]], lit))
  }

  /** Weight is additive over concatenation. */
  lemma {:induction false} PathWeightAppend(roads: seq<Road>, lit: set<Id>, p: Path, q: Path)
    requires ValidPath(roads, p) && ValidPath(roads, q)
    ensures ValidPath(roads, p + q)
    ensures PathWeight(roads, lit, p + q) == Add(PathWeight(roads, lit, p), PathWeight(roads, lit, q))
    decreases |q|
  {
    assert ValidPath(roads, p + q);
    if |q| == 0 {
      assert p + q == p;
    } else {
      var q' := q[..|q| - 1];
      assert ValidPath(roads, q');
      assert (p + q)[..|p + q| - 1] == p + q';
      PathWeightAppend(roads, lit, p, q');
      AddAssociative(PathWeight(roads, lit, p), PathWeight(roads, lit, q'), Weight(roads[q[|q| - 1]], lit));
    }
  }

  /** With non-negative lengths every path weighs at least zero. */
  lemma {:induction false} PathWeightNonNeg(roads: seq<Road>, lit: set<Id>, p: Path)
    requires NonNegativeLengths(roads) && ValidPath(roads, p)
    ensures NonNeg(PathWeight(roads, lit, p))
    decreases |p|
  {
    if |p| > 0 {
      assert ValidPath(roads, p[..|p| - 1]);
      PathWeightNonNeg(roads, lit, p[..|p| - 1]);
    }
  }

  /** The static length of a path: the sum of its roads' lengths. */
  function PathLength(roads: seq<Road>, p: Path): real
    requires ValidPath(roads, p)
    decreases |p|
  {
    if |p| == 0 then 0.0
    else
      assert ValidPath(roads, p[..|p| - 1]);
      PathLength(roads, p[..|p| - 1]) + roads[p[|p| - 1]].length
  }

  /** Length is additive over concatenation. */
  lemma {:induction false} PathLengthAppend(roads: seq<Road>, p: Path, q: Path)
    requires ValidPath(roads, p) && ValidPath(roads, q)
    ensures ValidPath(roads, p + q)
    ensures PathLength(roads, p + q) == PathLength(roads, p) + PathLength(roads, q)
    decreases |q|
  {
    assert ValidPath(roads, p + q);
    if |q| == 0 {
      assert p + q == p;
    } else {
      var q' := q[..|q| - 1];
      assert ValidPath(roads, q');
      assert (p + q)[..|p + q| - 1] == p + q';
      PathLengthAppend(roads, p, q');
    }
  }

  /** The live weight of a path never falls below its static length. */
  lemma {:induction false} LengthBelowWeight(roads: seq<Road>, lit: set<Id>, p: Path)
    requires NonNegativeLengths(roads) && ValidPath(roads, p)
    ensures Le(Fin(PathLength(roads, p)), PathWeight(roads, lit, p))
    decreases |p|
  {
    if |p| > 0 {
      var p' := p[..|p| - 1];
      assert ValidPath(roads, p');
      LengthBelowWeight(roads, lit, p');
      WeightAtLeastLength(roads[p[|p| - 1]], lit);
    }
  }

  /**
   * `p` is exactly the predecessor chain that ends at `v`: walking back
   * from `v` through `prev` yields the roads of `p` from last to first and
   * stops at a node without a predecessor.
   */
  predicate IsChain(prev: map<Id, nat>, roads: seq<Road>, p: Path, v: Id)
    decreases |p|
  {
    if |p| == 0 then v !in prev
    else
      && v in prev
      && prev[v] < |roads|
      && p[|p| - 1] == prev[v]
      && IsChain(prev, roads, p[..|p| - 1], roads[prev[v]].src)
  }

  /** A chain only names roads of the list. */
  lemma {:induction false} ChainValid(prev: map<Id, nat>, roads: seq<Road>, p: Path, v: Id)
    requires IsChain(prev, roads, p, v)
    ensures ValidPath(roads, p)
    decreases |p|
  {
    if |p| > 0 {
      ChainValid(prev, roads, p[..|p| - 1], roads[prev[v]].src);
      assert forall k :: 0 <= k < |p| - 1 ==> p[k] == p[..|p| - 1][k];
    }
  }

  /** Each node has at most one chain. */
  lemma {:induction false} ChainUnique(prev: map<Id, nat>, roads: seq<Road>, p: Path, q: Path, v: Id)
    requires IsChain(prev, roads, p, v) && IsChain(prev, roads, q, v)
    ensures p == q
    decreases |p|
  {
    if |p| > 0 {
      assert |q| > 0;
      ChainUnique(prev, roads, p[..|p| - 1], q[..|q| - 1], roads[prev[v]].src);
      assert p == p[..|p| - 1] + [p[|p| - 1]];
      assert q == q[..|q| - 1] + [q[|q| - 1]];
    } else {
      assert |q| == 0;
    }
  }

  /** Walking back from `v` through `prev` stops: `v` has a (finite) chain. */
  ghost predicate HasChain(prev: map<Id, nat>, roads: seq<Road>, v: Id) {
    exists p :: IsChain(prev, roads, p, v)
  }

  /**
   * A map whose predecessor roads descend along a rank has a finite chain
   * from every node: walking back cannot cycle.
   */
  predicate RankedBy(prev: map<Id, nat>, roads: seq<Road>, rank: map<Id, nat>) {
    forall w {:trigger prev[w]} :: w in prev ==>
      && w in rank
      && prev[w] < |roads|
      && (roads[prev[w]].src in prev ==> roads[prev[w]].src in rank && rank[roads[prev[w]].src] < rank[w])
  }

  lemma {:induction false} ChainExists(prev: map<Id, nat>, roads: seq<Road>, rank: map<Id, nat>, v: Id)
    requires RankedBy(prev, roads, rank)
    ensures HasChain(prev, roads, v)
    decreases if v in rank then rank[v] else 0
  {
    if v !in prev {
      assert IsChain(prev, roads, [], v);
    } else {
      var y := roads[prev[v]].src;
      var p': Path;
      if y in prev {
        ChainExists(prev, roads, rank, y);
        p' :| IsChain(prev, roads, p', y);
      } else {
        p' := [];
        assert IsChain(prev, roads, p', y);
      }
      var p := p' + [prev[v]];
      assert p[..|p| - 1] == p';
      assert IsChain(prev, roads, p, v);
    }
  }
}
