/**
 * The rest of `PathFinder`: rebuilding a path from the predecessor map,
 * comparing paths, summing their lengths, and the "top fastest paths"
 * search built on `findShortestPath`.
 */
module PathFinder {
  import opened Wrappers
  import opened Costs
  import opened Intersections
  import opened Roads
  import opened Walks
  import opened ShortestPath

  /**
   * `buildPath`: follow the predecessor roads back from `goal` until a node
   * without one, and return them in travel order (prepending each road
   * stands for Java's append followed by `Collections.reverse`). The Java
   * loop runs forever on a cyclic map, so the caller must supply a map in
   * which the walk back from `goal` stops.
   */
  method BuildPath(prev: map<Id, nat>, roads: seq<Road>, goal: Id) returns (path: Path)
    requires HasChain(prev, roads, goal)
    ensures IsChain(prev, roads, path, goal)
    ensures |path| == 0 <==> goal !in prev
  {
    ghost var full :| IsChain(prev, roads, full, goal);
    ghost var rest := full;
    path := [];
    var current := goal;
    while current in prev
      invariant IsChain(prev, roads, rest, current)
      invariant full == rest + path
      invariant |path| > 0 ==> goal in prev
      invariant path == [] ==> current == goal
      decreases |rest|
    {
      var road := prev[current];
      path := [road] + path;
      rest := rest[..|rest| - 1];
      current := roads[road].src;
    }
    assert |rest| == 0 && rest + path == path;
  }

  /**
   * `findShortestPath` followed by `buildPath`, the route the application
   * highlights: a shortest walk from `start` to `goal`, or empty when
   * `goal` is `start` or cannot be reached through unblocked roads.
   */
  method ShortestRoute(roads: seq<Road>, lit: set<Id>, start: Id, goal: Id) returns (path: Path)
    requires NonNegativeLengths(roads)
    ensures |path| > 0 ==> IsShortestWalk(roads, lit, path, start, goal)
    ensures |path| > 0 ==> start != goal && PathWeight(roads, lit, path).Fin?
    ensures |path| == 0 ==> start == goal || forall q :: IsWalk(roads, q, start, goal) ==> PathWeight(roads, lit, q) == Inf
    ensures start == goal ==> path == []
  {
    var prev := FindShortestPath(roads, lit, start, goal);
    if goal !in prev {
      assert IsChain(prev, roads, [], goal);
    }
    path := BuildPath(prev, roads, goal);
    if |path| > 0 {
      ChainFinite(prev, roads, lit, path, goal);
    }
  }

  /** A predecessor chain uses only unblocked roads, so its weight is finite. */
  lemma {:induction false} ChainFinite(prev: map<Id, nat>, roads: seq<Road>, lit: set<Id>, p: Path, v: Id)
    requires PrevWellFormed(roads, prev) && IsChain(prev, roads, p, v)
    ensures ValidPath(roads, p) && PathWeight(roads, lit, p).Fin?
    decreases |p|
  {
    ChainValid(prev, roads, p, v);
    if |p| > 0 {
      ChainFinite(prev, roads, lit, p[..|p| - 1], roads[prev[v]].src);
      assert !roads[p[|p| - 1]].blocked;
    }
  }

  /** Two roads join the same pair of intersections, as `arePathsEqual` compares them. */
  predicate SameEnds(a: Road, b: Road) {
    a.src == b.src && a.dst == b.dst
  }

  /** Two paths visit the same intersections in the same order. */
  predicate SameRoute(roads: seq<Road>, p: Path, q: Path)
    requires ValidPath(roads, p) && ValidPath(roads, q)
  {
    |p| == |q| && forall k :: 0 <= k < |p| ==> SameEnds(roads[p[k]], roads[q[k]])
  }

  /** `arePathsEqual`: equal lengths and, road by road, the same source and destination. */
  method ArePathsEqual(roads: seq<Road>, p: Path, q: Path) returns (r: bool)
    requires ValidPath(roads, p) && ValidPath(roads, q)
    ensures r <==> |p| == |q| && forall k :: 0 <= k < |p| ==> SameEnds(roads[p[k]], roads[q[k]])
  {
    if |p| != |q| {
      return false;
    }
    var k := 0;
    while k < |p|
      invariant 0 <= k <= |p|
      invariant forall j :: 0 <= j < k ==> SameEnds(roads[p[j]], roads[q[j]])
    {
      var a, b := roads[p[k]], roads[q[k]];
      if a.src != b.src || a.dst != b.dst {
        return false;
      }
      k := k + 1;
    }
    return true;
  }

  /** Route equality is reflexive. */
  lemma SameRouteReflexive(roads: seq<Road>, p: Path)
    requires ValidPath(roads, p)
    ensures SameRoute(roads, p, p)
  {
  }

  /**
   * Route equality is coarser than the duplicate test: two parallel roads
   * make different paths with the same route.
   */
  lemma ParallelRoadsSameRoute(roads: seq<Road>)
    requires |roads| >= 2 && SameEnds(roads[0], roads[1])
    ensures ValidPath(roads, [0]) && ValidPath(roads, [1])
    ensures SameRoute(roads, [0], [1]) && [0] != [1]
  {
  }

  /** Route equality is symmetric and transitive. */
  lemma SameRouteEquivalence(roads: seq<Road>, p: Path, q: Path, s: Path)
    requires ValidPath(roads, p) && ValidPath(roads, q) && ValidPath(roads, s)
    ensures SameRoute(roads, p, q) ==> SameRoute(roads, q, p)
    ensures SameRoute(roads, p, q) && SameRoute(roads, q, s) ==> SameRoute(roads, p, s)
  {
  }

  /** Paths with the same route are walks between the same intersections. */
  lemma {:induction false} SameRouteSameWalk(roads: seq<Road>, p: Path, q: Path, a: Id, b: Id)
    requires ValidPath(roads, p) && ValidPath(roads, q) && SameRoute(roads, p, q)
    ensures IsWalk(roads, p, a, b) <==> IsWalk(roads, q, a, b)
  {
    if |p| > 0 {
      assert SameEnds(roads[p[0]], roads[q[0]]);
      assert SameEnds(roads[p[|p| - 1]], roads[q[|q| - 1]]);
      if Chained(roads, p) {
        forall k | 0 <= k < |q| - 1
          ensures roads[q[k]].dst == roads[q[k + 1]].src
        {
          assert SameEnds(roads[p[k]], roads[q[k]]);
          assert SameEnds(roads[p[k + 1]], roads[q[k + 1]]);
        }
      }
      if Chained(roads, q) {
        forall k | 0 <= k < |p| - 1
          ensures roads[p[k]].dst == roads[p[k + 1]].src
        {
          assert SameEnds(roads[p[k]], roads[q[k]]);
          assert SameEnds(roads[p[k + 1]], roads[q[k + 1]]);
        }
      }
    }
  }

  /**
   * `isDuplicatePath`: `List.equals` compares the roads themselves (by
   * identity, as `Road` keeps `Object.equals`), so a duplicate is the same
   * sequence of road positions.
   */
  method IsDuplicatePath(paths: seq<Path>, newPath: Path) returns (r: bool)
    ensures r <==> newPath in paths
  {
    var k := 0;
    while k < |paths|
      invariant 0 <= k <= |paths|
      invariant newPath !in paths[..k]
    {
      if paths[k] == newPath {
        return true;
      }
      assert paths[..k + 1] == paths[..k] + [paths[k]];
      k := k + 1;
    }
    assert paths[..k] == paths;
    return false;
  }

  /** `calculatePathDistance`: the sum of the road lengths, front to back. */
  method CalculatePathDistance(roads: seq<Road>, path: Path) returns (total: real)
    requires ValidPath(roads, path)
    ensures total == PathLength(roads, path)
    ensures NonNegativeLengths(roads) ==> total >= 0.0
  {
    total := 0.0;
    var k := 0;
    while k < |path|
      invariant 0 <= k <= |path|
      invariant ValidPath(roads, path[..k])
      invariant total == PathLength(roads, path[..k])
      invariant NonNegativeLengths(roads) ==> total >= 0.0
    {
      assert path[..k + 1][..k] == path[..k];
      total := total + roads[path[k]].length;
      k := k + 1;
    }
    assert path[..k] == path;
  }

  /**
   * The retry loop of `findTopFastestPaths` as written, on `route`, the
   * path each iteration rebuilds (the search is deterministic and the roads
   * do not change, so every iteration rebuilds the same one). An empty or
   * repeated path executes `i--; continue`, so `i` comes back to the same
   * value. `fuel` bounds the iterations; `None` means it ran out.
   */
  function TopPathsAsWritten(route: Path, topN: int, i: int, top: seq<Path>, fuel: nat): (r: Option<seq<Path>>)
    ensures r.Some? ==> top <= r.value && forall k :: |top| <= k < |r.value| ==> r.value[k] == route
    ensures r.Some? && |r.value| > |top| ==> |route| > 0 && route !in top
    decreases fuel
  {
    if i >= topN then Some(top)
    else if fuel == 0 then None
    else if |route| == 0 || route in top then
      var i' := i - 1;
      TopPathsAsWritten(route, topN, i' + 1, top, fuel - 1)
    else TopPathsAsWritten(route, topN, i + 1, top + [route], fuel - 1)
  }

  /** Whatever the as-written loop returns is exactly `topN` distinct, non-empty paths (or the `i` it began with). */
  lemma {:induction false} TopPathsAsWrittenSafe(route: Path, topN: int, i: int, top: seq<Path>, fuel: nat)
    requires 0 <= i && |top| == i
    requires forall k :: 0 <= k < |top| ==> |top[k]| > 0
    requires forall j, k :: 0 <= j < k < |top| ==> top[j] != top[k]
    ensures match TopPathsAsWritten(route, topN, i, top, fuel)
      case Some(t) =>
        && |t| == (if i >= topN then i else topN)
        && top <= t
        && (forall k :: 0 <= k < |t| ==> |t[k]| > 0)
        && (forall j, k :: 0 <= j < k < |t| ==> t[j] != t[k])
      case None => true
    decreases fuel
  {
    if i < topN && fuel > 0 {
      if |route| == 0 || route in top {
        TopPathsAsWrittenSafe(route, topN, i, top, fuel - 1);
      } else {
        var top' := top + [route];
        forall j, k | 0 <= j < k < |top'|
          ensures top'[j] != top'[k]
        {
          if k == |top| {
            assert top'[j] == top[j];
          }
        }
        TopPathsAsWrittenSafe(route, topN, i + 1, top', fuel - 1);
      }
    }
  }

  /**
   * The loop never ends when it asks for a path it cannot add: with an
   * empty route (no path, or `start == goal`) and `topN >= 1`, or with a
   * real route and `topN >= 2`, every amount of fuel runs out.
   */
  lemma {:induction false} TopPathsAsWrittenDiverges(route: Path, topN: int, fuel: nat)
    requires (|route| == 0 && topN >= 1) || (|route| > 0 && topN >= 2)
    ensures TopPathsAsWritten(route, topN, 0, [], fuel) == None
  {
    if |route| == 0 {
      StuckAt(route, topN, 0, [], fuel);
    } else if fuel > 0 {
      assert [] + [route] == [route];
      StuckAt(route, topN, 1, [route], fuel - 1);
    }
  }

  /** Once the route cannot be added at `i < topN`, the loop stays at `i` until the fuel runs out. */
  lemma {:induction false} StuckAt(route: Path, topN: int, i: int, top: seq<Path>, fuel: nat)
    requires i < topN && (|route| == 0 || route in top)
    ensures TopPathsAsWritten(route, topN, i, top, fuel) == None
    decreases fuel
  {
    if fuel > 0 {
      StuckAt(route, topN, i, top, fuel - 1);
    }
  }

  /**
   * The loop with the evident intent: collect up to `topN` distinct,
   * non-empty paths and stop as soon as the search offers nothing new.
   */
  function TopPaths(route: Path, topN: int, i: int, top: seq<Path>): (r: seq<Path>)
    ensures top <= r && |r| <= |top| + 1
    ensures |r| == |top| + 1 <==> i < topN && |route| > 0 && route !in top
    ensures |r| == |top| + 1 ==> r[|top|] == route
    decreases topN - i
  {
    if i >= topN || |route| == 0 || route in top then top
    else TopPaths(route, topN, i + 1, top + [route])
  }

  /** Starting from nothing, the corrected loop returns the route once when one is wanted and exists. */
  lemma TopPathsResult(route: Path, topN: int)
    ensures TopPaths(route, topN, 0, []) == if topN >= 1 && |route| > 0 then [route] else []
  {
    if topN >= 1 && |route| > 0 {
      assert TopPaths(route, topN, 0, []) == TopPaths(route, topN, 1, [route]);
      assert route in [route];
    }
  }

  /** Wherever the as-written loop finishes, the corrected one returns the same paths. */
  lemma {:induction false} TopPathsAgree(route: Path, topN: int, i: int, top: seq<Path>, fuel: nat)
    requires TopPathsAsWritten(route, topN, i, top, fuel).Some?
    ensures TopPathsAsWritten(route, topN, i, top, fuel) == Some(TopPaths(route, topN, i, top))
    decreases fuel
  {
    if i < topN {
      if |route| == 0 || route in top {
        StuckAt(route, topN, i, top, fuel);
      } else {
        TopPathsAgree(route, topN, i + 1, top + [route], fuel - 1);
      }
    }
  }

  /**
   * `findTopFastestPaths` with the retry loop corrected: at most one path
   * comes back, the shortest route, and only when `topN >= 1` and `goal`
   * is reachable from a different `start`.
   */
  method FindTopFastestPaths(roads: seq<Road>, lit: set<Id>, start: Id, goal: Id, topN: int)
    returns (top: seq<Path>)
    requires NonNegativeLengths(roads)
    ensures |top| <= 1 && (topN < 1 ==> top == [])
    ensures forall p :: p in top ==> |p| > 0 && IsShortestWalk(roads, lit, p, start, goal)
    ensures topN >= 1 && start != goal && (exists q :: IsWalk(roads, q, start, goal) && PathWeight(roads, lit, q).Fin?) <==>
      |top| == 1
  {
    var route := ShortestRoute(roads, lit, start, goal);
    top := TopPaths(route, topN, 0, []);
    TopPathsResult(route, topN);
  }
}
