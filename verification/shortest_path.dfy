/**
 * `PathFinder.findShortestPath`: Dijkstra's search over the live road
 * weights, returning the map from each reached intersection to the road
 * that last improved its distance.
 *
 * Java keeps a priority queue with stale entries and no settled set; with
 * non-negative weights a stale entry never improves a distance, so popping
 * the unsettled node of least distance (ties broken arbitrarily, as the
 * queue leaves them unspecified) is the same search.
 */
module ShortestPath {
  import opened Costs
  import opened Intersections
  import opened Roads
  import opened Walks

  /** Java's `distances.get(v)`: every intersection not yet reached is at +infinity. */
  function Current(dist: map<Id, real>, v: Id): Cost {
    if v in dist then Fin(dist[v]) else Inf
  }

  /** Every predecessor entry `v -> i` names an unblocked road of the list that ends at `v`. */
  predicate PrevWellFormed(roads: seq<Road>, prev: map<Id, nat>) {
    forall v {:trigger prev[v]} :: v in prev ==> prev[v] < |roads| && roads[prev[v]].dst == v && !roads[prev[v]].blocked
  }

  /** `p` leads from `s` to `t` and no walk from `s` to `t` weighs less. */
  ghost predicate IsShortestWalk(roads: seq<Road>, lit: set<Id>, p: Path, s: Id, t: Id) {
    && IsWalk(roads, p, s, t)
    && forall q :: IsWalk(roads, q, s, t) ==> Le(PathWeight(roads, lit, p), PathWeight(roads, lit, q))
  }

  /** Every road out of a settled node has been relaxed. */
  ghost predicate Relaxed(roads: seq<Road>, lit: set<Id>, dist: map<Id, real>, settled: set<Id>) {
    forall i :: 0 <= i < |roads| && roads[i].src in settled && !roads[i].blocked ==>
      && roads[i].src in dist
      && roads[i].dst in dist
      && dist[roads[i].dst] <= dist[roads[i].src] + Weight(roads[i], lit).val
  }

  /** A settled node's distance is no more than the weight of any walk reaching it. */
  ghost predicate SettledOptimal(roads: seq<Road>, lit: set<Id>, start: Id, dist: map<Id, real>, settled: set<Id>) {
    forall s, q :: s in settled && IsWalk(roads, q, start, s) ==>
      s in dist && Le(Fin(dist[s]), PathWeight(roads, lit, q))
  }

  /**
   * Each recorded predecessor leaves a settled node, and the distance it
   * recorded is that node's distance plus the road's weight.
   */
  ghost predicate PrevSound(roads: seq<Road>, lit: set<Id>, start: Id, dist: map<Id, real>,
                      prev: map<Id, nat>, settled: set<Id>) {
    && start !in prev
    && PrevWellFormed(roads, prev)
    && forall v {:trigger prev[v]} :: v in prev ==>
      && v in dist
      && roads[prev[v]].src in settled
      && roads[prev[v]].src in dist
      && dist[v] == dist[roads[prev[v]].src] + Weight(roads[prev[v]], lit).val
  }

  /** The priority queue's `poll`: some unsettled node of least distance. */
  method PickMin(dist: map<Id, real>, frontier: set<Id>) returns (u: Id)
    requires frontier != {} && frontier <= dist.Keys
    ensures u in frontier
    ensures forall f :: f in frontier ==> dist[u] <= dist[f]
  {
    u :| u in frontier;
    var rest := frontier - {u};
    while rest != {}
      invariant rest <= frontier && u in frontier
      invariant forall f :: f in frontier - rest ==> dist[u] <= dist[f]
      decreases |rest|
    {
      var f :| f in rest;
      if dist[f] < dist[u] {
        u := f;
      }
      rest := rest - {f};
    }
  }

  /**
   * The key step of Dijkstra's proof: when `u` is an unsettled node of least
   * distance, every walk from `start` either ends at a settled node or
   * weighs at least `dist[u]`.
   */
  lemma {:induction false} FrontierBound(roads: seq<Road>, lit: set<Id>, start: Id, dist: map<Id, real>,
                                         settled: set<Id>, u: Id, q: Path, x: Id)
    requires NonNegativeLengths(roads)
    requires start in dist && dist[start] == 0.0
    requires settled <= dist.Keys
    requires u in dist && u !in settled
    requires forall f :: f in dist && f !in settled ==> dist[u] <= dist[f]
    requires Relaxed(roads, lit, dist, settled)
    requires SettledOptimal(roads, lit, start, dist, settled)
    requires IsWalk(roads, q, start, x)
    ensures x in settled || Le(Fin(dist[u]), PathWeight(roads, lit, q))
    decreases |q|
  {
    if |q| > 0 {
      var q', e := q[..|q| - 1], q[|q| - 1];
      assert q == q' + [e];
      var y := roads[e].src;
      WalkSnoc(roads, q', e, start, x);
      FrontierBound(roads, lit, start, dist, settled, u, q', y);
      var w := Weight(roads[e], lit);
      assert PathWeight(roads, lit, q) == Add(PathWeight(roads, lit, q'), w);
      if Le(Fin(dist[u]), PathWeight(roads, lit, q')) {
        AddNonNegGrows(PathWeight(roads, lit, q'), w);
      } else if x !in settled && !roads[e].blocked {
        assert y in settled;
        assert x in dist && dist[x] <= dist[y] + w.val;
        assert Le(Fin(dist[y]), PathWeight(roads, lit, q'));
      }
    }
  }

  /** Once nothing is left to settle, every walk of finite weight ends at a settled node. */
  lemma {:induction false} ClosedUnderRoads(roads: seq<Road>, lit: set<Id>, start: Id, dist: map<Id, real>,
                                            settled: set<Id>, q: Path, x: Id)
    requires start in settled && dist.Keys == settled
    requires Relaxed(roads, lit, dist, settled)
    requires IsWalk(roads, q, start, x) && PathWeight(roads, lit, q).Fin?
    ensures x in settled
    decreases |q|
  {
    if |q| > 0 {
      var q', e := q[..|q| - 1], q[|q| - 1];
      assert q == q' + [e];
      WalkSnoc(roads, q', e, start, x);
      ClosedUnderRoads(roads, lit, start, dist, settled, q', roads[e].src);
    }
  }

  /**
   * Under the search's invariants, the predecessor chain of a reached node
   * is a walk from `start` whose weight is the node's distance.
   */
  lemma {:induction false} ChainWeight(roads: seq<Road>, lit: set<Id>, start: Id, dist: map<Id, real>,
                                       prev: map<Id, nat>, settled: set<Id>, p: Path, v: Id)
    requires PrevSound(roads, lit, start, dist, prev, settled)
    requires start in dist && dist[start] == 0.0
    requires forall w :: w in dist && w != start ==> w in prev
    requires v in dist && IsChain(prev, roads, p, v)
    ensures IsWalk(roads, p, start, v)
    ensures PathWeight(roads, lit, p) == Fin(dist[v])
    decreases |p|
  {
    if |p| > 0 {
      var p', e := p[..|p| - 1], p[|p| - 1];
      assert p == p' + [e];
      var y := roads[e].src;
      ChainWeight(roads, lit, start, dist, prev, settled, p', y);
      WalkSnoc(roads, p', e, start, v);
    }
  }

  /** The nodes the search can ever reach: `start` and every road's destination. */
  ghost function Reachable(roads: seq<Road>, start: Id): set<Id> {
    {start} + set i | 0 <= i < |roads| :: roads[i].dst
  }

  /**
   * The shape of the distance map: `start` at distance zero, every distance
   * non-negative, only reachable nodes, and a predecessor for every reached
   * node other than `start`.
   */
  ghost predicate Reaches(roads: seq<Road>, start: Id, dist: map<Id, real>, prev: map<Id, nat>) {
    && start in dist && dist[start] == 0.0
    && (forall v :: v in dist ==> dist[v] >= 0.0)
    && dist.Keys <= Reachable(roads, start)
    && (forall v :: v in dist && v != start ==> v in prev)
  }

  /** No settled node is farther than an unsettled one. */
  ghost predicate SettledFirst(dist: map<Id, real>, settled: set<Id>) {
    && settled <= dist.Keys
    && forall s, f :: s in settled && f in dist && f !in settled ==> dist[s] <= dist[f]
  }

  /**
   * The order in which nodes were settled (a proof device: the Java search
   * keeps no such record): `rank` numbers the settled nodes and `next` is
   * the number the next node settled will get.
   */
  datatype Ranking = Ranking(rank: map<Id, nat>, next: nat)

  /** Ranks `u`, the node just settled, after every node settled before it. */
  function Settle(order: Ranking, u: Id): Ranking {
    Ranking(order.rank[u := order.next], order.next + 1)
  }

  /**
   * Every predecessor road leaves a node settled before its destination
   * (an unsettled destination counts as ranked after all of them).
   */
  ghost predicate RanksPrev(roads: seq<Road>, prev: map<Id, nat>, settled: set<Id>, order: Ranking) {
    && (forall s :: s in settled ==> s in order.rank && order.rank[s] < order.next)
    && forall v {:trigger prev[v]} :: v in prev ==>
      && prev[v] < |roads|
      && roads[prev[v]].src in settled
      && order.rank[roads[prev[v]].src] < (if v in settled then order.rank[v] else order.next)
  }

  /** The invariant of the search loop, between two pops of the queue. */
  ghost predicate SearchInv(roads: seq<Road>, lit: set<Id>, start: Id, goal: Id, dist: map<Id, real>,
                            prev: map<Id, nat>, settled: set<Id>, order: Ranking) {
    && Reaches(roads, start, dist, prev)
    && SettledFirst(dist, settled)
    && PrevSound(roads, lit, start, dist, prev, settled)
    && Relaxed(roads, lit, dist, settled)
    && SettledOptimal(roads, lit, start, dist, settled)
    && goal !in settled
    && (start !in settled ==> (forall v :: v in dist ==> v == start) && prev == map[])
    && RanksPrev(roads, prev, settled, order)
  }

  /** The node `u` just settled at distance `du` splits the reached nodes. */
  ghost predicate SplitAt(dist: map<Id, real>, settled: set<Id>, du: real) {
    && settled <= dist.Keys
    && (forall s :: s in settled ==> dist[s] <= du)
    && (forall f :: f in dist && f !in settled ==> du <= dist[f])
  }

  /** The settled distances are those of `dist0`. */
  ghost predicate Unchanged(dist0: map<Id, real>, dist: map<Id, real>, settled: set<Id>) {
    forall s :: s in settled ==> s in dist0 && s in dist && dist[s] == dist0[s]
  }

  /** The roads out of `u` before position `i` have been relaxed. */
  ghost predicate EdgesDone(roads: seq<Road>, lit: set<Id>, u: Id, du: real, i: nat, dist: map<Id, real>) {
    forall j :: 0 <= j < i && j < |roads| && roads[j].src == u && !roads[j].blocked ==>
      roads[j].dst in dist && dist[roads[j].dst] <= du + Weight(roads[j], lit).val
  }

  /**
   * The invariant of the relaxation loop over the roads leaving `u`, the
   * node just settled at distance `du`; `dist0` is the map before the loop
   * and roads before position `i` have been examined.
   */
  ghost predicate RelaxInv(roads: seq<Road>, lit: set<Id>, start: Id, u: Id, du: real, dist0: map<Id, real>,
                           settled0: set<Id>, order: Ranking, i: nat, dist: map<Id, real>, prev: map<Id, nat>) {
    && i <= |roads|
    && Reaches(roads, start, dist, prev)
    && SplitAt(dist, settled0 + {u}, du)
    && u in dist && dist[u] == du
    && Unchanged(dist0, dist, settled0 + {u})
    && PrevSound(roads, lit, start, dist, prev, settled0 + {u})
    && Relaxed(roads, lit, dist, settled0)
    && EdgesDone(roads, lit, u, du, i, dist)
    && RanksPrev(roads, prev, settled0 + {u}, order)
  }

  /**
   * `findShortestPath`. With non-negative lengths (with a negative cycle
   * reachable before the goal is polled, the Java loop may never end), the result maps each improved node to its
   * predecessor road; `goal` is present exactly when it is reachable through
   * unblocked roads from a different `start`, and its chain is a shortest walk.
   */
  method FindShortestPath(roads: seq<Road>, lit: set<Id>, start: Id, goal: Id) returns (prev: map<Id, nat>)
    requires NonNegativeLengths(roads)
    ensures start == goal ==> prev == map[]
    ensures start !in prev
    ensures PrevWellFormed(roads, prev)
    ensures forall v :: v in prev ==> HasChain(prev, roads, v)
    ensures forall v, p :: v in prev && IsChain(prev, roads, p, v) ==> IsWalk(roads, p, start, v)
    ensures goal in prev ==> forall p :: IsChain(prev, roads, p, goal) ==> IsShortestWalk(roads, lit, p, start, goal)
    ensures start != goal && goal !in prev ==>
      forall q :: IsWalk(roads, q, start, goal) ==> PathWeight(roads, lit, q) == Inf
  {
    var dist, settled, found;
    ghost var order;
    prev, dist, settled, order, found := Search(roads, lit, start, goal);
    if found {
      FinishAtGoal(roads, lit, start, goal, dist, prev, settled, order);
    } else {
      FinishExhausted(roads, lit, start, goal, dist, prev, settled, order);
    }
  }

  /**
   * The search loop: settles nodes in order of distance until `goal` is
   * polled (`found`) or nothing reached is left unsettled.
   */
  method Search(roads: seq<Road>, lit: set<Id>, start: Id, goal: Id)
    returns (prev: map<Id, nat>, dist: map<Id, real>, settled: set<Id>, ghost order: Ranking, found: bool)
    requires NonNegativeLengths(roads)
    ensures SearchInv(roads, lit, start, goal, dist, prev, settled, order)
    ensures found ==> LeastUnsettled(dist, settled, goal)
    ensures !found ==> dist.Keys == settled
  {
    dist := map[start := 0.0];
    prev := map[];
    settled := {};
    order := Ranking(map[], 0);
    found := false;
    SearchStart(roads, lit, start, goal);

    while !found && dist.Keys - settled != {}
      invariant SearchInv(roads, lit, start, goal, dist, prev, settled, order)
      invariant found ==> LeastUnsettled(dist, settled, goal)
      decreases |Reachable(roads, start) - settled|, !found
    {
      var u := PickMin(dist, dist.Keys - settled);
      if u == goal {
        found := true;
      } else {
        SettleStep(roads, lit, start, goal, dist, prev, settled, order, u);
        prev, dist := RelaxFrom(roads, lit, start, goal, u, dist, prev, settled, order);
        SettleShrinks(Reachable(roads, start), settled, u);
        order := Settle(order, u);
        settled := settled + {u};
      }
    }
    if !found {
      AllSettled(dist, settled);
    }
  }

  /** Nothing reached is unsettled: the queue is empty. */
  lemma AllSettled(dist: map<Id, real>, settled: set<Id>)
    requires settled <= dist.Keys && dist.Keys - settled == {}
    ensures dist.Keys == settled
  {
    assert forall v :: v in dist.Keys ==> v in dist.Keys - settled || v in settled;
  }

  /** The search invariant holds once `start` is queued at distance zero. */
  lemma SearchStart(roads: seq<Road>, lit: set<Id>, start: Id, goal: Id)
    ensures SearchInv(roads, lit, start, goal, map[start := 0.0], map[], {}, Ranking(map[], 0))
  {
  }

  /** `u` is an unsettled node of least distance, as the priority queue polls it. */
  ghost predicate LeastUnsettled(dist: map<Id, real>, settled: set<Id>, u: Id) {
    && u in dist && u !in settled
    && forall f :: f in dist.Keys - settled ==> dist[u] <= dist[f]
  }

  /** Settling a reachable node leaves fewer to settle. */
  lemma SettleShrinks(reach: set<Id>, settled: set<Id>, u: Id)
    requires u in reach && u !in settled
    ensures |reach - (settled + {u})| < |reach - settled|
  {
    var rest := reach - (settled + {u});
    assert reach - settled == rest + {u} && u !in rest;
  }

  /** Settling the least unsettled node `u` keeps every settled distance optimal. */
  lemma SettleStep(roads: seq<Road>, lit: set<Id>, start: Id, goal: Id, dist: map<Id, real>,
                   prev: map<Id, nat>, settled: set<Id>, order: Ranking, u: Id)
    requires NonNegativeLengths(roads)
    requires SearchInv(roads, lit, start, goal, dist, prev, settled, order)
    requires LeastUnsettled(dist, settled, u)
    ensures SettledOptimal(roads, lit, start, dist, settled + {u})
  {
    forall q | IsWalk(roads, q, start, u)
      ensures Le(Fin(dist[u]), PathWeight(roads, lit, q))
    {
      FrontierBound(roads, lit, start, dist, settled, u, q, u);
    }
  }

  /** The relaxation loop of the node `u` just settled; it is ranked after every settled node. */
  method RelaxFrom(roads: seq<Road>, lit: set<Id>, start: Id, goal: Id, u: Id, dist0: map<Id, real>,
                   prev0: map<Id, nat>, ghost settled0: set<Id>, ghost order0: Ranking)
    returns (prev: map<Id, nat>, dist: map<Id, real>)
    requires NonNegativeLengths(roads)
    requires SearchInv(roads, lit, start, goal, dist0, prev0, settled0, order0)
    requires LeastUnsettled(dist0, settled0, u) && u != goal
    requires SettledOptimal(roads, lit, start, dist0, settled0 + {u})
    ensures SearchInv(roads, lit, start, goal, dist, prev, settled0 + {u}, Settle(order0, u))
  {
    var du := dist0[u];
    ghost var order := Settle(order0, u);
    RelaxStart(roads, lit, start, goal, u, dist0, prev0, settled0, order0);
    prev, dist := prev0, dist0;
    var i := 0;
    while i < |roads|
      invariant RelaxInv(roads, lit, start, u, du, dist0, settled0, order, i, dist, prev)
    {
      var road := roads[i];
      var nd := Add(Fin(du), Weight(road, lit));
      var v := road.dst;
      if road.src == u && Lt(nd, Current(dist, v)) {
        RelaxImproves(roads, lit, start, u, du, dist0, settled0, order, i, dist, prev);
        dist := dist[v := nd.val];
        prev := prev[v := i];
      } else {
        RelaxSkips(roads, lit, start, u, du, dist0, settled0, order, i, dist, prev);
      }
      i := i + 1;
    }
    RelaxDone(roads, lit, start, goal, u, du, dist0, prev0, settled0, order0, dist, prev);
  }

  /** The relaxation invariant holds before the first road. */
  lemma RelaxStart(roads: seq<Road>, lit: set<Id>, start: Id, goal: Id, u: Id, dist0: map<Id, real>,
                   prev0: map<Id, nat>, settled0: set<Id>, order0: Ranking)
    requires SearchInv(roads, lit, start, goal, dist0, prev0, settled0, order0)
    requires LeastUnsettled(dist0, settled0, u)
    ensures RelaxInv(roads, lit, start, u, dist0[u], dist0, settled0, Settle(order0, u), 0, dist0, prev0)
  {
    RanksAfterSettle(roads, prev0, settled0, order0, u);
    SplitAtMin(dist0, settled0, u);
  }

  /** Ranking the newly settled `u` last keeps the predecessor ranking. */
  lemma RanksAfterSettle(roads: seq<Road>, prev: map<Id, nat>, settled0: set<Id>, order0: Ranking, u: Id)
    requires RanksPrev(roads, prev, settled0, order0)
    requires u !in settled0
    ensures RanksPrev(roads, prev, settled0 + {u}, Settle(order0, u))
  {
    var settled, order := settled0 + {u}, Settle(order0, u);
    forall v | v in prev
      ensures order.rank[roads[prev[v]].src] < (if v in settled then order.rank[v] else order.next)
    {
      assert roads[prev[v]].src != u;
    }
  }

  /** The least unsettled node splits the reached nodes at its distance. */
  lemma SplitAtMin(dist: map<Id, real>, settled0: set<Id>, u: Id)
    requires SettledFirst(dist, settled0)
    requires LeastUnsettled(dist, settled0, u)
    ensures SplitAt(dist, settled0 + {u}, dist[u])
  {
  }

  /** Examining a road that does not improve its destination keeps the invariant. */
  lemma RelaxSkips(roads: seq<Road>, lit: set<Id>, start: Id, u: Id, du: real, dist0: map<Id, real>,
                   settled0: set<Id>, order: Ranking, i: nat, dist: map<Id, real>, prev: map<Id, nat>)
    requires RelaxInv(roads, lit, start, u, du, dist0, settled0, order, i, dist, prev)
    requires i < |roads|
    requires !(roads[i].src == u && Lt(Add(Fin(du), Weight(roads[i], lit)), Current(dist, roads[i].dst)))
    ensures RelaxInv(roads, lit, start, u, du, dist0, settled0, order, i + 1, dist, prev)
  {
    EdgesDoneSkip(roads, lit, u, du, i, dist);
  }

  lemma EdgesDoneSkip(roads: seq<Road>, lit: set<Id>, u: Id, du: real, i: nat, dist: map<Id, real>)
    requires i < |roads| && EdgesDone(roads, lit, u, du, i, dist)
    requires !(roads[i].src == u && Lt(Add(Fin(du), Weight(roads[i], lit)), Current(dist, roads[i].dst)))
    ensures EdgesDone(roads, lit, u, du, i + 1, dist)
  {
    if roads[i].src == u && !roads[i].blocked {
      assert Add(Fin(du), Weight(roads[i], lit)) == Fin(du + Weight(roads[i], lit).val);
    }
  }

  /** Relaxing road `i`, which improves its destination `v`, keeps the invariant. */
  lemma RelaxImproves(roads: seq<Road>, lit: set<Id>, start: Id, u: Id, du: real, dist0: map<Id, real>,
                      settled0: set<Id>, order: Ranking, i: nat, dist: map<Id, real>, prev: map<Id, nat>)
    requires NonNegativeLengths(roads)
    requires RelaxInv(roads, lit, start, u, du, dist0, settled0, order, i, dist, prev)
    requires i < |roads| && roads[i].src == u
    requires Lt(Add(Fin(du), Weight(roads[i], lit)), Current(dist, roads[i].dst))
    ensures var v, nd := roads[i].dst, Add(Fin(du), Weight(roads[i], lit)).val;
      RelaxInv(roads, lit, start, u, du, dist0, settled0, order, i + 1, dist[v := nd], prev[v := i])
  {
    var settled := settled0 + {u};
    var v, w := roads[i].dst, Weight(roads[i], lit);
    ImprovedTarget(dist, settled, du, start, v, w);
    assert v in Reachable(roads, start);
    var nd := Add(Fin(du), w).val;
    ReachesImproved(roads, start, dist, prev, v, nd, i);
    SplitImproved(dist, settled, du, v, nd);
    ImprovedEdges(roads, lit, u, du, settled0, i, dist);
    ImprovedPrev(roads, lit, start, u, du, settled, order, i, dist, prev);
  }

  /**
   * A finite candidate `du + w` below `Current(dist, v)` improves `v`,
   * which is therefore neither settled nor `start`.
   */
  lemma ImprovedTarget(dist: map<Id, real>, settled: set<Id>, du: real, start: Id, v: Id, w: Cost)
    requires SplitAt(dist, settled, du) && du >= 0.0
    requires start in dist && dist[start] == 0.0
    requires NonNeg(w) && Lt(Add(Fin(du), w), Current(dist, v))
    ensures w.Fin? && Add(Fin(du), w).val == du + w.val && du <= du + w.val
    ensures v !in dist || du + w.val < dist[v]
    ensures v !in settled && v != start
  {
  }

  lemma ReachesImproved(roads: seq<Road>, start: Id, dist: map<Id, real>, prev: map<Id, nat>, v: Id, nd: real, i: nat)
    requires Reaches(roads, start, dist, prev)
    requires v != start && v in Reachable(roads, start) && nd >= 0.0
    ensures Reaches(roads, start, dist[v := nd], prev[v := i])
  {
  }

  lemma SplitImproved(dist: map<Id, real>, settled: set<Id>, du: real, v: Id, nd: real)
    requires SplitAt(dist, settled, du)
    requires v !in settled && du <= nd
    ensures SplitAt(dist[v := nd], settled, du)
    ensures Unchanged(dist, dist[v := nd], settled)
  {
  }

  /** `RelaxImproves`, the conjuncts about relaxed roads. */
  lemma ImprovedEdges(roads: seq<Road>, lit: set<Id>, u: Id, du: real, settled0: set<Id>, i: nat, dist: map<Id, real>)
    requires Relaxed(roads, lit, dist, settled0) && EdgesDone(roads, lit, u, du, i, dist)
    requires i < |roads| && roads[i].src == u && !roads[i].blocked
    requires roads[i].dst !in settled0 + {u}
    requires roads[i].dst !in dist || du + Weight(roads[i], lit).val < dist[roads[i].dst]
    ensures var v, nd := roads[i].dst, Add(Fin(du), Weight(roads[i], lit)).val;
      Relaxed(roads, lit, dist[v := nd], settled0) && EdgesDone(roads, lit, u, du, i + 1, dist[v := nd])
  {
    var v, nd := roads[i].dst, du + Weight(roads[i], lit).val;
    assert Add(Fin(du), Weight(roads[i], lit)).val == nd;
    var dist' := dist[v := nd];
    forall j | 0 <= j < i + 1 && j < |roads| && roads[j].src == u && !roads[j].blocked
      ensures roads[j].dst in dist' && dist'[roads[j].dst] <= du + Weight(roads[j], lit).val
    {
      if j < i && roads[j].dst != v {
        assert roads[j].dst in dist;
      }
    }
    forall k | 0 <= k < |roads| && roads[k].src in settled0 && !roads[k].blocked
      ensures roads[k].src in dist' && roads[k].dst in dist'
      ensures dist'[roads[k].dst] <= dist'[roads[k].src] + Weight(roads[k], lit).val
    {
      assert roads[k].src != v;
    }
  }

  /** `RelaxImproves`, the conjuncts about the predecessor map. */
  lemma ImprovedPrev(roads: seq<Road>, lit: set<Id>, start: Id, u: Id, du: real, settled: set<Id>,
                     order: Ranking, i: nat, dist: map<Id, real>, prev: map<Id, nat>)
    requires PrevSound(roads, lit, start, dist, prev, settled)
    requires RanksPrev(roads, prev, settled, order)
    requires i < |roads| && roads[i].src == u && !roads[i].blocked
    requires u in settled && u in dist && dist[u] == du
    requires roads[i].dst !in settled && roads[i].dst != start
    ensures var v, nd := roads[i].dst, Add(Fin(du), Weight(roads[i], lit)).val;
      PrevSound(roads, lit, start, dist[v := nd], prev[v := i], settled) && RanksPrev(roads, prev[v := i], settled, order)
  {
    var v, nd := roads[i].dst, du + Weight(roads[i], lit).val;
    assert Add(Fin(du), Weight(roads[i], lit)).val == nd;
    var dist', prev' := dist[v := nd], prev[v := i];
    forall w | w in prev'
      ensures w in dist' && roads[prev'[w]].src in settled && roads[prev'[w]].src in dist'
      ensures dist'[w] == dist'[roads[prev'[w]].src] + Weight(roads[prev'[w]], lit).val
      ensures order.rank[roads[prev'[w]].src] < (if w in settled then order.rank[w] else order.next)
    {
      if w != v {
        assert prev'[w] == prev[w];
        assert roads[prev[w]].src != v;
      }
    }
  }

  /** After the last road, the relaxation invariant gives back the search invariant. */
  lemma RelaxDone(roads: seq<Road>, lit: set<Id>, start: Id, goal: Id, u: Id, du: real, dist0: map<Id, real>,
                  prev0: map<Id, nat>, settled0: set<Id>, order0: Ranking,
                  dist: map<Id, real>, prev: map<Id, nat>)
    requires SearchInv(roads, lit, start, goal, dist0, prev0, settled0, order0)
    requires u in dist0 && u !in settled0 && u != goal && du == dist0[u]
    requires SettledOptimal(roads, lit, start, dist0, settled0 + {u})
    requires RelaxInv(roads, lit, start, u, du, dist0, settled0, Settle(order0, u), |roads|, dist, prev)
    ensures SearchInv(roads, lit, start, goal, dist, prev, settled0 + {u}, Settle(order0, u))
  {
    var settled := settled0 + {u};
    StartSettledFirst(dist0, settled0, start, u);
    SettledFirstAfterSplit(dist, settled, du);
    SettledOptimalKept(roads, lit, start, dist0, dist, settled);
    RelaxedAfterSettle(roads, lit, dist, settled0, u, du);
  }

  /** The first node settled is `start`, the only one queued before it. */
  lemma StartSettledFirst(dist0: map<Id, real>, settled0: set<Id>, start: Id, u: Id)
    requires start !in settled0 ==> forall v :: v in dist0 ==> v == start
    requires u in dist0
    ensures start in settled0 + {u}
  {
  }

  lemma SettledFirstAfterSplit(dist: map<Id, real>, settled: set<Id>, du: real)
    requires SplitAt(dist, settled, du)
    ensures SettledFirst(dist, settled)
  {
  }

  /** Settled distances do not change, so they stay optimal. */
  lemma SettledOptimalKept(roads: seq<Road>, lit: set<Id>, start: Id, dist0: map<Id, real>,
                           dist: map<Id, real>, settled: set<Id>)
    requires SettledOptimal(roads, lit, start, dist0, settled)
    requires Unchanged(dist0, dist, settled)
    ensures SettledOptimal(roads, lit, start, dist, settled)
  {
  }

  /** Once every road out of `u` is relaxed, the roads out of `settled0 + {u}` are. */
  lemma RelaxedAfterSettle(roads: seq<Road>, lit: set<Id>, dist: map<Id, real>, settled0: set<Id>, u: Id, du: real)
    requires Relaxed(roads, lit, dist, settled0)
    requires u in dist && dist[u] == du
    requires EdgesDone(roads, lit, u, du, |roads|, dist)
    ensures Relaxed(roads, lit, dist, settled0 + {u})
  {
  }

  /** The postconditions of `FindShortestPath` when `goal` is popped from the queue. */
  lemma FinishAtGoal(roads: seq<Road>, lit: set<Id>, start: Id, goal: Id, dist: map<Id, real>,
                     prev: map<Id, nat>, settled: set<Id>, order: Ranking)
    requires NonNegativeLengths(roads)
    requires SearchInv(roads, lit, start, goal, dist, prev, settled, order)
    requires LeastUnsettled(dist, settled, goal)
    ensures start == goal ==> prev == map[]
    ensures forall v :: v in prev ==> HasChain(prev, roads, v)
    ensures forall v, p :: v in prev && IsChain(prev, roads, p, v) ==> IsWalk(roads, p, start, v)
    ensures goal in prev ==> forall p :: IsChain(prev, roads, p, goal) ==> IsShortestWalk(roads, lit, p, start, goal)
    ensures start != goal ==> goal in prev
  {
    ChainsFromOrder(roads, lit, start, dist, prev, settled, order);
    forall p | goal in prev && IsChain(prev, roads, p, goal)
      ensures IsShortestWalk(roads, lit, p, start, goal)
    {
      ChainWeight(roads, lit, start, dist, prev, settled, p, goal);
      forall q | IsWalk(roads, q, start, goal)
        ensures Le(PathWeight(roads, lit, p), PathWeight(roads, lit, q))
      {
        FrontierBound(roads, lit, start, dist, settled, goal, q, goal);
      }
    }
  }

  /** The postconditions of `FindShortestPath` when the queue runs empty. */
  lemma FinishExhausted(roads: seq<Road>, lit: set<Id>, start: Id, goal: Id, dist: map<Id, real>,
                        prev: map<Id, nat>, settled: set<Id>, order: Ranking)
    requires SearchInv(roads, lit, start, goal, dist, prev, settled, order)
    requires dist.Keys == settled
    ensures start != goal && goal !in prev
    ensures forall v :: v in prev ==> HasChain(prev, roads, v)
    ensures forall v, p :: v in prev && IsChain(prev, roads, p, v) ==> IsWalk(roads, p, start, v)
    ensures forall q :: IsWalk(roads, q, start, goal) ==> PathWeight(roads, lit, q) == Inf
  {
    ChainsFromOrder(roads, lit, start, dist, prev, settled, order);
    forall q | IsWalk(roads, q, start, goal)
      ensures PathWeight(roads, lit, q) == Inf
    {
      if PathWeight(roads, lit, q).Fin? {
        ClosedUnderRoads(roads, lit, start, dist, settled, q, goal);
      }
    }
  }

  /** The settle order ranks the predecessor map, so every chain is finite and is a walk from `start`. */
  lemma ChainsFromOrder(roads: seq<Road>, lit: set<Id>, start: Id, dist: map<Id, real>,
                        prev: map<Id, nat>, settled: set<Id>, order: Ranking)
    requires start in dist && dist[start] == 0.0
    requires PrevSound(roads, lit, start, dist, prev, settled)
    requires forall v :: v in dist && v != start ==> v in prev
    requires RanksPrev(roads, prev, settled, order)
    ensures forall v :: v in prev ==> HasChain(prev, roads, v)
    ensures forall v, p :: v in prev && IsChain(prev, roads, p, v) ==> IsWalk(roads, p, start, v)
  {
    var rank := map v | v in prev :: if v in settled then order.rank[v] else order.next;
    assert RankedBy(prev, roads, rank);
    forall v | v in prev
      ensures HasChain(prev, roads, v)
    {
      ChainExists(prev, roads, rank, v);
    }
    forall v, p | v in prev && IsChain(prev, roads, p, v)
      ensures IsWalk(roads, p, start, v)
    {
      ChainWeight(roads, lit, start, dist, prev, settled, p, v);
    }
  }
}
