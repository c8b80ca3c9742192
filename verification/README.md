# SwiftRoads core in Dafny

A model of the traffic-routing core of SwiftRoads:

- **Traffic lights.** Each light is a three-phase machine. It counts ticks and takes its phase from the tick count modulo the cycle length.
- **Intersections.** Each has an id, an optional light and a duplicate-free list of connected roads.
- **Roads.** A road is directed and has a length, a blocked flag and a vehicle count. Its live weight is `length × (1 + count/10) × (1.5 if an endpoint has a light, else 1)`. A blocked road weighs +infinity. `OneWayRoad` is modelled as a flag on the same datatype, which selects its overrides.
- **The city map.** It holds intersections keyed by id and an ordered road list.
- **The load simulator.** It seeds and perturbs vehicle counts.
- **`PathFinder`.** It runs Dijkstra's search over the live weights, rebuilds paths from the predecessor map, compares paths, sums path lengths and collects the "top fastest paths".

Modules, one per file:

- `Wrappers` (`Option`, `Result`).
- `Costs` (a weight is `Fin(real)` or `Inf`).
- `TrafficLights`, `Intersections`, `Roads`, `CityMaps` and `WeightSimulator`.
- `Walks`: paths as sequences of road positions, walks, path weight and length, and predecessor chains.
- `ShortestPath`: `findShortestPath`.
- `PathFinder`: everything else in `PathFinder.java`.

Identity is made explicit:

- An intersection is its id.
- A road is its position in the city's road list.
- A path is a sequence of such positions.
- The intersections that carry a traffic light are passed to the weight function as a set of ids (`lit`).

Two points about the code that a reader might not expect:

- Both road classes use one weight formula, with no two-way direction penalty. `Road.calculateWeight` has no direction factor, and `OneWayRoad.calculateWeight` multiplies by 1.0 (`Roads.OneWayMatchesBase`).
- There is no search for the top K loopless routes. `findTopFastestPaths` repeats one shortest-path query in a retry loop (see Findings).

## Model

| member | source | states |
|---|---|---|
| Costs.Add | src/com/pathfinding/PathFinder.java:48 | The sum is finite exactly when both weights are, and then it is the real sum. Anything plus infinity is infinity. |
| TrafficLights.NewLight | src/com/model/TrafficLight.java:16-22 | A new light is GREEN at time 0 and keeps the three given durations. |
| TrafficLights.Update | src/com/model/TrafficLight.java:25-39 | A zero cycle is an error, and exactly then. The error state still has the tick applied. Otherwise time advances by one, the durations are kept, and the phase is GREEN / YELLOW / RED exactly when `(time+1) mod cycle` falls below green / below green+yellow / at or above both. |
| TrafficLights.UpdatePeriodic | src/com/model/TrafficLight.java:25-39 | Shifting the clock by a whole cycle does not change the phase `update` produces. |
| TrafficLights.ExactlyOnePhase | src/com/model/TrafficLight.java:42-54 | Exactly one of `isGreen`, `isYellow` and `isRed` holds. |
| TrafficLights.Toggle | src/com/model/TrafficLight.java:57-64 | GREEN becomes RED, RED becomes GREEN and YELLOW stays. The timer returns to 0 and the durations are unchanged. |
| TrafficLights.ToggleTwice | src/com/model/TrafficLight.java:57-64 | Toggling twice restores the phase and leaves the timer at 0. |
| TrafficLights.Reset | src/com/model/TrafficLight.java:67-70 | A reset light equals a newly constructed light with the same durations. |
| TrafficLights.ResetInStep | src/com/model/TrafficLight.java:67-70 | With a positive green duration, a reset light shows the phase its cycle position calls for. |
| TrafficLights.SetCycleDuration | src/com/model/TrafficLight.java:119-124 | The result is the old light with the new durations stored and then reset, which is a fresh light with those durations. |
| TrafficLights.TimeLeft | src/com/model/TrafficLight.java:105-116 | A zero cycle is an error, and exactly then. The state is left untouched. Otherwise the position in the cycle plus the time left reaches exactly the end of the current phase's window: green, green+yellow, or the whole cycle. |
| TrafficLights.TimeLeftBounds | src/com/model/TrafficLight.java:105-116 | Take a light whose phase matches its cycle position, with non-negative durations and a positive cycle. Its time left lies between 1 and the duration of its current phase. |
| TrafficLights.TimeLeftAfterUpdate | src/com/model/TrafficLight.java:105-116 | After any successful `update` with non-negative durations, the time left lies between 1 and the current phase's duration. |
| Intersections.NewIntersection | src/com/model/Intersection.java:13-18 | A new intersection keeps its id and position, and has no light and no connected roads. |
| Intersections.SetTrafficLight | src/com/model/Intersection.java:24-34 | The stored light is the given one, so `hasTrafficLight` holds exactly when a light was given. Nothing else changes. |
| Intersections.UpdateTrafficLight | src/com/model/Intersection.java:36-40 | Without a light the intersection is unchanged. With a light, it takes the outcome of the light's `update`, including its error. Id, position and roads are kept. |
| Intersections.AddConnectedRoad | src/com/model/Intersection.java:51-55 | A missing road or one already listed changes nothing. Any other road is appended. The result holds exactly the old roads plus the new one, and it stays duplicate-free. |
| Intersections.AddConnectedRoadIdempotent | src/com/model/Intersection.java:51-55 | Adding the same road twice has the same effect as adding it once. |
| Intersections.AddAllNoDuplicates | src/com/model/Intersection.java:51-55 | Any sequence of additions keeps the list duplicate-free, and the old list is a prefix of the new one. |
| Roads.NewRoad | src/com/model/Road.java:16-24 | A new road keeps its endpoints, length and blocked flag. It has no vehicles, an empty style and no highlight. `isOneWay` reflects which class was built. |
| Roads.AddVehicle | src/com/model/Road.java:50-52 | The count grows by one and nothing else changes. |
| Roads.RemoveVehicle | src/com/model/Road.java:54-58 | A positive count drops by one. A zero count stays zero. Nothing else changes. |
| Roads.AddThenRemove | src/com/model/Road.java:50-58 | Removing a vehicle after adding one restores the road. |
| Roads.TrafficFactor | src/com/model/Road.java:65 | The traffic factor is at least 1. |
| Roads.LightFactor | src/com/model/Road.java:68-71 | The light factor is at least 1. |
| Roads.Weight | src/com/model/Road.java:60-74 | The weight is infinite exactly when the road is blocked. Otherwise it is length × traffic factor × light factor, for both road classes. It is non-negative when the length is. |
| Roads.OneWayMatchesBase | src/com/model/OneWayRoad.java:15-30 | The one-way override computes the same weight as the base class. Flipping the one-way flag never changes a weight. |
| Roads.BlockedIsInfinite | src/com/model/Road.java:60-63 | A blocked road weighs +infinity whatever its load. |
| Roads.WeightMonotoneInCount | src/com/model/Road.java:60-74 | With a non-negative length, more vehicles never make a road cheaper. |
| Roads.WeightStrictInCount | src/com/model/Road.java:60-74 | On an unblocked road of positive length, more vehicles make the weight strictly larger. |
| Roads.WeightAtLeastLength | src/com/model/Road.java:60-74 | With a non-negative length, a road never weighs less than its length. |
| Roads.LoadFactorScenario | src/com/model/Road.java:65-73 | 40 vehicles make an empty road weigh exactly 5 times as much. |
| Roads.Reset | src/com/model/Road.java:111-115 | The road becomes unblocked, empty and unstyled. Endpoints, length, kind and highlight are kept. |
| Roads.ResetWeight | src/com/model/Road.java:111-115 | A reset road weighs its length times its light factor. |
| Roads.HighlightRoad | src/com/model/Road.java:136-142 | The highlight flips and nothing else changes. |
| Roads.HighlightTwice | src/com/model/Road.java:136-142 | Highlighting twice restores the road. |
| Roads.SetStyle | src/com/model/OneWayRoad.java:33-37 | A two-way road stores the style as given. A one-way road stores it with the fixed blue-stroke suffix. Nothing else changes. |
| Roads.ColorBand | src/com/model/Road.java:117-134 | Each of the five colours is chosen exactly under its condition. Blocked comes first, then highlighted, then count below 15, below 60, or 60 and above. |
| Roads.HeavierBandWeighsMore | src/com/model/Road.java:117-134 | Take two otherwise equal unblocked roads of positive length. The one in the heavier traffic colour has the strictly larger weight. |
| CityMaps.EmptyCity | src/com/model/CityMap.java:6-7 | A new map has no intersections and no roads. |
| CityMaps.LitIds | src/com/model/Intersection.java:32-34 | An id is lit exactly when its stored intersection has a traffic light. |
| CityMaps.LitAfterSetTrafficLight | src/com/model/Intersection.java:24-26 | Setting a light on a stored intersection adds exactly its id to the lit set, and clearing it removes exactly that id. Every road touching a newly lit id then has light factor 1.5. A road leaving a cleared id whose other end is unlit has factor 1.0. |
| CityMaps.LitAfterAddIntersection | src/com/model/CityMap.java:15-17 | Re-adding an id stores an unlit intersection, so that id leaves the lit set and no other id changes. |
| CityMaps.AddRoad | src/com/model/CityMap.java:10-12 | The road is appended, duplicates included. The earlier roads and the intersections are untouched. |
| CityMaps.AddIntersection | src/com/model/CityMap.java:15-17 | A fresh intersection replaces whatever was stored under the id. Every other id and all roads are untouched. Keys keep matching ids. |
| CityMaps.LastWriteWins | src/com/model/CityMap.java:15-17 | The second of two additions under one id wins entirely. |
| CityMaps.NeverAddedIsAbsent | src/com/model/CityMap.java:42-44 | An id never added reads back as absent, and additions leave the roads alone. |
| CityMaps.GetRoads | src/com/model/CityMap.java:32-34 | Returns the stored road list itself, with its order and duplicates. |
| CityMaps.RoadsInInsertionOrder | src/com/model/CityMap.java:10-12 | After any sequence of `addRoad` calls, `getRoads` lists the earlier roads followed by the added ones in insertion order, duplicates included. The intersections are untouched. |
| CityMaps.GetIntersectionById | src/com/model/CityMap.java:42-44 | The result is absent exactly when the id is not a key. Otherwise it is the stored intersection, which carries that id. |
| CityMaps.EqualsIgnoreCaseEquivalence | src/com/model/CityMap.java:20-27 | The case-insensitive id comparison is reflexive, symmetric and transitive. |
| CityMaps.GetIntersectionByName | src/com/model/CityMap.java:20-27 | The result is absent exactly when no stored intersection's id equals the name ignoring case. A present result is a stored intersection with such an id. |
| WeightSimulator.AddVehicles | src/com/simulation/WeightSimulator.java:37-39 | `n` calls of `addVehicle` raise the count by exactly `n`. |
| WeightSimulator.RemoveVehicles | src/com/simulation/WeightSimulator.java:52-56 | `n` calls of `removeVehicle` lower the count by `n`, with a floor of 0. Nothing else changes. |
| WeightSimulator.InitializeTraffic | src/com/simulation/WeightSimulator.java:28-41 | Every road gains 25 vehicles, except that the road from "A" to "C" gains 70. Nothing else changes. |
| WeightSimulator.NewSimulator | src/com/simulation/WeightSimulator.java:16-25 | Traffic is seeded exactly when the flag is set: every road gains its seed load and nothing else about it changes. Otherwise the map is unchanged. |
| WeightSimulator.SimulateTraffic | src/com/simulation/WeightSimulator.java:44-62 | Each road's count moves by its own draw: up, or down to a floor of 0. It changes by at most 5, and nothing else changes. |
| WeightSimulator.AddThenRemoveRestores | src/com/simulation/WeightSimulator.java:44-62 | A removing step undoes an adding step of the same size. |
| WeightSimulator.StepWeightDirection | src/com/simulation/WeightSimulator.java:44-62 | An adding step never makes a road cheaper, and a removing step never makes it dearer. |
| Walks.WalkSnoc | src/com/pathfinding/PathFinder.java:46-53 | A walk extended by one road is a walk exactly when that road leaves the old end. |
| Walks.PathWeightAppend | src/com/pathfinding/PathFinder.java:48 | The weight of a concatenation is the sum of the weights. |
| Walks.PathWeightNonNeg | src/com/pathfinding/PathFinder.java:48 | With non-negative lengths every path weight is non-negative. |
| Walks.PathLengthAppend | src/com/pathfinding/PathFinder.java:144-153 | The length of a concatenation is the sum of the lengths. |
| Walks.LengthBelowWeight | src/com/pathfinding/PathFinder.java:144-153 | With non-negative road lengths, a path's distance never exceeds its weight. |
| Walks.ChainValid | src/com/pathfinding/PathFinder.java:64-76 | A predecessor chain names only roads of the list. |
| Walks.ChainUnique | src/com/pathfinding/PathFinder.java:64-76 | The walk back from a node through the predecessor map is unique. |
| Walks.ChainExists | src/com/pathfinding/PathFinder.java:64-76 | If predecessor roads descend along a ranking, the walk back from any node stops. |
| ShortestPath.PickMin | src/com/pathfinding/PathFinder.java:38-40 | The polled node is unsettled and has the least distance among the unsettled ones. |
| ShortestPath.FrontierBound | src/com/pathfinding/PathFinder.java:37-57 | Any walk from the start to an unsettled node weighs at least the least unsettled distance. |
| ShortestPath.ClosedUnderRoads | src/com/pathfinding/PathFinder.java:37-59 | Once the queue is empty, every node reachable with finite weight has been settled. |
| ShortestPath.ChainWeight | src/com/pathfinding/PathFinder.java:50-53 | A recorded predecessor chain is a walk from the start whose weight is the node's recorded distance. |
| ShortestPath.SettleStep | src/com/pathfinding/PathFinder.java:38-43 | The polled node's distance is optimal. |
| ShortestPath.RelaxFrom | src/com/pathfinding/PathFinder.java:46-56 | Relaxing every road out of the polled node re-establishes the search invariant with that node settled. The invariant covers distances, predecessors, relaxation, optimality and the acyclic ranking. |
| ShortestPath.Search | src/com/pathfinding/PathFinder.java:37-57 | The search stops either when the goal is the least unsettled node or when every reached node is settled. The invariant holds in both cases. |
| ShortestPath.FinishAtGoal | src/com/pathfinding/PathFinder.java:42-44 | When the goal is polled, its chain is a shortest walk from the start. It is present whenever the goal differs from the start. |
| ShortestPath.FinishExhausted | src/com/pathfinding/PathFinder.java:59 | When the queue runs dry, the goal has no predecessor and every walk to it weighs +infinity. |
| ShortestPath.ChainsFromOrder | src/com/pathfinding/PathFinder.java:50-53 | Every recorded node has a finite chain, and that chain is a walk from the start. |
| ShortestPath.FindShortestPath | src/com/pathfinding/PathFinder.java:22-60 | The result is empty when start = goal, and the start never has a predecessor. Every entry is an unblocked road into its node, and each chain is a finite walk from the start. If the goal is present, its chain is a shortest walk. If it is absent and differs from the start, every walk to it weighs +infinity. |
| PathFinder.BuildPath | src/com/pathfinding/PathFinder.java:64-76 | The result is exactly the goal's predecessor chain in travel order. It is empty exactly when the goal has no predecessor. |
| PathFinder.ShortestRoute | src/com/pathfinding/PathFinder.java:87-100 | A non-empty route is a shortest walk from a start different from the goal, and its weight is finite. An empty route means the start is the goal or no walk has finite weight. So the route is empty exactly when the start is the goal or no walk has finite weight. |
| PathFinder.ChainFinite | src/com/pathfinding/PathFinder.java:48-53 | A recorded predecessor chain uses only unblocked roads, so its weight is finite: the strict `<` never records a road of infinite weight. |
| PathFinder.ArePathsEqual | src/com/pathfinding/PathFinder.java:118-130 | True exactly when the lengths agree and each pair of roads has the same source and destination. |
| PathFinder.SameRouteReflexive | src/com/pathfinding/PathFinder.java:118-130 | Every path has the same route as itself. |
| PathFinder.SameRouteEquivalence | src/com/pathfinding/PathFinder.java:118-130 | Route equality is symmetric and transitive. |
| PathFinder.ParallelRoadsSameRoute | src/com/pathfinding/PathFinder.java:118-130 | Two parallel roads make distinct paths with the same route. |
| PathFinder.SameRouteSameWalk | src/com/pathfinding/PathFinder.java:118-130 | Paths with the same route are walks between the same intersections. |
| PathFinder.IsDuplicatePath | src/com/pathfinding/PathFinder.java:133-140 | True exactly when the new path is one of the listed paths. |
| PathFinder.CalculatePathDistance | src/com/pathfinding/PathFinder.java:144-153 | The total is the sum of the road lengths. It is non-negative when all lengths are. |
| PathFinder.TopPathsAsWritten | src/com/pathfinding/PathFinder.java:85-110 | The loop as written, bounded by fuel. If it ends, it extends what it had, and every path it adds is the rebuilt route. It adds something only if that route is non-empty and not yet listed. |
| PathFinder.TopPathsAsWrittenSafe | src/com/pathfinding/PathFinder.java:85-110 | If the as-written loop ends, it returns exactly `topN` distinct, non-empty paths, extending what it had. |
| PathFinder.TopPathsAsWrittenDiverges | src/com/pathfinding/PathFinder.java:102-106 | The as-written loop never ends in two cases: an empty route and `topN >= 1`, or a real route and `topN >= 2`. |
| PathFinder.StuckAt | src/com/pathfinding/PathFinder.java:102-106 | Once the route cannot be added below `topN`, the as-written loop never advances. |
| PathFinder.TopPaths | src/com/pathfinding/PathFinder.java:85-110 | The loop with the retry replaced by a stop. It extends what it had by at most one path. It adds one exactly when `i < topN` and the route is non-empty and not yet listed, and the path it adds is the route. |
| PathFinder.TopPathsResult | src/com/pathfinding/PathFinder.java:81-113 | The corrected loop returns the route once when `topN >= 1` and the route is non-empty. Otherwise it returns nothing. |
| PathFinder.TopPathsAgree | src/com/pathfinding/PathFinder.java:81-113 | Wherever the as-written loop ends, the corrected loop returns the same paths. |
| PathFinder.FindTopFastestPaths | src/com/pathfinding/PathFinder.java:81-113 | At most one path is returned, and none when `topN < 1`. Each returned path is a non-empty shortest walk. Exactly one comes back if and only if `topN >= 1`, start differs from goal and some walk has finite weight. |

## Left out

- Rendering and UI state are not modelled. This covers `getStyleWidth`, `getScaledCoordinates`, `toString`, the JavaFX colours (abstracted to `Roads.Band`) and the plain getters and setters. Loading maps and lights from files is left out too.
- `WeightSimulator.NewSimulator`: the one-argument constructor `WeightSimulator(CityMap)` (WeightSimulator.java lines 16-18) is `NewSimulator(m, true)`.
- `java.util.Random` is not modelled. `WeightSimulator.SimulateTraffic` takes the draws as an input, one `(change, add)` pair per road, with `change <= 5`.
- IEEE doubles are modelled as mathematical reals plus `Inf`. Rounding and NaN are not modelled.
- `TrafficLights.Update`: does not model the 32-bit wrap-around of `currentTime` or of the duration sum. Both are unbounded integers here. The vehicle count is likewise an unbounded `nat`.
- `TrafficLights.Update`: when Java throws on a zero cycle, its `update` has already incremented `currentTime`. The model returns that state inside the error value and does not model the exception's propagation.
- `Intersections.SetTrafficLight`: Java `null` is `None`. Connected roads are road positions compared by value, where Java compares object identity. The two agree as long as no `Road` object sits at two positions of the road list. A light is a value, so one `TrafficLight` object set on two intersections is modelled as two independent lights.
- `CityMaps.AddRoad`: a `Road` object added twice is modelled as two independent roads. In Java the two positions are one object. `initializeTraffic` would then seed it twice, `simulateTraffic` would apply two draws to it, and `contains` and `List.equals` would treat the positions as the same road. `WeightSimulator.InitializeTraffic` and `WeightSimulator.SimulateTraffic` therefore describe Java only for lists of distinct road objects, which is what the loaders build.
- `CityMaps.GetIntersectionByName`: the case folding covers ASCII letters only, and the hash map's iteration order is an arbitrary choice among the matches.
- `ShortestPath.FindShortestPath`: requires non-negative road lengths. With a negative cycle reachable before the goal is polled, the Java loop may never end. With negative weights it is not Dijkstra's search.
- `ShortestPath.FindShortestPath`: the priority queue with stale entries is modelled as a settled set with an arbitrary choice among equal distances. With non-negative weights a stale entry never improves a distance, so the same predecessor roads are possible. Which of several shortest walks is found is not pinned to the queue's tie order.
- `ShortestPath.FindShortestPath`: intersections are compared by id, where Java uses object identity. In Java, re-adding an id after roads reference it leaves the old object in those roads. Those roads keep the old object's light factor, and they never leave the new object in the search. The model follows the id, so such roads take the new intersection's light status and are searched from it. The loaders add every intersection before any road, so this never arises there.
- `PathFinder.BuildPath`: requires that the walk back from the goal stops, which every result of `FindShortestPath` guarantees. On a cyclic map the Java loop does not end.
- `PathFinder.FindTopFastestPaths`: the unused `excludedRoads` set is not modelled. The shortest route is computed once, because the roads do not change between iterations and the search is deterministic.

## Findings

| source | as written | input that shows it | evidently intended | confidence | as-written member | corrected member |
|---|---|---|---|---|---|---|
| src/com/pathfinding/PathFinder.java:102-106 | The retry loop of `findTopFastestPaths` runs `i--; continue` when the rebuilt path is empty or already collected. The next iteration rebuilds the same path, so `i` never advances. | `topN = 2` with the goal reachable from a different start: the second iteration finds the first path again, forever. Also `topN = 1` with `start == goal` or an unreachable goal: the path is always empty. | Stop when the search offers nothing new, and return the distinct paths found so far. | not executed | PathFinder.TopPathsAsWrittenDiverges | PathFinder.FindTopFastestPaths |
