/**
 * Intersections (`com.model.Intersection`): an immutable id and position, an
 * optional traffic light, and the duplicate-free list of connected roads.
 * Roads are referred to by their position in the city's road sequence.
 */
module Intersections {
  import opened Wrappers
  import opened TrafficLights

  type Id = string

  datatype Intersection = Intersection(
    id: Id,
    x: real,
    y: real,
    light: Option<Light>,
    connected: seq<nat>)

  /** No road appears twice in a list. */
  predicate NoDuplicates(s: seq<nat>) {
    forall i, j :: 0 <= i < j < |s| ==> s[i] != s[j]
  }

  /** The constructor: no light and no connected roads yet. */
  function NewIntersection(id: Id, x: real, y: real): (n: Intersection)
    ensures n.id == id && n.x == x && n.y == y
    ensures n.light.None? && n.connected == []
  {
    Intersection(id, x, y, None, [])
  }

  predicate HasTrafficLight(n: Intersection) {
    n.light.Some?
  }

  /** `setTrafficLight`; Java also accepts `null`, which removes the light. */
  function SetTrafficLight(n: Intersection, l: Option<Light>): (r: Intersection)
    ensures r.light == l
    ensures HasTrafficLight(r) <==> l.Some?
    ensures r.id == n.id && r.x == n.x && r.y == n.y && r.connected == n.connected
  {
    n.(light := l)
  }

  /**
   * `updateTrafficLight`: one `update` of the light when there is one; an
   * intersection without a light is returned unchanged.
   */
  function UpdateTrafficLight(n: Intersection): (r: Result<Intersection, LightError>)
    ensures n.light.None? ==> r == Ok(n)
    ensures n.light.Some? ==> match Update(n.light.value)
      case Ok(l) => r == Ok(n.(light := Some(l)))
      case Err(e) => r == Err(e)
    ensures r.Ok? ==> r.value.id == n.id && r.value.x == n.x && r.value.y == n.y
    ensures r.Ok? ==> r.value.connected == n.connected && (HasTrafficLight(r.value) <==> HasTrafficLight(n))
  {
    match n.light
    case None => Ok(n)
    case Some(l) =>
      match Update(l)
      case Ok(l') => Ok(n.(light := Some(l')))
      case Err(e) => Err(e)
  }

  /**
   * `addConnectedRoad`: a missing (`null`) road or one already in the list
   * leaves the list alone; any other road is appended at the end.
   */
  function AddConnectedRoad(n: Intersection, road: Option<nat>): (r: Intersection)
    ensures road.None? ==> r == n
    ensures road.Some? && road.value in n.connected ==> r == n
    ensures road.Some? && road.value !in n.connected ==> r.connected == n.connected + [road.value]
    ensures road.Some? ==> road.value in r.connected
    ensures forall k :: k in r.connected <==> k in n.connected || road == Some(k)
    ensures r.id == n.id && r.x == n.x && r.y == n.y && r.light == n.light
    ensures NoDuplicates(n.connected) ==> NoDuplicates(r.connected)
  {
    if road.Some? && road.value !in n.connected then
      n.(connected := n.connected + [road.value])
    else
      n
  }

  /** Adding the same road twice is the same as adding it once. */
  lemma AddConnectedRoadIdempotent(n: Intersection, road: Option<nat>)
    ensures AddConnectedRoad(AddConnectedRoad(n, road), road) == AddConnectedRoad(n, road)
  {
  }

  /** Adding roads one after the other never creates a duplicate. */
  lemma {:induction false} AddAllNoDuplicates(n: Intersection, roads: seq<Option<nat>>)
    requires NoDuplicates(n.connected)
    ensures NoDuplicates(AddAll(n, roads).connected)
    ensures n.connected <= AddAll(n, roads).connected
    decreases |roads|
  {
    if |roads| > 0 {
      var n' := AddConnectedRoad(n, roads[0]);
      AddAllNoDuplicates(n', roads[1..]);
      assert AddAll(n, roads) == AddAll(n', roads[1..]);
      assert n.connected <= n'.connected;
    }
  }

  /** A sequence of `addConnectedRoad` calls, in order. */
  function AddAll(n: Intersection, roads: seq<Option<nat>>): Intersection
    decreases |roads|
  {
    if |roads| == 0 then n else AddAll(AddConnectedRoad(n, roads[0]), roads[1..])
  }
}
