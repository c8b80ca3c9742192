/**
 * The city container (`com.model.CityMap`): intersections keyed by id with
 * last-write-wins insertion, and an ordered road list that accepts duplicates.
 */
module CityMaps {
  import opened Wrappers
  import opened TrafficLights
  import opened Intersections
  import opened Roads

  datatype CityMap = CityMap(intersections: map<Id, Intersection>, roads: seq<Road>)

  /** A freshly constructed map. */
  function EmptyCity(): (m: CityMap)
    ensures m.intersections == map[] && m.roads == []
  {
    CityMap(map[], [])
  }

  /** Every stored intersection sits under its own id. */
  predicate WellKeyed(m: CityMap) {
    forall id :: id in m.intersections ==> m.intersections[id].id == id
  }

  /** The ids of the intersections that carry a traffic light. */
  function LitIds(m: CityMap): (ids: set<Id>)
    ensures forall id :: id in ids <==> id in m.intersections && HasTrafficLight(m.intersections[id])
  {
    set id | id in m.intersections && HasTrafficLight(m.intersections[id])
  }

  /**
   * Setting (or clearing, with `None`) the light of a stored intersection,
   * as the light loader does through `getIntersectionById`, lights (or
   * unlights) exactly that id; every road touching it then gets the light
   * factor 1.5 (or loses it unless its other end is lit).
   */
  lemma LitAfterSetTrafficLight(m: CityMap, k: Id, l: Option<Light>, r: Road)
    requires k in m.intersections
    ensures var m' := m.(intersections := m.intersections[k := SetTrafficLight(m.intersections[k], l)]);
      && LitIds(m') == (if l.Some? then LitIds(m) + {k} else LitIds(m) - {k})
      && (l.Some? && (r.src == k || r.dst == k) ==> LightFactor(r, LitIds(m')) == 1.5)
      && (l.None? && r.src == k && r.dst !in LitIds(m) ==> LightFactor(r, LitIds(m')) == 1.0)
  {
  }

  /** `addIntersection` replaces the stored intersection by an unlit one: its id leaves the lit set, no other does. */
  lemma LitAfterAddIntersection(m: CityMap, id: Id, x: real, y: real)
    ensures LitIds(AddIntersection(m, id, x, y)) == LitIds(m) - {id}
  {
  }

  /** `addRoad`: append, duplicates included; the intersections are untouched. */
  function AddRoad(m: CityMap, r: Road): (m': CityMap)
    ensures |m'.roads| == |m.roads| + 1 && m'.roads[|m.roads|] == r
    ensures m'.roads[..|m.roads|] == m.roads
    ensures m'.intersections == m.intersections
  {
    m.(roads := m.roads + [r])
  }

  /**
   * `addIntersection`: a fresh intersection (no light, no connected roads)
   * replaces whatever was stored under `id`.
   */
  function AddIntersection(m: CityMap, id: Id, x: real, y: real): (m': CityMap)
    ensures id in m'.intersections && m'.intersections[id] == NewIntersection(id, x, y)
    ensures forall k :: k != id ==> (k in m'.intersections <==> k in m.intersections)
    ensures forall k :: k != id && k in m.intersections ==> m'.intersections[k] == m.intersections[k]
    ensures m'.roads == m.roads
    ensures WellKeyed(m) ==> WellKeyed(m')
  {
    m.(intersections := m.intersections[id := NewIntersection(id, x, y)])
  }

  /** `getIntersectionById`: `None` stands for Java's `null`. */
  function GetIntersectionById(m: CityMap, id: Id): (r: Option<Intersection>)
    ensures r.None? <==> id !in m.intersections
    ensures r.Some? ==> r.value == m.intersections[id]
    ensures r.Some? && WellKeyed(m) ==> r.value.id == id
  {
    if id in m.intersections then Some(m.intersections[id]) else None
  }

  /** `getRoads`: the stored list itself, not a copy. */
  function GetRoads(m: CityMap): (rs: seq<Road>)
    ensures rs == m.roads
  {
    m.roads
  }

  /** A sequence of `addRoad` calls, as the loader issues them. */
  function AddRoads(m: CityMap, rs: seq<Road>): CityMap
    decreases |rs|
  {
    if |rs| == 0 then m else AddRoads(AddRoad(m, rs[0]), rs[1..])
  }

  /** `getRoads` lists the added roads in insertion order, duplicates included, after the earlier ones. */
  lemma {:induction false} RoadsInInsertionOrder(m: CityMap, rs: seq<Road>)
    ensures GetRoads(AddRoads(m, rs)) == GetRoads(m) + rs
    ensures AddRoads(m, rs).intersections == m.intersections
    decreases |rs|
  {
    if |rs| > 0 {
      RoadsInInsertionOrder(AddRoad(m, rs[0]), rs[1..]);
      assert m.roads + [rs[0]] + rs[1..] == m.roads + rs;
    }
  }

  /** A later `addIntersection` with the same id overrides the earlier one entirely. */
  lemma LastWriteWins(m: CityMap, id: Id, x1: real, y1: real, x2: real, y2: real)
    ensures AddIntersection(AddIntersection(m, id, x1, y1), id, x2, y2) == AddIntersection(m, id, x2, y2)
    ensures GetIntersectionById(AddIntersection(AddIntersection(m, id, x1, y1), id, x2, y2), id)
      == Some(NewIntersection(id, x2, y2))
  {
  }

  /** A sequence of `addIntersection` calls, as the loader issues them. */
  function AddIntersections(m: CityMap, recs: seq<(Id, real, real)>): CityMap
    decreases |recs|
  {
    if |recs| == 0 then m
    else AddIntersections(AddIntersection(m, recs[0].0, recs[0].1, recs[0].2), recs[1..])
  }

  /** An id that was never added reads back as `null`; ids and roads are otherwise unchanged. */
  lemma {:induction false} NeverAddedIsAbsent(m: CityMap, recs: seq<(Id, real, real)>, id: Id)
    requires id !in m.intersections
    requires forall k :: 0 <= k < |recs| ==> recs[k].0 != id
    ensures GetIntersectionById(AddIntersections(m, recs), id) == None
    ensures AddIntersections(m, recs).roads == m.roads
    decreases |recs|
  {
    if |recs| > 0 {
      NeverAddedIsAbsent(AddIntersection(m, recs[0].0, recs[0].1, recs[0].2), recs[1..], id);
    }
  }

  /** ASCII case folding, the part of Java's `equalsIgnoreCase` this model covers. */
  function ToLower(c: char): char {
    if 'A' <= c <= 'Z' then (c as int + 32) as char else c
  }

  /** `String.equalsIgnoreCase`, for ASCII letters. */
  predicate EqualsIgnoreCase(a: string, b: string) {
    |a| == |b| && forall i :: 0 <= i < |a| ==> ToLower(a[i]) == ToLower(b[i])
  }

  /** Case-insensitive equality is an equivalence relation. */
  lemma EqualsIgnoreCaseEquivalence(a: string, b: string, c: string)
    ensures EqualsIgnoreCase(a, a)
    ensures EqualsIgnoreCase(a, b) ==> EqualsIgnoreCase(b, a)
    ensures EqualsIgnoreCase(a, b) && EqualsIgnoreCase(b, c) ==> EqualsIgnoreCase(a, c)
  {
  }

  /**
   * `getIntersectionByName`: the first intersection, in the hash map's
   * unspecified iteration order, whose id equals `name` ignoring case.
   */
  method GetIntersectionByName(m: CityMap, name: string) returns (r: Option<Intersection>)
    ensures r.None? <==> forall n :: n in m.intersections.Values ==> !EqualsIgnoreCase(n.id, name)
    ensures r.Some? ==> r.value in m.intersections.Values && EqualsIgnoreCase(r.value.id, name)
    ensures WellKeyed(m) ==>
      (r.None? <==> forall id :: id in m.intersections ==> !EqualsIgnoreCase(id, name))
  {
    var rest := m.intersections.Values;
    while rest != {}
      invariant rest <= m.intersections.Values
      invariant forall n :: n in m.intersections.Values - rest ==> !EqualsIgnoreCase(n.id, name)
      decreases |rest|
    {
      var n :| n in rest;
      if EqualsIgnoreCase(n.id, name) {
        return Some(n);
      }
      rest := rest - {n};
    }
    r := None;
    assert WellKeyed(m) ==> forall id :: id in m.intersections ==> m.intersections[id] in m.intersections.Values;
  }
}
