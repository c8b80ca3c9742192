/**
 * The load simulator (`com.simulation.WeightSimulator`). The random draws
 * of `java.util.Random` are inputs: one `Draw` per road, in road order.
 */
module WeightSimulator {
  import opened Intersections
  import opened Roads
  import opened CityMaps
  import opened Costs

  /** Vehicles every road starts with. */
  const InitialVehicles: nat := 25
  /** Vehicles the road from "A" to "C" starts with. */
  const SpecialVehicles: nat := 70
  /** The largest change of one simulation step. */
  const MaxChange: nat := 5

  /** `random.nextInt(MAX_CHANGE + 1)` and `random.nextBoolean()` for one road. */
  datatype Draw = Draw(change: nat, add: bool)

  predicate ValidDraws(draws: seq<Draw>, n: nat) {
    |draws| == n && forall i :: 0 <= i < |draws| ==> draws[i].change <= MaxChange
  }

  /** How many vehicles `initializeTraffic` adds to a road. */
  function SeedLoad(r: Road): nat {
    if r.src == "A" && r.dst == "C" then SpecialVehicles else InitialVehicles
  }

  /** The count a road reaches after one draw: added, or removed down to a floor of 0. */
  function StepCount(count: nat, d: Draw): nat {
    if d.add then count + d.change
    else if d.change <= count then count - d.change
    else 0
  }

  /** `n` calls of `addVehicle`. */
  method AddVehicles(r: Road, n: nat) returns (r': Road)
    ensures r' == r.(count := r.count + n)
  {
    r' := r;
    var i := 0;
    while i < n
      invariant 0 <= i <= n
      invariant r' == r.(count := r.count + i)
    {
      r' := AddVehicle(r');
      i := i + 1;
    }
  }

  /** `n` calls of `removeVehicle`: the count drops by `n` but never below 0. */
  method RemoveVehicles(r: Road, n: nat) returns (r': Road)
    ensures r'.count == if n <= r.count then r.count - n else 0
    ensures r' == r.(count := r'.count)
  {
    r' := r;
    var i := 0;
    while i < n
      invariant 0 <= i <= n
      invariant r'.count == if i <= r.count then r.count - i else 0
      invariant r' == r.(count := r'.count)
    {
      r' := RemoveVehicle(r');
      i := i + 1;
    }
  }

  /** `initializeTraffic`: 25 more vehicles on every road, 70 on the road from "A" to "C". */
  method InitializeTraffic(m: CityMap) returns (m': CityMap)
    ensures m'.intersections == m.intersections && |m'.roads| == |m.roads|
    ensures forall i :: 0 <= i < |m.roads| ==>
      m'.roads[i] == m.roads[i].(count := m.roads[i].count + SeedLoad(m.roads[i]))
  {
    var roads := m.roads;
    var i := 0;
    while i < |roads|
      invariant 0 <= i <= |roads| && |roads| == |m.roads|
      invariant forall k :: 0 <= k < i ==>
        roads[k] == m.roads[k].(count := m.roads[k].count + SeedLoad(m.roads[k]))
      invariant forall k :: i <= k < |roads| ==> roads[k] == m.roads[k]
    {
      var r := AddVehicles(roads[i], SeedLoad(roads[i]));
      roads := roads[i := r];
      i := i + 1;
    }
    m' := m.(roads := roads);
  }

  /** The constructor: traffic is seeded only when the flag is set. */
  method NewSimulator(m: CityMap, initializeTraffic: bool) returns (m': CityMap)
    ensures !initializeTraffic ==> m' == m
    ensures m'.intersections == m.intersections && |m'.roads| == |m.roads|
    ensures initializeTraffic ==> forall i :: 0 <= i < |m.roads| ==>
      m'.roads[i] == m.roads[i].(count := m.roads[i].count + SeedLoad(m.roads[i]))
  {
    if initializeTraffic {
      m' := InitializeTraffic(m);
    } else {
      m' := m;
    }
  }

  /**
   * `simulateTraffic`: every road in turn gains or loses `change` vehicles
   * (with the floor of 0); nothing but vehicle counts changes.
   */
  method SimulateTraffic(m: CityMap, draws: seq<Draw>) returns (m': CityMap)
    requires ValidDraws(draws, |m.roads|)
    ensures m'.intersections == m.intersections && |m'.roads| == |m.roads|
    ensures forall i :: 0 <= i < |m.roads| ==>
      m'.roads[i] == m.roads[i].(count := StepCount(m.roads[i].count, draws[i]))
    ensures forall i :: 0 <= i < |m.roads| ==>
      m.roads[i].count - MaxChange <= m'.roads[i].count <= m.roads[i].count + MaxChange
  {
    var roads := m.roads;
    var i := 0;
    while i < |roads|
      invariant 0 <= i <= |roads| && |roads| == |m.roads|
      invariant forall k :: 0 <= k < i ==>
        roads[k] == m.roads[k].(count := StepCount(m.roads[k].count, draws[k]))
      invariant forall k :: i <= k < |roads| ==> roads[k] == m.roads[k]
    {
      var d := draws[i];
      var r;
      if d.add {
        r := AddVehicles(roads[i], d.change);
      } else {
        r := RemoveVehicles(roads[i], d.change);
      }
      roads := roads[i := r];
      i := i + 1;
    }
    m' := m.(roads := roads);
  }

  /** A removing draw undoes an adding draw of the same size. */
  lemma AddThenRemoveRestores(count: nat, c: nat)
    ensures StepCount(StepCount(count, Draw(c, true)), Draw(c, false)) == count
  {
  }

  /** Weights move with the step: an adding draw never makes a road cheaper, a removing one never dearer. */
  lemma StepWeightDirection(r: Road, lit: set<Id>, d: Draw)
    requires r.length >= 0.0
    ensures d.add ==> Le(Weight(r, lit), Weight(r.(count := StepCount(r.count, d)), lit))
    ensures !d.add ==> Le(Weight(r.(count := StepCount(r.count, d)), lit), Weight(r, lit))
  {
    var r' := r.(count := StepCount(r.count, d));
    if d.add {
      WeightMonotoneInCount(r, lit, r'.count);
    } else {
      WeightMonotoneInCount(r', lit, r.count);
      assert r'.(count := r.count) == r;
    }
  }
}
