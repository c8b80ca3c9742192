/**
 * Roads (`com.model.Road` and its subclass `com.model.OneWayRoad`), as one
 * datatype with a `oneWay` flag that selects the subclass's overrides.
 */
module Roads {
  import opened Costs
  import opened Intersections

  /**
   * A directed road between two intersections (by id). `count` is Java's
   * `vehicleCount`; `style` and `highlighted` are display state.
   */
  datatype Road = Road(
    src: Id,
    dst: Id,
    length: real,
    blocked: bool,
    count: nat,
    style: string,
    highlighted: bool,
    oneWay: bool)

  /** The suffix `OneWayRoad.setStyle` appends to every style. */
  const OneWaySuffix: string := " -fx-stroke: blue; -fx-stroke-width: 3px;"

  /** Vehicle-count bands of `getStyleColor`. */
  const ModerateThreshold: nat := 15
  const HeavyThreshold: nat := 60

  /** Both constructors: no vehicles, empty style, not highlighted. */
  function NewRoad(src: Id, dst: Id, length: real, blocked: bool, oneWay: bool): (r: Road)
    ensures r.src == src && r.dst == dst && r.length == length && r.blocked == blocked
    ensures r.count == 0 && r.style == "" && !r.highlighted
    ensures IsOneWay(r) == oneWay
  {
    Road(src, dst, length, blocked, 0, "", false, oneWay)
  }

  /** `isOneWay`: false for `Road`, overridden to true by `OneWayRoad`. */
  predicate IsOneWay(r: Road) {
    r.oneWay
  }

  /** `addVehicle` */
  function AddVehicle(r: Road): (r': Road)
    ensures r'.count == r.count + 1
    ensures r' == r.(count := r'.count)
  {
    r.(count := r.count + 1)
  }

  /** `removeVehicle`: the count is decremented only while it is positive. */
  function RemoveVehicle(r: Road): (r': Road)
    ensures r.count > 0 ==> r'.count == r.count - 1
    ensures r.count == 0 ==> r'.count == 0
    ensures r' == r.(count := r'.count)
  {
    if r.count > 0 then r.(count := r.count - 1) else r
  }

  /** Adding a vehicle and then removing one restores the road. */
  lemma AddThenRemove(r: Road)
    ensures RemoveVehicle(AddVehicle(r)) == r
  {
  }

  /** `1 + vehicleCount / 10.0` */
  function TrafficFactor(count: nat): (f: real)
    ensures f >= 1.0
  {
    1.0 + (count as real) / 10.0
  }

  /** 1.5 when either endpoint has a traffic light (`lit` holds those ids), else 1.0. */
  function LightFactor(r: Road, lit: set<Id>): (f: real)
    ensures f >= 1.0
  {
    if r.src in lit || r.dst in lit then 1.5 else 1.0
  }

  /** `Road.calculateWeight` */
  function BaseWeight(r: Road, lit: set<Id>): Cost {
    if r.blocked then Inf
    else Fin(r.length * TrafficFactor(r.count) * LightFactor(r, lit))
  }

  /** `OneWayRoad.calculateWeight`, with its direction factor of 1.0. */
  function OneWayWeight(r: Road, lit: set<Id>): Cost {
    if r.blocked then Inf
    else
      var directionFactor := 1.0;
      Fin(r.length * TrafficFactor(r.count) * directionFactor * LightFactor(r, lit))
  }

  /** `calculateWeight` with the subclass override selected by `oneWay`. */
  function Weight(r: Road, lit: set<Id>): (w: Cost)
    ensures w.Inf? <==> r.blocked
    ensures w.Fin? ==> w.val == r.length * TrafficFactor(r.count) * LightFactor(r, lit)
    ensures r.length >= 0.0 ==> NonNeg(w)
  {
    if r.oneWay then OneWayWeight(r, lit) else BaseWeight(r, lit)
  }

  /** The one-way override computes exactly the base formula: there is no two-way penalty. */
  lemma OneWayMatchesBase(r: Road, lit: set<Id>)
    ensures OneWayWeight(r, lit) == BaseWeight(r, lit)
    ensures Weight(r, lit) == Weight(r.(oneWay := !r.oneWay), lit)
  {
  }

  /** A blocked road is unusable whatever its load or lights. */
  lemma BlockedIsInfinite(r: Road, lit: set<Id>, count: nat)
    requires r.blocked
    ensures Weight(r.(count := count), lit) == Inf
  {
  }

  /** For a non-negative length the weight never decreases as vehicles are added. */
  lemma WeightMonotoneInCount(r: Road, lit: set<Id>, count: nat)
    requires r.length >= 0.0 && r.count <= count
    ensures Le(Weight(r, lit), Weight(r.(count := count), lit))
  {
    if !r.blocked {
      var k := r.length * LightFactor(r, lit);
      assert TrafficFactor(r.count) <= TrafficFactor(count);
      assert r.length * TrafficFactor(r.count) * LightFactor(r, lit) == k * TrafficFactor(r.count);
      assert r.length * TrafficFactor(count) * LightFactor(r, lit) == k * TrafficFactor(count);
      MulMonoReal(k, TrafficFactor(r.count), TrafficFactor(count));
    }
  }

  lemma MulMonoReal(k: real, a: real, b: real)
    requires k >= 0.0 && a <= b
    ensures k * a <= k * b
  {
  }

  /** A weight is never below the road's length: every factor is at least 1. */
  lemma WeightAtLeastLength(r: Road, lit: set<Id>)
    requires r.length >= 0.0
    ensures Le(Fin(r.length), Weight(r, lit))
  {
    if !r.blocked {
      var t, f := TrafficFactor(r.count), LightFactor(r, lit);
      assert t * f >= 1.0 by { MulMonoReal(t, 1.0, f); }
      MulMonoReal(r.length, 1.0, t * f);
      assert r.length * t * f == r.length * (t * f);
    }
  }

  /** 40 vehicles multiply the empty road's weight by exactly `1 + 40/10`. */
  lemma LoadFactorScenario(r: Road, lit: set<Id>)
    requires !r.blocked && r.count == 0
    ensures Weight(r.(count := 40), lit).val == 5.0 * Weight(r, lit).val
  {
  }

  /** `reset`: unblocked, empty and unstyled; the endpoints, length, kind and highlight stay. */
  function Reset(r: Road): (r': Road)
    ensures !r'.blocked && r'.count == 0 && r'.style == ""
    ensures r'.src == r.src && r'.dst == r.dst && r'.length == r.length
    ensures r'.oneWay == r.oneWay && r'.highlighted == r.highlighted
  {
    r.(blocked := false, count := 0, style := "")
  }

  /** A reset road weighs its length times the light factor. */
  lemma ResetWeight(r: Road, lit: set<Id>)
    ensures Weight(Reset(r), lit) == Fin(r.length * LightFactor(r, lit))
  {
  }

  /** `highlightRoad` flips the highlight and nothing else. */
  function HighlightRoad(r: Road): (r': Road)
    ensures r'.highlighted == !r.highlighted
    ensures r' == r.(highlighted := r'.highlighted)
  {
    r.(highlighted := !r.highlighted)
  }

  lemma HighlightTwice(r: Road)
    ensures HighlightRoad(HighlightRoad(r)) == r
  {
  }

  /** `setStyle`, with `OneWayRoad`'s override appending its fixed suffix. */
  function SetStyle(r: Road, s: string): (r': Road)
    ensures !r.oneWay ==> r'.style == s
    ensures r.oneWay ==> r'.style == s + OneWaySuffix
    ensures r' == r.(style := r'.style)
  {
    if r.oneWay then r.(style := s + OneWaySuffix) else r.(style := s)
  }

  /** The colour `getStyleColor` picks, as an abstract band. */
  datatype Band = Blocked | Highlighted | LowTraffic | ModerateTraffic | HeavyTraffic

  /** `getStyleColor`: blocked first, then highlighted, then by vehicle count. */
  function ColorBand(r: Road): (b: Band)
    ensures b == Blocked <==> r.blocked
    ensures b == Highlighted <==> !r.blocked && r.highlighted
    ensures b == LowTraffic <==> !r.blocked && !r.highlighted && r.count < ModerateThreshold
    ensures b == ModerateTraffic <==> !r.blocked && !r.highlighted && ModerateThreshold <= r.count < HeavyThreshold
    ensures b == HeavyTraffic <==> !r.blocked && !r.highlighted && HeavyThreshold <= r.count
  {
    if r.blocked then Blocked
    else if r.highlighted then Highlighted
    else if r.count < ModerateThreshold then LowTraffic
    else if r.count < HeavyThreshold then ModerateTraffic
    else HeavyTraffic
  }

  function TrafficRank(b: Band): nat {
    match b
    case LowTraffic => 0
    case ModerateTraffic => 1
    case HeavyTraffic => 2
    case _ => 0
  }

  /**
   * The traffic bands agree with the cost function: of two otherwise equal
   * roads of positive length, the one in the heavier band weighs more.
   */
  lemma HeavierBandWeighsMore(r: Road, lit: set<Id>, count: nat)
    requires !r.blocked && !r.highlighted && r.length > 0.0
    requires TrafficRank(ColorBand(r)) < TrafficRank(ColorBand(r.(count := count)))
    ensures Lt(Weight(r, lit), Weight(r.(count := count), lit))
  {
    assert r.count < count;
    WeightStrictInCount(r, lit, count);
  }

  /** On a road of positive length every extra vehicle makes the weight strictly larger. */
  lemma WeightStrictInCount(r: Road, lit: set<Id>, count: nat)
    requires !r.blocked && r.length > 0.0 && r.count < count
    ensures Lt(Weight(r, lit), Weight(r.(count := count), lit))
  {
    var r2 := r.(count := count);
    var x, f := r.length, LightFactor(r, lit);
    var a, b := TrafficFactor(r.count), TrafficFactor(count);
    assert LightFactor(r2, lit) == f;
    ScaledStrict(x, a, b, f);
    assert x * a * f < x * b * f;
    assert Weight(r, lit) == Fin(x * a * f);
    assert Weight(r2, lit) == Fin(x * b * f);
    LtOfVals(Weight(r, lit), Weight(r2, lit), x * a * f, x * b * f);
  }

  lemma LtOfVals(w1: Cost, w2: Cost, p: real, q: real)
    requires w1 == Fin(p) && w2 == Fin(q) && p < q
    ensures Lt(w1, w2)
  {
  }

  /** `x * a * f < x * b * f` for positive `x`, `f` and `a < b`. */
  lemma ScaledStrict(x: real, a: real, b: real, f: real)
    requires x > 0.0 && f > 0.0 && a < b
    ensures x * a * f < x * b * f
  {
    MulStrictReal(x, a, b);
    MulStrictReal(f, x * a, x * b);
  }

  lemma MulStrictReal(k: real, a: real, b: real)
    requires k > 0.0 && a < b
    ensures k * a < k * b
  {
  }
}
