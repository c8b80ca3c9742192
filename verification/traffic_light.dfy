/**
 * The traffic-light phase machine (`com.model.TrafficLight`): a tick counter,
 * three integer durations and a phase recomputed from `tick mod cycle`.
 */
module TrafficLights {
  import opened Wrappers

  datatype Phase = Green | Yellow | Red

  /** `time` is Java's `currentTime`; it starts at 0 and only ever grows or is reset. */
  datatype Light = Light(phase: Phase, green: int, yellow: int, red: int, time: nat)

  /** The exception Java raises on a zero cycle, with the state it leaves behind. */
  datatype LightError = DivisionByZero(left: Light)

  function Cycle(l: Light): int {
    l.green + l.yellow + l.red
  }

  /**
   * The phase at position `t` of a cycle with the given durations: green
   * first, then yellow, then red. `t` is always non-negative here, where
   * Java's truncating `%` and Dafny's Euclidean `%` agree.
   */
  function PhaseAt(green: int, yellow: int, t: int): Phase {
    if t < green then Green
    else if t < green + yellow then Yellow
    else Red
  }

  /** The phase a light should show after an `update` at its current time. */
  predicate InStep(l: Light) {
    Cycle(l) != 0 ==> l.phase == PhaseAt(l.green, l.yellow, l.time % Cycle(l))
  }

  /** A new light starts GREEN at time 0 with the given durations. */
  function NewLight(green: int, yellow: int, red: int): (l: Light)
    ensures l.phase == Green && l.time == 0
    ensures l.green == green && l.yellow == yellow && l.red == red
  {
    Light(Green, green, yellow, red, 0)
  }

  /**
   * `update`: one tick passes and the phase is recomputed. A zero cycle is a
   * division by zero, raised after the tick counter was already incremented.
   */
  function Update(l: Light): (r: Result<Light, LightError>)
    ensures Cycle(l) == 0 <==> r.Err?
    ensures r.Err? ==> r.error.left == l.(time := l.time + 1)
    ensures r.Ok? ==> r.value.time == l.time + 1
    ensures r.Ok? ==> InStep(r.value)
    ensures r.Ok? ==> r.value.green == l.green && r.value.yellow == l.yellow && r.value.red == l.red
    ensures r.Ok? ==> var t := (l.time + 1) % Cycle(l);
      && (r.value.phase == Green <==> t < l.green)
      && (r.value.phase == Yellow <==> l.green <= t < l.green + l.yellow)
      && (r.value.phase == Red <==> l.green <= t && l.green + l.yellow <= t)
  {
    var ticked := l.(time := l.time + 1);
    var cycle := Cycle(l);
    if cycle == 0 then Err(DivisionByZero(ticked))
    else Ok(ticked.(phase := PhaseAt(l.green, l.yellow, ticked.time % cycle)))
  }

  predicate IsGreen(l: Light) { l.phase == Green }
  predicate IsYellow(l: Light) { l.phase == Yellow }
  predicate IsRed(l: Light) { l.phase == Red }

  /** `toggle`: GREEN and RED swap, YELLOW stays, and the timer restarts. */
  function Toggle(l: Light): (r: Light)
    ensures l.phase == Green ==> r.phase == Red
    ensures l.phase == Red ==> r.phase == Green
    ensures l.phase == Yellow ==> r.phase == Yellow
    ensures r.time == 0
    ensures r.green == l.green && r.yellow == l.yellow && r.red == l.red
  {
    var p := match l.phase
      case Green => Red
      case Red => Green
      case Yellow => Yellow;
    l.(phase := p, time := 0)
  }

  /** `reset`: back to the start of the cycle. */
  function Reset(l: Light): (r: Light)
    ensures r == NewLight(l.green, l.yellow, l.red)
  {
    l.(phase := Green, time := 0)
  }

  /** `setCycleDuration`: store the three durations, then `reset`. */
  function SetCycleDuration(l: Light, green: int, yellow: int, red: int): (r: Light)
    ensures r == Reset(l.(green := green, yellow := yellow, red := red))
    ensures r == NewLight(green, yellow, red)
  {
    Light(Green, green, yellow, red, 0)
  }

  /** Where the current phase's window ends within the cycle: green, then yellow, then red. */
  function PhaseEnd(l: Light): int {
    match l.phase
    case Green => l.green
    case Yellow => l.green + l.yellow
    case Red => Cycle(l)
  }

  /** `timeLeftInCurrentState`: the ticks left before the current phase ends. */
  function TimeLeft(l: Light): (r: Result<int, LightError>)
    ensures Cycle(l) == 0 <==> r.Err?
    ensures r.Err? ==> r.error.left == l
    ensures r.Ok? ==> l.time % Cycle(l) + r.value == PhaseEnd(l)
  {
    var cycle := Cycle(l);
    if cycle == 0 then Err(DivisionByZero(l))
    else
      var t := l.time % cycle;
      match l.phase
      case Green => Ok(l.green - t)
      case Yellow => Ok(l.yellow - (t - l.green))
      case Red => Ok(l.red - (t - (l.green + l.yellow)))
  }

  /** The configured duration of the light's current phase. */
  function PhaseDuration(l: Light): int {
    match l.phase
    case Green => l.green
    case Yellow => l.yellow
    case Red => l.red
  }

  /** Exactly one of the three phase predicates holds in every state. */
  lemma ExactlyOnePhase(l: Light)
    ensures IsGreen(l) || IsYellow(l) || IsRed(l)
    ensures !(IsGreen(l) && IsYellow(l)) && !(IsGreen(l) && IsRed(l)) && !(IsYellow(l) && IsRed(l))
  {
  }

  /** The phase after `update` has period `green + yellow + red`. */
  lemma UpdatePeriodic(l: Light)
    requires Cycle(l) > 0
    ensures Update(l).Ok? && Update(l.(time := l.time + Cycle(l))).Ok?
    ensures Update(l.(time := l.time + Cycle(l))).value.phase == Update(l).value.phase
  {
    var c := Cycle(l);
    ModShift(l.time + 1, c);
  }

  lemma ModShift(a: nat, c: int)
    requires c > 0
    ensures (a + c) % c == a % c
  {
    var q, r := a / c, a % c;
    assert a == c * q + r;
    assert a + c == c * (q + 1) + r;
    ModUnique(a + c, c, q + 1, r);
  }

  /** Euclidean division is unique: `x == c*q + r` with `0 <= r < c` fixes `x % c`. */
  lemma ModUnique(x: int, c: int, q: int, r: int)
    requires c > 0 && 0 <= r < c && x == c * q + r
    ensures x % c == r
  {
    var q', r' := x / c, x % c;
    assert c * q + r == c * q' + r';
    if q < q' {
      assert c * q' >= c * (q + 1) by { MulMono(c, q + 1, q'); }
    } else if q' < q {
      assert c * q >= c * (q' + 1) by { MulMono(c, q' + 1, q); }
    }
  }

  lemma MulMono(c: int, a: int, b: int)
    requires c > 0 && a <= b
    ensures c * a <= c * b
  {
  }

  /** Toggling twice restores the phase (every phase) and leaves the timer at 0. */
  lemma ToggleTwice(l: Light)
    ensures Toggle(Toggle(l)) == l.(time := 0)
  {
  }

  /**
   * In a state an `update` produced (or a reset light whose green phase is
   * positive), with non-negative durations, the time left lies between 1 and
   * the current phase's duration.
   */
  lemma TimeLeftBounds(l: Light)
    requires InStep(l)
    requires l.green >= 0 && l.yellow >= 0 && l.red >= 0 && Cycle(l) > 0
    ensures TimeLeft(l).Ok?
    ensures 1 <= TimeLeft(l).value <= PhaseDuration(l)
  {
  }

  /** Right after any successful `update` the bound above holds. */
  lemma TimeLeftAfterUpdate(l: Light)
    requires l.green >= 0 && l.yellow >= 0 && l.red >= 0 && Cycle(l) > 0
    ensures Update(l).Ok?
    ensures TimeLeft(Update(l).value).Ok?
    ensures 1 <= TimeLeft(Update(l).value).value <= PhaseDuration(Update(l).value)
  {
    TimeLeftBounds(Update(l).value);
  }

  /** A reset light is in step with its cycle as soon as the green phase is positive. */
  lemma ResetInStep(l: Light)
    requires l.green > 0
    ensures InStep(Reset(l))
  {
  }
}
