/** c_detection_handler: what the sensor module does with one set of readings. Pressure to altitude
    conversion is a parameter, accelerations and slopes are exact. */
module DetectionHandlers {
  import opened LinearFit
  import opened Debouncers
  import opened PhaseControllers
  import opened Flight

  const BAROM_VELOCITY_FINDER_WINDOW_SIZE := 10
  const BOOST_NOT_YET_HAPPENED := 0xFFFF_FFFF_FFFF_FFFF

  datatype Vector = Vector(x: real, y: real, z: real) {
    function SquaredMagnitude(): real {
      x * x + y * y + z * z
    }
  }

  /** It does not depend on how the rocket is turned: the same after a rotation in any of the three
      coordinate planes, by the angle with cosine `c` and sine `s`. */
  lemma MagnitudeTurned(v: Vector, c: real, s: real)
    requires c * c + s * s == 1.0
    ensures Vector(c * v.x - s * v.y, s * v.x + c * v.y, v.z).SquaredMagnitude() == v.SquaredMagnitude()
    ensures Vector(c * v.x - s * v.z, v.y, s * v.x + c * v.z).SquaredMagnitude() == v.SquaredMagnitude()
    ensures Vector(v.x, c * v.y - s * v.z, s * v.y + c * v.z).SquaredMagnitude() == v.SquaredMagnitude()
  {
    PlaneTurned(v.x, v.y, c, s);
    PlaneTurned(v.x, v.z, c, s);
    PlaneTurned(v.y, v.z, c, s);
    SumOfSquares(v);
    SumOfSquares(Vector(c * v.x - s * v.y, s * v.x + c * v.y, v.z));
    SumOfSquares(Vector(c * v.x - s * v.z, v.y, s * v.x + c * v.z));
    SumOfSquares(Vector(v.x, c * v.y - s * v.z, s * v.y + c * v.z));
    hide Square, Vector.SquaredMagnitude;
  }

  lemma SumOfSquares(v: Vector)
    ensures v.SquaredMagnitude() == Square(v.x) + Square(v.y) + Square(v.z)
  {}

  lemma PlaneTurned(x: real, y: real, c: real, s: real)
    requires c * c + s * s == 1.0
    ensures Square(c * x - s * y) + Square(s * x + c * y) == Square(x) + Square(y)
  {
    SquareOfDifference(c * x, s * y);
    SquareOfSum(s * x, c * y);
    CrossTerms(x, y, c, s);
    TurnedSquare(x, c, s);
    TurnedSquare(y, c, s);
    hide Square, Product;
  }

  lemma SquareOfDifference(a: real, b: real)
    ensures Square(a - b) == Square(a) - 2.0 * Product(a, b) + Square(b)
  {}

  lemma SquareOfSum(a: real, b: real)
    ensures Square(a + b) == Square(a) + 2.0 * Product(a, b) + Square(b)
  {}

  lemma CrossTerms(x: real, y: real, c: real, s: real)
    ensures Product(c * x, s * y) == Product(s * x, c * y)
  {
    assert (c * x) * (s * y) == (c * s) * (x * y);
    assert (s * x) * (c * y) == (c * s) * (x * y);
  }

  lemma TurnedSquare(x: real, c: real, s: real)
    requires c * c + s * s == 1.0
    ensures Square(c * x) + Square(s * x) == Square(x)
  {
    assert (c * x) * (c * x) == (c * c) * (x * x);
    assert (s * x) * (s * x) == (s * s) * (x * x);
    assert (c * c + s * s) * (x * x) == (c * c) * (x * x) + (s * s) * (x * x);
  }

  /** And along an axis it is the square of the length: so it is that of every vector. */
  lemma MagnitudeOnAxis(k: real)
    ensures Vector(k, 0.0, 0.0).SquaredMagnitude() == k * k
    ensures Vector(0.0, k, 0.0).SquaredMagnitude() == k * k
    ensures Vector(0.0, 0.0, k).SquaredMagnitude() == k * k
  {}

  /** The readings that detection looks at: accelerations of the primary and the secondary IMU,
      pressures of the two barometers. */
  datatype SensorData = SensorData(
    imuAcceleration: Vector,
    acceleration: Vector,
    primaryPressure: real,
    secondaryPressure: real)

  /** Which sensors were read correctly. */
  datatype SensorWorkings = SensorWorkings(
    primaryAccOk: bool,
    secondaryAccOk: bool,
    primaryBarometerOk: bool,
    secondaryBarometerOk: bool)

  datatype Both<T> = Both(primary: T, secondary: T)

  /** Everything HandleData reads or changes. */
  datatype Detector = Detector(
    controller: State,
    imu: Both<Run>,
    windows: Both<seq<Sample>>,
    noseover: Both<Run>,
    ground: Both<Run>,
    boostTime: nat) {

    ghost predicate Fits() {
      controller.Fits(FLIGHT) && windows.primary != [] && windows.secondary != []
    }

    predicate Has(event: nat)
      requires Fits() && event < NUM_EVENTS
    {
      controller.events[event]
    }
  }

  function InitialWindow(): (w: seq<Sample>)
    ensures w != []
  {
    seq(BAROM_VELOCITY_FINDER_WINDOW_SIZE, i => Point(0.0, 0.0))
  }

  function InitialDetector(): (d: Detector)
    ensures d.Fits()
  {
    Detector(InitialState(FLIGHT), Both(IDLE, IDLE), Both(InitialWindow(), InitialWindow()), Both(IDLE, IDLE),
             Both(IDLE, IDLE), BOOST_NOT_YET_HAPPENED)
  }

  /** Both accelerations, as HandleBoost compares them. */
  function Magnitudes(data: SensorData): Both<real> {
    Both(data.imuAcceleration.SquaredMagnitude(), data.acceleration.SquaredMagnitude())
  }

  const BOOST_SQUARED := BOOST_ACCELERATION * BOOST_ACCELERATION

  function FedOver(runs: Both<Run>, t: nat, values: Both<real>): Both<Run> {
    Both(Fed(runs.primary, t, Passes(Over, BOOST_SQUARED, values.primary)),
         Fed(runs.secondary, t, Passes(Over, BOOST_SQUARED, values.secondary)))
  }

  /** What HandleBoost changes. */
  datatype Boosting = Boosting(controller: State, imu: Both<Run>, boostTime: nat)

  function BoostHandled(b: Boosting, timestamp: nat, data: SensorData, working: SensorWorkings): (b': Boosting)
    requires b.controller.Fits(FLIGHT)
    ensures b'.controller.Fits(FLIGHT)
  {
    var imu := FedOver(b.imu, timestamp % WRAP, Magnitudes(data));
    var c := SubmitIf(b.controller, HasPassed(imu.primary, BOOST_TIME) && working.primaryAccOk, HIGH_G_IMU, BOOST);
    var c' := SubmitIf(c, HasPassed(imu.secondary, BOOST_TIME) && working.secondaryAccOk, LOW_G_IMU, BOOST);
    Boosting(c', imu, if c'.events[BOOST] && b.boostTime == BOOST_NOT_YET_HAPPENED then timestamp else b.boostTime)
  }

  function Slope(window: seq<Sample>): Option<real>
    requires window != []
  {
    FindSlope(|window|, SAMPLES.Sum(window))
  }

  function Slopes(windows: Both<seq<Sample>>): Both<Option<real>>
    requires windows.primary != [] && windows.secondary != []
  {
    Both(Slope(windows.primary), Slope(windows.secondary))
  }

  function Abs(x: real): real {
    if x < 0.0 then -x else x
  }

  function Speed(slope: Option<real>): Option<real> {
    match slope
    case None => None
    case Some(v) => Some(Abs(v))
  }

  /** A speed is a velocity without its sign. */
  lemma SpeedUnsigned(v: real)
    ensures Speed(Some(v)) == Speed(Some(-v))
    ensures v >= 0.0 ==> Speed(Some(v)) == Some(v)
    ensures Speed(None) == None
  {}

  function Speeds(slopes: Both<Option<real>>): Both<Option<real>> {
    Both(Speed(slopes.primary), Speed(slopes.secondary))
  }

  /** A window without a slope is not fed. */
  function FedUnder(run: Run, t: nat, target: real, value: Option<real>): Run {
    match value
    case None => run
    case Some(v) => Fed(run, t, Passes(Under, target, v))
  }

  function FedBothUnder(runs: Both<Run>, t: nat, target: real, values: Both<Option<real>>): Both<Run> {
    Both(FedUnder(runs.primary, t, target, values.primary), FedUnder(runs.secondary, t, target, values.secondary))
  }

  /** What HandleNoseover and HandleGround change. */
  datatype Falling = Falling(controller: State, runs: Both<Run>)

  function NoseoverHandled(f: Falling, slopes: Both<Option<real>>, t: nat, working: SensorWorkings): (f': Falling)
    requires f.controller.Fits(FLIGHT)
    ensures f'.controller.Fits(FLIGHT)
  {
    var runs := FedBothUnder(f.runs, t, NOSEOVER_VELOCITY, slopes);
    var c := SubmitIf(f.controller,
                      HasPassed(runs.primary, NOSEOVER_TIME) && f.controller.events[NOSEOVER_LOCKOUT] &&
                      working.primaryBarometerOk,
                      BAROM_MS5611, NOSEOVER);
    var c' := SubmitIf(c,
                       HasPassed(runs.secondary, NOSEOVER_TIME) && c.events[NOSEOVER_LOCKOUT] &&
                       working.secondaryBarometerOk,
                       BAROM_BMP, NOSEOVER);
    Falling(c', runs)
  }

  function GroundHandled(f: Falling, slopes: Both<Option<real>>, t: nat, working: SensorWorkings): (f': Falling)
    requires f.controller.Fits(FLIGHT)
    ensures f'.controller.Fits(FLIGHT)
  {
    var runs := FedBothUnder(f.runs, t, GROUND_VELOCITY, Speeds(slopes));
    var c := SubmitIf(f.controller,
                      HasPassed(runs.primary, GROUND_TIME) && working.primaryBarometerOk,
                      BAROM_MS5611, GROUND_HIT);
    var c' := SubmitIf(c,
                       HasPassed(runs.secondary, GROUND_TIME) && working.secondaryBarometerOk,
                       BAROM_BMP, GROUND_HIT);
    Falling(c', runs)
  }

  /** Milliseconds since boost, as far as 32 bits hold them. */
  function TPlus(timestamp: nat, boostTime: nat): (t: nat)
    ensures t < WRAP
  {
    (timestamp - boostTime - BOOST_TIME) % WRAP
  }

  function Slide(window: seq<Sample>, s: Sample): (w: seq<Sample>)
    requires window != []
    ensures |w| == |window|
  {
    window[1..] + [s]
  }

  /** The two windows after a new pair of altitudes. */
  function WindowsFed(windows: Both<seq<Sample>>, timestamp: nat, asl: real -> real,
                      data: SensorData): (w: Both<seq<Sample>>)
    requires windows.primary != [] && windows.secondary != []
    ensures |w.primary| == |windows.primary| && |w.secondary| == |windows.secondary|
  {
    var seconds := timestamp as real / 1000.0;
    Both(Slide(windows.primary, Point(seconds, asl(data.primaryPressure))),
         Slide(windows.secondary, Point(seconds, asl(data.secondaryPressure))))
  }

  /** HandleData, stage by stage: windows, boost, noseover, ground. */
  function Watched(d: Detector, timestamp: nat, asl: real -> real, data: SensorData): (e: Detector)
    requires d.Fits()
    ensures e.Fits() && e.controller == d.controller
  {
    d.(windows := WindowsFed(d.windows, timestamp, asl, data))
  }

  function BoostStage(d: Detector, timestamp: nat, data: SensorData, working: SensorWorkings): (e: Detector)
    requires d.Fits()
    ensures e.Fits()
  {
    if d.Has(BOOST) then d
    else
      var b := BoostHandled(Boosting(d.controller, d.imu, d.boostTime), timestamp, data, working);
      d.(controller := b.controller, imu := b.imu, boostTime := b.boostTime)
  }

  function NoseoverStage(d: Detector, timestamp: nat, working: SensorWorkings): (e: Detector)
    requires d.Fits()
    ensures e.Fits()
  {
    if d.Has(NOSEOVER) then d
    else
      var t := TPlus(timestamp, d.boostTime);
      var f := NoseoverHandled(Falling(d.controller, d.noseover), Slopes(d.windows), t, working);
      d.(controller := f.controller, noseover := f.runs)
  }

  function GroundStage(d: Detector, timestamp: nat, working: SensorWorkings): (e: Detector)
    requires d.Fits()
    ensures e.Fits()
  {
    if !d.Has(NOSEOVER) || d.Has(GROUND_HIT) then d
    else
      var t := TPlus(timestamp, d.boostTime);
      var f := GroundHandled(Falling(d.controller, d.ground), Slopes(d.windows), t, working);
      d.(controller := f.controller, ground := f.runs)
  }

  function DataHandled(d: Detector, timestamp: nat, asl: real -> real, data: SensorData,
                       working: SensorWorkings): (e: Detector)
    requires d.Fits()
    ensures e.Fits()
  {
    var w := Watched(d, timestamp, asl, data);
    var b := BoostStage(w, timestamp, data, working);
    if b.Has(BOOST) then GroundStage(NoseoverStage(b, timestamp, working), timestamp, working) else b
  }

  class DetectionHandler {
    const aslFromPressure: real -> real
    const controller: PhaseController
    const primaryImuBoostSquaredDetector: Debouncer
    const secondaryImuBoostSquaredDetector: Debouncer
    const primaryBaromVelocityFinder: RollingSum<Sample>
    const secondaryBaromVelocityFinder: RollingSum<Sample>
    const primaryBaromNoseoverDetector: Debouncer
    const secondaryBaromNoseoverDetector: Debouncer
    const primaryBaromGroundDetector: Debouncer
    const secondaryBaromGroundDetector: Debouncer
    var boostDetectedTime: nat

    ghost predicate Configured(d: Debouncer, direction: Direction, duration: nat, target: real) {
      d.direction == direction && d.duration == duration && d.target == target
    }

    /** What never changes: the settings of the parts, and that no two parts are the same object. */
    ghost predicate Wired() {
      && controller.setup == FLIGHT
      && Configured(primaryImuBoostSquaredDetector, Over, BOOST_TIME, BOOST_SQUARED)
      && Configured(secondaryImuBoostSquaredDetector, Over, BOOST_TIME, BOOST_SQUARED)
      && Configured(primaryBaromNoseoverDetector, Under, NOSEOVER_TIME, NOSEOVER_VELOCITY)
      && Configured(secondaryBaromNoseoverDetector, Under, NOSEOVER_TIME, NOSEOVER_VELOCITY)
      && Configured(primaryBaromGroundDetector, Under, GROUND_TIME, GROUND_VELOCITY)
      && Configured(secondaryBaromGroundDetector, Under, GROUND_TIME, GROUND_VELOCITY)
      && primaryImuBoostSquaredDetector != secondaryImuBoostSquaredDetector
      && primaryBaromNoseoverDetector != secondaryBaromNoseoverDetector
      && primaryBaromGroundDetector != secondaryBaromGroundDetector
      && {primaryImuBoostSquaredDetector, secondaryImuBoostSquaredDetector} !!
         {primaryBaromNoseoverDetector, secondaryBaromNoseoverDetector}
      && {primaryImuBoostSquaredDetector, secondaryImuBoostSquaredDetector} !!
         {primaryBaromGroundDetector, secondaryBaromGroundDetector}
      && {primaryBaromNoseoverDetector, secondaryBaromNoseoverDetector} !!
         {primaryBaromGroundDetector, secondaryBaromGroundDetector}
      && primaryBaromVelocityFinder != secondaryBaromVelocityFinder
      && primaryBaromVelocityFinder.buf != secondaryBaromVelocityFinder.buf
      && primaryBaromVelocityFinder.buf.underlying != secondaryBaromVelocityFinder.buf.underlying
      && primaryBaromVelocityFinder.group == secondaryBaromVelocityFinder.group == SAMPLES
      && primaryBaromVelocityFinder.buf.underlying.Length == BAROM_VELOCITY_FINDER_WINDOW_SIZE
      && secondaryBaromVelocityFinder.buf.underlying.Length == BAROM_VELOCITY_FINDER_WINDOW_SIZE
    }

    ghost function Parts(): set<object> {
      {this, controller, primaryImuBoostSquaredDetector, secondaryImuBoostSquaredDetector,
       primaryBaromVelocityFinder, primaryBaromVelocityFinder.buf, primaryBaromVelocityFinder.buf.underlying,
       secondaryBaromVelocityFinder, secondaryBaromVelocityFinder.buf, secondaryBaromVelocityFinder.buf.underlying,
       primaryBaromNoseoverDetector, secondaryBaromNoseoverDetector,
       primaryBaromGroundDetector, secondaryBaromGroundDetector}
    }

    ghost predicate Valid()
      reads Parts()
    {
      Wired() && controller.Valid() && FindersValid()
    }

    ghost predicate FindersValid()
      reads primaryBaromVelocityFinder, primaryBaromVelocityFinder.buf, primaryBaromVelocityFinder.buf.underlying
      reads secondaryBaromVelocityFinder, secondaryBaromVelocityFinder.buf, secondaryBaromVelocityFinder.buf.underlying
    {
      primaryBaromVelocityFinder.Valid() && secondaryBaromVelocityFinder.Valid()
    }

    ghost function ImuRuns(): Both<Run>
      reads primaryImuBoostSquaredDetector, secondaryImuBoostSquaredDetector
    {
      Both(primaryImuBoostSquaredDetector.State(), secondaryImuBoostSquaredDetector.State())
    }

    ghost function NoseoverRuns(): Both<Run>
      reads primaryBaromNoseoverDetector, secondaryBaromNoseoverDetector
    {
      Both(primaryBaromNoseoverDetector.State(), secondaryBaromNoseoverDetector.State())
    }

    ghost function GroundRuns(): Both<Run>
      reads primaryBaromGroundDetector, secondaryBaromGroundDetector
    {
      Both(primaryBaromGroundDetector.State(), secondaryBaromGroundDetector.State())
    }

    ghost function Windows(): (w: Both<seq<Sample>>)
      requires FindersValid()
      reads primaryBaromVelocityFinder, primaryBaromVelocityFinder.buf, primaryBaromVelocityFinder.buf.underlying
      reads secondaryBaromVelocityFinder, secondaryBaromVelocityFinder.buf, secondaryBaromVelocityFinder.buf.underlying
      ensures w.primary != [] && w.secondary != []
    {
      Both(primaryBaromVelocityFinder.Window(), secondaryBaromVelocityFinder.Window())
    }

    ghost function Value(): (d: Detector)
      requires Valid()
      reads Parts()
      ensures d.Fits()
    {
      Detector(controller.Value(), ImuRuns(), Windows(), NoseoverRuns(), GroundRuns(), boostDetectedTime)
    }

    lemma ImuWired()
      requires Wired()
      ensures controller.setup == FLIGHT
      ensures Configured(primaryImuBoostSquaredDetector, Over, BOOST_TIME, BOOST_SQUARED)
      ensures Configured(secondaryImuBoostSquaredDetector, Over, BOOST_TIME, BOOST_SQUARED)
      ensures {primaryImuBoostSquaredDetector, secondaryImuBoostSquaredDetector} !!
              {primaryBaromNoseoverDetector, secondaryBaromNoseoverDetector, primaryBaromGroundDetector,
               secondaryBaromGroundDetector}
      ensures primaryImuBoostSquaredDetector != secondaryImuBoostSquaredDetector
    {}

    lemma BaromWired()
      requires Wired()
      ensures controller.setup == FLIGHT
      ensures Configured(primaryBaromNoseoverDetector, Under, NOSEOVER_TIME, NOSEOVER_VELOCITY)
      ensures Configured(secondaryBaromNoseoverDetector, Under, NOSEOVER_TIME, NOSEOVER_VELOCITY)
      ensures Configured(primaryBaromGroundDetector, Under, GROUND_TIME, GROUND_VELOCITY)
      ensures Configured(secondaryBaromGroundDetector, Under, GROUND_TIME, GROUND_VELOCITY)
      ensures {primaryBaromNoseoverDetector, secondaryBaromNoseoverDetector} !!
              {primaryImuBoostSquaredDetector, secondaryImuBoostSquaredDetector, primaryBaromGroundDetector,
               secondaryBaromGroundDetector}
      ensures {primaryBaromGroundDetector, secondaryBaromGroundDetector} !!
              {primaryImuBoostSquaredDetector, secondaryImuBoostSquaredDetector, primaryBaromNoseoverDetector,
               secondaryBaromNoseoverDetector}
      ensures primaryBaromNoseoverDetector != secondaryBaromNoseoverDetector
      ensures primaryBaromGroundDetector != secondaryBaromGroundDetector
      ensures primaryBaromVelocityFinder.group == secondaryBaromVelocityFinder.group == SAMPLES
    {}

    constructor (aslFromPressure: real -> real, controller: PhaseController)
      requires controller.Valid() && controller.setup == FLIGHT && controller.Value() == InitialState(FLIGHT)
      ensures Valid()
      ensures fresh(primaryImuBoostSquaredDetector) && fresh(secondaryImuBoostSquaredDetector)
      ensures fresh(primaryBaromNoseoverDetector) && fresh(secondaryBaromNoseoverDetector)
      ensures fresh(primaryBaromGroundDetector) && fresh(secondaryBaromGroundDetector)
      ensures fresh(primaryBaromVelocityFinder) && fresh(primaryBaromVelocityFinder.buf)
      ensures fresh(secondaryBaromVelocityFinder) && fresh(secondaryBaromVelocityFinder.buf)
      ensures fresh(primaryBaromVelocityFinder.buf.underlying) && fresh(secondaryBaromVelocityFinder.buf.underlying)
      ensures this.controller == controller && this.aslFromPressure == aslFromPressure
      ensures Value() == InitialDetector()
    {
      this.aslFromPressure, this.controller := aslFromPressure, controller;
      var p, q := TwoDebouncers(Over, BOOST_TIME, BOOST_SQUARED);
      primaryImuBoostSquaredDetector, secondaryImuBoostSquaredDetector := p, q;
      var f, g := TwoVelocityFinders();
      primaryBaromVelocityFinder, secondaryBaromVelocityFinder := f, g;
      p, q := TwoDebouncers(Under, NOSEOVER_TIME, NOSEOVER_VELOCITY);
      primaryBaromNoseoverDetector, secondaryBaromNoseoverDetector := p, q;
      p, q := TwoDebouncers(Under, GROUND_TIME, GROUND_VELOCITY);
      primaryBaromGroundDetector, secondaryBaromGroundDetector := p, q;
      boostDetectedTime := BOOST_NOT_YET_HAPPENED;
      new;
      hide InitialState, InitialWindow, RollingSum.Valid, RollingSum.Window, controller.Valid, controller.Value;
      assert Wired();
      hide Wired;
    }

    method ContinueCollecting() returns (b: bool)
      requires Valid()
      ensures b == !Value().Has(GROUND_HIT)
    {
      var hit := controller.HasEventOccured(GROUND_HIT);
      b := !hit;
    }

    method HandleData(timestamp: nat, data: SensorData, working: SensorWorkings)
      requires Valid()
      modifies Parts()
      ensures Valid()
      ensures Value() == DataHandled(old(Value()), timestamp, aslFromPressure, data, working)
    {
      hide Watched, BoostStage, NoseoverStage, GroundStage, State.Fits;
      FeedWindows(timestamp, data);
      WatchBoost(timestamp, data, working);
      var boost := controller.HasEventOccured(BOOST);
      if !boost {
        return;
      }
      WatchNoseover(timestamp, working);
      WatchGround(timestamp, working);
    }

    /** The three conditional calls of HandleData. */
    method WatchBoost(timestamp: nat, data: SensorData, working: SensorWorkings)
      requires Valid()
      modifies this`boostDetectedTime, controller, primaryImuBoostSquaredDetector, secondaryImuBoostSquaredDetector
      ensures Valid() && Value() == BoostStage(old(Value()), timestamp, data, working)
    {
      hide BoostHandled, State.Fits, TPlus, Slopes, Wired, FindersValid, Windows, ImuRuns, NoseoverRuns, GroundRuns;
      ImuWired();
      var boost := controller.HasEventOccured(BOOST);
      if !boost {
        HandleBoost(timestamp, data, working);
      }
    }

    method WatchNoseover(timestamp: nat, working: SensorWorkings)
      requires Valid()
      modifies controller, primaryBaromNoseoverDetector, secondaryBaromNoseoverDetector
      ensures Valid() && Value() == NoseoverStage(old(Value()), timestamp, working)
    {
      hide NoseoverHandled, State.Fits, TPlus, Slopes, Wired, FindersValid, Windows, ImuRuns, NoseoverRuns;
      hide GroundRuns;
      BaromWired();
      var noseover := controller.HasEventOccured(NOSEOVER);
      if !noseover {
        HandleNoseover(TPlus(timestamp, boostDetectedTime), working);
      }
    }

    method WatchGround(timestamp: nat, working: SensorWorkings)
      requires Valid()
      modifies controller, primaryBaromGroundDetector, secondaryBaromGroundDetector
      ensures Valid() && Value() == GroundStage(old(Value()), timestamp, working)
    {
      hide GroundHandled, State.Fits, TPlus, Slopes, Wired, FindersValid, Windows, ImuRuns, NoseoverRuns, GroundRuns;
      BaromWired();
      var noseover := controller.HasEventOccured(NOSEOVER);
      var hit := controller.HasEventOccured(GROUND_HIT);
      if noseover && !hit {
        HandleGround(TPlus(timestamp, boostDetectedTime), working);
      }
    }

    /** The first lines of HandleData. */
    method FeedWindows(timestamp: nat, data: SensorData)
      requires Valid()
      modifies primaryBaromVelocityFinder, primaryBaromVelocityFinder.buf, primaryBaromVelocityFinder.buf.underlying
      modifies secondaryBaromVelocityFinder, secondaryBaromVelocityFinder.buf,
               secondaryBaromVelocityFinder.buf.underlying
      ensures Valid()
      ensures Value() == Watched(old(Value()), timestamp, aslFromPressure, data)
    {
      var seconds := timestamp as real / 1000.0;
      primaryBaromVelocityFinder.Feed(Point(seconds, aslFromPressure(data.primaryPressure)));
      secondaryBaromVelocityFinder.Feed(Point(seconds, aslFromPressure(data.secondaryPressure)));
    }

    /** A report to the controller, made only if there is something to report. */
    method Report(really: bool, source: nat, event: nat)
      requires Wired() && controller.Valid() && source < NUM_SOURCES && event < NUM_EVENTS
      modifies controller
      ensures controller.Valid() && controller.Value() == SubmitIf(old(controller.Value()), really, source, event)
    {
      if really {
        controller.SubmitEvent(source, event);
      }
    }

    method HandleBoost(timestamp: nat, data: SensorData, working: SensorWorkings)
      requires Wired() && controller.Valid()
      modifies this`boostDetectedTime, controller, primaryImuBoostSquaredDetector, secondaryImuBoostSquaredDetector
      ensures controller.Valid()
      ensures Boosting(controller.Value(), ImuRuns(), boostDetectedTime) ==
              BoostHandled(old(Boosting(controller.Value(), ImuRuns(), boostDetectedTime)), timestamp, data, working)
    {
      hide Submitted, SubmitIf, Fed, HasPassed, Passes, Wired;
      ImuWired();
      var magnitudes := Magnitudes(data);
      primaryImuBoostSquaredDetector.Feed(timestamp % WRAP, magnitudes.primary);
      secondaryImuBoostSquaredDetector.Feed(timestamp % WRAP, magnitudes.secondary);
      assert ImuRuns() == FedOver(old(ImuRuns()), timestamp % WRAP, magnitudes);
      var passed := primaryImuBoostSquaredDetector.Passed();
      Report(passed && working.primaryAccOk, HIGH_G_IMU, BOOST);
      passed := secondaryImuBoostSquaredDetector.Passed();
      Report(passed && working.secondaryAccOk, LOW_G_IMU, BOOST);
      var boost := controller.HasEventOccured(BOOST);
      if boost && boostDetectedTime == BOOST_NOT_YET_HAPPENED {
        boostDetectedTime := timestamp;
      }
    }

    method PrimaryVelocity() returns (v: Option<real>)
      requires Wired() && FindersValid()
      ensures v == Slope(Windows().primary)
    {
      v := SlopeOf(primaryBaromVelocityFinder);
    }

    method SecondaryVelocity() returns (v: Option<real>)
      requires Wired() && FindersValid()
      ensures v == Slope(Windows().secondary)
    {
      v := SlopeOf(secondaryBaromVelocityFinder);
    }

    method HandleNoseover(t: nat, working: SensorWorkings)
      requires Wired() && controller.Valid() && FindersValid()
      modifies controller, primaryBaromNoseoverDetector, secondaryBaromNoseoverDetector
      ensures controller.Valid()
      ensures Falling(controller.Value(), NoseoverRuns()) ==
              NoseoverHandled(old(Falling(controller.Value(), NoseoverRuns())), old(Slopes(Windows())), t, working)
    {
      hide Submitted, SubmitIf, FedUnder, HasPassed, Speed, Wired, FindersValid, Windows, Slope;
      BaromWired();
      var velocity := PrimaryVelocity();
      FeedIfGood(primaryBaromNoseoverDetector, t, velocity);
      velocity := SecondaryVelocity();
      FeedIfGood(secondaryBaromNoseoverDetector, t, velocity);
      assert NoseoverRuns() == FedBothUnder(old(NoseoverRuns()), t, NOSEOVER_VELOCITY, Slopes(Windows()));
      var passed := primaryBaromNoseoverDetector.Passed();
      var unlocked := controller.HasEventOccured(NOSEOVER_LOCKOUT);
      Report(passed && unlocked && working.primaryBarometerOk, BAROM_MS5611, NOSEOVER);
      passed := secondaryBaromNoseoverDetector.Passed();
      unlocked := controller.HasEventOccured(NOSEOVER_LOCKOUT);
      Report(passed && unlocked && working.secondaryBarometerOk, BAROM_BMP, NOSEOVER);
    }

    method HandleGround(t: nat, working: SensorWorkings)
      requires Wired() && controller.Valid() && FindersValid()
      modifies controller, primaryBaromGroundDetector, secondaryBaromGroundDetector
      ensures controller.Valid()
      ensures Falling(controller.Value(), GroundRuns()) ==
              GroundHandled(old(Falling(controller.Value(), GroundRuns())), old(Slopes(Windows())), t, working)
    {
      hide Submitted, SubmitIf, FedUnder, HasPassed, Speed, Wired, FindersValid, Windows, Slope;
      BaromWired();
      var velocity := PrimaryVelocity();
      FeedIfGood(primaryBaromGroundDetector, t, Speed(velocity));
      velocity := SecondaryVelocity();
      FeedIfGood(secondaryBaromGroundDetector, t, Speed(velocity));
      assert GroundRuns() == FedBothUnder(old(GroundRuns()), t, GROUND_VELOCITY, Speeds(Slopes(Windows())));
      var passed := primaryBaromGroundDetector.Passed();
      Report(passed && working.primaryBarometerOk, BAROM_MS5611, GROUND_HIT);
      passed := secondaryBaromGroundDetector.Passed();
      Report(passed && working.secondaryBarometerOk, BAROM_BMP, GROUND_HIT);
    }
  }

  method TwoDebouncers(direction: Direction, duration: nat, target: real) returns (p: Debouncer, q: Debouncer)
    ensures fresh(p) && fresh(q) && p != q && p.State() == q.State() == IDLE
    ensures p.direction == q.direction == direction && p.duration == q.duration == duration &&
            p.target == q.target == target
  {
    p := new Debouncer(direction, duration, target);
    q := new Debouncer(direction, duration, target);
  }

  method TwoVelocityFinders() returns (f: RollingSum<Sample>, g: RollingSum<Sample>)
    ensures f.Valid() && f.Window() == InitialWindow() && f.group == SAMPLES
    ensures g.Valid() && g.Window() == InitialWindow() && g.group == SAMPLES
    ensures f.buf.underlying.Length == g.buf.underlying.Length == BAROM_VELOCITY_FINDER_WINDOW_SIZE
    ensures fresh({f, f.buf, f.buf.underlying, g, g.buf, g.buf.underlying})
    ensures f != g && f.buf != g.buf && f.buf.underlying != g.buf.underlying
  {
    SamplesLawful();
    f := new RollingSum(SAMPLES, BAROM_VELOCITY_FINDER_WINDOW_SIZE, Point(0.0, 0.0));
    g := new RollingSum(SAMPLES, BAROM_VELOCITY_FINDER_WINDOW_SIZE, Point(0.0, 0.0));
  }

  /** FindSlope of a rolling sum. */
  method SlopeOf(finder: RollingSum<Sample>) returns (slope: Option<real>)
    requires finder.Valid() && finder.group == SAMPLES
    ensures slope == Slope(finder.Window())
  {
    var sum := finder.Sum();
    slope := FindSlope(finder.buf.underlying.Length, sum);
  }

  /** A window without a slope feeds nothing. */
  method FeedIfGood(detector: Debouncer, t: nat, value: Option<real>)
    requires detector.direction == Under
    modifies detector
    ensures detector.State() == FedUnder(old(detector.State()), t, detector.target, value)
  {
    if value.Some? {
      detector.Feed(t, value.value);
    }
  }
}
