/** Short flights: the results about runs speak of something. The accelerometer of the primary IMU shows
    100 m/s^2 along z, and both barometers show an altitude that changes at a constant rate. */
module FlightExample {
  import opened LinearFit
  import opened PhaseControllers
  import opened Flight
  import opened DetectionHandlers
  import opened HandlerEffects
  import opened FlightRuns
  import opened FlightResults

  const PLAIN: real -> real := pressure => pressure
  const WORKING := SensorWorkings(true, true, true, true)

  /** Readings at time `t`: the altitude is `rate` feet for every second since start-up. */
  function Data(rate: real, t: nat): SensorData {
    var altitude := rate * (t as real / 1000.0);
    SensorData(Vector(0.0, 0.0, 100.0), Vector(0.0, 0.0, 0.0), altitude, altitude)
  }

  function Reading(rate: real, clock: nat, t: nat): Step {
    Handle(clock, t, Data(rate, t), WORKING)
  }

  function Pad(rate: real): seq<Step> {
    [Reading(rate, 1000, 1000)]
  }

  function Boosted(rate: real): seq<Step> {
    Pad(rate) + [Reading(rate, 1300, 1300)]
  }

  function Unlocked(rate: real): seq<Step> {
    Boosted(rate) + [Expire(16300, LOCKOUT)]
  }

  /** One more reading for noseover, and another one for the landing. */
  function Falling(rate: real, clock: nat, t: nat): seq<Step> {
    Unlocked(rate) + [Reading(rate, clock, t)]
  }

  function Landed(rate: real, clock: nat, t: nat, clock': nat, t': nat): seq<Step> {
    Falling(rate, clock, t) + [Reading(rate, clock', t')]
  }

  // ----- slopes

  lemma {:induction false} LineTotal(rate: real, s: seq<Sample>)
    requires AllPoints(s) && forall i | 0 <= i < |s| :: s[i].y == rate * s[i].x
    ensures Total(s).y == rate * Total(s).x && Total(s).xy == rate * Total(s).xx
  {
    if s != [] {
      var n := |s| - 1;
      LineTotal(rate, s[..n]);
      LineStep(rate, Total(s[..n]), s[n]);
      hide AddSamples, Point;
    }
  }

  lemma LineStep(rate: real, e: Sample, p: Sample)
    requires e.y == rate * e.x && e.xy == rate * e.xx
    requires p == Point(p.x, p.y) && p.y == rate * p.x
    ensures var f := AddSamples(e, p); f.y == rate * f.x && f.xy == rate * f.xx
  {
    LinePoint(rate, p);
    hide Point;
    SumOfProducts(rate, e.x, p.x);
    SumOfProducts(rate, e.xx, p.xx);
  }

  lemma LinePoint(rate: real, p: Sample)
    requires p == Point(p.x, p.y) && p.y == rate * p.x
    ensures p.xy == rate * p.xx
  {
    assert p.x * (rate * p.x) == rate * (p.x * p.x);
  }

  lemma LineSlope(rate: real, w: seq<Sample>)
    requires w != [] && AllPoints(w) && !SameX(w) && forall i | 0 <= i < |w| :: w[i].y == rate * w[i].x
    ensures Slope(w) == Some(rate)
  {
    hide Total, Group.Sum;
    LineTotal(rate, w);
    TotalIsSum(w);
    SlopeExists(w);
    LineNumerator(rate, |w|, Total(w));
  }

  lemma LineNumerator(rate: real, n: nat, e: Sample)
    requires e.y == rate * e.x && e.xy == rate * e.xx
    ensures FindSlope(n, e) == None || FindSlope(n, e) == Some(rate)
  {
    var m := n as real;
    var d := Denominator(m, e);
    Reorder(rate, m, e.xx);
    Reorder(rate, e.x, e.x);
    Distribute(rate, m * e.xx, e.x * e.x);
    assert Numerator(m, e) == rate * d;
    SlopeIsQuotient(n, e);
    hide Numerator, Denominator, FindSlope;
    if d != 0.0 {
      QuotientOfProduct(rate, d, Numerator(m, e));
    }
  }

  lemma Reorder(rate: real, a: real, b: real)
    ensures a * (rate * b) == rate * (a * b)
  {}

  lemma Distribute(rate: real, a: real, b: real)
    ensures rate * (a - b) == rate * a - rate * b
  {}

  function Numerator(n: real, e: Sample): real {
    n * e.xy - e.x * e.y
  }

  lemma SlopeIsQuotient(n: nat, e: Sample)
    ensures var d := Denominator(n as real, e);
            FindSlope(n, e) == if d == 0.0 then None else Some(Numerator(n as real, e) / d)
  {
    hide Denominator;
  }

  lemma QuotientOfProduct(rate: real, d: real, numerator: real)
    requires d != 0.0 && numerator == rate * d
    ensures numerator / d == rate
  {
    var q := numerator / d;
    assert q * d == numerator;
    assert (q - rate) * d == 0.0;
    ZeroProduct(q - rate, d);
  }

  /** The points of such a flight: on a line through the zero points of the start-up. */
  predicate LinePoints(rate: real, points: seq<Sample>) {
    forall i | 0 <= i < |points| :: points[i] == Point(points[i].x, rate * points[i].x) && points[i].x > 0.0
  }

  /** Up to nine points after start-up there are still zero points in the window. */
  lemma LineRecent(rate: real, points: seq<Sample>)
    requires 0 < |points| < 10 && LinePoints(rate, points)
    ensures Slope(Recent(points)) == Some(rate)
  {
    var w := Recent(points);
    assert w[0] == Point(0.0, 0.0);
    assert w[9] == points[|points| - 1];
    assert forall i | 0 <= i < 10 :: w[i] == Point(0.0, 0.0) || w[i] in points;
    assert rate * 0.0 == 0.0;
    LineSlope(rate, w);
  }

  /** So after each of the first readings both slopes are the rate. */
  lemma LineSlopes(rate: real, run: seq<Step>)
    requires |run| < 10 && run != [] && run[|run| - 1].Handle? && Steady(rate, run)
    ensures Slopes(After(PLAIN, run).detector.windows) == Both(Some(rate), Some(rate))
  {
    LineAltitudes(rate, run);
    WindowsAreRecent(PLAIN, run);
    hide After, Slope, Altitudes, Recent;
    var h := Altitudes(PLAIN, run);
    LineRecent(rate, h.primary);
    LineRecent(rate, h.secondary);
  }

  /** Everything that is handled in the run is such a reading. */
  predicate Steady(rate: real, run: seq<Step>) {
    forall i | 0 <= i < |run| && run[i].Handle? ::
      run[i].timestamp > 0 && run[i].data == Data(rate, run[i].timestamp)
  }

  lemma {:induction false} LineAltitudes(rate: real, run: seq<Step>)
    requires Steady(rate, run)
    ensures var h := Altitudes(PLAIN, run);
            && LinePoints(rate, h.primary) && LinePoints(rate, h.secondary)
            && |h.primary| == |h.secondary| <= |run|
            && (run != [] && run[|run| - 1].Handle? ==> |h.primary| > 0)
  {
    if run != [] {
      var n := |run| - 1;
      LineAltitudes(rate, run[..n]);
      if run[n].Handle? {
        var h, t := Altitudes(PLAIN, run[..n]), run[n].timestamp;
        LinePointsMore(rate, h.primary, t);
        LinePointsMore(rate, h.secondary, t);
        var altitude := rate * (t as real / 1000.0);
        assert PLAIN(run[n].data.primaryPressure) == PLAIN(run[n].data.secondaryPressure) == altitude;
        hide LinePoints, Point;
        var p := Point(t as real / 1000.0, altitude);
        assert Altitudes(PLAIN, run) == Both(h.primary + [p], h.secondary + [p]);
      }
    }
  }

  lemma LinePointsMore(rate: real, points: seq<Sample>, t: nat)
    requires LinePoints(rate, points) && t > 0
    ensures LinePoints(rate, points + [Point(t as real / 1000.0, rate * (t as real / 1000.0))])
  {
    var x := t as real / 1000.0;
    assert x > 0.0;
    var p := Point(x, rate * x);
    assert p.x == x;
    assert p == Point(p.x, rate * p.x) && p.x > 0.0;
    hide Point;
    var more := points + [p];
    forall i | 0 <= i < |more|
      ensures more[i] == Point(more[i].x, rate * more[i].x) && more[i].x > 0.0
    {
      assert i < |points| ==> more[i] == points[i];
    }
  }

  // ----- one step more

  lemma Extend(run: seq<Step>, step: Step)
    requires Possible(PLAIN, run) && Enabled(After(PLAIN, run), step)
    ensures Possible(PLAIN, run + [step]) && (run + [step])[..|run|] == run
    ensures After(PLAIN, run + [step]) == Next(PLAIN, After(PLAIN, run), step)
  {
    hide Enabled, After, Next, State.Fits;
    var more := run + [step];
    assert more[..|run|] == run;
    forall i | 0 <= i < |more|
      ensures Enabled(After(PLAIN, more[..i]), more[i])
    {
      if i < |run| {
        assert more[..i] == run[..i];
      }
    }
    LastStep(more);
  }

  lemma LastStep(run: seq<Step>)
    requires run != []
    ensures After(PLAIN, run) == Next(PLAIN, After(PLAIN, run[..|run| - 1]), run[|run| - 1])
  {
    hide Next;
  }

  function Rated(rate: real, t: nat): Measured {
    Measured(t, rate)
  }

  function Appended(rate: real, h: Both<seq<Measured>>, t: nat): Both<seq<Measured>> {
    Both(h.primary + [Rated(rate, t)], h.secondary + [Rated(rate, t)])
  }

  /** What another reading adds to the records. */
  ghost predicate ReadingAdded(rate: real, s: System, s': System, clock: nat, t: nat)
    requires s.detector.Fits() && s'.detector.Fits()
  {
    && s'.clock == clock && s'.lastTimestamp == t && s'.fired == s.fired
    && (s.Has(NOSEOVER) ==> s'.Has(NOSEOVER))
    && (s.Has(BOOST) ==> s'.Has(BOOST) && s'.detector.boostTime == s.detector.boostTime)
    && (!s'.Has(BOOST) ==> s'.detector.boostTime == s.detector.boostTime)
    && (!s.Has(BOOST) && s'.Has(BOOST) && s.detector.boostTime == BOOST_NOT_YET_HAPPENED ==>
          s'.detector.boostTime == t)
    && s'.velocities ==
       (if WatchesNoseover(s.detector, s'.detector) then Appended(rate, s.velocities, t) else s.velocities)
    && s'.lateVelocities ==
       (if WatchesGround(s.detector, s'.detector) then Appended(rate, s.lateVelocities, t) else s.lateVelocities)
  }

  lemma HandledReading(rate: real, s: System, clock: nat, t: nat)
    requires s.detector.Fits()
    requires var s' := Next(PLAIN, s, Reading(rate, clock, t));
             Slopes(s'.detector.windows) == Both(Some(rate), Some(rate))
    ensures ReadingAdded(rate, s, Next(PLAIN, s, Reading(rate, clock, t)), clock, t)
  {
    DataHandledEffect(s.detector, t, PLAIN, Data(rate, t), WORKING);
    hide GroundSummary, FedOver, BoostDue, FedBothUnder, BaromDue, WindowsFed, DataHandled, Slopes, Speeds;
    hide RecordedBoth, WatchesNoseover, WatchesGround, State.Fits, Occurred, Started, Appended;
    RecordRates(rate, s.velocities, t);
    RecordRates(rate, s.lateVelocities, t);
  }

  lemma AnotherReading(rate: real, run: seq<Step>, clock: nat, t: nat)
    requires Possible(PLAIN, run) && Enabled(After(PLAIN, run), Reading(rate, clock, t))
    requires Steady(rate, run) && t > 0 && |run| < 9
    ensures var more := run + [Reading(rate, clock, t)];
            && ReadingAdded(rate, After(PLAIN, run), After(PLAIN, more), clock, t)
            && Possible(PLAIN, more) && more[..|run|] == run && Steady(rate, more)
  {
    hide Possible, After, Enabled, Next, Slopes, State.Fits, ReadingAdded;
    Extend(run, Reading(rate, clock, t));
    LineSlopes(rate, run + [Reading(rate, clock, t)]);
    HandledReading(rate, After(PLAIN, run), clock, t);
  }

  lemma RecordRates(rate: real, h: Both<seq<Measured>>, t: nat)
    ensures RecordedBoth(h, t, Both(Some(rate), Some(rate))) == Appended(rate, h, t)
  {}

  lemma OneAcceleration(rate: real)
    ensures !AccelerationSeen(Accelerations(Pad(rate)), WORKING)
  {
    var pad := Pad(rate);
    assert pad[..0] == [] && Accelerations([]) == Both([], []);
    var h := Accelerations(pad);
    assert |pad| == 1 && pad[0].Handle? && |h.primary| == |h.secondary| == 1;
    hide Accelerations, Seen;
    OneMeasured(h.primary, Above(2401.0), 0, 250);
    OneMeasured(h.secondary, Above(2401.0), 0, 250);
  }

  lemma OneMeasured(h: seq<Measured>, band: Band, base: nat, duration: nat)
    requires |h| == 1
    ensures !Seen(h, base, band, duration)
  {
    hide Wrapped, Band.Contains;
  }

  lemma TwoAccelerations(rate: real)
    ensures AccelerationSeen(Accelerations(Boosted(rate)), WORKING)
  {
    assert Pad(rate)[..0] == [] && Boosted(rate)[..1] == Pad(rate);
    AlongZ();
    hide Squared;
    assert Accelerations(Pad(rate)).primary == [Measured(1000, 10000.0)];
    var h := Accelerations(Boosted(rate)).primary;
    assert h == [Measured(1000, 10000.0), Measured(1300, 10000.0)];
    assert SeenFrom(h, 0, 0, Above(2401.0), 250);
  }

  lemma AlongZ()
    ensures Squared(0.0, 0.0, 100.0) == 10000.0
  {}

  // ----- the flight

  /** What is known after a part of the flight. */
  ghost predicate Stands(rate: real, run: seq<Step>, now: nat, fired: set<nat>, boostTime: nat) {
    var s := After(PLAIN, run);
    && Possible(PLAIN, run) && Steady(rate, run) && |run| < 9 && Kept(s)
    && s.clock == now && s.lastTimestamp <= now && s.fired == fired && s.detector.boostTime == boostTime
  }

  ghost predicate Reached(rate: real, run: seq<Step>, event: nat)
    requires event < NUM_EVENTS
  {
    After(PLAIN, run).Has(event)
  }

  /** Another reading, as far as the general results do not decide it. */
  lemma StandsReading(rate: real, run: seq<Step>, now: nat, fired: set<nat>, boostTime: nat, clock: nat, t: nat)
    requires Stands(rate, run, now, fired, boostTime) && |run| < 8
    requires now <= clock && After(PLAIN, run).lastTimestamp <= t <= clock && t > 0
    ensures var s, more := After(PLAIN, run), run + [Reading(rate, clock, t)];
            && ReadingAdded(rate, s, After(PLAIN, more), clock, t) && more[..|run|] == run
            && Stands(rate, more, clock, fired, After(PLAIN, more).detector.boostTime)
  {
    hide Possible, After, Steady, Kept;
    AnotherReading(rate, run, clock, t);
    RunKeeps(PLAIN, run + [Reading(rate, clock, t)]);
  }

  /** With no timer fired yet there is no lockout, hence no noseover and no ground hit. */
  lemma NoLaterPhase(s: System)
    requires s.detector.Fits() && Kept(s)
    ensures !s.Has(BOOST) ==> !s.Has(NOSEOVER_LOCKOUT)
    ensures LOCKOUT !in s.fired <==> !s.Has(NOSEOVER_LOCKOUT)
    ensures s.Has(NOSEOVER_LOCKOUT) ==> s.Has(BOOST)
    ensures !s.Has(NOSEOVER_LOCKOUT) ==> !s.Has(NOSEOVER)
    ensures !s.Has(NOSEOVER) ==> !BaromReported(s.detector, GROUND_HIT) && s.lateVelocities == Both([], [])
    ensures !s.Has(BOOST) ==> s.velocities == Both([], [])
    ensures s.Has(GROUND_HIT) ==> FULL_FLIGHT in s.fired || BaromReported(s.detector, GROUND_HIT)
  {
    hide RecordKept, TimersKept, BothFollow, EitherPassed, BothBetween, BaromReported, State.Fits;
  }

  lemma OnPad(rate: real)
    ensures Stands(rate, Pad(rate), 1000, {}, BOOST_NOT_YET_HAPPENED) && !Reached(rate, Pad(rate), BOOST)
  {
    assert [] + [Reading(rate, 1000, 1000)] == Pad(rate);
    InitiallyKept();
    assert Stands(rate, [], 0, {}, BOOST_NOT_YET_HAPPENED);
    StandsReading(rate, [], 0, {}, BOOST_NOT_YET_HAPPENED, 1000, 1000);
    BoostExactly(PLAIN, Pad(rate));
    OneAcceleration(rate);
    hide Possible, Kept, Accelerations, AccelerationSeen;
  }

  lemma Boosts(rate: real)
    ensures Stands(rate, Boosted(rate), 1300, {}, 1300) && Reached(rate, Boosted(rate), BOOST)
    ensures After(PLAIN, Boosted(rate)).velocities == Both([Rated(rate, 1300)], [Rated(rate, 1300)])
    ensures After(PLAIN, Boosted(rate)).lastTimestamp == 1300
  {
    hide Possible, Kept, After, Accelerations, AccelerationSeen, State.Fits;
    OnPad(rate);
    StandsReading(rate, Pad(rate), 1000, {}, BOOST_NOT_YET_HAPPENED, 1300, 1300);
    BoostExactly(PLAIN, Boosted(rate));
    TwoAccelerations(rate);
    NoLaterPhase(After(PLAIN, Pad(rate)));
    assert Boosted(rate)[..|Boosted(rate)| - 1] == Pad(rate);
    assert Boosted(rate)[|Boosted(rate)| - 1] == Reading(rate, 1300, 1300);
    var s, s' := After(PLAIN, Pad(rate)), After(PLAIN, Boosted(rate));
    assert s'.Has(BOOST) && s'.velocities == Appended(rate, s.velocities, 1300);
    assert [] + [Rated(rate, 1300)] == [Rated(rate, 1300)];
  }

  /** The lockout timer, started at 1300 ms, expires when it is due. */
  lemma Unlocks(rate: real)
    ensures Stands(rate, Unlocked(rate), 16300, {LOCKOUT}, 1300) && Reached(rate, Unlocked(rate), NOSEOVER_LOCKOUT)
    ensures !Reached(rate, Unlocked(rate), NOSEOVER)
    ensures After(PLAIN, Unlocked(rate)).velocities == Both([Rated(rate, 1300)], [Rated(rate, 1300)])
    ensures After(PLAIN, Unlocked(rate)).lastTimestamp == 1300
  {
    hide Possible, Kept, After, Enabled, Next, State.Fits;
    Boosts(rate);
    var s := After(PLAIN, Boosted(rate));
    LockoutDue(s);
    Extend(Boosted(rate), Expire(16300, LOCKOUT));
    RunKeeps(PLAIN, Unlocked(rate));
    NoLaterPhase(s);
    NoLaterPhase(After(PLAIN, Unlocked(rate)));
    LockoutExpired(s);
  }

  lemma LockoutExpired(s: System)
    requires s.detector.Fits() && s.Has(BOOST) && s.fired == {}
    ensures var t := Next(PLAIN, s, Expire(16300, LOCKOUT));
            && t.clock == 16300 && t.lastTimestamp == s.lastTimestamp && t.fired == {LOCKOUT}
            && t.velocities == s.velocities && t.detector.boostTime == s.detector.boostTime
            && t.Has(NOSEOVER) == s.Has(NOSEOVER)
  {
    ExpiredEffect(s, 16300, LOCKOUT);
    hide Started, Occurred, Submit, State.Fits;
  }

  lemma LockoutDue(s: System)
    requires s.detector.Fits() && Kept(s) && s.Has(BOOST) && s.clock == 1300 && s.fired == {}
    ensures Enabled(s, Expire(16300, LOCKOUT))
  {
    hide OrderKept, DebouncersKept;
  }

  /** Two velocities below 10 ft/s with more than 250 ms between them: noseover. */
  lemma Falls(rate: real, clock: nat, t: nat)
    requires rate < 10.0 && 16300 <= clock && 1600 <= t <= clock && t < 100000
    ensures var run := Falling(rate, clock, t);
            && Stands(rate, run, clock, {LOCKOUT}, 1300)
            && Reached(rate, run, NOSEOVER) && !Reached(rate, run, GROUND_HIT)
            && After(PLAIN, run).lateVelocities == Both([Rated(rate, t)], [Rated(rate, t)])
            && After(PLAIN, run).lastTimestamp == t
  {
    hide Possible, Kept, After, State.Fits, WorkingSeen;
    var run := Falling(rate, clock, t);
    var m, m' := Rated(rate, 1300), Rated(rate, t);
    Unlocks(rate);
    StandsReading(rate, Unlocked(rate), 16300, {LOCKOUT}, 1300, clock, t);
    NoLaterPhase(After(PLAIN, Unlocked(rate)));
    NoLaterPhase(After(PLAIN, run));
    assert run[..|run| - 1] == Unlocked(rate) && run[|run| - 1] == Reading(rate, clock, t);
    assert After(PLAIN, run).velocities == Both([m] + [m'], [m] + [m']);
    TwoRates(rate, 1300, t, Below(10.0), 250);
    NoseoverExactly(PLAIN, run);
    assert [] + [m'] == [m'];
    OneRate(rate, t);
    LandingExactly(PLAIN, run);
  }

  lemma TwoRates(rate: real, t: nat, t': nat, band: Band, duration: nat)
    requires (t == 1300 || 1600 <= t) && 1600 <= t' < 100000 && t' > t + duration && band.Contains(rate)
    ensures var h := [Rated(rate, t)] + [Rated(rate, t')]; WorkingSeen(Both(h, h), 1300, band, duration, WORKING)
  {
    hide Band.Contains;
    var h := [Rated(rate, t)] + [Rated(rate, t')];
    assert SeenFrom(h, 1550, 0, band, duration);
  }

  lemma OneRate(rate: real, t: nat)
    ensures var h := [Rated(rate, t)]; !WorkingSeen(Both(h, h), 1300, Within(10.0), 10000, WORKING)
  {
    hide Seen;
    OneMeasured([Rated(rate, t)], Within(10.0), 1550, 10000);
  }

  /** Two more velocities with more than 10 s between them: a barometer reports the landing exactly if they
      are less than 10 ft/s, up or down. */
  lemma Lands(rate: real, clock: nat, t: nat, clock': nat, t': nat)
    requires rate < 10.0 && 16300 <= clock <= clock' && 1600 <= t <= clock && t + 10000 < t' <= clock' && t' < 100000
    ensures var run := Landed(rate, clock, t, clock', t');
            && Possible(PLAIN, run) && Kept(After(PLAIN, run)) && After(PLAIN, run).clock == clock'
            && Reached(rate, run, NOSEOVER)
            && (BaromReported(After(PLAIN, run).detector, GROUND_HIT) <==> -10.0 < rate)
  {
    hide Possible, Kept, After, State.Fits, WorkingSeen, BaromReported;
    var part, run := Falling(rate, clock, t), Landed(rate, clock, t, clock', t');
    var m, m' := Rated(rate, t), Rated(rate, t');
    Falls(rate, clock, t);
    NoLaterPhase(After(PLAIN, part));
    StandsReading(rate, part, clock, {LOCKOUT}, 1300, clock', t');
    NoLaterPhase(After(PLAIN, run));
    assert run[..|run| - 1] == part && run[|run| - 1] == Reading(rate, clock', t');
    assert After(PLAIN, run).lateVelocities == Both([m] + [m'], [m] + [m']);
    if -10.0 < rate {
      TwoRates(rate, t, t', Within(10.0), 10000);
    } else {
      FastRates(rate, t, t');
    }
    LandingExactly(PLAIN, run);
    ReportedIsHit(After(PLAIN, run));
  }

  lemma FastRates(rate: real, t: nat, t': nat)
    requires rate <= -10.0
    ensures var h := [Rated(rate, t)] + [Rated(rate, t')];
            !WorkingSeen(Both(h, h), 1300, Within(10.0), 10000, WORKING)
  {
    hide Wrapped;
    var h := [Rated(rate, t)] + [Rated(rate, t')];
    assert h[|h| - 1] == Rated(rate, t') && !Within(10.0).Contains(rate);
  }

  lemma ReportedIsHit(s: System)
    requires s.detector.Fits() && Kept(s)
    ensures BaromReported(s.detector, GROUND_HIT) ==> s.Has(GROUND_HIT)
  {
    hide RecordKept, TimersKept, DebouncersKept, BaromReported, EitherPassed;
  }

  lemma AllPrompt(rate: real, clock: nat, t: nat, clock': nat, t': nat, lag: nat)
    requires clock <= t + lag && clock' <= t' + lag
    ensures Prompt(Landed(rate, clock, t, clock', t'), lag)
  {
    PromptMore(Pad(rate), Reading(rate, 1300, 1300), lag);
    PromptMore(Boosted(rate), Expire(16300, LOCKOUT), lag);
    PromptMore(Unlocked(rate), Reading(rate, clock, t), lag);
    PromptMore(Falling(rate, clock, t), Reading(rate, clock', t'), lag);
  }

  lemma PromptMore(run: seq<Step>, step: Step, lag: nat)
    requires Prompt(run, lag) && (step.Handle? ==> step.clock <= step.timestamp + lag)
    ensures Prompt(run + [step], lag)
  {}

  /** Readings that are handled at once, at rest: a barometer reports the landing. So there are runs that
      the results about landings are about. */
  lemma LandingReached()
    ensures var run := Landed(0.0, 16300, 16300, 26301, 26301);
            Possible(PLAIN, run) && Prompt(run, 0) && BaromReported(After(PLAIN, run).detector, GROUND_HIT)
  {
    Lands(0.0, 16300, 16300, 26301, 26301);
    AllPrompt(0.0, 16300, 16300, 26301, 26301, 0);
  }

  /** The same at 80 ft/s downwards: noseover, but no landing. */
  lemma DescentIsNoLanding()
    ensures var run := Landed(-80.0, 16300, 16300, 26301, 26301);
            && Possible(PLAIN, run) && Reached(-80.0, run, NOSEOVER)
            && !BaromReported(After(PLAIN, run).detector, GROUND_HIT)
  {
    Lands(-80.0, 16300, 16300, 26301, 26301);
  }

  /** Readings that are under way for 14.7 s: the landing comes only 15 s after boost, so the bound on
      landings cannot do without the lag. */
  lemma LagMatters()
    ensures var run := Landed(0.0, 16300, 1600, 16301, 11601);
            var s := After(PLAIN, run);
            && Possible(PLAIN, run) && Prompt(run, 14700) && BaromReported(s.detector, GROUND_HIT)
            && BOOST in s.occurred && GROUND_HIT in s.occurred
            && s.occurred[GROUND_HIT].clock < s.occurred[BOOST].clock + 25000
  {
    var run := Landed(0.0, 16300, 1600, 16301, 11601);
    Lands(0.0, 16300, 1600, 16301, 11601);
    AllPrompt(0.0, 16300, 1600, 16301, 11601, 14700);
    LandingAfterBoost(PLAIN, run, 14700);
    LandedBy(After(PLAIN, run));
  }

  lemma LandedBy(s: System)
    requires s.detector.Fits() && Kept(s) && GROUND_HIT in s.occurred
    ensures s.occurred[GROUND_HIT].clock <= s.clock
  {}
}
