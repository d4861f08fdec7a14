/** Whole runs of the sensor module: sets of readings are handled, timers expire. Times are in
    milliseconds since start-up. */
module FlightRuns {
  import opened LinearFit
  import opened Debouncers
  import opened Flight
  import opened DetectionHandlers
  import opened HandlerEffects

  // ----- runs

  type TimerIndex = i: nat | i < 3

  /** At time `clock`, either HandleData is called with readings for which the time was taken at
      `timestamp`, or a timer expires. */
  datatype Step =
    | Handle(clock: nat, timestamp: nat, data: SensorData, working: SensorWorkings)
    | Expire(clock: nat, timer: TimerIndex)

  /** When an event occurred, and the time stamp of the readings handled last by then. */
  datatype Moment = Moment(clock: nat, timestamp: nat)

  /** A measured value, with the full time stamp of its readings. */
  datatype Measured = Measured(timestamp: nat, value: real)

  /** The detector; the clock; the timers of the kernel; and a record of what happened: when each
      event occurred, and the velocities of both barometers that were watched for noseover and, after it,
      for the landing. */
  datatype System = System(
    detector: Detector,
    clock: nat,
    lastTimestamp: nat,
    startedAt: map<nat, nat>,
    fired: set<nat>,
    occurred: map<nat, Moment>,
    velocities: Both<seq<Measured>>,
    lateVelocities: Both<seq<Measured>>) {

    predicate Has(event: nat)
      requires detector.Fits() && event < NUM_EVENTS
    {
      detector.Has(event)
    }
  }

  function InitialSystem(): (s: System)
    ensures s.detector.Fits()
  {
    System(InitialDetector(), 0, 0, map[], {}, map[], Both([], []), Both([], []))
  }

  /** Time does not run backwards, readings are handled no earlier than they are taken, and a
      timer expires once, no earlier than its duration after its start. */
  predicate Enabled(s: System, step: Step) {
    && s.clock <= step.clock
    && match step
       case Handle(clock, timestamp, _, _) => s.lastTimestamp <= timestamp <= clock
       case Expire(clock, timer) =>
         timer in s.startedAt && timer !in s.fired && s.startedAt[timer] + TIMERS[timer].time <= clock
  }

  /** Start times of the timers started so far. */
  function Started(before: map<nat, nat>, started: seq<nat>, clock: nat): map<nat, nat> {
    map i | i in started :: if i in before then before[i] else clock
  }

  /** Moments of the events that have occurred so far. */
  function Occurred(before: map<nat, Moment>, d: Detector, now: Moment): map<nat, Moment>
    requires d.Fits()
  {
    map e: nat | e < NUM_EVENTS && d.Has(e) :: if e in before then before[e] else now
  }

  function Recorded(h: seq<Measured>, timestamp: nat, value: Option<real>): seq<Measured> {
    match value
    case None => h
    case Some(v) => h + [Measured(timestamp, v)]
  }

  function RecordedBoth(h: Both<seq<Measured>>, timestamp: nat, values: Both<Option<real>>): Both<seq<Measured>> {
    Both(Recorded(h.primary, timestamp, values.primary), Recorded(h.secondary, timestamp, values.secondary))
  }

  function Handled(asl: real -> real, s: System, clock: nat, timestamp: nat, data: SensorData,
                   working: SensorWorkings): (t: System)
    requires s.detector.Fits()
    ensures t.detector.Fits()
  {
    var d, e := s.detector, DataHandled(s.detector, timestamp, asl, data, working);
    System(e, clock, timestamp, Started(s.startedAt, e.controller.started, clock), s.fired,
           Occurred(s.occurred, e, Moment(clock, timestamp)),
           if WatchesNoseover(d, e) then RecordedBoth(s.velocities, timestamp, Slopes(e.windows)) else s.velocities,
           if WatchesGround(d, e) then RecordedBoth(s.lateVelocities, timestamp, Slopes(e.windows))
           else s.lateVelocities)
  }

  function Expired(s: System, clock: nat, timer: TimerIndex): (t: System)
    requires s.detector.Fits()
    ensures t.detector.Fits()
  {
    var c := Submit(s.detector.controller, TIMERS[timer].source, TIMERS[timer].event);
    var e := s.detector.(controller := c);
    s.(detector := e, clock := clock, startedAt := Started(s.startedAt, c.started, clock), fired := s.fired + {timer},
       occurred := Occurred(s.occurred, e, Moment(clock, s.lastTimestamp)))
  }

  function Next(asl: real -> real, s: System, step: Step): (t: System)
    requires s.detector.Fits()
    ensures t.detector.Fits()
  {
    match step
    case Handle(clock, timestamp, data, working) => Handled(asl, s, clock, timestamp, data, working)
    case Expire(clock, timer) => Expired(s, clock, timer)
  }

  function After(asl: real -> real, run: seq<Step>): (s: System)
    ensures s.detector.Fits()
  {
    if run == [] then InitialSystem()
    else Next(asl, After(asl, run[..|run| - 1]), run[|run| - 1])
  }

  predicate Possible(asl: real -> real, run: seq<Step>) {
    forall i | 0 <= i < |run| :: Enabled(After(asl, run[..i]), run[i])
  }

  // ----- what the record says about the debouncers

  /** A 32-bit time counted from `base`. */
  function Wrapped(t: nat, base: nat): (w: nat)
    ensures w < WRAP
  {
    (t - base) % WRAP
  }

  /** Values that count: above a limit, below it, or less than it either way. */
  datatype Band = Above(limit: real) | Below(limit: real) | Within(limit: real) {
    predicate Contains(value: real) {
      match this
      case Above(limit) => value > limit
      case Below(limit) => value < limit
      case Within(limit) => -limit < value < limit
    }
  }

  /** What a debouncer is fed for a record: 32-bit times counted from `base`. */
  function Readings(h: seq<Measured>, base: nat, band: Band): (r: seq<Reading>)
    ensures |r| == |h|
  {
    if h == [] then []
    else
      var m := h[|h| - 1];
      Readings(h[..|h| - 1], base, band) +
      [Reading(Wrapped(m.timestamp, base), band.Contains(m.value))]
  }

  lemma {:induction false} ReadingAt(h: seq<Measured>, base: nat, band: Band, i: nat)
    requires i < |h|
    ensures Readings(h, base, band)[i] ==
            Reading(Wrapped(h[i].timestamp, base), band.Contains(h[i].value))
  {
    if i < |h| - 1 {
      ReadingAt(h[..|h| - 1], base, band, i);
    }
  }

  predicate Ordered(h: seq<Measured>) {
    forall i, j | 0 <= i <= j < |h| :: h[i].timestamp <= h[j].timestamp
  }

  /** From sample `i` to the last one every value is in the band, and that takes longer
      than the duration: 32-bit wrap-around plays no part in it. */
  predicate SustainedFrom(h: seq<Measured>, i: nat, band: Band, duration: nat) {
    && i < |h|
    && (forall j | i <= j < |h| :: band.Contains(h[j].value))
    && h[|h| - 1].timestamp - h[i].timestamp > duration
  }

  ghost predicate Sustained(h: seq<Measured>, band: Band, duration: nat) {
    exists i: nat :: SustainedFrom(h, i, band, duration)
  }

  lemma ElapsedIsDifference(a: nat, b: nat, base: nat)
    requires a <= b
    ensures Elapsed(Wrapped(b, base), Wrapped(a, base)) == (b - a) % WRAP <= b - a
  {
  }

  predicate Spans(h: seq<Measured>) {
    h != [] ==> h[|h| - 1].timestamp - h[0].timestamp < WRAP
  }

  /** A sustained run that neither starts nor ends at the time that stands for "not passed". */
  predicate SeenFrom(h: seq<Measured>, base: nat, i: nat, band: Band, duration: nat) {
    && SustainedFrom(h, i, band, duration)
    && Wrapped(h[i].timestamp, base) != NOT_PASSED && Wrapped(h[|h| - 1].timestamp, base) != NOT_PASSED
  }

  ghost predicate Seen(h: seq<Measured>, base: nat, band: Band, duration: nat) {
    exists i: nat :: SeenFrom(h, base, i, band, duration)
  }

  /** What a debouncer detects, exactly: on every record that spans less than 2^32 ms. */
  lemma PassedIsSeen(h: seq<Measured>, base: nat, band: Band, duration: nat)
    requires Ordered(h) && Spans(h)
    ensures HasPassed(RunAfter(Readings(h, base, band)), duration) <==>
            Seen(h, base, band, duration)
  {
    hide HasPassed, Seen, Ordered;
    if HasPassed(RunAfter(Readings(h, base, band)), duration) {
      PassedWasSeen(h, base, band, duration);
    }
    if Seen(h, base, band, duration) {
      SeenHasPassed(h, base, band, duration);
    }
  }

  lemma PassedWasSeen(h: seq<Measured>, base: nat, band: Band, duration: nat)
    requires Ordered(h) && HasPassed(RunAfter(Readings(h, base, band)), duration)
    ensures Seen(h, base, band, duration)
  {
    hide Elapsed, Wrapped, Readings, HasPassed, Band.Contains, RunStart, FirstTime;
    var r := Readings(h, base, band);
    PassedExactly(r, duration);
    FirstTimeUsable(r, RunStart(r), |r| - 1);
    var i := FirstTimeIndex(r, RunStart(r));
    forall j | i <= j < |h|
      ensures band.Contains(h[j].value)
    {
      ReadingAt(h, base, band, j);
    }
    ReadingAt(h, base, band, i);
    ReadingAt(h, base, band, |h| - 1);
    ElapsedIsDifference(h[i].timestamp, h[|h| - 1].timestamp, base);
    assert SeenFrom(h, base, i, band, duration);
  }

  lemma SeenHasPassed(h: seq<Measured>, base: nat, band: Band, duration: nat)
    requires Ordered(h) && Spans(h) && Seen(h, base, band, duration)
    ensures HasPassed(RunAfter(Readings(h, base, band)), duration)
  {
    hide Elapsed, Wrapped, Readings, HasPassed, Band.Contains, RunStart, FirstTime;
    var r := Readings(h, base, band);
    var i: nat :| SeenFrom(h, base, i, band, duration);
    forall j | i <= j < |h|
      ensures r[j].passes
    {
      ReadingAt(h, base, band, j);
    }
    ReadingAt(h, base, band, i);
    ReadingAt(h, base, band, |h| - 1);
    RunReaches(r, i);
    FirstTimeUsable(r, RunStart(r), i);
    var k := FirstTimeIndex(r, RunStart(r));
    assert k <= i;
    RunLasts(h, base, band, k);
    assert h[k].timestamp <= h[i].timestamp;
    PassedExactly(r, duration);
  }

  lemma RunReaches(r: seq<Reading>, i: nat)
    requires i < |r| && forall j | i <= j < |r| :: r[j].passes
    ensures RunStart(r) <= i
  {}

  lemma RunLasts(h: seq<Measured>, base: nat, band: Band, k: nat)
    requires Ordered(h) && Spans(h) && k < |h|
    ensures var r := Readings(h, base, band);
            Elapsed(r[|h| - 1].t, r[k].t) == h[|h| - 1].timestamp - h[k].timestamp
  {
    hide Elapsed, Wrapped, Readings;
    ReadingAt(h, base, band, k);
    ReadingAt(h, base, band, |h| - 1);
    ElapsedIsDifference(h[k].timestamp, h[|h| - 1].timestamp, base);
    SmallDifference(h[|h| - 1].timestamp - h[k].timestamp);
  }

  /** Even in longer records, a debouncer that has passed has seen a sustained run. */
  lemma PassedIsSustained(h: seq<Measured>, base: nat, band: Band, duration: nat)
    requires Ordered(h) && HasPassed(RunAfter(Readings(h, base, band)), duration)
    ensures Sustained(h, band, duration)
  {
    PassedWasSeen(h, base, band, duration);
    hide SustainedFrom;
    var i: nat :| SeenFrom(h, base, i, band, duration);
    assert SustainedFrom(h, i, band, duration);
  }

  /** Away from the reserved time every sustained run is seen. */
  lemma SustainedIsSeen(h: seq<Measured>, base: nat, band: Band, duration: nat)
    requires forall i | 0 <= i < |h| :: Wrapped(h[i].timestamp, base) != NOT_PASSED
    ensures Sustained(h, band, duration) <==> Seen(h, base, band, duration)
  {
    hide Wrapped, Band.Contains;
    if Sustained(h, band, duration) {
      var i: nat :| SustainedFrom(h, i, band, duration);
      assert SeenFrom(h, base, i, band, duration);
    }
    if Seen(h, base, band, duration) {
      var i: nat :| SeenFrom(h, base, i, band, duration);
      assert SustainedFrom(h, i, band, duration);
    }
  }

  lemma SmallDifference(t: nat)
    requires t < WRAP
    ensures t % WRAP == t
  {}

  // ----- what every run keeps

  /** The events that have occurred are on record, with moments that lie in the past. */
  ghost predicate RecordKept(s: System)
    requires s.detector.Fits()
  {
    && s.lastTimestamp <= s.clock
    && (forall e: nat :: e in s.occurred <==> e < NUM_EVENTS && s.Has(e))
    && (forall e | e in s.occurred :: s.occurred[e].clock <= s.clock && s.occurred[e].timestamp <= s.lastTimestamp)
  }

  /** Boost starts the three timers, each once, and nothing else starts one. */
  ghost predicate TimersKept(s: System)
    requires s.detector.Fits()
  {
    && s.detector.controller.started == (if s.Has(BOOST) then [LOCKOUT, FULL_FLIGHT, SPARE] else [])
    && (forall i: nat :: i in s.startedAt <==> s.Has(BOOST) && i < 3)
    && (s.Has(BOOST) ==> BOOST in s.occurred)
    && (forall i | i in s.startedAt :: s.startedAt[i] == s.occurred[BOOST].clock)
    && (forall i | i in s.fired :: i in s.startedAt)
  }

  predicate Later(s: System, e: nat, margin: nat, than: nat) {
    && e in s.occurred && than in s.occurred
    && s.occurred[e].clock >= s.occurred[than].clock + margin
    && s.occurred[e].timestamp >= s.occurred[than].timestamp
  }

  /** The order of events, and what each of them rests on. */
  ghost predicate OrderKept(s: System)
    requires s.detector.Fits()
  {
    && (s.Has(NOSEOVER_LOCKOUT) <==> LOCKOUT in s.fired)
    && (s.Has(NOSEOVER_LOCKOUT) ==> s.Has(BOOST) && Later(s, NOSEOVER_LOCKOUT, LOCKOUT_TIME, BOOST))
    && (s.Has(NOSEOVER) ==> s.Has(NOSEOVER_LOCKOUT) && Later(s, NOSEOVER, 0, NOSEOVER_LOCKOUT))
    && (s.Has(NOSEOVER) ==> EitherPassed(s.detector.noseover, NOSEOVER_TIME))
    && (s.Has(GROUND_HIT) <==> FULL_FLIGHT in s.fired || BaromReported(s.detector, GROUND_HIT))
    && (s.Has(GROUND_HIT) ==> s.Has(BOOST))
    && (BaromReported(s.detector, GROUND_HIT) ==> s.Has(NOSEOVER) && EitherPassed(s.detector.ground, GROUND_TIME))
    && (s.Has(GROUND_HIT) && !BaromReported(s.detector, GROUND_HIT) ==> Later(s, GROUND_HIT, FULL_FLIGHT_TIME, BOOST))
  }

  predicate Between(h: seq<Measured>, from: nat, to: nat) {
    forall i | 0 <= i < |h| :: from <= h[i].timestamp <= to
  }

  /** A debouncer of a barometer is in the state that its record describes. */
  ghost predicate Follows(run: Run, h: seq<Measured>, boostTime: nat, band: Band) {
    run == RunAfter(Readings(h, boostTime + 250, band)) && Ordered(h)
  }

  ghost predicate BothFollow(runs: Both<Run>, h: Both<seq<Measured>>, boostTime: nat, band: Band) {
    Follows(runs.primary, h.primary, boostTime, band) && Follows(runs.secondary, h.secondary, boostTime, band)
  }

  predicate BothBetween(h: Both<seq<Measured>>, from: nat, to: nat) {
    Between(h.primary, from, to) && Between(h.secondary, from, to)
  }

  /** Where in time a record starts: at the event that has its debouncer fed. */
  function Since(s: System, event: nat): nat {
    if event in s.occurred then s.occurred[event].timestamp else 0
  }

  /** And where it ends: at the event the debouncer is there to detect. */
  function Until(s: System, event: nat): nat {
    if event in s.occurred then s.occurred[event].timestamp else s.lastTimestamp
  }

  ghost predicate DebouncersKept(s: System)
    requires s.detector.Fits()
  {
    && BothFollow(s.detector.noseover, s.velocities, s.detector.boostTime, Below(10.0))
    && BothFollow(s.detector.ground, s.lateVelocities, s.detector.boostTime, Within(10.0))
    && (!s.Has(BOOST) ==> s.velocities == Both([], []))
    && (!s.Has(NOSEOVER) ==> s.lateVelocities == Both([], []))
    && BothBetween(s.velocities, Since(s, BOOST), Until(s, NOSEOVER))
    && BothBetween(s.lateVelocities, Since(s, NOSEOVER), Until(s, GROUND_HIT))
  }

  ghost predicate Kept(s: System)
    requires s.detector.Fits()
  {
    RecordKept(s) && TimersKept(s) && OrderKept(s) && DebouncersKept(s)
  }

  lemma InitiallyKept()
    ensures Kept(InitialSystem())
  {
  }

  /** What a debouncer is fed passes its threshold exactly if the velocity it stands for is in the band. */
  ghost predicate StandsFor(band: Band, target: real, velocity: Option<real>, fed: Option<real>) {
    match velocity
    case None => fed == None
    case Some(v) => fed.Some? && (Passes(Under, target, fed.value) <==> band.Contains(v))
  }

  /** Noseover is about the velocity itself, landing about the velocity without its sign. */
  lemma VelocitiesStand(velocity: Option<real>)
    ensures StandsFor(Below(10.0), NOSEOVER_VELOCITY, velocity, velocity)
    ensures StandsFor(Within(10.0), GROUND_VELOCITY, velocity, Speed(velocity))
  {}

  /** Feeding a debouncer and recording the velocity keep step. */
  lemma FollowsFed(run: Run, h: seq<Measured>, boostTime: nat, band: Band, timestamp: nat, velocity: Option<real>,
                   target: real, fed: Option<real>)
    requires Follows(run, h, boostTime, band) && Between(h, 0, timestamp) && StandsFor(band, target, velocity, fed)
    ensures Follows(FedUnder(run, TPlus(timestamp, boostTime), target, fed),
                    Recorded(h, timestamp, velocity), boostTime, band)
  {
    if velocity.Some? {
      hide Passes, Band.Contains;
      var h' := Recorded(h, timestamp, velocity);
      var base := boostTime + 250;
      assert h'[..|h|] == h;
      var last := Reading(Wrapped(timestamp, base), band.Contains(velocity.value));
      assert Readings(h', base, band) == Readings(h, base, band) + [last];
      AfterAppend(Readings(h, base, band), last);
    }
  }

  lemma AfterAppend(history: seq<Reading>, r: Reading)
    ensures RunAfter(history + [r]) == Fed(RunAfter(history), r.t, r.passes)
  {
    assert (history + [r])[..|history|] == history;
  }

  lemma RecordStep(before: map<nat, Moment>, d: Detector, e: Detector, now: Moment)
    requires d.Fits() && e.Fits() && (forall i: nat | i < NUM_EVENTS :: d.Has(i) ==> e.Has(i))
    requires forall i: nat :: i in before <==> i < NUM_EVENTS && d.Has(i)
    ensures var after := Occurred(before, e, now);
            && (forall i: nat :: i in after <==> i < NUM_EVENTS && e.Has(i))
            && (forall i | i in before :: i in after && after[i] == before[i])
            && (forall i | i in after && i !in before :: after[i] == now)
  {
  }

  /** Started keeps the times there are and stamps the rest. */
  lemma StartedStep(before: map<nat, nat>, started: seq<nat>, clock: nat)
    ensures var after := Started(before, started, clock);
            && (forall i: nat :: i in after <==> i in started)
            && (forall i | i in after :: after[i] == if i in before then before[i] else clock)
  {
  }

  ghost predicate HandleTransition(s: System, t: System, now: Moment, asl: real -> real, data: SensorData,
                                   working: SensorWorkings)
    requires s.detector.Fits() && t.detector.Fits()
  {
    && HandleEffect(s.detector, t.detector, now.timestamp, asl, data, working)
    && t.clock == now.clock && t.lastTimestamp == now.timestamp && t.fired == s.fired
    && t.startedAt == Started(s.startedAt, t.detector.controller.started, now.clock)
    && t.occurred == Occurred(s.occurred, t.detector, now)
  }

  lemma HandledRecord(s: System, t: System, now: Moment, asl: real -> real, data: SensorData, working: SensorWorkings)
    requires s.detector.Fits() && t.detector.Fits() && RecordKept(s) && HandleTransition(s, t, now, asl, data, working)
    requires s.clock <= now.clock && s.lastTimestamp <= now.timestamp <= now.clock
    ensures RecordKept(t)
    ensures forall i | i in s.occurred :: i in t.occurred && t.occurred[i] == s.occurred[i]
    ensures forall i | i in t.occurred && i !in s.occurred :: t.occurred[i] == now
  {
    hide EitherPassed, BaromDue, BoostDue, FedOver, FedBothUnder, Occurred, Started, WindowsFed, BaromReported;
    RecordStep(s.occurred, s.detector, t.detector, now);
  }

  lemma AllTimers(started: seq<nat>, boost: bool)
    requires started == if boost then [LOCKOUT, FULL_FLIGHT, SPARE] else []
    ensures forall i: nat :: i in started <==> boost && i < 3
  {
    if boost {
      assert started[0] == LOCKOUT && started[1] == FULL_FLIGHT && started[2] == SPARE;
    }
  }

  lemma HandledTimers(s: System, t: System, now: Moment, asl: real -> real, data: SensorData, working: SensorWorkings)
    requires s.detector.Fits() && t.detector.Fits() && RecordKept(s) && TimersKept(s) &&
             HandleTransition(s, t, now, asl, data, working)
    requires s.clock <= now.clock && s.lastTimestamp <= now.timestamp <= now.clock
    ensures TimersKept(t)
  {
    HandledRecord(s, t, now, asl, data, working);
    HandledStarts(s, t, now, asl, data, working);
    var started := t.detector.controller.started;
    AllTimers(started, t.Has(BOOST));
    hide HandleEffect, Occurred, Started;
    StartedStep(s.startedAt, started, now.clock);
  }

  lemma HandledStarts(s: System, t: System, now: Moment, asl: real -> real, data: SensorData, working: SensorWorkings)
    requires s.detector.Fits() && t.detector.Fits() && TimersKept(s) && HandleTransition(s, t, now, asl, data, working)
    ensures s.Has(BOOST) ==> t.Has(BOOST)
    ensures t.detector.controller.started == if t.Has(BOOST) then [LOCKOUT, FULL_FLIGHT, SPARE] else []
  {
    hide EitherPassed, BaromDue, BoostDue, FedOver, FedBothUnder, Occurred, Started, WindowsFed;
    hide BaromReported, NoseoverSummary, GroundSummary;
  }

  lemma HandledOrder(s: System, t: System, now: Moment, asl: real -> real, data: SensorData, working: SensorWorkings)
    requires s.detector.Fits() && t.detector.Fits() && Kept(s) && HandleTransition(s, t, now, asl, data, working)
    requires s.clock <= now.clock && s.lastTimestamp <= now.timestamp <= now.clock
    ensures OrderKept(t)
  {
    HandledRecord(s, t, now, asl, data, working);
    DueHasPassed(t.detector.noseover, NOSEOVER_TIME, working);
    DueHasPassed(t.detector.ground, GROUND_TIME, working);
    hide EitherPassed, BaromDue, BoostDue, FedOver, FedBothUnder, Occurred, Started;
  }

  lemma BothFollowFed(runs: Both<Run>, h: Both<seq<Measured>>, boostTime: nat, band: Band, timestamp: nat,
                      velocities: Both<Option<real>>, target: real, fed: Both<Option<real>>)
    requires BothFollow(runs, h, boostTime, band) && BothBetween(h, 0, timestamp)
    requires StandsFor(band, target, velocities.primary, fed.primary)
    requires StandsFor(band, target, velocities.secondary, fed.secondary)
    ensures BothFollow(FedBothUnder(runs, TPlus(timestamp, boostTime), target, fed),
                       RecordedBoth(h, timestamp, velocities), boostTime, band)
  {
    hide Follows, FedUnder, Recorded, StandsFor;
    FollowsFed(runs.primary, h.primary, boostTime, band, timestamp, velocities.primary, target, fed.primary);
    FollowsFed(runs.secondary, h.secondary, boostTime, band, timestamp, velocities.secondary, target, fed.secondary);
  }

  lemma BothBetweenRecorded(h: Both<seq<Measured>>, from: nat, to: nat, timestamp: nat, values: Both<Option<real>>)
    requires BothBetween(h, from, to) && from <= timestamp && to <= timestamp
    ensures BothBetween(RecordedBoth(h, timestamp, values), from, timestamp)
  {
  }

  lemma HandledVelocities(s: System, d: Detector, e: Detector, t: System, timestamp: nat, working: SensorWorkings)
    requires d.Fits() && e.Fits() && d == s.detector && e == t.detector && DebouncersKept(s)
    requires NoseoverSummary(d, e, timestamp, working) && (d.Has(BOOST) ==> e.Has(BOOST) && d.boostTime == e.boostTime)
    requires s.lastTimestamp <= timestamp == t.lastTimestamp
    requires t.velocities ==
             if WatchesNoseover(d, e) then RecordedBoth(s.velocities, timestamp, Slopes(e.windows)) else s.velocities
    requires Since(t, BOOST) <= timestamp && (d.Has(BOOST) ==> Since(t, BOOST) == Since(s, BOOST))
    requires Until(s, NOSEOVER) <= timestamp &&
             Until(t, NOSEOVER) == if d.Has(NOSEOVER) then Until(s, NOSEOVER) else timestamp
    ensures BothFollow(e.noseover, t.velocities, e.boostTime, Below(10.0))
    ensures BothBetween(t.velocities, Since(t, BOOST), Until(t, NOSEOVER))
    ensures !e.Has(BOOST) ==> t.velocities == Both([], [])
  {
    hide FedBothUnder, RecordedBoth, Slopes, BaromDue;
    var h := s.velocities;
    assert BothFollow(d.noseover, h, e.boostTime, Below(10.0));
    assert BothBetween(h, 0, timestamp) && BothBetween(h, Since(t, BOOST), Until(s, NOSEOVER));
    var slopes := Slopes(e.windows);
    VelocitiesStand(slopes.primary);
    VelocitiesStand(slopes.secondary);
    BothFollowFed(d.noseover, h, e.boostTime, Below(10.0), timestamp, slopes, NOSEOVER_VELOCITY, slopes);
    BothBetweenRecorded(h, Since(t, BOOST), Until(s, NOSEOVER), timestamp, Slopes(e.windows));
  }

  lemma HandledLateVelocities(s: System, d: Detector, e: Detector, t: System, timestamp: nat, working: SensorWorkings)
    requires d.Fits() && e.Fits() && d == s.detector && e == t.detector && DebouncersKept(s)
    requires GroundSummary(d, e, timestamp, working) &&
             (d.Has(NOSEOVER) ==> e.Has(NOSEOVER) && d.boostTime == e.boostTime)
    requires s.lastTimestamp <= timestamp == t.lastTimestamp
    requires t.lateVelocities ==
             if WatchesGround(d, e) then RecordedBoth(s.lateVelocities, timestamp, Slopes(e.windows))
             else s.lateVelocities
    requires Since(t, NOSEOVER) <= timestamp && (d.Has(NOSEOVER) ==> Since(t, NOSEOVER) == Since(s, NOSEOVER))
    requires Until(s, GROUND_HIT) <= timestamp &&
             Until(t, GROUND_HIT) == if d.Has(GROUND_HIT) then Until(s, GROUND_HIT) else timestamp
    ensures BothFollow(e.ground, t.lateVelocities, e.boostTime, Within(10.0))
    ensures BothBetween(t.lateVelocities, Since(t, NOSEOVER), Until(t, GROUND_HIT))
    ensures !e.Has(NOSEOVER) ==> t.lateVelocities == Both([], [])
  {
    hide FedBothUnder, RecordedBoth, Slopes, Speeds, BaromDue, BaromReported;
    var h := s.lateVelocities;
    assert BothFollow(d.ground, h, e.boostTime, Within(10.0));
    assert BothBetween(h, 0, timestamp) && BothBetween(h, Since(t, NOSEOVER), Until(s, GROUND_HIT));
    var slopes := Slopes(e.windows);
    VelocitiesStand(slopes.primary);
    VelocitiesStand(slopes.secondary);
    SpeedsAre(slopes);
    BothFollowFed(d.ground, h, e.boostTime, Within(10.0), timestamp, slopes, GROUND_VELOCITY, Speeds(slopes));
    BothBetweenRecorded(h, Since(t, NOSEOVER), Until(s, GROUND_HIT), timestamp, slopes);
  }

  lemma SpeedsAre(slopes: Both<Option<real>>)
    ensures Speeds(slopes) == Both(Speed(slopes.primary), Speed(slopes.secondary))
  {}

  lemma HandledKeeps(asl: real -> real, s: System, clock: nat, timestamp: nat, data: SensorData,
                     working: SensorWorkings)
    requires s.detector.Fits() && Kept(s)
    requires s.clock <= clock && s.lastTimestamp <= timestamp <= clock
    ensures Kept(Handled(asl, s, clock, timestamp, data, working))
  {
    hide DataHandled, Occurred, Started, EitherPassed, BaromDue, BoostDue, FedOver, FedBothUnder, WindowsFed;
    hide BothFollow, BothBetween, RecordedBoth, Slopes, Speeds;
    var t := Handled(asl, s, clock, timestamp, data, working);
    var now := Moment(clock, timestamp);
    DataHandledEffect(s.detector, timestamp, asl, data, working);
    HandledRecord(s, t, now, asl, data, working);
    HandledTimers(s, t, now, asl, data, working);
    HandledOrder(s, t, now, asl, data, working);
    HandledVelocities(s, s.detector, t.detector, t, timestamp, working);
    HandledLateVelocities(s, s.detector, t.detector, t, timestamp, working);
  }

  lemma TimerSourcesDecide(timer: TimerIndex)
    ensures TIMERS[timer].source in DecidingSources(TIMERS[timer].event) && TIMERS[timer].event < NUM_EVENTS
  {
    assert DecidingSources(TIMERS[timer].event)[if timer == FULL_FLIGHT then 2 else 0] == TIMERS[timer].source;
  }

  /** An expired timer is believed; it starts no other. */
  lemma ExpiredEffect(s: System, clock: nat, timer: TimerIndex)
    requires s.detector.Fits() && s.Has(BOOST)
    ensures var t, event := Expired(s, clock, timer), TIMERS[timer].event;
            && t.detector.controller.events == s.detector.controller.events[event := true]
            && t.detector.controller.started == s.detector.controller.started
            && (event != GROUND_HIT ==>
                  t.detector.controller.sources[GROUND_HIT] == s.detector.controller.sources[GROUND_HIT])
            && (BaromReported(t.detector, GROUND_HIT) <==> BaromReported(s.detector, GROUND_HIT))
  {
    TimerSourcesDecide(timer);
    SubmitDecides(s.detector.controller, TIMERS[timer].source, TIMERS[timer].event);
  }

  lemma ExpiredKeeps(s: System, clock: nat, timer: TimerIndex)
    requires s.detector.Fits() && Kept(s) && Enabled(s, Expire(clock, timer))
    ensures Kept(Expired(s, clock, timer))
  {
    hide DebouncersKept, Submit, Occurred, Started, EitherPassed, BaromReported;
    var t := Expired(s, clock, timer);
    ExpiredEffect(s, clock, timer);
    RecordStep(s.occurred, s.detector, t.detector, Moment(clock, s.lastTimestamp));
    StartedStep(s.startedAt, t.detector.controller.started, clock);
    AllTimers(t.detector.controller.started, true);
    ExpiredDebouncers(s, t);
  }

  lemma ExpiredDebouncers(s: System, t: System)
    requires s.detector.Fits() && t.detector.Fits() && DebouncersKept(s)
    requires t.detector == s.detector.(controller := t.detector.controller)
    requires t.velocities == s.velocities && t.lateVelocities == s.lateVelocities && t.lastTimestamp == s.lastTimestamp
    requires s.Has(BOOST) && t.Has(BOOST) && BOOST in s.occurred && BOOST in t.occurred &&
             t.occurred[BOOST] == s.occurred[BOOST]
    requires t.Has(NOSEOVER) == s.Has(NOSEOVER) && Since(t, NOSEOVER) == Since(s, NOSEOVER)
    requires Until(t, NOSEOVER) == Until(s, NOSEOVER) && Until(t, GROUND_HIT) == Until(s, GROUND_HIT)
    ensures DebouncersKept(t)
  {
  }

  lemma NextKeeps(asl: real -> real, s: System, step: Step)
    requires s.detector.Fits() && Kept(s) && Enabled(s, step)
    ensures Kept(Next(asl, s, step))
  {
    hide Kept, Handled, Expired;
    match step
    case Handle(clock, timestamp, data, working) => HandledKeeps(asl, s, clock, timestamp, data, working);
    case Expire(clock, timer) => ExpiredKeeps(s, clock, timer);
  }

  lemma PossiblePrefix(asl: real -> real, run: seq<Step>)
    requires run != [] && Possible(asl, run)
    ensures var n := |run| - 1; Possible(asl, run[..n]) && Enabled(After(asl, run[..n]), run[n])
  {
    hide Enabled, After;
    var n := |run| - 1;
    forall i | 0 <= i < n
      ensures Enabled(After(asl, run[..n][..i]), run[..n][i])
    {
      assert run[..n][..i] == run[..i];
    }
  }

  /** Every run keeps the whole invariant. */
  lemma {:induction false} RunKeeps(asl: real -> real, run: seq<Step>)
    requires Possible(asl, run)
    ensures Kept(After(asl, run))
  {
    hide Kept, Enabled, Next, Possible;
    if run == [] {
      InitiallyKept();
    } else {
      var n := |run| - 1;
      PossiblePrefix(asl, run);
      RunKeeps(asl, run[..n]);
      NextKeeps(asl, After(asl, run[..n]), run[n]);
    }
  }
}
