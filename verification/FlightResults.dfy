/** What holds in every run of the sensor module: the order and the timing of the flight phases,
    and what the sensors must have shown for each of them. */
module FlightResults {
  import opened LinearFit
  import opened Debouncers
  import opened PhaseControllers
  import opened Flight
  import opened DetectionHandlers
  import opened HandlerEffects
  import opened FlightRuns

  /** The phases of a flight come in order, with their margins: the burn-out lockout takes 15 s,
      and a landing that no barometer has reported is the 350 s timer's. */
  lemma PhasesInOrder(asl: real -> real, run: seq<Step>)
    requires Possible(asl, run)
    ensures var s := After(asl, run);
            && (s.Has(NOSEOVER) ==> s.Has(NOSEOVER_LOCKOUT))
            && (s.Has(NOSEOVER_LOCKOUT) ==> s.Has(BOOST))
            && (s.Has(NOSEOVER) ==> Later(s, NOSEOVER, 15000, BOOST))
            && (s.Has(GROUND_HIT) ==> s.Has(BOOST))
            && (s.Has(GROUND_HIT) ==> s.Has(NOSEOVER) || Later(s, GROUND_HIT, 350000, BOOST))
  {
    RunKeeps(asl, run);
    hide After, DebouncersKept, EitherPassed, BaromReported;
  }

  /** What it takes for a timer to expire. */
  predicate Due(s: System, clock: nat, timer: TimerIndex) {
    && BOOST in s.occurred && timer !in s.fired && clock >= s.clock
    && clock >= s.occurred[BOOST].clock + if timer == 0 then 15000 else if timer == 1 then 350000 else 0
  }

  /** From boost on each timer is due once, and exactly then: the lockout after 15 s, the full flight after
      350 s, the zero-filled timer at once. */
  lemma TimersDue(asl: real -> real, run: seq<Step>, clock: nat, timer: TimerIndex)
    requires Possible(asl, run)
    ensures Enabled(After(asl, run), Expire(clock, timer)) <==> Due(After(asl, run), clock, timer)
  {
    hide After, Possible, State.Fits, Enabled, Due;
    RunKeeps(asl, run);
    DueExpires(After(asl, run), clock, timer);
  }

  lemma DueExpires(s: System, clock: nat, timer: TimerIndex)
    requires s.detector.Fits() && Kept(s)
    ensures Enabled(s, Expire(clock, timer)) <==> Due(s, clock, timer)
  {
    hide State.Fits, OrderKept, DebouncersKept;
    assert BOOST in s.occurred <==> s.Has(BOOST);
    assert timer in s.startedAt <==> s.Has(BOOST);
  }

  /** One of two records shows a sustained run. */
  ghost predicate EitherSustained(h: Both<seq<Measured>>, band: Band, duration: nat) {
    Sustained(h.primary, band, duration) || Sustained(h.secondary, band, duration)
  }

  lemma EitherPassedIsSustained(runs: Both<Run>, h: Both<seq<Measured>>, boostTime: nat, band: Band, duration: nat)
    requires BothFollow(runs, h, boostTime, band) && EitherPassed(runs, duration)
    ensures EitherSustained(h, band, duration)
  {
    hide HasPassed, Sustained;
    if HasPassed(runs.primary, duration) {
      PassedIsSustained(h.primary, boostTime + 250, band, duration);
    } else {
      PassedIsSustained(h.secondary, boostTime + 250, band, duration);
    }
  }

  /** Noseover is only detected once one barometer has seen less than 10 ft/s of climb for more
      than 250 ms since boost. */
  lemma NoseoverSustained(asl: real -> real, run: seq<Step>)
    requires Possible(asl, run)
    ensures var s := After(asl, run);
            s.Has(NOSEOVER) ==>
            && EitherSustained(s.velocities, Below(10.0), 250)
            && BOOST in s.occurred && NOSEOVER in s.occurred
            && BothBetween(s.velocities, s.occurred[BOOST].timestamp, s.occurred[NOSEOVER].timestamp)
  {
    RunKeeps(asl, run);
    var s := After(asl, run);
    hide After, BothFollow, EitherPassed, BothBetween;
    if s.Has(NOSEOVER) {
      EitherPassedIsSustained(s.detector.noseover, s.velocities, s.detector.boostTime, Below(10.0), 250);
    }
  }

  lemma SustainedSpan(h: seq<Measured>, band: Band, duration: nat, from: nat, to: nat)
    requires Sustained(h, band, duration) && Between(h, from, to)
    ensures to > from + duration
  {
    var i: nat :| SustainedFrom(h, i, band, duration);
  }

  /** A landing that a barometer reports: since noseover it has seen less than 10 ft/s, up or down,
      for more than 10 s. This holds for flights of any length. */
  lemma LandingSustained(asl: real -> real, run: seq<Step>)
    requires Possible(asl, run)
    ensures var s := After(asl, run);
            BaromReported(s.detector, GROUND_HIT) ==>
            && NOSEOVER in s.occurred && GROUND_HIT in s.occurred
            && EitherSustained(s.lateVelocities, Within(10.0), 10000)
            && BothBetween(s.lateVelocities, s.occurred[NOSEOVER].timestamp, s.occurred[GROUND_HIT].timestamp)
            && s.occurred[GROUND_HIT].timestamp > s.occurred[NOSEOVER].timestamp + 10000
  {
    RunKeeps(asl, run);
    var s := After(asl, run);
    hide After, BothFollow, EitherPassed, Sustained, Between, BaromReported;
    if BaromReported(s.detector, GROUND_HIT) {
      EitherPassedIsSustained(s.detector.ground, s.lateVelocities, s.detector.boostTime, Within(10.0), 10000);
      var from, to := Since(s, NOSEOVER), Until(s, GROUND_HIT);
      if Sustained(s.lateVelocities.primary, Within(10.0), 10000) {
        SustainedSpan(s.lateVelocities.primary, Within(10.0), 10000, from, to);
      } else {
        SustainedSpan(s.lateVelocities.secondary, Within(10.0), 10000, from, to);
      }
    }
  }

  /** Readings are handled within `lag` of their time stamp. */
  predicate Prompt(run: seq<Step>, lag: nat) {
    forall i | 0 <= i < |run| && run[i].Handle? :: run[i].clock <= run[i].timestamp + lag
  }

  /** No timer brings about noseover. */
  lemma NoseoverByHandle(asl: real -> real, s: System, step: Step)
    requires s.detector.Fits() && Kept(s) && Enabled(s, step)
    ensures NOSEOVER in s.occurred ==> Next(asl, s, step).occurred[NOSEOVER] == s.occurred[NOSEOVER]
    ensures NOSEOVER !in s.occurred && NOSEOVER in Next(asl, s, step).occurred ==>
              step.Handle? && Next(asl, s, step).occurred[NOSEOVER] == Moment(step.clock, step.timestamp)
  {
    hide TimersKept, OrderKept, DebouncersKept, HandleEffect, DataHandled, Submit, Occurred, Started;
    match step
    case Handle(clock, timestamp, data, working) =>
      var t := Next(asl, s, step);
      DataHandledEffect(s.detector, timestamp, asl, data, working);
      HandledRecord(s, t, Moment(clock, timestamp), asl, data, working);
    case Expire(clock, timer) =>
      BoostBeforeTimers(s, clock, timer);
      ExpiredEffect(s, clock, timer);
      RecordStep(s.occurred, s.detector, Next(asl, s, step).detector, Moment(clock, s.lastTimestamp));
  }

  lemma {:induction false} NoseoverIsHandled(asl: real -> real, run: seq<Step>, lag: nat)
    requires Possible(asl, run) && Prompt(run, lag)
    ensures NOSEOVER in After(asl, run).occurred ==>
              var moment := After(asl, run).occurred[NOSEOVER]; moment.clock <= moment.timestamp + lag
  {
    hide Possible, Kept, Next, Enabled;
    if run != [] {
      var n := |run| - 1;
      PossiblePrefix(asl, run);
      RunKeeps(asl, run[..n]);
      var s := After(asl, run[..n]);
      NoseoverByHandle(asl, s, run[n]);
      NoseoverIsHandled(asl, run[..n], lag);
    }
  }

  lemma BoostBeforeTimers(s: System, clock: nat, timer: TimerIndex)
    requires s.detector.Fits() && Kept(s) && Enabled(s, Expire(clock, timer))
    ensures s.Has(BOOST)
    ensures s.Has(NOSEOVER) <==> NOSEOVER in s.occurred
  {
  }

  /** A landing that a barometer reports comes more than 25 s after boost, less the time that
      readings can be under way. */
  lemma LandingAfterBoost(asl: real -> real, run: seq<Step>, lag: nat)
    requires Possible(asl, run) && Prompt(run, lag)
    ensures var s := After(asl, run);
            BaromReported(s.detector, GROUND_HIT) ==>
            && BOOST in s.occurred && GROUND_HIT in s.occurred
            && s.occurred[GROUND_HIT].clock + lag > s.occurred[BOOST].clock + 25000
  {
    LandingSustained(asl, run);
    NoseoverIsHandled(asl, run, lag);
    PhasesInOrder(asl, run);
    MomentsOrdered(asl, run);
  }

  /** Time stamps on record are no later than the clock. */
  lemma {:induction false} MomentsOrdered(asl: real -> real, run: seq<Step>)
    requires Possible(asl, run)
    ensures forall e | e in After(asl, run).occurred ::
            After(asl, run).occurred[e].timestamp <= After(asl, run).occurred[e].clock
  {
    hide Possible, Kept, HandleEffect, DataHandled, Submit;
    if run != [] {
      PossiblePrefix(asl, run);
      RunKeeps(asl, run[..|run| - 1]);
      MomentsOrdered(asl, run[..|run| - 1]);
      ClockAhead(After(asl, run[..|run| - 1]));
    }
  }

  lemma ClockAhead(s: System)
    requires s.detector.Fits() && Kept(s)
    ensures s.lastTimestamp <= s.clock
  {}

  /** The zero-filled timer changes nothing but the clock and the report it makes. */
  lemma SpareTimerChangesNoEvent(asl: real -> real, run: seq<Step>, clock: nat)
    requires Possible(asl, run)
    ensures var s := After(asl, run);
            var t := Next(asl, s, Expire(clock, SPARE));
            Enabled(s, Expire(clock, SPARE)) ==>
            && t.detector == s.detector.(controller := s.detector.controller.(sources := t.detector.controller.sources))
            && t.occurred == s.occurred && t.startedAt == s.startedAt
  {
    RunKeeps(asl, run);
    var s := After(asl, run);
    if Enabled(s, Expire(clock, SPARE)) {
      BoostBeforeTimers(s, clock, SPARE);
      SpareTimerStep(s, clock);
    }
  }

  lemma SpareTimerStep(s: System, clock: nat)
    requires s.detector.Fits() && RecordKept(s) && TimersKept(s) && s.Has(BOOST)
    ensures var t := Expired(s, clock, SPARE);
            && t.detector == s.detector.(controller := s.detector.controller.(sources := t.detector.controller.sources))
            && t.occurred == s.occurred && t.startedAt == s.startedAt
  {
    SpareTimerHarmless(s.detector.controller);
    hide Submit, Occurred, Started;
    var t := Expired(s, clock, SPARE);
    RecordStep(s.occurred, s.detector, t.detector, Moment(clock, s.lastTimestamp));
    AllTimers(t.detector.controller.started, true);
    StartedStep(s.startedAt, t.detector.controller.started, clock);
    assert t.occurred.Keys == s.occurred.Keys && t.startedAt.Keys == s.startedAt.Keys;
  }

  ghost predicate BoostTimed(s: System)
    requires s.detector.Fits()
  {
    s.detector.boostTime ==
    if s.Has(BOOST) && BOOST in s.occurred then s.occurred[BOOST].timestamp else 0xFFFF_FFFF_FFFF_FFFF
  }

  lemma BoostTimedNext(asl: real -> real, s: System, step: Step)
    requires s.detector.Fits() && Kept(s) && Enabled(s, step) && BoostTimed(s)
    ensures BoostTimed(Next(asl, s, step))
  {
    hide TimersKept, OrderKept, DebouncersKept, NoseoverSummary, GroundSummary, HandleEffect, DataHandled;
    hide Submit, Occurred, Started;
    match step
    case Handle(clock, timestamp, data, working) =>
      var t := Next(asl, s, step);
      DataHandledEffect(s.detector, timestamp, asl, data, working);
      HandledRecord(s, t, Moment(clock, timestamp), asl, data, working);
      BoostTimedBy(s.detector, t.detector, timestamp, asl, data, working);
    case Expire(clock, timer) =>
      BoostBeforeTimers(s, clock, timer);
      ExpiredEffect(s, clock, timer);
      RecordStep(s.occurred, s.detector, Next(asl, s, step).detector, Moment(clock, s.lastTimestamp));
  }

  lemma BoostTimedBy(d: Detector, e: Detector, timestamp: nat, asl: real -> real, data: SensorData,
                     working: SensorWorkings)
    requires d.Fits() && e.Fits() && HandleEffect(d, e, timestamp, asl, data, working)
    ensures d.Has(BOOST) ==> e.Has(BOOST) && e.boostTime == d.boostTime
    ensures !e.Has(BOOST) ==> e.boostTime == d.boostTime
    ensures !d.Has(BOOST) && e.Has(BOOST) && d.boostTime == BOOST_NOT_YET_HAPPENED ==> e.boostTime == timestamp
  {
    hide NoseoverSummary, GroundSummary, FedOver, BoostDue, WindowsFed;
  }

  /** The detector's time of boost is the time stamp of the readings that brought boost about. */
  lemma {:induction false} BoostTimeRecorded(asl: real -> real, run: seq<Step>)
    requires Possible(asl, run)
    ensures BoostTimed(After(asl, run))
  {
    hide Possible, Kept, Next, Enabled, State.Fits;
    if run != [] {
      PossiblePrefix(asl, run);
      RunKeeps(asl, run[..|run| - 1]);
      BoostTimeRecorded(asl, run[..|run| - 1]);
      BoostTimedNext(asl, After(asl, run[..|run| - 1]), run[|run| - 1]);
    }
  }

  // ----- accelerations and boost

  /** The square of an acceleration, from its three components. */
  function Squared(x: real, y: real, z: real): real {
    x * x + y * y + z * z
  }

  /** That is what HandleBoost compares: of the primary IMU first, then of the secondary one. */
  lemma MagnitudesAre(data: SensorData)
    ensures var a, b := data.imuAcceleration, data.acceleration;
            Magnitudes(data) == Both(Squared(a.x, a.y, a.z), Squared(b.x, b.y, b.z))
  {
    SquaredIs(data.imuAcceleration);
    SquaredIs(data.acceleration);
    hide Squared, Vector.SquaredMagnitude;
  }

  lemma SquaredIs(v: Vector)
    ensures v.SquaredMagnitude() == Squared(v.x, v.y, v.z)
  {}

  /** Both squared accelerations of all readings handled in a run. */
  function Accelerations(run: seq<Step>): Both<seq<Measured>> {
    if run == [] then Both([], [])
    else
      var h := Accelerations(run[..|run| - 1]);
      match run[|run| - 1]
      case Handle(_, timestamp, data, _) =>
        var a, b := data.imuAcceleration, data.acceleration;
        Both(h.primary + [Measured(timestamp, Squared(a.x, a.y, a.z))],
             h.secondary + [Measured(timestamp, Squared(b.x, b.y, b.z))])
      case Expire(_, _) => h
  }

  function ImuRun(h: seq<Measured>): Run {
    RunAfter(Readings(h, 0, Above(2401.0)))
  }

  lemma ImuFed(h: seq<Measured>, timestamp: nat, value: real)
    ensures ImuRun(h + [Measured(timestamp, value)]) ==
            Fed(ImuRun(h), timestamp % WRAP, Passes(Over, BOOST_SQUARED, value))
  {
    assert Passes(Over, BOOST_SQUARED, value) == Above(2401.0).Contains(value);
    hide Passes, Band.Contains;
    var h' := h + [Measured(timestamp, value)];
    assert h'[..|h|] == h;
    var last := Reading(Wrapped(timestamp, 0), Above(2401.0).Contains(value));
    assert Readings(h', 0, Above(2401.0)) == Readings(h, 0, Above(2401.0)) + [last];
    AfterAppend(Readings(h, 0, Above(2401.0)), last);
  }

  /** Accelerations are on record in order. */
  lemma {:induction false} AccelerationsOrdered(asl: real -> real, run: seq<Step>)
    requires Possible(asl, run)
    ensures var h := Accelerations(run);
            && Ordered(h.primary) && Ordered(h.secondary) && BothBetween(h, 0, After(asl, run).lastTimestamp)
  {
    hide Possible, DataHandled, Submit;
    if run != [] {
      var n := |run| - 1;
      PossiblePrefix(asl, run);
      AccelerationsOrdered(asl, run[..n]);
    }
  }

  lemma BoostStays(asl: real -> real, s: System, step: Step)
    requires s.detector.Fits() && Kept(s) && Enabled(s, step)
    ensures s.Has(BOOST) ==> Next(asl, s, step).Has(BOOST)
  {
    hide DataHandled, Submit, DebouncersKept;
    match step
    case Handle(clock, timestamp, data, working) => DataHandledEffect(s.detector, timestamp, asl, data, working);
    case Expire(clock, timer) =>
      BoostBeforeTimers(s, clock, timer);
      ExpiredEffect(s, clock, timer);
  }

  function ImuRuns(h: Both<seq<Measured>>): Both<Run> {
    Both(ImuRun(h.primary), ImuRun(h.secondary))
  }

  lemma ImuStep(asl: real -> real, run: seq<Step>, s: System)
    requires run != [] && s.detector.Fits() && !s.Has(BOOST) &&
             s.detector.imu == ImuRuns(Accelerations(run[..|run| - 1]))
    ensures Next(asl, s, run[|run| - 1]).detector.imu == ImuRuns(Accelerations(run))
  {
    hide DataHandled, Submit, ImuRun, Passes, Magnitudes, Squared;
    var h := Accelerations(run[..|run| - 1]);
    match run[|run| - 1]
    case Handle(clock, timestamp, data, working) =>
      DataHandledEffect(s.detector, timestamp, asl, data, working);
      MagnitudesAre(data);
      ImuFed(h.primary, timestamp, Magnitudes(data).primary);
      ImuFed(h.secondary, timestamp, Magnitudes(data).secondary);
    case Expire(clock, timer) =>
  }

  /** Until boost the two detectors have seen all accelerations. */
  lemma {:induction false} ImuUntilBoost(asl: real -> real, run: seq<Step>)
    requires Possible(asl, run) && (run == [] || !After(asl, run[..|run| - 1]).Has(BOOST))
    ensures After(asl, run).detector.imu == ImuRuns(Accelerations(run))
  {
    hide Possible, Kept, Next, ImuRun, Accelerations;
    if run == [] {
      NoAccelerations();
    } else {
      var n := |run| - 1;
      PossiblePrefix(asl, run);
      if n > 0 {
        PossiblePrefix(asl, run[..n]);
        assert run[..n][..n - 1] == run[..n - 1];
        RunKeeps(asl, run[..n - 1]);
        BoostStays(asl, After(asl, run[..n - 1]), run[n - 1]);
      }
      ImuUntilBoost(asl, run[..n]);
      ImuStep(asl, run, After(asl, run[..n]));
    }
  }

  lemma NoAccelerations()
    ensures ImuRuns(Accelerations([])) == Both(IDLE, IDLE)
  {}

  ghost predicate AccelerationSustained(h: Both<seq<Measured>>, working: SensorWorkings) {
    || (Sustained(h.primary, Above(2401.0), 250) && working.primaryAccOk)
    || (Sustained(h.secondary, Above(2401.0), 250) && working.secondaryAccOk)
  }

  /** The step of a run that brings about boost: readings are handled, and with them one
      accelerometer that works has been over the threshold for more than 250 ms. */
  ghost predicate BoostsAt(asl: real -> real, run: seq<Step>, k: nat) {
    && k < |run| && run[k].Handle?
    && !After(asl, run[..k]).Has(BOOST) && After(asl, run[..k + 1]).Has(BOOST)
    && AccelerationSustained(Accelerations(run[..k + 1]), run[k].working)
  }

  /** What a step that handles readings before boost does about it. */
  lemma BoostStepDue(asl: real -> real, run: seq<Step>)
    requires Possible(asl, run) && run != [] && !After(asl, run[..|run| - 1]).Has(BOOST)
    ensures After(asl, run).Has(BOOST) <==>
            run[|run| - 1].Handle? && BoostDue(ImuRuns(Accelerations(run)), run[|run| - 1].working)
  {
    hide Possible, Kept, DataHandled, Submit, ImuRuns, Accelerations, BoostDue;
    var n := |run| - 1;
    PossiblePrefix(asl, run);
    RunKeeps(asl, run[..n]);
    ImuUntilBoost(asl, run);
    TimersAfterBoost(After(asl, run[..n]), run[n]);
    DataHandledEffect(After(asl, run[..n]).detector, run[n].timestamp, asl, run[n].data, run[n].working);
  }

  lemma TimersAfterBoost(s: System, step: Step)
    requires s.detector.Fits() && Kept(s) && Enabled(s, step) && !s.Has(BOOST)
    ensures step.Handle?
  {}

  lemma {:induction false} BoostSustained(asl: real -> real, run: seq<Step>) returns (k: nat)
    requires Possible(asl, run)
    ensures After(asl, run).Has(BOOST) ==> BoostsAt(asl, run, k)
  {
    hide Possible, Kept, Next, ImuRuns, Accelerations, BoostDue, Sustained;
    if !After(asl, run).Has(BOOST) {
      return 0;
    }
    var n := |run| - 1;
    assert run != [];
    PossiblePrefix(asl, run);
    if After(asl, run[..n]).Has(BOOST) {
      k := BoostSustained(asl, run[..n]);
      assert run[..n][..k] == run[..k] && run[..n][..k + 1] == run[..k + 1];
    } else {
      k := n;
      assert run[..n + 1] == run;
      BoostStepDue(asl, run);
      AccelerationsOrdered(asl, run);
      DueIsSustained(Accelerations(run), run[n].working);
    }
  }

  lemma DueIsSustained(h: Both<seq<Measured>>, working: SensorWorkings)
    requires Ordered(h.primary) && Ordered(h.secondary) && BoostDue(ImuRuns(h), working)
    ensures AccelerationSustained(h, working)
  {
    hide HasPassed, Sustained;
    if HasPassed(ImuRun(h.primary), BOOST_TIME) && working.primaryAccOk {
      PassedIsSustained(h.primary, 0, Above(2401.0), 250);
    } else {
      PassedIsSustained(h.secondary, 0, Above(2401.0), 250);
    }
  }

  /** A working accelerometer shows a run that a debouncer can see. */
  ghost predicate AccelerationSeen(h: Both<seq<Measured>>, working: SensorWorkings) {
    || (Seen(h.primary, 0, Above(2401.0), 250) && working.primaryAccOk)
    || (Seen(h.secondary, 0, Above(2401.0), 250) && working.secondaryAccOk)
  }

  lemma BoostDueExactly(h: Both<seq<Measured>>, working: SensorWorkings, now: nat)
    requires Ordered(h.primary) && Ordered(h.secondary) && BothBetween(h, 0, now) && now < WRAP
    ensures BoostDue(ImuRuns(h), working) <==> AccelerationSeen(h, working)
  {
    hide HasPassed, Seen, Ordered;
    PassedIsSeen(h.primary, 0, Above(2401.0), 250);
    PassedIsSeen(h.secondary, 0, Above(2401.0), 250);
  }

  /** Within 2^32 ms of start-up boost is detected exactly then. */
  lemma BoostExactly(asl: real -> real, run: seq<Step>)
    requires Possible(asl, run)
    ensures run != [] && !After(asl, run[..|run| - 1]).Has(BOOST) && After(asl, run).lastTimestamp < WRAP ==>
              (After(asl, run).Has(BOOST) <==>
               run[|run| - 1].Handle? && AccelerationSeen(Accelerations(run), run[|run| - 1].working))
  {
    hide Possible, After, ImuRuns, Accelerations, BoostDue, AccelerationSeen, Ordered, Between;
    if run != [] && !After(asl, run[..|run| - 1]).Has(BOOST) && After(asl, run).lastTimestamp < WRAP {
      BoostStepDue(asl, run);
      AccelerationsOrdered(asl, run);
      if run[|run| - 1].Handle? {
        BoostDueExactly(Accelerations(run), run[|run| - 1].working, After(asl, run).lastTimestamp);
      }
    }
  }

  /** And until one millisecond before that there is no reserved time to consider. */
  lemma EarlyAccelerationSeen(h: Both<seq<Measured>>, working: SensorWorkings, now: nat)
    requires BothBetween(h, 0, now) && now < NOT_PASSED
    ensures AccelerationSeen(h, working) <==> AccelerationSustained(h, working)
  {
    hide Seen, Sustained;
    EarlyTimes(h.primary, now);
    EarlyTimes(h.secondary, now);
    SustainedIsSeen(h.primary, 0, Above(2401.0), 250);
    SustainedIsSeen(h.secondary, 0, Above(2401.0), 250);
  }

  lemma EarlyTimes(h: seq<Measured>, now: nat)
    requires Between(h, 0, now) && now < NOT_PASSED
    ensures forall i | 0 <= i < |h| :: Wrapped(h[i].timestamp, 0) != NOT_PASSED
  {}

  // ----- barometers: neither early nor late

  /** A working barometer shows a run that a debouncer can see. Its reserved time is 249 ms after
      boost, up to multiples of 2^32 ms. */
  ghost predicate WorkingSeen(h: Both<seq<Measured>>, boostTime: nat, band: Band, duration: nat,
                              working: SensorWorkings) {
    || (Seen(h.primary, boostTime + 250, band, duration) && working.primaryBarometerOk)
    || (Seen(h.secondary, boostTime + 250, band, duration) && working.secondaryBarometerOk)
  }

  /** Flights of less than 2^32 ms. */
  predicate ShortFlight(s: System) {
    BOOST in s.occurred ==> s.lastTimestamp - s.occurred[BOOST].timestamp < WRAP
  }

  predicate BothSpan(h: Both<seq<Measured>>) {
    Spans(h.primary) && Spans(h.secondary)
  }

  lemma DueExactly(runs: Both<Run>, h: Both<seq<Measured>>, boostTime: nat, band: Band, duration: nat,
                   working: SensorWorkings)
    requires BothFollow(runs, h, boostTime, band) && BothSpan(h)
    ensures BaromDue(runs, duration, working) <==> WorkingSeen(h, boostTime, band, duration, working)
  {
    hide Seen, HasPassed, Ordered, Spans;
    PassedIsSeen(h.primary, boostTime + 250, band, duration);
    PassedIsSeen(h.secondary, boostTime + 250, band, duration);
  }

  /** Readings are handled while noseover (or landing) is being looked for. */
  predicate Watching(asl: real -> real, run: seq<Step>, event: nat)
    requires event < NUM_EVENTS
  {
    run != [] && run[|run| - 1].Handle? && !After(asl, run[..|run| - 1]).Has(event) && After(asl, run).Has(BOOST)
  }

  lemma LastStepEffect(asl: real -> real, run: seq<Step>)
    requires run != [] && run[|run| - 1].Handle?
    ensures var last := run[|run| - 1];
            var d, e := After(asl, run[..|run| - 1]).detector, After(asl, run).detector;
            NoseoverSummary(d, e, last.timestamp, last.working) && GroundSummary(d, e, last.timestamp, last.working)
  {
    hide DataHandled, NoseoverSummary, GroundSummary;
    var last := run[|run| - 1];
    DataHandledEffect(After(asl, run[..|run| - 1]).detector, last.timestamp, asl, last.data, last.working);
  }

  /** Noseover is detected exactly if the lockout is over and a working barometer has seen less than
      10 ft/s of climb for more than 250 ms. */
  lemma NoseoverExactly(asl: real -> real, run: seq<Step>)
    requires Possible(asl, run)
    ensures var s := After(asl, run);
            Watching(asl, run, NOSEOVER) && ShortFlight(s) ==>
              (s.Has(NOSEOVER) <==> After(asl, run[..|run| - 1]).Has(NOSEOVER_LOCKOUT) &&
                                    WorkingSeen(s.velocities, s.detector.boostTime, Below(10.0), 250,
                                                run[|run| - 1].working))
  {
    hide Possible, After, Kept, NoseoverSummary, GroundSummary, BothSpan, ShortFlight, WorkingSeen, State.Fits;
    var s := After(asl, run);
    if Watching(asl, run, NOSEOVER) && ShortFlight(s) {
      var last, d := run[|run| - 1], After(asl, run[..|run| - 1]).detector;
      RunKeeps(asl, run);
      LastStepEffect(asl, run);
      NoseoverDecided(d, s, last.timestamp, last.working);
    }
  }

  lemma RecordsSpan(s: System)
    requires s.detector.Fits() && Kept(s) && ShortFlight(s) && s.Has(BOOST)
    ensures BothSpan(s.velocities) && (s.Has(NOSEOVER) ==> BothSpan(s.lateVelocities))
  {
    hide BothFollow, TimersKept, EitherPassed, BaromReported, State.Fits;
  }

  lemma NoseoverDecided(d: Detector, s: System, timestamp: nat, working: SensorWorkings)
    requires d.Fits() && s.detector.Fits() && Kept(s) && NoseoverSummary(d, s.detector, timestamp, working)
    requires !d.Has(NOSEOVER) && s.Has(BOOST) && ShortFlight(s)
    ensures s.Has(NOSEOVER) <==>
            d.Has(NOSEOVER_LOCKOUT) &&
            WorkingSeen(s.velocities, s.detector.boostTime, Below(10.0), 250, working)
  {
    hide BothFollow, BothSpan, ShortFlight, WorkingSeen, BaromDue;
    RecordsSpan(s);
    DueExactly(s.detector.noseover, s.velocities, s.detector.boostTime, Below(10.0), 250, working);
  }

  /** A landing is detected exactly if a working barometer has seen less than 10 ft/s, up or down,
      for more than 10 s since noseover. */
  lemma LandingExactly(asl: real -> real, run: seq<Step>)
    requires Possible(asl, run)
    ensures var s := After(asl, run);
            Watching(asl, run, GROUND_HIT) && s.Has(NOSEOVER) && ShortFlight(s) ==>
              (s.Has(GROUND_HIT) <==>
               WorkingSeen(s.lateVelocities, s.detector.boostTime, Within(10.0), 10000, run[|run| - 1].working))
  {
    hide Possible, After, Kept, NoseoverSummary, GroundSummary, BothSpan, ShortFlight, WorkingSeen, State.Fits;
    var s := After(asl, run);
    if Watching(asl, run, GROUND_HIT) && s.Has(NOSEOVER) && ShortFlight(s) {
      var last, d := run[|run| - 1], After(asl, run[..|run| - 1]).detector;
      RunKeeps(asl, run);
      LastStepEffect(asl, run);
      LandingDecided(d, s, last.timestamp, last.working);
    }
  }

  lemma LandingDecided(d: Detector, s: System, timestamp: nat, working: SensorWorkings)
    requires d.Fits() && s.detector.Fits() && Kept(s) && GroundSummary(d, s.detector, timestamp, working)
    requires !d.Has(GROUND_HIT) && s.Has(BOOST) && s.Has(NOSEOVER) && ShortFlight(s)
    ensures s.Has(GROUND_HIT) <==> WorkingSeen(s.lateVelocities, s.detector.boostTime, Within(10.0), 10000, working)
  {
    hide BothFollow, BothSpan, ShortFlight, WorkingSeen, BaromDue, BaromReported;
    RecordsSpan(s);
    DueExactly(s.detector.ground, s.lateVelocities, s.detector.boostTime, Within(10.0), 10000, working);
  }

  // ----- altitudes and slopes

  /** The points given to both velocity finders in a run. */
  function Altitudes(asl: real -> real, run: seq<Step>): Both<seq<Sample>> {
    if run == [] then Both([], [])
    else
      var h := Altitudes(asl, run[..|run| - 1]);
      match run[|run| - 1]
      case Handle(_, timestamp, data, _) =>
        var seconds := timestamp as real / 1000.0;
        Both(h.primary + [Point(seconds, asl(data.primaryPressure))],
             h.secondary + [Point(seconds, asl(data.secondaryPressure))])
      case Expire(_, _) => h
  }

  lemma SlidAppend(window: seq<Sample>, values: seq<Sample>, v: Sample)
    requires window != []
    ensures Slid(window, values + [v]) == Slide(Slid(window, values), v)
  {
    assert (values + [v])[..|values|] == values;
  }

  lemma {:induction false} WindowsSlide(asl: real -> real, run: seq<Step>)
    ensures var h := Altitudes(asl, run);
            After(asl, run).detector.windows ==
            Both(Slid(InitialWindow(), h.primary), Slid(InitialWindow(), h.secondary))
  {
    hide DataHandled, Submit, Slid, InitialWindow;
    if run == [] {
      NothingSlid();
    } else {
      var n := |run| - 1;
      WindowsSlide(asl, run[..n]);
      var h := Altitudes(asl, run[..n]);
      match run[n]
      case Handle(clock, timestamp, data, working) =>
        DataHandledEffect(After(asl, run[..n]).detector, timestamp, asl, data, working);
        SlidAppend(InitialWindow(), h.primary, Point(timestamp as real / 1000.0, asl(data.primaryPressure)));
        SlidAppend(InitialWindow(), h.secondary, Point(timestamp as real / 1000.0, asl(data.secondaryPressure)));
      case Expire(clock, timer) =>
    }
  }

  lemma NothingSlid()
    ensures Slid(InitialWindow(), []) == InitialWindow()
  {}

  lemma {:induction false} AltitudesArePoints(asl: real -> real, run: seq<Step>)
    ensures AllPoints(Altitudes(asl, run).primary) && AllPoints(Altitudes(asl, run).secondary)
  {
    if run != [] {
      AltitudesArePoints(asl, run[..|run| - 1]);
    }
  }

  /** The last ten points, the zero points of the start-up included. */
  function Recent(points: seq<Sample>): (w: seq<Sample>)
    ensures |w| == 10
  {
    (seq(10, i => Point(0.0, 0.0)) + points)[|points|..]
  }

  lemma RecentSlid(points: seq<Sample>)
    ensures Slid(InitialWindow(), points) == Recent(points)
  {
    WindowIsRecentHistory(InitialWindow(), points);
    assert InitialWindow() == seq(10, i => Point(0.0, 0.0));
  }

  /** After every run the velocity of a barometer is the slope of the one line with the least sum
      of squared residuals over its last ten altitudes, and there is none exactly if these share
      one time. */
  lemma VelocityIsLeastSquares(asl: real -> real, run: seq<Step>, m: real, m': real, b': real)
    ensures var h, w := Altitudes(asl, run), After(asl, run).detector.windows;
            && w == Both(Recent(h.primary), Recent(h.secondary))
            && FitsBest(w.primary, m, m', b') && FitsBest(w.secondary, m, m', b')
  {
    WindowsSlide(asl, run);
    AltitudesArePoints(asl, run);
    var h := Altitudes(asl, run);
    hide After, AllPoints, Altitudes, Slid, FitsBest, InitialWindow;
    RecentArePoints(h.primary);
    RecentArePoints(h.secondary);
    RecentSlid(h.primary);
    RecentSlid(h.secondary);
    SlopeFitsBest(Recent(h.primary), m, m', b');
    SlopeFitsBest(Recent(h.secondary), m, m', b');
  }

  lemma RecentArePoints(points: seq<Sample>)
    requires AllPoints(points)
    ensures AllPoints(Recent(points))
  {
  }

  ghost predicate FitsBest(w: seq<Sample>, m: real, m': real, b': real)
    requires w != []
  {
    && (Slope(w).None? <==> SameX(w))
    && (Slope(w) == Some(m) ==>
          var b := Intercept(|w|, Total(w), m);
          && Residual(w, m, b) <= Residual(w, m', b')
          && (Residual(w, m, b) == Residual(w, m', b') <==> m' == m && b' == b))
  }

  lemma SlopeFitsBest(w: seq<Sample>, m: real, m': real, b': real)
    requires w != [] && AllPoints(w)
    ensures FitsBest(w, m, m', b')
  {
    hide Residual, Total, Intercept, Group.Sum, FindSlope;
    TotalIsSum(w);
    SlopeExists(w);
    LeastSquares(w, m, m', b');
  }

  /** `m` is the slope of a line that no other line fits the window better than. */
  ghost predicate BestSlope(w: seq<Sample>, m: real) {
    exists b :: NoBetterLine(w, m, b)
  }

  ghost predicate NoBetterLine(w: seq<Sample>, m: real, b: real) {
    forall m', b' :: Residual(w, m, b) <= Residual(w, m', b')
  }

  lemma SlopeIsBest(w: seq<Sample>, m: real)
    requires w != [] && AllPoints(w) && Slope(w) == Some(m)
    ensures BestSlope(w, m)
  {
    var b := Intercept(|w|, Total(w), m);
    forall m', b'
      ensures Residual(w, m, b) <= Residual(w, m', b')
    {
      SlopeFitsBest(w, m, m', b');
    }
    assert NoBetterLine(w, m, b);
  }

  /** A measured velocity is that of some readings of the run: at their time stamp the slope that fits the
      last ten altitudes of the primary barometer, or of the secondary one, best. */
  ghost predicate PrimaryVelocity(asl: real -> real, run: seq<Step>, v: Measured) {
    exists k ::
      && 0 < k <= |run| && run[k - 1].Handle? && run[k - 1].timestamp == v.timestamp
      && BestSlope(Recent(Altitudes(asl, run[..k]).primary), v.value)
  }

  ghost predicate SecondaryVelocity(asl: real -> real, run: seq<Step>, v: Measured) {
    exists k ::
      && 0 < k <= |run| && run[k - 1].Handle? && run[k - 1].timestamp == v.timestamp
      && BestSlope(Recent(Altitudes(asl, run[..k]).secondary), v.value)
  }

  ghost predicate VelocitiesOf(asl: real -> real, run: seq<Step>, h: Both<seq<Measured>>) {
    && (forall v | v in h.primary :: PrimaryVelocity(asl, run, v))
    && (forall v | v in h.secondary :: SecondaryVelocity(asl, run, v))
  }

  lemma VelocitiesStay(asl: real -> real, run: seq<Step>, h: Both<seq<Measured>>)
    requires run != [] && VelocitiesOf(asl, run[..|run| - 1], h)
    ensures VelocitiesOf(asl, run, h)
  {
    hide BestSlope, Altitudes, Recent;
    var part := run[..|run| - 1];
    forall v | v in h.primary
      ensures PrimaryVelocity(asl, run, v)
    {
      var k :| 0 < k <= |part| && part[k - 1].Handle? && part[k - 1].timestamp == v.timestamp &&
        BestSlope(Recent(Altitudes(asl, part[..k]).primary), v.value);
      assert part[..k] == run[..k];
    }
    forall v | v in h.secondary
      ensures SecondaryVelocity(asl, run, v)
    {
      var k :| 0 < k <= |part| && part[k - 1].Handle? && part[k - 1].timestamp == v.timestamp &&
        BestSlope(Recent(Altitudes(asl, part[..k]).secondary), v.value);
      assert part[..k] == run[..k];
    }
  }

  lemma WindowsAreRecent(asl: real -> real, run: seq<Step>)
    ensures var h := Altitudes(asl, run);
            && After(asl, run).detector.windows == Both(Recent(h.primary), Recent(h.secondary))
            && AllPoints(Recent(h.primary)) && AllPoints(Recent(h.secondary))
  {
    var h := Altitudes(asl, run);
    WindowsSlide(asl, run);
    AltitudesArePoints(asl, run);
    hide After, Altitudes, Slid, InitialWindow, AllPoints;
    RecentSlid(h.primary);
    RecentSlid(h.secondary);
    RecentArePoints(h.primary);
    RecentArePoints(h.secondary);
  }

  lemma PrimaryShown(asl: real -> real, run: seq<Step>, t: nat, m: real)
    requires run != [] && run[|run| - 1].Handle? && run[|run| - 1].timestamp == t
    requires Slope(Recent(Altitudes(asl, run).primary)) == Some(m)
    ensures PrimaryVelocity(asl, run, Measured(t, m))
  {
    WindowsAreRecent(asl, run);
    hide After, Altitudes, Recent, BestSlope, Slope, AllPoints;
    SlopeIsBest(Recent(Altitudes(asl, run).primary), m);
    assert run[..|run|] == run;
  }

  lemma SecondaryShown(asl: real -> real, run: seq<Step>, t: nat, m: real)
    requires run != [] && run[|run| - 1].Handle? && run[|run| - 1].timestamp == t
    requires Slope(Recent(Altitudes(asl, run).secondary)) == Some(m)
    ensures SecondaryVelocity(asl, run, Measured(t, m))
  {
    WindowsAreRecent(asl, run);
    hide After, Altitudes, Recent, BestSlope, Slope, AllPoints;
    SlopeIsBest(Recent(Altitudes(asl, run).secondary), m);
    assert run[..|run|] == run;
  }

  /** The slopes that the last readings of a run give. */
  lemma NewVelocities(asl: real -> real, run: seq<Step>, h: Both<seq<Measured>>)
    requires run != [] && run[|run| - 1].Handle? && VelocitiesOf(asl, run, h)
    ensures VelocitiesOf(asl, run, RecordedBoth(h, run[|run| - 1].timestamp, Slopes(After(asl, run).detector.windows)))
  {
    hide After, Altitudes, Recent, Slope, PrimaryVelocity, SecondaryVelocity, State.Fits, AllPoints;
    WindowsAreRecent(asl, run);
    var points, t := Altitudes(asl, run), run[|run| - 1].timestamp;
    var p, q := Slope(Recent(points.primary)), Slope(Recent(points.secondary));
    if p.Some? {
      PrimaryShown(asl, run, t, p.value);
    }
    if q.Some? {
      SecondaryShown(asl, run, t, q.value);
    }
  }

  /** All velocities on record in a run are such slopes, those watched for noseover and those watched for
      the landing. */
  lemma {:induction false} VelocitiesMeasured(asl: real -> real, run: seq<Step>)
    ensures var s := After(asl, run); VelocitiesOf(asl, run, s.velocities) && VelocitiesOf(asl, run, s.lateVelocities)
  {
    hide VelocitiesOf, DataHandled, Started, Occurred, RecordedBoth, Slopes, State.Fits;
    if run == [] {
      NoVelocities(asl);
    } else {
      var s := After(asl, run[..|run| - 1]);
      VelocitiesMeasured(asl, run[..|run| - 1]);
      VelocitiesStay(asl, run, s.velocities);
      VelocitiesStay(asl, run, s.lateVelocities);
      if run[|run| - 1].Handle? {
        NewVelocities(asl, run, s.velocities);
        NewVelocities(asl, run, s.lateVelocities);
      }
    }
  }

  lemma NoVelocities(asl: real -> real)
    ensures VelocitiesOf(asl, [], Both([], []))
  {}
}
