/** What is proved about submissions to the phase controller holds in flight: the controller only ever
    changes by SubmitEvent. */
module FlightControllers {
  import opened PhaseControllers
  import opened Flight
  import opened DetectionHandlers
  import opened FlightRuns

  /** A state that the controller gets into by submissions. */
  ghost predicate BySubmissions(s: State) {
    exists run :: InRange(FLIGHT, run) && Outcome(FLIGHT, run) == s
  }

  lemma InitiallyBySubmissions()
    ensures BySubmissions(InitialState(FLIGHT))
  {
    assert InRange(FLIGHT, []) && Outcome(FLIGHT, []) == InitialState(FLIGHT);
  }

  lemma SubmitIfBySubmissions(s: State, really: bool, source: nat, event: nat)
    requires s.Fits(FLIGHT) && BySubmissions(s) && source < NUM_SOURCES && event < NUM_EVENTS
    ensures BySubmissions(SubmitIf(s, really, source, event))
  {
    hide Submitted, State.Fits;
    var run :| InRange(FLIGHT, run) && Outcome(FLIGHT, run) == s;
    var more := run + [Submission(source, event)];
    assert more[..|run|] == run;
    assert InRange(FLIGHT, more) && Outcome(FLIGHT, more) == Submit(s, source, event);
  }

  lemma BoostBySubmissions(d: Detector, timestamp: nat, data: SensorData, working: SensorWorkings)
    requires d.Fits() && BySubmissions(d.controller)
    ensures BySubmissions(BoostStage(d, timestamp, data, working).controller)
  {
    hide SubmitIf, BySubmissions;
    forall s: State, really | s.Fits(FLIGHT) && BySubmissions(s)
      ensures BySubmissions(SubmitIf(s, really, HIGH_G_IMU, BOOST)) &&
              BySubmissions(SubmitIf(s, really, LOW_G_IMU, BOOST))
    {
      SubmitIfBySubmissions(s, really, HIGH_G_IMU, BOOST);
      SubmitIfBySubmissions(s, really, LOW_G_IMU, BOOST);
    }
  }

  lemma BaromBySubmissions(event: nat)
    requires event < NUM_EVENTS
    ensures forall s: State, really | s.Fits(FLIGHT) && BySubmissions(s) ::
              && BySubmissions(SubmitIf(s, really, BAROM_MS5611, event))
              && BySubmissions(SubmitIf(s, really, BAROM_BMP, event))
  {
    forall s: State, really | s.Fits(FLIGHT) && BySubmissions(s)
      ensures BySubmissions(SubmitIf(s, really, BAROM_MS5611, event)) &&
              BySubmissions(SubmitIf(s, really, BAROM_BMP, event))
    {
      SubmitIfBySubmissions(s, really, BAROM_MS5611, event);
      SubmitIfBySubmissions(s, really, BAROM_BMP, event);
    }
  }

  lemma DataBySubmissions(d: Detector, timestamp: nat, asl: real -> real, data: SensorData, working: SensorWorkings)
    requires d.Fits() && BySubmissions(d.controller)
    ensures BySubmissions(DataHandled(d, timestamp, asl, data, working).controller)
  {
    hide BySubmissions, SubmitIf, BoostStage;
    BoostBySubmissions(Watched(d, timestamp, asl, data), timestamp, data, working);
    BaromBySubmissions(NOSEOVER);
    BaromBySubmissions(GROUND_HIT);
  }

  /** After every run the controller is in a state that submissions lead to. */
  lemma {:induction false} ControllerBySubmissions(asl: real -> real, run: seq<Step>)
    ensures BySubmissions(After(asl, run).detector.controller)
  {
    hide BySubmissions, DataHandled, Started, Occurred;
    if run == [] {
      InitiallyBySubmissions();
    } else {
      var s := After(asl, run[..|run| - 1]);
      ControllerBySubmissions(asl, run[..|run| - 1]);
      match run[|run| - 1]
      case Handle(clock, timestamp, data, working) => DataBySubmissions(s.detector, timestamp, asl, data, working);
      case Expire(clock, timer) =>
        SubmitIfBySubmissions(s.detector.controller, true, TIMERS[timer].source, TIMERS[timer].event);
    }
  }

  /** So in every run an event has occurred exactly if its decision function accepts the reports there
      are, every event is posted once, and every timer is started at most once. */
  lemma FlightEventsAreDecisions(asl: real -> real, run: seq<Step>, event: nat)
    requires event < NUM_EVENTS
    ensures var s := After(asl, run);
            && (s.Has(event) <==> FLIGHT.deciders[event](s.detector.controller.sources[event]))
            && PostedOnce(FLIGHT, s.detector.controller)
  {
    ControllerBySubmissions(asl, run);
    var s := After(asl, run).detector.controller;
    var submissions :| InRange(FLIGHT, submissions) && Outcome(FLIGHT, submissions) == s;
    hide After, Outcome, PostedOnce;
    EventsAreDecisions(submissions, event);
    PostedAndStartedOnce(FLIGHT, submissions);
  }
}
