/** flight.hpp: the events, sources, timers and decision functions of the sensor module, and what
    they make of the phase controller. Times are in milliseconds. */
module Flight {
  import opened PhaseControllers

  // ----- thresholds

  const BOOST_ACCELERATION := 5.0 * 9.8 // m/s^2
  const BOOST_TIME := 250
  const NOSEOVER_VELOCITY := 10.0 // ft/s
  const NOSEOVER_TIME := 250
  const GROUND_VELOCITY := 10.0 // ft/s
  const GROUND_TIME := 10000

  // ----- events and sources

  const BOOST: nat := 0
  const NOSEOVER_LOCKOUT: nat := 1
  const NOSEOVER: nat := 2
  const GROUND_HIT: nat := 3
  const NUM_EVENTS: nat := 4

  const LOW_G_IMU: nat := 0
  const HIGH_G_IMU: nat := 1
  const BAROM_BMP: nat := 2
  const BAROM_MS5611: nat := 3
  const NOSEOVER_LOCKOUT_TIMER: nat := 4
  const FULL_FLIGHT_TIMER: nat := 5
  const NUM_SOURCES: nat := 6

  // ----- timers

  const LOCKOUT := 0
  const FULL_FLIGHT := 1
  const SPARE := 2

  const LOCKOUT_TIME := 15000
  const FULL_FLIGHT_TIME := 350000

  /** The table has room for three timers and lists two; the third is zero-filled. */
  const TIMERS: seq<TimerEvent> := [
    TimerEvent(BOOST, NOSEOVER_LOCKOUT, LOCKOUT_TIME, NOSEOVER_LOCKOUT_TIMER),
    TimerEvent(BOOST, GROUND_HIT, FULL_FLIGHT_TIME, FULL_FLIGHT_TIMER),
    TimerEvent(BOOST, BOOST, 0, LOW_G_IMU)
  ]

  // ----- decisions

  predicate AnyOf(states: seq<bool>, sources: seq<nat>) {
    exists i | 0 <= i < |sources| :: sources[i] < |states| && states[sources[i]]
  }

  /** The sources one of which is enough for an event. */
  function DecidingSources(event: nat): seq<nat> {
    if event == BOOST then [LOW_G_IMU, HIGH_G_IMU, BAROM_BMP, BAROM_MS5611]
    else if event == NOSEOVER_LOCKOUT then [NOSEOVER_LOCKOUT_TIMER]
    else if event == NOSEOVER then [BAROM_BMP, BAROM_MS5611]
    else [BAROM_BMP, BAROM_MS5611, FULL_FLIGHT_TIMER]
  }

  function Decider(event: nat): seq<bool> -> bool {
    states => AnyOf(states, DecidingSources(event))
  }

  const FLIGHT: Setup := Setup(NUM_EVENTS, NUM_SOURCES,
    [Decider(BOOST), Decider(NOSEOVER_LOCKOUT), Decider(NOSEOVER), Decider(GROUND_HIT)], TIMERS)

  /** What the decisions say about the six sources LowGImu, HighGImu, BaromBMP, BaromMS5611, the lockout
      timer and the full-flight timer, in this order. */
  lemma DecidersExactly(s: seq<bool>)
    requires |s| == 6
    ensures |FLIGHT.deciders| == 4
    ensures FLIGHT.deciders[0](s) <==> s[0] || s[1] || s[2] || s[3]
    ensures FLIGHT.deciders[1](s) <==> s[4]
    ensures FLIGHT.deciders[2](s) <==> s[2] || s[3]
    ensures FLIGHT.deciders[3](s) <==> s[2] || s[3] || s[5]
  {
    ChosenFrom(s, 0);
    ChosenFrom(s, 1);
    ChosenFrom(s, 2);
    ChosenFrom(s, 3);
  }

  lemma ChosenFrom(s: seq<bool>, event: nat)
    requires |s| == 6 && event < 4
    ensures Decider(event)(s) <==> exists k | 0 <= k < 6 :: k in DecidingSources(event) && s[k]
  {
    if AnyOf(s, DecidingSources(event)) {
      var i :| 0 <= i < |DecidingSources(event)| && DecidingSources(event)[i] < |s| && s[DecidingSources(event)[i]];
      assert DecidingSources(event)[i] in DecidingSources(event);
    }
    if k :| 0 <= k < 6 && k in DecidingSources(event) && s[k] {
      var i :| 0 <= i < |DecidingSources(event)| && DecidingSources(event)[i] == k;
      assert AnyOf(s, DecidingSources(event));
    }
  }

  /** All four decisions are monotone, so what is proved about monotone set-ups holds here. */
  lemma DecidersMonotone()
    ensures FLIGHT.Valid() && MonotoneSetup(FLIGHT)
  {
    forall e | 0 <= e < NUM_EVENTS
      ensures Monotone(FLIGHT.deciders[e])
    {
      assert FLIGHT.deciders[e] == Decider(e);
      forall s, t: seq<bool> | |s| == |t| && (forall i | 0 <= i < |s| :: s[i] ==> t[i]) && Decider(e)(s)
        ensures Decider(e)(t)
      {
        assert AnyOf(s, DecidingSources(e));
      }
    }
  }

  /** Every decision is reached by one report of one of its sources. */
  lemma DecisionByOneSource(event: nat, source: nat, states: seq<bool>)
    requires event < NUM_EVENTS && |states| == NUM_SOURCES && source in DecidingSources(event) && states[source]
    ensures FLIGHT.deciders[event](states)
  {
    assert FLIGHT.deciders[event] == Decider(event);
    var i :| 0 <= i < |DecidingSources(event)| && DecidingSources(event)[i] == source;
    assert AnyOf(states, DecidingSources(event));
  }

  function Submit(s: State, source: nat, event: nat): (t: State)
    requires s.Fits(FLIGHT) && source < NUM_SOURCES && event < NUM_EVENTS
    ensures t.Fits(FLIGHT)
  {
    Submitted(FLIGHT, s, source, event)
  }

  /** A source that decides an event is believed at once; everything else stays as it was. */
  lemma SubmitDecides(s: State, source: nat, event: nat)
    requires s.Fits(FLIGHT) && event < NUM_EVENTS && source in DecidingSources(event)
    ensures source < NUM_SOURCES
    ensures var t := Submit(s, source, event);
            && t.sources == s.sources[event := s.sources[event][source := true]]
            && t.events == s.events[event := true]
            && (event != BOOST || s.events[BOOST] ==> t.started == s.started)
            && (event == BOOST && !s.events[BOOST] ==> t.started == s.started + [LOCKOUT, FULL_FLIGHT, SPARE])
  {
    var reports := s.sources[event][source := true];
    DecisionByOneSource(event, source, reports);
    var t := Submit(s, source, event);
    assert s.events[event] ==> s.events == s.events[event := true];
    assert TimersOf(TIMERS, event, 3) == if event == BOOST then [LOCKOUT, FULL_FLIGHT, SPARE] else [] by {
      assert TimersOf(TIMERS, event, 0) == [];
      assert TimersOf(TIMERS, event, 1) == if event == BOOST then [LOCKOUT] else [];
      assert TimersOf(TIMERS, event, 2) == if event == BOOST then [LOCKOUT, FULL_FLIGHT] else [];
    }
  }

  /** The zero-filled timer changes no event and starts no timer: it is started by the very event
      it reports. */
  lemma SpareTimerHarmless(s: State)
    requires s.Fits(FLIGHT) && s.events[TIMERS[SPARE].start]
    ensures var t := Submit(s, TIMERS[SPARE].source, TIMERS[SPARE].event);
            t.events == s.events && t.posted == s.posted && t.started == s.started
  {
  }

  /** In every state the controller can reach, an event has occurred exactly if its decision
      function accepts the reports there are. */
  lemma EventsAreDecisions(run: seq<Submission>, event: nat)
    requires InRange(FLIGHT, run) && event < NUM_EVENTS
    ensures FLIGHT.Valid()
    ensures Outcome(FLIGHT, run).events[event] <==> FLIGHT.deciders[event](Outcome(FLIGHT, run).sources[event])
  {
    DecidersMonotone();
    EventsFollowDeciders(FLIGHT, run, event);
    var states := Outcome(FLIGHT, run).sources[event];
    if FLIGHT.deciders[event](states) {
      assert FLIGHT.deciders[event] == Decider(event);
      var i :| 0 <= i < |DecidingSources(event)| && DecidingSources(event)[i] < |states| &&
          states[DecidingSources(event)[i]];
      ReportsAreSubmissions(FLIGHT, run, DecidingSources(event)[i], event);
      assert Reported(run, event);
    }
  }

  /** How a state changes while sources that decide `event` report it. */
  ghost predicate Grown(s: State, t: State, event: nat)
    requires s.Fits(FLIGHT) && t.Fits(FLIGHT) && event < NUM_EVENTS
  {
    && t.events == s.events[event := t.events[event]]
    && t.sources == s.sources[event := t.sources[event]]
    && (s.events[event] ==> t.events[event])
    && t.started ==
       s.started + if event == BOOST && t.events[BOOST] && !s.events[BOOST] then [LOCKOUT, FULL_FLIGHT, SPARE] else []
  }

  /** A source's report, made only if it has something to report. */
  function SubmitIf(s: State, really: bool, source: nat, event: nat): (t: State)
    requires s.Fits(FLIGHT) && source < NUM_SOURCES && event < NUM_EVENTS
    ensures t.Fits(FLIGHT)
  {
    if really then Submit(s, source, event) else s
  }

  lemma SubmitIfGrows(s: State, really: bool, source: nat, event: nat)
    requires s.Fits(FLIGHT) && source < NUM_SOURCES && event < NUM_EVENTS && source in DecidingSources(event)
    ensures var t := SubmitIf(s, really, source, event);
            && Grown(s, t, event) && t.events[event] == (s.events[event] || really)
            && t.sources[event] == s.sources[event][source := s.sources[event][source] || really]
  {
    SubmitDecides(s, source, event);
  }

  /** Two sources in a row. */
  lemma TwoReports(s: State, first: bool, source: nat, second: bool, source': nat, event: nat)
    requires s.Fits(FLIGHT) && source < NUM_SOURCES && source' < NUM_SOURCES && source != source' && event < NUM_EVENTS
    requires source in DecidingSources(event) && source' in DecidingSources(event)
    ensures var t := SubmitIf(SubmitIf(s, first, source, event), second, source', event);
            && Grown(s, t, event) && t.events[event] == (s.events[event] || first || second)
            && t.sources[event][source] == (s.sources[event][source] || first)
            && t.sources[event][source'] == (s.sources[event][source'] || second)
  {
    hide SubmitIf;
    SubmitIfGrows(s, first, source, event);
    SubmitIfGrows(SubmitIf(s, first, source, event), second, source', event);
  }
}
