/** c_phase_controller.h: several sources report events, a decision function for each event
    says when the reports are enough, and events that have been decided start timers. Each call
    of SubmitEvent is one step: the original does not protect it against preemption. */
module PhaseControllers {

  /** What a timer does: it is started by one event and reports another. */
  datatype TimerEvent = TimerEvent(start: nat, event: nat, time: nat, source: nat)

  datatype Setup = Setup(numEvents: nat, numSources: nat, deciders: seq<seq<bool> -> bool>, timers: seq<TimerEvent>) {
    ghost predicate Valid() {
      |deciders| == numEvents
    }
  }

  /** `sources` and `events` are the two state arrays; `posted` and `started` list the calls of
      k_event_post and k_timer_start so far. */
  datatype State = State(sources: seq<seq<bool>>, events: seq<bool>, posted: seq<nat>, started: seq<nat>) {
    ghost predicate Fits(setup: Setup) {
      && |sources| == |events| == setup.numEvents
      && forall e | 0 <= e < |sources| :: |sources[e]| == setup.numSources
    }
  }

  function InitialState(setup: Setup): (s: State)
    ensures s.Fits(setup)
  {
    State(seq(setup.numEvents, e => seq(setup.numSources, k => false)), seq(setup.numEvents, e => false), [], [])
  }

  /** Indices of the timers among the first `n` that an event starts, in order. */
  function TimersOf(timers: seq<TimerEvent>, event: nat, n: nat): seq<nat>
    requires n <= |timers|
  {
    if n == 0 then []
    else TimersOf(timers, event, n - 1) + (if timers[n - 1].start == event then [n - 1] else [])
  }

  /** SubmitEvent on values. */
  function Submitted(setup: Setup, s: State, source: nat, event: nat): (t: State)
    requires setup.Valid() && s.Fits(setup) && source < setup.numSources && event < setup.numEvents
    ensures t.Fits(setup)
  {
    var reports := s.sources[event][source := true];
    var u := s.(sources := s.sources[event := reports]);
    if setup.deciders[event](reports) && !s.events[event] then
      u.(events := s.events[event := true], posted := s.posted + [event],
         started := s.started + TimersOf(setup.timers, event, |setup.timers|))
    else u
  }

  class PhaseController {
    const setup: Setup
    var sourceStates: seq<seq<bool>>
    var eventStates: seq<bool>
    var posted: seq<nat>
    var started: seq<nat>

    ghost function Value(): State
      reads this
    {
      State(sourceStates, eventStates, posted, started)
    }

    ghost predicate Valid()
      reads this
    {
      setup.Valid() && Value().Fits(setup)
    }

    constructor (setup: Setup)
      requires setup.Valid()
      ensures Valid() && this.setup == setup && Value() == InitialState(setup)
    {
      this.setup := setup;
      sourceStates := seq(setup.numEvents, e => seq(setup.numSources, k => false));
      eventStates := seq(setup.numEvents, e => false);
      posted, started := [], [];
    }

    method SubmitEvent(source: nat, event: nat)
      requires Valid() && source < setup.numSources && event < setup.numEvents
      modifies this
      ensures Valid() && Value() == Submitted(setup, old(Value()), source, event)
    {
      sourceStates := sourceStates[event := sourceStates[event][source := true]];
      if setup.deciders[event](sourceStates[event]) {
        var lastState := eventStates[event];
        if !lastState {
          eventStates := eventStates[event := true];
          posted := posted + [event];
          for i := 0 to |setup.timers|
            invariant started == old(started) + TimersOf(setup.timers, event, i)
            invariant sourceStates == old(sourceStates)[event := old(sourceStates)[event][source := true]]
            invariant eventStates == old(eventStates)[event := true] && posted == old(posted) + [event]
          {
            if setup.timers[i].start == event {
              started := started + [i];
            }
          }
        }
      }
    }

    method HasEventOccured(event: nat) returns (b: bool)
      requires Valid() && event < setup.numEvents
      ensures b == eventStates[event]
    {
      b := eventStates[event];
    }
  }

  // ----- whole runs of submissions

  datatype Submission = Submission(source: nat, event: nat)

  predicate InRange(setup: Setup, run: seq<Submission>) {
    forall i | 0 <= i < |run| :: run[i].source < setup.numSources && run[i].event < setup.numEvents
  }

  function Outcome(setup: Setup, run: seq<Submission>): (s: State)
    requires setup.Valid() && InRange(setup, run)
    ensures s.Fits(setup)
  {
    if run == [] then InitialState(setup)
    else var r := run[|run| - 1]; Submitted(setup, Outcome(setup, run[..|run| - 1]), r.source, r.event)
  }

  /** Reports only ever add up: a decision once reached is not withdrawn. */
  ghost predicate Monotone(decider: seq<bool> -> bool) {
    forall s, t: seq<bool> | |s| == |t| && (forall i | 0 <= i < |s| :: s[i] ==> t[i]) ::
      decider(s) ==> decider(t)
  }

  ghost predicate MonotoneSetup(setup: Setup) {
    forall e | 0 <= e < |setup.deciders| :: Monotone(setup.deciders[e])
  }

  /** A source has reported an event exactly if it was submitted. */
  lemma {:induction false} ReportsAreSubmissions(setup: Setup, run: seq<Submission>, source: nat, event: nat)
    requires setup.Valid() && InRange(setup, run) && source < setup.numSources && event < setup.numEvents
    ensures Outcome(setup, run).sources[event][source] <==> Submission(source, event) in run
  {
    if run != [] {
      var n := |run| - 1;
      ReportsAreSubmissions(setup, run[..n], source, event);
      assert run == run[..n] + [run[n]];
    }
  }

  /** Some source has reported this event. */
  ghost predicate Reported(run: seq<Submission>, event: nat) {
    exists r :: r in run && r.event == event
  }

  lemma ReportedAppend(run: seq<Submission>, r: Submission, event: nat)
    ensures Reported(run + [r], event) <==> Reported(run, event) || r.event == event
  {
    if r.event == event {
      assert r in run + [r];
    } else if Reported(run, event) {
      var q :| q in run && q.event == event;
      assert q in run + [r];
    }
  }

  /** Latching is invisible: an event has occurred exactly if it was reported and its decision
      function accepts the reports there are now. */
  lemma {:induction false} EventsFollowDeciders(setup: Setup, run: seq<Submission>, event: nat)
    requires setup.Valid() && InRange(setup, run) && MonotoneSetup(setup) && event < setup.numEvents
    ensures var s := Outcome(setup, run);
            s.events[event] <==> Reported(run, event) && setup.deciders[event](s.sources[event])
  {
    if run != [] {
      var n := |run| - 1;
      var r, s, t := run[n], Outcome(setup, run[..n]), Outcome(setup, run);
      EventsFollowDeciders(setup, run[..n], event);
      assert run == run[..n] + [r];
      ReportedAppend(run[..n], r, event);
      if r.event == event {
        assert Monotone(setup.deciders[event]);
        assert setup.deciders[event](s.sources[event]) ==> setup.deciders[event](t.sources[event]);
      } else {
        assert t.sources[event] == s.sources[event] && t.events[event] == s.events[event];
      }
    }
  }

  /** The state does not depend on the order or number of the submissions, only on the set. */
  lemma OutcomeDependsOnSet(setup: Setup, run: seq<Submission>, run': seq<Submission>)
    requires setup.Valid() && InRange(setup, run) && InRange(setup, run') && MonotoneSetup(setup)
    requires forall r :: r in run <==> r in run'
    ensures Outcome(setup, run).sources == Outcome(setup, run').sources
    ensures Outcome(setup, run).events == Outcome(setup, run').events
  {
    var s, t := Outcome(setup, run), Outcome(setup, run');
    forall e | 0 <= e < setup.numEvents
      ensures s.sources[e] == t.sources[e] && s.events[e] == t.events[e]
    {
      forall k | 0 <= k < setup.numSources
        ensures s.sources[e][k] == t.sources[e][k]
      {
        ReportsAreSubmissions(setup, run, k, e);
        ReportsAreSubmissions(setup, run', k, e);
      }
      assert s.sources[e] == t.sources[e];
      EventsFollowDeciders(setup, run, e);
      EventsFollowDeciders(setup, run', e);
    }
  }

  predicate NoRepeats(s: seq<nat>) {
    forall i, j | 0 <= i < j < |s| :: s[i] != s[j]
  }

  lemma {:induction false} TimersOfProperties(timers: seq<TimerEvent>, event: nat, n: nat)
    requires n <= |timers|
    ensures forall i | i in TimersOf(timers, event, n) :: i < n && timers[i].start == event
    ensures forall i | 0 <= i < n && timers[i].start == event :: i in TimersOf(timers, event, n)
    ensures NoRepeats(TimersOf(timers, event, n))
  {
    if n > 0 {
      TimersOfProperties(timers, event, n - 1);
    }
  }

  /** Each event is posted once, when it has occurred; a timer is started once, when the event
      it waits for has occurred. */
  ghost predicate PostedOnce(setup: Setup, s: State)
    requires s.Fits(setup)
  {
    && NoRepeats(s.posted) && NoRepeats(s.started)
    && (forall e: nat :: e in s.posted <==> e < setup.numEvents && s.events[e])
    && (forall i: nat :: i in s.started <==>
          i < |setup.timers| && setup.timers[i].start < setup.numEvents && s.events[setup.timers[i].start])
  }

  lemma PostingStep(setup: Setup, s: State, source: nat, event: nat)
    requires setup.Valid() && s.Fits(setup) && source < setup.numSources && event < setup.numEvents &&
             PostedOnce(setup, s)
    ensures PostedOnce(setup, Submitted(setup, s, source, event))
  {
    var t, more := Submitted(setup, s, source, event), TimersOf(setup.timers, event, |setup.timers|);
    TimersOfProperties(setup.timers, event, |setup.timers|);
    if setup.deciders[event](s.sources[event][source := true]) && !s.events[event] {
      assert t.events == s.events[event := true] && t.posted == s.posted + [event] && t.started == s.started + more;
      forall e: nat
        ensures e in t.posted <==> e < setup.numEvents && t.events[e]
      {
        assert e in t.posted <==> e in s.posted || e == event;
      }
      forall i: nat
        ensures i in t.started <==>
                i < |setup.timers| && setup.timers[i].start < setup.numEvents && t.events[setup.timers[i].start]
      {
        assert i in t.started <==> i in s.started || i in more;
      }
      forall i | i in more
        ensures i !in s.started
      {
        assert setup.timers[i].start == event;
      }
      NoRepeatsAppend(s.posted, [event]);
      NoRepeatsAppend(s.started, more);
    }
  }

  lemma NoRepeatsAppend(s: seq<nat>, t: seq<nat>)
    requires NoRepeats(s) && NoRepeats(t) && forall x | x in t :: x !in s
    ensures NoRepeats(s + t)
  {
    forall i, j | 0 <= i < j < |s + t|
      ensures (s + t)[i] != (s + t)[j]
    {
      if i < |s| <= j {
        assert t[j - |s|] in t;
      }
    }
  }

  /** True after every run. */
  lemma {:induction false} PostedAndStartedOnce(setup: Setup, run: seq<Submission>)
    requires setup.Valid() && InRange(setup, run)
    ensures PostedOnce(setup, Outcome(setup, run))
  {
    if run != [] {
      var n := |run| - 1;
      PostedAndStartedOnce(setup, run[..n]);
      PostingStep(setup, Outcome(setup, run[..n]), run[n].source, run[n].event);
    }
  }
}
