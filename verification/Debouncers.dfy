/** debouncer.hpp: a threshold counts as passed once it has been passed without a break for
    longer than a duration. Times are 32-bit and wrap around. */
module Debouncers {

  const WRAP := 0x1_0000_0000
  const NOT_PASSED := 0xFFFF_FFFF

  /** `a - b` on 32-bit timestamps. */
  function Elapsed(a: nat, b: nat): (d: nat)
    ensures d < WRAP
  {
    (a - b) % WRAP
  }

  datatype Direction = Over | Under

  predicate Passes(direction: Direction, target: real, value: real) {
    match direction
    case Over => value > target
    case Under => value < target
  }

  /** Over passes on the whole upper side of the target, Under on the whole lower side, and neither at
      the target itself. */
  lemma Sides(target: real, distance: real)
    ensures Passes(Over, target, target + distance) <==> distance > 0.0
    ensures Passes(Under, target, target - distance) <==> distance > 0.0
  {}

  /** What passes goes on passing further away. */
  lemma PassesFurther(target: real, v: real, w: real)
    ensures v <= w && Passes(Over, target, v) ==> Passes(Over, target, w)
    ensures w <= v && Passes(Under, target, v) ==> Passes(Under, target, w)
  {}

  /** The difference of two 32-bit times, with at most one wrap-around between them. */
  lemma ElapsedAcrossWrap(a: nat, b: nat)
    requires a < 0x1_0000_0000 && b < 0x1_0000_0000
    ensures Elapsed(a, b) == if a >= b then a - b else a + 0x1_0000_0000 - b
  {}

  /** First and last time of the current run of passing samples. */
  datatype Run = Run(first: nat, last: nat)

  const IDLE: Run := Run(NOT_PASSED, NOT_PASSED)

  function Fed(run: Run, t: nat, passes: bool): Run {
    if passes then Run(if run.first == NOT_PASSED then t else run.first, t) else IDLE
  }

  predicate HasPassed(run: Run, duration: nat) {
    run.first != NOT_PASSED && run.last != NOT_PASSED && Elapsed(run.last, run.first) > duration
  }

  class Debouncer {
    const direction: Direction
    const duration: nat
    const target: real
    var firstTimePassed: nat
    var lastTimePassed: nat

    ghost function State(): Run
      reads this
    {
      Run(firstTimePassed, lastTimePassed)
    }

    constructor (direction: Direction, duration: nat, target: real)
      ensures State() == IDLE && this.direction == direction && this.duration == duration && this.target == target
    {
      this.direction, this.duration, this.target := direction, duration, target;
      firstTimePassed, lastTimePassed := NOT_PASSED, NOT_PASSED;
    }

    method Feed(t: nat, value: real)
      modifies this
      ensures State() == Fed(old(State()), t, Passes(direction, target, value))
      ensures direction == Over ==> State() == Fed(old(State()), t, value > target)
      ensures direction == Under ==> State() == Fed(old(State()), t, value < target)
    {
      if Passes(direction, target, value) {
        lastTimePassed := t;
        if firstTimePassed == NOT_PASSED {
          firstTimePassed := t;
        }
      } else {
        firstTimePassed := NOT_PASSED;
        lastTimePassed := NOT_PASSED;
      }
    }

    method Passed() returns (b: bool)
      ensures b == HasPassed(State(), duration)
    {
      if firstTimePassed == NOT_PASSED || lastTimePassed == NOT_PASSED {
        return false;
      }
      b := Elapsed(lastTimePassed, firstTimePassed) > duration;
    }
  }

  // ----- what a history of samples amounts to

  /** One sample: when, and whether it passed the threshold. */
  datatype Reading = Reading(t: nat, passes: bool)

  function RunAfter(history: seq<Reading>): Run {
    if history == [] then IDLE
    else var r := history[|history| - 1]; Fed(RunAfter(history[..|history| - 1]), r.t, r.passes)
  }

  /** Where the longest unbroken run of passing samples at the end of the history starts. */
  function RunStart(history: seq<Reading>): (k: nat)
    ensures k <= |history|
    ensures forall i | k <= i < |history| :: history[i].passes
    ensures k > 0 ==> !history[k - 1].passes
  {
    if history == [] || !history[|history| - 1].passes then |history|
    else RunStart(history[..|history| - 1])
  }

  /** First time in the history from `k` on that is not the reserved value. */
  function FirstTime(history: seq<Reading>, k: nat): nat
    requires k <= |history|
    decreases |history| - k
  {
    if k == |history| then NOT_PASSED
    else if history[k].t != NOT_PASSED then history[k].t
    else FirstTime(history, k + 1)
  }

  lemma {:induction false} FirstTimeAppend(history: seq<Reading>, r: Reading, k: nat)
    requires k <= |history|
    ensures FirstTime(history + [r], k) ==
            if FirstTime(history, k) != NOT_PASSED then FirstTime(history, k) else r.t
    decreases |history| - k
  {
    if k < |history| {
      assert (history + [r])[k] == history[k];
      FirstTimeAppend(history, r, k + 1);
    } else {
      assert (history + [r])[k] == r;
      assert FirstTime(history + [r], k + 1) == NOT_PASSED;
    }
  }

  /** The two stored times are the first usable and the last time of the current run. */
  lemma {:induction false} StateOfRun(history: seq<Reading>)
    ensures var k := RunStart(history);
            RunAfter(history) == if k == |history| then IDLE
                              else Run(FirstTime(history, k), history[|history| - 1].t)
  {
    if history != [] {
      var n := |history| - 1;
      var h, r := history[..n], history[n];
      assert history == h + [r];
      StateOfRun(h);
      if r.passes {
        FirstTimeAppend(h, r, RunStart(h));
        assert RunStart(h) == n ==> FirstTime(h, n) == NOT_PASSED;
      }
    }
  }

  /** For every history, reserved time stamps included: Passed holds exactly if the current run
      is nonempty, its last time is not the reserved value, and that time is more than the
      duration after the first time of the run that is not the reserved value. */
  lemma PassedExactly(history: seq<Reading>, duration: nat)
    ensures var k := RunStart(history);
            HasPassed(RunAfter(history), duration) <==>
            k < |history| && history[|history| - 1].t != NOT_PASSED &&
            Elapsed(history[|history| - 1].t, FirstTime(history, k)) > duration
  {
    StateOfRun(history);
    if RunStart(history) < |history| && history[|history| - 1].t != NOT_PASSED {
      FirstTimeUsable(history, RunStart(history), |history| - 1);
    }
  }

  lemma {:induction false} FirstTimeUsable(history: seq<Reading>, k: nat, i: nat)
    requires k <= i < |history| && history[i].t != NOT_PASSED
    ensures FirstTime(history, k) != NOT_PASSED
    decreases |history| - k
  {
    if history[k].t == NOT_PASSED {
      FirstTimeUsable(history, k + 1, i);
    }
  }

  /** What the class is for: with no reserved time stamps, the run has to last longer than the
      duration. */
  lemma PassedIffRunLong(history: seq<Reading>, duration: nat)
    requires forall i | 0 <= i < |history| :: history[i].t != NOT_PASSED
    ensures var k := RunStart(history);
            HasPassed(RunAfter(history), duration) <==>
            k < |history| && Elapsed(history[|history| - 1].t, history[k].t) > duration
  {
    PassedExactly(history, duration);
  }

  /** A sample that falls on the reserved time hides a run that has been long enough: 300 ms
      over the threshold, and yet not passed. */
  lemma ReservedTimeHidesRun()
    ensures var history := [Reading(4294966995, true), Reading(4294967295, true)];
            RunStart(history) == 0 && Elapsed(history[1].t, history[0].t) == 300 &&
            !HasPassed(RunAfter(history), 250)
  {
    var history := [Reading(4294966995, true), Reading(4294967295, true)];
    var one := [Reading(4294966995, true)];
    assert history[..1] == one && one[..0] == [];
    assert RunStart(one) == 0;
    PassedExactly(history, 250);
  }

  /** Passed never comes too early: there are two passing samples in one unbroken run whose
      times are more than the duration apart. */
  lemma PassedSound(history: seq<Reading>, duration: nat) returns (i: nat)
    requires HasPassed(RunAfter(history), duration)
    ensures i < |history| && (forall j | i <= j < |history| :: history[j].passes)
    ensures Elapsed(history[|history| - 1].t, history[i].t) > duration
  {
    StateOfRun(history);
    i := FirstTimeIndex(history, RunStart(history));
  }

  lemma {:induction false} FirstTimeIndex(history: seq<Reading>, k: nat) returns (i: nat)
    requires k <= |history| && FirstTime(history, k) != NOT_PASSED
    ensures k <= i < |history| && history[i].t == FirstTime(history, k)
    ensures forall j | k <= j < i :: history[j].t == NOT_PASSED
    decreases |history| - k
  {
    if history[k].t != NOT_PASSED {
      i := k;
    } else {
      i := FirstTimeIndex(history, k + 1);
    }
  }
}
