/** openrocket_sensors.c: simulated sensors look up a recorded flight between two packets. A packet
    carries one of the recorded quantities; the drivers treat each of them alike. */
module OpenRocket {

  datatype Packet = Packet(time: real, value: real)

  /** What the recorded data is: at least two packets, at increasing times. */
  ghost predicate Recording(packets: seq<Packet>) {
    |packets| >= 2 && Increasing(packets)
  }

  ghost predicate Increasing(packets: seq<Packet>) {
    forall i, j | 0 <= i < j < |packets| :: packets[i].time < packets[j].time
  }

  predicate Before(packets: seq<Packet>, t: real)
    requires packets != []
  {
    t < packets[0].time
  }

  predicate Past(packets: seq<Packet>, t: real)
    requires packets != []
  {
    t > packets[|packets| - 1].time
  }

  /** A start for the scan from which it neither leaves the recording nor misses the packets
      around `t`. */
  predicate Admissible(packets: seq<Packet>, hint: nat, t: real)
    requires packets != []
  {
    Before(packets, t) || (hint + 1 < |packets| && packets[hint].time <= t)
  }

  function Mix(lo: Packet, hi: Packet, t: real): real
    requires lo.time < hi.time
  {
    (t - lo.time) / (hi.time - lo.time)
  }

  /** What or_find_bounding_packets promises: neighbours around `t`, or 0 and 0 before the
      recording, or its size twice past its end. */
  ghost predicate Bounding(packets: seq<Packet>, t: real, lower: nat, upper: nat, mix: real)
    requires Recording(packets)
  {
    if Before(packets, t) then lower == upper == 0 && mix == 0.0
    else if Past(packets, t) then lower == upper == |packets| && mix == 0.0
    else
      && upper == lower + 1 < |packets|
      && packets[lower].time <= t <= packets[upper].time
      && mix == Mix(packets[lower], packets[upper], t)
  }

  /** Where the scan gets from any start: `Outside` is an access behind the last packet. */
  datatype Scanned = Outside | Found(lower: nat, upper: nat, mix: real)

  function Scan(packets: seq<Packet>, i: nat, t: real): Scanned
    requires packets != []
    decreases |packets| - i
  {
    if i + 1 >= |packets| then Outside
    else if t > packets[i + 1].time then
      if i + 2 >= |packets| then Found(|packets|, |packets|, 0.0) else Scan(packets, i + 1, t)
    else
      var step := packets[i + 1].time - packets[i].time;
      Found(i, i + 1, if step == 0.0 then 0.0 else (t - packets[i].time) / step)
  }

  function Located(packets: seq<Packet>, hint: nat, t: real): Scanned
    requires packets != []
  {
    if Before(packets, t) then Found(0, 0, 0.0) else Scan(packets, hint, t)
  }

  /** From a start inside the recording the scan stays inside it, admissible or not. */
  method FindBoundingPackets(packets: seq<Packet>, hint: nat, t: real) returns (lower: nat, upper: nat, mix: real)
    requires Recording(packets) && (Before(packets, t) || hint + 1 < |packets|)
    ensures Located(packets, hint, t) == Found(lower, upper, mix)
    ensures Admissible(packets, hint, t) ==> Bounding(packets, t, lower, upper, mix)
  {
    LocatedExactly(packets, hint, t);
    if t < packets[0].time {
      return 0, 0, 0.0;
    }
    var i := hint;
    while t > packets[i + 1].time
      invariant i + 1 < |packets| && Scan(packets, i, t) == Scan(packets, hint, t)
      decreases |packets| - i
    {
      if i >= |packets| - 2 {
        return |packets|, |packets|, 0.0;
      }
      i := i + 1;
    }
    lower, upper := i, i + 1;
    mix := (t - packets[i].time) / (packets[i + 1].time - packets[i].time);
  }

  /** A start is good exactly if it is admissible: any other one makes the scan read behind the last
      packet, or return packets that are not around `t`. */
  lemma LocatedExactly(packets: seq<Packet>, hint: nat, t: real)
    requires Recording(packets)
    ensures Located(packets, hint, t).Outside? <==> !Before(packets, t) && hint + 1 >= |packets|
    ensures Admissible(packets, hint, t) <==>
            match Located(packets, hint, t)
            case Outside => false
            case Found(lower, upper, mix) => Bounding(packets, t, lower, upper, mix)
  {
    if !Before(packets, t) && hint + 1 < |packets| {
      ScanInside(packets, hint, t);
      if packets[hint].time <= t {
        ScanBounds(packets, hint, t);
      } else {
        TimesIncrease(packets, hint, hint + 1);
        TimesIncrease(packets, hint, |packets| - 1);
      }
    }
  }

  lemma {:induction false} ScanInside(packets: seq<Packet>, i: nat, t: real)
    requires Recording(packets) && i + 1 < |packets|
    ensures Scan(packets, i, t).Found?
    decreases |packets| - i
  {
    if t > packets[i + 1].time && i + 2 < |packets| {
      ScanInside(packets, i + 1, t);
    }
  }

  lemma {:induction false} ScanBounds(packets: seq<Packet>, i: nat, t: real)
    requires Recording(packets) && i + 1 < |packets| && packets[i].time <= t
    ensures var found := Scan(packets, i, t);
            found.Found? && Bounding(packets, t, found.lower, found.upper, found.mix)
    decreases |packets| - i
  {
    if t > packets[i + 1].time {
      if i + 2 < |packets| {
        ScanBounds(packets, i + 1, t);
      }
    } else {
      TimesIncrease(packets, i + 1, |packets| - 1);
      TimesIncrease(packets, 0, i);
    }
  }

  function Lerp(a: real, b: real, t: real): real
    requires 0.0 <= t <= 1.0
  {
    a * (1.0 - t) + b * t
  }

  /** The mix is one that Lerp accepts. */
  lemma MixInRange(lo: Packet, hi: Packet, t: real)
    requires lo.time < hi.time && lo.time <= t <= hi.time
    ensures 0.0 <= Mix(lo, hi, t) <= 1.0
  {
    Quotient(t - lo.time, hi.time - lo.time);
  }

  lemma Quotient(n: real, d: real)
    requires 0.0 <= n <= d && d > 0.0
    ensures 0.0 <= n / d <= 1.0
  {
    var q := n / d;
    assert q * d == n;
    assert q < 0.0 ==> q * d < 0.0;
    assert q > 1.0 ==> (q - 1.0) * d > 0.0;
  }

  /** How the drivers fetch a value. */
  method Fetch(packets: seq<Packet>, hint: nat, t: real) returns (value: real)
    requires Recording(packets) && Admissible(packets, hint, t)
    ensures value == Flight(packets, t)
  {
    var lower, upper, mix := FindBoundingPackets(packets, hint, t);
    BoundingIsFlight(packets, t, lower, upper, mix);
    if upper == 0 {
      value := packets[0].value;
    } else if lower == |packets| {
      value := packets[|packets| - 1].value;
    } else {
      MixInRange(packets[lower], packets[upper], t);
      value := Lerp(packets[lower].value, packets[upper].value, mix);
    }
  }

  // ----- the flight that was recorded, as a function of time

  /** The straight line through two packets. */
  function Line(a: Packet, b: Packet, t: real): real
    requires a.time < b.time
  {
    a.value + (b.value - a.value) / (b.time - a.time) * (t - a.time)
  }

  /** Piecewise linear between the packets, constant before the first and after the last. */
  function Flight(packets: seq<Packet>, t: real): real
    requires packets != [] && Increasing(packets)
  {
    if t <= packets[0].time || |packets| == 1 then packets[0].value
    else if t <= packets[1].time then Line(packets[0], packets[1], t)
    else Flight(packets[1..], t)
  }

  lemma LerpIsLine(a: Packet, b: Packet, t: real)
    requires a.time < b.time && a.time <= t <= b.time
    ensures 0.0 <= Mix(a, b, t) <= 1.0
    ensures Lerp(a.value, b.value, Mix(a, b, t)) == Line(a, b, t)
    ensures Line(a, b, a.time) == a.value && Line(a, b, b.time) == b.value
  {
    MixInRange(a, b, t);
    var d, v, n := b.time - a.time, b.value - a.value, t - a.time;
    Regroup(v, d, n);
    var m := Mix(a, b, t);
    assert a.value * (1.0 - m) + b.value * m == a.value + v * m;
    Regroup(v, d, d);
  }

  lemma Regroup(v: real, d: real, n: real)
    requires d > 0.0
    ensures v / d * n == v * (n / d)
    ensures n == d ==> v / d * n == v
  {
    var q, r := v / d, n / d;
    assert q * d == v && r * d == n;
    assert q * (r * d) == (q * d) * r;
  }

  /** On a segment the flight is that segment's line. */
  lemma {:induction false} FlightOnSegment(packets: seq<Packet>, t: real, i: nat)
    requires Increasing(packets) && i + 1 < |packets| && packets[i].time <= t <= packets[i + 1].time
    ensures Flight(packets, t) == Line(packets[i], packets[i + 1], t)
    decreases i
  {
    LerpIsLine(packets[i], packets[i + 1], t);
    hide Line;
    if i > 0 {
      assert packets[1..][i - 1] == packets[i] && packets[1..][i] == packets[i + 1];
      FlightOnSegment(packets[1..], t, i - 1);
      if i == 1 && t == packets[1].time {
        LerpIsLine(packets[0], packets[1], t);
      }
    }
  }

  lemma {:induction false} FlightOutside(packets: seq<Packet>, t: real)
    requires packets != [] && Increasing(packets)
    ensures t <= packets[0].time ==> Flight(packets, t) == packets[0].value
    ensures t > packets[|packets| - 1].time ==> Flight(packets, t) == packets[|packets| - 1].value
  {
    if t > packets[|packets| - 1].time && |packets| > 1 {
      FlightOutside(packets[1..], t);
    }
  }

  /** Whatever bounding packets are found, they yield the flight's value: the start of the scan
      does not matter. */
  lemma BoundingIsFlight(packets: seq<Packet>, t: real, lower: nat, upper: nat, mix: real)
    requires Recording(packets) && Bounding(packets, t, lower, upper, mix)
    ensures upper == 0 <==> Before(packets, t)
    ensures upper != 0 && lower == |packets| <==> Past(packets, t)
    ensures upper == 0 ==> Flight(packets, t) == packets[0].value
    ensures upper != 0 && lower == |packets| ==> Flight(packets, t) == packets[|packets| - 1].value
    ensures upper != 0 && lower != |packets| ==>
              0.0 <= mix <= 1.0 && Lerp(packets[lower].value, packets[upper].value, mix) == Flight(packets, t)
  {
    FlightOutside(packets, t);
    if !Before(packets, t) && !Past(packets, t) {
      FlightOnSegment(packets, t, lower);
      LerpIsLine(packets[lower], packets[upper], t);
    }
  }

  lemma TimesIncrease(packets: seq<Packet>, i: nat, j: nat)
    requires Increasing(packets)
    ensures i < j < |packets| ==> packets[i].time < packets[j].time
  {
  }

  /** The indices themselves can only differ where the scan may stop on either side of a packet. */
  lemma BoundingUnique(packets: seq<Packet>, t: real, lower: nat, upper: nat, mix: real, lower': nat,
                       upper': nat, mix': real)
    requires Recording(packets) && Bounding(packets, t, lower, upper, mix) && Bounding(packets, t, lower', upper', mix')
    requires lower < lower'
    ensures upper == lower' && t == packets[upper].time && mix == 1.0 && mix' == 0.0
  {
    TimesIncrease(packets, upper, lower');
    assert upper == lower' && t == packets[upper].time;
    var d := packets[upper].time - packets[lower].time;
    Regroup(1.0, d, d);
    assert d / d == 1.0;
  }

  /** The value lies between those of the two packets. */
  lemma FlightBetweenNeighbours(packets: seq<Packet>, t: real, i: nat, low: real, high: real)
    requires Increasing(packets) && i + 1 < |packets| && packets[i].time <= t <= packets[i + 1].time
    requires low <= packets[i].value <= high && low <= packets[i + 1].value <= high
    ensures low <= Flight(packets, t) <= high
  {
    var a, b := packets[i], packets[i + 1];
    FlightOnSegment(packets, t, i);
    LerpIsLine(a, b, t);
    hide Line, Flight;
    var m := Mix(a, b, t);
    Weighted(a.value, b.value, m, low);
    Weighted(-a.value, -b.value, m, -high);
    assert Lerp(-a.value, -b.value, m) == -Lerp(a.value, b.value, m);
  }

  lemma Weighted(a: real, b: real, m: real, low: real)
    requires 0.0 <= m <= 1.0 && low <= a && low <= b
    ensures low <= Lerp(a, b, m)
  {
    assert (a - low) * (1.0 - m) >= 0.0;
    assert (b - low) * m >= 0.0;
    assert Lerp(a, b, m) - low == (a - low) * (1.0 - m) + (b - low) * m;
  }

  /** At a packet's time the flight has that packet's value. */
  lemma FlightAtPacket(packets: seq<Packet>, i: nat)
    requires Recording(packets) && i < |packets|
    ensures Flight(packets, packets[i].time) == packets[i].value
  {
    var t := packets[i].time;
    if i + 1 < |packets| {
      FlightOnSegment(packets, t, i);
      LerpIsLine(packets[i], packets[i + 1], t);
    } else {
      FlightOnSegment(packets, t, i - 1);
      LerpIsLine(packets[i - 1], packets[i], t);
    }
  }

  // ----- the hint

  /** The drivers always start at packet 0. */
  lemma ZeroAdmissible(packets: seq<Packet>, t: real)
    requires Recording(packets)
    ensures Admissible(packets, 0, t)
  {
  }

  /** The documented use of the hint, the lower index of an earlier call, is admissible exactly if
      that call did not look past the end of the recording. */
  lemma EarlierLowerAdmissible(packets: seq<Packet>, t0: real, lower: nat, upper: nat, mix: real, t: real)
    requires Recording(packets) && Bounding(packets, t0, lower, upper, mix) && t0 <= t
    ensures Admissible(packets, lower, t) <==> !Past(packets, t0)
  {
  }
}
