/**
 The elapsed-realtime estimator of gps/core/LocApiBase.cpp: it turns the modem's time stamp
 of a fix into a time since boot, from the wall clock, the boot clock and a clock difference
 it keeps up to date.

 Times are in nanoseconds. A reading of the two clocks is part of the fix; it may fail.
 */
module Estimator {
  import opened Wrappers

  const STABILIZATION := 5

  datatype Clocks = Clocks(utc: int, boot: int)

  datatype Fix = Fix(dataTime: int, trusted: bool, tbf: int, clocks: Option<Clocks>)

  datatype Event = Reset | Located(fix: Fix)

  datatype State = State(clockDiff: int, prevUtc: int, prevBoot: int, prevData: int, threshold: int, travel: int)

  function Initial(travel: int): State {
    State(0, 0, 0, 0, STABILIZATION, travel)
  }

  // ---------------------------------------------------------------------------
  // The estimator as a function
  // ---------------------------------------------------------------------------

  /** The modem's time stamps jumped: the fix is not one period after the previous one. */
  predicate Jumped(prevData: int, f: Fix) {
    f.tbf > 0 && f.tbf != f.dataTime - prevData
  }

  function Estimate(s: State, f: Fix): (State, int) {
    match f.clocks
    case None => (s, -1)
    case Some(c) =>
      if !f.trusted then (s, c.boot - s.travel)
      else
        var threshold := if Jumped(s.prevData, f) then STABILIZATION else s.threshold;
        var diff :=
          if threshold == 0 then c.utc - f.dataTime - s.travel
          else if threshold < 0 then s.clockDiff + (c.utc - c.boot) - (s.prevUtc - s.prevBoot)
          else s.clockDiff;
        var travel := if threshold < 0 then c.utc - f.dataTime - diff else s.travel;
        (State(diff, c.utc, c.boot, f.dataTime, threshold - 1, s.travel), c.boot - travel)
  }

  function Next(s: State, e: Event): State {
    match e
    case Reset => Initial(s.travel)
    case Located(f) => Estimate(s, f).0
  }

  function Run(s: State, events: seq<Event>): State {
    if events == [] then s else Next(Run(s, events[..|events| - 1]), events[|events| - 1])
  }

  // ---------------------------------------------------------------------------
  // An estimator without a wall clock
  // ---------------------------------------------------------------------------

  datatype Phase = Warmup(left: nat) | Calibrated(anchor: int)

  datatype Simple = Simple(phase: Phase, prevData: int, travel: int)

  /** Warm up over five trusted fixes, then fix an anchor once and add every later time stamp to it. */
  function SimpleEstimate(s: Simple, f: Fix): (Simple, int) {
    match f.clocks
    case None => (s, -1)
    case Some(c) =>
      if !f.trusted then (s, c.boot - s.travel)
      else
        match if Jumped(s.prevData, f) then Warmup(5) else s.phase
        case Calibrated(anchor) => (Simple(Calibrated(anchor), f.dataTime, s.travel), anchor + f.dataTime)
        case Warmup(left) =>
          var phase := if left == 0 then Calibrated(c.boot - s.travel - f.dataTime) else Warmup(left - 1);
          (Simple(phase, f.dataTime, s.travel), c.boot - s.travel)
  }

  function SimpleNext(s: Simple, e: Event): Simple {
    match e
    case Reset => Simple(Warmup(5), 0, s.travel)
    case Located(f) => SimpleEstimate(s, f).0
  }

  function SimpleRun(s: Simple, events: seq<Event>): Simple {
    if events == [] then s else SimpleNext(SimpleRun(s, events[..|events| - 1]), events[|events| - 1])
  }

  /** The quantity that updates preserve is the clock difference less the previous offset of the two clocks. */
  function Abstract(s: State): Simple {
    Simple(if s.threshold >= 0 then Warmup(s.threshold) else Calibrated(s.clockDiff - (s.prevUtc - s.prevBoot)),
           s.prevData, s.travel)
  }

  lemma EstimateRefines(s: State, f: Fix)
    ensures SimpleEstimate(Abstract(s), f) == (Abstract(Estimate(s, f).0), Estimate(s, f).1)
  {
  }

  lemma {:induction false} RunRefines(s: State, events: seq<Event>)
    ensures SimpleRun(Abstract(s), events) == Abstract(Run(s, events))
  {
    if events != [] {
      RunRefines(s, events[..|events| - 1]);
    }
  }

  /** After every run the estimate is the one of the estimator that has no wall clock. */
  lemma EstimatesAgree(travel: int, events: seq<Event>, f: Fix)
    ensures Estimate(Run(Initial(travel), events), f).1
         == SimpleEstimate(SimpleRun(Abstract(Initial(travel)), events), f).1
  {
    RunRefines(Initial(travel), events);
    EstimateRefines(Run(Initial(travel), events), f);
  }

  // ---------------------------------------------------------------------------
  // The wall clock does not matter
  // ---------------------------------------------------------------------------

  ghost predicate SameButWallClock(f: Fix, g: Fix) {
    && f.dataTime == g.dataTime && f.trusted == g.trusted && f.tbf == g.tbf
    && (f.clocks.Some? <==> g.clocks.Some?)
    && (f.clocks.Some? ==> f.clocks.value.boot == g.clocks.value.boot)
  }

  ghost predicate SameEventButWallClock(e: Event, e': Event) {
    if e.Located? then e'.Located? && SameButWallClock(e.fix, e'.fix) else e' == e
  }

  lemma {:induction false} SimpleRunIgnoresWallClock(s: Simple, events: seq<Event>, events': seq<Event>)
    requires |events| == |events'|
    requires forall i :: 0 <= i < |events| ==> SameEventButWallClock(events[i], events'[i])
    ensures SimpleRun(s, events) == SimpleRun(s, events')
  {
    if events != [] {
      var n := |events| - 1;
      assert SameEventButWallClock(events[n], events'[n]);
      SimpleRunIgnoresWallClock(s, events[..n], events'[..n]);
    }
  }

  /** Two runs that differ only in what the wall clock showed give the same estimate:
      setting the clock, by any amount and at any moment, leaves no trace. */
  lemma WallClockJumpsDoNotMatter(travel: int, events: seq<Event>, events': seq<Event>, f: Fix, f': Fix)
    requires |events| == |events'| && SameButWallClock(f, f')
    requires forall i :: 0 <= i < |events| ==> SameEventButWallClock(events[i], events'[i])
    ensures Estimate(Run(Initial(travel), events), f).1 == Estimate(Run(Initial(travel), events'), f').1
  {
    EstimatesAgree(travel, events, f);
    EstimatesAgree(travel, events', f');
    SimpleRunIgnoresWallClock(Abstract(Initial(travel)), events, events');
  }

  // ---------------------------------------------------------------------------
  // The closed form
  // ---------------------------------------------------------------------------

  /** No reset, and no trusted fix with a jumped time stamp, from state `s` on. */
  ghost predicate Steady(s: State, events: seq<Event>) {
    forall i :: 0 <= i < |events| ==>
      events[i].Located? && (events[i].fix.trusted && events[i].fix.clocks.Some?
                             ==> !Jumped(Run(s, events[..i]).prevData, events[i].fix))
  }

  lemma {:induction false} SteadyKeepsAnchor(s: State, events: seq<Event>)
    requires s.threshold < 0 && Steady(s, events)
    ensures Abstract(Run(s, events)).phase == Abstract(s).phase
    ensures Run(s, events).threshold < 0
  {
    if events != [] {
      var n := |events| - 1;
      forall i | 0 <= i < n ensures events[..n][..i] == events[..i] && events[..n][i] == events[i] {
      }
      assert Steady(s, events[..n]);
      SteadyKeepsAnchor(s, events[..n]);
      EstimateRefines(Run(s, events[..n]), events[n].fix);
    }
  }

  /** Calibrated at fix `c`, any later trusted fix `f` is estimated at the boot time of `c`,
      less the assumed travel time, plus the modem time that passed between the two. */
  lemma TelescopedEstimate(s: State, c: Fix, events: seq<Event>, f: Fix)
    requires s.threshold == 0
    requires c.trusted && c.clocks.Some? && !Jumped(s.prevData, c)
    requires f.trusted && f.clocks.Some?
    requires Steady(Estimate(s, c).0, events) && !Jumped(Run(Estimate(s, c).0, events).prevData, f)
    ensures Estimate(s, c).1 == c.clocks.value.boot - s.travel
    ensures Estimate(Run(Estimate(s, c).0, events), f).1
         == c.clocks.value.boot - s.travel + (f.dataTime - c.dataTime)
  {
    var s0 := Estimate(s, c).0;
    SteadyKeepsAnchor(s0, events);
    EstimateRefines(Run(s0, events), f);
  }

  /** A fix that the estimator takes into account. */
  predicate Counted(e: Event) {
    e.Located? && e.fix.trusted && e.fix.clocks.Some?
  }

  function CountedFixes(events: seq<Event>): nat {
    if events == [] then 0
    else CountedFixes(events[..|events| - 1]) + if Counted(events[|events| - 1]) then 1 else 0
  }

  /** The estimator calibrates: after a reset each trusted fix counts the threshold down, to zero at
      the fifth, whatever untrusted or unread fixes come between. A jump is harmless at the first,
      where the count stands at five anyway. */
  lemma {:induction false} WarmupEnds(s: State, events: seq<Event>)
    requires s.threshold == STABILIZATION
    requires forall i :: 0 <= i < |events| ==> events[i].Located?
    requires forall i :: 0 <= i < |events| && Counted(events[i]) && CountedFixes(events[..i]) > 0
                         ==> !Jumped(Run(s, events[..i]).prevData, events[i].fix)
    ensures Run(s, events).threshold == 5 - CountedFixes(events)
  {
    if events != [] {
      var n := |events| - 1;
      forall i | 0 <= i < n ensures events[..n][..i] == events[..i] && events[..n][i] == events[i] {
      }
      WarmupEnds(s, events[..n]);
    }
  }

  // ---------------------------------------------------------------------------
  // The class
  // ---------------------------------------------------------------------------

  class ElapsedRealtimeEstimator {
    var currentClockDiff: int
    var prevUtcTimeNanos: int
    var prevBootTimeNanos: int
    var prevDataTimeNanos: int
    var fixTimeStablizationThreshold: int
    const initialTravelTime: int

    ghost function View(): State
      reads this
    {
      State(currentClockDiff, prevUtcTimeNanos, prevBootTimeNanos, prevDataTimeNanos,
            fixTimeStablizationThreshold, initialTravelTime)
    }

    constructor (travelTimeNanosEstimate: int)
      ensures View() == Initial(travelTimeNanosEstimate)
    {
      initialTravelTime := travelTimeNanosEstimate;
      new;
      Reset();
    }

    method GetElapsedRealtimeEstimateNanos(curDataTimeNanos: int, isCurDataTimeTrustable: bool, tbf: int,
                                           clocks: Option<Clocks>)
      returns (r: int)
      modifies this
      ensures (View(), r) == Estimate(old(View()), Fix(curDataTimeNanos, isCurDataTimeTrustable, tbf, clocks))
    {
      var currentTravelTimeNanos := initialTravelTime;
      match clocks
      case None =>
        return -1;
      case Some(now) =>
        if isCurDataTimeTrustable {
          if tbf > 0 && tbf != curDataTimeNanos - prevDataTimeNanos {
            fixTimeStablizationThreshold := STABILIZATION;
          }
          var currentTimeNanos := now.utc;
          if fixTimeStablizationThreshold == 0 {
            currentTravelTimeNanos := initialTravelTime;
            currentClockDiff := currentTimeNanos - curDataTimeNanos - currentTravelTimeNanos;
          } else if fixTimeStablizationThreshold < 0 {
            currentClockDiff := currentClockDiff + (currentTimeNanos - now.boot)
                                - (prevUtcTimeNanos - prevBootTimeNanos);
            currentTravelTimeNanos := currentTimeNanos - curDataTimeNanos - currentClockDiff;
          }
          prevUtcTimeNanos := currentTimeNanos;
          prevBootTimeNanos := now.boot;
          prevDataTimeNanos := curDataTimeNanos;
          fixTimeStablizationThreshold := fixTimeStablizationThreshold - 1;
        }
        return now.boot - currentTravelTimeNanos;
    }

    method Reset()
      modifies this
      ensures View() == Next(old(View()), Event.Reset)
    {
      currentClockDiff := 0;
      prevDataTimeNanos := 0;
      prevUtcTimeNanos := 0;
      prevBootTimeNanos := 0;
      fixTimeStablizationThreshold := STABILIZATION;
    }
  }
}
