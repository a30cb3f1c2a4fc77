/**
 Trip distances of gps/batching/BatchingAdapter.cpp: several trips share one distance counter
 of the engine, which starts again at zero whenever the engine is restarted.

 The world beside the adapter is an odometer. Distances are 32-bit unsigned and wrap around.
 A query, a restart and the reply to it are one step.
 */
module TripBatching {

  const RANGE := 0x1_0000_0000

  type uint32 = x: int | 0 <= x < RANGE

  function U32(x: int): uint32 {
    x % RANGE
  }

  datatype Trip = Trip(ongoingBatch: uint32, thisTrip: uint32, onRestart: uint32, distance: uint32, interval: uint32)

  datatype Adapter = Adapter(
    trips: map<nat, Trip>,
    ongoingDistance: uint32, ongoingInterval: uint32,
    intervalDropped: bool, distanceDropped: bool)

  /** `odo`: distance travelled so far. `base`: the odometer when the engine last started.
      `joined`: the odometer when each trip joined. */
  datatype World = World(ad: Adapter, odo: nat, base: nat, joined: map<nat, nat>)

  const INITIAL := World(Adapter(map[], 0, 0, false, false), 0, 0, map[])

  function Counter(w: World): uint32 {
    U32(w.odo - w.base)
  }

  // ---------------------------------------------------------------------------
  // Steps
  // ---------------------------------------------------------------------------

  /** A trip's distance when the engine's counter shows `c`. */
  function Accounted(t: Trip, c: uint32): uint32 {
    U32(t.onRestart + U32(c - t.ongoingBatch))
  }

  function Update(t: Trip, c: uint32): Trip {
    t.(thisTrip := Accounted(t, c))
  }

  predicate Completes(t: Trip, c: uint32) {
    t.distance <= Accounted(t, c)
  }

  /** What `restartTripBatching` decides, from the smallest remaining distance and interval it found. */
  datatype Decision = Decision(restart: bool, distance: uint32, interval: uint32)

  function Decide(ad: Adapter, minRemaining: uint32, minInterval: uint32, c: uint32): Decision {
    var remaining := U32(ad.ongoingDistance - c);
    var first :=
      if !ad.distanceDropped && remaining != 0 then
        if minRemaining < remaining then Decision(true, minRemaining, ad.ongoingInterval)
        else Decision(false, ad.ongoingDistance, ad.ongoingInterval)
      else if minRemaining != 0 then Decision(true, minRemaining, ad.ongoingInterval)
      else Decision(false, ad.ongoingDistance, ad.ongoingInterval);
    if minInterval < ad.ongoingInterval || (minInterval != ad.ongoingInterval && ad.intervalDropped)
    then first.(restart := true, interval := minInterval)
    else first
  }

  function Remaining(t: Trip): uint32 {
    U32(t.distance - t.thisTrip)
  }

  /** Some trip has the distance left, and some trip the interval; no trip has less, provided that
      no trip has none left (a smallest value of zero is taken for one not yet found). */
  ghost predicate SmallestOf(trips: map<nat, Trip>, r: uint32, i: uint32) {
    && (exists id :: id in trips && Remaining(trips[id]) == r)
    && (exists id :: id in trips && trips[id].interval == i)
    && ((forall id :: id in trips ==> Remaining(trips[id]) != 0) ==>
        forall id :: id in trips ==> r <= Remaining(trips[id]))
    && ((forall id :: id in trips ==> trips[id].interval != 0) ==> forall id :: id in trips ==> i <= trips[id].interval)
  }

  /** Every trip keeps its distance so far and counts from zero again. */
  function Rebase(trips: map<nat, Trip>, c: uint32): map<nat, Trip> {
    map id | id in trips ::
      trips[id].(ongoingBatch := 0, thisTrip := Accounted(trips[id], c), onRestart := Accounted(trips[id], c))
  }

  function RestartTrips(w: World, minRemaining: uint32, minInterval: uint32, ok: bool): World {
    if w.ad.trips == map[] then w.(ad := w.ad.(ongoingDistance := 0, ongoingInterval := 0))
    else
      var d := Decide(w.ad, minRemaining, minInterval, Counter(w));
      if d.restart && ok then
        w.(ad := w.ad.(trips := Rebase(w.ad.trips, Counter(w)),
                       ongoingDistance := d.distance, ongoingInterval := d.interval),
           base := w.odo)
      else w
  }

  /** The trips left after a report, with their distances brought up to date. */
  function AfterReport(trips: map<nat, Trip>, c: uint32): map<nat, Trip> {
    map id | id in trips && !Completes(trips[id], c) :: Update(trips[id], c)
  }

  predicate AnyCompletes(trips: map<nat, Trip>, c: uint32) {
    exists id :: id in trips && Completes(trips[id], c)
  }

  predicate DropsInterval(ad: Adapter, c: uint32) {
    exists id :: id in ad.trips && Completes(ad.trips[id], c) && ad.trips[id].interval == ad.ongoingInterval
  }

  predicate DropsDistance(ad: Adapter, c: uint32) {
    exists id :: id in ad.trips && Completes(ad.trips[id], c) && ad.trips[id].distance == ad.ongoingDistance
  }

  /** A report before the restart that may follow it. */
  function Gone(w: World): World {
    var c := Counter(w);
    w.(ad := w.ad.(trips := AfterReport(w.ad.trips, c),
                   intervalDropped := w.ad.intervalDropped || DropsInterval(w.ad, c),
                   distanceDropped := w.ad.distanceDropped || DropsDistance(w.ad, c)))
  }

  function Report(w: World, minRemaining: uint32, minInterval: uint32, ok: bool): World {
    if AnyCompletes(w.ad.trips, Counter(w)) then RestartTrips(Gone(w), minRemaining, minInterval, ok) else Gone(w)
  }

  /** The engine settings a joining trip leads to, and whether they need a restart. */
  function JoinDecision(ad: Adapter, distance: uint32, interval: uint32, queried: bool, c: uint32): Decision {
    var faster := ad.ongoingInterval > interval;
    var interval' := if faster then interval else ad.ongoingInterval;
    if !queried then
      if distance < ad.ongoingDistance then Decision(true, distance, interval')
      else Decision(faster, ad.ongoingDistance, interval')
    else
      var remaining := U32(ad.ongoingDistance - c);
      if distance < remaining then Decision(true, distance, interval')
      else if faster then Decision(true, remaining, interval')
      else Decision(false, ad.ongoingDistance, interval')
  }

  /** The restart of a join: trips keep the distance of their last report. */
  function Forget(trips: map<nat, Trip>): map<nat, Trip> {
    map id | id in trips :: trips[id].(ongoingBatch := 0, onRestart := trips[id].thisTrip)
  }

  function FirstJoin(w: World, id: nat, distance: uint32, interval: uint32, ok: bool): World {
    if ok
    then World(w.ad.(trips := map[id := Trip(0, 0, 0, distance, interval)],
                     ongoingDistance := distance, ongoingInterval := interval),
               w.odo, w.odo, w.joined[id := w.odo])
    else w
  }

  function Enter(w: World, id: nat, distance: uint32, interval: uint32): World {
    w.(ad := w.ad.(trips := w.ad.trips[id := Trip(Counter(w), 0, 0, distance, interval)]),
       joined := w.joined[id := w.odo])
  }

  function LaterJoin(w: World, id: nat, distance: uint32, interval: uint32, queried: bool, ok: bool): World {
    var d := JoinDecision(w.ad, distance, interval, queried, Counter(w));
    var w' := if queried then Enter(w, id, distance, interval) else w;
    if !d.restart then w'
    else
      w'.(ad := w'.ad.(trips := Forget(w'.ad.trips), ongoingDistance := d.distance, ongoingInterval := d.interval),
          base := if ok then w.odo else w.base)
  }

  /** A stop before the restart that follows it. */
  function Without(w: World, id: nat): World
    requires id in w.ad.trips
  {
    var t := w.ad.trips[id];
    w.(ad := w.ad.(trips := w.ad.trips - {id},
                   intervalDropped := w.ad.intervalDropped || t.interval == w.ad.ongoingInterval,
                   distanceDropped := w.ad.distanceDropped || t.distance == w.ad.ongoingDistance))
  }

  function StopTrip(w: World, id: nat, minRemaining: uint32, minInterval: uint32, ok: bool): World
    requires id in w.ad.trips
  {
    RestartTrips(Without(w, id), minRemaining, minInterval, ok)
  }

  /** `ok`: the engine accepts the start or restart of the step, if it asks for one. */
  datatype Step =
    | Move(meters: nat)
    | Join(id: nat, distance: uint32, interval: uint32, queried: bool, ok: bool)
    | Reported(minRemaining: uint32, minInterval: uint32, ok: bool)
    | Restarted(minRemaining: uint32, minInterval: uint32, ok: bool)
    | Stop(id: nat, minRemaining: uint32, minInterval: uint32, ok: bool)

  function Execute(w: World, s: Step): World {
    match s
    case Move(d) => w.(odo := w.odo + d)
    case Join(id, dist, i, q, ok) =>
      if w.ad.trips == map[] then FirstJoin(w, id, dist, i, ok) else LaterJoin(w, id, dist, i, q, ok)
    case Reported(r, i, ok) => Report(w, r, i, ok)
    case Restarted(r, i, ok) => RestartTrips(w, r, i, ok)
    case Stop(id, r, i, ok) => if id in w.ad.trips then StopTrip(w, id, r, i, ok) else w
  }

  function Run(steps: seq<Step>): World {
    if steps == [] then INITIAL else Execute(Run(steps[..|steps| - 1]), steps[|steps| - 1])
  }

  // ---------------------------------------------------------------------------
  // Exact accounting
  // ---------------------------------------------------------------------------

  function Travelled(w: World, id: nat): int
    requires id in w.joined
  {
    w.odo - w.joined[id]
  }

  ghost predicate Sane(w: World) {
    && w.base <= w.odo
    && forall id :: id in w.ad.trips ==> id in w.joined && w.joined[id] <= w.odo
  }

  /** Restart base plus engine counter less join counter is the distance travelled since the
      trip joined, in 32-bit arithmetic. */
  ghost predicate Exact(w: World) {
    Sane(w) && forall id :: id in w.ad.trips ==> Accounted(w.ad.trips[id], Counter(w)) == U32(Travelled(w, id))
  }

  lemma ModEq(a: int, b: int)
    ensures U32(a) == U32(b) <==> U32(a - b) == 0
  {
  }

  lemma ModInner(a: int, b: int)
    ensures U32(a + U32(b)) == U32(a + b)
  {
  }

  /** What exactness asks of one trip, with the odometer taken out. */
  predicate Anchored(t: Trip, base: nat, joined: nat) {
    U32(t.onRestart - t.ongoingBatch - base + joined) == 0
  }

  lemma AccountedIs(t: Trip, x: int)
    ensures Accounted(t, U32(x)) == U32(t.onRestart - t.ongoingBatch + x)
  {
    ModInner(t.onRestart, U32(x) - t.ongoingBatch);
    ModInner(t.onRestart - t.ongoingBatch, x);
  }

  lemma AnchoredIff(t: Trip, w: World, joined: nat)
    ensures Accounted(t, Counter(w)) == U32(w.odo - joined) <==> Anchored(t, w.base, joined)
  {
    AccountedIs(t, w.odo - w.base);
    ModEq(t.onRestart - t.ongoingBatch + (w.odo - w.base), w.odo - joined);
  }

  ghost predicate AllAnchored(w: World) {
    Sane(w) && forall id :: id in w.ad.trips ==> Anchored(w.ad.trips[id], w.base, w.joined[id])
  }

  lemma ExactIffAnchored(w: World)
    ensures Exact(w) <==> AllAnchored(w)
  {
    if Sane(w) {
      forall id | id in w.ad.trips
        ensures Accounted(w.ad.trips[id], Counter(w)) == U32(Travelled(w, id))
                <==> Anchored(w.ad.trips[id], w.base, w.joined[id])
      {
        AnchoredIff(w.ad.trips[id], w, w.joined[id]);
      }
    }
  }

  /** A trip that starts over at the current odometer, credited with `credit`, is anchored iff
      the credit is the distance it travelled. */
  lemma RebasedAnchor(credit: uint32, odo: nat, joined: nat)
    ensures U32(credit - 0 - odo + joined) == 0 <==> credit == U32(odo - joined)
  {
    ModEq(credit, odo - joined);
  }

  lemma RestartKeepsAnchors(w: World, r: uint32, i: uint32, ok: bool)
    requires AllAnchored(w)
    ensures AllAnchored(RestartTrips(w, r, i, ok))
  {
    var w' := RestartTrips(w, r, i, ok);
    forall id | id in w'.ad.trips ensures Anchored(w'.ad.trips[id], w'.base, w'.joined[id]) {
      var t := w.ad.trips[id];
      AnchoredIff(t, w, w.joined[id]);
      RebasedAnchor(Accounted(t, Counter(w)), w.odo, w.joined[id]);
    }
  }

  lemma ReportKeepsAnchors(w: World, r: uint32, i: uint32, ok: bool)
    requires AllAnchored(w)
    ensures AllAnchored(Report(w, r, i, ok))
  {
    var w' := Gone(w);
    assert AllAnchored(w');
    RestartKeepsAnchors(w', r, i, ok);
  }

  lemma StopKeepsAnchors(w: World, id: nat, r: uint32, i: uint32, ok: bool)
    requires AllAnchored(w) && id in w.ad.trips
    ensures AllAnchored(StopTrip(w, id, r, i, ok))
  {
    var w' := Without(w, id);
    assert AllAnchored(w');
    RestartKeepsAnchors(w', r, i, ok);
  }

  lemma EnterKeepsAnchors(w: World, id: nat, distance: uint32, interval: uint32)
    requires AllAnchored(w)
    ensures AllAnchored(Enter(w, id, distance, interval))
  {
    var t := Trip(Counter(w), 0, 0, distance, interval);
    AnchoredIff(t, w, w.odo);
    AccountedIs(t, w.odo - w.base);
    ModInner(-(w.odo - w.base), w.odo - w.base);
    assert Accounted(t, Counter(w)) == 0;
  }

  /** A join after the first that makes the engine restart: for a shorter interval, or for a distance
      shorter than what the engine has left, or than its whole distance if the query failed. */
  predicate ForcesRestart(w: World, s: Step) {
    && s.Join? && w.ad.trips != map[]
    && (s.interval < w.ad.ongoingInterval
        || s.distance < if s.queried then U32(w.ad.ongoingDistance - Counter(w)) else w.ad.ongoingDistance)
  }

  lemma ForcesRestartIff(w: World, s: Step)
    requires s.Join? && w.ad.trips != map[]
    ensures ForcesRestart(w, s) <==> JoinDecision(w.ad, s.distance, s.interval, s.queried, Counter(w)).restart
  {
  }

  function Entered(w: World, s: Step): World
    requires s.Join?
  {
    if s.queried then Enter(w, s.id, s.distance, s.interval) else w
  }

  /** A join after the first in two moves: the trip enters, then the trips forget. */
  lemma LaterJoinIs(w: World, s: Step)
    requires s.Join? && w.ad.trips != map[]
    ensures var w' := Execute(w, s);
            if ForcesRestart(w, s) then
              && w'.ad.trips == Forget(Entered(w, s).ad.trips) && w'.joined == Entered(w, s).joined
              && w'.odo == w.odo && w'.base == if s.ok then w.odo else w.base
            else w' == Entered(w, s)
  {
    ForcesRestartIff(w, s);
  }

  lemma JoinKeepsExact(w: World, s: Step)
    requires AllAnchored(w) && s.Join? && !ForcesRestart(w, s)
    ensures AllAnchored(Execute(w, s))
  {
    if w.ad.trips == map[] {
      RebasedAnchor(0, w.odo, w.odo);
    } else {
      LaterJoinIs(w, s);
      EnterKeepsAnchors(w, s.id, s.distance, s.interval);
    }
  }

  lemma ExecuteKeepsExact(w: World, s: Step)
    requires Exact(w) && !ForcesRestart(w, s)
    ensures Exact(Execute(w, s))
  {
    ExactIffAnchored(w);
    match s {
      case Move(d) =>
      case Join(_, _, _, _, _) => JoinKeepsExact(w, s);
      case Reported(r, i, ok) => ReportKeepsAnchors(w, r, i, ok);
      case Restarted(r, i, ok) => RestartKeepsAnchors(w, r, i, ok);
      case Stop(id, r, i, ok) => if id in w.ad.trips { StopKeepsAnchors(w, id, r, i, ok); }
    }
    ExactIffAnchored(Execute(w, s));
  }

  /** In every run in which no join forces a restart the accounting stays exact, whether the
      restarts of reports and stops succeed or fail, and across 32-bit wrap-around. */
  lemma {:induction false} RunsAreExact(steps: seq<Step>)
    requires forall k :: 0 <= k < |steps| ==> !ForcesRestart(Run(steps[..k]), steps[k])
    ensures Exact(Run(steps))
  {
    if steps != [] {
      var before := steps[..|steps| - 1];
      forall k | 0 <= k < |before| ensures !ForcesRestart(Run(before[..k]), before[k]) {
        assert before[..k] == steps[..k];
      }
      RunsAreExact(before);
      ExecuteKeepsExact(Run(before), steps[|steps| - 1]);
    }
  }

  /** A report drops a trip iff its accounted distance has reached the trip's, and leaves every
      other trip's distance up to date, whatever becomes of the restart that follows. */
  lemma ReportTrips(w: World, r: uint32, i: uint32, ok: bool, id: nat)
    requires id in w.ad.trips
    ensures var trips := Report(w, r, i, ok).ad.trips;
            && (id in trips <==> !Completes(w.ad.trips[id], Counter(w)))
            && (id in trips ==> trips[id].thisTrip == Accounted(w.ad.trips[id], Counter(w)))
  {
    var c := Counter(w);
    var kept := AfterReport(w.ad.trips, c);
    assert id in kept ==> Accounted(kept[id], c) == Accounted(w.ad.trips[id], c);
    assert id in kept ==> id in Rebase(kept, c) && Rebase(kept, c)[id].thisTrip == Accounted(kept[id], c);
  }

  /** With exact accounting a report drops exactly the trips whose distance travelled, as a 32-bit
      number, has reached their own: below 2^32, exactly those that have travelled it. */
  lemma ReportDropsFinishedTrips(w: World, r: uint32, i: uint32, ok: bool, id: nat)
    requires Exact(w) && id in w.ad.trips
    ensures var trips := Report(w, r, i, ok).ad.trips;
            && (id in trips <==> U32(Travelled(w, id)) < w.ad.trips[id].distance)
            && (id in trips ==> trips[id].thisTrip == U32(Travelled(w, id)))
    ensures Travelled(w, id) < RANGE ==> U32(Travelled(w, id)) == Travelled(w, id)
  {
    ReportTrips(w, r, i, ok, id);
    if Travelled(w, id) < RANGE {
      SmallIsItself(Travelled(w, id));
    }
  }

  lemma SmallIsItself(x: int)
    requires 0 <= x < RANGE
    ensures U32(x) == x
  {
  }

  // ---------------------------------------------------------------------------
  // Joins that force a restart
  // ---------------------------------------------------------------------------

  /** Every trip's last reported distance is the one it has now. */
  predicate UpToDate(w: World) {
    forall id :: id in w.ad.trips ==> w.ad.trips[id].thisTrip == Accounted(w.ad.trips[id], Counter(w))
  }

  /** Where a forced restart leaves the trips. */
  lemma ForcedJoin(w: World, s: Step)
    requires ForcesRestart(w, s) && s.id !in w.ad.trips
    ensures var w' := Execute(w, s);
            && w'.odo == w.odo && w'.base == (if s.ok then w.odo else w.base)
            && w'.ad.trips.Keys == w.ad.trips.Keys + (if s.queried then {s.id} else {})
            && (forall id :: id in w.ad.trips ==>
                w'.ad.trips[id].onRestart == w.ad.trips[id].thisTrip && w'.ad.trips[id].ongoingBatch == 0
                && (id in w.joined ==> id in w'.joined && w'.joined[id] == w.joined[id]))
            && (s.queried ==> w'.ad.trips[s.id].onRestart == w'.ad.trips[s.id].ongoingBatch == 0
                              && s.id in w'.joined && w'.joined[s.id] == w.odo)
  {
    LaterJoinIs(w, s);
  }

  /** The engine and all trips start over; new trips have just joined. */
  lemma StartedOverExactIff(w: World, w': World)
    requires Exact(w) && w'.odo == w'.base == w.odo && w.ad.trips.Keys <= w'.ad.trips.Keys
    requires forall id :: id in w'.ad.trips ==> id in w'.joined && w'.ad.trips[id].ongoingBatch == 0
    requires forall id :: id in w.ad.trips ==>
               w'.ad.trips[id].onRestart == w.ad.trips[id].thisTrip && w'.joined[id] == w.joined[id]
    requires forall id :: id in w'.ad.trips && id !in w.ad.trips ==>
               w'.ad.trips[id].onRestart == 0 && w'.joined[id] == w.odo
    ensures Exact(w') <==> UpToDate(w)
  {
    ExactIffAnchored(w');
    forall id | id in w.ad.trips
      ensures Anchored(w'.ad.trips[id], w'.base, w'.joined[id]) <==> w.ad.trips[id].thisTrip == U32(Travelled(w, id))
    {
      RebasedAnchor(w.ad.trips[id].thisTrip, w.odo, w.joined[id]);
    }
    RebasedAnchor(0, w.odo, w.odo);
  }

  /** With a successful restart the join keeps exactness iff every trip that was running had been
      brought up to date at the very odometer of the join. */
  lemma JoinRestartExactIff(w: World, s: Step)
    requires Exact(w) && ForcesRestart(w, s) && s.ok && s.id !in w.ad.trips
    ensures Exact(Execute(w, s)) <==> UpToDate(w)
  {
    ForcedJoin(w, s);
    StartedOverExactIff(w, Execute(w, s));
  }

  /** All trips start over while the engine goes on; `id` has just joined. */
  lemma CountedOnExactIff(w: World, w': World, id: nat)
    requires Exact(w) && w'.odo == w.odo && w'.base == w.base
    requires id !in w.ad.trips && w'.ad.trips.Keys == w.ad.trips.Keys + {id}
    requires forall x :: x in w'.ad.trips ==> x in w'.joined && w'.ad.trips[x].ongoingBatch == 0
    requires forall x :: x in w.ad.trips ==>
               w'.ad.trips[x].onRestart == w.ad.trips[x].thisTrip && w'.joined[x] == w.joined[x]
    requires w'.ad.trips[id].onRestart == 0 && w'.joined[id] == w.odo
    ensures Exact(w') <==> Counter(w) == 0 && UpToDate(w)
  {
    var c := Counter(w);
    forall x | x in w'.ad.trips
      ensures c == 0 ==> Accounted(w'.ad.trips[x], c) == w'.ad.trips[x].onRestart
    {
      CountsFromZero(w'.ad.trips[x], c);
    }
    CountsFromZero(w'.ad.trips[id], c);
    assert Travelled(w', id) == 0;
    assert forall x :: x in w.ad.trips ==> x in w'.ad.trips && Travelled(w', x) == Travelled(w, x);
  }

  /** The trip's last reported distance is the one it is credited with when the counter shows zero. */
  predicate ReportedAtZero(t: Trip) {
    t.thisTrip == Accounted(t, 0)
  }

  lemma ForgottenAnchor(t: Trip, base: nat, joined: nat)
    requires Anchored(t, base, joined)
    ensures Anchored(t.(ongoingBatch := 0, onRestart := t.thisTrip), base, joined) <==> ReportedAtZero(t)
  {
    AccountedIs(t, 0);
    ModEq(t.thisTrip - base + joined, t.onRestart - t.ongoingBatch - base + joined);
    ModEq(t.thisTrip, t.onRestart - t.ongoingBatch);
  }

  /** All trips start over while the engine goes on; nobody has joined. */
  lemma ForgottenExactIff(w: World, w': World)
    requires Exact(w) && w' == w.(ad := w'.ad) && w'.ad.trips == Forget(w.ad.trips)
    ensures Exact(w') <==> forall id :: id in w.ad.trips ==> ReportedAtZero(w.ad.trips[id])
  {
    ExactIffAnchored(w);
    ExactIffAnchored(w');
    forall id | id in w.ad.trips
      ensures Anchored(w'.ad.trips[id], w'.base, w'.joined[id]) <==> ReportedAtZero(w.ad.trips[id])
    {
      ForgottenAnchor(w.ad.trips[id], w.base, w.joined[id]);
    }
    assert w'.ad.trips.Keys == w.ad.trips.Keys;
  }

  /** With a failed restart the counter goes on while every trip counts from zero. If the query gave
      the counter, the join keeps exactness iff, besides, the counter stands at zero. If the query
      failed too, nobody joins, and it does iff every trip stands at what it has at counter zero. */
  lemma FailedJoinRestartExactIff(w: World, s: Step)
    requires Exact(w) && ForcesRestart(w, s) && !s.ok && s.id !in w.ad.trips
    ensures Exact(Execute(w, s)) <==>
            if s.queried then Counter(w) == 0 && UpToDate(w)
            else forall id :: id in w.ad.trips ==> ReportedAtZero(w.ad.trips[id])
  {
    if s.queried {
      ForcedJoin(w, s);
      CountedOnExactIff(w, Execute(w, s), s.id);
    } else {
      ForgottenExactIff(w, Execute(w, s));
    }
  }

  lemma CountsFromZero(t: Trip, c: uint32)
    requires t.ongoingBatch == 0
    ensures c == 0 ==> Accounted(t, c) == t.onRestart
    ensures t.onRestart == 0 ==> Accounted(t, c) == c
  {
  }

  /** One trip of 1000, whose last report said `reported`, has travelled 100 since it joined. */
  function Example(reported: uint32): World {
    World(Adapter(map[1 := Trip(0, reported, 0, 1000, 60)], 1000, 60, false, false), 100, 0, map[1 := 0])
  }

  lemma ExampleFacts(reported: uint32, ok: bool)
    ensures var w := Example(reported);
            Exact(w) && Counter(w) == 100 && ForcesRestart(w, Join(2, 500, 30, true, ok))
  {
    assert 1 in Example(reported).ad.trips;
  }

  /** What a forced join whose restart fails credits: to the running trips the counter on top of
      their last report, to the new one the counter alone. */
  lemma FailedJoinCredits(w: World, s: Step)
    requires ForcesRestart(w, s) && !s.ok && s.queried && s.id !in w.ad.trips
    ensures var w', c := Execute(w, s), Counter(w);
            && Counter(w') == c && s.id in w'.ad.trips && Accounted(w'.ad.trips[s.id], c) == c
            && forall id :: id in w.ad.trips ==>
                 id in w'.ad.trips && Accounted(w'.ad.trips[id], c) == U32(w.ad.trips[id].thisTrip + c)
  {
    var w', c := Execute(w, s), Counter(w);
    ForcedJoin(w, s);
    forall id | id in w'.ad.trips ensures Accounted(w'.ad.trips[id], c) == U32(w'.ad.trips[id].onRestart + c) {
      SmallIsItself(c);
    }
    SmallIsItself(c);
  }

  /** A failed forced restart over-counts: a trip of 500 that joins is credited 100 at once, and
      the 100 of the first trip is counted twice. */
  lemma FailedJoinRestartOvercounts()
    ensures var w := Example(100);
            var w' := Execute(w, Join(2, 500, 30, true, false));
            && Exact(w) && 2 in w'.joined && Travelled(w', 2) == 0 && 1 in w'.ad.trips && 2 in w'.ad.trips
            && Accounted(w'.ad.trips[2], Counter(w')) == 100 && Accounted(w'.ad.trips[1], Counter(w')) == 200
  {
    var s := Join(2, 500, 30, true, false);
    ExampleFacts(100, false);
    FailedJoinCredits(Example(100), s);
    LaterJoinIs(Example(100), s);
    assert 1 in Example(100).ad.trips;
  }

  /** What a forced join whose restart succeeds credits: to the running trips their last report, to the
      new one nothing. */
  lemma ForcedJoinCredits(w: World, s: Step)
    requires ForcesRestart(w, s) && s.ok && s.id !in w.ad.trips
    ensures var w' := Execute(w, s);
            && Counter(w') == 0 && (s.queried ==> s.id in w'.ad.trips && Accounted(w'.ad.trips[s.id], 0) == 0)
            && forall id :: id in w.ad.trips ==>
                 id in w'.ad.trips && Accounted(w'.ad.trips[id], 0) == w.ad.trips[id].thisTrip
  {
    var w' := Execute(w, s);
    ForcedJoin(w, s);
    forall id | id in w'.ad.trips ensures Accounted(w'.ad.trips[id], 0) == w'.ad.trips[id].onRestart {
      CountsFromZero(w'.ad.trips[id], 0);
    }
  }

  /** A successful one under-counts: the 100 travelled since the last report is lost. */
  lemma JoinRestartUndercounts()
    ensures var w := Example(0);
            var w' := Execute(w, Join(2, 500, 30, true, true));
            && Exact(w) && 1 in w'.joined && Travelled(w', 1) == 100 && 1 in w'.ad.trips
            && Accounted(w'.ad.trips[1], Counter(w')) == 0
  {
    var s := Join(2, 500, 30, true, true);
    ExampleFacts(0, true);
    ForcedJoinCredits(Example(0), s);
    LaterJoinIs(Example(0), s);
    assert 1 in Example(0).ad.trips;
  }

  // ---------------------------------------------------------------------------
  // Never too early
  // ---------------------------------------------------------------------------

  /** No trip is credited, now or at its last report, with more than it travelled. */
  ghost predicate Modest(w: World) {
    && Sane(w)
    && forall id :: id in w.ad.trips ==>
         var t := w.ad.trips[id];
         Accounted(t, Counter(w)) <= Travelled(w, id) && t.thisTrip <= Travelled(w, id)
  }

  lemma ModRises(a: int, d: nat)
    ensures U32(a + d) <= U32(a) + d
  {
  }

  /** A counter that goes on by d adds at most d to a trip, wrap-around or not. */
  lemma MoveAccounts(t: Trip, x: int, d: nat)
    ensures Accounted(t, U32(x + d)) <= Accounted(t, U32(x)) + d
  {
    AccountedIs(t, x);
    AccountedIs(t, x + d);
    ModRises(t.onRestart - t.ongoingBatch + x, d);
  }

  lemma MoveKeepsModest(w: World, d: nat)
    requires Modest(w)
    ensures Modest(Execute(w, Move(d)))
  {
    var w' := Execute(w, Move(d));
    forall id | id in w.ad.trips ensures Accounted(w.ad.trips[id], Counter(w')) <= Travelled(w', id) {
      MoveAccounts(w.ad.trips[id], w.odo - w.base, d);
    }
  }

  /** A trip that counts from zero, with the engine at zero, is credited with its base. */
  lemma RebasedCredit(t: Trip, c: uint32)
    ensures var t' := t.(ongoingBatch := 0, thisTrip := Accounted(t, c), onRestart := Accounted(t, c));
            Accounted(t', 0) == t'.thisTrip == Accounted(t, c)
  {
    CountsFromZero(t.(ongoingBatch := 0, thisTrip := Accounted(t, c), onRestart := Accounted(t, c)), 0);
  }

  lemma RebasedStayModest(w: World, w': World)
    requires Modest(w) && w'.odo == w'.base == w.odo && w'.joined == w.joined
    requires w'.ad.trips == Rebase(w.ad.trips, Counter(w))
    ensures Modest(w')
  {
    forall id | id in w'.ad.trips
      ensures Accounted(w'.ad.trips[id], Counter(w')) == w'.ad.trips[id].thisTrip
              == Accounted(w.ad.trips[id], Counter(w))
    {
      RebasedCredit(w.ad.trips[id], Counter(w));
    }
  }

  lemma RestartKeepsModest(w: World, r: uint32, i: uint32, ok: bool)
    requires Modest(w)
    ensures Modest(RestartTrips(w, r, i, ok))
  {
    if w.ad.trips != map[] && Decide(w.ad, r, i, Counter(w)).restart && ok {
      RebasedStayModest(w, RestartTrips(w, r, i, ok));
    }
  }

  lemma UpdatedCredit(t: Trip, c: uint32)
    ensures Accounted(Update(t, c), c) == Update(t, c).thisTrip == Accounted(t, c)
  {
  }

  /** Trips that stay, brought up to date. */
  lemma UpdatedStayModest(w: World, w': World)
    requires Modest(w) && w' == w.(ad := w'.ad)
    requires forall id :: id in w'.ad.trips ==>
               id in w.ad.trips && w'.ad.trips[id] == Update(w.ad.trips[id], Counter(w))
    ensures Modest(w')
  {
    var c := Counter(w);
    assert Counter(w') == c;
    forall id | id in w'.ad.trips
      ensures Accounted(w'.ad.trips[id], c) == w'.ad.trips[id].thisTrip == Accounted(w.ad.trips[id], c)
    {
      UpdatedCredit(w.ad.trips[id], c);
    }
  }

  lemma ReportKeepsModest(w: World, r: uint32, i: uint32, ok: bool)
    requires Modest(w)
    ensures Modest(Report(w, r, i, ok))
  {
    var w' := Gone(w);
    UpdatedStayModest(w, w');
    RestartKeepsModest(w', r, i, ok);
  }

  lemma StopKeepsModest(w: World, id: nat, r: uint32, i: uint32, ok: bool)
    requires Modest(w) && id in w.ad.trips
    ensures Modest(StopTrip(w, id, r, i, ok))
  {
    var w' := Without(w, id);
    assert Modest(w');
    RestartKeepsModest(w', r, i, ok);
  }

  lemma EnterKeepsModest(w: World, id: nat, distance: uint32, interval: uint32)
    requires Modest(w)
    ensures Modest(Enter(w, id, distance, interval))
  {
    assert Accounted(Trip(Counter(w), 0, 0, distance, interval), Counter(w)) == 0;
  }

  lemma ForgetKeepsModest(w: World, w': World)
    requires Modest(w) && w'.ad.trips == Forget(w.ad.trips)
    requires w'.odo == w'.base == w.odo && w'.joined == w.joined
    ensures Modest(w')
  {
    forall id | id in w'.ad.trips ensures Accounted(w'.ad.trips[id], Counter(w')) == w.ad.trips[id].thisTrip {
      CountsFromZero(w'.ad.trips[id], 0);
    }
  }

  lemma FirstJoinKeepsModest(w: World, s: Step)
    requires Modest(w) && s.Join? && w.ad.trips == map[]
    ensures Modest(Execute(w, s))
  {
    assert Accounted(Trip(0, 0, 0, s.distance, s.interval), 0) == 0;
  }

  lemma JoinKeepsModest(w: World, s: Step)
    requires Modest(w) && s.Join? && (ForcesRestart(w, s) ==> s.ok)
    ensures Modest(Execute(w, s))
  {
    if w.ad.trips == map[] {
      FirstJoinKeepsModest(w, s);
    } else {
      LaterJoinIs(w, s);
      EnterKeepsModest(w, s.id, s.distance, s.interval);
      if ForcesRestart(w, s) {
        ForgetKeepsModest(Entered(w, s), Execute(w, s));
      }
    }
  }

  lemma ExecuteKeepsModest(w: World, s: Step)
    requires Modest(w) && (ForcesRestart(w, s) ==> s.ok)
    ensures Modest(Execute(w, s))
  {
    match s {
      case Move(d) => MoveKeepsModest(w, d);
      case Join(_, _, _, _, _) => JoinKeepsModest(w, s);
      case Reported(r, i, ok) => ReportKeepsModest(w, r, i, ok);
      case Restarted(r, i, ok) => RestartKeepsModest(w, r, i, ok);
      case Stop(id, r, i, ok) => if id in w.ad.trips { StopKeepsModest(w, id, r, i, ok); }
    }
  }

  /** In every run whose forced join restarts succeed no trip is ever credited more than it
      travelled, however far that is. */
  lemma {:induction false} RunsNeverOvercount(steps: seq<Step>)
    requires forall k :: 0 <= k < |steps| && ForcesRestart(Run(steps[..k]), steps[k]) ==> steps[k].ok
    ensures Modest(Run(steps))
  {
    if steps != [] {
      var before := steps[..|steps| - 1];
      forall k | 0 <= k < |before| && ForcesRestart(Run(before[..k]), before[k]) ensures before[k].ok {
        assert before[..k] == steps[..k];
      }
      RunsNeverOvercount(before);
      ExecuteKeepsModest(Run(before), steps[|steps| - 1]);
    }
  }

  /** So no report completes a trip before it has travelled its distance. */
  lemma NeverTooEarly(w: World, r: uint32, i: uint32, ok: bool, id: nat)
    requires Modest(w) && id in w.ad.trips
    ensures id !in Report(w, r, i, ok).ad.trips ==> w.ad.trips[id].distance <= Travelled(w, id)
  {
    ReportTrips(w, r, i, ok, id);
  }

  // ---------------------------------------------------------------------------
  // In time
  // ---------------------------------------------------------------------------

  /** What the trip has left when the counter shows `c`. */
  function Left(t: Trip, c: uint32): int {
    t.distance - Accounted(t, c)
  }

  /** The engine reports when its counter reaches the ongoing distance: not after some trip has
      travelled its own distance. */
  ghost predicate Timely(w: World) {
    forall id :: id in w.ad.trips ==> w.ad.ongoingDistance - Counter(w) <= Left(w.ad.trips[id], Counter(w))
  }

  /** The trips are all up to date and none has completed. */
  ghost predicate Settled(w: World) {
    forall id :: id in w.ad.trips ==>
      w.ad.trips[id].thisTrip == Accounted(w.ad.trips[id], Counter(w)) < w.ad.trips[id].distance
  }

  /** The engine's target is still ahead and no trip ends before it, but the interval changes. */
  predicate IntervalOnly(ad: Adapter, r: uint32, i: uint32, c: uint32) {
    && !ad.distanceDropped && 0 < U32(ad.ongoingDistance - c) <= r
    && (i < ad.ongoingInterval || (i != ad.ongoingInterval && ad.intervalDropped))
  }

  /** A restart takes nothing from what a trip has left. */
  lemma RestartKeepsLeft(w: World, r: uint32, i: uint32, id: nat)
    requires Settled(w) && id in w.ad.trips
    ensures var w' := RestartTrips(w, r, i, true);
            id in w'.ad.trips && Left(w'.ad.trips[id], Counter(w')) == Remaining(w.ad.trips[id]) > 0
  {
    var t, w' := w.ad.trips[id], RestartTrips(w, r, i, true);
    SmallIsItself(t.distance - t.thisTrip);
    if Decide(w.ad, r, i, Counter(w)).restart {
      assert w'.ad.trips == Rebase(w.ad.trips, Counter(w));
      CountsFromZero(w'.ad.trips[id], 0);
    }
  }

  /** How far the engine is from its next report after what was decided. */
  lemma DecidedTarget(ad: Adapter, r: uint32, i: uint32, c: uint32)
    requires r > 0
    ensures var d := Decide(ad, r, i, c);
            (if d.restart then d.distance else ad.ongoingDistance - c) <= r
            <==> !(IntervalOnly(ad, r, i, c) && r < ad.ongoingDistance)
  {
    assert ad.ongoingDistance - c <= U32(ad.ongoingDistance - c);
  }

  lemma TargetAfterRestart(w: World, r: uint32, i: uint32)
    requires w.ad.trips != map[] && r > 0
    ensures var w' := RestartTrips(w, r, i, true);
            w'.ad.ongoingDistance - Counter(w') <= r
            <==> !(IntervalOnly(w.ad, r, i, Counter(w)) && r < w.ad.ongoingDistance)
  {
    var w', d := RestartTrips(w, r, i, true), Decide(w.ad, r, i, Counter(w));
    DecidedTarget(w.ad, r, i, Counter(w));
    assert if d.restart then w'.ad.ongoingDistance == d.distance && Counter(w') == 0 else w' == w;
  }

  /** A successful restart aims the engine at the first trip to complete, except in one case: a
      restart for the interval alone counts the whole ongoing distance again from zero, and is late
      unless every trip has that much left. */
  lemma RestartIsTimelyIff(w: World, r: uint32, i: uint32)
    requires Settled(w) && w.ad.trips != map[] && SmallestOf(w.ad.trips, r, i)
    ensures Timely(RestartTrips(w, r, i, true))
            <==> !(IntervalOnly(w.ad, r, i, Counter(w)) && r < w.ad.ongoingDistance)
  {
    var w' := RestartTrips(w, r, i, true);
    forall id | id in w.ad.trips
      ensures id in w'.ad.trips && Left(w'.ad.trips[id], Counter(w')) == Remaining(w.ad.trips[id]) > 0
    {
      RestartKeepsLeft(w, r, i, id);
    }
    TargetAfterRestart(w, r, i);
    assert w'.ad.trips.Keys == w.ad.trips.Keys;
    var first :| first in w.ad.trips && Remaining(w.ad.trips[first]) == r;
    assert first in w'.ad.trips;
  }

  /** A trip of 1000 that has travelled 900, when a trip at a shorter interval completes. */
  function LateExample(): World {
    World(Adapter(map[1 := Trip(0, 900, 0, 1000, 60)], 1000, 30, true, false), 900, 0, map[1 := 0])
  }

  lemma OneTripIsSmallest(t: Trip)
    ensures SmallestOf(map[1 := t], Remaining(t), t.interval)
  {
    var trips := map[1 := t];
    assert 1 in trips && trips[1] == t;
  }

  lemma OneTripIsSettled(w: World, t: Trip)
    requires w.ad.trips == map[1 := t] && w.base == 0
    requires t.ongoingBatch == t.onRestart == 0 && t.thisTrip == w.odo < t.distance
    ensures Settled(w) && Counter(w) == w.odo
  {
    SmallIsItself(w.odo);
    CountsFromZero(t, Counter(w));
    assert forall id :: id in w.ad.trips ==> id == 1;
  }

  lemma LateForOneTrip(w: World, t: Trip)
    requires Settled(w) && w.ad.trips == map[1 := t]
    requires IntervalOnly(w.ad, Remaining(t), t.interval, Counter(w)) && Remaining(t) < w.ad.ongoingDistance
    ensures SmallestOf(w.ad.trips, Remaining(t), t.interval)
    ensures !Timely(RestartTrips(w, Remaining(t), t.interval, true))
  {
    OneTripIsSmallest(t);
    assert 1 in w.ad.trips;
    RestartIsTimelyIff(w, Remaining(t), t.interval);
  }

  /** The engine is restarted for another 1000, though the trip has 100 left. */
  lemma IntervalRestartComesLate()
    ensures var w := LateExample();
            Settled(w) && SmallestOf(w.ad.trips, 100, 60) && !Timely(RestartTrips(w, 100, 60, true))
  {
    var t := Trip(0, 900, 0, 1000, 60);
    OneTripIsSettled(LateExample(), t);
    assert Remaining(t) == 100;
    LateForOneTrip(LateExample(), t);
  }

  // ---------------------------------------------------------------------------
  // Which trips run, and on which terms
  // ---------------------------------------------------------------------------

  /** The join takes effect: the first needs the engine, a later one the answer to its query. */
  predicate Enters(w: World, s: Step) {
    s.Join? && if w.ad.trips == map[] then s.ok else s.queried
  }

  datatype Terms = Terms(distance: uint32, interval: uint32)

  function TermsOf(t: Trip): Terms {
    Terms(t.distance, t.interval)
  }

  /** What a trip's latest join that took effect asked for. */
  function AskedFor(steps: seq<Step>, id: nat): Terms {
    if steps == [] then Terms(0, 0)
    else
      var before, s := steps[..|steps| - 1], steps[|steps| - 1];
      if s.Join? && s.id == id && Enters(Run(before), s) then Terms(s.distance, s.interval) else AskedFor(before, id)
  }

  /** A step adds the trip of a join that takes effect, and takes out the trip of a stop and the trips
      that a report completes; no other trip comes or goes, or changes its terms. */
  ghost predicate TripsAfter(w: World, s: Step, id: nat) {
    var trips, trips' := w.ad.trips, Execute(w, s).ad.trips;
    && (id in trips' <==>
        || (Enters(w, s) && s.id == id)
        || (id in trips && !(s.Stop? && s.id == id) && !(s.Reported? && Completes(trips[id], Counter(w)))))
    && (id in trips' ==>
          if Enters(w, s) && s.id == id then TermsOf(trips'[id]) == Terms(s.distance, s.interval)
          else id in trips && TermsOf(trips'[id]) == TermsOf(trips[id]))
  }

  lemma RestartKeepsTerms(w: World, r: uint32, i: uint32, ok: bool, id: nat)
    ensures var w' := RestartTrips(w, r, i, ok);
            && (id in w'.ad.trips <==> id in w.ad.trips)
            && (id in w.ad.trips ==> TermsOf(w'.ad.trips[id]) == TermsOf(w.ad.trips[id]))
  {
  }

  lemma JoinTrips(w: World, s: Step, id: nat)
    requires s.Join?
    ensures TripsAfter(w, s, id)
  {
    if w.ad.trips != map[] {
      LaterJoinIs(w, s);
    }
  }

  lemma ReportedTrips(w: World, s: Step, id: nat)
    requires s.Reported?
    ensures TripsAfter(w, s, id)
  {
    var w' := Gone(w);
    RestartKeepsTerms(w', s.minRemaining, s.minInterval, s.ok, id);
  }

  lemma StepTrips(w: World, s: Step, id: nat)
    ensures TripsAfter(w, s, id)
  {
    match s
    case Move(_) =>
    case Join(_, _, _, _, _) => JoinTrips(w, s, id);
    case Reported(_, _, _) => ReportedTrips(w, s, id);
    case Restarted(r, i, ok) => RestartKeepsTerms(w, r, i, ok, id);
    case Stop(x, r, i, ok) =>
      if x in w.ad.trips {
        RestartKeepsTerms(Without(w, x), r, i, ok, id);
      }
  }

  /** In every run each running trip has the distance and the interval that its join asked for. */
  lemma {:induction false} RunsKeepTerms(steps: seq<Step>, id: nat)
    ensures id in Run(steps).ad.trips ==> TermsOf(Run(steps).ad.trips[id]) == AskedFor(steps, id)
  {
    if steps != [] {
      var before := steps[..|steps| - 1];
      RunsKeepTerms(before, id);
      StepTrips(Run(before), steps[|steps| - 1], id);
    }
  }

  /** The last reported distance of a trip that goes on running: a report brings it up to date, and so
      does a restart of a report, a stop or `restartTripBatching` that the engine carries out; a join
      leaves it, and enters its own trip with none. */
  lemma LastReported(w: World, s: Step, id: nat)
    requires id in Execute(w, s).ad.trips
    ensures var t' := Execute(w, s).ad.trips[id];
            if Enters(w, s) && s.id == id then t'.thisTrip == 0
            else
              && id in w.ad.trips
              && var t := w.ad.trips[id];
                 if s.Reported? then t'.thisTrip == Accounted(t, Counter(w))
                 else if s.Move? || s.Join? then t'.thisTrip == t.thisTrip
                 else t' == t || t'.thisTrip == t'.onRestart == Accounted(t, Counter(w))
  {
    match s
    case Join(_, _, _, _, _) =>
      if w.ad.trips != map[] { LaterJoinIs(w, s); }
    case Reported(r, i, ok) =>
      StepTrips(w, s, id);
      ReportTrips(w, r, i, ok, id);
    case _ =>
  }

  // ---------------------------------------------------------------------------
  // What the engine is set to
  // ---------------------------------------------------------------------------

  function Min(a: int, b: int): int {
    if a < b then a else b
  }

  /** How far the engine is from its target. */
  function EngineLeft(w: World): uint32 {
    U32(w.ad.ongoingDistance - Counter(w))
  }

  /** After the first join the engine is set to its terms; after a later one it runs at the shorter
      interval, and to the nearer of the new trip's end and its target. Without an answer to the query,
      a restart goes to the nearer of the new distance and the whole old one. */
  lemma JoinSetsEngine(w: World, s: Step)
    requires s.Join? && s.ok
    ensures var w' := Execute(w, s);
            if w.ad.trips == map[] then
              w'.ad.ongoingInterval == s.interval && w'.ad.ongoingDistance == EngineLeft(w') == s.distance
            else
              && w'.ad.ongoingInterval == Min(s.interval, w.ad.ongoingInterval)
              && EngineLeft(w') == if s.queried then Min(s.distance, EngineLeft(w))
                                   else if ForcesRestart(w, s) then Min(s.distance, w.ad.ongoingDistance)
                                   else EngineLeft(w)
  {
    if w.ad.trips == map[] {
      SmallIsItself(s.distance);
    } else {
      LaterJoinSets(w, s);
      SmallIsItself(Execute(w, s).ad.ongoingDistance);
    }
  }

  lemma LaterJoinSets(w: World, s: Step)
    requires s.Join? && w.ad.trips != map[]
    ensures var ad, ad' := w.ad, Execute(w, s).ad;
            && ad'.ongoingInterval == Min(s.interval, ad.ongoingInterval)
            && ad'.ongoingDistance == (if !ForcesRestart(w, s) then ad.ongoingDistance
                                       else Min(s.distance, if s.queried then EngineLeft(w) else ad.ongoingDistance))
            && ad'.intervalDropped == ad.intervalDropped && ad'.distanceDropped == ad.distanceDropped
  {
  }

  lemma DecideSets(ad: Adapter, r: uint32, i: uint32, c: uint32)
    ensures var d, left := Decide(ad, r, i, c), U32(ad.ongoingDistance - c);
            && d.interval == (if i < ad.ongoingInterval || ad.intervalDropped then i else ad.ongoingInterval)
            && if (ad.distanceDropped || left == 0) && r != 0 then d.restart && d.distance == r
               else if !ad.distanceDropped && r < left then d.restart && d.distance == r
               else d.distance == ad.ongoingDistance && (d.restart <==> d.interval != ad.ongoingInterval)
  {
  }

  /** The engine's interval and how far it is from its target, after a restart that succeeds: the
      smallest interval if that is shorter, or the trip with the engine's has gone; and the smallest
      distance left if that is nearer than the target, or the trip with the target has gone, or the
      target is reached. Else the engine goes on to its target, but starts over for a new interval. */
  function NewSetting(ad: Adapter, left: uint32, intervalGone: bool, distanceGone: bool, r: uint32, i: uint32): Terms {
    var interval := if i < ad.ongoingInterval || intervalGone then i else ad.ongoingInterval;
    Terms(if (distanceGone || left == 0) && r != 0 then r
          else if !distanceGone && r < left then r
          else if interval == ad.ongoingInterval then left
          else ad.ongoingDistance,
          interval)
  }

  function Setting(w: World): Terms {
    Terms(EngineLeft(w), w.ad.ongoingInterval)
  }

  /** A restart that fails changes nothing. */
  lemma RestartSetsEngine(w: World, r: uint32, i: uint32, ok: bool)
    requires w.ad.trips != map[]
    ensures var w' := RestartTrips(w, r, i, ok);
            if !ok then w' == w
            else Setting(w') == NewSetting(w.ad, EngineLeft(w), w.ad.intervalDropped, w.ad.distanceDropped, r, i)
  {
    var d := Decide(w.ad, r, i, Counter(w));
    DecideSets(w.ad, r, i, Counter(w));
    SmallIsItself(d.distance);
    var w' := RestartTrips(w, r, i, ok);
    if d.restart && ok {
      assert w'.ad.ongoingDistance == d.distance && w'.ad.ongoingInterval == d.interval && Counter(w') == 0;
    } else {
      assert w' == w;
    }
  }

  /** A report that completes no trip leaves the engine alone; one that does restarts it for the trips
      that are left. */
  lemma ReportSetsEngine(w: World, r: uint32, i: uint32, ok: bool)
    ensures var w', c := Report(w, r, i, ok), Counter(w);
            if !AnyCompletes(w.ad.trips, c) || (AfterReport(w.ad.trips, c) != map[] && !ok)
            then Setting(w') == Setting(w) && w'.base == w.base
            else if AfterReport(w.ad.trips, c) == map[] then w'.ad.ongoingDistance == w'.ad.ongoingInterval == 0
            else Setting(w') == NewSetting(w.ad, EngineLeft(w), w.ad.intervalDropped || DropsInterval(w.ad, c),
                                           w.ad.distanceDropped || DropsDistance(w.ad, c), r, i)
  {
    var w' := Gone(w);
    if w'.ad.trips != map[] {
      RestartSetsEngine(w', r, i, ok);
    }
  }

  /** A stop always restarts the engine for the trips that are left. */
  lemma StopSetsEngine(w: World, id: nat, r: uint32, i: uint32, ok: bool)
    requires id in w.ad.trips
    ensures var w', t := StopTrip(w, id, r, i, ok), w.ad.trips[id];
            if w.ad.trips - {id} == map[] then w'.ad.ongoingDistance == w'.ad.ongoingInterval == 0
            else if !ok then Setting(w') == Setting(w) && w'.base == w.base
            else Setting(w') == NewSetting(w.ad, EngineLeft(w),
                                           w.ad.intervalDropped || t.interval == w.ad.ongoingInterval,
                                           w.ad.distanceDropped || t.distance == w.ad.ongoingDistance, r, i)
  {
    var w' := Without(w, id);
    if w'.ad.trips != map[] {
      RestartSetsEngine(w', r, i, ok);
    }
  }

  /** The flags say that a trip with the engine's interval, or distance, has gone: in a report or a
      stop, and never else. */
  lemma FlagsAfter(w: World, s: Step)
    ensures var w', trips := Execute(w, s), w.ad.trips;
            && w'.ad.intervalDropped == (w.ad.intervalDropped
                 || exists id :: id in trips && Goes(w, s, id) && trips[id].interval == w.ad.ongoingInterval)
            && w'.ad.distanceDropped == (w.ad.distanceDropped
                 || exists id :: id in trips && Goes(w, s, id) && trips[id].distance == w.ad.ongoingDistance)
  {
    match s
    case Join(_, _, _, _, _) => if w.ad.trips != map[] { LaterJoinSets(w, s); }
    case Reported(r, i, ok) => ReportFlags(w, r, i, ok);
    case _ =>
  }

  predicate Goes(w: World, s: Step, id: nat)
    requires id in w.ad.trips
  {
    (s.Stop? && s.id == id) || (s.Reported? && Completes(w.ad.trips[id], Counter(w)))
  }

  lemma ReportFlags(w: World, r: uint32, i: uint32, ok: bool)
    ensures var ad := Report(w, r, i, ok).ad;
            && ad.intervalDropped == (w.ad.intervalDropped || DropsInterval(w.ad, Counter(w)))
            && ad.distanceDropped == (w.ad.distanceDropped || DropsDistance(w.ad, Counter(w)))
  {
  }

  // ---------------------------------------------------------------------------
  // The adapter
  // ---------------------------------------------------------------------------

  class BatchingAdapter {
    var tripSessions: map<nat, Trip>
    var ongoingTripDistance: uint32
    var ongoingTripTBFInterval: uint32
    var tripWithOngoingTBFDropped: bool
    var tripWithOngoingTripDistanceDropped: bool
    ghost var odo: nat
    ghost var base: nat
    ghost var joined: map<nat, nat>

    constructor ()
      ensures View() == INITIAL
    {
      tripSessions, ongoingTripDistance, ongoingTripTBFInterval := map[], 0, 0;
      tripWithOngoingTBFDropped, tripWithOngoingTripDistanceDropped := false, false;
      odo, base, joined := 0, 0, map[];
    }

    ghost function View(): World
      reads this
    {
      World(Adapter(tripSessions, ongoingTripDistance, ongoingTripTBFInterval,
                    tripWithOngoingTBFDropped, tripWithOngoingTripDistanceDropped), odo, base, joined)
    }

    /** The smallest remaining distance and interval of the trips; zero stands for none seen yet. */
    method SmallestRemaining() returns (minRemaining: uint32, minInterval: uint32)
      requires tripSessions != map[]
      ensures SmallestOf(tripSessions, minRemaining, minInterval)
    {
      minRemaining, minInterval := 0, 0;
      ghost var seen: set<nat> := {};
      var todo := tripSessions.Keys;
      while todo != {}
        invariant todo <= tripSessions.Keys && seen == tripSessions.Keys - todo
        invariant if seen == {} then minRemaining == minInterval == 0 else
                    && (exists id :: id in seen && Remaining(tripSessions[id]) == minRemaining)
                    && (exists id :: id in seen && tripSessions[id].interval == minInterval)
        invariant (forall id :: id in tripSessions ==> Remaining(tripSessions[id]) != 0)
                  ==> forall id :: id in seen ==> 0 < minRemaining <= Remaining(tripSessions[id])
        invariant (forall id :: id in tripSessions ==> tripSessions[id].interval != 0)
                  ==> forall id :: id in seen ==> 0 < minInterval <= tripSessions[id].interval
        decreases todo
      {
        var id :| id in todo;
        todo, seen := todo - {id}, seen + {id};
        var t := tripSessions[id];
        if minRemaining == 0 || minRemaining > Remaining(t) {
          minRemaining := Remaining(t);
        }
        if minInterval == 0 || minInterval > t.interval {
          minInterval := t.interval;
        }
      }
      assert seen == tripSessions.Keys;
    }

    /** `restartTripBatching`; `accumulatedDistance` is what the engine's counter shows. */
    method RestartTripBatching(accumulatedDistance: uint32, ok: bool) returns (ghost r: uint32, ghost i: uint32)
      requires accumulatedDistance == Counter(View())
      modifies this
      ensures View() == RestartTrips(old(View()), r, i, ok)
      ensures old(tripSessions) != map[] ==> SmallestOf(old(tripSessions), r, i)
    {
      r, i := 0, 0;
      if tripSessions == map[] {
        ongoingTripDistance := 0;
        ongoingTripTBFInterval := 0;
        return;
      }
      var minRemaining, minInterval := SmallestRemaining();
      r, i := minRemaining, minInterval;
      var needsRestart, distance, interval := false, ongoingTripDistance, ongoingTripTBFInterval;
      if !tripWithOngoingTripDistanceDropped && U32(distance - accumulatedDistance) != 0 {
        if minRemaining < U32(distance - accumulatedDistance) {
          distance := minRemaining;
          needsRestart := true;
        }
      } else if minRemaining != 0 {
        distance := minRemaining;
        needsRestart := true;
      }
      if minInterval < interval || (minInterval != interval && tripWithOngoingTBFDropped) {
        interval := minInterval;
        needsRestart := true;
      }
      assert Decide(View().ad, minRemaining, minInterval, accumulatedDistance)
             == Decision(needsRestart, distance, interval);
      if needsRestart && ok {
        RebaseTrips(accumulatedDistance);
        base := odo;
        ongoingTripDistance := distance;
        ongoingTripTBFInterval := interval;
      }
    }

    method RebaseTrips(accumulatedDistance: uint32)
      modifies this`tripSessions
      ensures tripSessions == Rebase(old(tripSessions), accumulatedDistance)
    {
      ghost var before := tripSessions;
      var todo := tripSessions.Keys;
      while todo != {}
        invariant todo <= tripSessions.Keys == before.Keys
        invariant forall id :: id in todo ==> tripSessions[id] == before[id]
        invariant forall id :: id in before && id !in todo ==>
                    tripSessions[id] == Rebase(before, accumulatedDistance)[id]
        decreases todo
      {
        var id :| id in todo;
        todo := todo - {id};
        var t := tripSessions[id];
        t := t.(thisTrip := U32(t.onRestart + U32(accumulatedDistance - t.ongoingBatch)));
        t := t.(ongoingBatch := 0, onRestart := t.thisTrip);
        tripSessions := tripSessions[id := t];
      }
    }

    /** Brings every trip up to date and erases those that have completed; a trip is read before it is erased. */
    method EraseCompleted(accumulatedDistance: uint32) returns (completed: set<nat>)
      modifies this`tripSessions, this`tripWithOngoingTBFDropped, this`tripWithOngoingTripDistanceDropped
      ensures completed == set id | id in old(tripSessions) && Completes(old(tripSessions)[id], accumulatedDistance)
      ensures tripSessions == AfterReport(old(tripSessions), accumulatedDistance)
      ensures tripWithOngoingTBFDropped ==
              (old(tripWithOngoingTBFDropped) || DropsInterval(old(View().ad), accumulatedDistance))
      ensures tripWithOngoingTripDistanceDropped ==
              (old(tripWithOngoingTripDistanceDropped) || DropsDistance(old(View().ad), accumulatedDistance))
    {
      ghost var before, c := tripSessions, accumulatedDistance;
      completed := {};
      var todo := tripSessions.Keys;
      while todo != {}
        invariant todo <= before.Keys
        invariant completed == set id | id in before && id !in todo && Completes(before[id], c)
        invariant tripSessions.Keys == before.Keys - completed
        invariant forall id :: id in todo ==> tripSessions[id] == before[id]
        invariant forall id :: id in tripSessions && id !in todo ==> tripSessions[id] == Update(before[id], c)
        invariant tripWithOngoingTBFDropped ==
                  (old(tripWithOngoingTBFDropped)
                   || exists id :: id in completed && before[id].interval == ongoingTripTBFInterval)
        invariant tripWithOngoingTripDistanceDropped ==
                  (old(tripWithOngoingTripDistanceDropped)
                   || exists id :: id in completed && before[id].distance == ongoingTripDistance)
        decreases todo
      {
        var id :| id in todo;
        todo := todo - {id};
        var t := Update(tripSessions[id], accumulatedDistance);
        if t.distance <= t.thisTrip {
          completed := completed + {id};
          tripSessions := tripSessions - {id};
          if t.interval == ongoingTripTBFInterval {
            tripWithOngoingTBFDropped := true;
          }
          if t.distance == ongoingTripDistance {
            tripWithOngoingTripDistanceDropped := true;
          }
        } else {
          tripSessions := tripSessions[id := t];
        }
      }
    }

    /** `MsgReportCompletedTrips::proc` */
    method ReportCompletedTrips(accumulatedDistance: uint32, ok: bool)
      returns (completed: set<nat>, ghost r: uint32, ghost i: uint32)
      requires accumulatedDistance == Counter(View())
      modifies this
      ensures View() == Report(old(View()), r, i, ok)
      ensures completed != {} && AfterReport(old(tripSessions), accumulatedDistance) != map[]
              ==> SmallestOf(AfterReport(old(tripSessions), accumulatedDistance), r, i)
      ensures completed == set id | id in old(tripSessions) && Completes(old(tripSessions)[id], accumulatedDistance)
    {
      r, i := 0, 0;
      ghost var before := tripSessions;
      completed := EraseCompleted(accumulatedDistance);
      if id :| id in completed {
        assert id in before && Completes(before[id], accumulatedDistance);
      }
      assert forall id :: id in before && Completes(before[id], accumulatedDistance) ==> id in completed;
      if completed != {} {
        r, i := RestartTripBatching(accumulatedDistance, ok);
      }
    }

    /** `startTripBatchingMultiplex`: the first trip starts the engine, a later one may restart it. */
    method StartTripBatching(id: nat, minDistance: uint32, minInterval: uint32, queried: bool,
                             accumulatedDistance: uint32, ok: bool)
      requires queried ==> accumulatedDistance == Counter(View())
      modifies this
      ensures View() == Execute(old(View()), Join(id, minDistance, minInterval, queried, ok))
    {
      if tripSessions == map[] {
        tripSessions := tripSessions[id := Trip(0, 0, 0, minDistance, minInterval)];
        if ok {
          ongoingTripDistance := minDistance;
          ongoingTripTBFInterval := minInterval;
          base, joined := odo, joined[id := odo];
        } else {
          tripSessions := tripSessions - {id};
        }
        return;
      }
      JoinRunningTrips(id, minDistance, minInterval, queried, accumulatedDistance, ok);
    }

    /** Whether the engine must restart for a joining trip, and at what distance and interval. */
    method DecideJoin(minDistance: uint32, minInterval: uint32, queried: bool, accumulatedDistance: uint32)
      returns (needsRestart: bool, distance: uint32, interval: uint32)
      ensures Decision(needsRestart, distance, interval)
              == JoinDecision(View().ad, minDistance, minInterval, queried, accumulatedDistance)
    {
      needsRestart, distance, interval := false, ongoingTripDistance, ongoingTripTBFInterval;
      if interval > minInterval {
        interval := minInterval;
        needsRestart := true;
      }
      if !queried {
        if minDistance < distance {
          distance := minDistance;
          needsRestart := true;
        }
      } else {
        var remaining := U32(distance - accumulatedDistance);
        if minDistance < remaining {
          distance := minDistance;
          needsRestart := true;
        } else if needsRestart {
          distance := remaining;
        }
      }
    }

    /** The reply to the query of a join after the first. */
    method JoinRunningTrips(id: nat, minDistance: uint32, minInterval: uint32, queried: bool,
                            accumulatedDistance: uint32, ok: bool)
      requires tripSessions != map[] && (queried ==> accumulatedDistance == Counter(View()))
      modifies this
      ensures View() == LaterJoin(old(View()), id, minDistance, minInterval, queried, ok)
    {
      var needsRestart, distance, interval := DecideJoin(minDistance, minInterval, queried, accumulatedDistance);
      if queried {
        tripSessions := tripSessions[id := Trip(accumulatedDistance, 0, 0, minDistance, minInterval)];
        joined := joined[id := odo];
      }
      if needsRestart {
        ongoingTripDistance := distance;
        ongoingTripTBFInterval := interval;
        ForgetTrips();
        base := if ok then odo else base;
      }
    }

    method ForgetTrips()
      modifies this`tripSessions
      ensures tripSessions == Forget(old(tripSessions))
    {
      ghost var before := tripSessions;
      var todo := tripSessions.Keys;
      while todo != {}
        invariant todo <= tripSessions.Keys == before.Keys
        invariant forall id :: id in todo ==> tripSessions[id] == before[id]
        invariant forall id :: id in before && id !in todo ==> tripSessions[id] == Forget(before)[id]
        decreases todo
      {
        var id :| id in todo;
        todo := todo - {id};
        var t := tripSessions[id];
        tripSessions := tripSessions[id := t.(ongoingBatch := 0, onRestart := t.thisTrip)];
      }
    }

    /** `stopTripBatchingMultiplexCommon` */
    method StopTripBatching(id: nat, accumulatedDistance: uint32, ok: bool) returns (ghost r: uint32, ghost i: uint32)
      requires id in tripSessions && accumulatedDistance == Counter(View())
      modifies this
      ensures View() == Execute(old(View()), Stop(id, r, i, ok))
      ensures old(tripSessions) - {id} != map[] ==> SmallestOf(old(tripSessions) - {id}, r, i)
    {
      var t := tripSessions[id];
      if t.interval == ongoingTripTBFInterval {
        tripWithOngoingTBFDropped := true;
      }
      if t.distance == ongoingTripDistance {
        tripWithOngoingTripDistanceDropped := true;
      }
      tripSessions := tripSessions - {id};
      if tripSessions == map[] {
        ongoingTripDistance := 0;
        ongoingTripTBFInterval := 0;
        r, i := 0, 0;
      } else {
        r, i := RestartTripBatching(accumulatedDistance, ok);
      }
    }
  }
}
