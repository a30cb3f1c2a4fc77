/**
 The on-demand position request limiter of gps/gnss/GnssAdapter.cpp: START and STOP requests
 from the modem may come in quick succession, and a timer keeps them from flooding the framework.

 The timer may expire at any moment, even after it was stopped or restarted: its message may
 already be queued.
 */
module Odcpi {
  import opened Wrappers

  datatype Kind = KindStart | KindStop | KindInvalid

  datatype Request = Request(kind: Kind, tbfMillis: nat, emergency: bool)

  const NO_REQUEST := Request(KindStart, 0, false)

  const PRIORITY_LOW: nat := 0

  /** A request passed to the framework, by the callback of one of its clients. */
  datatype Call = Call(callback: nat, request: Request)

  /** `log`: the calls of the framework, in order. */
  datatype Limiter = Limiter(
    callback: Option<nat>, priority: nat, active: bool, timer: bool, last: Request, log: seq<Call>)

  const INITIAL := Limiter(None, PRIORITY_LOW, false, false, NO_REQUEST, [])

  datatype Event =
    | Register(callback: nat, priority: nat)
    | Incoming(request: Request)
    | TimerExpired
    | ModemReset

  // ---------------------------------------------------------------------------
  // Events
  // ---------------------------------------------------------------------------

  predicate Fresh(s: Limiter) {
    !s.active && !s.timer
  }

  predicate Escalates(s: Limiter, r: Request) {
    s.callback.Some? && r.kind == KindStart && !Fresh(s) && !s.last.emergency && r.emergency
  }

  function Pass(s: Limiter, r: Request): Limiter
    requires s.callback.Some?
  {
    s.(log := s.log + [Call(s.callback.value, r)])
  }

  function OnRequest(s: Limiter, r: Request): Limiter {
    if s.callback.None? || r.kind == KindInvalid then s
    else if r.kind == KindStop then Pass(s, r).(active := false)
    else if Fresh(s) || Escalates(s, r) then Pass(s, r).(active := true, timer := true, last := r)
    else s.(active := true, last := r)
  }

  function Step(s: Limiter, e: Event): Limiter {
    match e
    case Register(callback, p) => if p >= s.priority then s.(callback := Some(callback), priority := p) else s
    case Incoming(r) => OnRequest(s, r)
    case TimerExpired =>
      if s.active && s.callback.Some? then Pass(s, s.last).(timer := true) else s.(timer := false)
    case ModemReset => s.(active := false)
  }

  function Run(s: Limiter, events: seq<Event>): Limiter {
    if events == [] then s else Step(Run(s, events[..|events| - 1]), events[|events| - 1])
  }

  // ---------------------------------------------------------------------------
  // How often the framework is asked
  // ---------------------------------------------------------------------------

  function Starts(log: seq<Call>): nat {
    if log == [] then 0
    else Starts(log[..|log| - 1]) + if log[|log| - 1].request.kind == KindStart then 1 else 0
  }

  function Expiries(events: seq<Event>): nat {
    if events == [] then 0
    else Expiries(events[..|events| - 1]) + if events[|events| - 1] == TimerExpired then 1 else 0
  }

  /** Emergency requests that come while the latest accepted START was no emergency. */
  function Escalations(s: Limiter, events: seq<Event>): nat {
    if events == [] then 0
    else
      var before, e := events[..|events| - 1], events[|events| - 1];
      Escalations(s, before) + if e.Incoming? && Escalates(Run(s, before), e.request) then 1 else 0
  }

  function Idle(s: Limiter): nat {
    if s.timer then 0 else 1
  }

  ghost predicate Inv(s: Limiter) {
    && (s.active ==> s.timer && s.callback.Some?)
    && s.last.kind == KindStart
  }

  lemma {:induction false} InvHolds(s: Limiter, events: seq<Event>)
    requires Inv(s)
    ensures Inv(Run(s, events))
  {
    if events != [] {
      InvHolds(s, events[..|events| - 1]);
    }
  }

  lemma StartsSnoc(log: seq<Call>, x: Call)
    ensures Starts(log + [x]) == Starts(log) + if x.request.kind == KindStart then 1 else 0
  {
    assert (log + [x])[..|log|] == log;
  }

  /** Accepted STARTs that find neither an active request nor a running timer. */
  function FreshStarts(s: Limiter, events: seq<Event>): nat {
    if events == [] then 0
    else
      var before, e := Run(s, events[..|events| - 1]), events[|events| - 1];
      FreshStarts(s, events[..|events| - 1])
      + if e.Incoming? && before.callback.Some? && e.request.kind == KindStart && Fresh(before) then 1 else 0
  }

  /** Expiries that find a request active. */
  function ActiveExpiries(s: Limiter, events: seq<Event>): nat {
    if events == [] then 0
    else
      ActiveExpiries(s, events[..|events| - 1])
      + if events[|events| - 1] == TimerExpired && Run(s, events[..|events| - 1]).active then 1 else 0
  }

  lemma StepStarts(s: Limiter, e: Event)
    requires Inv(s)
    ensures Starts(Step(s, e).log) == Starts(s.log)
            + (if e.Incoming? && s.callback.Some? && e.request.kind == KindStart && Fresh(s) then 1 else 0)
            + (if e.Incoming? && Escalates(s, e.request) then 1 else 0)
            + (if e == TimerExpired && s.active then 1 else 0)
    ensures Idle(Step(s, e)) <= Idle(s) + (if e == TimerExpired && !s.active then 1 else 0)
            - (if e.Incoming? && s.callback.Some? && e.request.kind == KindStart && Fresh(s) then 1 else 0)
  {
    if s.callback.Some? {
      if e.Incoming? { StartsSnoc(s.log, Call(s.callback.value, e.request)); }
      StartsSnoc(s.log, Call(s.callback.value, s.last));
    }
  }

  /** In any stretch of any run the framework is asked to START exactly once for each fresh START,
      each emergency escalation, and each expiry that finds a request active. */
  lemma {:induction false} StartsAreExact(s: Limiter, events: seq<Event>)
    requires Inv(s)
    ensures Starts(Run(s, events).log)
         == Starts(s.log) + FreshStarts(s, events) + Escalations(s, events) + ActiveExpiries(s, events)
  {
    if events != [] {
      var before := events[..|events| - 1];
      StartsAreExact(s, before);
      InvHolds(s, before);
      StepStarts(Run(s, before), events[|events| - 1]);
    }
  }

  /** In any stretch of any run, START callbacks number at most the expiries and escalations
      of the stretch, plus one if the timer was idle when it began. */
  lemma {:induction false} StretchBound(s: Limiter, events: seq<Event>)
    requires Inv(s)
    ensures Starts(Run(s, events).log) + Idle(Run(s, events))
         <= Starts(s.log) + Idle(s) + Expiries(events) + Escalations(s, events)
  {
    if events != [] {
      var before, e := events[..|events| - 1], events[|events| - 1];
      StretchBound(s, before);
      InvHolds(s, before);
      StepStarts(Run(s, before), e);
    }
  }

  /** Over a whole run: at most one START more than timer expiries and emergency escalations. */
  lemma StartBound(events: seq<Event>)
    ensures Starts(Run(INITIAL, events).log) <= 1 + Expiries(events) + Escalations(INITIAL, events)
  {
    StretchBound(INITIAL, events);
  }

  /** An active request has its timer running, so an escalation always restarts it: the branch
      that starts an idle timer for an escalation is never taken. */
  lemma EscalationFindsTimerRunning(events: seq<Event>, r: Request)
    requires Escalates(Run(INITIAL, events), r)
    ensures Run(INITIAL, events).timer
  {
    InvHolds(INITIAL, events);
  }

  // ---------------------------------------------------------------------------
  // What the events alone say
  // ---------------------------------------------------------------------------

  datatype Directive = Nothing | Stopped | Started(request: Request)

  function HighestPriority(events: seq<Event>): nat {
    if events == [] then PRIORITY_LOW
    else
      var before, e := HighestPriority(events[..|events| - 1]), events[|events| - 1];
      if e.Register? && e.priority > before then e.priority else before
  }

  /** The callback registered last among those of the highest priority. */
  function Registered(events: seq<Event>): Option<nat> {
    if events == [] then None
    else
      var before, e := events[..|events| - 1], events[|events| - 1];
      if e.Register? && e.priority == HighestPriority(events) then Some(e.callback) else Registered(before)
  }

  predicate Accepted(events: seq<Event>, e: Event, kind: Kind) {
    e.Incoming? && e.request.kind == kind && Registered(events).Some?
  }

  /** The latest accepted START or STOP; a modem reset cancels a START. */
  function LatestDirective(events: seq<Event>): Directive {
    if events == [] then Nothing
    else
      var before, e := events[..|events| - 1], events[|events| - 1];
      if e == ModemReset || Accepted(before, e, KindStop) then Stopped
      else if Accepted(before, e, KindStart) then Started(e.request)
      else LatestDirective(before)
  }

  /** The latest accepted START, cancelled or not. */
  function LatestStart(events: seq<Event>): Request {
    if events == [] then NO_REQUEST
    else
      var before, e := events[..|events| - 1], events[|events| - 1];
      if Accepted(before, e, KindStart) then e.request else LatestStart(before)
  }

  /** An accepted START has the timer running, and only an expiry without a START to repeat ends that. */
  function TimerRuns(events: seq<Event>): bool {
    if events == [] then false
    else
      var before, e := events[..|events| - 1], events[|events| - 1];
      if e == TimerExpired then LatestDirective(before).Started?
      else Accepted(before, e, KindStart) || TimerRuns(before)
  }

  /** What the framework is called with. A START is passed on when no timer runs, or when it is the
      first emergency; a STOP always; and an expiry repeats a START that stands. */
  function Calls(events: seq<Event>): seq<Call> {
    if events == [] then []
    else
      var before, e := events[..|events| - 1], events[|events| - 1];
      match (Registered(before), e)
      case (Some(callback), Incoming(r)) =>
        if r.kind == KindStop
           || (r.kind == KindStart && (!TimerRuns(before) || (r.emergency && !LatestStart(before).emergency)))
        then Calls(before) + [Call(callback, r)] else Calls(before)
      case (Some(callback), TimerExpired) =>
        if LatestDirective(before).Started? then Calls(before) + [Call(callback, LatestDirective(before).request)]
        else Calls(before)
      case _ => Calls(before)
  }

  /** The state knows no more and no less than the events say. */
  ghost predicate Knows(s: Limiter, events: seq<Event>) {
    && s.callback == Registered(events) && s.priority == HighestPriority(events)
    && (s.active <==> LatestDirective(events).Started?)
    && (s.active ==> s.last == LatestDirective(events).request)
    && s.last == LatestStart(events)
    && s.timer == TimerRuns(events)
  }

  lemma StepKnows(s: Limiter, before: seq<Event>, events: seq<Event>, e: Event)
    requires Inv(s) && Knows(s, before) && events == before + [e]
    ensures Knows(Step(s, e), events)
  {
    assert events[..|events| - 1] == before && events[|events| - 1] == e;
  }

  lemma {:induction false} StateKnowsDirective(events: seq<Event>)
    ensures Knows(Run(INITIAL, events), events)
  {
    if events != [] {
      var before := events[..|events| - 1];
      StateKnowsDirective(before);
      InvHolds(INITIAL, before);
      StepKnows(Run(INITIAL, before), before, events, events[|events| - 1]);
    }
  }

  /** In every run the framework is called exactly as the events alone say: with which request, by
      which callback and in which order. */
  lemma {:induction false} CallsAreExact(events: seq<Event>)
    ensures Run(INITIAL, events).log == Calls(events)
  {
    if events != [] {
      var before := events[..|events| - 1];
      CallsAreExact(before);
      StateKnowsDirective(before);
      InvHolds(INITIAL, before);
    }
  }

  /** An expiry asks the framework again exactly when the latest directive is a START, and then
      with that very request; otherwise it is silent and the timer stays off. */
  lemma ExpiryReissuesLatestStart(events: seq<Event>)
    ensures var s, s' := Run(INITIAL, events), Step(Run(INITIAL, events), TimerExpired);
            match LatestDirective(events)
            case Started(r) => s.callback.Some? && s'.log == s.log + [Call(s.callback.value, r)] && s'.timer
            case _ => s'.log == s.log && !s'.timer
  {
    StateKnowsDirective(events);
    InvHolds(INITIAL, events);
  }

  // ---------------------------------------------------------------------------
  // The adapter and its timer
  // ---------------------------------------------------------------------------

  class OdcpiTimer {
    var active: bool

    constructor ()
      ensures !active
    {
      active := false;
    }

    method Start()
      modifies this
      ensures active
    {
      active := true;
    }

    method Stop()
      modifies this
      ensures !active
    {
      active := false;
    }

    method Restart()
      modifies this
      ensures active
    {
      Stop();
      Start();
    }
  }

  class OdcpiAdapter {
    var odcpiRequestCb: Option<nat>
    var callbackPriority: nat
    var requestActive: bool
    const timer: OdcpiTimer
    var odcpiRequest: Request
    ghost var log: seq<Call>

    constructor ()
      ensures View() == INITIAL && fresh(timer)
    {
      odcpiRequestCb, callbackPriority, requestActive := None, PRIORITY_LOW, false;
      timer := new OdcpiTimer();
      odcpiRequest, log := NO_REQUEST, [];
    }

    ghost function View(): Limiter
      reads this, timer
    {
      Limiter(odcpiRequestCb, callbackPriority, requestActive, timer.active, odcpiRequest, log)
    }

    method RequestCallback(r: Request)
      requires odcpiRequestCb.Some?
      modifies this`log
      ensures log == old(log) + [Call(odcpiRequestCb.value, r)]
    {
      log := log + [Call(odcpiRequestCb.value, r)];
    }

    method InitOdcpi(callback: nat, priority: nat)
      modifies this
      ensures View() == Step(old(View()), Register(callback, priority))
    {
      if priority >= callbackPriority {
        odcpiRequestCb := Some(callback);
        callbackPriority := priority;
      }
    }

    method RequestOdcpi(request: Request)
      modifies this, timer
      ensures View() == Step(old(View()), Incoming(request))
    {
      if odcpiRequestCb.Some? {
        if request.kind == KindStart {
          if !requestActive && !timer.active {
            RequestCallback(request);
            requestActive := true;
            timer.Start();
          } else if !odcpiRequest.emergency && request.emergency {
            RequestCallback(request);
            requestActive := true;
            if timer.active {
              timer.Restart();
            } else {
              timer.Start();
            }
          } else if !requestActive && timer.active {
            requestActive := true;
          }
          odcpiRequest := request;
        } else if request.kind == KindStop {
          RequestCallback(request);
          requestActive := false;
        }
      }
    }

    /** An active request came through a callback. */
    method OdcpiTimerExpire()
      requires requestActive ==> odcpiRequestCb.Some?
      modifies this, timer
      ensures View() == Step(old(View()), TimerExpired)
    {
      if requestActive {
        RequestCallback(odcpiRequest);
        timer.Restart();
      } else {
        timer.Stop();
      }
    }

    /** `restartSessions(true)`: no request is active after a modem restart. */
    method HandleModemReset()
      modifies this
      ensures View() == Step(old(View()), ModemReset)
    {
      requestActive := false;
    }
  }
}
