/**
 Safety of the AGPS machine over whole runs, and of the manager that owns two of them.
 */
module AgpsTheorems {
  import opened AgpsProtocol
  import opened Wrappers

  ghost function Run(m: Machine, events: seq<Event>): Machine {
    if events == [] then m else Step(Run(m, events[..|events| - 1]), events[|events| - 1])
  }

  lemma {:induction false} ReachableInv(events: seq<Event>)
    requires forall i :: 0 <= i < |events| ==> Issued(events[i])
    ensures Inv(Run(INITIAL, events))
  {
    if events != [] {
      ReachableInv(events[..|events| - 1]);
      StepKeepsInv(Run(INITIAL, events[..|events| - 1]), events[|events| - 1]);
    }
  }

  // ---------------------------------------------------------------------------
  // Counting
  // ---------------------------------------------------------------------------

  function Count(t: History, e: Entry): nat {
    match t
    case Start => 0
    case Then(past, last) => Count(past, e) + if last == e then 1 else 0
  }

  lemma {:induction false} LegalConnectionBalances(t: History)
    requires ConnectionPhase(t) != Illegal
    ensures Count(t, Request) - Count(t, Release) - Count(t, Denied) - Count(t, Lost)
         == if ConnectionPhase(t) == Idle then 0 else 1
  {
    if t.Then? {
      LegalConnectionBalances(t.past);
    }
  }

  lemma {:induction false} LegalMembershipBalances(t: History, h: int)
    requires HandleMembership(t, h) != Broken
    ensures Count(t, Listed(h)) == Count(t, Closed(h)) + Count(t, OpenFailed(h)) + Count(t, Dropped(h))
                                 + if HandleMembership(t, h) == In then 1 else 0
  {
    if t.Then? {
      LegalMembershipBalances(t.past, h);
    }
  }

  /** In every run: requests, less releases, denials taken while pending and forced releases
      taken while acquired, are one exactly while a connection is pending or acquired. */
  lemma {:induction false} ConnectionBalance(events: seq<Event>)
    requires forall i :: 0 <= i < |events| ==> Issued(events[i])
    ensures var m := Run(INITIAL, events);
            Count(m.trace, Request) - Count(m.trace, Release) - Count(m.trace, Denied) - Count(m.trace, Lost)
            == (if m.state == Pending || m.state == Acquired then 1 else 0)
  {
    ReachableInv(events);
    LegalConnectionBalances(Run(INITIAL, events).trace);
  }

  /** In every run and for each handle: insertions are final notices, plus modem-reset drops,
      plus one if the handle is still listed. */
  lemma {:induction false} HandleBalance(events: seq<Event>, h: int)
    requires forall i :: 0 <= i < |events| ==> Issued(events[i])
    ensures var m := Run(INITIAL, events);
            Count(m.trace, Listed(h)) == Count(m.trace, Closed(h)) + Count(m.trace, OpenFailed(h))
                                         + Count(m.trace, Dropped(h)) + (if IsListed(m.subs, h) then 1 else 0)
  {
    ReachableInv(events);
    LegalMembershipBalances(Run(INITIAL, events).trace, h);
  }

  // ---------------------------------------------------------------------------
  // Every moment of the history
  // ---------------------------------------------------------------------------

  ghost predicate IsPast(p: History, t: History) {
    p == t || (t.Then? && IsPast(p, t.past))
  }

  lemma {:induction false} PastIsLegal(p: History, t: History, h: int)
    requires IsPast(p, t)
    ensures ConnectionPhase(t) != Illegal ==> ConnectionPhase(p) != Illegal
    ensures HandleMembership(t, h) != Broken ==> HandleMembership(p, h) != Broken
  {
    if p != t {
      PastIsLegal(p, t.past, h);
    }
  }

  /** At every moment of every run: a request goes out only when no connection is pending or
      up, an open success only while one is up, and a final notice only to a waiting handle. */
  lemma {:induction false} EveryEntryIsDue(events: seq<Event>, past: History, e: Entry, h: int)
    requires forall i :: 0 <= i < |events| ==> Issued(events[i])
    requires IsPast(Then(past, e), Run(INITIAL, events).trace)
    ensures e == Request ==> ConnectionPhase(past) == Idle
    ensures e == OpenSuccess(h) ==> ConnectionPhase(past) == Up
    ensures e == Release ==> ConnectionPhase(past) != Idle
    ensures Terminal(e, h) ==> HandleMembership(past, h) == In
    ensures e == Listed(h) ==> HandleMembership(past, h) == Out
  {
    ReachableInv(events);
    PastIsLegal(Then(past, e), Run(INITIAL, events).trace, h);
  }

  // ---------------------------------------------------------------------------
  // Subscribers kept while a release is under way
  // ---------------------------------------------------------------------------

  /** Whether a modem reset happened since the machine last entered RELEASING. */
  ghost function ResetWhileReleasing(events: seq<Event>): bool {
    if events == [] then false
    else
      var before, e := events[..|events| - 1], events[|events| - 1];
      Run(INITIAL, events).state == Releasing && (e == ModemReset || ResetWhileReleasing(before))
  }

  lemma RetireKeepsInactive(m: Machine, i: nat)
    requires i < |m.subs| && AnyInactive(m.subs)
    requires m.subs[i].inactive ==> m.subs[i].waitForClose
    ensures AnyInactive(Retire(m, i).subs)
  {
    var k :| 0 <= k < |m.subs| && m.subs[k].inactive;
    var r := Retire(m, i);
    if m.subs[i].waitForClose {
      assert r.subs[i].inactive;
    } else {
      assert r.subs[if k < i then k else k - 1].inactive;
    }
  }

  lemma StepKeepsInactive(m: Machine, e: Event)
    requires Inv(m) && Issued(e) && e != ModemReset
    requires m.state == Releasing ==> AnyInactive(m.subs)
    requires Step(m, e).state == Releasing
    ensures AnyInactive(Step(m, e).subs)
  {
    if e.Unsubscribe? && IndexOf(m.subs, e.handle) < |m.subs| {
      var i := IndexOf(m.subs, e.handle);
      if m.state == Releasing {
        RetireKeepsInactive(m, i);
      } else {
        assert Retire(m, i).subs[0].inactive;
      }
    } else if e.Subscribe? {
      var k :| 0 <= k < |m.subs| && m.subs[k].inactive;
      assert Step(m, e).subs[k] == m.subs[k];
    }
  }

  /** RELEASING without a modem reset keeps at least one inactive subscriber to notify. */
  lemma {:induction false} ReleasingHasInactive(events: seq<Event>)
    requires forall i :: 0 <= i < |events| ==> Issued(events[i])
    ensures var m := Run(INITIAL, events);
            m.state == Releasing && !ResetWhileReleasing(events) ==> AnyInactive(m.subs)
  {
    if events != [] {
      var before, e := events[..|events| - 1], events[|events| - 1];
      ReleasingHasInactive(before);
      ReachableInv(before);
      var m := Run(INITIAL, before);
      if Step(m, e).state == Releasing && !ResetWhileReleasing(events) {
        StepKeepsInactive(m, e);
      }
    }
  }

  predicate Connected(s: State) {
    s == Pending || s == Acquired
  }

  /** Whether a modem reset happened since a connection was last wanted. */
  ghost function ResetWhileConnected(events: seq<Event>): bool {
    if events == [] then false
    else
      var before, e := events[..|events| - 1], events[|events| - 1];
      Connected(Run(INITIAL, events).state) && (e == ModemReset || ResetWhileConnected(before))
  }

  lemma StepKeepsActive(m: Machine, e: Event)
    requires Inv(m) && Issued(e) && e != ModemReset
    requires Connected(m.state) ==> AnyActive(m.subs)
    requires Connected(Step(m, e).state)
    ensures AnyActive(Step(m, e).subs)
  {
    if e.Subscribe? {
      AddKeeps(if m.state == Acquired then m.(trace := Then(m.trace, OpenSuccess(e.sub.handle))) else m, e.sub);
    }
  }

  /** PENDING and ACQUIRED without a modem reset have an active subscriber: only a reset leaves a
      connection open for nobody. */
  lemma {:induction false} ConnectedHasActive(events: seq<Event>)
    requires forall i :: 0 <= i < |events| ==> Issued(events[i])
    ensures var m := Run(INITIAL, events);
            Connected(m.state) && !ResetWhileConnected(events) ==> AnyActive(m.subs)
  {
    if events != [] {
      var before, e := events[..|events| - 1], events[|events| - 1];
      ConnectedHasActive(before);
      ReachableInv(before);
      var m := Run(INITIAL, before);
      if Connected(Step(m, e).state) && !ResetWhileConnected(events) {
        StepKeepsActive(m, e);
      }
    }
  }

  // ---------------------------------------------------------------------------
  // Everyone hears of a grant
  // ---------------------------------------------------------------------------

  /** The handle was told of an open success after the latest grant. */
  predicate ToldSinceGrant(t: History, h: int) {
    t.Then? && (t.last == OpenSuccess(h) || (t.last != Granted && ToldSinceGrant(t.past, h)))
  }

  ghost predicate ActiveAreTold(m: Machine) {
    m.state == Acquired ==>
      forall i :: 0 <= i < |m.subs| && !m.subs[i].inactive ==> ToldSinceGrant(m.trace, m.subs[i].handle)
  }

  lemma {:induction false} NoticesTell(t: History, subs: seq<Subscriber>, k: nat, h: int)
    requires k <= |subs|
    ensures ToldSinceGrant(Notices(t, NoticeGranted, Active, subs, k), h)
            <==> ToldSinceGrant(t, h) || Among(Active, subs, k, h, true)
  {
    if k > 0 {
      NoticesTell(t, subs, k - 1, h);
      var s := subs[k - 1];
      assert Among(Active, subs, k, h, true) <==>
             Among(Active, subs, k - 1, h, true) || (Hears(Active, s) && s.handle == h);
    }
  }

  lemma RetireKeepsTold(m: Machine, i: nat)
    requires i < |m.subs| && m.state == Acquired && ActiveAreTold(m)
    ensures ActiveAreTold(Retire(m, i))
  {
    var r := Retire(m, i);
    forall k | 0 <= k < |r.subs| && !r.subs[k].inactive ensures ToldSinceGrant(r.trace, r.subs[k].handle) {
      if m.subs[i].waitForClose {
        assert r.subs[k] == m.subs[k];
      } else {
        assert r.subs[k] == m.subs[if k < i then k else k + 1];
      }
    }
  }

  lemma StepKeepsTold(m: Machine, e: Event)
    requires ActiveAreTold(m)
    ensures ActiveAreTold(Step(m, e))
  {
    var m' := Step(m, e);
    match e
    case Subscribe(s) =>
      if m.state == Acquired {
        assert forall i :: 0 <= i < |m'.subs| ==> (i < |m.subs| && m'.subs[i] == m.subs[i]) || m'.subs[i] == s;
      }
    case Unsubscribe(h) =>
      var i := IndexOf(m.subs, h);
      if i < |m.subs| && m.state == Acquired { RetireKeepsTold(m, i); }
    case EventGranted =>
      if m.state == Pending {
        forall i | 0 <= i < |m.subs| && !m.subs[i].inactive ensures ToldSinceGrant(m'.trace, m.subs[i].handle) {
          NoticesTell(Then(m.trace, Granted), m.subs, |m.subs|, m.subs[i].handle);
        }
      }
    case _ =>
  }

  /** In every run, in ACQUIRED each active listed subscriber was told so after the latest grant. */
  lemma {:induction false} EveryActiveIsTold(events: seq<Event>)
    ensures ActiveAreTold(Run(INITIAL, events))
  {
    if events != [] {
      EveryActiveIsTold(events[..|events| - 1]);
      StepKeepsTold(Run(INITIAL, events[..|events| - 1]), events[|events| - 1]);
    }
  }

  // ---------------------------------------------------------------------------
  // The manager
  // ---------------------------------------------------------------------------

  datatype AgpsType = TypeInvalid | TypeSupl | TypeSuplEs | TypeWwanAny | TypeOther

  /** `rejected`: the handles told at once that no machine serves their type. */
  datatype Manager = Manager(agnss: Option<Machine>, internet: Option<Machine>, rejected: seq<int>)

  datatype Command =
    | Create(wwan: bool, supl: bool, agpsCapable: bool)
    | RequestAtl(handle: int, kind: AgpsType)
    | ReleaseAtl(handle: int)
    | AtlOpenSuccess(kind: AgpsType)
    | AtlOpenFailed(kind: AgpsType)
    | AtlClosed(kind: AgpsType)
    | ModemSsr

  predicate ServedByAgnss(kind: AgpsType) {
    kind == TypeInvalid || kind == TypeSupl || kind == TypeSuplEs
  }

  function MachineFor(m: Manager, kind: AgpsType): Option<Machine> {
    if ServedByAgnss(kind) then m.agnss else m.internet
  }

  ghost function StepFor(m: Manager, kind: AgpsType, e: Event): Manager
    requires MachineFor(m, kind).Some?
  {
    if ServedByAgnss(kind) then m.(agnss := Some(Step(m.agnss.value, e)))
    else m.(internet := Some(Step(m.internet.value, e)))
  }

  ghost predicate Holds(sm: Option<Machine>, h: int) {
    sm.Some? && IsListed(sm.value.subs, h)
  }

  /** The framework reports only to machines that exist: the source dereferences the pointer. */
  predicate Enabled(m: Manager, c: Command) {
    match c
    case AtlOpenSuccess(kind) => MachineFor(m, kind).Some?
    case AtlOpenFailed(kind) => MachineFor(m, kind).Some?
    case AtlClosed(kind) => MachineFor(m, kind).Some?
    case _ => true
  }

  function NewSubscriber(h: int): Subscriber {
    Subscriber(h, true, false)
  }

  ghost function Execute(m: Manager, c: Command): Manager
    requires Enabled(m, c)
  {
    match c
    case Create(wwan, supl, agpsCapable) =>
      m.(internet := if m.internet.None? && wwan then Some(INITIAL) else m.internet,
         agnss := if agpsCapable && m.agnss.None? && supl then Some(INITIAL) else m.agnss)
    case RequestAtl(h, kind) =>
      if MachineFor(m, kind).None? then m.(rejected := m.rejected + [h])
      else StepFor(m, kind, Subscribe(NewSubscriber(h)))
    case ReleaseAtl(h) =>
      if Holds(m.agnss, h) then StepFor(m, TypeSupl, Unsubscribe(h))
      else if Holds(m.internet, h) then StepFor(m, TypeWwanAny, Unsubscribe(h))
      else m
    case AtlOpenSuccess(kind) => StepFor(m, kind, EventGranted)
    case AtlOpenFailed(kind) => StepFor(m, kind, EventDenied)
    case AtlClosed(kind) => StepFor(m, kind, EventReleased)
    case ModemSsr =>
      m.(agnss := if m.agnss.Some? then Some(Step(m.agnss.value, ModemReset)) else None,
         internet := if m.internet.Some? then Some(Step(m.internet.value, ModemReset)) else None)
  }

  ghost predicate AllEnabled(m: Manager, commands: seq<Command>)
    decreases |commands|
  {
    commands == [] || (Enabled(m, commands[0]) && AllEnabled(Execute(m, commands[0]), commands[1..]))
  }

  ghost function ExecuteAll(m: Manager, commands: seq<Command>): Manager
    requires AllEnabled(m, commands)
    decreases |commands|
  {
    if commands == [] then m else ExecuteAll(Execute(m, commands[0]), commands[1..])
  }

  ghost predicate ManagerInv(m: Manager) {
    && (m.agnss.Some? ==> Inv(m.agnss.value))
    && (m.internet.Some? ==> Inv(m.internet.value))
  }

  lemma InitialInv()
    ensures Inv(INITIAL)
  {
    ReachableInv([]);
  }

  lemma StepForKeepsInv(m: Manager, kind: AgpsType, e: Event)
    requires ManagerInv(m) && Issued(e)
    ensures MachineFor(m, kind).Some? ==> Inv(Step(MachineFor(m, kind).value, e))
  {
    if MachineFor(m, kind).Some? {
      StepKeepsInv(MachineFor(m, kind).value, e);
    }
  }

  lemma ExecuteKeepsInv(m: Manager, c: Command)
    requires ManagerInv(m) && Enabled(m, c)
    ensures ManagerInv(Execute(m, c))
  {
    match c
    case Create(_, _, _) => InitialInv();
    case RequestAtl(h, kind) => StepForKeepsInv(m, kind, Subscribe(NewSubscriber(h)));
    case ReleaseAtl(h) =>
      StepForKeepsInv(m, TypeSupl, Unsubscribe(h));
      StepForKeepsInv(m, TypeWwanAny, Unsubscribe(h));
    case AtlOpenSuccess(kind) => StepForKeepsInv(m, kind, EventGranted);
    case AtlOpenFailed(kind) => StepForKeepsInv(m, kind, EventDenied);
    case AtlClosed(kind) => StepForKeepsInv(m, kind, EventReleased);
    case ModemSsr =>
      StepForKeepsInv(m, TypeSupl, ModemReset);
      StepForKeepsInv(m, TypeWwanAny, ModemReset);
  }

  /** Both machines stay legal in every run of the manager, modem resets included. */
  lemma {:induction false} ManagerRunsAreLegal(m: Manager, commands: seq<Command>)
    requires ManagerInv(m) && AllEnabled(m, commands)
    ensures ManagerInv(ExecuteAll(m, commands))
    decreases |commands|
  {
    if commands != [] {
      ExecuteKeepsInv(m, commands[0]);
      ManagerRunsAreLegal(Execute(m, commands[0]), commands[1..]);
    }
  }

  /** `releaseATL` never sends an unsubscribe to a machine in RELEASED. */
  lemma ReleaseAtlNeverReachesReleased(commands: seq<Command>, h: int)
    requires AllEnabled(Manager(None, None, []), commands)
    ensures var m := ExecuteAll(Manager(None, None, []), commands);
            && (Holds(m.agnss, h) ==> m.agnss.value.state != Released)
            && (Holds(m.internet, h) ==> m.internet.value.state != Released)
  {
    ManagerRunsAreLegal(Manager(None, None, []), commands);
  }

  // ---------------------------------------------------------------------------
  // What each command does to which machine
  // ---------------------------------------------------------------------------

  /** The SUPL machine serves SUPL, emergency SUPL and unknown types; the other machine the rest. */
  ghost predicate OthersKept(m: Manager, m': Manager, kind: AgpsType) {
    if kind == TypeSupl || kind == TypeSuplEs || kind == TypeInvalid
    then m'.internet == m.internet && m'.agnss.Some? == m.agnss.Some?
    else m'.agnss == m.agnss && m'.internet.Some? == m.internet.Some?
  }

  /** A request lists the handle at the machine of its type, or is refused when there is none. */
  lemma RequestReachesMachine(m: Manager, h: int, kind: AgpsType)
    ensures var m' := Execute(m, RequestAtl(h, kind));
            var sm' := if kind == TypeSupl || kind == TypeSuplEs || kind == TypeInvalid then m'.agnss else m'.internet;
            && OthersKept(m, m', kind)
            && (sm'.Some? ==> Holds(sm', h) && m'.rejected == m.rejected)
            && (sm'.None? ==> m' == m.(rejected := m.rejected + [h]))
  {
    var sm := MachineFor(m, kind);
    if sm.Some? {
      SubscribeLists(sm.value, NewSubscriber(h));
    }
  }

  lemma SubscribeLists(m: Machine, s: Subscriber)
    ensures IsListed(Step(m, Subscribe(s)).subs, s.handle)
  {
    if !IsListed(m.subs, s.handle) {
      assert (m.subs + [s])[|m.subs|].handle == s.handle;
    }
  }

  /** A pending machine is acquired by its own success and released by its own failure; a close
      releases an acquired one. The other machine does not move. */
  lemma AnswersReachMachine(m: Manager, kind: AgpsType)
    requires if kind == TypeSupl || kind == TypeSuplEs || kind == TypeInvalid then m.agnss.Some? else m.internet.Some?
    ensures var sm := MachineFor(m, kind).value;
            var granted, failed, closed :=
              Execute(m, AtlOpenSuccess(kind)), Execute(m, AtlOpenFailed(kind)), Execute(m, AtlClosed(kind));
            && OthersKept(m, granted, kind) && OthersKept(m, failed, kind) && OthersKept(m, closed, kind)
            && MachineFor(granted, kind).Some? && MachineFor(failed, kind).Some? && MachineFor(closed, kind).Some?
            && (sm.state == Pending ==>
                && MachineFor(granted, kind).value.state == Acquired
                && MachineFor(failed, kind).value.state == Released
                && MachineFor(closed, kind).value == sm)
            && (sm.state == Acquired ==>
                && MachineFor(granted, kind).value == sm
                && MachineFor(failed, kind).value == sm
                && MachineFor(closed, kind).value.state == Released)
  {
  }

  ghost predicate HoldsActive(sm: Option<Machine>, h: int) {
    sm.Some? && exists i :: 0 <= i < |sm.value.subs| && sm.value.subs[i].handle == h && !sm.value.subs[i].inactive
  }

  /** A release retires the handle at the one machine that lists it, the SUPL machine first. */
  lemma ReleaseReachesMachine(m: Manager, h: int)
    requires ManagerInv(m)
    ensures var m' := Execute(m, ReleaseAtl(h));
            && m'.rejected == m.rejected
            && (Holds(m.agnss, h) ==> m'.internet == m.internet && !HoldsActive(m'.agnss, h))
            && (!Holds(m.agnss, h) ==> m'.agnss == m.agnss && !HoldsActive(m'.internet, h))
            && (!Holds(m.agnss, h) && !Holds(m.internet, h) ==> m' == m)
  {
    if Holds(m.agnss, h) {
      UnsubscribeRetires(m.agnss.value, h);
    } else if Holds(m.internet, h) {
      UnsubscribeRetires(m.internet.value, h);
    }
  }

  lemma RetireRetires(m: Machine, i: nat, k: nat)
    requires DistinctHandles(m.subs) && i < |m.subs| && k < |Retire(m, i).subs|
    ensures Retire(m, i).subs[k].handle == m.subs[i].handle ==> Retire(m, i).subs[k].inactive
  {
  }

  lemma UnsubscribeRetires(m: Machine, h: int)
    requires Inv(m)
    ensures forall k :: 0 <= k < |Step(m, Unsubscribe(h)).subs| && Step(m, Unsubscribe(h)).subs[k].handle == h
                        ==> Step(m, Unsubscribe(h)).subs[k].inactive
  {
    var i := IndexOf(m.subs, h);
    if i < |m.subs| {
      forall k | 0 <= k < |Retire(m, i).subs| && Retire(m, i).subs[k].handle == h
        ensures Retire(m, i).subs[k].inactive
      {
        RetireRetires(m, i, k);
      }
    }
  }

  /** The internet machine exists once a WWAN connection was offered, the SUPL machine once both SUPL
      types were offered to a capable modem; a machine that exists is kept. */
  lemma CreateMakesMachines(m: Manager, wwan: bool, supl: bool, agpsCapable: bool)
    ensures var m' := Execute(m, Create(wwan, supl, agpsCapable));
            && m'.rejected == m.rejected
            && (m'.internet.Some? <==> m.internet.Some? || wwan)
            && (m'.agnss.Some? <==> m.agnss.Some? || (supl && agpsCapable))
            && (m.internet.Some? ==> m'.internet == m.internet) && (m.agnss.Some? ==> m'.agnss == m.agnss)
            && (m.internet.None? && wwan ==> m'.internet.value.state == Released && m'.internet.value.subs == [])
            && (m.agnss.None? && supl && agpsCapable ==> m'.agnss.value.state == Released && m'.agnss.value.subs == [])
  {
  }

  /** A modem reset empties both lists and leaves both states. */
  lemma ResetEmptiesMachines(m: Manager)
    ensures var m' := Execute(m, ModemSsr);
            && m'.rejected == m.rejected
            && m'.agnss.Some? == m.agnss.Some? && m'.internet.Some? == m.internet.Some?
            && (m.agnss.Some? ==> m'.agnss.value.subs == [] && m'.agnss.value.state == m.agnss.value.state)
            && (m.internet.Some? ==> m'.internet.value.subs == [] && m'.internet.value.state == m.internet.value.state)
  {
  }
}
