/**
 The classes of gps/gnss/Agps.h and gps/gnss/Agps.cpp: subscribers and machine state are
 updated in place, the list is erased from while it is walked. Every method is tied to the
 event functions of `AgpsProtocol`; the callbacks it makes are appended to `trace`.
 */
module AgpsMachine {
  import opened AgpsProtocol
  import opened AgpsTheorems
  import opened Wrappers

  class AgpsSubscriber {
    const handle: int
    const waitForClose: bool
    var inactive: bool

    constructor (handle: int, waitForClose: bool, inactive: bool)
      ensures View() == Subscriber(handle, waitForClose, inactive)
    {
      this.handle := handle;
      this.waitForClose := waitForClose;
      this.inactive := inactive;
    }

    ghost function View(): Subscriber
      reads this
    {
      Subscriber(handle, waitForClose, inactive)
    }
  }

  ghost function Views(list: seq<AgpsSubscriber>): (r: seq<Subscriber>)
    reads list
    ensures |r| == |list|
    ensures forall i :: 0 <= i < |list| ==> r[i] == list[i].View()
  {
    seq(|list|, i requires 0 <= i < |list| reads list => list[i].View())
  }

  lemma ViewsAppend(list: seq<AgpsSubscriber>, s: AgpsSubscriber)
    ensures Views(list + [s]) == Views(list) + [s.View()]
  {
  }

  /** Element `k` of a list whose processed part has shrunk to `kept`. */
  lemma EraseStep<T>(kept: seq<T>, all: seq<T>, k: nat)
    requires k < |all|
    ensures var list := kept + all[k..];
            && list[|kept|] == all[k]
            && list[..|kept|] + list[|kept| + 1..] == kept + all[k + 1..]
            && list == (kept + [all[k]]) + all[k + 1..]
  {
  }

  /** What is left of the first `k` subscribers after a walk that deletes or does not. */
  function Remaining(delete: bool, audience: Audience, subs: seq<Subscriber>, k: nat): seq<Subscriber>
    requires k <= |subs|
  {
    if delete then Deaf(audience, subs, k) else subs[..k]
  }

  lemma RemainingStep(delete: bool, audience: Audience, subs: seq<Subscriber>, k: nat)
    requires k < |subs|
    ensures delete && Hears(audience, subs[k])
            ==> Remaining(delete, audience, subs, k + 1) == Remaining(delete, audience, subs, k)
    ensures !(delete && Hears(audience, subs[k]))
            ==> Remaining(delete, audience, subs, k + 1) == Remaining(delete, audience, subs, k) + [subs[k]]
  {
  }

  datatype Walk = Walk(all: seq<AgpsSubscriber>, v: seq<Subscriber>, start: History, kept: seq<AgpsSubscriber>, k: nat)

  class AgpsStateMachine {
    var subscribers: seq<AgpsSubscriber>
    var state: State
    ghost var trace: History

    constructor ()
      ensures View() == INITIAL && subscribers == []
    {
      subscribers, state, trace := [], Released, Start;
    }

    ghost function View(): Machine
      reads this, subscribers
    {
      Machine(state, Views(subscribers), trace)
    }

    /** Handles, and so the subscriber objects, are pairwise distinct. */
    ghost predicate Valid()
      reads this, subscribers
    {
      DistinctHandles(View().subs)
    }

    method AddSubscriber(s: AgpsSubscriber)
      modifies this`subscribers, this`trace
      ensures View() == Add(old(View()), old(s.View()))
      ensures forall x :: x in subscribers ==> x in old(subscribers) || fresh(x)
    {
      for i := 0 to |subscribers|
        invariant subscribers == old(subscribers) && trace == old(trace)
        invariant forall k :: 0 <= k < i ==> subscribers[k].handle != s.handle
      {
        if subscribers[i].handle == s.handle {
          assert View().subs[i].handle == s.handle;
          return;
        }
      }
      var cloned := new AgpsSubscriber(s.handle, s.waitForClose, s.inactive);
      assert Views(subscribers) == old(Views(subscribers));
      subscribers := subscribers + [cloned];
      trace := Then(trace, Listed(s.handle));
    }

    method AnyActiveSubscribers() returns (r: bool)
      ensures r == AnyActive(View().subs)
    {
      for i := 0 to |subscribers|
        invariant forall k :: 0 <= k < i ==> subscribers[k].inactive
      {
        if !subscribers[i].inactive {
          assert !View().subs[i].inactive;
          return true;
        }
      }
      return false;
    }

    /** One round of the walk: notifies the subscriber at `it`, and erases it or moves on. */
    method VisitSubscriber(it: nat, n: Notice, delete: bool, audience: Audience) returns (next: nat)
      requires it < |subscribers|
      modifies this`subscribers, this`trace
      ensures trace == if Hears(audience, old(subscribers)[it].View())
                       then Then(old(trace), NoticeEntry(n, old(subscribers)[it].handle)) else old(trace)
      ensures if delete && Hears(audience, old(subscribers)[it].View())
              then next == it && subscribers == old(subscribers)[..it] + old(subscribers)[it + 1..]
              else next == it + 1 && subscribers == old(subscribers)
    {
      var subscriber := subscribers[it];
      next := it + 1;
      if audience == Everyone || (audience == Inactive && subscriber.inactive)
         || (audience == Active && !subscriber.inactive) {
        trace := Then(trace, NoticeEntry(n, subscriber.handle));
        if delete {
          subscribers := subscribers[..it] + subscribers[it + 1..];
          next := it;
        }
      }
    }

    /** The walk has passed `k` subscribers of the list `all`, whose values were `v`, and left `kept` of them. */
    ghost predicate Walked(w: Walk, n: Notice, delete: bool, audience: Audience)
      reads this, w.kept
    {
      && w.k <= |w.all| == |w.v|
      && |subscribers| - |w.kept| == |w.all| - w.k
      && subscribers == w.kept + w.all[w.k..]
      && (forall x :: x in w.kept ==> x in w.all)
      && Views(w.kept) == Remaining(delete, audience, w.v, w.k)
      && trace == Notices(w.start, n, audience, w.v, w.k)
    }

    method WalkOn(it: nat, n: Notice, delete: bool, audience: Audience, ghost w: Walk)
      returns (next: nat, ghost w': Walk)
      requires it < |subscribers| && it == |w.kept| && Walked(w, n, delete, audience)
      requires w.all[w.k].View() == w.v[w.k]
      modifies this`subscribers, this`trace
      ensures Walked(w', n, delete, audience) && next == |w'.kept|
      ensures w' == w.(k := w.k + 1, kept := w'.kept)
    {
      EraseStep(w.kept, w.all, w.k);
      RemainingStep(delete, audience, w.v, w.k);
      ViewsAppend(w.kept, w.all[w.k]);
      ghost var left := Views(w.kept);
      next := VisitSubscriber(it, n, delete, audience);
      assert Views(w.kept) == left;
      w' := w.(k := w.k + 1, kept := if next > it then w.kept + [w.all[w.k]] else w.kept);
    }

    lemma StartWalk(n: Notice, delete: bool, audience: Audience) returns (w: Walk)
      ensures w == Walk(subscribers, Views(subscribers), trace, [], 0) && Walked(w, n, delete, audience)
    {
      w := Walk(subscribers, Views(subscribers), trace, [], 0);
      assert w.all[0..] == w.all;
    }

    /** Walks the list to its end, notifies the audience, and erases whom it notified if asked to. */
    method WalkList(n: Notice, delete: bool, audience: Audience) returns (ghost w: Walk)
      modifies this`subscribers, this`trace
      ensures Walked(w, n, delete, audience) && |w.kept| >= |subscribers|
      ensures w.all == old(subscribers) && w.v == old(Views(subscribers)) && w.start == old(trace)
    {
      ghost var w0 := StartWalk(n, delete, audience);
      w := w0;
      var it := 0;
      while it < |subscribers|
        invariant w == w0.(k := w.k, kept := w.kept) && Views(w.all) == w.v
        invariant Walked(w, n, delete, audience) && it == |w.kept|
        decreases |w.all| - w.k
      {
        it, w := WalkOn(it, n, delete, audience, w);
      }
    }

    method NotifyAllSubscribers(n: Notice, delete: bool, audience: Audience)
      modifies this`subscribers, this`trace
      ensures View() == NotifyAll(old(View()), n, delete, audience)
      ensures forall x :: x in subscribers ==> x in old(subscribers)
    {
      ghost var w := WalkList(n, delete, audience);
      WalkDone(w, n, delete, audience);
    }

    lemma WalkDone(w: Walk, n: Notice, delete: bool, audience: Audience)
      requires Walked(w, n, delete, audience) && |w.kept| >= |subscribers|
      ensures View() == NotifyAll(Machine(state, w.v, w.start), n, delete, audience)
      ensures forall x :: x in subscribers ==> x in w.all
    {
      assert subscribers == w.kept && w.k == |w.all|;
    }

    method RequestOrReleaseDataConn(request: bool)
      modifies this`trace
      ensures trace == Then(old(trace), if request then Request else Release)
    {
      trace := Then(trace, if request then Request else Release);
    }

    method ProcessSubscribe(current: AgpsSubscriber)
      requires Valid()
      modifies this
      ensures View() == OnSubscribe(old(View()), old(current.View()))
      ensures forall x :: x in subscribers ==> x in old(subscribers) || fresh(x)
    {
      match state
      case Released =>
        AddSubscriber(current);
        RequestOrReleaseDataConn(true);
        state := Pending;
      case Pending =>
        AddSubscriber(current);
      case Acquired =>
        trace := Then(trace, OpenSuccess(current.handle));
        AddSubscriber(current);
      case Releasing =>
        AddSubscriber(current);
    }

    /** Erases every subscriber with the handle of `s`; there is just one. */
    method DeleteSubscriber(s: AgpsSubscriber, ghost at: nat)
      requires Valid() && at < |subscribers| && subscribers[at] == s
      modifies this`subscribers
      ensures subscribers == old(subscribers)[..at] + old(subscribers)[at + 1..]
    {
      ghost var all := subscribers;
      ghost var k := 0;
      var it := 0;
      while it < |subscribers|
        invariant 0 <= k <= |all| && it == if k <= at then k else k - 1
        invariant subscribers == if k <= at then all else all[..at] + all[at + 1..]
        decreases |all| - k
      {
        assert subscribers[it] == all[k];
        assert View().subs[it].handle == subscribers[it].handle;
        assert Views(all)[k].handle == all[k].handle && Views(all)[at].handle == s.handle;
        if subscribers[it].handle == s.handle {
          subscribers := subscribers[..it] + subscribers[it + 1..];
        } else {
          it := it + 1;
        }
        k := k + 1;
      }
    }

    /** The subscriber waits for the close, inactive, or is told and erased. */
    method RetireSubscriber(current: AgpsSubscriber, ghost at: nat)
      requires Valid() && at < |subscribers| && subscribers[at] == current
      modifies this`subscribers, this`trace, current
      ensures View() == Retire(old(View()), at)
      ensures forall x :: x in subscribers ==> x in old(subscribers)
    {
      forall k | 0 <= k < |subscribers| && k != at ensures subscribers[k] != current {
        assert View().subs[k].handle != View().subs[at].handle;
      }
      if current.waitForClose {
        current.inactive := true;
        assert Views(subscribers) == old(Views(subscribers))[at := old(current.View()).(inactive := true)];
      } else {
        trace := Then(trace, Closed(current.handle));
        DeleteSubscriber(current, at);
        assert Views(subscribers) == old(Views(subscribers))[..at] + old(Views(subscribers))[at + 1..];
      }
    }

    method ProcessUnsubscribe(current: AgpsSubscriber, ghost at: nat)
      requires Valid() && at < |subscribers| && subscribers[at] == current
      modifies this, current
      ensures View() == OnUnsubscribe(old(View()), at)
      ensures forall x :: x in subscribers ==> x in old(subscribers)
    {
      match state
      case Released =>
        trace := Then(trace, Closed(current.handle));
      case Pending | Acquired =>
        RetireSubscriber(current, at);
        if subscribers == [] {
          state := Released;
          RequestOrReleaseDataConn(false);
        } else {
          var active := AnyActiveSubscribers();
          if !active {
            state := Releasing;
            RequestOrReleaseDataConn(false);
          }
        }
      case Releasing =>
        RetireSubscriber(current, at);
        if subscribers == [] {
          state := Released;
        }
    }

    method ProcessGranted()
      modifies this
      ensures View() == OnGranted(old(View()))
      ensures forall x :: x in subscribers ==> x in old(subscribers)
    {
      if state == Pending {
        state, trace := Acquired, Then(trace, Granted);
        NotifyAllSubscribers(NoticeGranted, false, Active);
      }
    }

    method FinishRelease()
      modifies this
      ensures View() == ReleaseDone(old(View()))
      ensures forall x :: x in subscribers ==> x in old(subscribers)
    {
      NotifyAllSubscribers(NoticeClosed, true, Inactive);
      var active := AnyActiveSubscribers();
      if active {
        state := Pending;
        RequestOrReleaseDataConn(true);
      } else {
        state := Released;
      }
    }

    method ProcessReleased()
      modifies this
      ensures View() == OnReleased(old(View()))
      ensures forall x :: x in subscribers ==> x in old(subscribers)
    {
      match state
      case Acquired =>
        state, trace := Released, Then(trace, Lost);
        NotifyAllSubscribers(NoticeClosed, true, Everyone);
      case Releasing =>
        FinishRelease();
      case Released | Pending =>
    }

    method ProcessDenied()
      modifies this
      ensures View() == OnDenied(old(View()))
      ensures forall x :: x in subscribers ==> x in old(subscribers)
    {
      match state
      case Pending =>
        state, trace := Released, Then(trace, Denied);
        NotifyAllSubscribers(NoticeDenied, true, Everyone);
      case Releasing =>
        FinishRelease();
      case Released | Acquired =>
    }

    method DropAllSubscribers()
      modifies this
      ensures View() == OnReset(old(View())) && subscribers == []
    {
      ghost var all, v, start := subscribers, Views(subscribers), trace;
      ghost var k := 0;
      while subscribers != []
        invariant k <= |all| && subscribers == all[k..] && state == old(state)
        invariant trace == Notices(start, NoticeDropped, Everyone, v, k)
        decreases |all| - k
      {
        assert subscribers[0] == all[k] && v[k] == all[k].View();
        trace := Then(trace, Dropped(subscribers[0].handle));
        subscribers := subscribers[1..];
        k := k + 1;
      }
      assert k == |all|;
    }

    /** The listed subscriber with the handle, or null. */
    method GetSubscriber(h: int) returns (s: AgpsSubscriber?, ghost at: nat)
      ensures at == IndexOf(View().subs, h)
      ensures s == null <==> !IsListed(View().subs, h)
      ensures s != null ==> at < |subscribers| && subscribers[at] == s
    {
      for i := 0 to |subscribers|
        invariant forall k :: 0 <= k < i ==> subscribers[k].handle != h
      {
        if subscribers[i].handle == h {
          assert View().subs[i].handle == h;
          return subscribers[i], IndexOf(View().subs, h);
        }
      }
      return null, IndexOf(View().subs, h);
    }
  }

  ghost function Objects(list: seq<AgpsSubscriber>): set<object> {
    set x: object | x in list
  }

  /** The two machines, each created at most once, and the requests no machine serves. */
  class AgpsManager {
    var agnss: AgpsStateMachine?
    var internet: AgpsStateMachine?
    ghost var rejected: seq<int>

    constructor ()
      ensures Valid() && View() == Manager(None, None, [])
    {
      agnss, internet, rejected := null, null, [];
    }

    ghost function View(): Manager
      reads this, agnss, internet
      reads if agnss != null then agnss.subscribers else []
      reads if internet != null then internet.subscribers else []
    {
      Manager(if agnss == null then None else Some(agnss.View()),
              if internet == null then None else Some(internet.View()), rejected)
    }

    ghost function Repr(): set<object>
      reads this, agnss, internet
    {
      {this} + (if agnss == null then {} else {agnss} + Objects(agnss.subscribers))
             + (if internet == null then {} else {internet} + Objects(internet.subscribers))
    }

    /** The machines satisfy the protocol invariant and share no object. */
    ghost predicate Valid()
      reads this, agnss, internet
      reads if agnss != null then agnss.subscribers else []
      reads if internet != null then internet.subscribers else []
    {
      && ManagerInv(View())
      && (agnss != null && internet != null ==>
          agnss != internet && forall x :: x in agnss.subscribers ==> x !in internet.subscribers)
    }

    /** The machine that is not `sm` has not changed. */
    ghost predicate OtherKept(before: Manager, sm: AgpsStateMachine)
      reads this, agnss, internet
      reads if agnss != null then agnss.subscribers else []
      reads if internet != null then internet.subscribers else []
    {
      && (agnss != null && agnss != sm ==> before.agnss == Some(agnss.View()))
      && (internet != null && internet != sm ==> before.internet == Some(internet.View()))
    }

    /** `getAgpsStateMachine`. */
    method MachineOf(kind: AgpsType) returns (sm: AgpsStateMachine?)
      ensures sm == if ServedByAgnss(kind) then agnss else internet
    {
      match kind
      case TypeInvalid => sm := agnss;
      case TypeSupl => sm := agnss;
      case TypeSuplEs => sm := agnss;
      case TypeWwanAny => sm := internet;
      case TypeOther => sm := internet;
    }

    method CreateAgpsStateMachines(wwan: bool, supl: bool, agpsCapable: bool)
      requires Valid()
      modifies this
      ensures Valid() && View() == Execute(old(View()), Create(wwan, supl, agpsCapable))
    {
      ExecuteKeepsInv(View(), Create(wwan, supl, agpsCapable));
      if internet == null && wwan {
        internet := new AgpsStateMachine();
      }
      if agpsCapable {
        if agnss == null && supl {
          agnss := new AgpsStateMachine();
        }
      }
    }

    method RequestATL(h: int, agpsType: AgpsType, emergencyPdn: bool)
      requires Valid()
      modifies Repr()
      ensures Valid() && View() == Execute(old(View()), RequestAtl(h, agpsType))
    {
      var kind := if !emergencyPdn && agpsType == TypeSuplEs then TypeSupl else agpsType;
      var sm := MachineOf(kind);
      if sm == null {
        rejected := rejected + [h];
        return;
      }
      Subscribe(sm, h, agpsType);
    }

    /** Creates the subscriber, makes it current and sends SUBSCRIBE. */
    method Subscribe(sm: AgpsStateMachine, h: int, ghost kind: AgpsType)
      requires Valid() && sm == if ServedByAgnss(kind) then agnss else internet
      modifies sm
      ensures Valid() && View() == Execute(old(View()), RequestAtl(h, kind))
    {
      ghost var before := View();
      var subscriber := new AgpsSubscriber(h, true, false);
      assert View() == before;
      sm.ProcessSubscribe(subscriber);
      assert OtherKept(before, sm);
      StepForKeepsInv(before, kind, AgpsProtocol.Subscribe(NewSubscriber(h)));
    }

    method ReleaseATL(h: int)
      requires Valid()
      modifies Repr()
      ensures Valid() && View() == Execute(old(View()), ReleaseAtl(h))
    {
      var sm, subscriber, at := FindSubscriber(h);
      if sm == null {
        return;
      }
      ReleaseFrom(sm, subscriber, h, at, if sm == agnss then TypeSupl else TypeWwanAny);
    }

    /** Makes the listed subscriber current and sends UNSUBSCRIBE. */
    method ReleaseFrom(sm: AgpsStateMachine, subscriber: AgpsSubscriber, h: int, ghost at: nat, ghost kind: AgpsType)
      requires Valid() && sm == if ServedByAgnss(kind) then agnss else internet
      requires at < |sm.subscribers| && sm.subscribers[at] == subscriber && at == IndexOf(sm.View().subs, h)
      modifies sm, subscriber
      ensures Valid() && View() == StepFor(old(View()), kind, Unsubscribe(h))
    {
      ghost var before := View();
      ghost var other := if sm == agnss then internet else agnss;
      assert other != null ==> other != sm && subscriber !in other.subscribers;
      sm.ProcessUnsubscribe(subscriber, at);
      assert OtherKept(before, sm);
      StepForKeepsInv(before, kind, Unsubscribe(h));
    }

    /** Looks for the handle in both machines, the AGNSS machine first. */
    method FindSubscriber(h: int)
      returns (sm: AgpsStateMachine?, subscriber: AgpsSubscriber?, ghost at: nat)
      ensures sm == if Holds(View().agnss, h) then agnss else if Holds(View().internet, h) then internet else null
      ensures sm != null ==> subscriber != null && at < |sm.subscribers| && sm.subscribers[at] == subscriber
                             && at == IndexOf(sm.View().subs, h)
    {
      sm, subscriber, at := null, null, 0;
      if agnss != null {
        subscriber, at := agnss.GetSubscriber(h);
        if subscriber != null { sm := agnss; }
      }
      if sm == null && internet != null {
        subscriber, at := internet.GetSubscriber(h);
        if subscriber != null { sm := internet; }
      }
    }

    method ReportAtlOpenSuccess(kind: AgpsType)
      requires Valid() && MachineFor(View(), kind).Some?
      modifies Repr()
      ensures Valid() && View() == Execute(old(View()), AtlOpenSuccess(kind))
    {
      var sm := MachineOf(kind);
      SendGranted(sm, kind);
    }

    method SendGranted(sm: AgpsStateMachine, ghost kind: AgpsType)
      requires Valid() && sm == if ServedByAgnss(kind) then agnss else internet
      modifies sm
      ensures Valid() && View() == Execute(old(View()), AtlOpenSuccess(kind))
    {
      ghost var before := View();
      sm.ProcessGranted();
      assert OtherKept(before, sm);
      StepForKeepsInv(before, kind, EventGranted);
    }

    method ReportAtlOpenFailed(kind: AgpsType)
      requires Valid() && MachineFor(View(), kind).Some?
      modifies Repr()
      ensures Valid() && View() == Execute(old(View()), AtlOpenFailed(kind))
    {
      var sm := MachineOf(kind);
      SendDenied(sm, kind);
    }

    method SendDenied(sm: AgpsStateMachine, ghost kind: AgpsType)
      requires Valid() && sm == if ServedByAgnss(kind) then agnss else internet
      modifies sm
      ensures Valid() && View() == Execute(old(View()), AtlOpenFailed(kind))
    {
      ghost var before := View();
      sm.ProcessDenied();
      assert OtherKept(before, sm);
      StepForKeepsInv(before, kind, EventDenied);
    }

    method ReportAtlClosed(kind: AgpsType)
      requires Valid() && MachineFor(View(), kind).Some?
      modifies Repr()
      ensures Valid() && View() == Execute(old(View()), AtlClosed(kind))
    {
      var sm := MachineOf(kind);
      SendReleased(sm, kind);
    }

    method SendReleased(sm: AgpsStateMachine, ghost kind: AgpsType)
      requires Valid() && sm == if ServedByAgnss(kind) then agnss else internet
      modifies sm
      ensures Valid() && View() == Execute(old(View()), AtlClosed(kind))
    {
      ghost var before := View();
      sm.ProcessReleased();
      assert OtherKept(before, sm);
      StepForKeepsInv(before, kind, EventReleased);
    }

    method HandleModemSSR()
      requires Valid()
      modifies Repr()
      ensures Valid() && View() == Execute(old(View()), ModemSsr)
    {
      ExecuteKeepsInv(View(), ModemSsr);
      if agnss != null {
        agnss.DropAllSubscribers();
      }
      if internet != null {
        internet.DropAllSubscribers();
      }
    }
  }
}
