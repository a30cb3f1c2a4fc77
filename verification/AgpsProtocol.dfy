/**
 The AGPS connection state machine of gps/gnss/Agps.cpp as a function from machine to
 machine. The trace records, in order, what the machine tells the framework and its
 subscribers, which framework answers it accepts, and how its subscriber list changes.
 */
module AgpsProtocol {

  datatype State = Released | Pending | Acquired | Releasing

  datatype Subscriber = Subscriber(handle: int, waitForClose: bool, inactive: bool)

  datatype Entry =
    | Request                      // data connection requested from the framework
    | Release                      // data connection given back
    | Granted                      // the framework's grant, taken in PENDING
    | Denied                       // the framework's denial, taken in PENDING
    | Lost                         // a forced release, taken in ACQUIRED
    | OpenSuccess(handle: int)
    | OpenFailed(handle: int)
    | Closed(handle: int)
    | Listed(handle: int)          // appended to the subscriber list
    | Dropped(handle: int)         // deleted by a modem reset

  datatype History = Start | Then(past: History, last: Entry)

  datatype Machine = Machine(state: State, subs: seq<Subscriber>, trace: History)

  const INITIAL := Machine(Released, [], Start)

  datatype Notice = NoticeGranted | NoticeDenied | NoticeClosed | NoticeDropped

  datatype Audience = Everyone | Inactive | Active

  datatype Event =
    | Subscribe(sub: Subscriber)
    | Unsubscribe(handle: int)
    | EventGranted
    | EventReleased
    | EventDenied
    | ModemReset

  // ---------------------------------------------------------------------------
  // Subscriber list
  // ---------------------------------------------------------------------------

  ghost predicate IsListed(subs: seq<Subscriber>, h: int) {
    exists i :: 0 <= i < |subs| && subs[i].handle == h
  }

  ghost predicate DistinctHandles(subs: seq<Subscriber>) {
    forall i, j :: 0 <= i < j < |subs| ==> subs[i].handle != subs[j].handle
  }

  ghost predicate AnyActive(subs: seq<Subscriber>) {
    exists i :: 0 <= i < |subs| && !subs[i].inactive
  }

  ghost predicate AnyInactive(subs: seq<Subscriber>) {
    exists i :: 0 <= i < |subs| && subs[i].inactive
  }

  predicate Hears(audience: Audience, s: Subscriber) {
    match audience
    case Everyone => true
    case Inactive => s.inactive
    case Active => !s.inactive
  }

  function NoticeEntry(n: Notice, h: int): Entry {
    match n
    case NoticeGranted => OpenSuccess(h)
    case NoticeDenied => OpenFailed(h)
    case NoticeClosed => Closed(h)
    case NoticeDropped => Dropped(h)
  }

  /** The history after the part of the first `k` subscribers that hears a notice was told, in list order. */
  function Notices(t: History, n: Notice, audience: Audience, subs: seq<Subscriber>, k: nat): (r: History)
    requires k <= |subs|
  {
    if k == 0 then t
    else
      var before, s := Notices(t, n, audience, subs, k - 1), subs[k - 1];
      if Hears(audience, s) then Then(before, NoticeEntry(n, s.handle)) else before
  }

  /** The part of the first `k` subscribers that does not hear a notice, in list order. */
  function Deaf(audience: Audience, subs: seq<Subscriber>, k: nat): (r: seq<Subscriber>)
    requires k <= |subs|
    ensures audience == Everyone ==> r == []
    ensures forall i :: 0 <= i < |r| ==> !Hears(audience, r[i])
  {
    if k == 0 then []
    else if Hears(audience, subs[k - 1]) then Deaf(audience, subs, k - 1)
    else Deaf(audience, subs, k - 1) + [subs[k - 1]]
  }

  function NotifyAll(m: Machine, n: Notice, delete: bool, audience: Audience): Machine {
    m.(subs := if delete then Deaf(audience, m.subs, |m.subs|) else m.subs,
       trace := Notices(m.trace, n, audience, m.subs, |m.subs|))
  }

  ghost function Add(m: Machine, s: Subscriber): Machine {
    if IsListed(m.subs, s.handle) then m
    else m.(subs := m.subs + [s], trace := Then(m.trace, Listed(s.handle)))
  }

  // ---------------------------------------------------------------------------
  // Events
  // ---------------------------------------------------------------------------

  ghost function OnSubscribe(m: Machine, s: Subscriber): Machine {
    match m.state
    case Released =>
      var added := Add(m, s);
      added.(trace := Then(added.trace, Request), state := Pending)
    case Pending => Add(m, s)
    case Acquired => Add(m.(trace := Then(m.trace, OpenSuccess(s.handle))), s)
    case Releasing => Add(m, s)
  }

  /** Unsubscribing the subscriber at `i` while a connection is wanted or being released:
      it waits inactive for the close, or is told at once and removed. */
  function Retire(m: Machine, i: nat): Machine
    requires i < |m.subs|
  {
    if m.subs[i].waitForClose then m.(subs := m.subs[i := m.subs[i].(inactive := true)])
    else m.(subs := m.subs[..i] + m.subs[i + 1..], trace := Then(m.trace, Closed(m.subs[i].handle)))
  }

  ghost function OnUnsubscribe(m: Machine, i: nat): Machine
    requires i < |m.subs|
  {
    match m.state
    case Released => m.(trace := Then(m.trace, Closed(m.subs[i].handle)))
    case Pending | Acquired =>
      var r := Retire(m, i);
      if r.subs == [] then r.(state := Released, trace := Then(r.trace, Release))
      else if !AnyActive(r.subs) then r.(state := Releasing, trace := Then(r.trace, Release))
      else r
    case Releasing =>
      var r := Retire(m, i);
      if r.subs == [] then r.(state := Released) else r
  }

  function OnGranted(m: Machine): Machine {
    if m.state == Pending
    then NotifyAll(m.(state := Acquired, trace := Then(m.trace, Granted)), NoticeGranted, false, Active)
    else m
  }

  /** Both a close and a denial end the release that is under way. */
  ghost function ReleaseDone(m: Machine): Machine {
    var r := NotifyAll(m, NoticeClosed, true, Inactive);
    if AnyActive(r.subs) then r.(state := Pending, trace := Then(r.trace, Request)) else r.(state := Released)
  }

  ghost function OnReleased(m: Machine): Machine {
    match m.state
    case Acquired => NotifyAll(m.(state := Released, trace := Then(m.trace, Lost)), NoticeClosed, true, Everyone)
    case Releasing => ReleaseDone(m)
    case Released | Pending => m
  }

  ghost function OnDenied(m: Machine): Machine {
    match m.state
    case Pending => NotifyAll(m.(state := Released, trace := Then(m.trace, Denied)), NoticeDenied, true, Everyone)
    case Releasing => ReleaseDone(m)
    case Released | Acquired => m
  }

  function OnReset(m: Machine): Machine {
    m.(subs := [], trace := Notices(m.trace, NoticeDropped, Everyone, m.subs, |m.subs|))
  }

  /** The position `getSubscriber` finds: the first with the handle. */
  function IndexOf(subs: seq<Subscriber>, h: int): (i: nat)
    ensures i <= |subs|
    ensures i < |subs| ==> subs[i].handle == h
    ensures forall k :: 0 <= k < i ==> subs[k].handle != h
  {
    if subs == [] || subs[0].handle == h then 0 else 1 + IndexOf(subs[1..], h)
  }

  /** One event. An unsubscribe reaches the machine only for a listed handle. */
  ghost function Step(m: Machine, e: Event): Machine {
    match e
    case Subscribe(s) => OnSubscribe(m, s)
    case Unsubscribe(h) => var i := IndexOf(m.subs, h); if i < |m.subs| then OnUnsubscribe(m, i) else m
    case EventGranted => OnGranted(m)
    case EventReleased => OnReleased(m)
    case EventDenied => OnDenied(m)
    case ModemReset => OnReset(m)
  }

  // ---------------------------------------------------------------------------
  // What a trace may look like
  // ---------------------------------------------------------------------------

  datatype Phase = Idle | Requested | Up | Illegal

  function PhaseStep(p: Phase, e: Entry): Phase {
    match e
    case Request => if p == Idle then Requested else Illegal
    case Granted => if p == Requested then Up else Illegal
    case Denied => if p == Requested then Idle else Illegal
    case Lost => if p == Up then Idle else Illegal
    case Release => if p == Requested || p == Up then Idle else Illegal
    case OpenSuccess(_) => if p == Up then Up else Illegal
    case _ => p
  }

  /** The data connection as an outside observer of the trace knows it. `Illegal` marks a
      second request, an answer nobody asked for, or a success reported without a connection. */
  function ConnectionPhase(t: History): Phase {
    match t
    case Start => Idle
    case Then(past, e) => PhaseStep(ConnectionPhase(past), e)
  }

  datatype Membership = Out | In | Broken

  predicate Terminal(e: Entry, h: int) {
    e == OpenFailed(h) || e == Closed(h) || e == Dropped(h)
  }

  function MembershipStep(p: Membership, e: Entry, h: int): Membership {
    if e == Listed(h) then (if p == Out then In else Broken)
    else if Terminal(e, h) then (if p == In then Out else Broken)
    else p
  }

  /** Whether the handle is waiting for its final notice. `Broken` marks a second insertion
      or a final notice to a handle that is not waiting. */
  function HandleMembership(t: History, h: int): Membership {
    match t
    case Start => Out
    case Then(past, e) => MembershipStep(HandleMembership(past, h), e, h)
  }

  function StatePhase(s: State): Phase {
    match s
    case Released | Releasing => Idle
    case Pending => Requested
    case Acquired => Up
  }

  ghost predicate TraceTracksList(m: Machine) {
    forall h :: HandleMembership(m.trace, h) == if IsListed(m.subs, h) then In else Out
  }

  /** What every reachable machine satisfies. */
  ghost predicate Inv(m: Machine) {
    && DistinctHandles(m.subs)
    && (forall i :: 0 <= i < |m.subs| && m.subs[i].inactive ==> m.subs[i].waitForClose)
    && (m.state == Released ==> m.subs == [])
    && (m.state == Pending || m.state == Acquired ==> m.subs == [] || AnyActive(m.subs))
    && ConnectionPhase(m.trace) == StatePhase(m.state)
    && TraceTracksList(m)
  }

  // ---------------------------------------------------------------------------
  // Trace lemmas
  // ---------------------------------------------------------------------------

  lemma {:induction false} NoticesKeepPhase(t: History, n: Notice, a: Audience, subs: seq<Subscriber>, k: nat)
    requires k <= |subs| && (n == NoticeGranted ==> ConnectionPhase(t) == Up)
    ensures ConnectionPhase(Notices(t, n, a, subs, k)) == ConnectionPhase(t)
  {
    if k > 0 {
      NoticesKeepPhase(t, n, a, subs, k - 1);
    }
  }

  lemma {:induction false} GrantsKeepMembership(t: History, a: Audience, subs: seq<Subscriber>, k: nat, h: int)
    requires k <= |subs|
    ensures HandleMembership(Notices(t, NoticeGranted, a, subs, k), h) == HandleMembership(t, h)
  {
    if k > 0 {
      GrantsKeepMembership(t, a, subs, k - 1, h);
    }
  }

  /** The handle belongs to one of the first `k` subscribers, who hears the notice or does not. */
  ghost predicate Among(a: Audience, subs: seq<Subscriber>, k: nat, h: int, hears: bool)
    requires k <= |subs|
  {
    exists i :: 0 <= i < k && Hears(a, subs[i]) == hears && subs[i].handle == h
  }

  /** A final notice reaches each waiting handle of its audience once. */
  lemma {:induction false} FinalNotices(t: History, n: Notice, a: Audience, subs: seq<Subscriber>, k: nat, h: int)
    requires k <= |subs| && n != NoticeGranted && DistinctHandles(subs)
    requires HandleMembership(t, h) == In || !Among(a, subs, k, h, true)
    ensures HandleMembership(Notices(t, n, a, subs, k), h)
         == if Among(a, subs, k, h, true) then Out else HandleMembership(t, h)
  {
    if k > 0 {
      FinalNotices(t, n, a, subs, k - 1, h);
      var s := subs[k - 1];
      assert Among(a, subs, k, h, true) <==> Among(a, subs, k - 1, h, true) || (Hears(a, s) && s.handle == h);
    }
  }

  lemma {:induction false} DeafIsDistinct(a: Audience, subs: seq<Subscriber>, k: nat)
    requires k <= |subs| && DistinctHandles(subs)
    ensures DistinctHandles(Deaf(a, subs, k))
    ensures forall h :: IsListed(Deaf(a, subs, k), h) <==> Among(a, subs, k, h, false)
  {
    if k > 0 {
      var s, r, r' := subs[k - 1], Deaf(a, subs, k - 1), Deaf(a, subs, k);
      DeafIsDistinct(a, subs, k - 1);
      assert !Among(a, subs, k - 1, s.handle, false);
      forall h ensures IsListed(r', h) <==> Among(a, subs, k, h, false) {
        assert Among(a, subs, k, h, false) <==> Among(a, subs, k - 1, h, false) || (!Hears(a, s) && s.handle == h);
        if !Hears(a, s) {
          assert r'[|r|] == s && forall i :: 0 <= i < |r| ==> r'[i] == r[i];
          assert IsListed(r', h) <==> IsListed(r, h) || s.handle == h;
        }
      }
      assert !IsListed(r, s.handle);
    }
  }

  // ---------------------------------------------------------------------------
  // Every event keeps the invariant
  // ---------------------------------------------------------------------------

  /** Notifying and deleting an audience of the whole list. */
  lemma NotifyKeepsTracking(m: Machine, n: Notice, a: Audience)
    requires n != NoticeGranted && DistinctHandles(m.subs) && TraceTracksList(m)
    ensures var r := NotifyAll(m, n, true, a);
            DistinctHandles(r.subs) && TraceTracksList(r) && ConnectionPhase(r.trace) == ConnectionPhase(m.trace)
  {
    var k := |m.subs|;
    NoticesKeepPhase(m.trace, n, a, m.subs, k);
    DeafIsDistinct(a, m.subs, k);
    forall h ensures HandleMembership(NotifyAll(m, n, true, a).trace, h)
                  == if IsListed(Deaf(a, m.subs, k), h) then In else Out {
      FinalNotices(m.trace, n, a, m.subs, k, h);
      assert IsListed(m.subs, h) <==> Among(a, m.subs, k, h, true) || Among(a, m.subs, k, h, false);
    }
  }

  lemma AddKeeps(m: Machine, s: Subscriber)
    requires DistinctHandles(m.subs) && TraceTracksList(m) && !s.inactive
    ensures var r := Add(m, s);
            && DistinctHandles(r.subs) && TraceTracksList(r) && ConnectionPhase(r.trace) == ConnectionPhase(m.trace)
            && (m.subs == [] ==> AnyActive(r.subs)) && (AnyActive(m.subs) ==> AnyActive(r.subs))
  {
    var r := Add(m, s);
    if r != m {
      assert r.subs[|m.subs|] == s;
      assert forall i :: 0 <= i < |m.subs| ==> r.subs[i] == m.subs[i];
      forall h ensures IsListed(r.subs, h) <==> IsListed(m.subs, h) || s.handle == h {
      }
    }
  }

  lemma SubscribeKeeps(m: Machine, s: Subscriber)
    requires Inv(m) && !s.inactive
    ensures Inv(OnSubscribe(m, s))
  {
    var m' := if m.state == Acquired then m.(trace := Then(m.trace, OpenSuccess(s.handle))) else m;
    AddKeeps(m', s);
  }

  lemma RetireKeeps(m: Machine, i: nat)
    requires i < |m.subs| && DistinctHandles(m.subs) && TraceTracksList(m)
    ensures var r := Retire(m, i);
            DistinctHandles(r.subs) && TraceTracksList(r) && ConnectionPhase(r.trace) == ConnectionPhase(m.trace)
  {
    var r, x := Retire(m, i), m.subs[i].handle;
    if m.subs[i].waitForClose {
      assert forall k :: 0 <= k < |m.subs| ==> r.subs[k].handle == m.subs[k].handle;
      assert forall h :: IsListed(r.subs, h) <==> IsListed(m.subs, h);
    } else {
      assert forall k :: 0 <= k < i ==> r.subs[k] == m.subs[k];
      assert forall k :: i <= k < |r.subs| ==> r.subs[k] == m.subs[k + 1];
      forall h ensures IsListed(r.subs, h) <==> IsListed(m.subs, h) && h != x {
        if IsListed(m.subs, h) && h != x {
          var k :| 0 <= k < |m.subs| && m.subs[k].handle == h;
          assert r.subs[if k < i then k else k - 1].handle == h;
        }
      }
      assert IsListed(m.subs, x);
    }
  }

  lemma UnsubscribeKeeps(m: Machine, i: nat)
    requires Inv(m) && i < |m.subs|
    ensures Inv(OnUnsubscribe(m, i))
  {
    RetireKeeps(m, i);
  }

  lemma GrantedKeeps(m: Machine)
    requires Inv(m)
    ensures Inv(OnGranted(m))
  {
    if m.state == Pending {
      NoticesKeepPhase(Then(m.trace, Granted), NoticeGranted, Active, m.subs, |m.subs|);
      forall h ensures HandleMembership(OnGranted(m).trace, h) == HandleMembership(m.trace, h) {
        GrantsKeepMembership(Then(m.trace, Granted), Active, m.subs, |m.subs|, h);
      }
    }
  }

  lemma ReleaseDoneKeeps(m: Machine)
    requires Inv(m) && m.state == Releasing
    ensures Inv(ReleaseDone(m))
  {
    NotifyKeepsTracking(m, NoticeClosed, Inactive);
    var r := NotifyAll(m, NoticeClosed, true, Inactive);
    assert r.subs != [] ==> !r.subs[0].inactive;
  }

  lemma EndKeeps(m: Machine, e: Entry, n: Notice)
    requires Inv(m) && (e == Lost || e == Denied) && (n == NoticeClosed || n == NoticeDenied)
    requires PhaseStep(StatePhase(m.state), e) == Idle
    ensures Inv(NotifyAll(m.(state := Released, trace := Then(m.trace, e)), n, true, Everyone))
  {
    var m' := m.(state := Released, trace := Then(m.trace, e));
    NotifyKeepsTracking(m', n, Everyone);
  }

  lemma ResetKeeps(m: Machine)
    requires Inv(m)
    ensures Inv(OnReset(m))
  {
    NotifyKeepsTracking(m, NoticeDropped, Everyone);
    assert OnReset(m) == NotifyAll(m, NoticeDropped, true, Everyone);
  }

  /** Subscribers come from `requestATL`, which creates them active. */
  ghost predicate Issued(e: Event) {
    e.Subscribe? ==> !e.sub.inactive
  }

  lemma StepKeepsInv(m: Machine, e: Event)
    requires Inv(m) && Issued(e)
    ensures Inv(Step(m, e))
  {
    match e
    case Subscribe(s) => SubscribeKeeps(m, s);
    case Unsubscribe(h) =>
      var i := IndexOf(m.subs, h);
      if i < |m.subs| { UnsubscribeKeeps(m, i); }
    case EventGranted => GrantedKeeps(m);
    case EventReleased =>
      if m.state == Acquired { EndKeeps(m, Lost, NoticeClosed); }
      if m.state == Releasing { ReleaseDoneKeeps(m); }
    case EventDenied =>
      if m.state == Pending { EndKeeps(m, Denied, NoticeDenied); }
      if m.state == Releasing { ReleaseDoneKeeps(m); }
    case ModemReset => ResetKeeps(m);
  }
}
