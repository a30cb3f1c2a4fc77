/**
 A reference for the AGPS machine: no list, no order, only what each handle is to it. The machine
 of the source agrees with it in state, in subscribers and in everything it says, in every run.
 */
module AgpsReference {
  import opened AgpsProtocol
  import opened AgpsTheorems

  datatype Role = Role(waitForClose: bool, inactive: bool)

  datatype Simple = Simple(state: State, table: map<int, Role>)

  const NOBODY := Simple(Released, map[])

  predicate SomeActive(table: map<int, Role>) {
    exists h :: h in table && !table[h].inactive
  }

  function ActiveOnly(table: map<int, Role>): map<int, Role> {
    map h | h in table && !table[h].inactive :: table[h]
  }

  /** A release has ended: who waited for it goes, the others get a connection. */
  function Ended(s: Simple): Simple {
    Simple(if SomeActive(s.table) then Pending else Released, ActiveOnly(s.table))
  }

  function SimpleStep(s: Simple, e: Event): Simple {
    match e
    case Subscribe(x) =>
      Simple(if s.state == Released then Pending else s.state,
             if x.handle in s.table then s.table else s.table[x.handle := Role(x.waitForClose, false)])
    case Unsubscribe(h) =>
      if h !in s.table then s
      else
        var t := Retired(s.table, h);
        Simple(if t == map[] then Released else if SomeActive(t) then s.state else Releasing, t)
    case EventGranted => if s.state == Pending then s.(state := Acquired) else s
    case EventReleased =>
      if s.state == Acquired then NOBODY else if s.state == Releasing then Ended(s) else s
    case EventDenied =>
      if s.state == Pending then NOBODY else if s.state == Releasing then Ended(s) else s
    case ModemReset => s.(table := map[])
  }

  function SimpleRun(events: seq<Event>): Simple {
    if events == [] then NOBODY else SimpleStep(SimpleRun(events[..|events| - 1]), events[|events| - 1])
  }

  predicate Ends(s: Simple, e: Event) {
    s.state == Releasing && (e == EventReleased || e == EventDenied)
  }

  /** Whether the entry is among what the machine says on the event; no entry is said twice. */
  predicate Says(s: Simple, e: Event, x: Entry) {
    match x
    case Request => (e.Subscribe? && s.state == Released) || (Ends(s, e) && SomeActive(s.table))
    case Release =>
      && e.Unsubscribe? && e.handle in s.table && (s.state == Pending || s.state == Acquired)
      && !OtherActive(s.table, e.handle)
    case Granted => e == EventGranted && s.state == Pending
    case Denied => e == EventDenied && s.state == Pending
    case Lost => e == EventReleased && s.state == Acquired
    case OpenSuccess(h) =>
      || (e.Subscribe? && e.sub.handle == h && s.state == Acquired)
      || (e == EventGranted && s.state == Pending && h in s.table && !s.table[h].inactive)
    case OpenFailed(h) => e == EventDenied && s.state == Pending && h in s.table
    case Closed(h) =>
      && h in s.table
      && (|| (e == Unsubscribe(h) && !s.table[h].waitForClose)
          || (e == EventReleased && s.state == Acquired)
          || (Ends(s, e) && s.table[h].inactive))
    case Listed(h) => e.Subscribe? && e.sub.handle == h && h !in s.table
    case Dropped(h) => e == ModemReset && h in s.table
  }

  function TimesSaid(events: seq<Event>, x: Entry): nat {
    if events == [] then 0
    else
      var before, e := events[..|events| - 1], events[|events| - 1];
      TimesSaid(before, x) + if Says(SimpleRun(before), e, x) then 1 else 0
  }

  // ---------------------------------------------------------------------------
  // List and table
  // ---------------------------------------------------------------------------

  function RoleOf(x: Subscriber): Role {
    Role(x.waitForClose, x.inactive)
  }

  /** The table has exactly the listed subscribers. */
  ghost predicate Shows(table: map<int, Role>, subs: seq<Subscriber>) {
    forall x :: x in subs <==> x.handle in table && table[x.handle] == RoleOf(x)
  }

  ghost predicate Agrees(s: Simple, m: Machine) {
    s.state == m.state && Shows(s.table, m.subs)
  }

  lemma ListedIsInTable(table: map<int, Role>, subs: seq<Subscriber>, h: int)
    requires Shows(table, subs)
    ensures IsListed(subs, h) <==> h in table
  {
    if i :| 0 <= i < |subs| && subs[i].handle == h {
      assert subs[i] in subs;
    }
    if h in table {
      assert Subscriber(h, table[h].waitForClose, table[h].inactive) in subs;
    }
  }

  lemma EmptyTable(table: map<int, Role>, subs: seq<Subscriber>)
    requires Shows(table, subs)
    ensures table == map[] <==> subs == []
    ensures SomeActive(table) <==> AnyActive(subs)
  {
    forall i | 0 <= i < |subs| ensures subs[i].handle in table && table[subs[i].handle] == RoleOf(subs[i]) {
      assert subs[i] in subs;
    }
    forall h | h in table ensures exists i :: 0 <= i < |subs| && subs[i].inactive == table[h].inactive {
      var x := Subscriber(h, table[h].waitForClose, table[h].inactive);
      assert x in subs;
      var i :| 0 <= i < |subs| && subs[i] == x;
    }
    if subs == [] {
      assert forall h :: h !in table;
      assert table.Keys == {};
    } else {
      assert subs[0].handle in table;
    }
    if i :| 0 <= i < |subs| && !subs[i].inactive {
      assert !table[subs[i].handle].inactive;
    }
  }

  lemma AmongTable(a: Audience, table: map<int, Role>, subs: seq<Subscriber>, h: int)
    requires Shows(table, subs)
    ensures Among(a, subs, |subs|, h, true) <==>
            h in table && (a == Everyone || (a == Inactive && table[h].inactive) || (a == Active && !table[h].inactive))
  {
    if i :| 0 <= i < |subs| && Hears(a, subs[i]) && subs[i].handle == h {
      assert subs[i] in subs;
    }
    if h in table {
      var x := Subscriber(h, table[h].waitForClose, table[h].inactive);
      var i :| 0 <= i < |subs| && subs[i] == x;
    }
  }

  lemma AddShows(table: map<int, Role>, m: Machine, s: Subscriber)
    requires Shows(table, m.subs) && !s.inactive
    ensures Shows(if s.handle in table then table else table[s.handle := RoleOf(s)], Add(m, s).subs)
  {
    ListedIsInTable(table, m.subs, s.handle);
    if s.handle !in table {
      assert forall x :: x in m.subs + [s] <==> x in m.subs || x == s;
    }
  }

  lemma DistinctElements(subs: seq<Subscriber>, i: nat, x: Subscriber)
    requires DistinctHandles(subs) && i < |subs| && x in subs
    ensures x.handle == subs[i].handle ==> x == subs[i]
  {
    var j :| 0 <= j < |subs| && subs[j] == x;
  }

  lemma RetireElements(m: Machine, i: nat, x: Subscriber)
    requires DistinctHandles(m.subs) && i < |m.subs|
    ensures var s := m.subs[i];
            x in Retire(m, i).subs <==>
            (x in m.subs && x.handle != s.handle) || (s.waitForClose && x == s.(inactive := true))
  {
    var subs, s, r := m.subs, m.subs[i], Retire(m, i).subs;
    if x in r {
      var j :| 0 <= j < |r| && r[j] == x;
      var k := if s.waitForClose || j < i then j else j + 1;
      assert k != i ==> x == subs[k] && subs[k].handle != s.handle;
    }
    if x in subs && x.handle != s.handle {
      var j :| 0 <= j < |subs| && subs[j] == x;
      assert r[if s.waitForClose || j < i then j else j - 1] == x;
    }
    if s.waitForClose {
      assert r[i] == s.(inactive := true);
    }
  }

  function Retired(table: map<int, Role>, h: int): map<int, Role>
    requires h in table
  {
    if table[h].waitForClose then table[h := Role(true, true)] else table - {h}
  }

  lemma RetireShows(table: map<int, Role>, m: Machine, i: nat)
    requires Shows(table, m.subs) && DistinctHandles(m.subs) && i < |m.subs|
    ensures var h := m.subs[i].handle;
            h in table && table[h] == RoleOf(m.subs[i]) && Shows(Retired(table, h), Retire(m, i).subs)
  {
    assert m.subs[i] in m.subs;
    var t := Retired(table, m.subs[i].handle);
    forall x ensures x in Retire(m, i).subs <==> x.handle in t && t[x.handle] == RoleOf(x) {
      RetireElements(m, i, x);
    }
  }

  /** Somebody else is active. */
  predicate OtherActive(table: map<int, Role>, h: int) {
    exists k :: k in table && k != h && !table[k].inactive
  }

  lemma RetiredActive(table: map<int, Role>, h: int)
    requires h in table
    ensures SomeActive(Retired(table, h)) <==> OtherActive(table, h)
  {
    var t := Retired(table, h);
    if k :| k in table && k != h && !table[k].inactive {
      assert k in t && !t[k].inactive;
    }
    if k :| k in t && !t[k].inactive {
      assert k in table && k != h && !table[k].inactive;
    }
  }

  lemma {:induction false} DeafElements(a: Audience, subs: seq<Subscriber>, k: nat)
    requires k <= |subs|
    ensures forall x :: x in Deaf(a, subs, k) <==> x in subs[..k] && !Hears(a, x)
  {
    if k > 0 {
      DeafElements(a, subs, k - 1);
      assert subs[..k] == subs[..k - 1] + [subs[k - 1]];
    }
  }

  lemma InactiveGone(table: map<int, Role>, subs: seq<Subscriber>)
    requires Shows(table, subs)
    ensures Shows(ActiveOnly(table), Deaf(Inactive, subs, |subs|))
  {
    DeafElements(Inactive, subs, |subs|);
    assert subs[..|subs|] == subs;
  }

  lemma UnsubscribeAgrees(s: Simple, m: Machine, h: int)
    requires Inv(m) && Agrees(s, m)
    ensures Agrees(SimpleStep(s, Unsubscribe(h)), Step(m, Unsubscribe(h)))
  {
    ListedIsInTable(s.table, m.subs, h);
    var i := IndexOf(m.subs, h);
    if i < |m.subs| {
      RetireShows(s.table, m, i);
      EmptyTable(Retired(s.table, h), Retire(m, i).subs);
    }
  }

  lemma EndedAgrees(s: Simple, m: Machine)
    requires Agrees(s, m)
    ensures Agrees(Ended(s), ReleaseDone(m))
  {
    InactiveGone(s.table, m.subs);
    var r := Deaf(Inactive, m.subs, |m.subs|);
    EmptyTable(ActiveOnly(s.table), r);
    assert SomeActive(ActiveOnly(s.table)) <==> SomeActive(s.table) by {
      if h :| h in s.table && !s.table[h].inactive {
        assert h in ActiveOnly(s.table);
      }
    }
  }

  lemma StepAgrees(s: Simple, m: Machine, e: Event)
    requires Inv(m) && Agrees(s, m) && Issued(e)
    ensures Agrees(SimpleStep(s, e), Step(m, e))
  {
    match e
    case Subscribe(x) =>
      AddShows(s.table, if m.state == Acquired then m.(trace := Then(m.trace, OpenSuccess(x.handle))) else m, x);
    case Unsubscribe(h) => UnsubscribeAgrees(s, m, h);
    case EventGranted =>
    case EventReleased =>
      if m.state == Releasing { EndedAgrees(s, m); }
    case EventDenied =>
      if m.state == Releasing { EndedAgrees(s, m); }
    case ModemReset =>
  }

  /** In every run the machine is in the state, and lists the handles in the roles, of the reference. */
  lemma {:induction false} RunsAgree(events: seq<Event>)
    requires forall i :: 0 <= i < |events| ==> Issued(events[i])
    ensures Agrees(SimpleRun(events), Run(INITIAL, events))
  {
    if events != [] {
      var before := events[..|events| - 1];
      RunsAgree(before);
      ReachableInv(before);
      StepAgrees(SimpleRun(before), Run(INITIAL, before), events[|events| - 1]);
    }
  }

  // ---------------------------------------------------------------------------
  // What is said
  // ---------------------------------------------------------------------------

  function HandleIn(x: Entry): int {
    match x
    case OpenSuccess(h) => h
    case OpenFailed(h) => h
    case Closed(h) => h
    case Dropped(h) => h
    case _ => 0
  }

  /** A notice says its entry once to each handle of its audience, and nothing else. */
  lemma {:induction false} NoticesSay(t: History, n: Notice, a: Audience, subs: seq<Subscriber>, k: nat, x: Entry)
    requires k <= |subs| && DistinctHandles(subs)
    ensures Count(Notices(t, n, a, subs, k), x) == Count(t, x)
            + if x == NoticeEntry(n, HandleIn(x)) && Among(a, subs, k, HandleIn(x), true) then 1 else 0
  {
    if k > 0 {
      NoticesSay(t, n, a, subs, k - 1, x);
      var s, h := subs[k - 1], HandleIn(x);
      assert Among(a, subs, k, h, true) <==> Among(a, subs, k - 1, h, true) || (Hears(a, s) && s.handle == h);
      assert s.handle == h ==> !Among(a, subs, k - 1, h, true);
    }
  }

  /** The step says exactly what the reference says. */
  ghost predicate SaysSo(s: Simple, m: Machine, e: Event, x: Entry) {
    Count(Step(m, e).trace, x) == Count(m.trace, x) + if Says(s, e, x) then 1 else 0
  }

  lemma SubscribeSays(s: Simple, m: Machine, e: Event, x: Entry)
    requires Agrees(s, m) && e.Subscribe?
    ensures SaysSo(s, m, e, x)
  {
    ListedIsInTable(s.table, m.subs, e.sub.handle);
  }

  lemma RetireSays(m: Machine, i: nat, x: Entry)
    requires i < |m.subs|
    ensures Count(Retire(m, i).trace, x) == Count(m.trace, x)
            + if !m.subs[i].waitForClose && x == Closed(m.subs[i].handle) then 1 else 0
  {
  }

  lemma UnsubscribeSays(s: Simple, m: Machine, e: Event, x: Entry)
    requires Inv(m) && Agrees(s, m) && e.Unsubscribe?
    ensures SaysSo(s, m, e, x)
  {
    var h, i := e.handle, IndexOf(m.subs, e.handle);
    ListedIsInTable(s.table, m.subs, h);
    if i < |m.subs| {
      RetireShows(s.table, m, i);
      RetireSays(m, i, x);
      EmptyTable(Retired(s.table, h), Retire(m, i).subs);
      RetiredActive(s.table, h);
      ReleaseSays(m, i, x);
    }
  }

  lemma ReleaseSays(m: Machine, i: nat, x: Entry)
    requires i < |m.subs| && m.state != Released
    ensures var r := Retire(m, i);
            Count(OnUnsubscribe(m, i).trace, x) == Count(r.trace, x)
            + if x == Release && m.state != Releasing && !AnyActive(r.subs) then 1 else 0
  {
  }

  lemma EndSays(s: Simple, m: Machine, e: Event, x: Entry)
    requires Inv(m) && Agrees(s, m) && Ends(s, e)
    ensures SaysSo(s, m, e, x)
  {
    NoticesSay(m.trace, NoticeClosed, Inactive, m.subs, |m.subs|, x);
    AmongTable(Inactive, s.table, m.subs, HandleIn(x));
    EndedAgrees(s, m);
  }

  lemma GrantedSays(s: Simple, m: Machine, x: Entry)
    requires Inv(m) && Agrees(s, m)
    ensures SaysSo(s, m, EventGranted, x)
  {
    AmongTable(Active, s.table, m.subs, HandleIn(x));
    NoticesSay(Then(m.trace, Granted), NoticeGranted, Active, m.subs, |m.subs|, x);
  }

  lemma LostSays(s: Simple, m: Machine, x: Entry)
    requires Inv(m) && Agrees(s, m) && s.state != Releasing
    ensures SaysSo(s, m, EventReleased, x)
  {
    AmongTable(Everyone, s.table, m.subs, HandleIn(x));
    NoticesSay(Then(m.trace, Lost), NoticeClosed, Everyone, m.subs, |m.subs|, x);
  }

  lemma DeniedSays(s: Simple, m: Machine, x: Entry)
    requires Inv(m) && Agrees(s, m) && s.state != Releasing
    ensures SaysSo(s, m, EventDenied, x)
  {
    AmongTable(Everyone, s.table, m.subs, HandleIn(x));
    NoticesSay(Then(m.trace, Denied), NoticeDenied, Everyone, m.subs, |m.subs|, x);
  }

  lemma StepSays(s: Simple, m: Machine, e: Event, x: Entry)
    requires Inv(m) && Agrees(s, m)
    ensures SaysSo(s, m, e, x)
  {
    if e.Subscribe? {
      SubscribeSays(s, m, e, x);
    } else if e.Unsubscribe? {
      UnsubscribeSays(s, m, e, x);
    } else if Ends(s, e) {
      EndSays(s, m, e, x);
    } else if e == ModemReset {
      NoticesSay(m.trace, NoticeDropped, Everyone, m.subs, |m.subs|, x);
      AmongTable(Everyone, s.table, m.subs, HandleIn(x));
    } else if e == EventGranted {
      GrantedSays(s, m, x);
    } else if e == EventReleased {
      LostSays(s, m, x);
    } else {
      DeniedSays(s, m, x);
    }
  }

  /** In every run the machine says each thing exactly as often as the reference: requests and
      releases to the framework, and open successes, open failures and closes to each handle. */
  lemma {:induction false} RunsSay(events: seq<Event>, x: Entry)
    requires forall i :: 0 <= i < |events| ==> Issued(events[i])
    ensures Count(Run(INITIAL, events).trace, x) == TimesSaid(events, x)
  {
    if events != [] {
      var before := events[..|events| - 1];
      RunsSay(before, x);
      RunsAgree(before);
      ReachableInv(before);
      StepSays(SimpleRun(before), Run(INITIAL, before), events[|events| - 1], x);
    }
  }

  // ---------------------------------------------------------------------------
  // In which order
  // ---------------------------------------------------------------------------

  function Length(t: History): nat {
    match t
    case Start => 0
    case Then(past, _) => Length(past) + 1
  }

  /** The place in the history where the entry was last said, zero for never. */
  function LastSaid(t: History, x: Entry): (r: nat)
    ensures r <= Length(t)
  {
    match t
    case Start => 0
    case Then(past, last) => if last == x then Length(t) else LastSaid(past, x)
  }

  /** The list is in the order in which the handles were listed. */
  ghost predicate InOrder(t: History, subs: seq<Subscriber>) {
    forall i, j :: 0 <= i < j < |subs| ==>
      LastSaid(t, Listed(subs[i].handle)) < LastSaid(t, Listed(subs[j].handle))
  }

  lemma {:induction false} NoticesListNobody(t: History, n: Notice, a: Audience, subs: seq<Subscriber>, k: nat, h: int)
    requires k <= |subs|
    ensures LastSaid(Notices(t, n, a, subs, k), Listed(h)) == LastSaid(t, Listed(h))
  {
    if k > 0 {
      NoticesListNobody(t, n, a, subs, k - 1, h);
    }
  }

  /** The subscribers who hear a notice hear it in list order. */
  lemma {:induction false} NoticesInOrder(t: History, n: Notice, a: Audience, subs: seq<Subscriber>, k: nat,
                                          i: nat, j: nat)
    requires i < j < k <= |subs| && DistinctHandles(subs) && Hears(a, subs[i]) && Hears(a, subs[j])
    ensures var r := Notices(t, n, a, subs, k);
            LastSaid(r, NoticeEntry(n, subs[i].handle)) < LastSaid(r, NoticeEntry(n, subs[j].handle))
  {
    if j < k - 1 {
      NoticesInOrder(t, n, a, subs, k - 1, i, j);
    }
  }

  lemma {:induction false} DeafInOrder(t: History, a: Audience, subs: seq<Subscriber>, k: nat)
    requires k <= |subs| && InOrder(t, subs)
    ensures InOrder(t, Deaf(a, subs, k))
    ensures forall x :: x in Deaf(a, subs, k) ==> x in subs[..k]
  {
    if k > 0 {
      DeafInOrder(t, a, subs, k - 1);
      var r := Deaf(a, subs, k - 1);
      assert subs[..k] == subs[..k - 1] + [subs[k - 1]];
      forall i | 0 <= i < |r|
        ensures LastSaid(t, Listed(r[i].handle)) < LastSaid(t, Listed(subs[k - 1].handle))
      {
        assert r[i] in subs[..k - 1];
        var l :| 0 <= l < k - 1 && subs[l] == r[i];
      }
    }
  }

  lemma NotifyInOrder(m: Machine, n: Notice, delete: bool, a: Audience)
    requires InOrder(m.trace, m.subs)
    ensures var r := NotifyAll(m, n, delete, a); InOrder(r.trace, r.subs)
  {
    var k := |m.subs|;
    DeafInOrder(m.trace, a, m.subs, k);
    forall h ensures LastSaid(Notices(m.trace, n, a, m.subs, k), Listed(h)) == LastSaid(m.trace, Listed(h)) {
      NoticesListNobody(m.trace, n, a, m.subs, k, h);
    }
  }

  lemma AddInOrder(m: Machine, s: Subscriber)
    requires InOrder(m.trace, m.subs)
    ensures InOrder(Add(m, s).trace, Add(m, s).subs)
  {
    if !IsListed(m.subs, s.handle) {
      assert forall i :: 0 <= i < |m.subs| ==> m.subs[i].handle != s.handle;
    }
  }

  lemma RetireInOrder(m: Machine, i: nat)
    requires i < |m.subs| && InOrder(m.trace, m.subs)
    ensures InOrder(Retire(m, i).trace, Retire(m, i).subs)
  {
    var r := Retire(m, i).subs;
    if m.subs[i].waitForClose {
      assert forall k :: 0 <= k < |r| ==> r[k].handle == m.subs[k].handle;
    } else {
      assert forall k :: 0 <= k < |r| ==> r[k] == m.subs[if k < i then k else k + 1];
    }
  }

  lemma EntryKeepsOrder(t: History, x: Entry, subs: seq<Subscriber>)
    requires InOrder(t, subs) && !x.Listed?
    ensures InOrder(Then(t, x), subs)
  {
  }

  lemma SubscribeInOrder(m: Machine, s: Subscriber)
    requires InOrder(m.trace, m.subs)
    ensures var r := OnSubscribe(m, s); InOrder(r.trace, r.subs)
  {
    match m.state
    case Released =>
      AddInOrder(m, s);
      EntryKeepsOrder(Add(m, s).trace, Request, Add(m, s).subs);
    case Acquired =>
      EntryKeepsOrder(m.trace, OpenSuccess(s.handle), m.subs);
      AddInOrder(m.(trace := Then(m.trace, OpenSuccess(s.handle))), s);
    case _ => AddInOrder(m, s);
  }

  lemma UnsubscribeInOrder(m: Machine, i: nat)
    requires i < |m.subs| && InOrder(m.trace, m.subs)
    ensures var r := OnUnsubscribe(m, i); InOrder(r.trace, r.subs)
  {
    RetireInOrder(m, i);
    EntryKeepsOrder(Retire(m, i).trace, Release, Retire(m, i).subs);
    EntryKeepsOrder(m.trace, Closed(m.subs[i].handle), m.subs);
  }

  lemma GrantedInOrder(m: Machine)
    requires InOrder(m.trace, m.subs)
    ensures var r := OnGranted(m); InOrder(r.trace, r.subs)
  {
    EntryKeepsOrder(m.trace, Granted, m.subs);
    NotifyInOrder(m.(state := Acquired, trace := Then(m.trace, Granted)), NoticeGranted, false, Active);
  }

  lemma ReleaseDoneInOrder(m: Machine)
    requires InOrder(m.trace, m.subs)
    ensures var r := ReleaseDone(m); InOrder(r.trace, r.subs)
  {
    NotifyInOrder(m, NoticeClosed, true, Inactive);
    var r := NotifyAll(m, NoticeClosed, true, Inactive);
    EntryKeepsOrder(r.trace, Request, r.subs);
  }

  lemma StepInOrder(m: Machine, e: Event)
    requires InOrder(m.trace, m.subs)
    ensures var r := Step(m, e); InOrder(r.trace, r.subs)
  {
    match e
    case Subscribe(s) => SubscribeInOrder(m, s);
    case Unsubscribe(h) =>
      var i := IndexOf(m.subs, h);
      if i < |m.subs| { UnsubscribeInOrder(m, i); }
    case EventGranted => GrantedInOrder(m);
    case EventReleased => ReleaseDoneInOrder(m);
    case EventDenied => ReleaseDoneInOrder(m);
    case ModemReset =>
  }

  /** In every run the list is in the order of listing, the order in which notices go out. */
  lemma {:induction false} RunsKeepOrder(events: seq<Event>)
    ensures InOrder(Run(INITIAL, events).trace, Run(INITIAL, events).subs)
  {
    if events != [] {
      RunsKeepOrder(events[..|events| - 1]);
      StepInOrder(Run(INITIAL, events[..|events| - 1]), events[|events| - 1]);
    }
  }
}
