/**
 The network handle table of gps/core/SystemStatus.h: `collate` folds a connect or disconnect
 event into the table, the type mask and the access point name of the item cached before it. The
 collated item is cached in turn, unless it equals the one before.
 */
module NetworkInfo {
  import opened CompactSeq

  const MAX_NETWORK_HANDLES := 10

  /** The all-ones handle. */
  const HANDLE_UNKNOWN := 0xFFFF_FFFF_FFFF_FFFF

  const TYPE_MOBILE := 0

  const TYPE_UNKNOWN := 10

  datatype Entry = Entry(handle: nat, kind: int)

  const FREE := Entry(HANDLE_UNKNOWN, TYPE_UNKNOWN)

  /** A mask of types as the set of its one bits; an unknown type has no bit. */
  type Mask = set<int>

  function TypeBit(kind: int): Mask {
    if 0 <= kind < TYPE_UNKNOWN then {kind} else {}
  }

  // ---------------------------------------------------------------------------
  // The listed entries
  // ---------------------------------------------------------------------------

  ghost predicate DistinctHandles(known: seq<Entry>) {
    forall i, j :: 0 <= i < j < |known| ==> known[i].handle != known[j].handle
  }

  ghost predicate Listing(known: seq<Entry>) {
    && |known| <= MAX_NETWORK_HANDLES
    && DistinctHandles(known)
    && forall i :: 0 <= i < |known| ==> known[i].handle != HANDLE_UNKNOWN
  }

  ghost predicate HasHandle(known: seq<Entry>, h: nat) {
    exists i :: 0 <= i < |known| && known[i].handle == h
  }

  ghost function Connect(known: seq<Entry>, h: nat, kind: int): seq<Entry> {
    if h == HANDLE_UNKNOWN || HasHandle(known, h) || |known| >= MAX_NETWORK_HANDLES then known
    else known + [Entry(h, kind)]
  }

  function Disconnect(known: seq<Entry>, h: nat, kind: int): seq<Entry> {
    if Entry(h, kind) in known then SwapOut(known, IndexOf(known, Entry(h, kind))) else known
  }

  /** `own`: the mask the event comes with, its type's bit unless the reporting object was
      collated before. */
  datatype Event = Event(connected: bool, handle: nat, kind: int, apn: string, own: Mask)

  /** A disconnect whose mask is empty takes nothing out. */
  ghost function Collated(known: seq<Entry>, e: Event): seq<Entry> {
    if e.connected then Connect(known, e.handle, e.kind)
    else if e.own != {} then Disconnect(known, e.handle, e.kind)
    else known
  }

  /** The event changes nothing in the table. */
  ghost predicate Stays(known: seq<Entry>, e: Event) {
    if e.connected then e.handle == HANDLE_UNKNOWN || HasHandle(known, e.handle) || |known| >= MAX_NETWORK_HANDLES
    else e.own == {} || Entry(e.handle, e.kind) !in known
  }

  lemma StaysIff(known: seq<Entry>, e: Event)
    ensures Collated(known, e) == known <==> Stays(known, e)
  {
    assert |Collated(known, e)| == |known| <==> Stays(known, e);
  }

  // ---------------------------------------------------------------------------
  // A bounded map
  // ---------------------------------------------------------------------------

  /** The map has exactly the listed entries. */
  ghost predicate Represents(m: map<nat, int>, known: seq<Entry>) {
    && |m| == |known|
    && forall h, k :: (h in m && m[h] == k) <==> Entry(h, k) in known
  }

  /** What the table stands for: a connect enters a new, known handle while there is room; a
      disconnect takes a handle out iff its stored type is the event's, unless its mask is empty. */
  function ApplyToMap(m: map<nat, int>, e: Event): map<nat, int> {
    if e.connected then
      if e.handle != HANDLE_UNKNOWN && e.handle !in m && |m| < 10 then m[e.handle := e.kind] else m
    else if e.own != {} && e.handle in m && m[e.handle] == e.kind then m - {e.handle} else m
  }

  lemma RepresentsHandles(m: map<nat, int>, known: seq<Entry>, h: nat)
    requires Represents(m, known)
    ensures h in m <==> HasHandle(known, h)
  {
    if h in m {
      assert Entry(h, m[h]) in known;
    }
    if i :| 0 <= i < |known| && known[i].handle == h {
      assert Entry(h, known[i].kind) in known;
    }
  }

  lemma ConnectListing(known: seq<Entry>, h: nat, kind: int)
    requires Listing(known)
    ensures Listing(Connect(known, h, kind))
  {
    var known' := Connect(known, h, kind);
    if known' != known {
      assert forall i :: 0 <= i < |known| ==> known'[i] == known[i] && known[i].handle != h;
    }
  }

  lemma EnteringRefines(m: map<nat, int>, known: seq<Entry>, h: nat, kind: int)
    requires Represents(m, known) && h !in m
    ensures Represents(m[h := kind], known + [Entry(h, kind)])
  {
    var m' := m[h := kind];
    assert m'.Keys == m.Keys + {h};
    assert |m'| == |m'.Keys| && |m| == |m.Keys|;
    forall x, k ensures (x in m' && m'[x] == k) <==> Entry(x, k) in known + [Entry(h, kind)] {
      assert (x in m && m[x] == k) <==> Entry(x, k) in known;
    }
  }

  lemma ConnectRefines(m: map<nat, int>, known: seq<Entry>, e: Event)
    requires Listing(known) && Represents(m, known) && e.connected
    ensures Represents(ApplyToMap(m, e), Collated(known, e))
  {
    RepresentsHandles(m, known, e.handle);
    if e.handle !in m {
      EnteringRefines(m, known, e.handle, e.kind);
    }
  }

  lemma SwapOutListing(known: seq<Entry>, i: nat)
    requires Listing(known) && i < |known|
    ensures Listing(SwapOut(known, i))
    ensures forall e :: e in SwapOut(known, i) <==> e in known && e != known[i]
  {
    forall j, k | 0 <= j < k < |known| ensures known[j] != known[k] {
      assert known[j].handle != known[k].handle;
    }
    SwapOutElements(known, i);
    var r, n := SwapOut(known, i), |known| - 1;
    assert forall k :: 0 <= k < n ==> r[k] == if k == i then known[n] else known[k];
    forall e ensures e in r <==> e in known && e != known[i] {
      assert e in r <==> e in Elements(r);
      assert e in known <==> e in Elements(known);
    }
  }

  lemma DisconnectListing(known: seq<Entry>, h: nat, kind: int)
    requires Listing(known)
    ensures Listing(Disconnect(known, h, kind))
  {
    if Entry(h, kind) in known {
      SwapOutListing(known, IndexOf(known, Entry(h, kind)));
    }
  }

  lemma DisconnectRefines(m: map<nat, int>, known: seq<Entry>, e: Event)
    requires Listing(known) && Represents(m, known) && !e.connected
    ensures Represents(ApplyToMap(m, e), Collated(known, e))
  {
    var e0 := Entry(e.handle, e.kind);
    if e.own != {} && e0 in known {
      SwapOutListing(known, IndexOf(known, e0));
      var m', known' := ApplyToMap(m, e), Collated(known, e);
      assert m'.Keys == m.Keys - {e.handle};
      assert |m'.Keys| == |m'| && |m.Keys| == |m|;
      forall x, k ensures (x in m' && m'[x] == k) <==> Entry(x, k) in known' {
        assert (x in m && m[x] == k) <==> Entry(x, k) in known;
      }
    }
  }

  // ---------------------------------------------------------------------------
  // The type mask
  // ---------------------------------------------------------------------------

  ghost predicate IsLive(known: seq<Entry>, t: int) {
    exists i :: 0 <= i < |known| && known[i].kind == t && TypeBit(t) != {}
  }

  /** The mask names exactly the types that have a listed handle. */
  ghost predicate MaskIsLive(mask: Mask, known: seq<Entry>) {
    forall t :: t in mask <==> IsLive(known, t)
  }

  /** Another handle of the type is listed. */
  ghost predicate OtherOfType(known: seq<Entry>, h: nat, kind: int) {
    exists i :: 0 <= i < |known| && known[i].kind == kind && known[i].handle != h
  }

  ghost function MaskAfter(known: seq<Entry>, cur: Mask, e: Event): Mask {
    if e.connected then e.own + cur
    else if e.own == {} then {}
    else if OtherOfType(known, e.handle, e.kind) then e.own
    else cur - e.own
  }

  /** After a connect the mask is still that of the live types iff the event's mask adds what the
      event adds to the table: a full table, or a handle already listed under another type, makes it
      name a type too many. */
  lemma ConnectMaskIff(known: seq<Entry>, cur: Mask, e: Event)
    requires Listing(known) && MaskIsLive(cur, known) && e.connected
    ensures MaskIsLive(MaskAfter(known, cur, e), Collated(known, e))
            <==> cur + e.own == if Stays(known, e) then cur else cur + TypeBit(e.kind)
  {
    var known', live := Collated(known, e), if Stays(known, e) then cur else cur + TypeBit(e.kind);
    assert forall i :: 0 <= i < |known| ==> known'[i] == known[i];
    assert !Stays(known, e) ==> known'[|known|].kind == e.kind;
    assert forall t :: IsLive(known, t) ==> IsLive(known', t);
    assert MaskIsLive(live, known');
    SameLiveMask(live, MaskAfter(known, cur, e), known');
    assert MaskAfter(known, cur, e) == cur + e.own;
  }

  lemma SameLiveMask(live: Mask, mask: Mask, known: seq<Entry>)
    requires MaskIsLive(live, known)
    ensures MaskIsLive(mask, known) <==> mask == live
  {
    if MaskIsLive(mask, known) {
      assert forall t :: t in mask <==> t in live;
    }
  }

  /** After a disconnect it is iff, for an empty mask, nothing was live; with another handle of the
      type listed, the event's mask is the whole mask; and else it takes out just the type. */
  lemma DisconnectMaskIff(known: seq<Entry>, cur: Mask, e: Event)
    requires Listing(known) && MaskIsLive(cur, known) && !e.connected
    ensures MaskIsLive(MaskAfter(known, cur, e), Collated(known, e))
            <==> if e.own == {} then cur == {}
                 else if OtherOfType(known, e.handle, e.kind) then cur == e.own
                 else cur - e.own == cur - TypeBit(e.kind)
  {
    var known' := Collated(known, e);
    if e.own == {} {
      SameLiveMask(cur, {}, known');
    } else {
      SurvivingTypes(known, e.handle, e.kind);
      var live := if OtherOfType(known, e.handle, e.kind) then cur else cur - TypeBit(e.kind);
      assert OtherOfType(known, e.handle, e.kind) ==> (IsLive(known, e.kind) <==> TypeBit(e.kind) != {});
      forall t ensures t in live <==> IsLive(known', t) {
        assert t in cur <==> IsLive(known, t);
      }
      SameLiveMask(live, MaskAfter(known, cur, e), known');
    }
  }

  /** A disconnect ends no other type's life, and its own iff no other handle of it is listed. */
  lemma SurvivingTypes(known: seq<Entry>, h: nat, kind: int)
    requires Listing(known)
    ensures forall t :: t != kind ==> (IsLive(Disconnect(known, h, kind), t) <==> IsLive(known, t))
    ensures IsLive(Disconnect(known, h, kind), kind) <==> TypeBit(kind) != {} && OtherOfType(known, h, kind)
  {
    var known', e0 := Disconnect(known, h, kind), Entry(h, kind);
    if e0 in known {
      SwapOutListing(known, IndexOf(known, e0));
    }
    assert forall e :: e in known' <==> e in known && e != e0;
    forall t ensures IsLive(known', t) <==> TypeBit(t) != {} && exists e :: e in known && e != e0 && e.kind == t {
      if e :| e in known && e != e0 && e.kind == t && TypeBit(t) != {} {
        assert e in known';
        var i :| 0 <= i < |known'| && known'[i] == e;
      }
    }
    forall t ensures IsLive(known, t) <==> TypeBit(t) != {} && exists e :: e in known && e.kind == t {
    }
    forall i | 0 <= i < |known| && known[i].kind == kind && known[i].handle != h
      ensures known[i] in known && known[i] != e0 {
    }
  }

  // ---------------------------------------------------------------------------
  // The cached item
  // ---------------------------------------------------------------------------

  datatype Item = Item(known: seq<Entry>, mask: Mask, connected: bool, apn: string)

  /** The event's object was not collated before. */
  predicate Fresh(e: Event) {
    e.own == TypeBit(e.kind)
  }

  /** A first item is cached as built, with its own handle listed. */
  function FirstItem(e: Event): Item {
    Item(if e.handle == HANDLE_UNKNOWN then [] else [Entry(e.handle, e.kind)], e.own, e.connected, e.apn)
  }

  function FirstMap(e: Event): map<nat, int> {
    if e.handle == HANDLE_UNKNOWN then map[] else map[e.handle := e.kind]
  }

  /** Only mobile connections bring a name of their own once there is one. */
  function ApnAfter(cur: string, kind: int, apn: string): string {
    if kind != TYPE_MOBILE && cur != "" then cur else apn
  }

  ghost function CollatedItem(cur: Item, e: Event): Item {
    Item(Collated(cur.known, e), MaskAfter(cur.known, cur.mask, e), e.connected, ApnAfter(cur.apn, e.kind, e.apn))
  }

  /** The comparison does not look at the mask. */
  predicate Same(a: Item, b: Item) {
    a.connected == b.connected && a.known == b.known && a.apn == b.apn
  }

  ghost function Cached(cur: Item, e: Event): Item {
    if Same(cur, CollatedItem(cur, e)) then cur else CollatedItem(cur, e)
  }

  ghost function Run(first: Item, events: seq<Event>): Item {
    if events == [] then first
    else Cached(Run(first, events[..|events| - 1]), events[|events| - 1])
  }

  function RunMap(first: map<nat, int>, events: seq<Event>): map<nat, int> {
    if events == [] then first
    else ApplyToMap(RunMap(first, events[..|events| - 1]), events[|events| - 1])
  }

  lemma CollatedRefines(m: map<nat, int>, known: seq<Entry>, e: Event)
    requires Listing(known) && Represents(m, known)
    ensures Listing(Collated(known, e)) && Represents(ApplyToMap(m, e), Collated(known, e))
  {
    if e.connected {
      ConnectListing(known, e.handle, e.kind);
      ConnectRefines(m, known, e);
    } else {
      DisconnectListing(known, e.handle, e.kind);
      DisconnectRefines(m, known, e);
    }
  }

  /** In every run the cached table stays compact and duplicate-free, and is the bounded map of the
      events, those found equal included. */
  lemma {:induction false} RunsRefineMap(first: Item, m: map<nat, int>, events: seq<Event>)
    requires Listing(first.known) && Represents(m, first.known)
    ensures Listing(Run(first, events).known) && Represents(RunMap(m, events), Run(first, events).known)
  {
    if events != [] {
      var before := events[..|events| - 1];
      RunsRefineMap(first, m, before);
      CollatedRefines(RunMap(m, before), Run(first, before).known, events[|events| - 1]);
    }
  }

  /** In every run the cached item is connected iff the latest event was. */
  lemma {:induction false} RunsFollowConnection(first: Item, events: seq<Event>)
    ensures Run(first, events).connected == if events == [] then first.connected else events[|events| - 1].connected
  {
  }

  /** In every run the cached name is that of the latest mobile event, if no other event after it found
      the name empty; and without a mobile event, the first one, if it was not empty. */
  lemma {:induction false} RunsKeepMobileName(first: Item, events: seq<Event>, i: nat)
    requires i <= |events| && forall k :: i <= k < |events| ==> events[k].kind != TYPE_MOBILE
    requires i > 0 ==> events[i - 1].kind == TYPE_MOBILE
    requires (if i == 0 then first.apn else events[i - 1].apn) != ""
    ensures Run(first, events).apn == if i == 0 then first.apn else events[i - 1].apn
  {
    if i < |events| {
      RunsKeepMobileName(first, events[..|events| - 1], i);
    }
  }

  /** An empty name is replaced by any event's. */
  lemma EmptyNameIsReplaced(cur: Item, e: Event)
    requires cur.apn == ""
    ensures Cached(cur, e).apn == e.apn
  {
  }

  /** What runs start from. */
  lemma FirstItemIsListed(e: Event)
    ensures Listing(FirstItem(e).known) && Represents(FirstMap(e), FirstItem(e).known)
    ensures Fresh(e) ==> (MaskIsLive(FirstItem(e).mask, FirstItem(e).known)
                          <==> e.handle != HANDLE_UNKNOWN || TypeBit(e.kind) == {})
  {
    var known := FirstItem(e).known;
    assert known != [] ==> known[0].kind == e.kind;
    if e.handle == HANDLE_UNKNOWN && TypeBit(e.kind) != {} {
      assert e.kind in TypeBit(e.kind);
    }
  }

  /** The first event acts like any other on an empty map iff it is a connect or has no handle:
      a first disconnect leaves its own handle listed. */
  lemma FirstEventRefinesIff(e: Event)
    ensures Represents(ApplyToMap(map[], e), FirstItem(e).known) <==> e.connected || e.handle == HANDLE_UNKNOWN
  {
    if e.connected && e.handle != HANDLE_UNKNOWN {
      EnteringRefines(map[], [], e.handle, e.kind);
    }
  }

  /** The disconnect of handle 1 on a fresh cache lists handle 1. */
  lemma FirstDisconnectIsListed(e: Event)
    requires !e.connected && e.handle == 1
    ensures HasHandle(FirstItem(e).known, 1) && ApplyToMap(map[], e) == map[]
  {
    assert FirstItem(e).known[0].handle == 1;
  }

  /** The event will be found equal to the cached item. */
  ghost predicate Dropped(cur: Item, e: Event) {
    && cur.connected == e.connected && Stays(cur.known, e)
    && (e.apn == cur.apn || (e.kind != TYPE_MOBILE && cur.apn != ""))
  }

  lemma DroppedIff(cur: Item, e: Event)
    ensures Same(cur, CollatedItem(cur, e)) <==> Dropped(cur, e)
  {
    StaysIff(cur.known, e);
  }

  /** An event that will be cached with a wrong mask. */
  ghost predicate Misleads(cur: Item, e: Event) {
    && !Dropped(cur, e)
    && if e.connected then cur.mask + e.own != if Stays(cur.known, e) then cur.mask else cur.mask + TypeBit(e.kind)
       else if e.own == {} then cur.mask != {}
       else if OtherOfType(cur.known, e.handle, e.kind) then cur.mask != e.own
       else cur.mask - e.own != cur.mask - TypeBit(e.kind)
  }

  /** For an event whose object was not collated before: a connect of a known type without a bit in
      the mask that leaves the table as it is, a disconnect of an unknown type while some type is
      live, or one that leaves another handle of its type beside handles of other known types. */
  lemma FreshMisleadsIff(cur: Item, e: Event)
    requires Fresh(e)
    ensures Misleads(cur, e) <==>
            && !Dropped(cur, e)
            && if e.connected then TypeBit(e.kind) != {} && e.kind !in cur.mask && Stays(cur.known, e)
               else if TypeBit(e.kind) == {} then cur.mask != {}
               else OtherOfType(cur.known, e.handle, e.kind) && cur.mask != {e.kind}
  {
    if TypeBit(e.kind) != {} {
      assert e.kind in cur.mask <==> cur.mask + e.own == cur.mask;
    }
  }

  /** The mask of the cached item stays that of the live types iff the event does not mislead. */
  lemma CachedMaskIff(cur: Item, e: Event)
    requires Listing(cur.known) && MaskIsLive(cur.mask, cur.known)
    ensures MaskIsLive(Cached(cur, e).mask, Cached(cur, e).known) <==> !Misleads(cur, e)
  {
    DroppedIff(cur, e);
    if e.connected {
      ConnectMaskIff(cur.known, cur.mask, e);
    } else {
      DisconnectMaskIff(cur.known, cur.mask, e);
    }
  }

  /** In every run without a misleading event the cached mask names exactly the live types. */
  lemma {:induction false} RunsKeepMask(first: Item, m: map<nat, int>, events: seq<Event>)
    requires Listing(first.known) && Represents(m, first.known) && MaskIsLive(first.mask, first.known)
    requires forall i :: 0 <= i < |events| ==> !Misleads(Run(first, events[..i]), events[i])
    ensures MaskIsLive(Run(first, events).mask, Run(first, events).known)
  {
    if events != [] {
      var before := events[..|events| - 1];
      forall i | 0 <= i < |before| ensures before[..i] == events[..i] && before[i] == events[i] {
      }
      RunsKeepMask(first, m, before);
      RunsRefineMap(first, m, before);
      CachedMaskIff(Run(first, before), events[|events| - 1]);
    }
  }

  /** Wi-Fi stays up and one of two mobile handles goes: the cached mask forgets Wi-Fi. */
  lemma MaskForgetsLiveType(cur: Item, e: Event)
    requires cur.known == [Entry(1, 0), Entry(2, 0), Entry(3, 1)] && cur.mask == {0, 1}
    requires !e.connected && e.handle == 1 && e.kind == 0 && Fresh(e)
    ensures MaskIsLive(cur.mask, cur.known) && Cached(cur, e).mask == {0} && IsLive(Cached(cur, e).known, 1)
  {
    var known := cur.known;
    assert known[0].kind == 0 && known[1].kind == 0 && known[2].kind == 1;
    assert known[0] == Entry(1, 0) && known[1].handle == 2;
    SurvivingTypes(known, 1, 0);
    assert IsLive(known, 1);
    assert OtherOfType(known, 1, 0);
    DroppedIff(cur, e);
  }

  /** After a disconnect a mobile handle is reported again as Wi-Fi: the cached mask names Wi-Fi,
      the table does not. */
  lemma MaskNamesUnlistedType(cur: Item, e: Event)
    requires cur.known == [Entry(1, 0)] && cur.mask == {0} && !cur.connected
    requires e.connected && e.handle == 1 && e.kind == 1 && Fresh(e)
    ensures MaskIsLive(cur.mask, cur.known) && 1 in Cached(cur, e).mask && !IsLive(Cached(cur, e).known, 1)
  {
    assert cur.known[0] == Entry(1, 0);
    assert IsLive(cur.known, 0) && HasHandle(cur.known, 1);
  }

  // ---------------------------------------------------------------------------
  // The table in place
  // ---------------------------------------------------------------------------

  /** A reported object. `collate` writes back to it, and it may be reported again. */
  class NetworkInfoDataItemBase {
    var allTypes: Mask
    const kind: int
    const connected: bool
    const networkHandle: nat
    const apn: string
    const allNetworkHandles: array<Entry>
    ghost var known: seq<Entry>

    /** An event enters its own handle at the first place, connected or not. */
    constructor (kind: int, connected: bool, networkHandle: nat, apn: string)
      ensures Valid() && fresh(allNetworkHandles)
      ensures this.kind == kind && this.connected == connected && this.networkHandle == networkHandle && this.apn == apn
      ensures allTypes == TypeBit(kind)
      ensures known == FirstItem(Event(connected, networkHandle, kind, apn, TypeBit(kind))).known
    {
      allTypes := TypeBit(kind);
      this.kind, this.connected, this.networkHandle, this.apn := kind, connected, networkHandle, apn;
      allNetworkHandles := new Entry[MAX_NETWORK_HANDLES](i => FREE);
      known := if networkHandle == HANDLE_UNKNOWN then [] else [Entry(networkHandle, kind)];
      new;
      allNetworkHandles[0] := Entry(networkHandle, kind);
    }

    ghost predicate Valid()
      reads this, allNetworkHandles
    {
      allNetworkHandles.Length == MAX_NETWORK_HANDLES && Lists(allNetworkHandles[..], known)
    }
  }

  class SystemStatusNetworkInfo {
    var allTypes: Mask
    const kind: int
    const connected: bool
    const networkHandle: nat
    var apn: string
    const allNetworkHandles: array<Entry>
    const srcObj: NetworkInfoDataItemBase?
    ghost var known: seq<Entry>

    constructor (kind: int, connected: bool, networkHandle: nat, apn: string)
      ensures Valid() && fresh(allNetworkHandles) && srcObj == null
      ensures OwnEvent() == Event(connected, networkHandle, kind, apn, TypeBit(kind)) && View() == FirstItem(OwnEvent())
    {
      allTypes := TypeBit(kind);
      this.kind, this.connected, this.networkHandle := kind, connected, networkHandle;
      this.apn, srcObj := apn, null;
      allNetworkHandles := new Entry[MAX_NETWORK_HANDLES](i => FREE);
      known := if networkHandle == HANDLE_UNKNOWN then [] else [Entry(networkHandle, kind)];
      new;
      allNetworkHandles[0] := Entry(networkHandle, kind);
    }

    /** A copy of a reported object, mask and table as they stand. */
    constructor FromItem(itemBase: NetworkInfoDataItemBase)
      requires itemBase.Valid()
      ensures Valid() && fresh(allNetworkHandles) && srcObj == itemBase
      ensures OwnEvent() == Event(itemBase.connected, itemBase.networkHandle, itemBase.kind,
                                  itemBase.apn, itemBase.allTypes)
      ensures View() == Item(itemBase.known, itemBase.allTypes, itemBase.connected, itemBase.apn)
    {
      allTypes := itemBase.allTypes;
      kind, connected, networkHandle := itemBase.kind, itemBase.connected, itemBase.networkHandle;
      apn, srcObj, known := itemBase.apn, itemBase, itemBase.known;
      allNetworkHandles := new Entry[MAX_NETWORK_HANDLES](i requires 0 <= i < MAX_NETWORK_HANDLES
                                                            reads itemBase, itemBase.allNetworkHandles
                                                            requires itemBase.Valid() => itemBase.allNetworkHandles[i]);
      new;
      assert allNetworkHandles[..] == itemBase.allNetworkHandles[..];
    }

    /** The listed entries come first in the array, free places after them. */
    ghost predicate Valid()
      reads this, allNetworkHandles
    {
      && allNetworkHandles.Length == MAX_NETWORK_HANDLES
      && (srcObj != null ==>
          srcObj.allNetworkHandles.Length == MAX_NETWORK_HANDLES && srcObj.allNetworkHandles != allNetworkHandles)
      && Lists(allNetworkHandles[..], known)
    }

    ghost function View(): Item
      reads this
    {
      Item(known, allTypes, connected, apn)
    }

    ghost function OwnEvent(): Event
      reads this
    {
      Event(connected, networkHandle, kind, apn, allTypes)
    }

    ghost function Written(): set<object>
    {
      {this, allNetworkHandles} + if srcObj == null then {} else {srcObj, srcObj.allNetworkHandles}
    }

    method Collate(curInfo: SystemStatusNetworkInfo)
      requires Valid() && curInfo.Valid()
      requires curInfo != this && curInfo.allNetworkHandles !in Written()
      modifies Written()
      ensures Valid() && View() == CollatedItem(curInfo.View(), old(OwnEvent()))
      ensures allNetworkHandles[..] == curInfo.allNetworkHandles[..] <==> known == curInfo.known
      ensures srcObj != null ==> srcObj.Valid() && srcObj.allTypes == allTypes && srcObj.known == known
      ensures srcObj != null ==> srcObj.allNetworkHandles[..] == allNetworkHandles[..]
    {
      Follow(curInfo);
      CopyBack();
    }

    /** Everything but the copy back. */
    method Follow(curInfo: SystemStatusNetworkInfo)
      requires Valid() && curInfo.Valid()
      requires curInfo != this && curInfo.allNetworkHandles != allNetworkHandles
      modifies this, allNetworkHandles
      ensures Valid() && View() == CollatedItem(curInfo.View(), old(OwnEvent()))
      ensures allNetworkHandles[..] == curInfo.allNetworkHandles[..] <==> known == curInfo.known
    {
      CopyTable(curInfo);
      if TYPE_MOBILE != kind && curInfo.apn != "" {
        apn := curInfo.apn;
      }
      Merge(curInfo.allTypes);
      ListsDiffer(allNetworkHandles[..], known, curInfo.allNetworkHandles[..], curInfo.known);
    }

    method CopyTable(curInfo: SystemStatusNetworkInfo)
      requires Valid() && curInfo.Valid()
      requires curInfo != this && curInfo.allNetworkHandles != allNetworkHandles
      modifies this`known, allNetworkHandles
      ensures Valid() && known == curInfo.known && allNetworkHandles[..] == curInfo.allNetworkHandles[..]
    {
      forall i | 0 <= i < MAX_NETWORK_HANDLES {
        allNetworkHandles[i] := curInfo.allNetworkHandles[i];
      }
      assert allNetworkHandles[..] == curInfo.allNetworkHandles[..];
      known := curInfo.known;
    }

    /** Takes the event into the copied table and its types into the mask. */
    method Merge(curTypes: Mask)
      requires Valid()
      modifies this`known, this`allTypes, allNetworkHandles
      ensures Valid() && known == Collated(old(known), old(OwnEvent()))
      ensures allTypes == MaskAfter(old(known), curTypes, old(OwnEvent()))
      ensures known == old(known) ==> allNetworkHandles[..] == old(allNetworkHandles[..])
    {
      if connected {
        allTypes := allTypes + curTypes;
        EnterHandle();
      } else if allTypes != {} {
        var typeCount := LeaveHandle();
        if typeCount == 0 {
          allTypes := curTypes - allTypes;
        }
      }
    }

    method CopyBack()
      requires Valid()
      modifies if srcObj == null then {} else {srcObj, srcObj.allNetworkHandles}
      ensures srcObj != null ==> srcObj.Valid() && srcObj.allTypes == allTypes && srcObj.known == known
      ensures srcObj != null ==> srcObj.allNetworkHandles[..] == allNetworkHandles[..]
    {
      if srcObj != null {
        srcObj.allTypes, srcObj.known := allTypes, known;
        forall i | 0 <= i < MAX_NETWORK_HANDLES {
          srcObj.allNetworkHandles[i] := allNetworkHandles[i];
        }
        assert srcObj.allNetworkHandles[..] == allNetworkHandles[..];
      }
    }

    method EqualTo(peer: SystemStatusNetworkInfo) returns (rtv: bool)
      requires Valid() && peer.Valid()
      ensures rtv <==> connected == peer.connected && apn == peer.apn
                       && allNetworkHandles[..] == peer.allNetworkHandles[..]
    {
      rtv := peer.connected == connected;
      var i := 0;
      while rtv && i < MAX_NETWORK_HANDLES
        invariant 0 <= i <= MAX_NETWORK_HANDLES
        invariant rtv ==> connected == peer.connected
        invariant rtv ==> forall k :: 0 <= k < i ==> allNetworkHandles[..][k] == peer.allNetworkHandles[..][k]
        invariant !rtv ==> connected != peer.connected || allNetworkHandles[..] != peer.allNetworkHandles[..]
      {
        assert allNetworkHandles[..][i] == allNetworkHandles[i];
        assert peer.allNetworkHandles[..][i] == peer.allNetworkHandles[i];
        rtv := allNetworkHandles[i] == peer.allNetworkHandles[i];
        i := i + 1;
      }
      rtv := rtv && peer.apn == apn;
    }

    /** What the cache holds after this event, where `back` was its newest item: this one, collated,
        or still `back` if the two are equal. */
    method CacheAfter(back: SystemStatusNetworkInfo) returns (newest: SystemStatusNetworkInfo)
      requires Valid() && back.Valid()
      requires back != this && back.allNetworkHandles !in Written()
      modifies Written()
      ensures newest.Valid() && newest.View() == Cached(back.View(), old(OwnEvent()))
    {
      Collate(back);
      var same := back.EqualTo(this);
      newest := if same then back else this;
    }

    method EnterHandle()
      requires Valid()
      modifies this`known, allNetworkHandles
      ensures Valid() && known == Connect(old(known), networkHandle, kind)
      ensures known == old(known) ==> allNetworkHandles[..] == old(allNetworkHandles[..])
    {
      ConnectListing(known, networkHandle, kind);
      var i := 0;
      while i < MAX_NETWORK_HANDLES
        invariant i <= |known| && Valid() && known == old(known)
        invariant allNetworkHandles[..] == old(allNetworkHandles[..])
        invariant forall k :: 0 <= k < i ==> known[k].handle != networkHandle
      {
        if networkHandle == allNetworkHandles[i].handle {
          break;
        }
        if allNetworkHandles[i].handle == HANDLE_UNKNOWN {
          EnteringLists(allNetworkHandles[..], known, Entry(networkHandle, kind));
          allNetworkHandles[i] := Entry(networkHandle, kind);
          known := known + [Entry(networkHandle, kind)];
          break;
        }
        i := i + 1;
      }
    }

    /** The length of the list, the place of the event's entry, and the number of other handles of its type. */
    method ScanTable() returns (deletedIndex: nat, validCount: nat, typeCount: nat)
      requires Valid()
      ensures validCount == |known|
      ensures typeCount == 0 <==> !OtherOfType(known, networkHandle, kind)
      ensures if deletedIndex == MAX_NETWORK_HANDLES then Entry(networkHandle, kind) !in known
              else deletedIndex < |known| && known[deletedIndex] == Entry(networkHandle, kind)
    {
      deletedIndex, validCount, typeCount := MAX_NETWORK_HANDLES, 0, 0;
      while validCount < MAX_NETWORK_HANDLES && allNetworkHandles[validCount].handle != HANDLE_UNKNOWN
        invariant validCount <= |known|
        invariant typeCount == 0 <==>
                  forall k :: 0 <= k < validCount ==> !(known[k].kind == kind && known[k].handle != networkHandle)
        invariant if deletedIndex == MAX_NETWORK_HANDLES
                  then forall k :: 0 <= k < validCount ==> known[k] != Entry(networkHandle, kind)
                  else deletedIndex < validCount && known[deletedIndex] == Entry(networkHandle, kind)
      {
        assert allNetworkHandles[validCount] == known[validCount];
        if kind == allNetworkHandles[validCount].kind {
          if networkHandle == allNetworkHandles[validCount].handle {
            deletedIndex := validCount;
          } else {
            typeCount := typeCount + 1;
          }
        }
        validCount := validCount + 1;
      }
    }

    /** Takes the event's entry out, filling its place with the last, and counts the other handles of its type. */
    method LeaveHandle() returns (typeCount: nat)
      requires Valid()
      modifies this`known, allNetworkHandles
      ensures Valid() && known == Disconnect(old(known), networkHandle, kind)
      ensures known == old(known) ==> allNetworkHandles[..] == old(allNetworkHandles[..])
      ensures typeCount == 0 <==> !OtherOfType(old(known), networkHandle, kind)
    {
      var deletedIndex, lastValidIndex;
      deletedIndex, lastValidIndex, typeCount := ScanTable();
      if lastValidIndex > 0 {
        lastValidIndex := lastValidIndex - 1;
      }
      if deletedIndex != MAX_NETWORK_HANDLES {
        DisconnectAt(known, deletedIndex);
        LeavingLists(allNetworkHandles[..], known, deletedIndex);
        allNetworkHandles[deletedIndex] := allNetworkHandles[lastValidIndex];
        allNetworkHandles[lastValidIndex] := FREE;
        known := SwapOut(known, deletedIndex);
      }
    }
  }

  // ---------------------------------------------------------------------------
  // The array and the list
  // ---------------------------------------------------------------------------

  ghost predicate Lists(table: seq<Entry>, known: seq<Entry>) {
    && |table| == MAX_NETWORK_HANDLES && Listing(known)
    && (forall i :: 0 <= i < |known| ==> table[i] == known[i])
    && forall i :: |known| <= i < MAX_NETWORK_HANDLES ==> table[i].handle == HANDLE_UNKNOWN
  }

  lemma EnteringLists(table: seq<Entry>, known: seq<Entry>, e: Entry)
    requires Lists(table, known) && |known| < MAX_NETWORK_HANDLES && e.handle != HANDLE_UNKNOWN
    requires !HasHandle(known, e.handle)
    ensures Lists(table[|known| := e], known + [e])
  {
  }

  /** The last entry moved into the place of the one that leaves. */
  lemma LeavingLists(table: seq<Entry>, known: seq<Entry>, i: nat)
    requires Lists(table, known) && i < |known|
    ensures Lists(table[i := table[|known| - 1]][|known| - 1 := FREE], SwapOut(known, i))
  {
    SwapOutListing(known, i);
  }

  lemma DisconnectAt(known: seq<Entry>, i: nat)
    requires Listing(known) && i < |known|
    ensures Disconnect(known, known[i].handle, known[i].kind) == SwapOut(known, i)
  {
    assert known[IndexOf(known, known[i])].handle == known[i].handle;
  }

  /** Tables that list different entries differ. */
  lemma ListsDiffer(a: seq<Entry>, known: seq<Entry>, b: seq<Entry>, known': seq<Entry>)
    requires Lists(a, known) && Lists(b, known')
    ensures a == b ==> known == known'
  {
    if |known| < |known'| {
      assert a[|known|].handle != b[|known|].handle;
    } else if |known'| < |known| {
      assert a[|known'|].handle != b[|known'|].handle;
    }
  }
}
