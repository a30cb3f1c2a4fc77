/**
 The subscription index of gps/core/SystemStatusOsObserver.cpp: which client wants which data
 items, kept in both directions, together with what the framework was asked for and the
 cache of items that are sent on.
 */
module OsObserver {
  import opened SetMap

  type Client = nat
  type Item = nat

  /** `framework`: the items the framework was asked to report and not asked to stop reporting.
      `dataRequests`: the item sets that data was requested for, in order. */
  datatype Index = Index(
    c2d: map<Client, set<Item>>, d2c: map<Item, set<Client>>,
    attached: bool, framework: set<Item>, dataRequests: seq<set<Item>>, cache: set<Item>)

  const INITIAL := Index(map[], map[], false, {}, [], {})

  datatype Request =
    | Subscribe(items: set<Item>, client: Client, requestData: bool)
    | UpdateSubscription(items: set<Item>, client: Client)
    | Unsubscribe(items: set<Item>, client: Client)
    | UnsubscribeAll(client: Client)
    | SetSubscriptionObj
    | Notify(batch: seq<Report>)

  /** A reported item: does the system status record it, and does it differ from the cached one? */
  datatype Report = Report(item: Item, handled: bool, changed: bool)

  // ---------------------------------------------------------------------------
  // Requests
  // ---------------------------------------------------------------------------

  function OnSubscribe(o: Index, items: set<Item>, client: Client, requestData: bool): Index {
    o.(d2c := Added(o.d2c, items, {client}),
       c2d := Added(o.c2d, {client}, items),
       framework := if o.attached && !requestData then o.framework + (items - o.d2c.Keys) else o.framework,
       dataRequests := if o.attached && requestData then o.dataRequests + [items] else o.dataRequests)
  }

  /** The multimap's `update` hands back the items that the client had and keeps: the client is
      taken out of those entries, and put into the entries of the other requested items. */
  function OnUpdate(o: Index, items: set<Item>, client: Client): Index {
    var kept := ValSet(o.c2d, client) * items;
    var trimmed := Trimmed(o.d2c, kept, {client});
    var wanted := items - kept;
    o.(c2d := o.c2d[client := items],
       d2c := Added(trimmed, wanted, {client}),
       framework := if o.attached then o.framework + (wanted - trimmed.Keys) - GoneKeys(o.d2c, kept, {client})
                    else o.framework)
  }

  function OnUnsubscribe(o: Index, items: set<Item>, client: Client): Index {
    var unused := ValSet(o.c2d, client) * items;
    o.(c2d := Trimmed(o.c2d, {client}, items),
       d2c := Trimmed(o.d2c, unused, {client}),
       framework := if o.attached then o.framework - GoneKeys(o.d2c, unused, {client}) else o.framework)
  }

  function OnUnsubscribeAll(o: Index, client: Client): Index {
    var items := ValSet(o.c2d, client);
    if items == {} then o
    else
      o.(c2d := o.c2d - {client},
         d2c := Trimmed(o.d2c, items, {client}),
         framework := if o.attached then o.framework - GoneKeys(o.d2c, items, {client}) else o.framework)
  }

  /** The items of a batch that are sent on: recorded, and new to the cache or changed. */
  function Updated(cache: set<Item>, batch: seq<Report>): set<Item> {
    if batch == [] then {}
    else
      var before, r := batch[..|batch| - 1], batch[|batch| - 1];
      Updated(cache, before) + if r.handled && (r.item !in Cached(cache, before) || r.changed) then {r.item} else {}
  }

  function Cached(cache: set<Item>, batch: seq<Report>): set<Item> {
    if batch == [] then cache
    else
      var before, r := batch[..|batch| - 1], batch[|batch| - 1];
      Cached(cache, before) + if r.handled then {r.item} else {}
  }

  /** Empty item lists are refused. */
  function Execute(o: Index, r: Request): Index {
    match r
    case Subscribe(items, c, d) => if items == {} then o else OnSubscribe(o, items, c, d)
    case UpdateSubscription(items, c) => if items == {} then o else OnUpdate(o, items, c)
    case Unsubscribe(items, c) => if items == {} then o else OnUnsubscribe(o, items, c)
    case UnsubscribeAll(c) => OnUnsubscribeAll(o, c)
    case SetSubscriptionObj =>
      o.(attached := true, framework := o.framework + o.d2c.Keys,
         dataRequests := if o.d2c == map[] then o.dataRequests else o.dataRequests + [o.d2c.Keys])
    case Notify(batch) => o.(cache := Cached(o.cache, batch))
  }

  function Run(requests: seq<Request>): Index {
    if requests == [] then INITIAL else Execute(Run(requests[..|requests| - 1]), requests[|requests| - 1])
  }

  // ---------------------------------------------------------------------------
  // Inverse relations
  // ---------------------------------------------------------------------------

  /** The maps agree on what one client wants. */
  ghost predicate InverseFor(o: Index, c: Client) {
    forall d :: Has(o.c2d, c, d) <==> Has(o.d2c, d, c)
  }

  ghost predicate Inverse(o: Index) {
    forall c :: InverseFor(o, c)
  }

  ghost predicate NoEmptyEntries(o: Index) {
    NoEmptyEntry(o.c2d) && NoEmptyEntry(o.d2c)
  }

  lemma AddedHas<K, V>(m: map<K, set<V>>, keys: set<K>, vals: set<V>)
    ensures forall k, v :: Has(Added(m, keys, vals), k, v) <==> Has(m, k, v) || (k in keys && v in vals)
    ensures NoEmptyEntry(m) ==> NoEmptyEntry(Added(m, keys, vals))
  {
    var m' := Added(m, keys, vals);
    if vals != {} {
      var w :| w in vals;
      assert forall k :: k in keys ==> w in m'[k];
    }
  }

  lemma TrimmedHas<K, V>(m: map<K, set<V>>, keys: set<K>, rVals: set<V>)
    ensures forall k, v :: Has(Trimmed(m, keys, rVals), k, v) <==> Has(m, k, v) && !(k in keys && v in rVals)
    ensures NoEmptyEntry(m) ==> NoEmptyEntry(Trimmed(m, keys, rVals))
    ensures Trimmed(m, keys, rVals).Keys == m.Keys - GoneKeys(m, keys, rVals)
  {
    forall k, v | Has(m, k, v) && !(k in keys && v in rVals) ensures Has(Trimmed(m, keys, rVals), k, v) {
      assert k in keys ==> v in m[k] - rVals;
    }
  }

  lemma EntriesStayFull(o: Index, r: Request)
    requires NoEmptyEntries(o)
    ensures NoEmptyEntries(Execute(o, r))
  {
    match r
    case Subscribe(items, c, _) =>
      AddedHas(o.d2c, items, {c});
      AddedHas(o.c2d, {c}, items);
    case UpdateSubscription(items, c) =>
      var kept := ValSet(o.c2d, c) * items;
      TrimmedHas(o.d2c, kept, {c});
      AddedHas(Trimmed(o.d2c, kept, {c}), items - kept, {c});
    case Unsubscribe(items, c) =>
      TrimmedHas(o.c2d, {c}, items);
      TrimmedHas(o.d2c, ValSet(o.c2d, c) * items, {c});
    case UnsubscribeAll(c) => TrimmedHas(o.d2c, ValSet(o.c2d, c), {c});
    case _ =>
  }

  lemma UpdateHas(o: Index, items: set<Item>, client: Client)
    ensures var o' := OnUpdate(o, items, client);
            && (forall c, d :: Has(o'.c2d, c, d) <==> if c == client then d in items else Has(o.c2d, c, d))
            && (forall c, d :: Has(o'.d2c, d, c) <==>
                  if c == client && d in items then !Has(o.c2d, client, d) else Has(o.d2c, d, c))
  {
    var kept := ValSet(o.c2d, client) * items;
    TrimmedHas(o.d2c, kept, {client});
    AddedHas(Trimmed(o.d2c, kept, {client}), items - kept, {client});
  }

  /** The maps stay inverse for a client under every request but an update of its own. */
  lemma KeepsInverse(o: Index, r: Request, x: Client)
    requires InverseFor(o, x) && !(r.UpdateSubscription? && r.client == x)
    ensures InverseFor(Execute(o, r), x)
  {
    match r
    case Subscribe(items, c, _) =>
      AddedHas(o.d2c, items, {c});
      AddedHas(o.c2d, {c}, items);
    case UpdateSubscription(items, c) => UpdateHas(o, items, c);
    case Unsubscribe(items, c) =>
      TrimmedHas(o.c2d, {c}, items);
      TrimmedHas(o.d2c, ValSet(o.c2d, c) * items, {c});
    case UnsubscribeAll(c) => TrimmedHas(o.d2c, ValSet(o.c2d, c), {c});
    case _ =>
  }

  /** An update keeps the maps inverse for its client iff the client had no subscription before. */
  lemma UpdateKeepsInverseIff(o: Index, items: set<Item>, client: Client)
    requires InverseFor(o, client) && NoEmptyEntries(o) && items != {}
    ensures InverseFor(Execute(o, UpdateSubscription(items, client)), client) <==> client !in o.c2d
  {
    var o' := OnUpdate(o, items, client);
    UpdateHas(o, items, client);
    if client in o.c2d {
      var d :| d in o.c2d[client];
      assert Has(o.c2d, client, d) && Has(o.d2c, d, client);
      assert Has(o'.c2d, client, d) <==> d in items;
      assert Has(o'.d2c, d, client) <==> d !in items;
    } else {
      assert forall d :: !Has(o.c2d, client, d);
    }
  }

  /** A client with item 1 asks for item 1 again: the maps disagree. */
  lemma RepeatedUpdateBreaksInverse(client: Client)
    ensures var o := Index(map[client := {1}], map[1 := {client}], false, {}, [], {});
            Inverse(o) && !InverseFor(Execute(o, UpdateSubscription({1}, client)), client)
  {
    var o := Index(map[client := {1}], map[1 := {client}], false, {}, [], {});
    assert InverseFor(o, client);
    UpdateKeepsInverseIff(o, {1}, client);
  }

  /** The effect that the comments of the source describe: the client leaves the items it no longer
      wants and enters the new ones. */
  function DocumentedUpdate(o: Index, items: set<Item>, client: Client): Index {
    var had := ValSet(o.c2d, client);
    o.(c2d := o.c2d[client := items],
       d2c := Added(Trimmed(o.d2c, had - items, {client}), items - had, {client}))
  }

  /** With the documented effect every update would keep the maps inverse. */
  lemma DocumentedUpdateKeepsInverse(o: Index, items: set<Item>, client: Client)
    requires Inverse(o)
    ensures Inverse(DocumentedUpdate(o, items, client))
  {
    var had := ValSet(o.c2d, client);
    TrimmedHas(o.d2c, had - items, {client});
    AddedHas(Trimmed(o.d2c, had - items, {client}), items - had, {client});
    assert InverseFor(o, client) && forall d :: Has(o.c2d, client, d) <==> d in had;
    forall x ensures InverseFor(DocumentedUpdate(o, items, client), x) {
      assert InverseFor(o, x);
    }
  }

  lemma {:induction false} RunsStayFull(requests: seq<Request>)
    ensures NoEmptyEntries(Run(requests))
  {
    if requests != [] {
      RunsStayFull(requests[..|requests| - 1]);
      EntriesStayFull(Run(requests[..|requests| - 1]), requests[|requests| - 1]);
    }
  }

  /** Client `x` never updates while it has a subscription, whatever the others do. */
  ghost predicate UpdatesUnsubscribed(requests: seq<Request>, x: Client) {
    forall i :: 0 <= i < |requests| && requests[i].UpdateSubscription? && requests[i].client == x
                ==> x !in Run(requests[..i]).c2d
  }

  /** In every run the maps are inverse for each client that never updates while it has a
      subscription, whatever the other clients do. */
  lemma {:induction false} RunsKeepInverseFor(requests: seq<Request>, x: Client)
    requires UpdatesUnsubscribed(requests, x)
    ensures InverseFor(Run(requests), x)
  {
    if requests != [] {
      var before, r := requests[..|requests| - 1], requests[|requests| - 1];
      forall i | 0 <= i < |before| ensures before[..i] == requests[..i] && before[i] == requests[i] {
      }
      RunsKeepInverseFor(before, x);
      RunsStayFull(before);
      if r.UpdateSubscription? && r.client == x {
        if r.items != {} { UpdateKeepsInverseIff(Run(before), r.items, x); }
      } else {
        KeepsInverse(Run(before), r, x);
      }
    }
  }

  /** If all clients keep to that, the two maps are inverse. */
  lemma RunsKeepInverse(requests: seq<Request>)
    requires forall x :: UpdatesUnsubscribed(requests, x)
    ensures Inverse(Run(requests)) && NoEmptyEntries(Run(requests))
  {
    forall x ensures InverseFor(Run(requests), x) {
      RunsKeepInverseFor(requests, x);
    }
    RunsStayFull(requests);
  }

  // ---------------------------------------------------------------------------
  // What the requests alone say
  // ---------------------------------------------------------------------------

  /** The items a client wants. */
  function Wants(requests: seq<Request>, c: Client): set<Item> {
    if requests == [] then {}
    else
      var before := Wants(requests[..|requests| - 1], c);
      match requests[|requests| - 1]
      case Subscribe(items, x, _) => if x == c then before + items else before
      case UpdateSubscription(items, x) => if x == c && items != {} then items else before
      case Unsubscribe(items, x) => if x == c then before - items else before
      case UnsubscribeAll(x) => if x == c then {} else before
      case _ => before
  }

  /** The items that a client is indexed under, which are those it wants until it updates its
      subscription: an update takes it out of the items it keeps. */
  function IndexedUnder(requests: seq<Request>, c: Client): set<Item> {
    if requests == [] then {}
    else
      var before, wanted := requests[..|requests| - 1], Wants(requests[..|requests| - 1], c);
      match requests[|requests| - 1]
      case Subscribe(items, x, _) => if x == c then IndexedUnder(before, c) + items else IndexedUnder(before, c)
      case UpdateSubscription(items, x) =>
        if x == c then IndexedUnder(before, c) - items + (items - wanted) else IndexedUnder(before, c)
      case Unsubscribe(items, x) =>
        if x == c then IndexedUnder(before, c) - wanted * items else IndexedUnder(before, c)
      case UnsubscribeAll(x) => if x == c then IndexedUnder(before, c) - wanted else IndexedUnder(before, c)
      case _ => IndexedUnder(before, c)
  }

  lemma SubscribeHas(o: Index, items: set<Item>, x: Client, requestData: bool)
    ensures var o' := OnSubscribe(o, items, x, requestData);
            && (forall c, d :: Has(o'.c2d, c, d) <==> Has(o.c2d, c, d) || (c == x && d in items))
            && (forall c, d :: Has(o'.d2c, d, c) <==> Has(o.d2c, d, c) || (c == x && d in items))
  {
    AddedHas(o.d2c, items, {x});
    AddedHas(o.c2d, {x}, items);
  }

  lemma UnsubscribeHas(o: Index, items: set<Item>, x: Client)
    ensures var o' := OnUnsubscribe(o, items, x);
            && (forall c, d :: Has(o'.c2d, c, d) <==> Has(o.c2d, c, d) && !(c == x && d in items))
            && (forall c, d :: Has(o'.d2c, d, c) <==> Has(o.d2c, d, c) && !(c == x && d in items && Has(o.c2d, x, d)))
  {
    TrimmedHas(o.c2d, {x}, items);
    TrimmedHas(o.d2c, ValSet(o.c2d, x) * items, {x});
  }

  lemma UnsubscribeAllHas(o: Index, x: Client)
    ensures var o' := OnUnsubscribeAll(o, x);
            && (forall c, d :: Has(o'.c2d, c, d) <==> Has(o.c2d, c, d) && c != x)
            && (forall c, d :: Has(o'.d2c, d, c) <==> Has(o.d2c, d, c) && !(c == x && Has(o.c2d, x, d)))
  {
    TrimmedHas(o.d2c, ValSet(o.c2d, x), {x});
    assert forall d :: Has(o.c2d, x, d) <==> d in ValSet(o.c2d, x);
  }

  lemma StepFollows(o: Index, before: seq<Request>, r: Request, c: Client)
    requires forall d :: Has(o.c2d, c, d) <==> d in Wants(before, c)
    requires forall d :: Has(o.d2c, d, c) <==> d in IndexedUnder(before, c)
    ensures forall d :: Has(Execute(o, r).c2d, c, d) <==> d in Wants(before + [r], c)
    ensures forall d :: Has(Execute(o, r).d2c, d, c) <==> d in IndexedUnder(before + [r], c)
  {
    var requests := before + [r];
    assert requests[..|requests| - 1] == before && requests[|requests| - 1] == r;
    match r
    case Subscribe(items, x, requestData) => SubscribeHas(o, items, x, requestData);
    case UpdateSubscription(items, x) => UpdateHas(o, items, x);
    case Unsubscribe(items, x) => UnsubscribeHas(o, items, x);
    case UnsubscribeAll(x) => UnsubscribeAllHas(o, x);
    case _ =>
  }

  /** In every run each client has the items that the requests alone say, on either side. */
  lemma {:induction false} RunsFollowRequests(requests: seq<Request>, c: Client)
    ensures forall d :: Has(Run(requests).c2d, c, d) <==> d in Wants(requests, c)
    ensures forall d :: Has(Run(requests).d2c, d, c) <==> d in IndexedUnder(requests, c)
  {
    if requests != [] {
      var before, r := requests[..|requests| - 1], requests[|requests| - 1];
      RunsFollowRequests(before, c);
      StepFollows(Run(before), before, r, c);
      assert before + [r] == requests;
    }
  }

  // ---------------------------------------------------------------------------
  // What the framework is asked for
  // ---------------------------------------------------------------------------

  ghost predicate AskedWithin(o: Index) {
    o.framework <= o.d2c.Keys && (!o.attached ==> o.framework == {})
  }

  lemma ExecuteKeepsAskedWithin(o: Index, r: Request)
    requires AskedWithin(o)
    ensures AskedWithin(Execute(o, r))
    ensures o.attached && o.framework == o.d2c.Keys && !(r.Subscribe? && r.requestData)
            ==> Execute(o, r).framework == Execute(o, r).d2c.Keys
    ensures r.SetSubscriptionObj? ==> Execute(o, r).framework == Execute(o, r).d2c.Keys
  {
    match r
    case UpdateSubscription(items, c) => TrimmedHas(o.d2c, ValSet(o.c2d, c) * items, {c});
    case Unsubscribe(items, c) => TrimmedHas(o.d2c, ValSet(o.c2d, c) * items, {c});
    case UnsubscribeAll(c) => TrimmedHas(o.d2c, ValSet(o.c2d, c), {c});
    case _ =>
  }

  /** In every run the framework is asked only for items that some client is indexed under; once
      the subscription object is there, and if no request asks for data instead, for all of them. */
  lemma {:induction false} RunsAskForIndexedItems(requests: seq<Request>)
    ensures AskedWithin(Run(requests))
    ensures Run(requests).attached
            && (forall i :: 0 <= i < |requests| ==> !(requests[i].Subscribe? && requests[i].requestData))
            ==> Run(requests).framework == Run(requests).d2c.Keys
  {
    if requests != [] {
      var before, r := requests[..|requests| - 1], requests[|requests| - 1];
      RunsAskForIndexedItems(before);
      assert forall i :: 0 <= i < |before| ==> before[i] == requests[i];
      ExecuteKeepsAskedWithin(Run(before), r);
    }
  }

  /** Once attached, the framework follows the index: it is asked to stop for each item that nobody is
      indexed under any more, and asked for each new one, unless the request is for data instead. */
  lemma FrameworkFollowsIndex(o: Index, r: Request)
    requires AskedWithin(o) && o.attached && !r.SetSubscriptionObj?
    ensures var o', forData := Execute(o, r), r.Subscribe? && r.requestData;
            && o'.attached
            && o'.framework == (o.framework * o'.d2c.Keys) + (if forData then {} else o'.d2c.Keys - o.d2c.Keys)
            && o'.dataRequests == o.dataRequests + (if forData && r.items != {} then [r.items] else [])
  {
    var o' := Execute(o, r);
    match r
    case UpdateSubscription(items, c) => TrimmedHas(o.d2c, ValSet(o.c2d, c) * items, {c});
    case Unsubscribe(items, c) => TrimmedHas(o.d2c, ValSet(o.c2d, c) * items, {c});
    case UnsubscribeAll(c) => TrimmedHas(o.d2c, ValSet(o.c2d, c), {c});
    case _ =>
  }

  /** Before that it is asked nothing; then for every indexed item, and for its data if there is one. */
  lemma AttachAsksForAll(o: Index, r: Request)
    requires AskedWithin(o)
    ensures !o.attached && !r.SetSubscriptionObj?
            ==> Execute(o, r).framework == {} && Execute(o, r).dataRequests == o.dataRequests && !Execute(o, r).attached
    ensures r.SetSubscriptionObj?
            ==> Execute(o, r).framework == o.d2c.Keys && Execute(o, r).attached
                && Execute(o, r).dataRequests == o.dataRequests + if o.d2c == map[] then [] else [o.d2c.Keys]
  {
  }

  /** A request for data leaves the framework asked for everything iff it names no new item. */
  lemma RequestDataAsksIff(o: Index, items: set<Item>, client: Client)
    requires o.attached && o.framework == o.d2c.Keys
    ensures var o' := OnSubscribe(o, items, client, true);
            o'.framework == o'.d2c.Keys <==> items <= o.d2c.Keys
  {
  }

  // ---------------------------------------------------------------------------
  // Notification
  // ---------------------------------------------------------------------------

  ghost predicate Reached(o: Index, updated: set<Item>, c: Client) {
    exists d :: d in updated && Has(o.d2c, d, c)
  }

  /** What a batch sends: to the clients found under an updated item, their updated items. */
  function Sent(o: Index, updated: set<Item>): map<Client, set<Item>> {
    map d, c | d in updated && d in o.d2c && c in o.d2c[d] && ValSet(o.c2d, c) * updated * o.cache != {}
      :: c := ValSet(o.c2d, c) * updated * o.cache
  }

  lemma SentMeaning(o: Index, updated: set<Item>, c: Client)
    ensures var items := ValSet(o.c2d, c) * updated * o.cache;
            && (c in Sent(o, updated) <==> Reached(o, updated, c) && items != {})
            && (c in Sent(o, updated) ==> Sent(o, updated)[c] == items)
  {
    if Reached(o, updated, c) {
      var d :| d in updated && Has(o.d2c, d, c);
      assert d in o.d2c && c in o.d2c[d];
    }
  }

  lemma {:induction false} UpdatedIsCached(cache: set<Item>, batch: seq<Report>)
    ensures Updated(cache, batch) <= Cached(cache, batch) && cache <= Cached(cache, batch)
  {
    if batch != [] {
      UpdatedIsCached(cache, batch[..|batch| - 1]);
    }
  }

  /** An item is cached once it was reported and recorded. */
  lemma {:induction false} CachedMeaning(cache: set<Item>, batch: seq<Report>, d: Item)
    ensures d in Cached(cache, batch) <==>
            d in cache || exists i :: 0 <= i < |batch| && batch[i].item == d && batch[i].handled
  {
    if batch != [] {
      CachedMeaning(cache, batch[..|batch| - 1], d);
    }
  }

  /** An item is sent on iff some recorded report of it is new to the cache or a change. */
  lemma {:induction false} UpdatedMeaning(cache: set<Item>, batch: seq<Report>, d: Item)
    ensures d in Updated(cache, batch) <==>
            && (exists i :: 0 <= i < |batch| && batch[i].item == d && batch[i].handled)
            && (d !in cache
                || exists i :: 0 <= i < |batch| && batch[i].item == d && batch[i].handled && batch[i].changed)
  {
    if batch != [] {
      var before := batch[..|batch| - 1];
      UpdatedMeaning(cache, before, d);
      CachedMeaning(cache, before, d);
      assert forall i :: 0 <= i < |before| ==> before[i] == batch[i];
    }
  }

  /** In every run the cache holds what was reported and recorded. */
  lemma {:induction false} RunsCacheReports(requests: seq<Request>, d: Item)
    ensures d in Run(requests).cache <==>
            exists i :: 0 <= i < |requests| && requests[i].Notify? && d in Cached({}, requests[i].batch)
  {
    if requests != [] {
      var before, r := requests[..|requests| - 1], requests[|requests| - 1];
      RunsCacheReports(before, d);
      assert forall i :: 0 <= i < |before| ==> before[i] == requests[i];
      if r.Notify? {
        CachedMeaning(Run(before).cache, r.batch, d);
        CachedMeaning({}, r.batch, d);
      }
    }
  }

  /** A batch reaches a client for which the maps are inverse iff it wants one of the updated items,
      and then with exactly the updated items it wants. */
  lemma NotifyIsExact(o: Index, batch: seq<Report>, c: Client)
    requires InverseFor(o, c)
    ensures var updated := Updated(o.cache, batch);
            var sent := Sent(Execute(o, Notify(batch)), updated);
            && (c in sent <==> ValSet(o.c2d, c) * updated != {})
            && (c in sent ==> sent[c] == ValSet(o.c2d, c) * updated)
  {
    UpdatedIsCached(o.cache, batch);
    var updated := Updated(o.cache, batch);
    var wanted := ValSet(o.c2d, c) * updated;
    assert wanted * Cached(o.cache, batch) == wanted;
    SentMeaning(Execute(o, Notify(batch)), updated, c);
    if d :| d in wanted {
      assert Has(o.c2d, c, d);
      assert Has(o.d2c, d, c);
    }
  }

  /** A client that updates its subscription to what it already has is silenced: it stays indexed
      as a subscriber of every item, and no batch ever reaches it. */
  lemma RepeatedUpdateSilencesClient(o: Index, client: Client, batch: seq<Report>)
    requires InverseFor(o, client) && client in o.c2d
    ensures var o' := Execute(o, UpdateSubscription(o.c2d[client], client));
            && o'.c2d == o.c2d
            && client !in Sent(Execute(o', Notify(batch)), Updated(o'.cache, batch))
  {
    var items := o.c2d[client];
    var o' := Execute(o, UpdateSubscription(items, client));
    UpdateHas(o, items, client);
    forall d ensures !Has(o'.d2c, d, client) {
      assert Has(o.c2d, client, d) <==> Has(o.d2c, d, client);
      assert Has(o.c2d, client, d) <==> d in items;
    }
    SentMeaning(Execute(o', Notify(batch)), Updated(o'.cache, batch), client);
  }

  // ---------------------------------------------------------------------------
  // The observer
  // ---------------------------------------------------------------------------

  class SystemStatusOsObserver {
    const clientToDataItems: LocUnorderedSetMap<Client, Item>
    const dataItemToClients: LocUnorderedSetMap<Item, Client>
    var attached: bool
    var dataItemCache: set<Item>
    ghost var framework: set<Item>
    ghost var dataRequests: seq<set<Item>>

    constructor ()
      ensures Valid() && View() == INITIAL && fresh(clientToDataItems) && fresh(dataItemToClients)
    {
      clientToDataItems := new LocUnorderedSetMap<Client, Item>();
      dataItemToClients := new LocUnorderedSetMap<Item, Client>();
      attached, dataItemCache, framework, dataRequests := false, {}, {}, [];
    }

    ghost predicate Valid()
      reads this
    {
      clientToDataItems != dataItemToClients
    }

    ghost function View(): Index
      reads this, clientToDataItems, dataItemToClients
    {
      Index(clientToDataItems.m, dataItemToClients.m, attached, framework, dataRequests, dataItemCache)
    }

    method AskFramework(subscribe: set<Item>, unsubscribe: set<Item>)
      modifies this`framework
      ensures framework == if attached then old(framework) + subscribe - unsubscribe else old(framework)
    {
      if attached {
        if subscribe != {} {
          framework := framework + subscribe;
        }
        if unsubscribe != {} {
          framework := framework - unsubscribe;
        }
      }
    }

    method RequestData(items: set<Item>)
      modifies this`dataRequests
      ensures dataRequests == old(dataRequests) + [items]
    {
      dataRequests := dataRequests + [items];
    }

    /** The cached ones among the items; what a client is told at once. */
    method SendCachedDataItems(s: set<Item>) returns (dataItems: set<Item>)
      ensures dataItems == s * dataItemCache
    {
      dataItems := {};
      var todo := s;
      while todo != {}
        invariant todo <= s && dataItems == (s - todo) * dataItemCache
        decreases todo
      {
        var each :| each in todo;
        todo := todo - {each};
        if each in dataItemCache {
          dataItems := dataItems + {each};
        }
      }
    }

    method SubscribeItems(items: set<Item>, client: Client, requestData: bool) returns (told: set<Item>)
      requires Valid()
      modifies this, clientToDataItems, dataItemToClients
      ensures View() == Execute(old(View()), Subscribe(items, client, requestData))
      ensures told == items * dataItemCache
    {
      if items == {} {
        return {};
      }
      var dataItemsToSubscribe := dataItemToClients.AddAll(items, {client});
      var _ := clientToDataItems.Add(client, items);
      told := SendCachedDataItems(items);
      if attached {
        if requestData {
          RequestData(items);
        } else {
          AskFramework(dataItemsToSubscribe, {});
        }
      }
    }

    method UpdateItems(items: set<Item>, client: Client) returns (told: set<Item>)
      requires Valid()
      modifies this, clientToDataItems, dataItemToClients
      ensures View() == Execute(old(View()), UpdateSubscription(items, client))
      ensures told == (items - ValSet(old(clientToDataItems.m), client)) * dataItemCache
    {
      if items == {} {
        return {};
      }
      var returned, left := clientToDataItems.Update(client, items);
      var dataItemsToUnsubscribe, _ := dataItemToClients.TrimOrRemove(returned, {client});
      var dataItemsToSubscribe := dataItemToClients.AddAll(left, {client});
      told := SendCachedDataItems(left);
      AskFramework(dataItemsToSubscribe, dataItemsToUnsubscribe);
    }

    method UnsubscribeItems(items: set<Item>, client: Client)
      requires Valid()
      modifies this, clientToDataItems, dataItemToClients
      ensures View() == Execute(old(View()), Unsubscribe(items, client))
    {
      if items == {} {
        return;
      }
      var _, dataItemsUnusedByClient := clientToDataItems.TrimOrRemove({client}, items);
      assert dataItemsUnusedByClient == ValSet(old(clientToDataItems.m), client) * items by {
        assert forall d :: d in dataItemsUnusedByClient <==> d in items && Has(old(clientToDataItems.m), client, d);
      }
      var dataItemsToUnsubscribe, _ := dataItemToClients.TrimOrRemove(dataItemsUnusedByClient, {client});
      AskFramework({}, dataItemsToUnsubscribe);
    }

    method UnsubscribeAllItems(client: Client)
      requires Valid()
      modifies this, clientToDataItems, dataItemToClients
      ensures View() == Execute(old(View()), UnsubscribeAll(client))
    {
      var diByClient := ValSet(clientToDataItems.m, client);
      if diByClient != {} {
        clientToDataItems.Remove(client);
        var dataItemsToUnsubscribe, _ := dataItemToClients.TrimOrRemove(diByClient, {client});
        AskFramework({}, dataItemsToUnsubscribe);
      }
    }

    method AttachSubscriptionObj()
      requires Valid()
      modifies this
      ensures View() == Execute(old(View()), SetSubscriptionObj)
    {
      attached := true;
      if dataItemToClients.m != map[] {
        AskFramework(dataItemToClients.m.Keys, {});
        RequestData(dataItemToClients.m.Keys);
      }
    }

    method UpdateCache(r: Report) returns (dataItemUpdated: bool)
      modifies this`dataItemCache
      ensures dataItemUpdated <==> r.handled && (r.item !in old(dataItemCache) || r.changed)
      ensures dataItemCache == old(dataItemCache) + if r.handled then {r.item} else {}
    {
      dataItemUpdated := false;
      if r.handled {
        if r.item !in dataItemCache {
          dataItemCache := dataItemCache + {r.item};
          dataItemUpdated := true;
        } else {
          dataItemUpdated := r.changed;
        }
      }
    }

    /** One message per client, in no particular order. */
    method NotifyClients(batch: seq<Report>) returns (sent: map<Client, set<Item>>)
      requires Valid()
      modifies this
      ensures View() == Execute(old(View()), Notify(batch))
      ensures sent == Sent(View(), Updated(old(dataItemCache), batch))
    {
      var dataItemIdsToBeSent := RefreshCache(batch);
      var clientSet := Interested(dataItemIdsToBeSent);
      sent := map[];
      var todo := clientSet;
      while todo != {}
        invariant todo <= clientSet && sent.Keys <= clientSet - todo
        invariant forall c :: c in clientSet && c !in todo ==>
                    var items := ValSet(clientToDataItems.m, c) * dataItemIdsToBeSent * dataItemCache;
                    (c in sent <==> items != {}) && (c in sent ==> sent[c] == items)
        invariant View() == Execute(old(View()), Notify(batch))
        decreases todo
      {
        var client :| client in todo;
        todo := todo - {client};
        var forThisClient := ValSet(clientToDataItems.m, client) * dataItemIdsToBeSent;
        var dataItems := SendCachedDataItems(forThisClient);
        if dataItems != {} {
          sent := sent[client := dataItems];
        }
      }
      ghost var spec := Sent(View(), dataItemIdsToBeSent);
      forall c ensures (c in sent <==> c in spec) && (c in sent ==> sent[c] == spec[c]) {
        SentMeaning(View(), dataItemIdsToBeSent, c);
      }
      assert sent.Keys == spec.Keys;
      assert sent == spec;
    }

    method RefreshCache(batch: seq<Report>) returns (toBeSent: set<Item>)
      modifies this`dataItemCache
      ensures dataItemCache == Cached(old(dataItemCache), batch) && toBeSent == Updated(old(dataItemCache), batch)
    {
      toBeSent := {};
      for i := 0 to |batch|
        invariant dataItemCache == Cached(old(dataItemCache), batch[..i])
        invariant toBeSent == Updated(old(dataItemCache), batch[..i])
      {
        assert batch[..i + 1][..i] == batch[..i];
        var updated := UpdateCache(batch[i]);
        if updated {
          toBeSent := toBeSent + {batch[i].item};
        }
      }
      assert batch[..|batch|] == batch;
    }

    method Interested(items: set<Item>) returns (clientSet: set<Client>)
      ensures forall c :: c in clientSet <==> Reached(View(), items, c)
    {
      clientSet := {};
      var todo := items;
      while todo != {}
        invariant todo <= items
        invariant forall c :: c in clientSet <==> exists d :: d in items - todo && Has(dataItemToClients.m, d, c)
        decreases todo
      {
        var each :| each in todo;
        ghost var done := items - todo;
        assert items - (todo - {each}) == done + {each};
        assert forall c :: (exists d :: d in done + {each} && Has(dataItemToClients.m, d, c))
                           <==> (exists d :: d in done && Has(dataItemToClients.m, d, c))
                                || Has(dataItemToClients.m, each, c);
        todo := todo - {each};
        clientSet := clientSet + ValSet(dataItemToClients.m, each);
      }
      assert items - todo == items;
    }
  }
}
