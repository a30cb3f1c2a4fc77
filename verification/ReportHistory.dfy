/**
 The bounded report history of gps/core/SystemStatus.cpp: every kind of report keeps its last
 five changes. An item equal to the newest one only refreshes the time that one was reported.
 Items here collate to themselves, as all but the network items do.
 */
module ReportHistory {
  import opened Wrappers

  const MAX_ITEM := 5

  datatype Item<V> = Item(value: V, utcTime: int, utcReported: int, ignored: bool)

  /** The item type's own comparison; nothing is asked of it. */
  type Equals<!V> = (V, V) -> bool

  // ---------------------------------------------------------------------------
  // One event
  // ---------------------------------------------------------------------------

  /** What an event brings, when it is not ignored, is no change of the newest item. */
  predicate Unchanged<V>(eq: Equals<V>, report: seq<Item<V>>, s: Item<V>) {
    report != [] && eq(report[|report| - 1].value, s.value)
  }

  function Refreshed<V>(report: seq<Item<V>>, utc: int): seq<Item<V>>
    requires report != []
  {
    report[|report| - 1 := report[|report| - 1].(utcReported := utc)]
  }

  function Newest<V>(report: seq<Item<V>>): seq<Item<V>> {
    if |report| <= MAX_ITEM then report else report[|report| - MAX_ITEM..]
  }

  function Set<V>(eq: Equals<V>, report: seq<Item<V>>, s: Item<V>): seq<Item<V>> {
    if s.ignored then report
    else if Unchanged(eq, report, s) then Refreshed(report, s.utcReported)
    else Newest(report + [s])
  }

  class Report<V> {
    var items: seq<Item<V>>

    constructor ()
      ensures items == []
    {
      items := [];
    }

    /** True iff the event is a change. */
    method SetItemInReport(eq: Equals<V>, s: Item<V>) returns (changed: bool)
      requires |items| <= MAX_ITEM
      modifies this
      ensures |items| <= MAX_ITEM
      ensures items == Set(eq, old(items), s)
      ensures changed <==> !s.ignored && !Unchanged(eq, old(items), s)
    {
      if s.ignored {
        return false;
      }
      if items != [] && eq(items[|items| - 1].value, s.value) {
        items := items[|items| - 1 := items[|items| - 1].(utcReported := s.utcReported)];
        return false;
      }
      items := items + [s];
      if |items| > MAX_ITEM {
        items := items[1..];
      }
      return true;
    }

    method SetDefaultItemInReport(s: Item<V>)
      requires |items| <= MAX_ITEM
      modifies this
      ensures items == Newest(old(items) + [s])
    {
      items := items + [s];
      if |items| > MAX_ITEM {
        items := items[1..];
      }
    }
  }

  // ---------------------------------------------------------------------------
  // A stream of events
  // ---------------------------------------------------------------------------

  function Kept<V>(stream: seq<Item<V>>): seq<Item<V>> {
    if stream == [] then []
    else
      var last := stream[|stream| - 1];
      Kept(stream[..|stream| - 1]) + if last.ignored then [] else [last]
  }

  /** How many items of the stream, from its start on, equal x. */
  function RunLength<V>(eq: Equals<V>, x: V, stream: seq<Item<V>>): (n: nat)
    ensures n <= |stream|
  {
    if stream == [] || !eq(x, stream[0].value) then 0 else 1 + RunLength(eq, x, stream[1..])
  }

  /** Each run of items equal to its first one becomes that item, reported when the run's last was. */
  function Collapse<V>(eq: Equals<V>, stream: seq<Item<V>>): seq<Item<V>>
    decreases |stream|
  {
    if stream == [] then []
    else
      var n := RunLength(eq, stream[0].value, stream[1..]);
      [stream[0].(utcReported := stream[n].utcReported)] + Collapse(eq, stream[n + 1..])
  }

  /** The report after the stream; some kinds of item start with a default. */
  function Replay<V>(eq: Equals<V>, start: Option<Item<V>>, stream: seq<Item<V>>): seq<Item<V>> {
    if stream == [] then Opening(start)
    else Set(eq, Replay(eq, start, stream[..|stream| - 1]), stream[|stream| - 1])
  }

  function Opening<V>(start: Option<Item<V>>): seq<Item<V>> {
    if start.Some? then [start.value] else []
  }

  // ---------------------------------------------------------------------------
  // One more item at the end of the stream
  // ---------------------------------------------------------------------------

  lemma {:induction false} RunLengthSnoc<V>(eq: Equals<V>, x: V, stream: seq<Item<V>>, s: Item<V>)
    ensures var n := RunLength(eq, x, stream);
            RunLength(eq, x, stream + [s]) == if n == |stream| && eq(x, s.value) then n + 1 else n
  {
    if stream != [] {
      RunLengthSnoc(eq, x, stream[1..], s);
      assert (stream + [s])[1..] == stream[1..] + [s];
    }
  }

  /** A further item taken into a collapsed stream. */
  function Extended<V>(eq: Equals<V>, c: seq<Item<V>>, s: Item<V>): seq<Item<V>> {
    if Unchanged(eq, c, s) then Refreshed(c, s.utcReported) else c + [s]
  }

  /** The collapsed stream, given the end n of its first run. */
  lemma {:induction false} FirstRun<V>(eq: Equals<V>, stream: seq<Item<V>>, n: nat)
    requires n < |stream| && n == RunLength(eq, stream[0].value, stream[1..])
    ensures Collapse(eq, stream) == [stream[0].(utcReported := stream[n].utcReported)] + Collapse(eq, stream[n + 1..])
  {
  }

  lemma {:induction false} ExtendedTail<V>(eq: Equals<V>, x: Item<V>, c: seq<Item<V>>, s: Item<V>)
    requires c != []
    ensures Extended(eq, [x] + c, s) == [x] + Extended(eq, c, s)
  {
  }

  lemma {:induction false} CollapseSnoc<V>(eq: Equals<V>, stream: seq<Item<V>>, s: Item<V>)
    ensures Collapse(eq, stream + [s]) == Extended(eq, Collapse(eq, stream), s)
    decreases |stream|, 1
  {
    if stream == [] {
      assert stream + [s] == [s] && [s][1..] == [];
      FirstRun(eq, [s], 0);
    } else {
      var n := RunLength(eq, stream[0].value, stream[1..]);
      if n < |stream| - 1 {
        CollapseSnocLater(eq, stream, s, n);
      } else {
        CollapseSnocFirst(eq, stream, s, n);
      }
    }
  }

  /** The case where the stream is one run. */
  lemma {:induction false} CollapseSnocFirst<V>(eq: Equals<V>, stream: seq<Item<V>>, s: Item<V>, n: nat)
    requires n + 1 == |stream| && n == RunLength(eq, stream[0].value, stream[1..])
    ensures Collapse(eq, stream + [s]) == Extended(eq, Collapse(eq, stream), s)
  {
    var long, head := stream + [s], stream[0].(utcReported := stream[n].utcReported);
    assert long[1..] == stream[1..] + [s];
    RunLengthSnoc(eq, stream[0].value, stream[1..], s);
    FirstRun(eq, stream, n);
    assert Collapse(eq, stream) == [head];
    if eq(stream[0].value, s.value) {
      FirstRun(eq, long, n + 1);
      assert long[n + 2..] == [];
    } else {
      FirstRun(eq, long, n);
      assert long[n + 1..] == [s] && [s][1..] == [];
      FirstRun(eq, [s], 0);
    }
  }

  /** The case where the first run ends before the new item. */
  lemma {:induction false} CollapseSnocLater<V>(eq: Equals<V>, stream: seq<Item<V>>, s: Item<V>, n: nat)
    requires n + 1 < |stream| && n == RunLength(eq, stream[0].value, stream[1..])
    ensures Collapse(eq, stream + [s]) == Extended(eq, Collapse(eq, stream), s)
    decreases |stream|, 0
  {
    var long, tail := stream + [s], stream[n + 1..];
    assert long[1..] == stream[1..] + [s] && long[n + 1..] == tail + [s];
    RunLengthSnoc(eq, stream[0].value, stream[1..], s);
    FirstRun(eq, stream, n);
    FirstRun(eq, long, n);
    CollapseSnoc(eq, tail, s);
    FirstRun(eq, tail, RunLength(eq, tail[0].value, tail[1..]));
    ExtendedTail(eq, stream[0].(utcReported := stream[n].utcReported), Collapse(eq, tail), s);
  }

  /** Setting an item keeps the window over the collapsed stream. */
  lemma {:induction false} SetNewest<V>(eq: Equals<V>, c: seq<Item<V>>, s: Item<V>)
    requires !s.ignored
    ensures Set(eq, Newest(c), s) == Newest(Extended(eq, c, s))
  {
  }

  // ---------------------------------------------------------------------------
  // What the report holds
  // ---------------------------------------------------------------------------

  /** The report is always the last five items of the collapsed stream of events not ignored. */
  lemma {:induction false} ReportIsWindow<V>(eq: Equals<V>, start: Option<Item<V>>, stream: seq<Item<V>>)
    ensures Replay(eq, start, stream) == Newest(Collapse(eq, Opening(start) + Kept(stream)))
  {
    if stream == [] {
      assert Opening(start) + Kept(stream) == Opening(start);
    } else {
      var before, s := stream[..|stream| - 1], stream[|stream| - 1];
      ReportIsWindow(eq, start, before);
      var kept := Opening(start) + Kept(before);
      if s.ignored {
        assert Opening(start) + Kept(stream) == kept;
      } else {
        assert Opening(start) + Kept(stream) == kept + [s];
        CollapseSnoc(eq, kept, s);
        SetNewest(eq, Collapse(eq, kept), s);
      }
    }
  }

  /** All of the collapsed stream while it has fewer than five items, five from then on. */
  lemma WindowSize<V>(eq: Equals<V>, start: Option<Item<V>>, stream: seq<Item<V>>)
    ensures var n := |Collapse(eq, Opening(start) + Kept(stream))|;
            |Replay(eq, start, stream)| == if n < 5 then n else 5
  {
    ReportIsWindow(eq, start, stream);
  }

  /** The newest item in the report speaks for the latest of all the events: it is that one or was
      found equal to it, and it was reported when that one was. */
  ghost predicate Current<V>(eq: Equals<V>, report: seq<Item<V>>, all: seq<Item<V>>) {
    && (report == [] <==> all == [])
    && (report != [] ==>
          var newest, latest := report[|report| - 1], all[|all| - 1];
          && newest.utcReported == latest.utcReported
          && (newest.value == latest.value || eq(newest.value, latest.value)))
  }

  lemma SetIsCurrent<V>(eq: Equals<V>, report: seq<Item<V>>, s: Item<V>, all: seq<Item<V>>)
    requires !s.ignored && all != [] && all[|all| - 1] == s
    ensures Current(eq, Set(eq, report, s), all)
  {
  }

  /** What is handed out as the current report is current. */
  lemma {:induction false} NewestItemIsCurrent<V>(eq: Equals<V>, start: Option<Item<V>>, stream: seq<Item<V>>)
    ensures Current(eq, Replay(eq, start, stream), Opening(start) + Kept(stream))
  {
    if stream != [] {
      var before, s := stream[..|stream| - 1], stream[|stream| - 1];
      var all := Opening(start) + Kept(stream);
      if s.ignored {
        NewestItemIsCurrent(eq, start, before);
        assert all == Opening(start) + Kept(before);
      } else {
        SetIsCurrent(eq, Replay(eq, start, before), s, all);
      }
    }
  }

  /** No two neighbours in the report are equal. */
  lemma {:induction false} NeighboursDiffer<V>(eq: Equals<V>, start: Option<Item<V>>, stream: seq<Item<V>>)
    ensures var report := Replay(eq, start, stream);
            |report| <= MAX_ITEM && forall i :: 0 < i < |report| ==> !eq(report[i - 1].value, report[i].value)
  {
    if stream != [] {
      NeighboursDiffer(eq, start, stream[..|stream| - 1]);
    }
  }
}
