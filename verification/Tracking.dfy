/**
 The time-based tracking multiplexer of gps/gnss/GnssAdapter.cpp: many sessions share one
 engine, which is restarted only when a command makes it necessary.

 Intervals are in milliseconds. Whether the power-mode comparison of a command asks for a
 restart is a parameter of the command (`lowerPower`), so that every result holds either way.
 Engine requests succeed.
 */
module Tracking {
  import opened Wrappers

  const MIN_TRACKING_INTERVAL := 100

  datatype SessionKey = SessionKey(client: int, id: nat)

  /** `engine`: the interval the engine runs at, if it runs. `requests`: what the engine was asked for,
      an interval or to stop, in order. */
  datatype Mux = Mux(
    sessions: map<SessionKey, nat>, engine: Option<nat>, nHzNeeded: bool, atHighest: bool, requests: seq<Option<nat>>)

  const INITIAL := Mux(map[], None, false, false, [])

  datatype Command =
    | StartSession(key: SessionKey, interval: nat, lowerPower: bool)
    | UpdateSession(key: SessionKey, interval: nat, powerChanged: bool, lowerPower: bool)
    | StopSession(key: SessionKey, lowerPower: bool)
    | SetNHz(needed: bool)
    | EngineRestarted

  function Clamp(interval: nat): nat {
    if interval < MIN_TRACKING_INTERVAL then MIN_TRACKING_INTERVAL else interval
  }

  // ---------------------------------------------------------------------------
  // The smallest interval
  // ---------------------------------------------------------------------------

  ghost predicate IsSmallest(sessions: map<SessionKey, nat>, m: nat) {
    && (exists k :: k in sessions && sessions[k] == m)
    && forall k :: k in sessions ==> m <= sessions[k]
  }

  lemma {:induction false} SmallestExists(sessions: map<SessionKey, nat>)
    requires sessions != map[]
    ensures exists m :: IsSmallest(sessions, m)
    decreases |sessions|
  {
    var k :| k in sessions;
    var rest := sessions - {k};
    if rest == map[] {
      assert forall x :: x in sessions ==> x == k by {
        assert forall x :: x in sessions && x != k ==> x in rest;
      }
      assert IsSmallest(sessions, sessions[k]);
    } else {
      assert rest.Keys < sessions.Keys;
      SmallerMap(rest, sessions);
      SmallestExists(rest);
      var m :| IsSmallest(rest, m);
      var x :| x in rest && rest[x] == m;
      assert forall y :: y in sessions ==> y == k || y in rest;
      assert IsSmallest(sessions, if sessions[k] < m then sessions[k] else m);
    }
  }

  lemma SmallerMap(a: map<SessionKey, nat>, b: map<SessionKey, nat>)
    requires a.Keys < b.Keys
    ensures |a| < |b|
  {
    SmallerSet(a.Keys, b.Keys);
    assert |a| == |a.Keys| && |b| == |b.Keys|;
  }

  lemma SmallerSet(a: set<SessionKey>, b: set<SessionKey>)
    requires a < b
    ensures |a| < |b|
  {
    assert |b - a| >= 1 by {
      var x :| x in b - a;
    }
    assert b == a + (b - a);
  }

  ghost function Smallest(sessions: map<SessionKey, nat>): (m: nat)
    requires sessions != map[]
    ensures IsSmallest(sessions, m)
  {
    SmallestExists(sessions);
    var m :| IsSmallest(sessions, m);
    m
  }

  // ---------------------------------------------------------------------------
  // Commands
  // ---------------------------------------------------------------------------

  function Ask(t: Mux, engine: Option<nat>): Mux {
    t.(engine := engine, requests := t.requests + [engine])
  }

  /** Starts the engine, at 100 ms if an nHz engine needs it, unless it already runs there for one. */
  function StartEngine(t: Mux, interval: nat): Mux {
    if t.nHzNeeded && t.atHighest then t
    else if t.nHzNeeded && interval > MIN_TRACKING_INTERVAL
    then Ask(t.(atHighest := true), Some(MIN_TRACKING_INTERVAL))
    else Ask(t, Some(interval))
  }

  ghost function Start(t: Mux, key: SessionKey, interval: nat, lowerPower: bool): Mux {
    var t' :=
      if t.sessions == map[] then StartEngine(t, interval)
      else
        var m := Smallest(t.sessions);
        if interval < m then StartEngine(t, interval)
        else if lowerPower then StartEngine(t, m)
        else t;
    t'.(sessions := t.sessions[key := interval])
  }

  ghost function Update(t: Mux, key: SessionKey, interval: nat, powerChanged: bool, lowerPower: bool): Mux
    requires key in t.sessions
  {
    var others := t.sessions - {key};
    var t' :=
      if t.sessions[key] == interval && !powerChanged then t
      else if others == map[] then StartEngine(t, interval)
      else
        var m := Smallest(others);
        if interval < m then StartEngine(t, interval)
        else if lowerPower then StartEngine(t, m)
        else t;
    t'.(sessions := t.sessions[key := interval])
  }

  ghost function Stop(t: Mux, key: SessionKey, lowerPower: bool): Mux
    requires key in t.sessions
  {
    var others := t.sessions - {key};
    var t' :=
      if others == map[] then Ask(t.(atHighest := false), None)
      else
        var m := Smallest(others);
        if t.sessions[key] < m || lowerPower then StartEngine(t, m) else t;
    t'.(sessions := others)
  }

  /** `checkAndRestartSPESession`. */
  ghost function Restart(t: Mux): Mux {
    var t' := t.(atHighest := false);
    if t.sessions == map[] then t' else StartEngine(t', Smallest(t.sessions))
  }

  ghost function Execute(t: Mux, c: Command): Mux {
    match c
    case StartSession(key, i, lower) => Start(t, key, Clamp(i), lower)
    case UpdateSession(key, i, changed, lower) =>
      if key in t.sessions then Update(t, key, Clamp(i), changed, lower) else t
    case StopSession(key, lower) => if key in t.sessions then Stop(t, key, lower) else t
    case SetNHz(needed) => if t.nHzNeeded == needed then t else Restart(t.(nHzNeeded := needed))
    case EngineRestarted => Restart(t.(engine := None))
  }

  ghost function Run(commands: seq<Command>): Mux {
    if commands == [] then INITIAL else Execute(Run(commands[..|commands| - 1]), commands[|commands| - 1])
  }

  // ---------------------------------------------------------------------------
  // Over every run
  // ---------------------------------------------------------------------------

  ghost predicate Inv(t: Mux) {
    && (t.engine.Some? <==> t.sessions != map[])
    && (forall k :: k in t.sessions ==> MIN_TRACKING_INTERVAL <= t.sessions[k])
    && (t.engine.Some? ==> forall k :: k in t.sessions ==> t.engine.value <= t.sessions[k])
    && (t.nHzNeeded && t.engine.Some? ==> t.engine.value == MIN_TRACKING_INTERVAL)
    && (t.atHighest ==> t.nHzNeeded && t.engine == Some(MIN_TRACKING_INTERVAL))
  }

  lemma StartKeepsInv(t: Mux, key: SessionKey, interval: nat, lowerPower: bool)
    requires Inv(t) && MIN_TRACKING_INTERVAL <= interval
    ensures Inv(Start(t, key, interval, lowerPower))
  {
    var t' := Start(t, key, interval, lowerPower);
    assert key in t'.sessions;
  }

  lemma UpdateKeepsInv(t: Mux, key: SessionKey, interval: nat, powerChanged: bool, lowerPower: bool)
    requires Inv(t) && key in t.sessions && MIN_TRACKING_INTERVAL <= interval
    ensures Inv(Update(t, key, interval, powerChanged, lowerPower))
  {
    var others, t' := t.sessions - {key}, Update(t, key, interval, powerChanged, lowerPower);
    assert key in t'.sessions;
    assert forall x :: x in t'.sessions && x != key ==> x in others && t'.sessions[x] == others[x];
  }

  lemma StopKeepsInv(t: Mux, key: SessionKey, lowerPower: bool)
    requires Inv(t) && key in t.sessions
    ensures Inv(Stop(t, key, lowerPower))
  {
    var others := t.sessions - {key};
    assert forall x :: x in others ==> x in t.sessions && t.sessions[x] == others[x];
  }

  lemma RestartKeepsInv(t: Mux)
    requires forall k :: k in t.sessions ==> MIN_TRACKING_INTERVAL <= t.sessions[k]
    requires t.sessions == map[] ==> t.engine == None
    ensures Inv(Restart(t))
  {
  }

  lemma ExecuteKeepsInv(t: Mux, c: Command)
    requires Inv(t)
    ensures Inv(Execute(t, c))
  {
    match c
    case StartSession(key, i, lower) => StartKeepsInv(t, key, Clamp(i), lower);
    case UpdateSession(key, i, changed, lower) =>
      if key in t.sessions { UpdateKeepsInv(t, key, Clamp(i), changed, lower); }
    case StopSession(key, lower) => if key in t.sessions { StopKeepsInv(t, key, lower); }
    case SetNHz(needed) => RestartKeepsInv(t.(nHzNeeded := needed));
    case EngineRestarted => RestartKeepsInv(t.(engine := None));
  }

  /** In every run the engine runs iff some session is live, never more slowly than any live
      session asks for, and at exactly 100 ms while an nHz engine needs it. */
  lemma {:induction false} RunsServeEverySession(commands: seq<Command>)
    ensures Inv(Run(commands))
  {
    if commands != [] {
      RunsServeEverySession(commands[..|commands| - 1]);
      ExecuteKeepsInv(Run(commands[..|commands| - 1]), commands[|commands| - 1]);
    }
  }

  /** The engine runs no faster than the fastest live session needs. */
  ghost predicate Tight(t: Mux) {
    t.engine.Some? ==> IsSmallest(t.sessions, t.engine.value)
  }

  /** A session id is issued once, so a start is never for a live session. */
  ghost predicate FreshStart(t: Mux, c: Command) {
    c.StartSession? ==> c.key !in t.sessions
  }

  lemma StartKeepsTight(t: Mux, key: SessionKey, interval: nat, lowerPower: bool)
    requires Inv(t) && Tight(t) && !t.nHzNeeded && key !in t.sessions
    ensures Tight(Start(t, key, interval, lowerPower))
  {
    var t' := Start(t, key, interval, lowerPower);
    assert t'.sessions[key] == interval;
    if t.sessions != map[] {
      var m := Smallest(t.sessions);
      assert m == t.engine.value;
      var k :| k in t.sessions && t.sessions[k] == m;
      assert t'.sessions[k] == m;
    }
  }

  lemma StopKeepsTight(t: Mux, key: SessionKey, lowerPower: bool)
    requires Inv(t) && Tight(t) && !t.nHzNeeded && key in t.sessions
    ensures Tight(Stop(t, key, lowerPower))
  {
    var others := t.sessions - {key};
    if others != map[] {
      var m := Smallest(others);
      var k :| k in others && others[k] == m;
      assert t.sessions[k] == m;
      assert forall x :: x in t.sessions ==> x == key || x in others;
    }
  }

  /** An update leaves a tight engine tight except in one case: of several sessions the
      strictly fastest slows down to the next one's interval or beyond, and nothing else
      asks for a restart. The engine then stays faster than any session needs. */
  lemma UpdateTightIff(t: Mux, key: SessionKey, interval: nat, powerChanged: bool, lowerPower: bool)
    requires Inv(t) && Tight(t) && !t.nHzNeeded && key in t.sessions
    ensures var others := t.sessions - {key};
            Tight(Update(t, key, interval, powerChanged, lowerPower)) <==>
            !(others != map[] && t.sessions[key] < Smallest(others) <= interval && !lowerPower)
  {
    var others, t' := t.sessions - {key}, Update(t, key, interval, powerChanged, lowerPower);
    assert forall x :: x in t.sessions ==> x == key || x in others;
    assert t'.sessions[key] == interval;
    if others != map[] {
      var m := Smallest(others);
      var k :| k in others && others[k] == m;
      assert t.sessions[k] == m && t'.sessions[k] == m;
      assert forall x :: x in t'.sessions && x != key ==> x in others && t'.sessions[x] == others[x];
    } else {
      assert t'.sessions == map[key := interval];
    }
  }

  /** The failing case as a command. */
  ghost predicate SlowsFastest(t: Mux, c: Command) {
    && c.UpdateSession? && c.key in t.sessions && t.sessions - {c.key} != map[]
    && t.sessions[c.key] < Smallest(t.sessions - {c.key}) <= Clamp(c.interval) && !c.lowerPower
  }

  /** Ending an nHz need, or any other restart without one, brings the engine to the smallest interval. */
  lemma RestartIsTight(t: Mux)
    requires !t.nHzNeeded && (t.sessions == map[] ==> t.engine == None)
    ensures Tight(Restart(t))
  {
  }

  lemma ExecuteKeepsTight(t: Mux, c: Command)
    requires Inv(t) && FreshStart(t, c) && (t.nHzNeeded || (Tight(t) && !SlowsFastest(t, c)))
    ensures Execute(t, c).nHzNeeded || Tight(Execute(t, c))
  {
    if t.nHzNeeded {
      if c == SetNHz(false) { RestartIsTight(t.(nHzNeeded := false)); }
    } else {
      match c
      case StartSession(key, i, lower) => StartKeepsTight(t, key, Clamp(i), lower);
      case UpdateSession(key, i, changed, lower) =>
        if key in t.sessions { UpdateTightIff(t, key, Clamp(i), changed, lower); }
      case StopSession(key, lower) => if key in t.sessions { StopKeepsTight(t, key, lower); }
      case SetNHz(needed) =>
      case EngineRestarted => RestartIsTight(t.(engine := None));
    }
  }

  /** In every run in which no update outside an nHz need slows the strictly fastest session past the
      next one, the engine runs at exactly the smallest live interval whenever no nHz engine needs
      more, also after such a need has come and gone. */
  lemma {:induction false} RunsAreTight(commands: seq<Command>)
    requires forall i :: 0 <= i < |commands| ==> FreshStart(Run(commands[..i]), commands[i])
    requires forall i :: 0 <= i < |commands| && !Run(commands[..i]).nHzNeeded
                         ==> !SlowsFastest(Run(commands[..i]), commands[i])
    ensures Run(commands).nHzNeeded || Tight(Run(commands))
  {
    if commands != [] {
      var before := commands[..|commands| - 1];
      forall i | 0 <= i < |before| ensures before[..i] == commands[..i] && before[i] == commands[i] {
      }
      RunsAreTight(before);
      RunsServeEverySession(before);
      ExecuteKeepsTight(Run(before), commands[|commands| - 1]);
    }
  }

  /** Of two sessions at 1000 and 2000 ms the first slows down to 5000: the engine stays at 1000. */
  lemma SlowedSessionLeavesEngineFast(a: SessionKey, b: SessionKey)
    requires a != b
    ensures var t := Mux(map[a := 1000, b := 2000], Some(1000), false, false, [Some(1000)]);
            var t' := Execute(t, UpdateSession(a, 5000, false, false));
            && Inv(t) && Tight(t) && t'.sessions == map[a := 5000, b := 2000]
            && t'.engine == Some(1000) && !Tight(t')
  {
    var t := Mux(map[a := 1000, b := 2000], Some(1000), false, false, [Some(1000)]);
    assert t.sessions[a] == 1000 && t.sessions[b] == 2000;
    assert IsSmallest(t.sessions, 1000);
    var others := t.sessions - {a};
    assert b in others && others == map[b := 2000];
    assert Smallest(others) == 2000;
    UpdateTightIff(t, a, 5000, false, false);
    assert t.sessions[a := 5000] == map[a := 5000, b := 2000];
  }

  // ---------------------------------------------------------------------------
  // What the commands alone say
  // ---------------------------------------------------------------------------

  /** The interval a session is live with: that of its latest start or update since its last stop,
      raised to 100 ms. */
  function Asked(commands: seq<Command>, key: SessionKey): Option<nat> {
    if commands == [] then None
    else
      var before := Asked(commands[..|commands| - 1], key);
      match commands[|commands| - 1]
      case StartSession(k, i, _) => if k == key then Some(if i < 100 then 100 else i) else before
      case UpdateSession(k, i, _, _) => if k == key && before.Some? then Some(if i < 100 then 100 else i) else before
      case StopSession(k, _) => if k == key then None else before
      case SetNHz(_) => before
      case EngineRestarted => before
  }

  function LatestNHz(commands: seq<Command>): bool {
    if commands == [] then false
    else
      match commands[|commands| - 1]
      case SetNHz(needed) => needed
      case _ => LatestNHz(commands[..|commands| - 1])
  }

  lemma ExecuteKeepsOthers(t: Mux, c: Command, key: SessionKey)
    ensures var t' := Execute(t, c);
            && (c.SetNHz? || c.EngineRestarted? || c.key != key ==>
                (key in t'.sessions <==> key in t.sessions)
                && (key in t.sessions ==> t'.sessions[key] == t.sessions[key]))
            && (!c.SetNHz? ==> t'.nHzNeeded == t.nHzNeeded)
  {
  }

  /** In every run the live sessions, their intervals and the nHz need are those the commands alone say. */
  lemma {:induction false} SessionsAreAsked(commands: seq<Command>, key: SessionKey)
    ensures var t := Run(commands);
            && (key in t.sessions <==> Asked(commands, key).Some?)
            && (key in t.sessions ==> t.sessions[key] == Asked(commands, key).value)
            && t.nHzNeeded == LatestNHz(commands)
  {
    if commands != [] {
      var before, c := commands[..|commands| - 1], commands[|commands| - 1];
      SessionsAreAsked(before, key);
      ExecuteKeepsOthers(Run(before), c, key);
    }
  }

  // ---------------------------------------------------------------------------
  // When the engine is asked
  // ---------------------------------------------------------------------------

  /** The engine's interval changes by a request, one for a command at most, and each request is for
      the interval that the engine then runs at. Only an engine restart changes it without. */
  lemma OneRequestACommand(t: Mux, c: Command)
    ensures var t' := Execute(t, c);
            || t'.requests == t.requests + [t'.engine]
            || (t'.requests == t.requests && (c == EngineRestarted || t'.engine == t.engine))
  {
  }

  /** With the engine at the smallest interval and no nHz need, a start or a stop asks it exactly when
      the smallest interval changes, or when the power comparison demands it. */
  lemma AsksIffIntervalChanges(t: Mux, c: Command)
    requires Inv(t) && Tight(t) && !t.nHzNeeded && FreshStart(t, c)
    requires c.StartSession? || (c.StopSession? && c.key in t.sessions)
    ensures var t' := Execute(t, c);
            t'.requests != t.requests <==>
            t'.engine != t.engine || (c.lowerPower && t.sessions != map[] && t'.sessions != map[])
  {
    var t' := Execute(t, c);
    assert t'.requests != t.requests ==> |t'.requests| != |t.requests|;
    if c.StopSession? {
      var others := t.sessions - {c.key};
      assert forall x :: x in t.sessions ==> x == c.key || x in others;
    } else {
      assert c.key in t'.sessions;
    }
  }

  /** An update that changes something asks when the smallest interval changes, for the only session,
      on the power comparison's demand, and for a new power mode of the fastest session; no other does. */
  lemma UpdateAsksIff(t: Mux, key: SessionKey, interval: nat, powerChanged: bool, lowerPower: bool)
    requires Inv(t) && Tight(t) && !t.nHzNeeded && key in t.sessions
    ensures var t', others := Update(t, key, interval, powerChanged, lowerPower), t.sessions - {key};
            t'.requests != t.requests <==>
            && (t.sessions[key] != interval || powerChanged)
            && (t'.engine != t.engine || others == map[] || lowerPower || (powerChanged && interval < Smallest(others)))
  {
    var t', others := Update(t, key, interval, powerChanged, lowerPower), t.sessions - {key};
    assert t'.requests != t.requests ==> |t'.requests| != |t.requests|;
    assert forall x :: x in t.sessions ==> x == key || x in others;
  }

  /** While an nHz engine is served at 100 ms, the engine is not asked again until the last session
      stops, the need changes or the engine restarts. */
  lemma ServedNHzIsLeftAlone(t: Mux, c: Command)
    requires Inv(t) && t.nHzNeeded && t.atHighest
    requires c.StartSession? || c.UpdateSession?
             || (c.StopSession? && (c.key in t.sessions ==> t.sessions - {c.key} != map[]))
    ensures Execute(t, c).requests == t.requests && Execute(t, c).engine == t.engine
  {
  }

  /** After an engine restart, and after a change of the nHz need, the engine is asked once more for the
      live sessions; a need that stays asks nothing. */
  lemma RestartAsks(t: Mux, c: Command)
    requires c == EngineRestarted || c.SetNHz?
    ensures var t' := Execute(t, c);
            if t.sessions != map[] && (c == EngineRestarted || c.needed != t.nHzNeeded)
            then t'.requests == t.requests + [t'.engine] && t'.engine.Some?
            else t'.requests == t.requests && (c == EngineRestarted ==> t'.engine == None)
  {
  }

  /** An nHz need that the first session comes upon, or that comes upon running sessions slower than
      100 ms, is served at once. */
  lemma NHzIsServed(t: Mux, c: Command)
    requires Inv(t)
    requires (c == SetNHz(true) && !t.nHzNeeded && t.sessions != map[] && Smallest(t.sessions) > 100)
             || (c.StartSession? && t.nHzNeeded && t.sessions == map[] && c.interval > 100)
    ensures var t' := Execute(t, c);
            t'.atHighest && t'.engine == Some(100) && t'.requests == t.requests + [Some(100)]
  {
    assert c.StartSession? ==> !t.atHighest;
  }

  // ---------------------------------------------------------------------------
  // The adapter
  // ---------------------------------------------------------------------------

  class TrackingAdapter {
    var sessions: map<SessionKey, nat>
    var engine: Option<nat>
    var nHzNeeded: bool
    var speAlreadyRunningAtHighestInterval: bool
    ghost var requests: seq<Option<nat>>

    constructor ()
      ensures View() == INITIAL
    {
      sessions, engine, nHzNeeded, speAlreadyRunningAtHighestInterval := map[], None, false, false;
      requests := [];
    }

    ghost function View(): Mux
      reads this
    {
      Mux(sessions, engine, nHzNeeded, speAlreadyRunningAtHighestInterval, requests)
    }

    /** The smallest interval of the sessions other than `skip`; zero while none is seen. */
    method SmallestInterval(skip: Option<SessionKey>) returns (found: bool, m: nat)
      ensures var others := if skip.Some? then sessions - {skip.value} else sessions;
              found == (others != map[]) && (found ==> m == Smallest(others))
    {
      ghost var others := if skip.Some? then sessions - {skip.value} else sessions;
      found, m := false, 0;
      var todo := sessions.Keys;
      while todo != {}
        invariant todo <= sessions.Keys
        invariant found ==> exists k :: k in others && others[k] == m
        invariant forall k :: k in others && k !in todo ==> found && m <= others[k]
        decreases todo
      {
        var k :| k in todo;
        todo := todo - {k};
        if skip != Some(k) && (!found || sessions[k] < m) {
          found, m := true, sessions[k];
          assert k in others && others[k] == m;
        }
      }
      assert found ==> IsSmallest(others, m);
    }

    /** Lowers the interval to 100 ms for an nHz need; true if the engine already runs there. */
    method CheckAndSetSPEToRunForNHz(minInterval: nat) returns (alreadyRunning: bool, interval: nat)
      modifies this`speAlreadyRunningAtHighestInterval
      ensures alreadyRunning == (nHzNeeded && old(speAlreadyRunningAtHighestInterval))
      ensures !alreadyRunning ==>
                Ask(old(View()).(atHighest := speAlreadyRunningAtHighestInterval), Some(interval))
                == StartEngine(old(View()), minInterval)
      ensures alreadyRunning ==> speAlreadyRunningAtHighestInterval
    {
      alreadyRunning, interval := false, minInterval;
      if !nHzNeeded {
      } else if speAlreadyRunningAtHighestInterval {
        alreadyRunning := true;
      } else if interval > MIN_TRACKING_INTERVAL {
        interval := MIN_TRACKING_INTERVAL;
        speAlreadyRunningAtHighestInterval := true;
      }
    }

    method AskEngine(interval: Option<nat>)
      modifies this`engine, this`requests
      ensures engine == interval && requests == old(requests) + [interval]
    {
      engine := interval;
      requests := requests + [interval];
    }

    method StartTimeBasedTracking(minInterval: nat)
      modifies this`engine, this`speAlreadyRunningAtHighestInterval, this`requests
      ensures View() == StartEngine(old(View()), minInterval)
    {
      var alreadyRunning, interval := CheckAndSetSPEToRunForNHz(minInterval);
      if !alreadyRunning {
        AskEngine(Some(interval));
      }
    }

    method StartSession(key: SessionKey, minInterval: nat, lowerPower: bool)
      modifies this
      ensures View() == Execute(old(View()), Command.StartSession(key, minInterval, lowerPower))
    {
      var interval := Clamp(minInterval);
      if sessions == map[] {
        StartTimeBasedTracking(interval);
      } else {
        var _, multiplexed := SmallestInterval(None);
        var updateOptions := lowerPower;
        if interval < multiplexed {
          multiplexed := interval;
          updateOptions := true;
        }
        if updateOptions {
          StartTimeBasedTracking(multiplexed);
        }
      }
      sessions := sessions[key := interval];
    }

    method UpdateSession(key: SessionKey, minInterval: nat, powerChanged: bool, lowerPower: bool)
      modifies this
      ensures View() == Execute(old(View()), Command.UpdateSession(key, minInterval, powerChanged, lowerPower))
    {
      if key !in sessions {
        return;
      }
      var interval := Clamp(minInterval);
      if sessions[key] != interval || powerChanged {
        var found, multiplexed := SmallestInterval(Some(key));
        OneSession(sessions, key);
        var updateOptions := lowerPower;
        if found && interval < multiplexed {
          multiplexed := interval;
          updateOptions := true;
        }
        if |sessions| == 1 {
          multiplexed := interval;
          updateOptions := true;
        }
        if updateOptions {
          StartTimeBasedTracking(multiplexed);
        }
      }
      sessions := sessions[key := interval];
    }

    method StopSession(key: SessionKey, lowerPower: bool)
      modifies this
      ensures View() == Execute(old(View()), Command.StopSession(key, lowerPower))
    {
      if key !in sessions {
        return;
      }
      OneSession(sessions, key);
      if |sessions| == 1 {
        AskEngine(None);
        speAlreadyRunningAtHighestInterval := false;
      } else {
        var _, multiplexed := SmallestInterval(Some(key));
        if sessions[key] < multiplexed || lowerPower {
          StartTimeBasedTracking(multiplexed);
        }
      }
      sessions := sessions - {key};
    }

    method CheckAndRestartSPESession()
      modifies this`engine, this`speAlreadyRunningAtHighestInterval, this`requests
      ensures View() == Restart(old(View()))
    {
      speAlreadyRunningAtHighestInterval := false;
      if sessions != map[] {
        var _, smallest := SmallestInterval(None);
        StartTimeBasedTracking(smallest);
      }
    }

    method UpdateNHzRequirement(needed: bool)
      modifies this
      ensures View() == Execute(old(View()), SetNHz(needed))
    {
      if nHzNeeded != needed {
        nHzNeeded := needed;
        CheckAndRestartSPESession();
      }
    }

    /** The modem lost its session; every live session is started again. */
    method RestartSessions()
      modifies this
      ensures View() == Execute(old(View()), EngineRestarted)
    {
      engine := None;
      CheckAndRestartSPESession();
    }
  }

  lemma OneSession(sessions: map<SessionKey, nat>, key: SessionKey)
    requires key in sessions
    ensures |sessions| == 1 <==> sessions - {key} == map[]
  {
    var others := sessions - {key};
    assert sessions.Keys == others.Keys + {key};
    assert |sessions| == |others| + 1;
  }
}
