/**
 The adapter table of gps/core/LocApiBase.cpp: a fixed array without holes, a message for
 every change, and the event mask that the registered adapters ask for together.
 */
module Adapters {
  import opened CompactSeq
  import opened Wrappers

  const MAX_ADAPTERS := 10

  /** An open request names the adapter that is new, if one is. */
  datatype Message<+T> = Open(adapter: Option<T>) | Close

  datatype Table<+T> = Table(adapters: seq<T>, log: seq<Message<T>>)

  datatype Change<+T> = Add(adapter: T) | Remove(adapter: T)

  // ---------------------------------------------------------------------------
  // The table as a sequence
  // ---------------------------------------------------------------------------

  function Apply<T(==)>(t: Table<T>, c: Change<T>): Table<T> {
    match c
    case Add(a) =>
      if a in t.adapters || |t.adapters| >= MAX_ADAPTERS then t
      else Table(t.adapters + [a], t.log + [Open(Some(a))])
    case Remove(a) =>
      if a !in t.adapters then t
      else
        var rest := SwapOut(t.adapters, IndexOf(t.adapters, a));
        Table(rest, t.log + [if rest == [] then Close else Open(None)])
  }

  function Run<T(==)>(changes: seq<Change<T>>): Table<T> {
    if changes == [] then Table([], []) else Apply(Run(changes[..|changes| - 1]), changes[|changes| - 1])
  }

  // ---------------------------------------------------------------------------
  // A bounded set
  // ---------------------------------------------------------------------------

  /** What the table stands for: a set of at most ten adapters, which messages every change
      of the set, and says `Close` when the set becomes empty. */
  ghost function ApplyToSet<T>(s: set<T>, c: Change<T>): set<T> {
    match c
    case Add(a) => if |s| < 10 then s + {a} else s
    case Remove(a) => s - {a}
  }

  ghost function MessagesOf<T>(s: set<T>, c: Change<T>): seq<Message<T>> {
    var s' := ApplyToSet(s, c);
    if s' == s then []
    else if s' == {} then [Close]
    else if c.Add? then [Open(Some(c.adapter))]
    else [Open(None)]
  }

  ghost function SetRun<T>(changes: seq<Change<T>>): set<T> {
    if changes == [] then {} else ApplyToSet(SetRun(changes[..|changes| - 1]), changes[|changes| - 1])
  }

  ghost function SetMessages<T>(changes: seq<Change<T>>): seq<Message<T>> {
    if changes == [] then []
    else SetMessages(changes[..|changes| - 1]) + MessagesOf(SetRun(changes[..|changes| - 1]), changes[|changes| - 1])
  }

  ghost predicate Compact<T>(t: Table<T>) {
    Distinct(t.adapters) && |t.adapters| <= MAX_ADAPTERS
  }

  lemma AddRefinesSet<T>(t: Table<T>, a: T)
    requires Compact(t)
    ensures var t', s := Apply(t, Add(a)), Elements(t.adapters);
            Compact(t') && Elements(t'.adapters) == ApplyToSet(s, Add(a)) && t'.log == t.log + MessagesOf(s, Add(a))
  {
    DistinctSize(t.adapters);
    if a !in t.adapters && |t.adapters| < MAX_ADAPTERS {
      var s' := t.adapters + [a];
      assert a in s' && Elements(s') == Elements(t.adapters) + {a};
    } else {
      assert t.log + [] == t.log;
    }
  }

  lemma RemoveRefinesSet<T>(t: Table<T>, a: T)
    requires Compact(t)
    ensures var t', s := Apply(t, Remove(a)), Elements(t.adapters);
            && Compact(t') && Elements(t'.adapters) == ApplyToSet(s, Remove(a))
            && t'.log == t.log + MessagesOf(s, Remove(a))
  {
    if a in t.adapters {
      var i := IndexOf(t.adapters, a);
      SwapOutElements(t.adapters, i);
      var rest := SwapOut(t.adapters, i);
      assert rest != [] ==> rest[0] in Elements(rest);
    } else {
      assert t.log + [] == t.log;
    }
  }

  /** In every run the table holds the bounded set without duplicates, and has sent exactly the
      messages of the set: in particular `Close` exactly when the last adapter left. */
  lemma {:induction false} RunRefinesSet<T>(changes: seq<Change<T>>)
    ensures var t := Run(changes);
            && Distinct(t.adapters) && |t.adapters| <= MAX_ADAPTERS
            && Elements(t.adapters) == SetRun(changes)
            && t.log == SetMessages(changes)
  {
    if changes != [] {
      RunRefinesSet(changes[..|changes| - 1]);
      var t, c := Run(changes[..|changes| - 1]), changes[|changes| - 1];
      match c
      case Add(a) => AddRefinesSet(t, a);
      case Remove(a) => RemoveRefinesSet(t, a);
    }
  }

  // ---------------------------------------------------------------------------
  // The array
  // ---------------------------------------------------------------------------

  /** A 64-bit mask, as the set of its one bits: `|` is union and `& ~` is difference. */
  type Mask = set<nat>

  class LocAdapterBase {
    var evtMask: Mask
  }

  class LocApiBase {
    const locAdapters: array<LocAdapterBase?>
    const excludedMask: Mask
    ghost var registered: seq<LocAdapterBase>
    ghost var log: seq<Message<LocAdapterBase>>

    constructor (excludedMask: Mask)
      ensures Valid() && View() == Table([], []) && fresh(locAdapters) && this.excludedMask == excludedMask
    {
      locAdapters := new LocAdapterBase?[MAX_ADAPTERS](_ => null);
      this.excludedMask := excludedMask;
      registered, log := [], [];
    }

    /** The registered adapters come first in the array, nulls after them. */
    ghost predicate Valid()
      reads this, locAdapters
    {
      && locAdapters.Length == MAX_ADAPTERS
      && |registered| <= MAX_ADAPTERS && Distinct(registered)
      && (forall i :: 0 <= i < |registered| ==> locAdapters[i] == registered[i])
      && (forall i :: |registered| <= i < MAX_ADAPTERS ==> locAdapters[i] == null)
    }

    ghost function View(): Table<LocAdapterBase>
      reads this
    {
      Table(registered, log)
    }

    method AddAdapter(adapter: LocAdapterBase)
      requires Valid()
      modifies this, locAdapters
      ensures Valid() && View() == Apply(old(View()), Add(adapter))
    {
      var i := 0;
      while i < MAX_ADAPTERS && locAdapters[i] != adapter
        invariant i <= MAX_ADAPTERS && i <= |registered|
        invariant Valid() && View() == old(View())
        invariant forall k :: 0 <= k < i ==> registered[k] != adapter
      {
        if locAdapters[i] == null {
          locAdapters[i] := adapter;
          registered := registered + [adapter];
          log := log + [Open(Some(adapter))];
          break;
        }
        i := i + 1;
      }
    }

    method RemoveAdapter(adapter: LocAdapterBase)
      requires Valid()
      modifies this, locAdapters
      ensures Valid() && View() == Apply(old(View()), Remove(adapter))
    {
      var i := 0;
      ghost var removed := false;
      while i < MAX_ADAPTERS && locAdapters[i] != null
        invariant Valid()
        invariant if removed then i > |registered| && View() == Apply(old(View()), Remove(adapter))
                  else i <= |registered| && View() == old(View()) && forall k :: 0 <= k < i ==> registered[k] != adapter
        decreases !removed, MAX_ADAPTERS - i
      {
        if locAdapters[i] == adapter {
          i := SwapWithLast(i, adapter);
          removed := true;
        }
        i := i + 1;
      }
    }

    /** Takes out the adapter at `j`: the last one fills the hole. Returns where the new end is. */
    method SwapWithLast(j: nat, adapter: LocAdapterBase) returns (i: nat)
      requires Valid() && j < |registered| && registered[j] == adapter
      modifies this, locAdapters
      ensures Valid() && View() == Apply(old(View()), Remove(adapter)) && i == |registered|
    {
      locAdapters[j] := null;
      i := j + 1;
      while i < MAX_ADAPTERS && locAdapters[i] != null
        invariant j < i <= |registered|
      {
        i := i + 1;
      }
      assert i == |registered|;
      i := i - 1;
      locAdapters[j] := locAdapters[i];
      locAdapters[i] := null;
      SwapOutElements(registered, j);
      registered := SwapOut(registered, j);
      if i == 0 {
        log := log + [Close];
      } else {
        log := log + [Open(None)];
      }
    }

    /** The bits that some registered adapter asks for, without the excluded ones. */
    method GetEvtMask() returns (mask: Mask)
      requires Valid()
      ensures forall b :: b in mask <==>
                b !in excludedMask && exists i :: 0 <= i < |registered| && b in registered[i].evtMask
    {
      mask := {};
      var i := 0;
      while i < MAX_ADAPTERS && locAdapters[i] != null
        invariant i <= |registered|
        invariant forall b :: b in mask <==> exists k :: 0 <= k < i && b in registered[k].evtMask
      {
        mask := mask + locAdapters[i].evtMask;
        i := i + 1;
      }
      mask := mask - excludedMask;
    }
  }
}
