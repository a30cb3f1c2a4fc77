/**
 The multimap of gps/utils/LocUnorderedSetMap.h: keys with non-empty value sets.
 */
module SetMap {

  ghost predicate Has<K, V>(m: map<K, set<V>>, k: K, v: V) {
    k in m && v in m[k]
  }

  ghost predicate NoEmptyEntry<K, V>(m: map<K, set<V>>) {
    forall k :: k in m ==> m[k] != {}
  }

  function ValSet<K, V>(m: map<K, set<V>>, k: K): set<V> {
    if k in m then m[k] else {}
  }

  /** `add` to every entry of `keys`. */
  function Added<K, V>(m: map<K, set<V>>, keys: set<K>, vals: set<V>): map<K, set<V>> {
    if vals == {} then m else map k | k in m.Keys + keys :: if k in keys then ValSet(m, k) + vals else m[k]
  }

  /** `trimOrRemove`: values taken out of the entries of `keys`, entries left empty taken out too. */
  function Trimmed<K, V>(m: map<K, set<V>>, keys: set<K>, rVals: set<V>): map<K, set<V>> {
    map k | k in m && !(k in keys && m[k] - rVals == {}) :: if k in keys then m[k] - rVals else m[k]
  }

  function GoneKeys<K, V>(m: map<K, set<V>>, keys: set<K>, rVals: set<V>): set<K> {
    set k | k in keys && k in m && m[k] - rVals == {}
  }

  lemma AddedStep<K, V>(m: map<K, set<V>>, done: set<K>, k: K, vals: set<V>)
    requires k !in done
    ensures Added(Added(m, done, vals), {k}, vals) == Added(m, done + {k}, vals)
    ensures k in Added(m, done, vals) <==> k in m
  {
  }

  lemma TrimmedStep<K, V>(m: map<K, set<V>>, done: set<K>, k: K, rVals: set<V>)
    requires k !in done
    ensures Trimmed(Trimmed(m, done, rVals), {k}, rVals) == Trimmed(m, done + {k}, rVals)
    ensures GoneKeys(m, done + {k}, rVals) == GoneKeys(m, done, rVals) + GoneKeys(Trimmed(m, done, rVals), {k}, rVals)
    ensures ValSet(Trimmed(m, done, rVals), k) == ValSet(m, k)
  {
  }

  class LocUnorderedSetMap<K(==), V(==)> {
    var m: map<K, set<V>>

    constructor ()
      ensures m == map[]
    {
      m := map[];
    }

    /** Adds values to one entry; true if the entry is new. */
    method Add(key: K, newVals: set<V>) returns (newEntryAdded: bool)
      modifies this
      ensures m == Added(old(m), {key}, newVals)
      ensures newEntryAdded <==> newVals != {} && key !in old(m)
    {
      newEntryAdded := false;
      if newVals != {} {
        if key in m {
          m := m[key := m[key] + newVals];
        } else {
          assert ValSet(m, key) + newVals == newVals;
          m := m[key := newVals];
          newEntryAdded := true;
        }
      }
    }

    method AddAll(keys: set<K>, newVals: set<V>) returns (newKeys: set<K>)
      modifies this
      ensures m == Added(old(m), keys, newVals)
      ensures newKeys == if newVals == {} then {} else keys - old(m).Keys
    {
      newKeys := {};
      var todo := keys;
      while todo != {}
        invariant todo <= keys
        invariant m == Added(old(m), keys - todo, newVals)
        invariant newKeys == if newVals == {} then {} else keys - todo - old(m).Keys
        decreases todo
      {
        var key :| key in todo;
        ghost var done := keys - todo;
        AddedStep(old(m), done, key, newVals);
        assert keys - (todo - {key}) == done + {key};
        var isNew := Add(key, newVals);
        if isNew {
          newKeys := newKeys + {key};
        }
        todo := todo - {key};
      }
      assert keys - todo == keys;
    }

    /** Takes values out of one entry, and the entry itself if that leaves it empty. */
    method TrimOrRemoveOne(key: K, rVals: set<V>) returns (removed: set<K>, goneVals: set<V>)
      modifies this
      ensures m == Trimmed(old(m), {key}, rVals)
      ensures removed == GoneKeys(old(m), {key}, rVals) && goneVals == ValSet(old(m), key) * rVals
    {
      removed, goneVals := {}, {};
      if key in m {
        goneVals := m[key] * rVals;
        if m[key] - rVals == {} {
          m, removed := m - {key}, {key};
        } else {
          m := m[key := m[key] - rVals];
        }
      }
    }

    method TrimOrRemove(keys: set<K>, rVals: set<V>) returns (goneKeys: set<K>, goneVals: set<V>)
      modifies this
      ensures m == Trimmed(old(m), keys, rVals)
      ensures goneKeys == GoneKeys(old(m), keys, rVals)
      ensures forall v :: v in goneVals <==> v in rVals && exists k :: k in keys && Has(old(m), k, v)
    {
      goneKeys, goneVals := {}, {};
      var todo := keys;
      while todo != {}
        invariant todo <= keys
        invariant m == Trimmed(old(m), keys - todo, rVals)
        invariant goneKeys == GoneKeys(old(m), keys - todo, rVals)
        invariant forall v :: v in goneVals <==> v in rVals && exists k :: k in keys - todo && Has(old(m), k, v)
        decreases todo
      {
        var key :| key in todo;
        ghost var done := keys - todo;
        TrimmedStep(old(m), done, key, rVals);
        assert keys - (todo - {key}) == done + {key};
        assert forall v :: (exists k :: k in done + {key} && Has(old(m), k, v))
                           <==> (exists k :: k in done && Has(old(m), k, v)) || v in ValSet(old(m), key);
        var removed, gone := TrimOrRemoveOne(key, rVals);
        goneKeys, goneVals := goneKeys + removed, goneVals + gone;
        todo := todo - {key};
      }
      assert keys - todo == keys;
    }

    method Remove(key: K)
      modifies this
      ensures m == old(m) - {key}
    {
      m := m - {key};
    }

    /** Stores `newVals` under the key. The returned set is what `removeAndReturnInterset` returns:
        the values that the entry had before and keeps. They are taken out of `newVals`. */
    method Update(key: K, newVals: set<V>) returns (returned: set<V>, left: set<V>)
      modifies this
      ensures m == if newVals == {} then old(m) - {key} else old(m)[key := newVals]
      ensures returned == ValSet(old(m), key) * newVals && left == newVals - returned
    {
      if newVals == {} {
        m := m - {key};
        return {}, {};
      }
      var curVals := ValSet(m, key);
      m := m[key := newVals];
      returned, left := RemoveAndReturnInterset(curVals, newVals);
    }

    static method RemoveAndReturnInterset(s1: set<V>, s2: set<V>) returns (common: set<V>, rest: set<V>)
      ensures common == s1 * s2 && rest == s2 - s1
    {
      common, rest := {}, s2;
      var todo, cur := s2, s1;
      while todo != {}
        invariant todo <= s2 && cur == s1 - common
        invariant common == s1 * (s2 - todo) && rest == s2 - common
        decreases todo
      {
        var b :| b in todo;
        if b in cur {
          common := common + {b};
          cur := cur - {b};
          rest := rest - {b};
        }
        todo := todo - {b};
      }
      assert s2 - todo == s2;
    }
  }
}
