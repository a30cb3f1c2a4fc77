/**
 Duplicate-free sequences that are kept without holes: the last element fills the place of
 one that is taken out.
 */
module CompactSeq {

  ghost predicate Distinct<T>(s: seq<T>) {
    forall i, j :: 0 <= i < j < |s| ==> s[i] != s[j]
  }

  function IndexOf<T(==)>(s: seq<T>, a: T): (i: nat)
    ensures i <= |s| && (i < |s| ==> s[i] == a)
    ensures i < |s| <==> a in s
    ensures forall k :: 0 <= k < i ==> s[k] != a
  {
    if s == [] || s[0] == a then 0 else 1 + IndexOf(s[1..], a)
  }

  /** The last entry takes the place of the one at `i`. */
  function SwapOut<T>(s: seq<T>, i: nat): seq<T>
    requires i < |s|
  {
    s[i := s[|s| - 1]][..|s| - 1]
  }

  ghost function Elements<T>(s: seq<T>): set<T> {
    set a | a in s
  }

  lemma {:induction false} DistinctSize<T>(s: seq<T>)
    requires Distinct(s)
    ensures |Elements(s)| == |s|
  {
    if s != [] {
      var n := |s| - 1;
      DistinctSize(s[..n]);
      assert Elements(s) == Elements(s[..n]) + {s[n]};
      assert s[n] !in s[..n];
    }
  }

  lemma SwapOutElements<T>(s: seq<T>, i: nat)
    requires Distinct(s) && i < |s|
    ensures Distinct(SwapOut(s, i)) && Elements(SwapOut(s, i)) == Elements(s) - {s[i]}
  {
    var r, n := SwapOut(s, i), |s| - 1;
    assert forall k :: 0 <= k < n ==> r[k] == if k == i then s[n] else s[k];
    forall a | a in s && a != s[i] ensures a in r {
      var k :| 0 <= k < |s| && s[k] == a;
      assert r[if k == n then i else k] == a;
    }
  }
}
