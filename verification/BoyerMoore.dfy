/**
 The string search of recovery/recovery_updater.cpp: two loops fill the skip tables in
 place, a third moves a window over the text by the larger of the two skips.

 `Scan` is the search as a function of text and pattern. `BmSearch` computes it with the
 source's 32-bit signed variables, and the theorems compare it with `NaiveSearch`.
 */
module BoyerMoore {
  import opened BoyerMoorePattern
  import opened Wrappers

  newtype int32 = x: int | -0x8000_0000 <= x <= 0x7FFF_FFFF

  const INT_MAX := 0x7FFF_FFFF

  // ---------------------------------------------------------------------------
  // The specification: occurrences, and a scan that tries every position
  // ---------------------------------------------------------------------------

  predicate Occurs(text: seq<byte>, pat: seq<byte>, at: nat) {
    at + |pat| <= |text| && forall k :: 0 <= k < |pat| ==> text[at + k] == pat[k]
  }

  function NaiveSearch(text: seq<byte>, pat: seq<byte>, from: nat): (r: Option<nat>)
    ensures r.Some? ==> from <= r.value && Occurs(text, pat, r.value)
    ensures r.Some? ==> forall t :: from <= t < r.value ==> !Occurs(text, pat, t)
    ensures r.None? ==> forall t :: from <= t ==> !Occurs(text, pat, t)
    decreases |text| - from
  {
    if from + |pat| > |text| then None
    else if Occurs(text, pat, from) then Some(from)
    else NaiveSearch(text, pat, from + 1)
  }

  // ---------------------------------------------------------------------------
  // The search as a function
  // ---------------------------------------------------------------------------

  function Max(a: int, b: int): int {
    if a > b then a else b
  }

  /** Where comparing leftwards from `j` stops: the first mismatch, or -1 for a full match. */
  function Mismatch(text: seq<byte>, pat: seq<byte>, at: nat, j: int): (r: int)
    requires -1 <= j < |pat| && at + |pat| <= |text|
    ensures -1 <= r <= j
    ensures r >= 0 ==> text[at + r] != pat[r]
    ensures forall k :: r < k <= j ==> text[at + k] == pat[k]
    decreases j + 1
  {
    if j >= 0 && text[at + j] == pat[j] then Mismatch(text, pat, at, j - 1) else j
  }

  /** The window start after a mismatch at `j`. */
  ghost function Advance(text: seq<byte>, pat: seq<byte>, at: nat, j: nat): (next: nat)
    requires j < |pat| && at + |pat| <= |text|
    ensures at < next <= at + |pat|
  {
    at + j - (|pat| - 1) + Max(Delta1(pat, text[at + j]), Delta2(pat, j))
  }

  /** `bm_search` from the window starting at `at`. */
  ghost function Scan(text: seq<byte>, pat: seq<byte>, at: nat): (r: Option<nat>)
    requires 1 <= |pat|
    decreases |text| - at
  {
    if at + |pat| > |text| then None
    else
      var j := Mismatch(text, pat, at, |pat| - 1);
      if j < 0 then Some(at) else Scan(text, pat, Advance(text, pat, at, j))
  }

  // ---------------------------------------------------------------------------
  // Theorems
  // ---------------------------------------------------------------------------

  /** The window at `at` agrees with the pattern after `j` and differs at `j`. */
  ghost predicate MismatchesAt(text: seq<byte>, pat: seq<byte>, at: nat, j: nat) {
    && j < |pat| && at + |pat| <= |text|
    && text[at + j] != pat[j]
    && forall k :: j < k < |pat| ==> text[at + k] == pat[k]
  }

  /** Good suffix: an incompatible shift holds no occurrence. */
  lemma IncompatibleShift(text: seq<byte>, pat: seq<byte>, at: nat, j: nat, s: nat)
    requires MismatchesAt(text, pat, at, j) && 1 <= s <= |pat| && !Compatible(pat, j, s)
    ensures !Occurs(text, pat, at + s)
  {
    var t := at + s;
    if s <= j && pat[j - s] == pat[j] {
      assert text[t + (j - s)] != pat[j - s];
    } else {
      var k :| j < k < |pat| && s <= k && pat[k - s] != pat[k];
      assert text[at + k] == pat[k];
      assert t + |pat| <= |text| ==> text[t + (k - s)] != pat[k - s];
    }
  }

  /** Bad character: a shift below the distance to the mismatched text character holds no occurrence. */
  lemma BadCharacterShift(text: seq<byte>, pat: seq<byte>, at: nat, j: nat, s: nat)
    requires MismatchesAt(text, pat, at, j) && 1 <= s < Delta1(pat, text[at + j]) - (|pat| - 1 - j)
    ensures !Occurs(text, pat, at + s)
  {
    assert text[(at + s) + (j - s)] != pat[j - s];
  }

  /** A jump passes over no occurrence, whatever the text, when the table is safe. */
  lemma JumpSkipsNoMatch(text: seq<byte>, pat: seq<byte>, at: nat, j: nat, t: nat)
    requires MismatchesAt(text, pat, at, j) && SafeTable(pat)
    requires at <= t < Advance(text, pat, at, j)
    ensures !Occurs(text, pat, t)
  {
    var s := t - at;
    if s == 0 {
      assert text[t + j] != pat[j];
    } else if s < Shift(pat, j) {
      assert !Compatible(pat, j, s);
      IncompatibleShift(text, pat, at, j, s);
    } else {
      BadCharacterShift(text, pat, at, j, s);
    }
  }

  lemma {:induction false} NaiveSkip(text: seq<byte>, pat: seq<byte>, from: nat, upTo: nat)
    requires from <= upTo
    requires forall t :: from <= t < upTo ==> !Occurs(text, pat, t)
    ensures NaiveSearch(text, pat, from) == NaiveSearch(text, pat, upTo)
    decreases upTo - from
  {
    if from < upTo {
      NaiveSkip(text, pat, from + 1, upTo);
    }
  }

  lemma {:induction false} SafeScanIsNaive(text: seq<byte>, pat: seq<byte>, at: nat)
    requires 1 <= |pat| && SafeTable(pat)
    ensures Scan(text, pat, at) == NaiveSearch(text, pat, at)
    decreases |text| - at
  {
    if at + |pat| <= |text| {
      var j := Mismatch(text, pat, at, |pat| - 1);
      if j < 0 {
        assert Occurs(text, pat, at);
      } else {
        var next := Advance(text, pat, at, j);
        forall t | at <= t < next ensures !Occurs(text, pat, t) {
          JumpSkipsNoMatch(text, pat, at, j, t);
        }
        NaiveSkip(text, pat, at, next);
        SafeScanIsNaive(text, pat, next);
      }
    }
  }

  /** Soundness for every non-empty pattern: a reported position is an occurrence. */
  lemma {:induction false} ScanIsSound(text: seq<byte>, pat: seq<byte>, at: nat)
    requires 1 <= |pat|
    ensures var r := Scan(text, pat, at); r.Some? ==> at <= r.value && Occurs(text, pat, r.value)
    decreases |text| - at
  {
    if at + |pat| <= |text| {
      var j := Mismatch(text, pat, at, |pat| - 1);
      if j >= 0 {
        ScanIsSound(text, pat, Advance(text, pat, at, j));
      }
    }
  }

  lemma ScanGuarantees(text: seq<byte>, pat: seq<byte>)
    requires 1 <= |pat|
    ensures var r := Scan(text, pat, 0); r.Some? ==> Occurs(text, pat, r.value)
    ensures NulFree(pat) && (BorderFree(pat) || AllEqual(pat)) ==> Scan(text, pat, 0) == NaiveSearch(text, pat, 0)
  {
    ScanIsSound(text, pat, 0);
    if NulFree(pat) && (BorderFree(pat) || AllEqual(pat)) {
      SafeTableIff(pat);
      SafeScanIsNaive(text, pat, 0);
    }
  }

  function OtherThan(b: byte): (r: byte)
    ensures r != b
  {
    if b == 0 then 1 else 0
  }

  /** The text that an unsafe entry fails on: it mismatches first at `j`, and the pattern
      stands `s` further on, where its end is the end of the text. */
  function MissedText(pat: seq<byte>, j: nat, s: nat): (text: seq<byte>)
    requires j < |pat| && 1 <= s <= |pat|
    ensures |text| == s + |pat|
    ensures forall k :: 0 <= k < s ==> text[k] == if k == j then OtherThan(pat[j]) else pat[k]
    ensures forall k :: s <= k < s + |pat| ==> text[k] == pat[k - s]
  {
    seq(s, k requires 0 <= k < s => if k == j then OtherThan(pat[j]) else pat[k]) + pat
  }

  lemma MissedTextMismatch(pat: seq<byte>, j: nat, s: nat)
    requires j < |pat| && 1 <= s <= |pat| && Compatible(pat, j, s)
    ensures Mismatch(MissedText(pat, j, s), pat, 0, |pat| - 1) == j
  {
    var text := MissedText(pat, j, s);
    var r := Mismatch(text, pat, 0, |pat| - 1);
    assert forall k :: j < k < |pat| ==> text[0 + k] == pat[k];
    assert text[0 + j] != pat[j];
  }

  /** Every compatible shift below a table entry is an occurrence that the search misses. */
  lemma UnsafeEntryMisses(pat: seq<byte>, j: nat, s: nat)
    requires j < |pat| && 1 <= s < Shift(pat, j) && Compatible(pat, j, s)
    ensures Occurs(MissedText(pat, j, s), pat, s)
    ensures Scan(MissedText(pat, j, s), pat, 0) == None
  {
    var text := MissedText(pat, j, s);
    MissedTextMismatch(pat, j, s);
    var next := Advance(text, pat, 0, j);
    assert next >= Shift(pat, j);
    assert next + |pat| > |text|;
    assert Scan(text, pat, next) == None;
  }

  /** When the search finds what a naive scan finds on every text: exactly when no table
      entry shifts past a compatible position. Holds of patterns with NULs, too. */
  lemma CompleteIffSafeTable(pat: seq<byte>)
    requires 1 <= |pat|
    ensures (forall text :: Scan(text, pat, 0) == NaiveSearch(text, pat, 0)) <==> SafeTable(pat)
  {
    if SafeTable(pat) {
      forall text ensures Scan(text, pat, 0) == NaiveSearch(text, pat, 0) {
        SafeScanIsNaive(text, pat, 0);
      }
    } else {
      var j: nat, s: nat :| j < |pat| && 1 <= s < Shift(pat, j) && Compatible(pat, j, s);
      UnsafeEntryMisses(pat, j, s);
    }
  }

  /** The condition a caller can check: a NUL-free pattern is always found at its first
      occurrence iff it has no proper border or consists of one letter. */
  lemma CompleteIffBorderFree(pat: seq<byte>)
    requires 1 <= |pat| && NulFree(pat)
    ensures (forall text :: Scan(text, pat, 0) == NaiveSearch(text, pat, 0)) <==> BorderFree(pat) || AllEqual(pat)
  {
    CompleteIffSafeTable(pat);
    SafeTableIff(pat);
  }

  /** "aba" stands at offset 2 of "acaba" and is not found. */
  lemma BorderedPatternIsMissed()
    ensures var pat, text := [97, 98, 97], [97, 99, 97, 98, 97];
            Occurs(text, pat, 2) && Scan(text, pat, 0) == None
  {
    var pat, text := [97, 98, 97], [97, 99, 97, 98, 97];
    assert Shift(pat, 1) == 3 by {
      assert !Realigns(pat, 1, 1) by { assert pat[2 - 1] != pat[2]; }
      Delta2Meaning(pat, 1);
      assert !StrnEqual(pat, 1, 0);
      assert StrnEqual(pat, 2, 0);
      assert LastPrefix(pat, 1) == LastPrefix(pat, 2) == 3;
    }
    assert text[0 + 1] != pat[1] && text[0 + 2] == pat[2];
    assert Mismatch(text, pat, 0, 2) == 1;
    var next := Advance(text, pat, 0, 1);
    assert next >= 3;
    ScanStep(text, pat, 0, 1);
    assert Scan(text, pat, next) == None;
  }

  /** "QC_IMAGE_VERSION_STRING=" */
  const TZ_VER_STR: seq<byte> :=
    [81, 67, 95, 73, 77, 65, 71, 69, 95, 86, 69, 82, 83, 73, 79, 78, 95, 83, 84, 82, 73, 78, 71, 61]

  /** The shipped pattern is searched for completely. */
  lemma ShippedPatternIsComplete(text: seq<byte>)
    ensures Scan(text, TZ_VER_STR, 0) == NaiveSearch(text, TZ_VER_STR, 0)
  {
    var pat := TZ_VER_STR;
    assert NulFree(pat);
    forall q | 1 <= q < |pat| ensures !Border(pat, q) {
      assert pat[q] != 81;
      assert pat[q - q] != pat[q];
    }
    BorderFreeIsSafe(pat);
    SafeScanIsNaive(text, pat, 0);
  }

  // ---------------------------------------------------------------------------
  // The loops of the source
  // ---------------------------------------------------------------------------

  ghost predicate IsDelta1(table: seq<int32>, pat: seq<byte>)
    requires 1 <= |pat|
  {
    |table| == ALPHABET_LEN && forall c :: 0 <= c < ALPHABET_LEN ==> table[c] as int == Delta1(pat, c)
  }

  ghost predicate IsDelta2(table: seq<int32>, pat: seq<byte>) {
    |table| == |pat| && forall j :: 0 <= j < |pat| ==> table[j] as int == Delta2(pat, j)
  }

  method MaxSuffixLen(pat: seq<byte>, p: nat) returns (i: nat)
    requires p < |pat|
    ensures i <= p
    ensures forall k :: |pat| - 1 - i < k < |pat| ==> pat[k - (|pat| - 1 - p)] == pat[k]
    ensures i < p ==> pat[p - i] != pat[|pat| - 1 - i]
  {
    i := 0;
    while pat[p - i] == pat[|pat| - 1 - i] && i < p
      invariant i <= p
      invariant forall k :: |pat| - 1 - i < k < |pat| ==> pat[k - (|pat| - 1 - p)] == pat[k]
    {
      i := i + 1;
    }
  }

  method MakeDelta1(delta1: array<int32>, pat: seq<byte>)
    requires delta1.Length == ALPHABET_LEN && 1 <= |pat| && 2 * |pat| <= INT_MAX
    modifies delta1
    ensures IsDelta1(delta1[..], pat)
  {
    for i := 0 to ALPHABET_LEN
      invariant forall c :: 0 <= c < i ==> delta1[c] as int == |pat|
    {
      delta1[i] := |pat| as int32;
    }
    for i := 0 to |pat| - 1
      invariant forall c :: 0 <= c < ALPHABET_LEN ==> delta1[c] as int == DistanceFrom(pat, c, |pat| - i)
    {
      delta1[pat[i]] := (|pat| - 1 - i) as int32;
    }
  }

  /** One write of the second loop, as seen by every entry. */
  lemma RealignStep(pat: seq<byte>, p: nat, i: nat, j: nat)
    requires p < |pat| - 1 && i <= p && j < |pat|
    requires forall k :: |pat| - 1 - i < k < |pat| ==> pat[k - (|pat| - 1 - p)] == pat[k]
    requires i < p ==> pat[p - i] != pat[|pat| - 1 - i]
    ensures var s, j0 := |pat| - 1 - p, |pat| - 1 - i;
            Entry(pat, j, s) == if j == j0 && pat[p - i] != pat[j0] then s + i else Entry(pat, j, s + 1)
  {
    var s, j0 := |pat| - 1 - p, |pat| - 1 - i;
    if s <= j < j0 {
      assert pat[j0 - s] != pat[j0];
      assert !Realigns(pat, j, s);
    } else if s <= j0 < j {
      assert pat[j - s] == pat[j];
      assert !Realigns(pat, j, s);
    }
  }

  /** The first loop of `bm_make_delta2`: the prefix entries. */
  method FillPrefixEntries(delta2: array<int32>, pat: seq<byte>)
    requires delta2.Length == |pat| && 1 <= |pat| && 2 * |pat| <= INT_MAX
    modifies delta2
    ensures forall j :: 0 <= j < |pat| ==> delta2[j] as int == Entry(pat, j, |pat|)
  {
    var m: int32 := |pat| as int32;
    var lastPrefix: int32 := m - 1;
    var p: int32 := m - 1;
    while p >= 0
      invariant -1 <= p < m
      invariant lastPrefix as int == LastPrefix(pat, p as int + 1)
      invariant forall j :: p as int < j < |pat| ==> delta2[j] as int == Entry(pat, j, |pat|)
    {
      if StrnEqual(pat, p as int, 0) {
        lastPrefix := p + 1;
      }
      delta2[p] := lastPrefix + (m - 1 - p);
      p := p - 1;
    }
  }

  ghost predicate TriedFrom(table: seq<int32>, pat: seq<byte>, lo: nat)
    requires 1 <= lo
  {
    |table| == |pat| && forall j :: 0 <= j < |pat| ==> table[j] as int == Entry(pat, j, lo)
  }

  /** One round of the second loop: the suffix that ends at `p`. */
  method TrySuffix(delta2: array<int32>, pat: seq<byte>, p: int32)
    requires 0 <= p as int < |pat| - 1 && 2 * |pat| <= INT_MAX
    requires TriedFrom(delta2[..], pat, |pat| - p as int)
    modifies delta2
    ensures TriedFrom(delta2[..], pat, |pat| - 1 - p as int)
  {
    var m: int32 := |pat| as int32;
    var i := MaxSuffixLen(pat, p as int);
    var sufLen: int32 := i as int32;
    if pat[p - sufLen] != pat[m - 1 - sufLen] {
      delta2[m - 1 - sufLen] := m - 1 - p + sufLen;
    }
    forall j | 0 <= j < |pat| ensures delta2[j] as int == Entry(pat, j, |pat| - 1 - p as int) {
      RealignStep(pat, p as int, i, j);
      assert old(delta2[..])[j] as int == Entry(pat, j, |pat| - p as int);
    }
  }

  /** The second loop: entries for suffixes that occur again, larger shifts first. */
  method MakeDelta2(delta2: array<int32>, pat: seq<byte>)
    requires delta2.Length == |pat| && 1 <= |pat| && 2 * |pat| <= INT_MAX
    modifies delta2
    ensures IsDelta2(delta2[..], pat)
  {
    FillPrefixEntries(delta2, pat);
    var m: int32 := |pat| as int32;
    var p: int32 := 0;
    while p < m - 1
      invariant 0 <= p < m
      invariant TriedFrom(delta2[..], pat, |pat| - p as int)
    {
      TrySuffix(delta2, pat, p);
      p := p + 1;
    }
  }

  /** The inner loop: compares the window that ends at `end` from right to left. */
  method CompareWindow(text: seq<byte>, pat: seq<byte>, end: int32) returns (i: int32, j: int32)
    requires 1 <= |pat| <= INT_MAX && |pat| - 1 <= end as int < |text|
    ensures j as int == Mismatch(text, pat, end as int - |pat| + 1, |pat| - 1)
    ensures i as int == end as int - (|pat| - 1) + j as int
  {
    i, j := end, (|pat| - 1) as int32;
    ghost var at := end as int - |pat| + 1;
    while j >= 0 && text[i] == pat[j]
      invariant -1 <= j as int < |pat| && i as int == at + j as int
      invariant Mismatch(text, pat, at, |pat| - 1) == Mismatch(text, pat, at, j as int)
      decreases j
    {
      i := i - 1;
      j := j - 1;
    }
  }

  /** `i += MAX(delta1[...], delta2[j])`, seen as the end of the next window. */
  method NextWindowEnd(delta1: array<int32>, delta2: array<int32>, text: seq<byte>, pat: seq<byte>, i: int32, j: int32,
                       ghost at: nat)
    returns (end: int32)
    requires 0 <= j as int < |pat| && at + |pat| <= |text| && i as int == at + j as int && |text| + |pat| <= INT_MAX
    requires IsDelta1(delta1[..], pat) && IsDelta2(delta2[..], pat)
    ensures end as int == Advance(text, pat, at, j as int) + |pat| - 1
  {
    var d1, d2 := delta1[text[i]], delta2[j];
    assert delta1[..][text[i]] == d1 && delta2[..][j] == d2;
    end := i + if d1 > d2 then d1 else d2;
  }

  lemma ScanStep(text: seq<byte>, pat: seq<byte>, at: nat, j: int)
    requires 1 <= |pat| && at + |pat| <= |text| && j == Mismatch(text, pat, at, |pat| - 1)
    ensures j < 0 ==> Scan(text, pat, at) == Some(at)
    ensures j >= 0 ==> Scan(text, pat, at) == Scan(text, pat, Advance(text, pat, at, j))
  {
  }

  /** The search loop over filled tables. */
  method SearchLoop(delta1: array<int32>, delta2: array<int32>, text: seq<byte>, pat: seq<byte>)
    returns (r: Option<nat>)
    requires 1 <= |pat| && |text| + |pat| <= INT_MAX
    requires IsDelta1(delta1[..], pat) && IsDelta2(delta2[..], pat)
    ensures r == Scan(text, pat, 0)
  {
    var i: int32 := (|pat| - 1) as int32;
    ghost var at: nat := 0;
    while i < |text| as int32
      invariant i as int == at + |pat| - 1 && at <= |text|
      invariant Scan(text, pat, 0) == Scan(text, pat, at)
      decreases |text| - at
    {
      var j: int32;
      i, j := CompareWindow(text, pat, i);
      ScanStep(text, pat, at, j as int);
      if j < 0 {
        return Some(i as int + 1);
      }
      i := NextWindowEnd(delta1, delta2, text, pat, i, j, at);
      at := Advance(text, pat, at, j as int);
    }
    return None;
  }

  /** The search with the source's `int` variables; every intermediate value fits in 32 bits. */
  method BmSearch(text: seq<byte>, pat: seq<byte>) returns (r: Option<nat>)
    requires 1 <= |pat| && |text| + 2 * |pat| <= INT_MAX
    ensures r == Scan(text, pat, 0)
    ensures r.Some? ==> Occurs(text, pat, r.value)
    ensures NulFree(pat) && (BorderFree(pat) || AllEqual(pat)) ==> r == NaiveSearch(text, pat, 0)
  {
    var delta1 := new int32[ALPHABET_LEN];
    var delta2 := new int32[|pat|];
    MakeDelta1(delta1, pat);
    MakeDelta2(delta2, pat);
    r := SearchLoop(delta1, delta2, text, pat);
    ScanGuarantees(text, pat);
  }
}
