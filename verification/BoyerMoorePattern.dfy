/**
 The two skip tables of recovery/recovery_updater.cpp as functions of the pattern,
 and the facts about the pattern that decide whether a table entry is safe.

 A pattern is a sequence of bytes. `Realigns`, `Border` and `Compatible` speak of the
 pattern alone; `Shift` is the window shift that the filled `delta2` table asks for.
 */
module BoyerMoorePattern {

  type byte = x: int | 0 <= x < 256

  const ALPHABET_LEN := 256

  /** Moved `s` to the right, the pattern agrees with its own suffix after `j`
      and shows another character under `j`. */
  ghost predicate Realigns(pat: seq<byte>, j: nat, s: nat)
    requires 1 <= s <= j < |pat|
  {
    && pat[j - s] != pat[j]
    && forall k :: j < k < |pat| ==> pat[k - s] == pat[k]
  }

  /** The suffix starting at `q` is also a prefix. */
  ghost predicate Border(pat: seq<byte>, q: nat)
    requires q <= |pat|
  {
    forall k :: q <= k < |pat| ==> pat[k - q] == pat[k]
  }

  ghost predicate BorderFree(pat: seq<byte>) {
    forall q :: 1 <= q < |pat| ==> !Border(pat, q)
  }

  ghost predicate AllEqual(pat: seq<byte>) {
    forall k :: 0 <= k < |pat| ==> pat[k] == pat[0]
  }

  ghost predicate NulFree(pat: seq<byte>) {
    forall k :: 0 <= k < |pat| ==> pat[k] != 0
  }

  /** A text that mismatched at `j` after matching everything to the right of `j`
      may still contain the pattern `s` places further on. */
  ghost predicate Compatible(pat: seq<byte>, j: nat, s: nat)
    requires j < |pat| && 1 <= s <= |pat|
  {
    if s <= j then Realigns(pat, j, s) else Border(pat, s)
  }

  /** `strncmp(pat + p, pat, |pat| - p) == 0`, from offset `k` on: a NUL common to both ends it. */
  predicate StrnEqual(pat: seq<byte>, p: nat, k: nat)
    decreases |pat| - k
  {
    if p + k >= |pat| then true
    else pat[p + k] == pat[k] && (pat[k] == 0 || StrnEqual(pat, p, k + 1))
  }

  lemma {:induction false} BorderIsStrnEqual(pat: seq<byte>, p: nat, k: nat)
    requires p <= |pat| && Border(pat, p)
    ensures StrnEqual(pat, p, k)
    decreases |pat| - k
  {
    if p + k < |pat| {
      assert pat[(p + k) - p] == pat[p + k];
      BorderIsStrnEqual(pat, p, k + 1);
    }
  }

  lemma {:induction false} StrnEqualIsBorder(pat: seq<byte>, p: nat, k: nat)
    requires p <= |pat| && NulFree(pat) && StrnEqual(pat, p, k)
    ensures forall i :: p + k <= i < |pat| ==> pat[i - p] == pat[i]
    decreases |pat| - k
  {
    if p + k < |pat| {
      StrnEqualIsBorder(pat, p, k + 1);
    }
  }

  /** The value of `last_prefix` when the first loop of `bm_make_delta2` fills entry `p`. */
  function LastPrefix(pat: seq<byte>, p: nat): (r: nat)
    requires p <= |pat| && 1 <= |pat|
    ensures r <= |pat|
    ensures p == 0 || |pat| >= 2 ==> r >= 1
    decreases |pat| - p
  {
    assert p == 0 ==> StrnEqual(pat, p, 0) by {
      if p == 0 { BorderIsStrnEqual(pat, p, 0); }
    }
    if p == |pat| then |pat| - 1
    else if StrnEqual(pat, p, 0) then p + 1
    else LastPrefix(pat, p + 1)
  }

  /** What the first loop leaves in `last_prefix`: one more than the nearest self-overlap
      at or after `p`, or the length minus one when there is none. */
  lemma {:induction false} LastPrefixMeaning(pat: seq<byte>, p: nat)
    requires p <= |pat| && 1 <= |pat|
    ensures var r := LastPrefix(pat, p);
            || (r == |pat| - 1 && forall q :: p <= q < |pat| ==> !StrnEqual(pat, q, 0))
            || (p < r && StrnEqual(pat, r - 1, 0) && forall q :: p <= q < r - 1 ==> !StrnEqual(pat, q, 0))
    decreases |pat| - p
  {
    if p < |pat| && !StrnEqual(pat, p, 0) {
      LastPrefixMeaning(pat, p + 1);
    }
  }

  /** The least shift `t` in `s..j` that realigns the suffix after `j`, or `j + 1`. */
  ghost function FirstRealign(pat: seq<byte>, j: nat, s: nat): (r: nat)
    requires j < |pat| && 1 <= s
    ensures r <= j ==> s <= r && Realigns(pat, j, r)
    ensures r <= j + 1
    ensures forall t :: s <= t < r ==> !Realigns(pat, j, t)
    decreases j + 1 - s
  {
    if s > j then j + 1
    else if Realigns(pat, j, s) then s
    else FirstRealign(pat, j, s + 1)
  }

  /** The entry of `delta2` for `j` once the second loop has tried every shift from `lo` up. */
  ghost function Entry(pat: seq<byte>, j: nat, lo: nat): (r: nat)
    requires j < |pat| && 1 <= lo
  {
    var s := FirstRealign(pat, j, lo);
    (|pat| - 1 - j) + if s <= j then s else LastPrefix(pat, j)
  }

  ghost function Delta2(pat: seq<byte>, j: nat): (r: nat)
    requires j < |pat|
    ensures |pat| - j <= r <= |pat| - 1 - j + |pat|
  {
    Entry(pat, j, 1)
  }

  /** By how much `delta2` moves the window after a mismatch at `j`. */
  ghost function Shift(pat: seq<byte>, j: nat): (s: nat)
    requires j < |pat|
    ensures 1 <= s <= |pat|
  {
    Delta2(pat, j) - (|pat| - 1 - j)
  }

  /** Entry for entry: the least realigning shift in `1..j`, and the prefix value
      exactly when there is none. */
  lemma Delta2Meaning(pat: seq<byte>, j: nat)
    requires j < |pat|
    ensures var s := Shift(pat, j);
            if exists t :: 1 <= t <= j && Realigns(pat, j, t)
            then s <= j && Realigns(pat, j, s) && forall t :: 1 <= t < s ==> !Realigns(pat, j, t)
            else s == LastPrefix(pat, j)
  {
    var r := FirstRealign(pat, j, 1);
    if r <= j {
      assert Realigns(pat, j, r);
    }
  }

  /** The least distance `t >= d` from the last character back to an occurrence of `c`, or the length. */
  function DistanceFrom(pat: seq<byte>, c: byte, d: nat): (r: nat)
    requires 1 <= d <= |pat|
    ensures d <= r <= |pat|
    ensures r < |pat| ==> pat[|pat| - 1 - r] == c
    ensures forall k :: |pat| - 1 - r < k <= |pat| - 1 - d ==> pat[k] != c
    decreases |pat| - d
  {
    if d == |pat| || pat[|pat| - 1 - d] == c then d else DistanceFrom(pat, c, d + 1)
  }

  function Delta1(pat: seq<byte>, c: byte): (r: nat)
    requires 1 <= |pat|
  {
    DistanceFrom(pat, c, 1)
  }

  /** No entry of the table shifts past a position where the pattern could still be. */
  ghost predicate SafeTable(pat: seq<byte>) {
    forall j, s :: 0 <= j < |pat| && 1 <= s < Shift(pat, j) ==> !Compatible(pat, j, s)
  }

  lemma BorderFreeIsSafe(pat: seq<byte>)
    requires NulFree(pat) && BorderFree(pat)
    ensures SafeTable(pat)
  {
    forall j, s | 0 <= j < |pat| && 1 <= s < Shift(pat, j)
      ensures !Compatible(pat, j, s)
    {
      LastPrefixMeaning(pat, j);
      if StrnEqual(pat, LastPrefix(pat, j) - 1, 0) {
        StrnEqualIsBorder(pat, LastPrefix(pat, j) - 1, 0);
      }
    }
  }

  lemma AllEqualIsSafe(pat: seq<byte>)
    requires AllEqual(pat)
    ensures SafeTable(pat)
  {
    forall j, s | 0 <= j < |pat| && 1 <= s < Shift(pat, j)
      ensures !Compatible(pat, j, s)
    {
      assert Border(pat, j);
      BorderIsStrnEqual(pat, j, 0);
    }
  }

  lemma {:induction false} LeastBorder(pat: seq<byte>, q: nat) returns (b: nat)
    requires 1 <= q < |pat| && Border(pat, q)
    ensures 1 <= b <= q && Border(pat, b)
    ensures forall t :: 1 <= t < b ==> !Border(pat, t)
  {
    if t :| 1 <= t < q && Border(pat, t) {
      b := LeastBorder(pat, t);
    } else {
      b := q;
    }
  }

  lemma {:induction false} BorderOneIsAllEqual(pat: seq<byte>, n: nat)
    requires 1 < |pat| && Border(pat, 1) && n <= |pat|
    ensures forall k :: 0 <= k < n ==> pat[k] == pat[0]
  {
    if n > 1 {
      BorderOneIsAllEqual(pat, n - 1);
      assert pat[(n - 1) - 1] == pat[n - 1];
    }
  }

  /** A proper border of a pattern with two different characters makes entry 1 unsafe:
      the prefix test is made at `p` where it should be made at `p + 1`. */
  lemma BorderedIsUnsafe(pat: seq<byte>, q: nat) returns (b: nat)
    requires NulFree(pat) && !AllEqual(pat)
    requires 1 <= q < |pat| && Border(pat, q)
    ensures 2 <= b < Shift(pat, 1) && b < |pat| && Compatible(pat, 1, b)
  {
    b := LeastBorder(pat, q);
    if b == 1 {
      BorderOneIsAllEqual(pat, |pat|);
      assert false;
    }
    assert pat[b - b] == pat[b];
    if Realigns(pat, 1, 1) {
      SameTail(pat, b);
      assert false;
    }
    LastPrefixMeaning(pat, 1);
    BorderIsStrnEqual(pat, b, 0);
    var r := LastPrefix(pat, 1);
    assert exists t :: 1 <= t < |pat| && StrnEqual(pat, t, 0);
    StrnEqualIsBorder(pat, r - 1, 0);
    assert Border(pat, r - 1);
  }

  lemma {:induction false} SameTail(pat: seq<byte>, k: nat)
    requires 1 <= k < |pat| && forall i :: 1 < i < |pat| ==> pat[i - 1] == pat[i]
    ensures pat[k] == pat[1]
  {
    if k > 1 {
      SameTail(pat, k - 1);
    }
  }

  /** For patterns without NUL, exactly the border-free and the one-letter patterns get a safe table. */
  lemma SafeTableIff(pat: seq<byte>)
    requires NulFree(pat)
    ensures SafeTable(pat) <==> BorderFree(pat) || AllEqual(pat)
  {
    if BorderFree(pat) {
      BorderFreeIsSafe(pat);
    } else if AllEqual(pat) {
      AllEqualIsSafe(pat);
    } else {
      var q :| 1 <= q < |pat| && Border(pat, q);
      var b := BorderedIsUnsafe(pat, q);
    }
  }
}
