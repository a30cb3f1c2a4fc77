/**
 64-bit unsigned words as numbers below 2^64. `Bit` reads a word one right shift at a time.
 */
module Words {

  const ALL_BITS := 0xFFFF_FFFF_FFFF_FFFF

  type uint64 = x: int | 0 <= x <= ALL_BITS

  function Bit(m: nat, k: nat): bool {
    if k == 0 then m % 2 == 1 else Bit(m / 2, k - 1)
  }

  /** `m | (1 << k)` */
  function SetBit(m: nat, k: nat): nat {
    if k == 0 then m / 2 * 2 + 1 else SetBit(m / 2, k - 1) * 2 + m % 2
  }

  function Pow2(w: nat): (r: nat)
    ensures r >= 1
  {
    if w == 0 then 1 else 2 * Pow2(w - 1)
  }

  lemma Pow2Values()
    ensures Pow2(64) == ALL_BITS + 1
  {
    assert Pow2(8) == 256;
    assert Pow2(16) == 0x1_0000;
    assert Pow2(24) == 0x100_0000;
    assert Pow2(32) == 0x1_0000_0000;
    assert Pow2(40) == 0x100_0000_0000;
    assert Pow2(48) == 0x1_0000_0000_0000;
    assert Pow2(56) == 0x100_0000_0000_0000;
  }

  lemma {:induction false} SetBitFits(m: nat, k: nat, w: nat)
    requires m < Pow2(w) && k < w
    ensures SetBit(m, k) < Pow2(w)
  {
    var half := Pow2(w - 1);
    assert Pow2(w) == 2 * half && m / 2 < half;
    if k > 0 {
      SetBitFits(m / 2, k - 1, w - 1);
    }
  }

  lemma {:induction false} SetBitBits(m: nat, k: nat, j: nat)
    ensures Bit(SetBit(m, k), j) <==> Bit(m, j) || j == k
  {
    if k > 0 && j > 0 {
      SetBitBits(m / 2, k - 1, j - 1);
    } else if j > 0 {
      assert SetBit(m, k) / 2 == m / 2;
    }
  }

  lemma {:induction false} HighBitsClear(m: nat, w: nat, k: nat)
    requires m < Pow2(w) && w <= k
    ensures !Bit(m, k)
    decreases k
  {
    if w > 0 {
      HighBitsClear(m / 2, w - 1, k - 1);
    } else {
      if k > 0 { HighBitsClear(m / 2, 0, k - 1); }
    }
  }

  /** Masks with the same bits are the same mask. */
  lemma {:induction false} SameBits(m: nat, n: nat, w: nat)
    requires m < Pow2(w) && n < Pow2(w)
    requires forall k :: 0 <= k < w ==> Bit(m, k) == Bit(n, k)
    ensures m == n
  {
    if w > 0 {
      assert Bit(m, 0) == Bit(n, 0);
      forall k | 0 <= k < w - 1 ensures Bit(m / 2, k) == Bit(n / 2, k) {
        assert Bit(m, k + 1) == Bit(n, k + 1);
      }
      SameBits(m / 2, n / 2, w - 1);
    }
  }

  lemma {:induction false} AllBitsSet(w: nat, k: nat)
    requires k < w
    ensures Bit(Pow2(w) - 1, k)
  {
    if k > 0 {
      assert (Pow2(w) - 1) / 2 == Pow2(w - 1) - 1;
      AllBitsSet(w - 1, k - 1);
    }
  }

  // ---------------------------------------------------------------------------
  // Shifts of 64-bit words
  // ---------------------------------------------------------------------------

  function Shl(m: uint64, n: nat): uint64
    decreases n, m
  {
    if n == 0 then m else Shl(m * 2 % (ALL_BITS + 1), n - 1)
  }

  function Shr(m: uint64, n: nat): uint64
    decreases n, m
  {
    if n == 0 then m else Shr(m / 2, n - 1)
  }

  lemma {:induction false} ClearTop(m: nat, w: nat, k: nat)
    requires Pow2(w) <= m < 2 * Pow2(w) && k < w
    ensures Bit(m - Pow2(w), k) == Bit(m, k)
  {
    if k > 0 {
      assert (m - Pow2(w)) / 2 == m / 2 - Pow2(w - 1);
      ClearTop(m / 2, w - 1, k - 1);
    }
  }

  lemma ShlOne(m: uint64, k: nat)
    ensures Bit(m * 2 % (ALL_BITS + 1), k) <==> 1 <= k < 64 && Bit(m, k - 1)
  {
    Pow2Values();
    assert Pow2(64) == 2 * Pow2(63);
    var r := m * 2 % (ALL_BITS + 1);
    if k >= 64 {
      HighBitsClear(r, 64, k);
    } else if k > 0 && m >= Pow2(63) {
      assert r / 2 == m - Pow2(63);
      ClearTop(m, 63, k - 1);
    } else if k > 0 {
      assert r / 2 == m;
    }
  }

  lemma {:induction false} ShlBits(m: uint64, n: nat, k: nat)
    ensures Bit(Shl(m, n), k) <==> n <= k < 64 && Bit(m, k - n)
    decreases n
  {
    if n == 0 {
      if k >= 64 {
        Pow2Values();
        HighBitsClear(m, 64, k);
      }
    } else {
      ShlBits(m * 2 % (ALL_BITS + 1), n - 1, k);
      if n <= k < 64 {
        ShlOne(m, k - (n - 1));
      } else if n - 1 == k {
        ShlOne(m, 0);
      }
    }
  }

  lemma {:induction false} ShrBits(m: uint64, n: nat, k: nat)
    ensures Bit(Shr(m, n), k) == Bit(m, n + k)
    decreases n
  {
    if n > 0 {
      ShrBits(m / 2, n - 1, k);
    }
  }

  lemma {:induction false} ShrFits(m: uint64, n: nat)
    requires n <= 64
    ensures Shr(m, n) < Pow2(64 - n)
  {
    Pow2Values();
    ShrFitsFrom(m, n, 64);
  }

  lemma {:induction false} ShrFitsFrom(m: uint64, n: nat, w: nat)
    requires n <= w && m < Pow2(w)
    ensures Shr(m, n) < Pow2(w - n)
    decreases n
  {
    if n > 0 {
      ShrFitsFrom(m / 2, n - 1, w - 1);
    }
  }

  lemma {:induction false} Pow2Grows(w: nat)
    requires w < 64
    ensures Pow2(w) <= ALL_BITS
  {
    Pow2Values();
    Pow2Monotone(w, 63);
  }

  lemma {:induction false} Pow2Monotone(v: nat, w: nat)
    requires v <= w
    ensures Pow2(v) <= Pow2(w)
  {
    if v < w {
      Pow2Monotone(v, w - 1);
    }
  }
}
