/**
 Satellite blacklists of gps/gnss/GnssAdapter.cpp: six 64-bit masks on one side, a list of
 (constellation, satellite id) on the other, and the two conversions between them.
 */
module SvMask {
  import opened Words

  const GLO_INITIAL := 65
  const BDS_INITIAL := 201
  const QZSS_INITIAL := 193
  const GAL_INITIAL := 301
  const NAVIC_INITIAL := 401
  const SBAS_INITIAL := 120
  const SBAS_LENGTH := 39
  const SBAS_INITIAL2 := 183

  datatype SvType = Unknown | Gps | Sbas | Glonass | Qzss | Beidou | Galileo | Navic

  datatype Source = Source(constellation: SvType, svId: nat)

  datatype Config = Config(glo: uint64, bds: uint64, qzss: uint64, gal: uint64, sbas: uint64, navic: uint64)

  const ZERO := Config(0, 0, 0, 0, 0, 0)

  predicate HasMask(c: SvType) {
    c != Unknown && c != Gps
  }

  function Get(f: Config, c: SvType): uint64 {
    match c
    case Glonass => f.glo
    case Beidou => f.bds
    case Qzss => f.qzss
    case Galileo => f.gal
    case Sbas => f.sbas
    case Navic => f.navic
    case _ => 0
  }

  function Put(f: Config, c: SvType, m: uint64): Config {
    match c
    case Glonass => f.(glo := m)
    case Beidou => f.(bds := m)
    case Qzss => f.(qzss := m)
    case Galileo => f.(gal := m)
    case Sbas => f.(sbas := m)
    case Navic => f.(navic := m)
    case _ => f
  }

  function Initial(c: SvType): nat {
    match c
    case Glonass => GLO_INITIAL
    case Beidou => BDS_INITIAL
    case Qzss => QZSS_INITIAL
    case Galileo => GAL_INITIAL
    case Navic => NAVIC_INITIAL
    case _ => SBAS_INITIAL
  }

  // ---------------------------------------------------------------------------
  // What a list entry means
  // ---------------------------------------------------------------------------

  /** The satellite behind bit `k` of a constellation's mask. SBAS bits from 39 on belong to
      the second id range. */
  function SvIdOf(c: SvType, k: nat): nat {
    if c == Sbas && k >= SBAS_LENGTH then SBAS_INITIAL2 + (k - SBAS_LENGTH) else Initial(c) + k
  }

  /** The entry blacklists the satellite behind bit `k` of the constellation: id 0 stands for all. */
  predicate Covers(s: Source, c: SvType, k: nat) {
    HasMask(c) && s.constellation == c && (s.svId == 0 || s.svId == SvIdOf(c, k))
  }

  /** Ids 208 to 246 of SBAS ask the source to shift a 64-bit word by 64 or more, which has no meaning. */
  predicate ShiftDefined(s: Source) {
    s.constellation == Sbas ==> s.svId < SBAS_INITIAL2 + 64 - SBAS_LENGTH || s.svId >= SBAS_INITIAL2 + 64
  }

  /** The first id of the range that the entry falls in, as the source picks it. */
  function RangeStart(s: Source): nat {
    if s.constellation == Sbas && s.svId >= SBAS_INITIAL2 then SBAS_INITIAL2 else Initial(s.constellation)
  }

  /** The entry passes the source's checks of constellation and id. */
  predicate Accepted(s: Source) {
    && HasMask(s.constellation) && RangeStart(s) <= s.svId < RangeStart(s) + 64
    && (s.constellation == Sbas ==> s.svId >= SBAS_INITIAL2 || s.svId < SBAS_INITIAL + SBAS_LENGTH)
  }

  /** By how much the source shifts for an accepted entry. */
  function ShiftCount(s: Source): int {
    s.svId - RangeStart(s) + if s.constellation == Sbas && s.svId >= SBAS_INITIAL2 then SBAS_LENGTH else 0
  }

  /** An entry is excluded iff it is accepted and the shift is as long as the word, or longer. */
  lemma ShiftDefinedIff(s: Source)
    ensures !ShiftDefined(s) <==> Accepted(s) && ShiftCount(s) >= 64
  {
  }

  /** SBAS 208 passes the checks and asks for a shift by 64. */
  lemma Sbas208ShiftsTooFar()
    ensures Accepted(Source(Sbas, 208)) && ShiftCount(Source(Sbas, 208)) == 64
  {
    ShiftDefinedIff(Source(Sbas, 208));
  }

  // ---------------------------------------------------------------------------
  // List to masks
  // ---------------------------------------------------------------------------

  /** The bit that one entry sets, 64 for an entry that is refused. */
  function BitOf(s: Source): (k: nat)
    requires ShiftDefined(s) && s.svId != 0
    ensures if Accepted(s) then k == ShiftCount(s) < 64 else k == 64
  {
    if s.constellation == Sbas then
      if s.svId >= SBAS_INITIAL2 then
        if s.svId >= SBAS_INITIAL2 + 64 then 64 else s.svId + SBAS_LENGTH - SBAS_INITIAL2
      else if SBAS_INITIAL <= s.svId < SBAS_INITIAL + SBAS_LENGTH then s.svId - SBAS_INITIAL
      else 64
    else
      var initial := Initial(s.constellation);
      if !HasMask(s.constellation) || s.svId < initial || s.svId >= initial + 64 then 64 else s.svId - initial
  }

  function AddSource(f: Config, s: Source): Config
    requires ShiftDefined(s)
  {
    var m := Get(f, s.constellation);
    if s.svId == 0 then Put(f, s.constellation, ALL_BITS)
    else if BitOf(s) == 64 then f
    else
      SetBitIsWord(m, BitOf(s));
      Put(f, s.constellation, SetBit(m, BitOf(s)))
  }

  lemma SetBitIsWord(m: uint64, k: nat)
    requires k < 64
    ensures SetBit(m, k) <= ALL_BITS
  {
    Pow2Values();
    SetBitFits(m, k, 64);
  }

  function AddSources(f: Config, list: seq<Source>): Config
    requires forall i :: 0 <= i < |list| ==> ShiftDefined(list[i])
  {
    if list == [] then f else AddSource(AddSources(f, list[..|list| - 1]), list[|list| - 1])
  }

  /** `convertToGnssSvIdConfig`: an empty list clears the masks, any other adds to them. */
  function ToConfig(f: Config, list: seq<Source>): Config
    requires forall i :: 0 <= i < |list| ==> ShiftDefined(list[i])
  {
    if list == [] then ZERO else AddSources(f, list)
  }

  /** Exactly the covered bits are set. */
  lemma AddSourceBits(f: Config, s: Source, c: SvType, k: nat)
    requires ShiftDefined(s) && k < 64
    ensures Bit(Get(AddSource(f, s), c), k) <==> Bit(Get(f, c), k) || Covers(s, c, k)
  {
    if s.constellation == c && HasMask(c) {
      if s.svId == 0 {
        Pow2Values();
        AllBitsSet(64, k);
      } else if BitOf(s) < 64 {
        SetBitIsWord(Get(f, c), BitOf(s));
        SetBitBits(Get(f, c), BitOf(s), k);
      }
    }
  }

  ghost predicate Covered(list: seq<Source>, c: SvType, k: nat) {
    exists i :: 0 <= i < |list| && Covers(list[i], c, k)
  }

  lemma {:induction false} AddSourcesBits(f: Config, list: seq<Source>, c: SvType, k: nat)
    requires k < 64 && forall i :: 0 <= i < |list| ==> ShiftDefined(list[i])
    ensures Bit(Get(AddSources(f, list), c), k) <==> Bit(Get(f, c), k) || Covered(list, c, k)
  {
    if list != [] {
      var n := |list| - 1;
      AddSourcesBits(f, list[..n], c, k);
      AddSourceBits(AddSources(f, list[..n]), list[n], c, k);
      assert Covered(list, c, k) <==> Covered(list[..n], c, k) || Covers(list[n], c, k) by {
        assert forall i :: 0 <= i < n ==> list[..n][i] == list[i];
      }
    }
  }

  // ---------------------------------------------------------------------------
  // Masks to list
  // ---------------------------------------------------------------------------

  /** The entries of the one bits of `m`, which stand for the bits from `bit` on. */
  function BitList(m: nat, bit: nat, initial: nat, c: SvType): (r: seq<Source>)
  {
    if m == 0 then []
    else
      var id := if c == Sbas && bit >= SBAS_LENGTH then bit - SBAS_LENGTH + SBAS_INITIAL2 else bit + initial;
      (if m % 2 == 1 then [Source(c, id)] else []) + BitList(m / 2, bit + 1, initial, c)
  }

  /** `convertGnssSvIdMaskToList` */
  function MaskList(m: uint64, initial: nat, c: SvType): seq<Source> {
    if m == ALL_BITS then [Source(c, 0)] else BitList(m, 0, initial, c)
  }

  function SbasLow(m: uint64): uint64 {
    Shr(Shl(m, 64 - SBAS_LENGTH), 64 - SBAS_LENGTH)
  }

  function SbasHigh(m: uint64): uint64 {
    Shr(m, SBAS_LENGTH)
  }

  function SbasList(m: uint64): seq<Source> {
    if m == 0 then [] else MaskList(SbasLow(m), SBAS_INITIAL, Sbas) + MaskList(SbasHigh(m), SBAS_INITIAL2, Sbas)
  }

  function PartList(m: uint64, c: SvType): seq<Source> {
    if m == 0 then [] else MaskList(m, Initial(c), c)
  }

  /** `convertFromGnssSvIdConfig` on an empty list. */
  function FromConfig(f: Config): seq<Source> {
    PartList(f.bds, Beidou) + PartList(f.gal, Galileo) + PartList(f.glo, Glonass)
    + PartList(f.qzss, Qzss) + SbasList(f.sbas) + PartList(f.navic, Navic)
  }

  // ---------------------------------------------------------------------------
  // Which entries a mask gives
  // ---------------------------------------------------------------------------

  lemma {:induction false} BitListHas(m: nat, bit: nat, initial: nat, c: SvType, w: nat, s: Source)
    requires m < Pow2(w) && (c == Sbas ==> bit + w <= SBAS_LENGTH)
    ensures s in BitList(m, bit, initial, c) <==>
            s.constellation == c && initial + bit <= s.svId < initial + bit + w && Bit(m, s.svId - initial - bit)
    decreases w
  {
    if m == 0 {
      if initial + bit <= s.svId {
        HighBitsClear(0, 0, s.svId - initial - bit);
      }
    } else {
      BitListHas(m / 2, bit + 1, initial, c, w - 1, s);
    }
  }

  ghost predicate Rising(list: seq<Source>) {
    forall i, j :: 0 <= i < j < |list| ==> list[i].svId < list[j].svId
  }

  lemma {:induction false} BitListRises(m: nat, bit: nat, initial: nat, c: SvType, w: nat)
    requires m < Pow2(w) && (c == Sbas ==> bit + w <= SBAS_LENGTH)
    ensures Rising(BitList(m, bit, initial, c))
    decreases w
  {
    if m != 0 {
      var rest := BitList(m / 2, bit + 1, initial, c);
      BitListRises(m / 2, bit + 1, initial, c, w - 1);
      forall i | 0 <= i < |rest| ensures initial + bit < rest[i].svId {
        BitListHas(m / 2, bit + 1, initial, c, w - 1, rest[i]);
      }
    }
  }

  /** The entry is one that mask `m` of constellation `c` is listed as. */
  ghost predicate Shown(m: uint64, c: SvType, s: Source) {
    if c != Sbas && m == ALL_BITS then s == Source(c, 0)
    else exists k :: 0 <= k < 64 && Bit(m, k) && s == Source(c, SvIdOf(c, k))
  }

  lemma PartListShows(m: uint64, c: SvType, s: Source)
    requires HasMask(c) && c != Sbas
    ensures s in PartList(m, c) <==> Shown(m, c, s)
  {
    Pow2Values();
    if m == 0 {
      forall k | 0 <= k < 64 ensures !Bit(m, k) {
        HighBitsClear(0, 0, k);
      }
    } else if m != ALL_BITS {
      BitListHas(m, 0, Initial(c), c, 64, s);
      if s in PartList(m, c) {
        assert s == Source(c, SvIdOf(c, s.svId - Initial(c)));
      }
    }
  }

  lemma SbasParts(m: uint64, k: nat)
    ensures Bit(SbasLow(m), k) <==> k < SBAS_LENGTH && Bit(m, k)
    ensures Bit(SbasHigh(m), k) <==> Bit(m, SBAS_LENGTH + k)
    ensures SbasLow(m) < Pow2(SBAS_LENGTH) && SbasHigh(m) < Pow2(64 - SBAS_LENGTH)
  {
    var n := 64 - SBAS_LENGTH;
    ShrBits(Shl(m, n), n, k);
    ShlBits(m, n, n + k);
    ShrBits(m, SBAS_LENGTH, k);
    ShrFits(Shl(m, n), n);
    ShrFits(m, SBAS_LENGTH);
  }

  lemma SbasListShows(m: uint64, s: Source)
    ensures s in SbasList(m) <==> Shown(m, Sbas, s)
  {
    if m == 0 {
      forall k | 0 <= k < 64 ensures !Bit(m, k) {
        HighBitsClear(0, 0, k);
      }
    } else {
      SbasListHas(m, s);
      if s in SbasList(m) {
        var k := if s.svId >= SBAS_INITIAL2 then s.svId - SBAS_INITIAL2 + SBAS_LENGTH else s.svId - SBAS_INITIAL;
        assert Bit(m, k) && s == Source(Sbas, SvIdOf(Sbas, k));
      }
    }
  }

  lemma SbasListHas(m: uint64, s: Source)
    requires m != 0
    ensures s in SbasList(m) <==>
            && s.constellation == Sbas
            && if s.svId >= SBAS_INITIAL2
               then s.svId < SBAS_INITIAL2 + 64 - SBAS_LENGTH && Bit(m, SBAS_LENGTH + (s.svId - SBAS_INITIAL2))
               else SBAS_INITIAL <= s.svId < SBAS_INITIAL + SBAS_LENGTH && Bit(m, s.svId - SBAS_INITIAL)
  {
    SbasLowHas(m, s);
    SbasHighHas(m, s);
  }

  lemma SbasPartHas(part: uint64, initial: nat, w: nat, s: Source)
    requires part < Pow2(w) && w <= SBAS_LENGTH && part != ALL_BITS
    ensures s in MaskList(part, initial, Sbas) <==>
            s.constellation == Sbas && initial <= s.svId < initial + w && Bit(part, s.svId - initial)
  {
    BitListHas(part, 0, initial, Sbas, w, s);
  }

  lemma SbasLowHas(m: uint64, s: Source)
    ensures s in MaskList(SbasLow(m), SBAS_INITIAL, Sbas) <==>
            && s.constellation == Sbas && SBAS_INITIAL <= s.svId < SBAS_INITIAL + SBAS_LENGTH
            && Bit(m, s.svId - SBAS_INITIAL)
  {
    SbasBelow(m);
    SbasPartHas(SbasLow(m), SBAS_INITIAL, SBAS_LENGTH, s);
    if s.svId >= SBAS_INITIAL {
      SbasParts(m, s.svId - SBAS_INITIAL);
    }
  }

  lemma SbasHighHas(m: uint64, s: Source)
    ensures s in MaskList(SbasHigh(m), SBAS_INITIAL2, Sbas) <==>
            && s.constellation == Sbas && SBAS_INITIAL2 <= s.svId < SBAS_INITIAL2 + 64 - SBAS_LENGTH
            && Bit(m, SBAS_LENGTH + (s.svId - SBAS_INITIAL2))
  {
    SbasBelow(m);
    SbasPartHas(SbasHigh(m), SBAS_INITIAL2, 64 - SBAS_LENGTH, s);
    if s.svId >= SBAS_INITIAL2 {
      SbasParts(m, s.svId - SBAS_INITIAL2);
    }
  }

  /** Neither half of an SBAS mask is the all-ones word, so SBAS is never listed as id 0. */
  lemma SbasBelow(m: uint64)
    ensures SbasLow(m) != ALL_BITS && SbasHigh(m) != ALL_BITS
    ensures SbasLow(m) < Pow2(SBAS_LENGTH) && SbasHigh(m) < Pow2(64 - SBAS_LENGTH)
  {
    SbasParts(m, 0);
    Pow2Grows(SBAS_LENGTH);
    Pow2Grows(64 - SBAS_LENGTH);
  }

  lemma FromConfigShows(f: Config, s: Source)
    ensures s in FromConfig(f) <==> HasMask(s.constellation) && Shown(Get(f, s.constellation), s.constellation, s)
  {
    PartListShows(f.bds, Beidou, s);
    PartListShows(f.gal, Galileo, s);
    PartListShows(f.glo, Glonass, s);
    PartListShows(f.qzss, Qzss, s);
    SbasListShows(f.sbas, s);
    PartListShows(f.navic, Navic, s);
  }

  // ---------------------------------------------------------------------------
  // Masks to list to masks
  // ---------------------------------------------------------------------------

  lemma ListIsDefined(f: Config)
    ensures forall i :: 0 <= i < |FromConfig(f)| ==> ShiftDefined(FromConfig(f)[i])
  {
    forall i | 0 <= i < |FromConfig(f)| ensures ShiftDefined(FromConfig(f)[i]) {
      FromConfigShows(f, FromConfig(f)[i]);
    }
  }

  lemma ListCoversMask(f: Config, c: SvType, k: nat)
    requires HasMask(c) && k < 64
    ensures Covered(FromConfig(f), c, k) <==> Bit(Get(f, c), k)
  {
    var list := FromConfig(f);
    if i :| 0 <= i < |list| && Covers(list[i], c, k) {
      FromConfigShows(f, list[i]);
      ShownSetsBit(Get(f, c), c, k, list[i]);
    }
    if Bit(Get(f, c), k) {
      var s := if c != Sbas && Get(f, c) == ALL_BITS then Source(c, 0) else Source(c, SvIdOf(c, k));
      FromConfigShows(f, s);
      assert s in list && Covers(s, c, k);
    }
  }

  lemma ShownSetsBit(m: uint64, c: SvType, k: nat, s: Source)
    requires k < 64 && Shown(m, c, s) && Covers(s, c, k)
    ensures Bit(m, k)
  {
    if c != Sbas && m == ALL_BITS {
      Pow2Values();
      AllBitsSet(64, k);
    }
  }

  /** Six masks turned into a list and back into a zeroed configuration are the same six masks,
      all-ones words and both SBAS ranges included. */
  lemma MasksRoundTrip(f: Config)
    ensures (forall i :: 0 <= i < |FromConfig(f)| ==> ShiftDefined(FromConfig(f)[i]))
            && ToConfig(ZERO, FromConfig(f)) == f
  {
    ListIsDefined(f);
    var list := FromConfig(f);
    var g := ToConfig(ZERO, list);
    forall c | HasMask(c) ensures Get(g, c) == Get(f, c) {
      MaskFromList(f, list, c);
    }
    assert Get(g, Glonass) == f.glo && Get(g, Beidou) == f.bds && Get(g, Qzss) == f.qzss;
    assert Get(g, Galileo) == f.gal && Get(g, Sbas) == f.sbas && Get(g, Navic) == f.navic;
  }

  lemma MaskFromList(f: Config, list: seq<Source>, c: SvType)
    requires list == FromConfig(f) && HasMask(c) && forall i :: 0 <= i < |list| ==> ShiftDefined(list[i])
    ensures Get(ToConfig(ZERO, list), c) == Get(f, c)
  {
    forall k | 0 <= k < 64 ensures Bit(Get(ToConfig(ZERO, list), c), k) == Bit(Get(f, c), k) {
      ListCoversMask(f, c, k);
      HighBitsClear(0, 0, k);
      ToConfigBits(ZERO, list, c, k);
    }
    Pow2Values();
    SameBits(Get(ToConfig(ZERO, list), c), Get(f, c), 64);
  }

  /** An empty list clears every bit; any other adds the bits that it covers. */
  lemma ToConfigBits(f: Config, list: seq<Source>, c: SvType, k: nat)
    requires HasMask(c) && k < 64 && forall i :: 0 <= i < |list| ==> ShiftDefined(list[i])
    ensures Bit(Get(ToConfig(f, list), c), k) <==> (list != [] && Bit(Get(f, c), k)) || Covered(list, c, k)
  {
    HighBitsClear(0, 0, k);
    AddSourcesBits(f, list, c, k);
  }

  /** The satellites that the bits stand for, constellation by constellation. */
  lemma SvIdRanges(k: nat)
    requires k < 64
    ensures SvIdOf(Glonass, k) == 65 + k && SvIdOf(Qzss, k) == 193 + k && SvIdOf(Beidou, k) == 201 + k
    ensures SvIdOf(Galileo, k) == 301 + k && SvIdOf(Navic, k) == 401 + k
    ensures SvIdOf(Sbas, k) == if k < 39 then 120 + k else 144 + k
  {
  }

  // ---------------------------------------------------------------------------
  // List to masks to list
  // ---------------------------------------------------------------------------

  /** Every satellite of the constellation is blacklisted. */
  ghost predicate Saturated(list: seq<Source>, c: SvType) {
    forall k :: 0 <= k < 64 ==> Covered(list, c, k)
  }

  function Rank(c: SvType): nat {
    match c
    case Beidou => 0
    case Galileo => 1
    case Glonass => 2
    case Qzss => 3
    case Sbas => 4
    case Navic => 5
    case _ => 6
  }

  predicate Before(a: Source, b: Source) {
    Rank(a.constellation) < Rank(b.constellation) || (a.constellation == b.constellation && a.svId < b.svId)
  }

  ghost predicate Ascending(list: seq<Source>) {
    forall i, j :: 0 <= i < j < |list| ==> Before(list[i], list[j])
  }

  lemma AscendingConcat(a: seq<Source>, b: seq<Source>)
    requires Ascending(a) && Ascending(b)
    requires forall i, j :: 0 <= i < |a| && 0 <= j < |b| ==> Before(a[i], b[j])
    ensures Ascending(a + b)
  {
  }

  ghost predicate AllOf(list: seq<Source>, c: SvType) {
    forall i :: 0 <= i < |list| ==> list[i].constellation == c
  }

  lemma PartListAscends(m: uint64, c: SvType)
    requires HasMask(c) && c != Sbas
    ensures AllOf(PartList(m, c), c) && Ascending(PartList(m, c))
  {
    Pow2Values();
    var list := PartList(m, c);
    forall i | 0 <= i < |list| ensures list[i].constellation == c {
      PartListShows(m, c, list[i]);
    }
    BitListRises(m, 0, Initial(c), c, 64);
  }

  lemma SbasListAscends(m: uint64)
    ensures AllOf(SbasList(m), Sbas) && Ascending(SbasList(m))
  {
    if m != 0 {
      SbasBelow(m);
      var low, high := BitList(SbasLow(m), 0, SBAS_INITIAL, Sbas), BitList(SbasHigh(m), 0, SBAS_INITIAL2, Sbas);
      BitListRises(SbasLow(m), 0, SBAS_INITIAL, Sbas, SBAS_LENGTH);
      BitListRises(SbasHigh(m), 0, SBAS_INITIAL2, Sbas, 64 - SBAS_LENGTH);
      forall i | 0 <= i < |low| ensures low[i].constellation == Sbas && low[i].svId < SBAS_INITIAL2 {
        BitListHas(SbasLow(m), 0, SBAS_INITIAL, Sbas, SBAS_LENGTH, low[i]);
      }
      forall i | 0 <= i < |high| ensures high[i].constellation == Sbas && high[i].svId >= SBAS_INITIAL2 {
        BitListHas(SbasHigh(m), 0, SBAS_INITIAL2, Sbas, 64 - SBAS_LENGTH, high[i]);
      }
      AscendingConcat(low, high);
    }
  }

  ghost predicate RankBelow(list: seq<Source>, r: nat) {
    forall i :: 0 <= i < |list| ==> Rank(list[i].constellation) < r
  }

  lemma AscendingAppend(list: seq<Source>, part: seq<Source>, c: SvType)
    requires Ascending(list) && RankBelow(list, Rank(c)) && Ascending(part) && AllOf(part, c)
    ensures Ascending(list + part) && RankBelow(list + part, Rank(c) + 1)
  {
    AscendingConcat(list, part);
  }

  function BeidouGalileo(f: Config): seq<Source> {
    PartList(f.bds, Beidou) + PartList(f.gal, Galileo)
  }

  lemma BeidouGalileoAscends(f: Config)
    ensures Ascending(BeidouGalileo(f)) && RankBelow(BeidouGalileo(f), Rank(Glonass))
  {
    PartListAscends(f.bds, Beidou);
    PartListAscends(f.gal, Galileo);
    AscendingAppend(PartList(f.bds, Beidou), PartList(f.gal, Galileo), Galileo);
  }

  lemma GlonassAscends(f: Config, list: seq<Source>)
    requires Ascending(list) && RankBelow(list, Rank(Glonass))
    ensures Ascending(list + PartList(f.glo, Glonass)) && RankBelow(list + PartList(f.glo, Glonass), Rank(Qzss))
  {
    PartListAscends(f.glo, Glonass);
    AscendingAppend(list, PartList(f.glo, Glonass), Glonass);
  }

  lemma QzssAscends(f: Config, list: seq<Source>)
    requires Ascending(list) && RankBelow(list, Rank(Qzss))
    ensures Ascending(list + PartList(f.qzss, Qzss)) && RankBelow(list + PartList(f.qzss, Qzss), Rank(Sbas))
  {
    PartListAscends(f.qzss, Qzss);
    AscendingAppend(list, PartList(f.qzss, Qzss), Qzss);
  }

  lemma SbasAscends(f: Config, list: seq<Source>)
    requires Ascending(list) && RankBelow(list, Rank(Sbas))
    ensures Ascending(list + SbasList(f.sbas)) && RankBelow(list + SbasList(f.sbas), Rank(Navic))
  {
    SbasListAscends(f.sbas);
    AscendingAppend(list, SbasList(f.sbas), Sbas);
  }

  lemma NavicAscends(f: Config, list: seq<Source>)
    requires Ascending(list) && RankBelow(list, Rank(Navic))
    ensures Ascending(list + PartList(f.navic, Navic))
  {
    PartListAscends(f.navic, Navic);
    AscendingAppend(list, PartList(f.navic, Navic), Navic);
  }

  lemma FromConfigAscends(f: Config)
    ensures Ascending(FromConfig(f))
  {
    var a := BeidouGalileo(f);
    var b := a + PartList(f.glo, Glonass);
    var c := b + PartList(f.qzss, Qzss);
    var d := c + SbasList(f.sbas);
    BeidouGalileoAscends(f);
    GlonassAscends(f, a);
    QzssAscends(f, b);
    SbasAscends(f, c);
    NavicAscends(f, d);
    assert d + PartList(f.navic, Navic) == FromConfig(f);
  }

  /** A list turned into masks and back comes out ascending and free of duplicates. It holds
      exactly the covered satellites, except that a saturated constellation other than SBAS
      comes out as id 0 alone. */
  lemma ListRoundTrip(list: seq<Source>, s: Source)
    requires forall i :: 0 <= i < |list| ==> ShiftDefined(list[i])
    ensures var out := FromConfig(ToConfig(ZERO, list));
            && Ascending(out)
            && (s in out <==>
                var c := s.constellation;
                && HasMask(c)
                && if c != Sbas && Saturated(list, c) then s.svId == 0
                   else exists k :: 0 <= k < 64 && Covered(list, c, k) && s.svId == SvIdOf(c, k))
  {
    var f, c := ToConfig(ZERO, list), s.constellation;
    FromConfigAscends(f);
    FromConfigShows(f, s);
    if HasMask(c) {
      forall k | 0 <= k < 64 ensures Bit(Get(f, c), k) <==> Covered(list, c, k) {
        HighBitsClear(0, 0, k);
        ToConfigBits(ZERO, list, c, k);
      }
      SaturatedIsAllOnes(list, f, c);
    }
  }

  lemma SaturatedIsAllOnes(list: seq<Source>, f: Config, c: SvType)
    requires forall k :: 0 <= k < 64 ==> (Bit(Get(f, c), k) <==> Covered(list, c, k))
    ensures Get(f, c) == ALL_BITS <==> Saturated(list, c)
  {
    Pow2Values();
    forall k | 0 <= k < 64 ensures Bit(ALL_BITS, k) {
      AllBitsSet(64, k);
    }
    if Saturated(list, c) {
      SameBits(Get(f, c), ALL_BITS, 64);
    }
  }

  // ---------------------------------------------------------------------------
  // The conversions as loops
  // ---------------------------------------------------------------------------

  class GnssSvIdConfig {
    var gloBlacklistSvMask: uint64
    var bdsBlacklistSvMask: uint64
    var qzssBlacklistSvMask: uint64
    var galBlacklistSvMask: uint64
    var sbasBlacklistSvMask: uint64
    var navicBlacklistSvMask: uint64

    ghost function View(): Config
      reads this
    {
      Config(gloBlacklistSvMask, bdsBlacklistSvMask, qzssBlacklistSvMask,
             galBlacklistSvMask, sbasBlacklistSvMask, navicBlacklistSvMask)
    }

    method SetMask(c: SvType, m: uint64)
      modifies this
      ensures View() == Put(old(View()), c, m)
    {
      match c
      case Glonass => gloBlacklistSvMask := m;
      case Beidou => bdsBlacklistSvMask := m;
      case Qzss => qzssBlacklistSvMask := m;
      case Galileo => galBlacklistSvMask := m;
      case Sbas => sbasBlacklistSvMask := m;
      case Navic => navicBlacklistSvMask := m;
      case Unknown | Gps =>
    }

    method GetMask(c: SvType) returns (m: uint64)
      ensures m == Get(View(), c)
    {
      match c
      case Glonass => m := gloBlacklistSvMask;
      case Beidou => m := bdsBlacklistSvMask;
      case Qzss => m := qzssBlacklistSvMask;
      case Galileo => m := galBlacklistSvMask;
      case Sbas => m := sbasBlacklistSvMask;
      case Navic => m := navicBlacklistSvMask;
      case Unknown | Gps => m := 0;
    }

    /** One round of the loop over the list. */
    method AddOne(source: Source)
      requires ShiftDefined(source)
      modifies this
      ensures View() == AddSource(old(View()), source)
    {
      var known, initialSvId, svIndexOffset := true, 0, 0;
      match source.constellation {
        case Glonass => initialSvId := GLO_INITIAL;
        case Beidou => initialSvId := BDS_INITIAL;
        case Qzss => initialSvId := QZSS_INITIAL;
        case Galileo => initialSvId := GAL_INITIAL;
        case Sbas =>
          if source.svId == 0 {
          } else if source.svId >= SBAS_INITIAL2 {
            initialSvId := SBAS_INITIAL2;
            svIndexOffset := SBAS_LENGTH;
          } else if source.svId >= SBAS_INITIAL && source.svId < SBAS_INITIAL + SBAS_LENGTH {
            initialSvId := SBAS_INITIAL;
          } else {
            known := false;
          }
        case Navic => initialSvId := NAVIC_INITIAL;
        case Unknown | Gps => known := false;
      }
      if known {
        if source.svId == 0 {
          SetMask(source.constellation, ALL_BITS);
        } else if source.svId < initialSvId || source.svId >= initialSvId + 64 {
        } else {
          var shiftCnt := source.svId + svIndexOffset - initialSvId;
          var m := GetMask(source.constellation);
          SetBitIsWord(m, shiftCnt);
          SetMask(source.constellation, SetBit(m, shiftCnt));
        }
      }
    }

    method ConvertTo(blacklistedSvIds: seq<Source>) returns (retVal: bool)
      requires forall i :: 0 <= i < |blacklistedSvIds| ==> ShiftDefined(blacklistedSvIds[i])
      modifies this
      ensures View() == ToConfig(old(View()), blacklistedSvIds)
      ensures retVal <==> blacklistedSvIds == [] || View() != ZERO
    {
      if blacklistedSvIds == [] {
        gloBlacklistSvMask, bdsBlacklistSvMask, qzssBlacklistSvMask := 0, 0, 0;
        galBlacklistSvMask, sbasBlacklistSvMask, navicBlacklistSvMask := 0, 0, 0;
        return true;
      }
      for i := 0 to |blacklistedSvIds|
        invariant View() == AddSources(old(View()), blacklistedSvIds[..i])
      {
        AddOne(blacklistedSvIds[i]);
        assert blacklistedSvIds[..i + 1][..i] == blacklistedSvIds[..i];
      }
      assert blacklistedSvIds[..|blacklistedSvIds|] == blacklistedSvIds;
      retVal := gloBlacklistSvMask != 0 || bdsBlacklistSvMask != 0 || galBlacklistSvMask != 0
             || qzssBlacklistSvMask != 0 || sbasBlacklistSvMask != 0 || navicBlacklistSvMask != 0;
    }

    method ConvertFrom(blacklistedSvIds: seq<Source>) returns (svIds: seq<Source>)
      ensures svIds == blacklistedSvIds + FromConfig(View())
    {
      svIds := AppendPart(bdsBlacklistSvMask, blacklistedSvIds, Beidou);
      svIds := AppendPart(galBlacklistSvMask, svIds, Galileo);
      svIds := AppendPart(gloBlacklistSvMask, svIds, Glonass);
      svIds := AppendPart(qzssBlacklistSvMask, svIds, Qzss);
      svIds := AppendSbas(sbasBlacklistSvMask, svIds);
      svIds := AppendPart(navicBlacklistSvMask, svIds, Navic);
      SixParts(blacklistedSvIds, PartList(bdsBlacklistSvMask, Beidou), PartList(galBlacklistSvMask, Galileo),
               PartList(gloBlacklistSvMask, Glonass), PartList(qzssBlacklistSvMask, Qzss),
               SbasList(sbasBlacklistSvMask), PartList(navicBlacklistSvMask, Navic));
    }
  }

  lemma SixParts<T>(x: seq<T>, a: seq<T>, b: seq<T>, c: seq<T>, d: seq<T>, e: seq<T>, g: seq<T>)
    ensures x + a + b + c + d + e + g == x + (a + b + c + d + e + g)
  {
  }

  /** Ids 120 to 158 first, then the second range. */
  method AppendSbas(mask: uint64, svIds: seq<Source>) returns (r: seq<Source>)
    ensures r == svIds + SbasList(mask)
  {
    r := svIds;
    if mask != 0 {
      var low, high := SbasLow(mask), SbasHigh(mask);
      r := ConvertMaskToList(low, r, SBAS_INITIAL, Sbas);
      r := ConvertMaskToList(high, r, SBAS_INITIAL2, Sbas);
      ghost var a, b := MaskList(low, SBAS_INITIAL, Sbas), MaskList(high, SBAS_INITIAL2, Sbas);
      assert svIds + a + b == svIds + (a + b);
    }
  }

  method AppendPart(mask: uint64, svIds: seq<Source>, c: SvType) returns (r: seq<Source>)
    ensures r == svIds + PartList(mask, c)
  {
    r := svIds;
    if mask != 0 {
      r := ConvertMaskToList(mask, svIds, Initial(c), c);
    }
  }

  method ConvertMaskToList(mask: uint64, svIds: seq<Source>, initialSvId: nat, svType: SvType) returns (r: seq<Source>)
    ensures r == svIds + MaskList(mask, initialSvId, svType)
  {
    if mask == ALL_BITS {
      return svIds + [Source(svType, 0)];
    }
    r := svIds;
    var svIdMask, bitNumber := mask, 0;
    while svIdMask > 0
      invariant r + BitList(svIdMask, bitNumber, initialSvId, svType) == svIds + BitList(mask, 0, initialSvId, svType)
    {
      if svIdMask % 2 == 1 {
        var svId := bitNumber + initialSvId;
        if svType == Sbas {
          if bitNumber >= SBAS_LENGTH {
            svId := bitNumber - SBAS_LENGTH + SBAS_INITIAL2;
          }
        }
        r := r + [Source(svType, svId)];
      }
      bitNumber := bitNumber + 1;
      svIdMask := svIdMask / 2;
    }
  }
}
