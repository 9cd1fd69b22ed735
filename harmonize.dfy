/** Sensor harmonisation of earth-engine/landtrendr/preprocess.py (and its copy
    earth-engine/build_SR_collection.py): the QA mask, the TM and OLI band
    selections, the Roy et al. OLI-to-TM recalibration and the per-sensor
    collections, all stated for one pixel. */
module Harmonize {
  import opened Wrappers
  import opened Calendar
  import opened Seqs

  /** One raw Landsat surface-reflectance pixel as the archive delivers it:
      acquisition time, the image's own mask, the `pixel_qa` value and the
      reflectance bands by name. */
  datatype RawPixel = RawPixel(time: Instant, mask: bool, qa: bv16, bands: map<string, int>)

  /** One harmonised observation of a pixel: its time, whether it is unmasked, and
      the six TM-equivalent reflectances, band k being named CANONICAL_BANDS[k]. */
  datatype Obs = Obs(time: Instant, valid: bool, bands: seq<int>)

  const CANONICAL_BANDS: seq<string> := ["B1", "B2", "B3", "B4", "B5", "B7"]

  /** A canonical band, by name. */
  datatype Canonical = B1 | B2 | B3 | B4 | B5 | B7

  /** Position of a canonical band among an observation's six bands. */
  function BandPosition(b: Canonical): (k: nat)
    ensures k < 6
  {
    match b
    case B1 => 0
    case B2 => 1
    case B3 => 2
    case B4 => 3
    case B5 => 4
    case B7 => 5
  }

  /** The name of a canonical band in an image. */
  function BandName(b: Canonical): string {
    CANONICAL_BANDS[BandPosition(b)]
  }

  /** Bands selected from Landsat 5 and 7 (TM, ETM+) images. */
  const TM_BANDS: seq<string> := ["B1", "B2", "B3", "B4", "B5", "B7"]

  /** Bands selected from Landsat 8 (OLI) images. */
  const OLI_BANDS: seq<string> := ["B2", "B3", "B4", "B5", "B6", "B7"]

  const WATER_BIT: bv16 := 1 << 2
  const CLOUD_SHADOW_BIT: bv16 := 1 << 3
  const SNOW_BIT: bv16 := 1 << 4
  const CLOUD_BIT: bv16 := 1 << 5

  /** The four QA tests of `_mask_landsat_sr`, one bit at a time. */
  predicate QaClear(qa: bv16) {
    qa & WATER_BIT == 0
    && qa & CLOUD_SHADOW_BIT == 0
    && qa & SNOW_BIT == 0
    && qa & CLOUD_BIT == 0
  }

  /** A harmonised observation has six bands and a real acquisition time. */
  predicate WellFormedObs(o: Obs) {
    |o.bands| == 6 && ValidInstant(o.time)
  }

  /** `_mask_landsat_sr`: `updateMask` with the QA test. Only the mask changes. */
  function MaskLandsatSr(p: RawPixel): (r: RawPixel)
    ensures r.mask <==> p.mask && p.qa & 0x3C == 0
    ensures r.time == p.time && r.qa == p.qa && r.bands == p.bands
  {
    p.(mask := p.mask && QaClear(p.qa))
  }

  /** The raw pixel carries every band that the selection names. */
  predicate HasBands(p: RawPixel, names: seq<string>) {
    forall n :: n in names ==> n in p.bands
  }

  /** `_prepare_images`: mask, then select `inBands` in order under the canonical
      names. The time stamp is carried over. */
  function PrepareImages(p: RawPixel, inBands: seq<string>): (o: Obs)
    requires HasBands(p, inBands)
    ensures o.time == p.time
    ensures o.valid <==> p.mask && p.qa & 0x3C == 0
    ensures |o.bands| == |inBands|
    ensures forall k :: 0 <= k < |inBands| ==> o.bands[k] == p.bands[inBands[k]]
  {
    var m := MaskLandsatSr(p);
    Obs(m.time, m.mask, seq(|inBands|, k requires 0 <= k < |inBands| => m.bands[inBands[k]]))
  }

  /** `_prepare_TM`: TM bands keep their names. */
  function PrepareTM(p: RawPixel): (o: Obs)
    requires HasBands(p, TM_BANDS)
    ensures o.time == p.time && o.valid == (p.mask && QaClear(p.qa))
    ensures o.bands == [p.bands["B1"], p.bands["B2"], p.bands["B3"], p.bands["B4"], p.bands["B5"], p.bands["B7"]]
  {
    PrepareImages(p, TM_BANDS)
  }

  /** `_prepare_OLI`: OLI bands B2..B7 become the canonical B1, B2, B3, B4, B5, B7. */
  function PrepareOLI(p: RawPixel): (o: Obs)
    requires HasBands(p, OLI_BANDS)
    ensures o.time == p.time && o.valid == (p.mask && QaClear(p.qa))
    ensures o.bands == [p.bands["B2"], p.bands["B3"], p.bands["B4"], p.bands["B5"], p.bands["B6"], p.bands["B7"]]
  {
    PrepareImages(p, OLI_BANDS)
  }

  /** Euclidean division of a non-negative number: quotient and remainder bounds. */
  lemma NatDivBounds(a: int, b: int)
    requires a >= 0 && b > 0
    ensures a / b >= 0 && (a / b) * b <= a < (a / b) * b + b
  {
    var q, r := a / b, a % b;
    assert a == q * b + r && 0 <= r < b;
  }

  /** Division truncating toward zero (the float-to-integer cast of `toShort`). */
  function TruncDiv(a: int, b: int): (q: int)
    requires b > 0
    ensures a >= 0 ==> q >= 0 && q * b <= a < q * b + b
    ensures a < 0 ==> q <= 0 && a <= q * b < a + b
  {
    if a >= 0 then
      NatDivBounds(a, b);
      a / b
    else
      NatDivBounds(-a, b);
      -((-a) / b)
  }

  /** Intercepts of the Roy et al. transformation, times 10000, per canonical band. */
  const OLI_INTERCEPTS: seq<int> := [-95, -16, -22, -21, -30, 29]

  /** Slopes of the Roy et al. transformation, times 10000, per canonical band. */
  const OLI_SLOPES: seq<int> := [9785, 9542, 9825, 10073, 10171, 9949]

  /** `(x - intercept * 10000) / slope`, cast to an integer by truncation. */
  function RecalibrateBand(k: nat, x: int): (r: int)
    requires k < 6
    ensures var e := (x - OLI_INTERCEPTS[k]) as real * 10000.0 / OLI_SLOPES[k] as real;
            (e >= 0.0 ==> r as real <= e < r as real + 1.0)
            && (e < 0.0 ==> r as real - 1.0 < e <= r as real)
  {
    TruncDiv((x - OLI_INTERCEPTS[k]) * 10000, OLI_SLOPES[k])
  }

  /** The signed 16-bit range of `toShort`. */
  predicate IsShort(v: int) {
    -32768 <= v <= 32767
  }

  /** Every band of `o` stays within the 16-bit range once recalibrated. */
  predicate RecalibrationFits(o: Obs) {
    |o.bands| == 6 && forall k :: 0 <= k < 6 ==> IsShort(RecalibrateBand(k, o.bands[k]))
  }

  /** `_harmonization_Roy`: per-band recalibration; time and mask carried over. */
  function HarmonizationRoy(o: Obs): (r: Obs)
    requires RecalibrationFits(o)
    ensures r.time == o.time && r.valid == o.valid && |r.bands| == 6
    ensures forall k :: 0 <= k < 6 ==> IsShort(r.bands[k]) && r.bands[k] == RecalibrateBand(k, o.bands[k])
  {
    o.(bands := seq(6, k requires 0 <= k < 6 => RecalibrateBand(k, o.bands[k])))
  }

  /** A worked value: OLI blue 5000 gives 5095 / 0.9785 = 5206.95..., truncated to 5206. */
  lemma RecalibrationExample()
    ensures RecalibrateBand(0, 5000) == 5206
  {
  }

  /** Any 16-bit reflectance of magnitude at most 30000 stays in range after
      recalibration, so the range precondition only excludes extreme values. */
  lemma RecalibrationFitsModerateInputs(k: nat, x: int)
    requires k < 6 && -30000 <= x <= 30000
    ensures IsShort(RecalibrateBand(k, x))
  {
  }

  /** The archive prefilter `filterDate(startYear-startDay, (endYear-endDay).advance(1, "day"))`. */
  predicate InArchiveRange(t: Instant, startYear: int, startDay: MonthDay, endYear: int, endDay: MonthDay)
    requires ValidMonthDay(startDay) && ValidMonthDay(endDay)
  {
    InDateRange(t, Midnight(OnYear(startDay, startYear)), Midnight(NextDay(OnYear(endDay, endYear))))
  }

  /** The archive prefilter admits exactly the days from startYear-startDay to
      endYear-endDay, both included. */
  lemma ArchiveRangeInclusive(t: Instant, startYear: int, startDay: MonthDay, endYear: int, endDay: MonthDay)
    requires ValidInstant(t) && ValidMonthDay(startDay) && ValidMonthDay(endDay)
    ensures InArchiveRange(t, startYear, startDay, endYear, endDay)
            <==> DayAtMost(OnYear(startDay, startYear), t.date) && DayAtMost(t.date, OnYear(endDay, endYear))
  {
    FilterDateInclusive(t, OnYear(startDay, startYear), OnYear(endDay, endYear));
  }

  /** The raw archive of one sensor is usable for the selection `names`. */
  predicate RawArchive(raw: seq<RawPixel>, names: seq<string>) {
    forall p :: p in raw ==> HasBands(p, names) && ValidInstant(p.time)
  }

  /** Pixels of `raw` that pass the archive prefilter, each as often as it occurs,
      in archive order. */
  function ArchiveFilter(raw: seq<RawPixel>, startYear: int, startDay: MonthDay, endYear: int, endDay: MonthDay): (r: seq<RawPixel>)
    requires ValidMonthDay(startDay) && ValidMonthDay(endDay)
    ensures |r| <= |raw|
    ensures forall p :: p in r <==> p in raw && InArchiveRange(p.time, startYear, startDay, endYear, endDay)
    ensures forall p {:trigger multiset(r)[p]} ::
              multiset(r)[p] == if InArchiveRange(p.time, startYear, startDay, endYear, endDay) then multiset(raw)[p] else 0
  {
    Filter(raw, (p: RawPixel) => InArchiveRange(p.time, startYear, startDay, endYear, endDay))
  }

  /** `_build_TM_collection`: prefilter by date, then prepare with the TM band map. */
  function BuildTMCollection(raw: seq<RawPixel>, startYear: int, startDay: MonthDay, endYear: int, endDay: MonthDay): (r: seq<Obs>)
    requires ValidMonthDay(startDay) && ValidMonthDay(endDay)
    requires RawArchive(raw, TM_BANDS)
    ensures forall o :: o in r ==> WellFormedObs(o)
    ensures forall o :: o in r <==>
      exists p :: p in raw && InArchiveRange(p.time, startYear, startDay, endYear, endDay) && o == PrepareTM(p)
    ensures var kept := ArchiveFilter(raw, startYear, startDay, endYear, endDay);
      |r| == |kept| && forall i :: 0 <= i < |kept| ==> r[i] == PrepareTM(kept[i])
  {
    var kept := ArchiveFilter(raw, startYear, startDay, endYear, endDay);
    var r := seq(|kept|, i requires 0 <= i < |kept| => PrepareTM(kept[i]));
    assert forall p :: p in kept ==> PrepareTM(p) in r by {
      forall p | p in kept ensures PrepareTM(p) in r {
        var i :| 0 <= i < |kept| && kept[i] == p;
        assert r[i] == PrepareTM(p);
      }
    }
    r
  }

  /** One OLI pixel prepared and recalibrated, as `_build_OLI_collection` maps it. */
  function HarmonizedOLI(p: RawPixel): (o: Obs)
    requires HasBands(p, OLI_BANDS) && ValidInstant(p.time) && RecalibrationFits(PrepareOLI(p))
    ensures WellFormedObs(o)
  {
    HarmonizationRoy(PrepareOLI(p))
  }

  /** `_build_OLI_collection`: prefilter by date, prepare with the OLI band map, then recalibrate. */
  function BuildOLICollection(raw: seq<RawPixel>, startYear: int, startDay: MonthDay, endYear: int, endDay: MonthDay): (r: seq<Obs>)
    requires ValidMonthDay(startDay) && ValidMonthDay(endDay)
    requires RawArchive(raw, OLI_BANDS)
    requires forall p :: p in raw ==> RecalibrationFits(PrepareOLI(p))
    ensures forall o :: o in r ==> WellFormedObs(o)
    ensures forall o :: o in r <==>
      exists p :: p in raw && InArchiveRange(p.time, startYear, startDay, endYear, endDay) && o == HarmonizationRoy(PrepareOLI(p))
    ensures var kept := ArchiveFilter(raw, startYear, startDay, endYear, endDay);
      |r| == |kept| && forall i :: 0 <= i < |kept| ==> r[i] == HarmonizationRoy(PrepareOLI(kept[i]))
  {
    var kept := ArchiveFilter(raw, startYear, startDay, endYear, endDay);
    var r := seq(|kept|, i requires 0 <= i < |kept| => HarmonizedOLI(kept[i]));
    assert forall p :: p in kept ==> HarmonizedOLI(p) in r by {
      forall p | p in kept ensures HarmonizedOLI(p) in r {
        var i :| 0 <= i < |kept| && kept[i] == p;
        assert r[i] == HarmonizedOLI(p);
      }
    }
    r
  }
}
