/** Archive merging and yearly medoid compositing of
    earth-engine/landtrendr/preprocess.py, stated for one pixel: the merged
    series is the pixel's observations, one per image, in collection order. */
module Composite {
  import opened Wrappers
  import opened Calendar
  import opened Seqs
  import opened Harmonize

  /** The output of `Reducer.min(7)` at a pixel: the smallest distance and the six
      bands that were reduced along with it. */
  datatype MinRecord = MinRecord(distance: real, bands: seq<int>)

  /** One yearly medoid image at a pixel: its `system:time_start`, if set, and the
      reducer output, `None` where the pixel is masked. */
  datatype Composite = Composite(time: Option<Instant>, record: Option<MinRecord>)

  /** A composite after the final `select([1..6], [B1..B7])`: time and six bands. */
  datatype YearImage = YearImage(time: Option<Instant>, bands: Option<seq<int>>)

  /** Every observation of the series is well formed. */
  predicate WellFormedSeries(coll: seq<Obs>) {
    forall o :: o in coll ==> WellFormedObs(o)
  }

  /** `_build_combined_Landsat`: Landsat 5, then Landsat 7, then Landsat 8, merged
      without reordering or removing duplicates. */
  function BuildCombinedLandsat(l5: seq<RawPixel>, l7: seq<RawPixel>, l8: seq<RawPixel>,
                                startYear: int, startDay: MonthDay, endYear: int, endDay: MonthDay): (r: seq<Obs>)
    requires ValidMonthDay(startDay) && ValidMonthDay(endDay)
    requires RawArchive(l5, TM_BANDS) && RawArchive(l7, TM_BANDS) && RawArchive(l8, OLI_BANDS)
    requires forall p :: p in l8 ==> RecalibrationFits(PrepareOLI(p))
    ensures WellFormedSeries(r)
    ensures var a := BuildTMCollection(l5, startYear, startDay, endYear, endDay);
            var b := BuildTMCollection(l7, startYear, startDay, endYear, endDay);
            var c := BuildOLICollection(l8, startYear, startDay, endYear, endDay);
            |r| == |a| + |b| + |c| && r[..|a|] == a && r[|a|..|a| + |b|] == b && r[|a| + |b|..] == c
  {
    BuildTMCollection(l5, startYear, startDay, endYear, endDay)
    + BuildTMCollection(l7, startYear, startDay, endYear, endDay)
    + BuildOLICollection(l8, startYear, startDay, endYear, endDay)
  }

  /** `_extract_and_append_date` folded over the collection by `iterate`. */
  function AppendDates(coll: seq<Obs>, acc: seq<Instant>): (r: seq<Instant>)
    ensures |r| == |acc| + |coll|
    ensures forall i :: 0 <= i < |acc| ==> r[i] == acc[i]
    ensures forall i :: 0 <= i < |coll| ==> r[|acc| + i] == coll[i].time
  {
    if coll == [] then acc else AppendDates(coll[1..], acc + [coll[0].time])
  }

  /** `_create_yearly_list`: the years of all dates, `distinct()`, then `sort()`. */
  function CreateYearlyList(coll: seq<Obs>): (years: seq<int>)
    ensures forall i, j :: 0 <= i < j < |years| ==> years[i] < years[j]
    ensures forall y :: y in years <==> exists o :: o in coll && o.time.date.year == y
  {
    var dates := AppendDates(coll, []);
    var ys := seq(|dates|, i requires 0 <= i < |dates| => dates[i].date.year);
    assert forall y :: y in ys <==> exists o :: o in coll && o.time.date.year == y by {
      forall y ensures y in ys <==> exists o :: o in coll && o.time.date.year == y {
        if y in ys {
          var i :| 0 <= i < |ys| && ys[i] == y;
          assert coll[i] in coll && coll[i].time.date.year == y;
        }
        if exists o :: o in coll && o.time.date.year == y {
          var o :| o in coll && o.time.date.year == y;
          var i :| 0 <= i < |coll| && coll[i] == o;
          assert ys[i] == y;
        }
      }
    }
    UniqueSorted(ys)
  }

  /** The compositing window of year `year`, `filterDate(Y-startDay, (Y-endDay).advance(1, "day"))`. */
  predicate InYearWindow(t: Instant, year: int, startDay: MonthDay, endDay: MonthDay)
    requires ValidMonthDay(startDay) && ValidMonthDay(endDay)
  {
    InDateRange(t, Midnight(OnYear(startDay, year)), Midnight(NextDay(OnYear(endDay, year))))
  }

  /** The yearly window includes both its start day and its end day, and nothing
      outside year `year`. */
  lemma YearWindowInclusive(t: Instant, year: int, startDay: MonthDay, endDay: MonthDay)
    requires ValidInstant(t) && ValidMonthDay(startDay) && ValidMonthDay(endDay)
    ensures InYearWindow(t, year, startDay, endDay)
            <==> DayAtMost(OnYear(startDay, year), t.date) && DayAtMost(t.date, OnYear(endDay, year))
    ensures InYearWindow(t, year, startDay, endDay) ==> t.date.year == year
  {
    FilterDateInclusive(t, OnYear(startDay, year), OnYear(endDay, year));
  }

  /** `collection.filterDate(...)` for year `year`: every in-window observation,
      as often as it occurs, in collection order. */
  function YearFilter(coll: seq<Obs>, year: int, startDay: MonthDay, endDay: MonthDay): (f: seq<Obs>)
    requires ValidMonthDay(startDay) && ValidMonthDay(endDay)
    ensures forall o :: o in f <==> o in coll && InYearWindow(o.time, year, startDay, endDay)
    ensures forall o {:trigger multiset(f)[o]} ::
              multiset(f)[o] == if InYearWindow(o.time, year, startDay, endDay) then multiset(coll)[o] else 0
  {
    Filter(coll, (o: Obs) => InYearWindow(o.time, year, startDay, endDay))
  }

  /** Number of unmasked observations. */
  function CountValid(f: seq<Obs>): (n: nat)
    ensures n <= |f|
    ensures n == 0 <==> forall o :: o in f ==> !o.valid
  {
    if f == [] then 0 else (if f[0].valid then 1 else 0) + CountValid(f[1..])
  }

  /** Band `b` of the unmasked observations: the values a per-band median reduces. */
  function BandValues(f: seq<Obs>, b: nat): (vs: seq<int>)
    requires b < 6 && forall o :: o in f ==> |o.bands| == 6
    ensures |vs| == CountValid(f)
    ensures forall v :: v in vs <==> exists o :: o in f && o.valid && o.bands[b] == v
  {
    if f == [] then []
    else
      var rest := BandValues(f[1..], b);
      assert forall o :: o in f <==> o == f[0] || o in f[1..];
      if f[0].valid then [f[0].bands[b]] + rest else rest
  }

  /** Median of an ascending sequence: the middle value, or the mean of the two
      middle values for an even count. */
  function MedianOfSorted(s: seq<int>): (m: real)
    requires |s| > 0 && SortedBy(s, IntKey)
    ensures s[0] as real <= m <= s[|s| - 1] as real
  {
    var n := |s|;
    assert IntKey(s[0]) <= IntKey(s[n / 2]) <= IntKey(s[n - 1]);
    if n % 2 == 1 then s[n / 2] as real
    else
      assert IntKey(s[0]) <= IntKey(s[n / 2 - 1]) <= IntKey(s[n - 1]);
      (s[n / 2 - 1] + s[n / 2]) as real / 2.0
  }

  /** Median of a non-empty multiset of values: it lies between two of them. */
  function Median(vs: seq<int>): (m: real)
    requires |vs| > 0
    ensures exists i, j :: 0 <= i < |vs| && 0 <= j < |vs| && vs[i] as real <= m <= vs[j] as real
  {
    var s := SortBy(vs, IntKey);
    SameElements(s, vs, s[0]);
    SameElements(s, vs, s[|s| - 1]);
    MedianOfSorted(s)
  }

  /** `filtered_collection.median()` at a pixel: per band, the median of the
      unmasked values; no data when every observation is masked. */
  function MedianImage(f: seq<Obs>): (m: Option<seq<real>>)
    requires forall o :: o in f ==> |o.bands| == 6
    ensures m.None? <==> CountValid(f) == 0
    ensures m.Some? ==> (|m.value| == 6
      && forall b :: 0 <= b < 6 ==> m.value[b] == Median(BandValues(f, b)))
  {
    if CountValid(f) == 0 then None
    else Some(seq(6, b requires 0 <= b < 6 => Median(BandValues(f, b))))
  }

  /** The median of a band's unmasked values lies between that band's values in
      two unmasked observations. */
  lemma BandMedianBetween(f: seq<Obs>, b: nat)
    requires forall o :: o in f ==> |o.bands| == 6
    requires CountValid(f) > 0 && b < 6
    ensures exists o, o' :: o in f && o.valid && o' in f && o'.valid
              && o.bands[b] as real <= Median(BandValues(f, b)) <= o'.bands[b] as real
  {
    var vs := BandValues(f, b);
    var m := Median(vs);
    var i, j :| 0 <= i < |vs| && 0 <= j < |vs| && vs[i] as real <= m <= vs[j] as real;
    assert vs[i] in vs && vs[j] in vs;
    var o :| o in f && o.valid && o.bands[b] == vs[i];
    var o' :| o' in f && o'.valid && o'.bands[b] == vs[j];
  }

  /** Each band of the median image lies between the values of that band in two
      unmasked observations. */
  lemma MedianImageBetweenObservations(f: seq<Obs>, b: nat)
    requires forall o :: o in f ==> |o.bands| == 6
    requires MedianImage(f).Some? && b < 6
    ensures exists o, o' :: o in f && o.valid && o' in f && o'.valid
              && o.bands[b] as real <= MedianImage(f).value[b] <= o'.bands[b] as real
  {
    BandMedianBetween(f, b);
  }

  /** `_euclidean_distance` reduced with "sum": the squared Euclidean distance. */
  function SqDistance(bands: seq<int>, centre: seq<real>): (d: real)
    requires |bands| == |centre|
    ensures d >= 0.0
    ensures (forall k :: 0 <= k < |bands| ==> bands[k] as real == centre[k]) ==> d == 0.0
  {
    if bands == [] then 0.0
    else
      var diff := bands[0] as real - centre[0];
      assert diff * diff >= 0.0;
      diff * diff + SqDistance(bands[1..], centre[1..])
  }

  /** `Reducer.min(7)` over the images [distance, B1..B7]: masked observations are
      skipped; among equal distances the earliest in collection order is kept. */
  function ReduceMin(f: seq<Obs>, centre: seq<real>): (r: Option<MinRecord>)
    requires |centre| == 6 && forall o :: o in f ==> |o.bands| == 6
    ensures r.None? <==> forall o :: o in f ==> !o.valid
    ensures r.Some? ==>
      exists o :: o in f && o.valid && r.value == MinRecord(SqDistance(o.bands, centre), o.bands)
    ensures r.Some? ==> forall o :: o in f && o.valid ==> r.value.distance <= SqDistance(o.bands, centre)
  {
    if f == [] then None
    else
      var rest := ReduceMin(f[1..], centre);
      assert forall o :: o in f <==> o == f[0] || o in f[1..];
      if !f[0].valid then rest
      else
        var d := SqDistance(f[0].bands, centre);
        if rest.Some? && rest.value.distance < d then rest
        else Some(MinRecord(d, f[0].bands))
  }

  /** The reducer output of one year at a pixel (`extract_medoid_image` of
      earth-engine/build_SR_collection.py, which sets no time stamp). */
  function MedoidRecord(year: int, coll: seq<Obs>, startDay: MonthDay, endDay: MonthDay): (r: Option<MinRecord>)
    requires ValidMonthDay(startDay) && ValidMonthDay(endDay) && WellFormedSeries(coll)
    ensures r.None? <==> forall o :: o in coll && InYearWindow(o.time, year, startDay, endDay) ==> !o.valid
    ensures r.Some? ==> MedianImage(YearFilter(coll, year, startDay, endDay)).Some?
  {
    var f := YearFilter(coll, year, startDay, endDay);
    match MedianImage(f)
    case None => None
    case Some(centre) => ReduceMin(f, centre)
  }

  /** The medoid property: a composite pixel is exactly one unmasked observation of
      the year's window, and no other such observation is closer to the per-band median. */
  lemma MedoidIsClosestObservation(year: int, coll: seq<Obs>, startDay: MonthDay, endDay: MonthDay)
    requires ValidMonthDay(startDay) && ValidMonthDay(endDay) && WellFormedSeries(coll)
    requires MedoidRecord(year, coll, startDay, endDay).Some?
    ensures var rec := MedoidRecord(year, coll, startDay, endDay).value;
            var centre := MedianImage(YearFilter(coll, year, startDay, endDay)).value;
            (exists o :: o in coll && o.valid && InYearWindow(o.time, year, startDay, endDay)
                         && rec.bands == o.bands && rec.distance == SqDistance(o.bands, centre))
            && (forall o :: o in coll && o.valid && InYearWindow(o.time, year, startDay, endDay)
                         ==> rec.distance <= SqDistance(o.bands, centre))
  {
  }

  /** January 1 of `year`, the time stamp given to each composite. */
  function NewYear(year: int): Instant {
    Midnight(Day(year, 1, 1))
  }

  /** `_extract_medoid_image`: the reducer output, stamped January 1 of the year. */
  function ExtractMedoidImage(year: int, coll: seq<Obs>, startDay: MonthDay, endDay: MonthDay): (c: Composite)
    requires ValidMonthDay(startDay) && ValidMonthDay(endDay) && WellFormedSeries(coll)
    ensures c.time == Some(NewYear(year)) && ValidInstant(c.time.value)
    ensures c.record == MedoidRecord(year, coll, startDay, endDay)
  {
    Composite(Some(NewYear(year)), MedoidRecord(year, coll, startDay, endDay))
  }

  /** `_generate_medoid_collection`: one composite per year of the year list, in order. */
  function GenerateMedoidCollection(coll: seq<Obs>, startDay: MonthDay, endDay: MonthDay): (r: seq<Composite>)
    requires ValidMonthDay(startDay) && ValidMonthDay(endDay) && WellFormedSeries(coll)
    ensures var years := CreateYearlyList(coll);
            |r| == |years|
            && forall i :: 0 <= i < |r| ==> r[i] == ExtractMedoidImage(years[i], coll, startDay, endDay)
  {
    var years := CreateYearlyList(coll);
    seq(|years|, i requires 0 <= i < |years| => ExtractMedoidImage(years[i], coll, startDay, endDay))
  }

  /** The composites come out in strictly ascending time, one per year present. */
  lemma CompositesAscending(coll: seq<Obs>, startDay: MonthDay, endDay: MonthDay, i: int, j: int)
    requires ValidMonthDay(startDay) && ValidMonthDay(endDay) && WellFormedSeries(coll)
    requires 0 <= i < j < |GenerateMedoidCollection(coll, startDay, endDay)|
    ensures var r := GenerateMedoidCollection(coll, startDay, endDay);
            InstantBefore(r[i].time.value, r[j].time.value)
  {
    var years := CreateYearlyList(coll);
    assert years[i] < years[j];
  }

  /** `select([1, 2, 3, 4, 5, 6], ["B1", .., "B7"])`: drops the distance band. */
  function SelectBands(c: Composite): (y: YearImage)
    ensures y.time == c.time
    ensures y.bands.Some? <==> c.record.Some?
    ensures c.record.Some? ==> y.bands.value == c.record.value.bands
  {
    YearImage(c.time, if c.record.Some? then Some(c.record.value.bands) else None)
  }

  /** `.select(bands)` mapped over a collection of composites. */
  function SelectAllBands(comps: seq<Composite>): (r: seq<YearImage>)
    ensures |r| == |comps| && forall i :: 0 <= i < |r| ==> r[i] == SelectBands(comps[i])
  {
    seq(|comps|, i requires 0 <= i < |comps| => SelectBands(comps[i]))
  }

  /** The archive of the three sensors is usable by `build_SR_collection`. */
  predicate Archives(l5: seq<RawPixel>, l7: seq<RawPixel>, l8: seq<RawPixel>) {
    RawArchive(l5, TM_BANDS) && RawArchive(l7, TM_BANDS) && RawArchive(l8, OLI_BANDS)
    && forall p :: p in l8 ==> RecalibrationFits(PrepareOLI(p))
  }

  /** `build_SR_collection`: merge, composite each year, keep the six bands. */
  function BuildSRCollection(l5: seq<RawPixel>, l7: seq<RawPixel>, l8: seq<RawPixel>,
                             startYear: int, startDay: MonthDay, endYear: int, endDay: MonthDay): (r: seq<YearImage>)
    requires ValidMonthDay(startDay) && ValidMonthDay(endDay) && Archives(l5, l7, l8)
    ensures var merged := BuildCombinedLandsat(l5, l7, l8, startYear, startDay, endYear, endDay);
            var years := CreateYearlyList(merged);
            |r| == |years|
            && forall i :: 0 <= i < |r| ==>
                 r[i].time == Some(NewYear(years[i]))
                 && (r[i].bands.None? <==> forall o :: o in merged && InYearWindow(o.time, years[i], startDay, endDay) ==> !o.valid)
  {
    var merged := BuildCombinedLandsat(l5, l7, l8, startYear, startDay, endYear, endDay);
    SelectAllBands(GenerateMedoidCollection(merged, startDay, endDay))
  }

  /** Every composite pixel of `build_SR_collection` is the six-band vector of one
      unmasked observation of its year's window, which is closest to the per-band median. */
  lemma BuildSRCollectionIsMedoid(l5: seq<RawPixel>, l7: seq<RawPixel>, l8: seq<RawPixel>,
                                  startYear: int, startDay: MonthDay, endYear: int, endDay: MonthDay, i: int)
    requires ValidMonthDay(startDay) && ValidMonthDay(endDay) && Archives(l5, l7, l8)
    requires 0 <= i < |BuildSRCollection(l5, l7, l8, startYear, startDay, endYear, endDay)|
    requires BuildSRCollection(l5, l7, l8, startYear, startDay, endYear, endDay)[i].bands.Some?
    ensures var merged := BuildCombinedLandsat(l5, l7, l8, startYear, startDay, endYear, endDay);
            var y := CreateYearlyList(merged)[i];
            var v := BuildSRCollection(l5, l7, l8, startYear, startDay, endYear, endDay)[i].bands.value;
            var centre := MedianImage(YearFilter(merged, y, startDay, endDay));
            centre.Some?
            && (exists o :: o in merged && o.valid && InYearWindow(o.time, y, startDay, endDay) && v == o.bands
                  && forall o' :: o' in merged && o'.valid && InYearWindow(o'.time, y, startDay, endDay)
                       ==> SqDistance(o.bands, centre.value) <= SqDistance(o'.bands, centre.value))
  {
    var merged := BuildCombinedLandsat(l5, l7, l8, startYear, startDay, endYear, endDay);
    var y := CreateYearlyList(merged)[i];
    var comps := GenerateMedoidCollection(merged, startDay, endDay);
    assert comps[i] == ExtractMedoidImage(y, merged, startDay, endDay);
    MedoidIsClosestObservation(y, merged, startDay, endDay);
  }
}
