/** earth-engine/build_SR_collection.py: the standalone copy of the compositing
    half of preprocess.py. Masking, band maps, recalibration, merging, the year
    list and the medoid are the same functions (modules Harmonize and Composite);
    the one difference is that its `extract_medoid_image` sets no
    `system:time_start` on the composites. */
module BuildSr {
  import opened Wrappers
  import opened Calendar
  import opened Harmonize
  import opened Composite

  /** `generate_medioid_collection`: one unstamped reducer output per year, in order. */
  function GenerateMedioidCollection(coll: seq<Obs>, startDay: MonthDay, endDay: MonthDay): (r: seq<Composite>)
    requires ValidMonthDay(startDay) && ValidMonthDay(endDay) && WellFormedSeries(coll)
    ensures var years := CreateYearlyList(coll);
            |r| == |years|
            && forall i :: 0 <= i < |r| ==>
                 r[i].time.None? && r[i].record == MedoidRecord(years[i], coll, startDay, endDay)
  {
    var years := CreateYearlyList(coll);
    seq(|years|, i requires 0 <= i < |years| => Composite(None, MedoidRecord(years[i], coll, startDay, endDay)))
  }

  /** `main`: merge the three sensors, composite each year, keep bands 1..6 as B1..B7. */
  function MainCollection(l5: seq<RawPixel>, l7: seq<RawPixel>, l8: seq<RawPixel>,
                          startYear: int, startDay: MonthDay, endYear: int, endDay: MonthDay): (r: seq<YearImage>)
    requires ValidMonthDay(startDay) && ValidMonthDay(endDay) && Archives(l5, l7, l8)
    ensures var merged := BuildCombinedLandsat(l5, l7, l8, startYear, startDay, endYear, endDay);
            |r| == |CreateYearlyList(merged)|
            && forall i :: 0 <= i < |r| ==> r[i].time.None?
  {
    var merged := BuildCombinedLandsat(l5, l7, l8, startYear, startDay, endYear, endDay);
    SelectAllBands(GenerateMedioidCollection(merged, startDay, endDay))
  }

  /** The two copies of the pipeline produce the same composites pixel for pixel;
      only preprocess.py stamps them with January 1 of their year. */
  lemma MainMatchesBuildSRCollection(l5: seq<RawPixel>, l7: seq<RawPixel>, l8: seq<RawPixel>,
                                     startYear: int, startDay: MonthDay, endYear: int, endDay: MonthDay)
    requires ValidMonthDay(startDay) && ValidMonthDay(endDay) && Archives(l5, l7, l8)
    ensures var a := MainCollection(l5, l7, l8, startYear, startDay, endYear, endDay);
            var b := BuildSRCollection(l5, l7, l8, startYear, startDay, endYear, endDay);
            |a| == |b|
            && forall i :: 0 <= i < |a| ==> a[i].bands == b[i].bands && a[i].time.None? && b[i].time.Some?
  {
    var merged := BuildCombinedLandsat(l5, l7, l8, startYear, startDay, endYear, endDay);
    var a := MainCollection(l5, l7, l8, startYear, startDay, endYear, endDay);
    var b := BuildSRCollection(l5, l7, l8, startYear, startDay, endYear, endDay);
    var ca := GenerateMedioidCollection(merged, startDay, endDay);
    var cb := GenerateMedoidCollection(merged, startDay, endDay);
    forall i | 0 <= i < |a|
      ensures a[i].bands == b[i].bands
    {
      assert ca[i].record == cb[i].record;
    }
  }
}
