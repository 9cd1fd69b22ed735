/** earth-engine/landtrendr/postprocess.py: LandTrendr segment data, event
    selection and flattening, stated for one pixel. The LandTrendr output array
    of a pixel is a sequence of columns (year, source value, fitted value,
    vertex flag). */
module Segments {
  import opened Wrappers
  import opened Seqs
  import opened SpectralIndex

  /** One column of the 4 x N `LandTrendr` band. */
  datatype LtColumn = LtColumn(year: int, source: real, fitted: real, isVertex: real)

  /** One column of the 8 x (V-1) segment array; `rate` and `dsnr` are 0 where
      their divisor is zero, as `divide` gives them. */
  datatype Segment = Segment(yod: int, endYr: int, startVal: real, endVal: real, mag: real,
                             dur: int, rate: real, dsnr: real)

  /** Years strictly ascending, as in the year row of the LandTrendr array. */
  predicate StrictlyAscendingYears(vs: seq<LtColumn>)
  {
    forall i, j :: 0 <= i < j < |vs| ==> vs[i].year < vs[j].year
  }

  /** Dropping columns keeps the years of the rest strictly ascending. */
  lemma {:induction false} FilterKeepsAscending(cols: seq<LtColumn>, p: LtColumn -> bool)
    requires StrictlyAscendingYears(cols)
    ensures StrictlyAscendingYears(Filter(cols, p))
  {
    if cols != [] {
      var tail := cols[1..];
      var rest := Filter(tail, p);
      FilterKeepsAscending(tail, p);
      if p(cols[0]) {
        var r := [cols[0]] + rest;
        assert Filter(cols, p) == r;
        forall i, j | 0 <= i < j < |r|
          ensures r[i].year < r[j].year
        {
          if i == 0 {
            var c := rest[j - 1];
            assert c in tail;
            var k :| 0 <= k < |tail| && tail[k] == c;
            assert cols[k + 1] == c;
          } else {
            assert r[i] == rest[i - 1] && r[j] == rest[j - 1];
          }
        }
      } else {
        assert Filter(cols, p) == rest;
      }
    }
  }

  /** `arrayMask(vertex_mask)`: the columns flagged as vertices, each as often as
      it occurs, in column order. */
  function VertexColumns(cols: seq<LtColumn>): (vs: seq<LtColumn>)
    ensures |vs| <= |cols|
    ensures forall c :: c in vs <==> c in cols && c.isVertex != 0.0
    ensures forall c :: multiset(vs)[c] == if c.isVertex != 0.0 then multiset(cols)[c] else 0
    ensures StrictlyAscendingYears(cols) ==> StrictlyAscendingYears(vs)
  {
    var p := (c: LtColumn) => c.isVertex != 0.0;
    assert StrictlyAscendingYears(cols) ==> StrictlyAscendingYears(Filter(cols, p)) by {
      if StrictlyAscendingYears(cols) {
        FilterKeepsAscending(cols, p);
      }
    }
    Filter(cols, p)
  }

  /** The sign applied to fitted values: the index's disturbance direction when
      `right` is set, 1 otherwise. */
  function Direction(info: IndexInfo, right: bool): (d: int)
    ensures right ==> d == info.distDir
    ensures !right ==> d == 1
  {
    if right then info.distDir else 1
  }

  /** `multiply(dir)` by a direction of 1 or -1. */
  function Orient(x: real, dir: int): (y: real)
    requires dir == 1 || dir == -1
    ensures y == x * dir as real
    ensures dir == 1 ==> y == x
    ensures dir == -1 ==> y == -x
  {
    x * dir as real
  }

  /** `a.divide(b)`: Earth Engine's image division, which gives 0 for a division
      by 0. */
  function Divide(a: real, b: real): (q: real)
    ensures b == 0.0 ==> q == 0.0
    ensures b != 0.0 ==> q * b == a
  {
    if b == 0.0 then 0.0 else a / b
  }

  /** The segment between consecutive vertices `v0` and `v1`: it starts the year
      after `v0` and ends at `v1`; values are oriented by `dir`. */
  function MakeSegment(v0: LtColumn, v1: LtColumn, dir: int, rmse: real): (s: Segment)
    requires dir == 1 || dir == -1
    ensures s.yod == v0.year + 1 && s.endYr == v1.year
    ensures s.startVal == v0.fitted * dir as real && s.endVal == v1.fitted * dir as real
    ensures s.mag == v1.fitted - v0.fitted
    ensures s.dur == v1.year - v0.year == s.endYr - s.yod + 1
    ensures s.dur != 0 ==> s.rate == s.mag / s.dur as real
    ensures s.dur == 0 ==> s.rate == 0.0
    ensures rmse != 0.0 ==> s.dsnr == s.mag / rmse
    ensures rmse == 0.0 ==> s.dsnr == 0.0
  {
    var startVal := Orient(v0.fitted, dir);
    var endVal := Orient(v1.fitted, dir);
    var dur := v1.year - v0.year;
    var mag := Orient(endVal - startVal, dir);
    Segment(v0.year + 1, v1.year, startVal, endVal, mag, dur, Divide(mag, dur as real), Divide(mag, rmse))
  }

  /** The `left`/`right` slices of the vertex array zipped into segments. */
  function SegmentsOf(vs: seq<LtColumn>, dir: int, rmse: real): (segs: seq<Segment>)
    requires dir == 1 || dir == -1
    ensures |segs| == if vs == [] then 0 else |vs| - 1
    ensures forall i :: 0 <= i < |segs| ==> segs[i] == MakeSegment(vs[i], vs[i + 1], dir, rmse)
  {
    if vs == [] then []
    else
      var left := vs[..|vs| - 1];
      var right := vs[1..];
      seq(|left|, i requires 0 <= i < |left| => MakeSegment(left[i], right[i], dir, rmse))
  }

  /** `get_segment_data`: raises for an unsupported index, otherwise one segment per
      pair of consecutive vertices. */
  function GetSegmentData(cols: seq<LtColumn>, rmse: real, index: string, right: bool): (r: Result<seq<Segment>, IndexError>)
    ensures r.Err? <==> LookupIndex(index).Err?
    ensures r.Err? ==> r.error == LookupIndex(index).error
    ensures r.Ok? ==> r.value == SegmentsOf(VertexColumns(cols), Direction(LookupIndex(index).value, right), rmse)
  {
    match LookupIndex(index)
    case Err(e) => Err(e)
    case Ok(info) => Ok(SegmentsOf(VertexColumns(cols), Direction(info, right), rmse))
  }

  /** Consecutive segments share their vertex: each ends the year before the next
      one's year of detection, and its end value is the next one's start value. */
  lemma SegmentsChainVertices(cols: seq<LtColumn>, rmse: real, index: string, right: bool, i: int)
    requires GetSegmentData(cols, rmse, index, right).Ok?
    requires 0 <= i < |GetSegmentData(cols, rmse, index, right).value| - 1
    ensures var segs := GetSegmentData(cols, rmse, index, right).value;
            segs[i].endYr == segs[i + 1].yod - 1 && segs[i].endVal == segs[i + 1].startVal
  {
    var dir := Direction(LookupIndex(index).value, right);
    var vs := VertexColumns(cols);
    var segs := SegmentsOf(vs, dir, rmse);
    assert segs[i] == MakeSegment(vs[i], vs[i + 1], dir, rmse);
    assert segs[i + 1] == MakeSegment(vs[i + 1], vs[i + 2], dir, rmse);
  }

  /** With ascending vertex years every segment lasts at least one year, so its
      rate is the magnitude per year, never the 0 of a division by 0. */
  lemma DurationPositive(vs: seq<LtColumn>, dir: int, rmse: real)
    requires dir == 1 || dir == -1
    requires StrictlyAscendingYears(vs)
    ensures forall s :: s in SegmentsOf(vs, dir, rmse) ==>
              s.dur >= 1 && s.rate == s.mag / s.dur as real && s.yod <= s.endYr
  {
    var segs := SegmentsOf(vs, dir, rmse);
    forall s | s in segs
      ensures s.dur >= 1 && s.rate == s.mag / s.dur as real && s.yod <= s.endYr
    {
      var i :| 0 <= i < |segs| && segs[i] == s;
      assert s == MakeSegment(vs[i], vs[i + 1], dir, rmse);
      SegmentRate(vs[i], vs[i + 1], dir, rmse);
    }
  }

  /** A segment between vertices of ascending years has its magnitude per year as
      its rate. */
  lemma SegmentRate(v0: LtColumn, v1: LtColumn, dir: int, rmse: real)
    requires dir == 1 || dir == -1
    requires v0.year < v1.year
    ensures var s := MakeSegment(v0, v1, dir, rmse);
            s.dur >= 1 && s.rate == s.mag / s.dur as real && s.yod <= s.endYr
  {
  }

  /** For LandTrendr output, whose years ascend, every segment `get_segment_data`
      returns lasts at least one year, has the magnitude per year as its rate, and
      ends no earlier than it starts. */
  lemma SegmentDataDurations(cols: seq<LtColumn>, rmse: real, index: string, right: bool)
    requires StrictlyAscendingYears(cols)
    requires LookupIndex(index).Ok?
    ensures GetSegmentData(cols, rmse, index, right).Ok?
    ensures forall s :: s in GetSegmentData(cols, rmse, index, right).value ==>
              s.dur >= 1 && s.rate == s.mag / s.dur as real && s.yod <= s.endYr
  {
    DurationPositive(VertexColumns(cols), Direction(LookupIndex(index).value, right), rmse);
  }

  /** The magnitude is the change of the fitted value whatever the orientation. */
  lemma MagnitudeIgnoresDirection(cols: seq<LtColumn>, rmse: real, index: string)
    requires LookupIndex(index).Ok?
    ensures var a := GetSegmentData(cols, rmse, index, true).value;
            var b := GetSegmentData(cols, rmse, index, false).value;
            |a| == |b|
            && forall i :: 0 <= i < |a| ==>
                 a[i].mag == b[i].mag && a[i].startVal == -b[i].startVal && a[i].endVal == -b[i].endVal
  {
    var vs := VertexColumns(cols);
    var a := SegmentsOf(vs, -1, rmse);
    var b := SegmentsOf(vs, 1, rmse);
    assert GetSegmentData(cols, rmse, index, true).value == a;
    assert GetSegmentData(cols, rmse, index, false).value == b;
    forall i | 0 <= i < |a|
      ensures a[i].mag == b[i].mag && a[i].startVal == -b[i].startVal && a[i].endVal == -b[i].endVal
    {
      assert a[i] == MakeSegment(vs[i], vs[i + 1], -1, rmse);
      assert b[i] == MakeSegment(vs[i], vs[i + 1], 1, rmse);
      OrientationFlips(vs[i], vs[i + 1], rmse);
    }
  }

  /** One segment built with either orientation: the same magnitude, negated
      values. */
  lemma OrientationFlips(v0: LtColumn, v1: LtColumn, rmse: real)
    ensures var a := MakeSegment(v0, v1, -1, rmse);
            var b := MakeSegment(v0, v1, 1, rmse);
            a.mag == b.mag && a.startVal == -b.startVal && a.endVal == -b.endVal
  {
  }

  /** Vertices at 2000 (fitted 200) and 2005 (fitted 50), oriented by -1, with an
      RMSE of 20: one segment detected in 2001 that ends in 2005 and lasts 5 years. */
  lemma SegmentExample()
    ensures var s := MakeSegment(LtColumn(2000, 210.0, 200.0, 1.0), LtColumn(2005, 40.0, 50.0, 1.0), -1, 20.0);
            s == Segment(2001, 2005, -200.0, -50.0, -150.0, 5, -30.0, -7.5)
  {
  }

  /** The mask of `extract_deforestation_events`. */
  predicate Qualifies(s: Segment, startYear: int, endYear: int, dsnrThreshold: real)
  {
    s.yod >= startYear && s.endYr <= endYear && s.dsnr >= dsnrThreshold
  }

  /** With an RMSE of 0 the DSNR of every segment is 0, so a segment inside the
      year range qualifies iff the threshold is at most 0. */
  lemma ZeroRmseQualifies(cols: seq<LtColumn>, index: string, startYear: int, endYear: int, dsnrThreshold: real)
    requires LookupIndex(index).Ok?
    ensures forall s :: s in GetSegmentData(cols, 0.0, index, true).value ==>
              (Qualifies(s, startYear, endYear, dsnrThreshold)
               <==> s.yod >= startYear && s.endYr <= endYear && dsnrThreshold <= 0.0)
  {
    var segs := GetSegmentData(cols, 0.0, index, true).value;
    var vs := VertexColumns(cols);
    var dir := Direction(LookupIndex(index).value, true);
    forall s | s in segs
      ensures s.dsnr == 0.0
    {
      var i :| 0 <= i < |segs| && segs[i] == s;
      assert s == MakeSegment(vs[i], vs[i + 1], dir, 0.0);
    }
  }

  /** Sort key of the events: the negated year of detection. */
  function NegatedYod(s: Segment): real
  {
    -(s.yod as real)
  }

  /** The segments that pass the mask, in order. */
  function QualifyingSegments(segs: seq<Segment>, startYear: int, endYear: int, dsnrThreshold: real): (m: seq<Segment>)
    ensures forall s :: s in m <==> s in segs && Qualifies(s, startYear, endYear, dsnrThreshold)
  {
    Filter(segs, (s: Segment) => Qualifies(s, startYear, endYear, dsnrThreshold))
  }

  /** `sort` by the negated year of detection: the latest segment comes first. */
  function LatestFirst(m: seq<Segment>): (r: seq<Segment>)
    ensures multiset(r) == multiset(m)
    ensures forall i :: 0 <= i < |r| ==> r[i].yod <= r[0].yod
  {
    var r := SortBy(m, NegatedYod);
    assert forall i :: 0 <= i < |r| ==> r[i].yod <= r[0].yod by {
      forall i | 0 < i < |r|
        ensures r[i].yod <= r[0].yod
      {
        assert NegatedYod(r[0]) <= NegatedYod(r[i]);
      }
    }
    r
  }

  /** `extract_deforestation_events`: mask the qualifying segments, sort them by
      descending year of detection and keep the first. */
  function ExtractDeforestationEvents(segs: seq<Segment>, startYear: int, endYear: int, dsnrThreshold: real): (e: Option<Segment>)
    ensures e.None? <==> forall s :: s in segs ==> !Qualifies(s, startYear, endYear, dsnrThreshold)
    ensures e.Some? ==>
      e.value in segs && Qualifies(e.value, startYear, endYear, dsnrThreshold)
      && forall s :: s in segs && Qualifies(s, startYear, endYear, dsnrThreshold) ==> s.yod <= e.value.yod
  {
    var masked := QualifyingSegments(segs, startYear, endYear, dsnrThreshold);
    var sorted := LatestFirst(masked);
    if sorted == [] then
      assert masked == [];
      None
    else
      assert sorted[0] in multiset(masked);
      assert sorted[0] in segs && Qualifies(sorted[0], startYear, endYear, dsnrThreshold);
      assert forall s :: s in segs && Qualifies(s, startYear, endYear, dsnrThreshold) ==> s.yod <= sorted[0].yod by {
        forall s | s in segs && Qualifies(s, startYear, endYear, dsnrThreshold)
          ensures s.yod <= sorted[0].yod
        {
          assert s in multiset(masked);
          var j :| 0 <= j < |sorted| && sorted[j] == s;
        }
      }
      Some(sorted[0])
  }

  /** Output band names of `extract_deforested_regions`, in order. */
  const EVENT_BANDS: seq<string> := ["yod", "endYr", "startVal", "endVal", "mag", "dur", "rate", "dsnr"]

  /** A named band value of the flattened image; `None` where masked. */
  datatype Channel = Channel(name: string, value: Option<real>)

  /** The eight rows of the selected event as named single-value bands. */
  function FlattenEvent(e: Option<Segment>): (r: seq<Channel>)
    ensures |r| == |EVENT_BANDS| && forall k :: 0 <= k < |r| ==> r[k].name == EVENT_BANDS[k]
    ensures e.None? <==> forall k :: 0 <= k < |r| ==> r[k].value.None?
    ensures e.Some? ==>
      r[0].value == Some(e.value.yod as real) && r[1].value == Some(e.value.endYr as real)
      && r[2].value == Some(e.value.startVal) && r[3].value == Some(e.value.endVal)
      && r[4].value == Some(e.value.mag) && r[5].value == Some(e.value.dur as real)
      && r[6].value == Some(e.value.rate) && r[7].value == Some(e.value.dsnr)
  {
    match e
    case None => seq(|EVENT_BANDS|, k requires 0 <= k < |EVENT_BANDS| => Channel(EVENT_BANDS[k], None))
    case Some(s) =>
      var r := [Channel("yod", Some(s.yod as real)), Channel("endYr", Some(s.endYr as real)),
       Channel("startVal", Some(s.startVal)), Channel("endVal", Some(s.endVal)),
       Channel("mag", Some(s.mag)), Channel("dur", Some(s.dur as real)),
       Channel("rate", Some(s.rate)), Channel("dsnr", Some(s.dsnr))];
      assert r[0].value.Some?;
      r
  }

  /** `extract_deforested_regions`: segments oriented by the index direction, the
      most recent qualifying one, flattened to eight bands. */
  function ExtractDeforestedRegions(cols: seq<LtColumn>, rmse: real, index: string,
                                    startYear: int, endYear: int, dsnrThreshold: real): (r: Result<seq<Channel>, IndexError>)
    ensures r.Err? <==> LookupIndex(index).Err?
    ensures r.Err? ==> r.error == LookupIndex(index).error
    ensures r.Ok? ==>
      var segs := GetSegmentData(cols, rmse, index, true).value;
      r.value == FlattenEvent(ExtractDeforestationEvents(segs, startYear, endYear, dsnrThreshold))
  {
    match GetSegmentData(cols, rmse, index, true)
    case Err(e) => Err(e)
    case Ok(segs) => Ok(FlattenEvent(ExtractDeforestationEvents(segs, startYear, endYear, dsnrThreshold)))
  }

  /** The flattened image is masked exactly where no segment between two vertices
      qualifies; otherwise its year of detection is the latest qualifying one. */
  lemma DeforestedRegionsMasked(cols: seq<LtColumn>, rmse: real, index: string,
                                startYear: int, endYear: int, dsnrThreshold: real)
    requires LookupIndex(index).Ok?
    ensures var r := ExtractDeforestedRegions(cols, rmse, index, startYear, endYear, dsnrThreshold).value;
            var segs := GetSegmentData(cols, rmse, index, true).value;
            |r| == 8
            && ((forall k :: 0 <= k < 8 ==> r[k].value.None?)
                <==> forall s :: s in segs ==> !Qualifies(s, startYear, endYear, dsnrThreshold))
            && (forall s :: s in segs && Qualifies(s, startYear, endYear, dsnrThreshold) ==>
                  r[0].value.Some? && s.yod as real <= r[0].value.value)
  {
  }
}
