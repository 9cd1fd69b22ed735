/** `build_LT_collection` of earth-engine/landtrendr/preprocess.py: per yearly
    composite, a leading disturbance-oriented index band followed by the
    requested bands renamed `ftv_<band>`, stated for one pixel. */
module LtCollection {
  import opened Wrappers
  import opened Calendar
  import opened Seqs
  import opened Harmonize
  import opened Composite
  import opened SpectralIndex

  /** A named band value of an output image; `None` where the pixel is masked. */
  datatype Band = Band(name: string, value: Option<real>)

  /** One image of the LandTrendr input collection at a pixel. */
  datatype LtImage = LtImage(time: Option<Instant>, bands: seq<Band>)

  /** Scale of the index band. */
  const INDEX_SCALE: int := 1000

  /** `normalizedDifference([a, b])` = (a - b) / (a + b). Earth Engine masks the
      output where either input is negative; it is also masked here when a + b = 0. */
  function NormalizedDifference(a: int, b: int): (nd: Option<real>)
    ensures nd.None? <==> a < 0 || b < 0 || a + b == 0
    ensures nd.Some? ==> nd.value * (a + b) as real == (a - b) as real
  {
    if a < 0 || b < 0 || a + b == 0 then None else Some((a - b) as real / (a + b) as real)
  }

  /** A quotient by a positive number whose numerator lies within plus or minus
      that number lies in [-1, 1]. */
  lemma UnitQuotient(n: real, s: real)
    requires s > 0.0 && -s <= n <= s
    ensures -1.0 <= n / s <= 1.0
  {
  }

  /** For non-negative reflectances the normalised difference lies in [-1, 1]. */
  lemma NormalizedDifferenceBounded(a: int, b: int)
    requires a >= 0 && b >= 0 && a + b > 0
    ensures -1.0 <= NormalizedDifference(a, b).value <= 1.0
  {
    UnitQuotient((a - b) as real, (a + b) as real);
  }

  /** Value of canonical band `b` in a six-band pixel. */
  function BandValue(bands: seq<int>, b: Canonical): int
    requires |bands| == 6
  {
    bands[BandPosition(b)]
  }

  /** The index band at a pixel: the normalised difference of the index's two
      bands, turned by the disturbance direction and scaled by 1000. */
  function IndexValue(bands: Option<seq<int>>, info: IndexInfo): (v: Option<real>)
    requires bands.Some? ==> |bands.value| == 6
    requires |info.bands| == 2
    ensures bands.None? ==> v.None?
    ensures bands.Some? ==>
      var a := BandValue(bands.value, info.bands[0]);
      var b := BandValue(bands.value, info.bands[1]);
      (v.None? <==> a < 0 || b < 0 || a + b == 0)
      && (v.Some? ==> v.value == NormalizedDifference(a, b).value * (info.distDir * INDEX_SCALE) as real)
  {
    match bands
    case None => None
    case Some(px) =>
      var nd := NormalizedDifference(BandValue(px, info.bands[0]), BandValue(px, info.bands[1]));
      if nd.None? then None else Some(nd.value * (info.distDir * INDEX_SCALE) as real)
  }

  /** A feature band `ftv_<name>`: the untransformed band value. */
  function FtvBand(bands: Option<seq<int>>, b: Canonical): (r: Band)
    requires bands.Some? ==> |bands.value| == 6
    ensures r.name == "ftv_" + BandName(b)
    ensures r.value.None? <==> bands.None?
    ensures bands.Some? ==> r.value.value == bands.value[BandPosition(b)] as real
  {
    Band("ftv_" + BandName(b), if bands.None? then None else Some(BandValue(bands.value, b) as real))
  }

  /** `_format_images`: the index band named after the index, then the feature bands. */
  function FormatImage(img: YearImage, index: string, info: IndexInfo, ftvList: seq<Canonical>): (r: LtImage)
    requires img.bands.Some? ==> |img.bands.value| == 6
    requires |info.bands| == 2
    ensures r.time == img.time && |r.bands| == 1 + |ftvList|
    ensures r.bands[0] == Band(index, IndexValue(img.bands, info))
    ensures forall k :: 0 <= k < |ftvList| ==> r.bands[k + 1] == FtvBand(img.bands, ftvList[k])
  {
    var ftv := seq(|ftvList|, k requires 0 <= k < |ftvList| => FtvBand(img.bands, ftvList[k]));
    LtImage(img.time, [Band(index, IndexValue(img.bands, info))] + ftv)
  }

  /** `build_LT_collection`: look the index up (raising on unsupported names), then
      format every composite. */
  function BuildLTCollection(coll: seq<YearImage>, index: string, ftvList: seq<Canonical>): (r: Result<seq<LtImage>, IndexError>)
    requires forall img :: img in coll && img.bands.Some? ==> |img.bands.value| == 6
    ensures r.Err? <==> LookupIndex(index).Err?
    ensures r.Err? ==> r.error == LookupIndex(index).error
    ensures r.Ok? ==>
      |r.value| == |coll|
      && forall i :: 0 <= i < |coll| ==> r.value[i] == FormatImage(coll[i], index, LookupIndex(index).value, ftvList)
  {
    match LookupIndex(index)
    case Err(e) => Err(e)
    case Ok(info) =>
      Ok(seq(|coll|, i requires 0 <= i < |coll| => FormatImage(coll[i], index, info, ftvList)))
  }

  /** With a decreasing disturbance direction the index band is -1000 times the
      normalised difference, and for non-negative reflectances it lies in
      [-1000, 1000]. */
  lemma IndexValueOrientation(px: seq<int>, info: IndexInfo)
    requires |px| == 6 && forall k :: 0 <= k < 6 ==> px[k] >= 0
    requires |info.bands| == 2
    requires info.distDir == -1
    ensures var a := BandValue(px, info.bands[0]);
            var b := BandValue(px, info.bands[1]);
            var v := IndexValue(Some(px), info);
            a + b > 0 ==>
              v.Some? && v.value == -1000.0 * NormalizedDifference(a, b).value
              && -1000.0 <= v.value <= 1000.0
  {
    var a := BandValue(px, info.bands[0]);
    var b := BandValue(px, info.bands[1]);
    if a + b > 0 {
      NormalizedDifferenceBounded(a, b);
    }
  }

  /** For both supported indices the leading band is -1000 times the normalised
      difference of B4 and the second band, so that vegetation loss raises it, and
      for non-negative reflectances it lies in [-1000, 1000]. */
  lemma IndexBandOrientation(img: YearImage, index: string, ftvList: seq<Canonical>)
    requires index == "NDVI" || index == "NBR"
    requires img.bands.Some? && |img.bands.value| == 6
    requires forall k :: 0 <= k < 6 ==> img.bands.value[k] >= 0
    ensures var info := LookupIndex(index).value;
            var b4 := BandValue(img.bands.value, B4);
            var other := BandValue(img.bands.value, info.bands[1]);
            var v := FormatImage(img, index, info, ftvList).bands[0].value;
            b4 + other > 0 ==>
              v.Some? && v.value == -1000.0 * NormalizedDifference(b4, other).value
              && -1000.0 <= v.value <= 1000.0
  {
    var info := LookupIndex(index).value;
    assert info.distDir == -1 && info.bands[0] == B4;
    IndexValueOrientation(img.bands.value, info);
  }
}
