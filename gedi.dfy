/** gedi/process_l2a.py: reading the kept shots of GEDI Level 2A granules into a
    table and appending the canopy metrics to it in place. A granule is a map from
    beam name to its layers; every layer holds one cell per shot. */
module Gedi {
  import opened Wrappers
  import opened GediMetrics

  /** One table cell: a number, a string, an `rh` vector, or NaN (a masked metric). */
  datatype Cell = Num(x: real) | Text(s: string) | Vec(v: seq<real>) | Missing

  /** The layers of one beam, each with one cell per shot. */
  type Beam = map<string, seq<Cell>>

  /** An HDF5 granule: beam name to layers. */
  type Granule = map<string, Beam>

  /** The metrics `_append_canopy_metrics` adds, named `canopy_max`, `canopy_min`,
      `dns`, `canopy_p10` .. `canopy_p90` and `d01` .. `d04` in the table
      (`canopy_std` and `canopy_avg` are not part of this model). */
  datatype Metric = CanopyMax | CanopyMin | Dns | P10 | P25 | P50 | P75 | P90 | D01 | D02 | D03 | D04

  /** A table column: the `beam` label, a layer copied from the granule, or a metric. */
  datatype Column = BeamLabel | Layer(name: string) | MetricCol(metric: Metric)

  /** A table: column to cells. */
  type Table = map<Column, seq<Cell>>

  /** One table row: column to cell. */
  type Row = map<Column, Cell>

  const BEAMS: seq<string> := ["BEAM0000", "BEAM0001", "BEAM0010", "BEAM0011",
                               "BEAM0101", "BEAM0110", "BEAM1000", "BEAM1011"]
  const QUALITY_LAYER: string := "quality_flag"
  const RH_LAYER: string := "rh"

  /** The `rh` column of a table. */
  const RH_COLUMN: Column := Layer(RH_LAYER)

  /** Every cell of layer `l`, if present, is a number. */
  predicate NumericLayer(b: Beam, l: string)
  {
    l in b ==> forall k :: 0 <= k < |b[l]| ==> b[l][k].Num?
  }

  /** A beam as HDF5 stores it: all layers have one entry per shot, the
      coordinates and the quality flag are numbers and `rh` holds vectors. */
  predicate WellFormedBeam(b: Beam, latLayer: string, lonLayer: string)
  {
    (forall l1, l2 :: l1 in b && l2 in b ==> |b[l1]| == |b[l2]|)
    && NumericLayer(b, latLayer) && NumericLayer(b, lonLayer) && NumericLayer(b, QUALITY_LAYER)
    && (RH_LAYER in b ==> forall k :: 0 <= k < |b[RH_LAYER]| ==> b[RH_LAYER][k].Vec?)
  }

  predicate WellFormedGranule(g: Granule, latLayer: string, lonLayer: string)
  {
    forall beam :: beam in g ==> WellFormedBeam(g[beam], latLayer, lonLayer)
  }

  /** The shot mask of `gedi_L2A_to_df`, element-wise over the three layers. */
  function ShotMask(lat: seq<Cell>, lon: seq<Cell>, quality: seq<Cell>, box: BBox): (mask: seq<bool>)
    requires |lat| == |lon| == |quality|
    requires forall k :: 0 <= k < |lat| ==> lat[k].Num? && lon[k].Num? && quality[k].Num?
    ensures |mask| == |lat|
    ensures forall k :: 0 <= k < |mask| ==> (mask[k] <==> ShotKept(quality[k].x, lat[k].x, lon[k].x, box))
  {
    seq(|lat|, k requires 0 <= k < |lat| => ShotKept(quality[k].x, lat[k].x, lon[k].x, box))
  }

  /** `np.stack(df.rh.to_numpy())`: the rh vectors of a column. */
  function RhRows(col: seq<Cell>): (rh: seq<seq<real>>)
    requires forall k :: 0 <= k < |col| ==> col[k].Vec?
    ensures |rh| == |col| && forall k :: 0 <= k < |col| ==> col[k] == Vec(rh[k])
  {
    seq(|col|, k requires 0 <= k < |col| => col[k].v)
  }

  /** A masked metric becomes NaN in the table. */
  function OptCell(v: Option<real>): (c: Cell)
    ensures v.None? <==> c == Missing
    ensures v.Some? ==> c == Num(v.value)
  {
    if v.None? then Missing else Num(v.value)
  }

  /** A numeric column. */
  function NumCells(vs: seq<real>): (col: seq<Cell>)
    ensures |col| == |vs| && forall k :: 0 <= k < |vs| ==> col[k] == Num(vs[k])
  {
    seq(|vs|, k requires 0 <= k < |vs| => Num(vs[k]))
  }

  /** The `canopy_max` column. */
  function MaxColumn(rh: seq<seq<real>>, threshold: real): (col: seq<Cell>)
    ensures |col| == |rh| && forall i :: 0 <= i < |rh| ==> col[i] == OptCell(CanopyMaximum(rh[i], threshold))
  {
    seq(|rh|, i requires 0 <= i < |rh| => OptCell(CanopyMaximum(rh[i], threshold)))
  }

  /** The `canopy_min` column. */
  function MinColumn(rh: seq<seq<real>>, threshold: real): (col: seq<Cell>)
    ensures |col| == |rh| && forall i :: 0 <= i < |rh| ==> col[i] == OptCell(CanopyMinimum(rh[i], threshold))
  {
    seq(|rh|, i requires 0 <= i < |rh| => OptCell(CanopyMinimum(rh[i], threshold)))
  }

  /** The `dns` column: the number of canopy returns of every shot. */
  function DnsColumn(rh: seq<seq<real>>, threshold: real): (col: seq<Cell>)
    ensures |col| == |rh| && forall i :: 0 <= i < |rh| ==> col[i] == Num(CountAtLeast(rh[i], threshold) as real)
  {
    seq(|rh|, i requires 0 <= i < |rh| => Num(CountAtLeast(rh[i], threshold) as real))
  }

  /** The percentile input of every shot: rh with the non-canopy returns as NaN. */
  function FilledRows(rh: seq<seq<real>>, threshold: real): (a: seq<seq<Sample>>)
    ensures |a| == |rh| && forall i :: 0 <= i < |rh| ==> a[i] == FillBelow(rh[i], threshold)
  {
    seq(|rh|, i requires 0 <= i < |rh| => FillBelow(rh[i], threshold))
  }

  /** The `canopy_p<q>` column. */
  function PercentileColumn(rh: seq<seq<real>>, threshold: real, q: real): (col: seq<Cell>)
    requires 0.0 <= q <= 100.0
    ensures |col| == |rh|
    ensures forall i :: 0 <= i < |rh| ==> col[i] == Num(RowPercentile(FillBelow(rh[i], threshold), q))
  {
    seq(|rh|, i requires 0 <= i < |rh| => Num(RowPercentile(FillBelow(rh[i], threshold), q)))
  }

  /** A `masked_outside(rh, v1, v2).count(axis=1)` column. */
  function BinColumn(rh: seq<seq<real>>, v1: real, v2: real): (col: seq<Cell>)
    ensures |col| == |rh| && forall i :: 0 <= i < |rh| ==> col[i] == Num(CountBetween(rh[i], v1, v2) as real)
  {
    seq(|rh|, i requires 0 <= i < |rh| => Num(CountBetween(rh[i], v1, v2) as real))
  }

  /** `pd.Series(_compute_nan_percentile(canopy_returns, q))` for an in-range q. */
  method PercentileCells(rh: seq<seq<real>>, threshold: real, q: real) returns (col: seq<Cell>)
    requires 0.0 <= q <= 100.0
    ensures col == PercentileColumn(rh, threshold, q)
  {
    var filled := FilledRows(rh, threshold);
    var p := ComputeNanPercentile(filled, q);
    col := NumCells(p.value);
  }

  /** The key set holds a column for every canopy metric. */
  predicate HasMetrics(keys: set<Column>)
  {
    forall k :: MetricCol(k) in keys
  }

  /** Canopy metric `k` of one shot with return heights `rh`. */
  function MetricOfShot(rh: seq<real>, threshold: real, k: Metric): Cell
  {
    match k
    case CanopyMax => OptCell(CanopyMaximum(rh, threshold))
    case CanopyMin => OptCell(CanopyMinimum(rh, threshold))
    case Dns => Num(CountAtLeast(rh, threshold) as real)
    case P10 => Num(RowPercentile(FillBelow(rh, threshold), 10.0))
    case P25 => Num(RowPercentile(FillBelow(rh, threshold), 25.0))
    case P50 => Num(RowPercentile(FillBelow(rh, threshold), 50.0))
    case P75 => Num(RowPercentile(FillBelow(rh, threshold), 75.0))
    case P90 => Num(RowPercentile(FillBelow(rh, threshold), 90.0))
    case D01 => Num(CountBetween(rh, threshold, 5.0) as real)
    case D02 => Num(CountBetween(rh, 5.0, 10.0) as real)
    case D03 => Num(CountBetween(rh, 10.0, 20.0) as real)
    case D04 => Num(CountBetween(rh, 20.0, 30.0) as real)
  }

  /** The column of canopy metric `k`: entry i depends on shot i's heights only. */
  function MetricColumn(rh: seq<seq<real>>, threshold: real, k: Metric): (col: seq<Cell>)
    ensures |col| == |rh|
    ensures forall i :: 0 <= i < |rh| ==> col[i] == MetricOfShot(rh[i], threshold, k)
  {
    match k
    case CanopyMax => MaxColumn(rh, threshold)
    case CanopyMin => MinColumn(rh, threshold)
    case Dns => DnsColumn(rh, threshold)
    case P10 => PercentileColumn(rh, threshold, 10.0)
    case P25 => PercentileColumn(rh, threshold, 25.0)
    case P50 => PercentileColumn(rh, threshold, 50.0)
    case P75 => PercentileColumn(rh, threshold, 75.0)
    case P90 => PercentileColumn(rh, threshold, 90.0)
    case D01 => BinColumn(rh, threshold, 5.0)
    case D02 => BinColumn(rh, 5.0, 10.0)
    case D03 => BinColumn(rh, 10.0, 20.0)
    case D04 => BinColumn(rh, 20.0, 30.0)
  }

  /** The columns `_append_canopy_metrics` adds, computed from the shots' rh vectors. */
  function CanopyMetrics(rh: seq<seq<real>>, threshold: real): (m: Table)
    ensures forall c :: c in m ==> c.MetricCol? && |m[c]| == |rh|
    ensures HasMetrics(m.Keys)
  {
    map k: Metric | true :: MetricCol(k) := MetricColumn(rh, threshold, k)
  }

  /** The metric columns written out one by one, in the order the source adds them. */
  lemma CanopyMetricsDisplay(rh: seq<seq<real>>, threshold: real)
    ensures CanopyMetrics(rh, threshold) == map[
      MetricCol(CanopyMax) := MaxColumn(rh, threshold),
      MetricCol(CanopyMin) := MinColumn(rh, threshold),
      MetricCol(Dns) := DnsColumn(rh, threshold),
      MetricCol(P10) := PercentileColumn(rh, threshold, 10.0),
      MetricCol(P25) := PercentileColumn(rh, threshold, 25.0),
      MetricCol(P50) := PercentileColumn(rh, threshold, 50.0),
      MetricCol(P75) := PercentileColumn(rh, threshold, 75.0),
      MetricCol(P90) := PercentileColumn(rh, threshold, 90.0),
      MetricCol(D01) := BinColumn(rh, threshold, 5.0),
      MetricCol(D02) := BinColumn(rh, 5.0, 10.0),
      MetricCol(D03) := BinColumn(rh, 10.0, 20.0),
      MetricCol(D04) := BinColumn(rh, 20.0, 30.0)
    ]
  {
    var m := CanopyMetrics(rh, threshold);
    forall k: Metric
      ensures m[MetricCol(k)] == MetricColumn(rh, threshold, k)
    {
    }
  }

  /** The rows of a table whose columns all have `n` entries. */
  function RowsOf(columns: Table, n: nat): (rows: seq<Row>)
    requires forall c :: c in columns ==> |columns[c]| == n
    ensures |rows| == n
    ensures forall i :: 0 <= i < n ==> rows[i].Keys == columns.Keys
    ensures forall i, c :: 0 <= i < n && c in columns ==> rows[i][c] == columns[c][i]
  {
    seq(n, i requires 0 <= i < n => map c | c in columns :: columns[c][i])
  }

  /** A pandas DataFrame: named columns of equal length, updated in place. */
  class Frame {
    var columns: Table
    var length: nat

    ghost predicate Valid()
      reads this
    {
      forall c :: c in columns ==> |columns[c]| == length
    }

    /** `pd.DataFrame()`. */
    constructor ()
      ensures columns == map[] && length == 0 && Valid()
    {
      columns := map[];
      length := 0;
    }

    /** `df[name] = values`: an empty frame takes the length of its first column. */
    method SetColumn(name: Column, values: seq<Cell>)
      requires Valid() && (columns == map[] || |values| == length)
      modifies this
      ensures columns == old(columns)[name := values] && length == |values| && Valid()
    {
      columns := columns[name := values];
      length := |values|;
    }

    /** `del df[name]`. */
    method DeleteColumn(name: Column)
      requires Valid() && name in columns
      modifies this
      ensures columns == old(columns) - {name} && length == old(length) && Valid()
    {
      columns := columns - {name};
    }

    /** The frame's rows. */
    function Rows(): (rows: seq<Row>)
      requires Valid()
      reads this
      ensures rows == RowsOf(columns, length)
    {
      RowsOf(columns, length)
    }

    /** `_append_canopy_metrics`: adds the canopy columns computed from `rh`; every
        other column is left as it was. */
    method AppendCanopyMetrics(threshold: real)
      requires Valid() && RH_COLUMN in columns
      requires forall k :: 0 <= k < |columns[RH_COLUMN]| ==> columns[RH_COLUMN][k].Vec?
      modifies this
      ensures columns == old(columns) + CanopyMetrics(RhRows(old(columns)[RH_COLUMN]), threshold)
      ensures length == old(length) && Valid()
    {
      var rh := RhRows(columns[RH_COLUMN]);
      var p10 := PercentileCells(rh, threshold, 10.0);
      var p25 := PercentileCells(rh, threshold, 25.0);
      var p50 := PercentileCells(rh, threshold, 50.0);
      var p75 := PercentileCells(rh, threshold, 75.0);
      var p90 := PercentileCells(rh, threshold, 90.0);
      var added := map[
        MetricCol(CanopyMax) := MaxColumn(rh, threshold),
        MetricCol(CanopyMin) := MinColumn(rh, threshold),
        MetricCol(Dns) := DnsColumn(rh, threshold),
        MetricCol(P10) := p10, MetricCol(P25) := p25, MetricCol(P50) := p50, MetricCol(P75) := p75, MetricCol(P90) := p90,
        MetricCol(D01) := BinColumn(rh, threshold, 5.0),
        MetricCol(D02) := BinColumn(rh, 5.0, 10.0),
        MetricCol(D03) := BinColumn(rh, 10.0, 20.0),
        MetricCol(D04) := BinColumn(rh, 20.0, 30.0)
      ];
      CanopyMetricsDisplay(rh, threshold);
      assert added == CanopyMetrics(rh, threshold);
      columns := columns + added;
    }
  }

  /** The `beam` column of a beam's table: its name once per kept shot. */
  function BeamLabels(beam: string, k: nat): (col: seq<Cell>)
    ensures |col| == k && forall i :: 0 <= i < k ==> col[i] == Text(beam)
  {
    seq(k, _ => Text(beam))
  }

  /** The layer columns of a beam's kept shots. */
  function LayerColumns(b: Beam, mask: seq<bool>, layers: seq<string>): (m: Table)
    requires forall l :: l in layers ==> l in b && |b[l]| == |mask|
    ensures forall l :: l in layers ==> Layer(l) in m && m[Layer(l)] == Masked(b[l], mask)
    ensures forall c :: c in m ==> c.Layer? && c.name in layers && |m[c]| == CountTrue(mask)
  {
    map l | l in layers :: Layer(l) := Masked(b[l], mask)
  }

  /** The per-beam table before `_append_canopy_metrics`: the `beam` label and
      the kept shots of every layer. */
  function BeamTable(b: Beam, beam: string, mask: seq<bool>, layers: seq<string>): (m: Table)
    requires forall l :: l in layers ==> l in b && |b[l]| == |mask|
    ensures forall c :: c in m ==> |m[c]| == CountTrue(mask)
    ensures BeamLabel in m && m[BeamLabel] == BeamLabels(beam, CountTrue(mask))
    ensures forall l :: l in layers ==> Layer(l) in m && m[Layer(l)] == Masked(b[l], mask)
  {
    map[BeamLabel := BeamLabels(beam, CountTrue(mask))] + LayerColumns(b, mask, layers)
  }

  /** Masking a column of vectors leaves a column of vectors. */
  lemma MaskedVectors(col: seq<Cell>, mask: seq<bool>)
    requires |col| == |mask| && forall k :: 0 <= k < |col| ==> col[k].Vec?
    ensures forall k :: 0 <= k < |Masked(col, mask)| ==> Masked(col, mask)[k].Vec?
  {
    forall k | 0 <= k < |Masked(col, mask)|
      ensures Masked(col, mask)[k].Vec?
    {
      assert Masked(col, mask)[k] in col;
    }
  }

  /** A table of `n` rows with the canopy columns of its `rh` column added. */
  function WithMetrics(t: Table, n: nat): (m: Table)
    requires forall c :: c in t ==> |t[c]| == n
    requires RH_COLUMN in t && forall k :: 0 <= k < |t[RH_COLUMN]| ==> t[RH_COLUMN][k].Vec?
    ensures forall c :: c in m ==> |m[c]| == n
    ensures forall c :: c in m ==> c in t || c.MetricCol?
    ensures forall c :: c in t ==> c in m
    ensures HasMetrics(m.Keys)
    ensures forall c :: c in t && !c.MetricCol? ==> m[c] == t[c]
    ensures forall k :: m[MetricCol(k)] == MetricColumn(RhRows(t[RH_COLUMN]), CANOPY_THRESHOLD, k)
  {
    t + CanopyMetrics(RhRows(t[RH_COLUMN]), CANOPY_THRESHOLD)
  }

  /** The `rh` vectors of a beam's kept shots, in shot order. */
  function KeptRh(b: Beam, mask: seq<bool>): (rh: seq<seq<real>>)
    requires RH_LAYER in b && |b[RH_LAYER]| == |mask|
    requires forall k :: 0 <= k < |b[RH_LAYER]| ==> b[RH_LAYER][k].Vec?
    ensures |rh| == CountTrue(mask)
    ensures forall i :: 0 <= i < |rh| ==> Masked(b[RH_LAYER], mask)[i] == Vec(rh[i])
  {
    MaskedVectors(b[RH_LAYER], mask);
    RhRows(Masked(b[RH_LAYER], mask))
  }

  /** The per-beam table after `_append_canopy_metrics` and `del tmp_df["rh"]`. */
  function BeamColumns(b: Beam, beam: string, mask: seq<bool>, layers: seq<string>): (m: Table)
    requires RH_LAYER in layers
    requires forall l :: l in layers ==> l in b && |b[l]| == |mask|
    requires forall k :: 0 <= k < |b[RH_LAYER]| ==> b[RH_LAYER][k].Vec?
    ensures forall c :: c in m ==> |m[c]| == CountTrue(mask)
    ensures forall l :: l in layers && l != RH_LAYER ==> Layer(l) in m && m[Layer(l)] == Masked(b[l], mask)
    ensures forall k :: MetricCol(k) in m && m[MetricCol(k)] == MetricColumn(KeptRh(b, mask), CANOPY_THRESHOLD, k)
  {
    var tmp := BeamTable(b, beam, mask, layers);
    MaskedVectors(b[RH_LAYER], mask);
    assert RhRows(tmp[RH_COLUMN]) == KeptRh(b, mask);
    WithMetrics(tmp, CountTrue(mask)) - {RH_COLUMN}
  }

  /** A beam's table has lost `rh`, gained every canopy metric and kept its `beam` label. */
  lemma BeamColumnsShape(b: Beam, beam: string, mask: seq<bool>, layers: seq<string>)
    requires RH_LAYER in layers
    requires forall l :: l in layers ==> l in b && |b[l]| == |mask|
    requires forall k :: 0 <= k < |b[RH_LAYER]| ==> b[RH_LAYER][k].Vec?
    ensures var m := BeamColumns(b, beam, mask, layers);
            RH_COLUMN !in m && BeamLabel in m && m[BeamLabel] == BeamLabels(beam, CountTrue(mask))
            && HasMetrics(m.Keys)
  {
    var tmp := BeamTable(b, beam, mask, layers);
    MaskedVectors(b[RH_LAYER], mask);
    var w := WithMetrics(tmp, CountTrue(mask));
    assert w[BeamLabel] == tmp[BeamLabel];
  }

  /** The rows one beam adds to the table, or `None` for a `KeyError`. A beam
      with no kept shot adds nothing and its other layers are never read. */
  function BeamRows(g: Granule, beam: string, box: BBox, layers: seq<string>,
                    latLayer: string, lonLayer: string): (r: Option<seq<Row>>)
    requires WellFormedGranule(g, latLayer, lonLayer) && RH_LAYER in layers
    ensures r.Some? ==>
      beam in g && latLayer in g[beam] && lonLayer in g[beam] && QUALITY_LAYER in g[beam]
      && |r.value| == CountTrue(ShotMask(g[beam][latLayer], g[beam][lonLayer], g[beam][QUALITY_LAYER], box))
    ensures (beam in g && latLayer in g[beam] && lonLayer in g[beam] && QUALITY_LAYER in g[beam]
             && forall l :: l in layers ==> l in g[beam]) ==> r.Some?
    ensures r.Some? && r.value != [] ==> forall l :: l in layers ==> l in g[beam]
  {
    if beam !in g || latLayer !in g[beam] || lonLayer !in g[beam] || QUALITY_LAYER !in g[beam] then None
    else
      var b := g[beam];
      var mask := ShotMask(b[latLayer], b[lonLayer], b[QUALITY_LAYER], box);
      var k := CountTrue(mask);
      if k == 0 then Some([])
      else if exists l :: l in layers && l !in b then None
      else Some(RowsOf(BeamColumns(b, beam, mask, layers), k))
  }

  /** The beams of one file in order: the rows collected so far, and whether a
      `KeyError` ended the file (the remaining beams are skipped). */
  function FileScan(g: Granule, beams: seq<string>, box: BBox, layers: seq<string>,
                    latLayer: string, lonLayer: string): (r: (seq<Row>, bool))
    requires WellFormedGranule(g, latLayer, lonLayer) && RH_LAYER in layers
    ensures r.1 <==> exists beam :: beam in beams && BeamRows(g, beam, box, layers, latLayer, lonLayer).None?
  {
    if beams == [] then ([], false)
    else
      var init := beams[..|beams| - 1];
      var last := beams[|beams| - 1];
      var prev := FileScan(g, init, box, layers, latLayer, lonLayer);
      assert beams == init + [last];
      if prev.1 then prev
      else match BeamRows(g, last, box, layers, latLayer, lonLayer)
        case None => (prev.0, true)
        case Some(rows) => (prev.0 + rows, false)
  }

  /** Once a `KeyError` has ended a file, later beams change nothing. */
  lemma {:induction false} KeyErrorEndsFile(g: Granule, beams: seq<string>, i: nat, box: BBox, layers: seq<string>,
                                            latLayer: string, lonLayer: string)
    requires WellFormedGranule(g, latLayer, lonLayer) && RH_LAYER in layers
    requires i <= |beams| && FileScan(g, beams[..i], box, layers, latLayer, lonLayer).1
    ensures FileScan(g, beams, box, layers, latLayer, lonLayer) == FileScan(g, beams[..i], box, layers, latLayer, lonLayer)
    decreases |beams| - i
  {
    if i < |beams| {
      assert beams[..i + 1][..i] == beams[..i];
      KeyErrorEndsFile(g, beams, i + 1, box, layers, latLayer, lonLayer);
    } else {
      assert beams[..i] == beams;
    }
  }

  /** The table `gedi_L2A_to_df` returns: the rows of every file in order. It has
      no `rh` column, carries the canopy metrics on every row, and labels every
      row with one of the eight beams. */
  function AllRows(files: seq<Granule>, box: BBox, layers: seq<string>,
                   latLayer: string, lonLayer: string): (rows: seq<Row>)
    requires forall g :: g in files ==> WellFormedGranule(g, latLayer, lonLayer)
    requires RH_LAYER in layers
    ensures forall row :: row in rows ==> RowShape(row, BEAMS)
  {
    if files == [] then []
    else
      var init := files[..|files| - 1];
      var last := files[|files| - 1];
      assert forall g :: g in init ==> g in files;
      FileRowsShape(last, BEAMS, box, layers, latLayer, lonLayer);
      AllRows(init, box, layers, latLayer, lonLayer) + FileScan(last, BEAMS, box, layers, latLayer, lonLayer).0
  }

  /** Adding one more layer to the layer columns. */
  lemma LayerColumnsSnoc(b: Beam, mask: seq<bool>, layers: seq<string>, l: string)
    requires forall x :: x in layers ==> x in b && |b[x]| == |mask|
    requires l in b && |b[l]| == |mask|
    ensures LayerColumns(b, mask, layers + [l]) == LayerColumns(b, mask, layers)[Layer(l) := Masked(b[l], mask)]
  {
    var m1 := LayerColumns(b, mask, layers + [l]);
    var m2 := LayerColumns(b, mask, layers)[Layer(l) := Masked(b[l], mask)];
    forall c | c in m1
      ensures c in m2
    {
      assert c.name in layers + [l];
    }
    assert m1.Keys == m2.Keys;
  }

  /** Updating the right operand of a union updates the union. */
  lemma UnionUpdate(base: Table, t: Table, c: Column, v: seq<Cell>)
    ensures base + t[c := v] == (base + t)[c := v]
  {
  }

  /** `for layer in layers: tmp_df[layer] = _f[beam][layer][()][mask]`, stopped by
      the first layer the beam lacks. */
  method SetLayers(tmp: Frame, b: Beam, mask: seq<bool>, layers: seq<string>) returns (ok: bool)
    requires tmp.Valid() && tmp.columns != map[] && tmp.length == CountTrue(mask)
    requires forall l :: l in b ==> |b[l]| == |mask|
    modifies tmp
    ensures ok <==> forall l :: l in layers ==> l in b
    ensures ok ==> tmp.columns == old(tmp.columns) + LayerColumns(b, mask, layers)
    ensures tmp.Valid() && tmp.length == old(tmp.length)
  {
    for j := 0 to |layers|
      invariant forall l :: l in layers[..j] ==> l in b
      invariant tmp.Valid() && tmp.length == old(tmp.length)
      invariant tmp.columns == old(tmp.columns) + LayerColumns(b, mask, layers[..j])
    {
      if layers[j] !in b {
        assert layers[j] in layers;
        return false;
      }
      assert layers[..j + 1] == layers[..j] + [layers[j]];
      LayerColumnsSnoc(b, mask, layers[..j], layers[j]);
      UnionUpdate(old(tmp.columns), LayerColumns(b, mask, layers[..j]), Layer(layers[j]), Masked(b[layers[j]], mask));
      tmp.SetColumn(Layer(layers[j]), Masked(b[layers[j]], mask));
    }
    assert layers[..|layers|] == layers;
    return true;
  }

  /** The body of the beam loop: build `tmp_df` for one beam. */
  method ProcessBeam(g: Granule, beam: string, box: BBox, layers: seq<string>,
                     latLayer: string, lonLayer: string) returns (r: Option<seq<Row>>)
    requires WellFormedGranule(g, latLayer, lonLayer) && RH_LAYER in layers
    ensures r == BeamRows(g, beam, box, layers, latLayer, lonLayer)
  {
    if beam !in g || latLayer !in g[beam] || lonLayer !in g[beam] || QUALITY_LAYER !in g[beam] {
      return None;
    }
    var b := g[beam];
    var mask := ShotMask(b[latLayer], b[lonLayer], b[QUALITY_LAYER], box);
    var k := CountTrue(mask);
    if k == 0 {
      return Some([]);
    }
    var tmp := new Frame();
    tmp.SetColumn(BeamLabel, BeamLabels(beam, k));
    assert BeamLabel in tmp.columns;
    var ok := SetLayers(tmp, b, mask, layers);
    if !ok {
      return None;
    }
    assert tmp.columns == BeamTable(b, beam, mask, layers);
    MaskedVectors(b[RH_LAYER], mask);
    tmp.AppendCanopyMetrics(CANOPY_THRESHOLD);
    tmp.DeleteColumn(RH_COLUMN);
    return Some(tmp.Rows());
  }

  /** The body of the file loop over the beam names `beams` (`BEAMS` in
      `gedi_L2A_to_df`): the beams in order until a `KeyError`; the rows of the
      beams before it are kept. */
  method ProcessFile(g: Granule, beams: seq<string>, box: BBox, layers: seq<string>,
                     latLayer: string, lonLayer: string) returns (fileRows: seq<Row>)
    requires WellFormedGranule(g, latLayer, lonLayer) && RH_LAYER in layers
    ensures fileRows == FileScan(g, beams, box, layers, latLayer, lonLayer).0
  {
    fileRows := [];
    var bi := 0;
    var failed := false;
    assert beams[..0] == [];
    while bi < |beams| && !failed
      invariant 0 <= bi <= |beams|
      invariant (fileRows, failed) == FileScan(g, beams[..bi], box, layers, latLayer, lonLayer)
    {
      assert beams[..bi + 1][..bi] == beams[..bi];
      var r := ProcessBeam(g, beams[bi], box, layers, latLayer, lonLayer);
      if r.None? {
        failed := true;
      } else {
        fileRows := fileRows + r.value;
      }
      bi := bi + 1;
    }
    if failed {
      KeyErrorEndsFile(g, beams, bi, box, layers, latLayer, lonLayer);
    } else {
      assert beams[..bi] == beams;
    }
  }

  /** `gedi_L2A_to_df`: the kept shots of every beam of every file, one row each. */
  method GediL2AToDf(files: seq<Granule>, box: BBox, layers: seq<string>,
                     latLayer: string, lonLayer: string) returns (rows: seq<Row>)
    requires forall g :: g in files ==> WellFormedGranule(g, latLayer, lonLayer)
    requires RH_LAYER in layers
    ensures rows == AllRows(files, box, layers, latLayer, lonLayer)
  {
    rows := [];
    for fi := 0 to |files|
      invariant rows == AllRows(files[..fi], box, layers, latLayer, lonLayer)
    {
      assert files[fi] in files;
      var fileRows := ProcessFile(files[fi], BEAMS, box, layers, latLayer, lonLayer);
      assert files[..fi + 1][..fi] == files[..fi];
      rows := rows + fileRows;
    }
    assert files[..|files|] == files;
  }

  /** What every row of a beam's table looks like. */
  predicate RowShape(row: Row, beams: seq<string>)
  {
    RH_COLUMN !in row && HasMetrics(row.Keys) && BeamLabel in row
    && exists i :: 0 <= i < |beams| && row[BeamLabel] == Text(beams[i])
  }

  /** Rows inherit the key set of their table. */
  lemma RowsOfShape(m: Table, k: nat, beam: string)
    requires forall c :: c in m ==> |m[c]| == k
    requires RH_COLUMN !in m && BeamLabel in m && HasMetrics(m.Keys)
    requires m[BeamLabel] == BeamLabels(beam, k)
    ensures forall row :: row in RowsOf(m, k) ==> RowShape(row, [beam])
  {
    var rs := RowsOf(m, k);
    forall row | row in rs
      ensures RowShape(row, [beam])
    {
      var i :| 0 <= i < k && rs[i] == row;
      assert row[BeamLabel] == m[BeamLabel][i] == Text([beam][0]);
    }
  }

  /** The rows of a beam: one per kept shot, each without `rh`, with every canopy
      metric, and labelled with the beam's name. */
  lemma BeamRowsShape(g: Granule, beam: string, box: BBox, layers: seq<string>, latLayer: string, lonLayer: string)
    requires WellFormedGranule(g, latLayer, lonLayer) && RH_LAYER in layers
    requires BeamRows(g, beam, box, layers, latLayer, lonLayer).Some?
    ensures |BeamRows(g, beam, box, layers, latLayer, lonLayer).value|
            == CountTrue(ShotMask(g[beam][latLayer], g[beam][lonLayer], g[beam][QUALITY_LAYER], box))
    ensures forall row :: row in BeamRows(g, beam, box, layers, latLayer, lonLayer).value ==> RowShape(row, [beam])
  {
    var b := g[beam];
    var mask := ShotMask(b[latLayer], b[lonLayer], b[QUALITY_LAYER], box);
    var k := CountTrue(mask);
    if k > 0 {
      BeamColumnsShape(b, beam, mask, layers);
      RowsOfShape(BeamColumns(b, beam, mask, layers), k, beam);
    }
  }

  /** Row i of a beam holds the i-th kept shot, at position `SetPositions(mask, 0)[i]`
      of the granule: that shot's value of every requested layer other than `rh`,
      and the canopy metrics of that shot's own `rh` vector. */
  lemma BeamRowContents(g: Granule, beam: string, box: BBox, layers: seq<string>,
                        latLayer: string, lonLayer: string, i: nat)
    requires WellFormedGranule(g, latLayer, lonLayer) && RH_LAYER in layers
    requires BeamRows(g, beam, box, layers, latLayer, lonLayer).Some?
    requires i < |BeamRows(g, beam, box, layers, latLayer, lonLayer).value|
    ensures var b := g[beam];
            var mask := ShotMask(b[latLayer], b[lonLayer], b[QUALITY_LAYER], box);
            var p := SetPositions(mask, 0)[i];
            var row := BeamRows(g, beam, box, layers, latLayer, lonLayer).value[i];
            p < |mask| && RH_LAYER in b && p < |b[RH_LAYER]| && b[RH_LAYER][p].Vec?
            && (forall l :: l in layers && l != RH_LAYER ==>
                  l in b && p < |b[l]| && Layer(l) in row && row[Layer(l)] == Masked(b[l], mask)[i] == b[l][p])
            && forall k :: MetricCol(k) in row && row[MetricCol(k)] == MetricOfShot(b[RH_LAYER][p].v, CANOPY_THRESHOLD, k)
  {
    var b := g[beam];
    var mask := ShotMask(b[latLayer], b[lonLayer], b[QUALITY_LAYER], box);
    var n := CountTrue(mask);
    var pos := SetPositions(mask, 0);
    var p := pos[i];
    assert forall l :: l in layers ==> l in b;
    assert forall l :: l in b ==> |b[l]| == |mask| by {
      forall l | l in b
        ensures |b[l]| == |mask|
      {
        assert |b[l]| == |b[latLayer]|;
      }
    }
    var m := BeamColumns(b, beam, mask, layers);
    var rows := RowsOf(m, n);
    assert BeamRows(g, beam, box, layers, latLayer, lonLayer).value == rows;
    forall l | l in layers && l != RH_LAYER
      ensures rows[i][Layer(l)] == Masked(b[l], mask)[i] == b[l][p]
    {
      MaskedAt(b[l], mask);
    }
    MaskedAt(b[RH_LAYER], mask);
    var rh := KeptRh(b, mask);
    assert Vec(rh[i]) == b[RH_LAYER][p];
    forall k: Metric
      ensures rows[i][MetricCol(k)] == MetricOfShot(b[RH_LAYER][p].v, CANOPY_THRESHOLD, k)
    {
      assert rows[i][MetricCol(k)] == MetricColumn(rh, CANOPY_THRESHOLD, k)[i];
    }
  }

  /** A beam none of whose shots is kept adds no row, whatever layers it lacks. */
  lemma EmptyBeamAddsNothing(g: Granule, beam: string, box: BBox, layers: seq<string>, latLayer: string, lonLayer: string)
    requires WellFormedGranule(g, latLayer, lonLayer) && RH_LAYER in layers
    requires beam in g && latLayer in g[beam] && lonLayer in g[beam] && QUALITY_LAYER in g[beam]
    requires forall k :: 0 <= k < |g[beam][latLayer]| ==>
               !ShotKept(g[beam][QUALITY_LAYER][k].x, g[beam][latLayer][k].x, g[beam][lonLayer][k].x, box)
    ensures BeamRows(g, beam, box, layers, latLayer, lonLayer) == Some([])
  {
  }

  /** Every row a file contributes comes from one of the scanned beams and has no `rh`. */
  lemma {:induction false} FileRowsShape(g: Granule, beams: seq<string>, box: BBox, layers: seq<string>,
                                         latLayer: string, lonLayer: string)
    requires WellFormedGranule(g, latLayer, lonLayer) && RH_LAYER in layers
    ensures forall row :: row in FileScan(g, beams, box, layers, latLayer, lonLayer).0 ==> RowShape(row, beams)
  {
    if beams != [] {
      var init := beams[..|beams| - 1];
      var last := beams[|beams| - 1];
      FileRowsShape(g, init, box, layers, latLayer, lonLayer);
      var prev := FileScan(g, init, box, layers, latLayer, lonLayer);
      forall row | row in prev.0
        ensures RowShape(row, beams)
      {
        var i :| 0 <= i < |init| && row[BeamLabel] == Text(init[i]);
        assert beams[i] == init[i];
      }
      if !prev.1 && BeamRows(g, last, box, layers, latLayer, lonLayer).Some? {
        BeamRowsShape(g, last, box, layers, latLayer, lonLayer);
        forall row | row in BeamRows(g, last, box, layers, latLayer, lonLayer).value
          ensures RowShape(row, beams)
        {
          assert row[BeamLabel] == Text([last][0]) == Text(beams[|beams| - 1]);
        }
      }
    }
  }
}
