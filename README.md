# Forest-loss pipelines, per pixel

This project models the numeric core of the collaborative-earth `forest`
repository in Dafny and proves properties of it.

The Earth Engine scripts build lazy server-side images. Each call still has a
simple meaning at one pixel, and that per-pixel meaning is what is modelled:

- **Compositing** (`earth-engine/landtrendr/preprocess.py` and its standalone
  copy `earth-engine/build_SR_collection.py`):
  - Landsat 5/7/8 surface reflectance is masked with the `pixel_qa` bits.
  - Bands are selected under the TM names. Landsat 8 (OLI) is recalibrated to
    TM-equivalent values.
  - The three sensors are merged, and one medoid composite is built per year.
- **LandTrendr input** (`build_LT_collection`): a disturbance-oriented
  normalised-difference index band, followed by `ftv_` copies of the requested
  bands.
- **LandTrendr output** (`earth-engine/landtrendr/postprocess.py`):
  - segments between consecutive vertices;
  - selection of the most recent qualifying disturbance;
  - its flattening into eight named bands.
- **GEDI Level 2A ingestion** (`gedi/process_l2a.py`):
  - the quality and bounding-box shot mask;
  - the NaN-aware row percentile;
  - the canopy metrics appended in place to a data frame;
  - the loops over files and beams that build the output table.

Modules, one per file:

| Module | File | Contents |
|---|---|---|
| `Wrappers` | `wrappers.dfy` | `Option` and `Result` |
| `Seqs` | `seqs.dfy` | stable insertion sort, filter, `distinct` |
| `Calendar` | `calendar.dfy` | days, instants, `advance(1, "day")`, `filterDate` |
| `Harmonize` | `harmonize.dfy` | QA mask, band maps, OLI recalibration, per-sensor collections |
| `Composite` | `composite.dfy` | merge, year list, yearly window, median, `Reducer.min(7)`, `build_SR_collection` |
| `BuildSr` | `build_sr.dfy` | the standalone compositing script |
| `SpectralIndex` | `spectral_index.dfy` | the `INDEX_DICT` lookup shared by pre- and post-processing |
| `LtCollection` | `lt_collection.dfy` | `build_LT_collection` |
| `Segments` | `segments.dfy` | `get_segment_data`, `extract_deforestation_events`, `extract_deforested_regions` |
| `GediMetrics` | `gedi_metrics.dfy` | shot filter, `_compute_nan_percentile`, canopy counts |
| `Gedi` | `gedi.dfy` | data-frame class, `_append_canopy_metrics`, `gedi_L2A_to_df` |

The Earth Engine code and the GEDI helper functions are pure expressions, so
they are modelled as functions and lemmas.

The three GEDI functions that change state are modelled imperatively:

- `_compute_nan_percentile` is a method. It fills an `array` group by group with
  an aggregate `forall` assignment inside a loop.
- `_append_canopy_metrics` is a method of the `Frame` class. It updates the
  frame's `columns` map in place.
- `gedi_L2A_to_df` is a pair of nested loops.

Each method is proved equal to a specification function, and the lemmas are
stated about those functions.

Notes on the code:

- **OLI recalibration.** (5000 + 95) · 10000 / 9785 = 5206.95…, which `toShort`
  truncates to 5206 (`Harmonize.RecalibrationExample`).
- **Segment duration.** `dur` is taken from the unshifted start year, so
  vertices at 2000 and 2005 give yod 2001, dur 5 and rate −30
  (`Segments.SegmentExample`).
- **Division by zero.** Earth Engine's `divide` gives 0 where the divisor is 0.
  With an RMSE of 0 every segment's `dsnr` is therefore 0, and such a segment
  passes any DSNR threshold of 0 or less (`Segments.ZeroRmseQualifies`).
- **Medoid ties.** `Reducer.min` documents no tie rule. The model keeps the
  first minimiser in collection order and states every property for "a
  minimiser".
- **Negative reflectance.** Earth Engine's `normalizedDifference` masks the
  output where either input is negative, and recalibration can make an OLI band
  negative; `LtCollection.NormalizedDifference` masks there too.

## Model

| member | source | states |
|---|---|---|
| Seqs.SortBy | earth-engine/landtrendr/preprocess.py:35 | the result is a permutation (same multiset) of the input, sorted by the key |
| Seqs.Filter | earth-engine/landtrendr/postprocess.py:136 | an element is kept iff it is in the input and satisfies the predicate, and each kept element occurs exactly as often as in the input |
| Seqs.FilterConcat | earth-engine/landtrendr/postprocess.py:136 | filtering a concatenation is the concatenation of the filtered parts, so kept elements stay in input order |
| Seqs.Distinct | earth-engine/landtrendr/preprocess.py:35 | same elements as the input, with no repetitions |
| Seqs.PermutationKeepsNoDup | earth-engine/landtrendr/preprocess.py:35 | sorting a duplicate-free list keeps it duplicate-free |
| Seqs.UniqueSorted | earth-engine/landtrendr/preprocess.py:35 | `distinct().sort()` is strictly ascending and holds exactly the input's values |
| Calendar.NextDay | earth-engine/landtrendr/preprocess.py:74-76 | `advance(1, "day")` gives a valid day strictly after the given one |
| Calendar.NextDayIsSuccessor | earth-engine/landtrendr/preprocess.py:74-77 | no valid day lies between a day and the next one: before the next day iff at most the day |
| Calendar.FilterDateInclusive | earth-engine/landtrendr/preprocess.py:73-77 | `filterDate(first, last.advance(1, "day"))` keeps an instant iff its day is in [first, last], both ends included |
| Calendar.WindowWithinYear | earth-engine/landtrendr/preprocess.py:70-77 | a window with both bounds in year Y only admits instants of year Y |
| Harmonize.MaskLandsatSr | earth-engine/landtrendr/preprocess.py:130-149 | the pixel stays unmasked iff it was unmasked and `QaClear` holds, i.e. `qa & 0x3C == 0` (bits 2..5 clear); time, QA and band values are unchanged |
| Harmonize.PrepareImages | earth-engine/landtrendr/preprocess.py:152-181 | validity is the QA mask; band k is input band `inBands[k]`; time is carried over |
| Harmonize.PrepareTM | earth-engine/landtrendr/preprocess.py:218-223 | the output bands are the input's B1, B2, B3, B4, B5, B7 in order; time and QA validity carried over |
| Harmonize.PrepareOLI | earth-engine/landtrendr/preprocess.py:290-295 | the output bands are the input's B2..B7 in order (named B1, B2, B3, B4, B5, B7); time and QA validity carried over |
| Harmonize.TruncDiv | earth-engine/landtrendr/preprocess.py:283-286 | the quotient rounds toward zero: q·b ≤ a < q·b + b for a ≥ 0, and a ≤ q·b < a + b for a < 0 |
| Harmonize.RecalibrateBand | earth-engine/landtrendr/preprocess.py:278-288 | the result is the exact value (x − c_k)·10000/s_k truncated toward zero, with the source's intercepts and slopes |
| Harmonize.HarmonizationRoy | earth-engine/landtrendr/preprocess.py:275-288 | each of the six bands is recalibrated with its own constants and fits in 16 bits; time and validity are unchanged |
| Harmonize.RecalibrationExample | earth-engine/landtrendr/preprocess.py:278-286 | OLI blue 5000 becomes 5206 |
| Harmonize.RecalibrationFitsModerateInputs | earth-engine/landtrendr/preprocess.py:286 | every input of magnitude at most 30000 stays in the 16-bit range after recalibration |
| Harmonize.ArchiveRangeInclusive | earth-engine/landtrendr/preprocess.py:225-232 | the sensor prefilter keeps exactly the days from startYear-startDay to endYear-endDay, both included |
| Harmonize.ArchiveFilter | earth-engine/landtrendr/preprocess.py:228-231 | a pixel is kept iff it is in the archive and inside the prefilter range, as often as it occurs in the archive |
| Harmonize.BuildTMCollection | earth-engine/landtrendr/preprocess.py:184-233 | one output per prefiltered pixel, in archive order: output i is `_prepare_TM` of prefiltered pixel i; every output is a well-formed observation, and an observation occurs iff it is `_prepare_TM` of an archive pixel inside the date range |
| Harmonize.HarmonizedOLI | earth-engine/landtrendr/preprocess.py:305 | preparing then recalibrating an OLI pixel gives a six-band observation with a valid time |
| Harmonize.BuildOLICollection | earth-engine/landtrendr/preprocess.py:236-305 | one output per prefiltered pixel, in archive order: output i is the recalibrated `_prepare_OLI` of prefiltered pixel i; an observation occurs iff it is that image of an archive pixel inside the date range |
| Composite.BuildCombinedLandsat | earth-engine/landtrendr/preprocess.py:308-367 | the merged series is exactly L5 ++ L7 ++ L8: the lengths add up and each part appears unchanged in its place |
| Composite.AppendDates | earth-engine/landtrendr/preprocess.py:24-33 | the `iterate` fold keeps the accumulator and appends the collection's dates in order |
| Composite.CreateYearlyList | earth-engine/landtrendr/preprocess.py:30-37 | the years are strictly ascending (no duplicates), and a year is listed iff some observation has it |
| Composite.YearWindowInclusive | earth-engine/landtrendr/preprocess.py:70-77 | `InYearWindow`: year Y's window holds an instant iff its day is in [Y-startDay, Y-endDay], both included; it admits only year Y |
| Composite.YearFilter | earth-engine/landtrendr/preprocess.py:77 | an observation is kept iff it is in the series and inside the year's window, as often as it occurs in the series |
| Composite.CountValid | earth-engine/landtrendr/preprocess.py:85 | the count of unmasked observations is zero iff all are masked |
| Composite.BandValues | earth-engine/landtrendr/preprocess.py:85 | one value per unmasked observation; a value occurs iff some unmasked observation has it in that band |
| Composite.MedianOfSorted | earth-engine/landtrendr/preprocess.py:85 | the median of a sorted list lies between its first and last values |
| Composite.Median | earth-engine/landtrendr/preprocess.py:85 | the median lies between two of the values |
| Composite.BandMedianBetween | earth-engine/landtrendr/preprocess.py:85 | the median of a band's unmasked values lies between that band's values in two unmasked observations |
| Composite.MedianImageBetweenObservations | earth-engine/landtrendr/preprocess.py:85 | each band of `MedianImage` (no median iff every observation is masked) lies between that band's values in two unmasked observations |
| Composite.SqDistance | earth-engine/landtrendr/preprocess.py:87-89 | the squared distance is non-negative and is zero for a vector equal to the centre |
| Composite.ReduceMin | earth-engine/landtrendr/preprocess.py:91-94 | masked iff all observations are masked; otherwise the record of some unmasked observation, whose distance is at most every unmasked observation's distance |
| Composite.MedoidRecord | earth-engine/landtrendr/preprocess.py:77-94 | a year's composite is masked iff every observation in its window is masked |
| Composite.MedoidIsClosestObservation | earth-engine/landtrendr/preprocess.py:85-96 | the composite is exactly one unmasked in-window observation's six bands, and no other such observation is closer to the per-band median |
| Composite.CompositesAscending | earth-engine/landtrendr/preprocess.py:99-127 | `GenerateMedoidCollection` gives one `ExtractMedoidImage` composite per listed year, and their time stamps are strictly ascending |
| Composite.BuildSRCollection | earth-engine/landtrendr/preprocess.py:370-402 | one image per year of the merged series (the final `select`, `SelectAllBands`, drops the distance band), stamped January 1; masked iff every in-window observation is masked |
| Composite.BuildSRCollectionIsMedoid | earth-engine/landtrendr/preprocess.py:370-402 | every unmasked output pixel is an in-window observation's vector of minimal squared distance to the median |
| BuildSr.MainCollection | earth-engine/build_SR_collection.py:361-393 | one image per year of the merged series, none with a time stamp |
| BuildSr.MainMatchesBuildSRCollection | earth-engine/build_SR_collection.py:80-118 | the standalone script (its `GenerateMedioidCollection` builds unstamped composites) and preprocess.py give the same bands for every year; only preprocess.py sets the time |
| SpectralIndex.LookupIndex | earth-engine/landtrendr/preprocess.py:425-438 | NDVI → (B4, B3) and NBR → (B4, B7), both with direction −1; the seven known names raise NotImplementedError; any other name raises RuntimeError |
| LtCollection.NormalizedDifference | earth-engine/landtrendr/preprocess.py:449 | masked iff either band is negative or a + b = 0; otherwise nd·(a + b) = a − b |
| LtCollection.NormalizedDifferenceBounded | earth-engine/landtrendr/preprocess.py:449 | for non-negative bands the normalised difference lies in [−1, 1] |
| LtCollection.IndexValue | earth-engine/landtrendr/preprocess.py:448-452 | a masked pixel stays masked; otherwise the index is ND·dist_dir·1000, masked iff either band is negative or their sum is 0 |
| LtCollection.FormatImage | earth-engine/landtrendr/preprocess.py:442-456 | the index band comes first and is named after the index, followed by the requested bands as `FtvBand`s (named `ftv_<band>`, carrying the band's value, masked iff the pixel is) in order; time is carried over |
| LtCollection.BuildLTCollection | earth-engine/landtrendr/preprocess.py:405-458 | fails with the lookup's error iff the lookup fails; otherwise every composite is formatted, in order |
| LtCollection.IndexValueOrientation | earth-engine/landtrendr/preprocess.py:449-451 | with direction −1 the index is −1000·ND and lies in [−1000, 1000] for non-negative bands |
| LtCollection.IndexBandOrientation | earth-engine/landtrendr/preprocess.py:426-456 | for NDVI and NBR the leading band is −1000·ND(B4, other) and lies in [−1000, 1000] |
| Segments.VertexColumns | earth-engine/landtrendr/postprocess.py:46-48 | a column is kept iff its vertex flag is set, each as often as it occurs; strictly ascending years stay strictly ascending |
| Segments.FilterKeepsAscending | earth-engine/landtrendr/postprocess.py:46-48 | dropping columns keeps strictly ascending years strictly ascending |
| Segments.Divide | earth-engine/landtrendr/postprocess.py:78-79 | Earth Engine's `divide`: 0 when the divisor is 0, otherwise the quotient q with q·b = a |
| Segments.MakeSegment | earth-engine/landtrendr/postprocess.py:70-84 | yod = start year + 1 and endYr = end year; values are oriented by dir; mag is the raw change of the fitted value; dur = end − start = endYr − yod + 1; rate = mag/dur when dur ≠ 0 and 0 when dur = 0; dsnr = mag/rmse when rmse ≠ 0 and 0 when rmse = 0, as Earth Engine's `divide` gives |
| Segments.SegmentsOf | earth-engine/landtrendr/postprocess.py:70-88 | N vertices give N − 1 segments, the i-th built from vertices i and i + 1 |
| Segments.GetSegmentData | earth-engine/landtrendr/postprocess.py:21-92 | fails with the lookup's error iff the index is unsupported; otherwise the segments of the vertex columns, oriented by `Direction` (dist_dir when `right` is set, 1 otherwise) |
| Segments.SegmentsChainVertices | earth-engine/landtrendr/postprocess.py:70-84 | consecutive segments share a vertex: endYr = next yod − 1 and endVal = next startVal |
| Segments.DurationPositive | earth-engine/landtrendr/postprocess.py:77-79 | with ascending vertex years every segment lasts at least a year, its rate is mag/dur (never the 0 of a division by 0), and yod ≤ endYr |
| Segments.SegmentDataDurations | earth-engine/landtrendr/postprocess.py:46-84 | for LandTrendr output with ascending years, every segment `get_segment_data` returns lasts at least a year, has rate = mag/dur, and has yod ≤ endYr |
| Segments.MagnitudeIgnoresDirection | earth-engine/landtrendr/postprocess.py:73-78 | `right` flips the start and end values but leaves every magnitude unchanged |
| Segments.SegmentExample | earth-engine/landtrendr/postprocess.py:72-84 | vertices 2000/200 and 2005/50, dir −1, rmse 20 give (2001, 2005, −200, −50, −150, 5, −30, −7.5) |
| Segments.ZeroRmseQualifies | earth-engine/landtrendr/postprocess.py:79-133 | with an RMSE of 0 every segment's dsnr is 0, so a segment inside the year range qualifies iff the DSNR threshold is at most 0 |
| Segments.QualifyingSegments | earth-engine/landtrendr/postprocess.py:127-136 | a segment is kept iff it satisfies `Qualifies`: yod ≥ start year, endYr ≤ end year and dsnr ≥ threshold |
| Segments.LatestFirst | earth-engine/landtrendr/postprocess.py:140-141 | the sort is a permutation, and its first segment has the largest yod |
| Segments.ExtractDeforestationEvents | earth-engine/landtrendr/postprocess.py:95-142 | no event iff no segment qualifies; otherwise a qualifying input segment whose yod is at least every qualifying segment's |
| Segments.FlattenEvent | earth-engine/landtrendr/postprocess.py:183-192 | eight bands named yod, endYr, startVal, endVal, mag, dur, rate, dsnr carry the event's fields in that order; all are masked iff there is no event |
| Segments.ExtractDeforestedRegions | earth-engine/landtrendr/postprocess.py:145-194 | fails iff the index is unsupported, with the lookup's NotImplementedError or RuntimeError; otherwise flattens the event chosen from the segments with `right` = true |
| Segments.DeforestedRegionsMasked | earth-engine/landtrendr/postprocess.py:178-192 | the eight bands are all masked iff no segment qualifies; otherwise yod is at least every qualifying segment's |
| GediMetrics.CountTrue | gedi/process_l2a.py:134 | `count_nonzero` is at most the length and is zero iff no entry is set |
| GediMetrics.Masked | gedi/process_l2a.py:142 | `values[mask]` has one entry per set bit, each taken from the values |
| GediMetrics.SetPositions | gedi/process_l2a.py:126-142 | the set positions of a mask, strictly ascending, one per set bit |
| GediMetrics.MaskedAt | gedi/process_l2a.py:142 | entry j of `values[mask]` is the value at the j-th set position, so every column masked alike stays aligned shot by shot |
| GediMetrics.MaskedKeepsOnlySelected | gedi/process_l2a.py:142 | a value survives masking iff it sits at a position whose bit is set |
| GediMetrics.NonNaNMembers | gedi/process_l2a.py:178 | x is among a row's non-NaN values iff the row holds the number x |
| GediMetrics.SortedValues | gedi/process_l2a.py:177 | the row's numbers, permuted into ascending order |
| GediMetrics.SortNaNLast | gedi/process_l2a.py:177 | `np.sort` on a row puts its numbers ascending first and all NaNs after them |
| GediMetrics.NaNLastPrefix | gedi/process_l2a.py:184-186 | the first `count` entries of the sorted row are exactly its sorted numbers |
| GediMetrics.Lerp | gedi/process_l2a.py:187 | interpolation at t = 0 gives lo, and for t in [0, 1] stays within [lo, hi] |
| GediMetrics.VirtualIndex | gedi/process_l2a.py:187 | the percentile's virtual index lies in [0, n − 1]: 0 at q = 0 and n − 1 at q = 100 |
| GediMetrics.Percentile | gedi/process_l2a.py:187 | q = 0 gives the first value and q = 100 the last |
| GediMetrics.PercentileWithinRange | gedi/process_l2a.py:187 | on a sorted row every percentile lies between the smallest and the largest value |
| GediMetrics.RowPercentile | gedi/process_l2a.py:180-187 | a row without numbers yields 0 |
| GediMetrics.RowPercentileWithinRow | gedi/process_l2a.py:177-187 | a row with numbers yields a value between two of its own numbers, so NaNs play no part |
| GediMetrics.GroupPercentile | gedi/process_l2a.py:184-187 | the percentile of the first `group` sorted entries equals the row percentile of the row's numbers |
| GediMetrics.FillGroup | gedi/process_l2a.py:184-187 | the rows with `group` numbers get their percentile; every other entry keeps its value |
| GediMetrics.Groups | gedi/process_l2a.py:179-180 | a group is listed iff it is a positive count that occurs |
| GediMetrics.FillGroups | gedi/process_l2a.py:183-187 | after the loop, a row gets its percentile iff its count (`NonNaNCounts`) is one of the groups; every other entry keeps its value |
| GediMetrics.ComputeNanPercentile | gedi/process_l2a.py:156-189 | raises ValueError iff q < 0 or q > 100; otherwise one value per row, equal to that row's percentile (0 for an all-NaN row) |
| GediMetrics.CountAtLeast | gedi/process_l2a.py:226-228 | `dns` is 0 iff no height reaches the threshold, and equals the row length iff every height does |
| GediMetrics.FillBelowKeepsCanopy | gedi/process_l2a.py:220-230 | after `masked_less` (`FillBelow`) the numbers left are exactly the heights at or above the threshold, in order |
| GediMetrics.DnsCountsPercentileInput | gedi/process_l2a.py:226-231 | `dns` equals the number of values the percentiles are taken over |
| GediMetrics.CanopyMaximum | gedi/process_l2a.py:220-222 | masked iff no height reaches the threshold; otherwise a canopy height of the row that is at least every canopy height |
| GediMetrics.CanopyMinimum | gedi/process_l2a.py:220-223 | masked iff no height reaches the threshold; otherwise a canopy height of the row that is at most every canopy height |
| GediMetrics.CountEqual | gedi/process_l2a.py:237-248 | the count of a value is zero iff the value does not occur |
| GediMetrics.CountBetween | gedi/process_l2a.py:237-248 | the count is 0 iff no height lies in the closed interval between the two bounds, taken in either order |
| GediMetrics.CountBetweenSymmetric | gedi/process_l2a.py:237-248 | `masked_outside` counts are the same whichever bound comes first |
| GediMetrics.HeightBinsDoubleCountBoundaries | gedi/process_l2a.py:237-248 | d01 + d02 + d03 + d04 equals the count in [threshold, 30] plus the number of heights exactly 5, 10 or 20, which are counted twice |
| GediMetrics.BinsOfSingleReturn | gedi/process_l2a.py:144-248 | a height of 5 falls in both d01 and d02; a height of 35 counts towards `dns` but falls in no bin |
| Gedi.ShotMask | gedi/process_l2a.py:126-132 | a shot is kept (`ShotKept`) iff quality_flag = 1, lr_lat ≤ lat ≤ ul_lat and ul_lon ≤ lon ≤ lr_lon |
| Gedi.PercentileCells | gedi/process_l2a.py:231-235 | the percentile method's output, as table cells, equals the percentile column |
| Gedi.MetricColumn | gedi/process_l2a.py:192-248 | entry i of every metric column is `MetricOfShot` of shot i's heights alone: the canopy max/min, `dns`, the five percentiles and the four bins of that one shot |
| Gedi.CanopyMetrics | gedi/process_l2a.py:222-248 | exactly the metric columns, every one of them present, each with one entry per shot |
| Gedi.CanopyMetricsDisplay | gedi/process_l2a.py:222-248 | the metric columns are canopy_max, canopy_min, dns, p10..p90 at thresholds 10, 25, 50, 75, 90, and d01..d04 on [threshold,5], [5,10], [10,20], [20,30] |
| Gedi.Frame.constructor | gedi/process_l2a.py:105-121 | a new frame is empty |
| Gedi.Frame.SetColumn | gedi/process_l2a.py:139-142 | the named column is set and every other column is kept |
| Gedi.Frame.DeleteColumn | gedi/process_l2a.py:145 | the named column is removed and every other column is kept |
| Gedi.Frame.AppendCanopyMetrics | gedi/process_l2a.py:192-248 | in place, the frame gains the canopy columns computed from its `rh` vectors; the other columns and the length are unchanged |
| Gedi.LayerColumns | gedi/process_l2a.py:141-142 | each requested layer restricted to the kept shots, and nothing else |
| Gedi.BeamTable | gedi/process_l2a.py:139-142 | the `beam` label column plus every layer restricted to the kept shots, all of the kept length |
| Gedi.MaskedVectors | gedi/process_l2a.py:142-219 | masking the `rh` column leaves a column of vectors |
| Gedi.KeptRh | gedi/process_l2a.py:139-144 | one `rh` vector per kept shot, the i-th being the vector of the i-th kept shot |
| Gedi.WithMetrics | gedi/process_l2a.py:144 | appending the metrics keeps every column, changes no non-metric column, adds every metric as `MetricColumn` of the table's own `rh` vectors, and keeps the length |
| Gedi.BeamColumns | gedi/process_l2a.py:139-145 | every column of a beam's final table has one entry per kept shot; each requested layer other than `rh` holds that layer's kept shots (`Masked`), and each metric column is `MetricColumn` of the kept shots' `rh` vectors (`KeptRh`) |
| Gedi.BeamColumnsShape | gedi/process_l2a.py:139-145 | a beam's final table has no `rh`, has every canopy metric, and keeps its `beam` label |
| Gedi.KeyErrorEndsFile | gedi/process_l2a.py:107-150 | after a KeyError, the remaining beams of the file add nothing |
| Gedi.LayerColumnsSnoc | gedi/process_l2a.py:141-142 | one more loop iteration adds exactly that layer's column |
| Gedi.SetLayers | gedi/process_l2a.py:141-142 | succeeds iff the beam has every layer, and then adds exactly the masked layer columns |
| Gedi.BeamRows | gedi/process_l2a.py:111-147 | a beam that adds rows has its coordinate and quality layers and adds one row per kept shot; a beam with every key read raises no KeyError; a beam that adds at least one row has every requested layer |
| Gedi.FileScan | gedi/process_l2a.py:107-150 | a file ends with a KeyError iff one of its scanned beams raises one |
| Gedi.AllRows | gedi/process_l2a.py:105-153 | every row of the output lacks `rh`, has every canopy metric, and is labelled with one of the eight beams |
| Gedi.ProcessBeam | gedi/process_l2a.py:121-147 | one beam's pass equals the specification `BeamRows`: a KeyError for a missing layer, nothing for a beam with no kept shot, otherwise the final table's rows |
| Gedi.ProcessFile | gedi/process_l2a.py:107-151 | the beam loop equals the specification `FileScan`: beams in order, stopping at the first KeyError and keeping the rows already added |
| Gedi.GediL2AToDf | gedi/process_l2a.py:105-153 | the file loop equals the specification `AllRows`: every file's rows, in file order |
| Gedi.RowsOfShape | gedi/process_l2a.py:145-147 | every row (`RowsOf`, also the frame's `Rows`) of a labelled table without `rh` carries the metrics and the label |
| Gedi.BeamRowsShape | gedi/process_l2a.py:134-147 | a beam adds one row per kept shot; each row lacks `rh`, has every metric, and is labelled (`BeamLabels`) with the beam |
| Gedi.BeamRowContents | gedi/process_l2a.py:124-145 | row i of a beam is the i-th kept shot, at granule position `SetPositions(mask, 0)[i]`: it holds that shot's value of every requested layer other than `rh`, and every canopy metric of that shot's own `rh` vector (`MetricOfShot`) |
| Gedi.EmptyBeamAddsNothing | gedi/process_l2a.py:134-136 | a beam with no kept shot adds no row, even if it lacks layers |
| Gedi.FileRowsShape | gedi/process_l2a.py:111-147 | every row of a file comes from one of the scanned beams and has the final shape |

## Left out

- **Earth Engine plumbing:**
  - collection IDs and `filterBounds` on the area of interest;
  - lazy evaluation and tiling;
  - bilinear resampling.

  These are library behaviour with no visible source. Each sensor archive is a
  parameter: the sequence of a pixel's raw observations.
- **Arithmetic and masks:**
  - Floating point is modelled with exact integers and reals.
  - The QA mask is one band applied to all bands, so validity is per observation.
  - Per-band masks of the raw images are not modelled.
- **16-bit range of `toShort`:** Harmonize.HarmonizationRoy requires that every
  recalibrated value fits in 16 bits. It does not model `toShort`'s behaviour out
  of range. `RecalibrationFitsModerateInputs` shows this only excludes
  reflectances above 30000 in magnitude.
- **Feb 29:** 'mm-dd' bounds are restricted to days that exist in every year.
  `ee.Date.fromYMD` rolling Feb 29 over in non-leap years is not modelled.
- **Merge order:** Composite.BuildCombinedLandsat merges in sensor order, as
  `merge` does. The order in which the library iterates a merged collection
  is assumed to be that order.
- **Median:** Composite.Median uses the mean of the two middle values for an
  even count. The library's exact rule for even counts is not specified. The
  medoid properties are stated relative to whatever median is used.
- Composite.MedoidRecord: a listed year whose window holds no observation at
  all gets a masked composite. This happens when the year list, taken from the
  whole prefiltered range, names a year whose window is empty. The source
  assumes a non-empty window (`earth-engine/landtrendr/preprocess.py:79-83`),
  and Earth Engine's behaviour there is not modelled.
- **Medoid tie-break:** Composite.ReduceMin keeps the first of equally distant
  observations. The library does not specify this; every lemma states "a
  minimiser".
- **Event tie-break:** Segments.LatestFirst sorts stably. `arraySort`'s order
  among equal years is unspecified, so the lemmas state "a segment with the
  largest yod".
- **`ftv_` bands:** LtCollection.FormatImage accepts only the six canonical band
  names as `ftv_list` entries. Selecting any other band name fails inside Earth
  Engine, which is not modelled.
- **NaN from `normalizedDifference`:** LtCollection.NormalizedDifference returns
  no value when both bands are 0. Earth Engine's own result there is a
  floating-point detail. Negative bands are masked, as Earth Engine documents.
- **`np.percentile` interpolation:** GediMetrics.Percentile models the default
  linear interpolation. Its only lemma is the range bound: rounding and
  equality with `np.nanpercentile` are not modelled.
- **`canopy_std` and `canopy_avg`:** these columns are not modelled, because
  they are floating-point statistics. Gedi.CanopyMetrics adds the other twelve
  metric columns.
- **Column names:** Gedi.Column keeps the generated columns (`beam` and the
  metrics) apart from layers of the same name. A layer literally named
  `canopy_max` would be overwritten in the source but not in the model.
- **Column and row order:** table column order is not modelled. The data-frame
  index reset (`reset_index`) is not modelled either. Rows are kept in file,
  beam and shot order.
- **Missing `rh` layer:** Gedi.GediL2AToDf requires `rh` among the layers. The
  source would raise an uncaught `AttributeError` without it.
- **HDF5 errors:** errors from opening an HDF5 file other than a missing key are
  not modelled. A granule is a map from beam names to equal-length layers.
- Gedi.RhRows: accepts `rh` vectors of different lengths, where `np.stack`
  (`gedi/process_l2a.py:219`) raises. In a granule `rh` is one two-dimensional
  dataset, so its vectors always have one length.
- **Progress messages:** the `print` calls are not modelled. This includes the
  unreachable message after `continue` at `gedi/process_l2a.py:135-136`.
- **I/O and command line:** `download_url`, `df_to_geojson`, the CSV/Parquet
  writers and the `__main__` blocks are not modelled. `gedi/gediFinder.py` is
  an HTTP client and is not part of this model.
