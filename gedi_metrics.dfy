/** The numeric part of gedi/process_l2a.py: the shot filter, the NaN-aware row
    percentile `_compute_nan_percentile`, and the per-shot canopy counts of
    `_append_canopy_metrics`. A shot's `rh` vector is a `seq<real>`. */
module GediMetrics {
  import opened Wrappers
  import opened Seqs

  /** `bbox` = [ul_lat, ul_lon, lr_lat, lr_lon]. */
  datatype BBox = BBox(ulLat: real, ulLon: real, lrLat: real, lrLon: real)

  /** One element of the mask in `gedi_L2A_to_df`: quality flag 1 and inside the
      closed box. */
  predicate ShotKept(quality: real, lat: real, lon: real, box: BBox)
  {
    quality == 1.0 && lat <= box.ulLat && lat >= box.lrLat && lon <= box.lrLon && lon >= box.ulLon
  }

  /** Number of set entries of a boolean mask (`np.count_nonzero`). */
  function CountTrue(mask: seq<bool>): (n: nat)
    ensures n <= |mask|
    ensures n == 0 <==> forall i :: 0 <= i < |mask| ==> !mask[i]
  {
    if mask == [] then 0 else (if mask[0] then 1 else 0) + CountTrue(mask[1..])
  }

  /** `values[mask]`: the entries whose mask is set, in order. */
  function Masked<T>(values: seq<T>, mask: seq<bool>): (r: seq<T>)
    requires |values| == |mask|
    ensures |r| == CountTrue(mask)
    ensures forall x :: x in r ==> x in values
  {
    if values == [] then []
    else (if mask[0] then [values[0]] else []) + Masked(values[1..], mask[1..])
  }

  /** The positions whose mask bit is set, numbered from `base` and ascending; as
      many as there are set bits, so every set position occurs exactly once. */
  function SetPositions(mask: seq<bool>, base: nat): (ps: seq<nat>)
    ensures |ps| == CountTrue(mask)
    ensures forall j :: 0 <= j < |ps| ==> base <= ps[j] < base + |mask| && mask[ps[j] - base]
    ensures forall j, k :: 0 <= j < k < |ps| ==> ps[j] < ps[k]
  {
    if mask == [] then []
    else (if mask[0] then [base] else []) + SetPositions(mask[1..], base + 1)
  }

  /** Row alignment of `values[mask]`, generalised to a suffix starting at `base`. */
  lemma {:induction false} MaskedAtFrom<T>(values: seq<T>, mask: seq<bool>, base: nat)
    requires |values| == |mask|
    ensures forall j :: 0 <= j < |Masked(values, mask)| ==>
              Masked(values, mask)[j] == values[SetPositions(mask, base)[j] - base]
  {
    if values != [] {
      var tail := Masked(values[1..], mask[1..]);
      var rest := SetPositions(mask[1..], base + 1);
      MaskedAtFrom(values[1..], mask[1..], base + 1);
      var ps := SetPositions(mask, base);
      var r := Masked(values, mask);
      var off := if mask[0] then 1 else 0;
      forall j | 0 <= j < |r|
        ensures r[j] == values[ps[j] - base]
      {
        if j >= off {
          assert r[j] == tail[j - off] && ps[j] == rest[j - off];
          assert values[1..][rest[j - off] - (base + 1)] == values[ps[j] - base];
        }
      }
    }
  }

  /** Row alignment of `values[mask]`: entry `j` of every masked column is that
      column's entry at the `j`-th set position, so equal masks keep equal shots. */
  lemma MaskedAt<T>(values: seq<T>, mask: seq<bool>)
    requires |values| == |mask|
    ensures |Masked(values, mask)| == |SetPositions(mask, 0)|
    ensures forall j :: 0 <= j < |Masked(values, mask)| ==> Masked(values, mask)[j] == values[SetPositions(mask, 0)[j]]
  {
    MaskedAtFrom(values, mask, 0);
  }

  /** Keeping an element requires its mask bit: an element at a masked-out
      position only survives if it also occurs at a kept one. */
  lemma {:induction false} MaskedKeepsOnlySelected<T>(values: seq<T>, mask: seq<bool>, x: T)
    requires |values| == |mask|
    ensures x in Masked(values, mask) <==> exists i :: 0 <= i < |values| && mask[i] && values[i] == x
  {
    if values != [] {
      MaskedKeepsOnlySelected(values[1..], mask[1..], x);
      if x in Masked(values[1..], mask[1..]) {
        var i :| 0 <= i < |values[1..]| && mask[1..][i] && values[1..][i] == x;
        assert mask[i + 1] && values[i + 1] == x;
      }
      if exists i :: 0 <= i < |values| && mask[i] && values[i] == x {
        var i :| 0 <= i < |values| && mask[i] && values[i] == x;
        if i > 0 {
          assert mask[1..][i - 1] && values[1..][i - 1] == x;
        }
      }
    }
  }

  // ---------------------------------------------------------------- percentile

  /** An element of a float array: NaN or a number. */
  datatype Sample = NaN | Val(x: real)

  /** The non-NaN values of a row, in order. */
  function NonNaN(row: seq<Sample>): (vs: seq<real>)
    ensures |vs| <= |row|
  {
    if row == [] then []
    else if row[0].Val? then [row[0].x] + NonNaN(row[1..])
    else NonNaN(row[1..])
  }

  /** The non-NaN values are exactly the numbers of the row. */
  lemma {:induction false} NonNaNMembers(row: seq<Sample>, x: real)
    ensures x in NonNaN(row) <==> Val(x) in row
  {
    if row != [] {
      NonNaNMembers(row[1..], x);
      assert Val(x) in row <==> row[0] == Val(x) || Val(x) in row[1..];
    }
  }

  /** The non-NaN values of a row in ascending order. */
  function SortedValues(row: seq<Sample>): (vs: seq<real>)
    ensures |vs| == |NonNaN(row)|
    ensures multiset(vs) == multiset(NonNaN(row)) && SortedBy(vs, RealKey)
  {
    SortBy(NonNaN(row), RealKey)
  }

  /** `np.sort(a, axis=1)` on one row: the numbers ascending, NaNs last. */
  function SortNaNLast(row: seq<Sample>): (r: seq<Sample>)
    ensures |r| == |row|
    ensures forall k :: 0 <= k < |NonNaN(row)| ==> r[k] == Val(SortedValues(row)[k])
    ensures forall k :: |NonNaN(row)| <= k < |row| ==> r[k] == NaN
  {
    var vs := SortedValues(row);
    seq(|vs|, k requires 0 <= k < |vs| => Val(vs[k])) + seq(|row| - |vs|, k => NaN)
  }

  /** The numbers of a NaN-free slice. */
  function Values(s: seq<Sample>): (vs: seq<real>)
    requires forall k :: 0 <= k < |s| ==> s[k].Val?
    ensures |vs| == |s| && forall k :: 0 <= k < |s| ==> s[k] == Val(vs[k])
  {
    seq(|s|, k requires 0 <= k < |s| => s[k].x)
  }

  /** The first `count` entries of a NaN-last sorted row are exactly the sorted numbers. */
  lemma NaNLastPrefix(row: seq<Sample>)
    ensures var n := |NonNaN(row)|;
            Values(SortNaNLast(row)[..n]) == SortedValues(row)
  {
  }

  /** The product of two non-negative reals is non-negative. */
  lemma ProductNonNegative(x: real, y: real)
    requires x >= 0.0 && y >= 0.0
    ensures x * y >= 0.0
  {
  }

  /** Linear interpolation from `lo` towards `hi` by the fraction `t`. */
  function Lerp(lo: real, hi: real, t: real): (r: real)
    ensures t == 0.0 ==> r == lo
    ensures lo <= hi && 0.0 <= t <= 1.0 ==> lo <= r <= hi
  {
    if lo <= hi && 0.0 <= t <= 1.0 then
      ProductNonNegative(t, hi - lo);
      ProductNonNegative(1.0 - t, hi - lo);
      lo + t * (hi - lo)
    else lo + t * (hi - lo)
  }

  /** Scaling by a factor in [0, 100] stays within [0, 100 m]. */
  lemma {:induction false} ScaledWithin(q: real, m: nat)
    requires 0.0 <= q <= 100.0
    ensures 0.0 <= q * m as real <= 100.0 * m as real
  {
    if m > 0 {
      ScaledWithin(q, m - 1);
      assert q * m as real == q * (m - 1) as real + q;
    }
  }

  /** The virtual index q/100 * m of a percentile; it lies in [0, m]. */
  function VirtualIndex(q: real, m: nat): (pos: real)
    requires 0.0 <= q <= 100.0
    ensures 0.0 <= pos <= m as real
    ensures q == 0.0 ==> pos == 0.0
    ensures q == 100.0 ==> pos == m as real
  {
    ScaledWithin(q, m);
    q * m as real / 100.0
  }

  /** `np.percentile` with its default linear interpolation on a sorted,
      non-empty row: the value at virtual index q/100 * (n - 1). */
  function Percentile(s: seq<real>, q: real): (r: real)
    requires |s| > 0 && 0.0 <= q <= 100.0
    ensures q == 0.0 ==> r == s[0]
    ensures q == 100.0 ==> r == s[|s| - 1]
  {
    var pos := VirtualIndex(q, |s| - 1);
    var lo := pos.Floor;
    if lo + 1 < |s| then Lerp(s[lo], s[lo + 1], pos - lo as real) else s[lo]
  }

  /** On a sorted row every percentile lies between the smallest and the largest value. */
  lemma PercentileWithinRange(s: seq<real>, q: real)
    requires |s| > 0 && 0.0 <= q <= 100.0
    requires SortedBy(s, RealKey)
    ensures s[0] <= Percentile(s, q) <= s[|s| - 1]
  {
    var pos := VirtualIndex(q, |s| - 1);
    var lo := pos.Floor;
    assert 0 <= lo <= |s| - 1;
    assert lo == 0 || RealKey(s[0]) <= RealKey(s[lo]);
    if lo + 1 < |s| {
      assert RealKey(s[lo]) <= RealKey(s[lo + 1]);
      assert lo + 1 == |s| - 1 || RealKey(s[lo + 1]) <= RealKey(s[|s| - 1]);
      assert 0.0 <= pos - lo as real <= 1.0;
    } else {
      assert lo == |s| - 1;
    }
  }

  /** What `_compute_nan_percentile` yields for one row: 0 when the row has no
      number, otherwise the percentile of exactly its numbers. */
  function RowPercentile(row: seq<Sample>, q: real): (r: real)
    requires 0.0 <= q <= 100.0
    ensures |NonNaN(row)| == 0 ==> r == 0.0
  {
    var vs := SortedValues(row);
    if |vs| == 0 then 0.0 else Percentile(vs, q)
  }

  /** A row with numbers gets a value between two of its own numbers: the NaNs
      play no part. */
  lemma RowPercentileWithinRow(row: seq<Sample>, q: real)
    requires 0.0 <= q <= 100.0 && |NonNaN(row)| > 0
    ensures exists x :: Val(x) in row && x <= RowPercentile(row, q)
    ensures exists y :: Val(y) in row && RowPercentile(row, q) <= y
  {
    var vs := SortedValues(row);
    PercentileWithinRange(vs, q);
    assert vs[0] in multiset(NonNaN(row)) && vs[|vs| - 1] in multiset(NonNaN(row));
    NonNaNMembers(row, vs[0]);
    NonNaNMembers(row, vs[|vs| - 1]);
  }

  /** `np.percentile(values[:, :group], q)` for one row of a group: the
      percentile of the first `group` entries of the NaN-last sorted row, which
      are exactly the row's numbers. */
  function GroupPercentile(row: seq<Sample>, group: int, q: real): (v: real)
    requires group == |NonNaN(row)| > 0 && 0.0 <= q <= 100.0
    ensures v == RowPercentile(row, q)
  {
    NaNLastPrefix(row);
    Percentile(Values(SortNaNLast(row)[..group]), q)
  }

  datatype PercentileError = ValueError(q: real)

  /** `p[pos] = np.percentile(values[:, :group], q, axis=1)`: fill in the rows that
      have `group` numbers and leave every other row as it was. */
  method FillGroup(p: array<real>, a: seq<seq<Sample>>, count: seq<int>, group: int, q: real)
    requires p.Length == |a| == |count| && 0.0 <= q <= 100.0 && group > 0
    requires forall i :: 0 <= i < |a| ==> count[i] == |NonNaN(a[i])|
    modifies p
    ensures forall j :: 0 <= j < |a| && count[j] == group ==> p[j] == RowPercentile(a[j], q)
    ensures forall j :: 0 <= j < |a| && count[j] != group ==> p[j] == old(p[j])
  {
    forall i | 0 <= i < |a| && count[i] == group {
      p[i] := GroupPercentile(a[i], group, q);
    }
  }

  /** `(~np.isnan(a)).sum(axis=1)`: the number of non-NaN values of every row. */
  function NonNaNCounts(a: seq<seq<Sample>>): (count: seq<int>)
    ensures |count| == |a| && forall i :: 0 <= i < |a| ==> count[i] == |NonNaN(a[i])|
  {
    seq(|a|, i requires 0 <= i < |a| => |NonNaN(a[i])|)
  }

  /** `np.unique(count)` restricted to positive values: each positive count once, ascending. */
  function Groups(count: seq<int>): (groups: seq<int>)
    ensures forall g :: g in groups <==> g in count && g > 0
  {
    Filter(UniqueSorted(count), (g: int) => g > 0)
  }

  /** The loop over the groups of `_compute_nan_percentile`: every row whose count
      is one of `groups` gets its percentile, every other row keeps its value. */
  method FillGroups(p: array<real>, a: seq<seq<Sample>>, count: seq<int>, groups: seq<int>, q: real)
    requires p.Length == |a| == |count| && 0.0 <= q <= 100.0
    requires forall i :: 0 <= i < |a| ==> count[i] == |NonNaN(a[i])|
    requires forall g :: g in groups ==> g > 0
    modifies p
    ensures forall j :: 0 <= j < |a| ==> p[j] == if count[j] in groups then RowPercentile(a[j], q) else old(p[j])
  {
    for gi := 0 to |groups|
      invariant forall j :: 0 <= j < |a| ==> p[j] == if count[j] in groups[..gi] then RowPercentile(a[j], q) else old(p[j])
    {
      assert groups[gi] in groups;
      assert groups[..gi + 1] == groups[..gi] + [groups[gi]];
      FillGroup(p, a, count, groups[gi], q);
    }
    assert groups[..|groups|] == groups;
  }

  /** `_compute_nan_percentile`: sort each row NaN-last, group rows by their number
      of non-NaN values, and fill a zero array group by group. */
  method ComputeNanPercentile(a: seq<seq<Sample>>, q: real) returns (r: Result<seq<real>, PercentileError>)
    ensures r.Err? <==> q < 0.0 || q > 100.0
    ensures r.Err? ==> r.error == ValueError(q)
    ensures r.Ok? ==> |r.value| == |a| && forall i :: 0 <= i < |a| ==> r.value[i] == RowPercentile(a[i], q)
  {
    if q < 0.0 || q > 100.0 {
      return Err(ValueError(q));
    }
    var count := NonNaNCounts(a);
    var groups := Groups(count);
    var p := new real[|a|](_ => 0.0);
    FillGroups(p, a, count, groups, q);
    forall j | 0 <= j < |a|
      ensures p[j] == RowPercentile(a[j], q)
    {
      assert count[j] in count;
    }
    return Ok(p[..]);
  }

  // ---------------------------------------------------------------- canopy counts

  /** The threshold `gedi_L2A_to_df` passes to `_append_canopy_metrics`. */
  const CANOPY_THRESHOLD: real := 2.0

  /** `masked_less(rh, threshold).count()`: the canopy returns of a shot (`dns`). */
  function CountAtLeast(row: seq<real>, threshold: real): (n: nat)
    ensures n <= |row|
    ensures n == 0 <==> forall k :: 0 <= k < |row| ==> row[k] < threshold
    ensures n == |row| <==> forall k :: 0 <= k < |row| ==> row[k] >= threshold
  {
    if row == [] then 0
    else
      assert forall k :: 1 <= k < |row| ==> row[k] == row[1..][k - 1];
      (if row[0] >= threshold then 1 else 0) + CountAtLeast(row[1..], threshold)
  }

  /** `masked_less(rh, threshold)` filled with NaN: the percentile input. */
  function FillBelow(row: seq<real>, threshold: real): (r: seq<Sample>)
    ensures |r| == |row|
    ensures forall k :: 0 <= k < |row| ==> r[k] == if row[k] < threshold then NaN else Val(row[k])
  {
    seq(|row|, k requires 0 <= k < |row| => if row[k] < threshold then NaN else Val(row[k]))
  }

  /** The numbers left after masking are exactly the heights at or above the
      threshold, in their original order. */
  lemma {:induction false} FillBelowKeepsCanopy(row: seq<real>, threshold: real)
    ensures NonNaN(FillBelow(row, threshold)) == Filter(row, (x: real) => x >= threshold)
  {
    if row != [] {
      FillBelowKeepsCanopy(row[1..], threshold);
      assert FillBelow(row, threshold)[1..] == FillBelow(row[1..], threshold);
    }
  }

  /** `dns` counts exactly the values the percentiles are taken over. */
  lemma {:induction false} DnsCountsPercentileInput(row: seq<real>, threshold: real)
    ensures CountAtLeast(row, threshold) == |NonNaN(FillBelow(row, threshold))|
  {
    if row != [] {
      DnsCountsPercentileInput(row[1..], threshold);
      assert FillBelow(row, threshold)[1..] == FillBelow(row[1..], threshold);
    }
  }

  /** Largest canopy return of a shot; masked (`None`) when it has none. */
  function CanopyMaximum(row: seq<real>, threshold: real): (m: Option<real>)
    ensures m.None? <==> forall k :: 0 <= k < |row| ==> row[k] < threshold
    ensures m.Some? ==>
      m.value in row && m.value >= threshold
      && forall k :: 0 <= k < |row| && row[k] >= threshold ==> row[k] <= m.value
  {
    if row == [] then None
    else
      var rest := CanopyMaximum(row[1..], threshold);
      assert forall k :: 1 <= k < |row| ==> row[k] == row[1..][k - 1];
      if row[0] < threshold then rest
      else if rest.Some? && rest.value > row[0] then rest
      else Some(row[0])
  }

  /** Smallest canopy return of a shot; masked (`None`) when it has none. */
  function CanopyMinimum(row: seq<real>, threshold: real): (m: Option<real>)
    ensures m.None? <==> forall k :: 0 <= k < |row| ==> row[k] < threshold
    ensures m.Some? ==>
      m.value in row && m.value >= threshold
      && forall k :: 0 <= k < |row| && row[k] >= threshold ==> m.value <= row[k]
  {
    if row == [] then None
    else
      var rest := CanopyMinimum(row[1..], threshold);
      assert forall k :: 1 <= k < |row| ==> row[k] == row[1..][k - 1];
      if row[0] < threshold then rest
      else if rest.Some? && rest.value < row[0] then rest
      else Some(row[0])
  }

  /** `np.ma.masked_outside(rh, v1, v2).count()`: values in the closed interval
      between `v1` and `v2`, whichever is larger (numpy swaps the bounds). */
  function CountBetween(row: seq<real>, v1: real, v2: real): (n: nat)
    ensures n <= |row|
    ensures n == 0 <==> forall k :: 0 <= k < |row| ==> !(v1 <= row[k] <= v2 || v2 <= row[k] <= v1)
  {
    var lo := if v1 <= v2 then v1 else v2;
    var hi := if v1 <= v2 then v2 else v1;
    if row == [] then 0
    else
      assert forall k :: 1 <= k < |row| ==> row[k] == row[1..][k - 1];
      (if lo <= row[0] <= hi then 1 else 0) + CountBetween(row[1..], v1, v2)
  }

  /** Occurrences of `v` in a shot's heights. */
  function CountEqual(row: seq<real>, v: real): (n: nat)
    ensures n <= |row|
    ensures n == 0 <==> v !in row
  {
    if row == [] then 0
    else
      assert row == [row[0]] + row[1..];
      (if row[0] == v then 1 else 0) + CountEqual(row[1..], v)
  }

  /** The order of the interval bounds does not matter. */
  lemma {:induction false} CountBetweenSymmetric(row: seq<real>, v1: real, v2: real)
    ensures CountBetween(row, v1, v2) == CountBetween(row, v2, v1)
  {
    if row != [] {
      CountBetweenSymmetric(row[1..], v1, v2);
    }
  }

  /** The bins d01..d04 ([threshold,5], [5,10], [10,20], [20,30]) cover
      [threshold,30], but a height exactly 5, 10 or 20 is counted in two bins. */
  lemma {:induction false} HeightBinsDoubleCountBoundaries(row: seq<real>, threshold: real)
    requires threshold <= 5.0
    ensures CountBetween(row, threshold, 5.0) + CountBetween(row, 5.0, 10.0)
            + CountBetween(row, 10.0, 20.0) + CountBetween(row, 20.0, 30.0)
            == CountBetween(row, threshold, 30.0)
               + CountEqual(row, 5.0) + CountEqual(row, 10.0) + CountEqual(row, 20.0)
  {
    if row != [] {
      HeightBinsDoubleCountBoundaries(row[1..], threshold);
    }
  }

  /** With the caller's threshold of 2 the first bin is [2, 5]; a return above
      30 m is in no bin although it counts towards `dns`. */
  lemma BinsOfSingleReturn()
    ensures CountBetween([5.0], CANOPY_THRESHOLD, 5.0) == 1 && CountBetween([5.0], 5.0, 10.0) == 1
    ensures CountBetween([35.0], 20.0, 30.0) == 0 && CountAtLeast([35.0], CANOPY_THRESHOLD) == 1
  {
  }
}
