/** The grade distribution chart: the "Total" distribution summed bucket by bucket over the
    groups, and the datasets the chart draws. */
module DistributionChart {
  import opened Config
  import GradeStats

  /** One histogram bucket of a group (`caption` is the source's `label`). */
  datatype GradeCount = GradeCount(min: int, max: int, caption: string, count: nat)

  datatype GradeDistribution = GradeDistribution(groupId: string, groupName: string,
                                                 distribution: seq<GradeCount>, mean: real, variance: real)

  /** The source indexes the total's buckets by each group's bucket index, so no group may have
      more buckets than there are grade ranges. */
  predicate BucketsFit(ds: seq<GradeDistribution>)
  {
    forall j :: 0 <= j < |ds| ==> |ds[j].distribution| <= |GradeRanges|
  }

  /** A group's count in bucket `k`, 0 when it has no such bucket. */
  function CountAt(d: GradeDistribution, k: nat): nat
  {
    if k < |d.distribution| then d.distribution[k].count else 0
  }

  /** The groups' counts in bucket `k`, added up. */
  function ColumnSum(ds: seq<GradeDistribution>, k: nat): nat
  {
    if ds == [] then 0 else ColumnSum(ds[..|ds| - 1], k) + CountAt(ds[|ds| - 1], k)
  }

  /** The number of grades in a histogram. */
  function Count(t: seq<GradeCount>): nat
  {
    if t == [] then 0 else Count(t[..|t| - 1]) + t[|t| - 1].count
  }

  /** The middle of a bucket's range. */
  function Midpoint(g: GradeCount): real
  {
    (g.min + g.max) as real / 2.0
  }

  /** Sum of the bucket midpoints, each weighted by its count. */
  function WeightedSum(t: seq<GradeCount>): real
  {
    if t == [] then 0.0 else WeightedSum(t[..|t| - 1]) + Midpoint(t[|t| - 1]) * (t[|t| - 1].count as real)
  }

  /** Sum of the squared distances of the bucket midpoints from `m`, each weighted by its count. */
  function WeightedSquares(t: seq<GradeCount>, m: real): real
  {
    if t == [] then 0.0
    else
      var d := Midpoint(t[|t| - 1]) - m;
      WeightedSquares(t[..|t| - 1], m) + d * d * (t[|t| - 1].count as real)
  }

  /** The buckets of the total: the grade ranges, each with the groups' counts added up. */
  function TotalBuckets(ds: seq<GradeDistribution>): (t: seq<GradeCount>)
    ensures |t| == |GradeRanges|
  {
    seq(|GradeRanges|, k requires 0 <= k < |GradeRanges| =>
      GradeCount(GradeRanges[k].min, GradeRanges[k].max, GradeRanges[k].caption, ColumnSum(ds, k)))
  }

  /** Specification of `calculateTotalDistribution`: the summed buckets with their count-weighted
      mean and variance over the bucket midpoints, both 0 when there is no grade. */
  function TotalDistribution(ds: seq<GradeDistribution>): GradeDistribution
  {
    var t := TotalBuckets(ds);
    var n := Count(t) as real;
    var mean := if Count(t) > 0 then WeightedSum(t) / n else 0.0;
    GradeDistribution("total", "Total", t, mean, if Count(t) > 0 then WeightedSquares(t, mean) / n else 0.0)
  }

  /** Total number of grades over all groups. */
  function GroupsCount(ds: seq<GradeDistribution>): nat
  {
    if ds == [] then 0 else GroupsCount(ds[..|ds| - 1]) + Count(ds[|ds| - 1].distribution)
  }

  function ColumnsUpTo(ds: seq<GradeDistribution>, n: nat): nat
  {
    if n == 0 then 0 else ColumnsUpTo(ds, n - 1) + ColumnSum(ds, n - 1)
  }

  /** The counts of the buckets below `n` of one group. */
  function CountsUpTo(d: GradeDistribution, n: nat): nat
  {
    if n == 0 then 0 else CountsUpTo(d, n - 1) + CountAt(d, n - 1)
  }

  lemma {:induction false} CountsUpToPrefix(d: GradeDistribution, n: nat)
    requires n <= |d.distribution|
    ensures CountsUpTo(d, n) == Count(d.distribution[..n])
  {
    if n > 0 {
      CountsUpToPrefix(d, n - 1);
      assert d.distribution[..n][..n - 1] == d.distribution[..n - 1];
    }
  }

  lemma {:induction false} CountsUpToCount(d: GradeDistribution, n: nat)
    requires |d.distribution| <= n
    ensures CountsUpTo(d, n) == Count(d.distribution)
    decreases n
  {
    if n == |d.distribution| {
      CountsUpToPrefix(d, n);
      assert d.distribution[..n] == d.distribution;
    } else {
      CountsUpToCount(d, n - 1);
    }
  }

  lemma {:induction false} ColumnsUpToSnoc(ds: seq<GradeDistribution>, d: GradeDistribution, n: nat)
    ensures ColumnsUpTo(ds + [d], n) == ColumnsUpTo(ds, n) + CountsUpTo(d, n)
  {
    assert (ds + [d])[..|ds|] == ds;
    if n > 0 {
      ColumnsUpToSnoc(ds, d, n - 1);
    }
  }

  lemma {:induction false} ColumnsOfNone(n: nat)
    ensures ColumnsUpTo([], n) == 0
  {
    if n > 0 {
      ColumnsOfNone(n - 1);
    }
  }

  /** Summing by bucket loses and invents no grade: the total counts the grades of all groups. */
  lemma {:induction false} ColumnsCountEveryGrade(ds: seq<GradeDistribution>)
    requires BucketsFit(ds)
    ensures ColumnsUpTo(ds, |GradeRanges|) == GroupsCount(ds)
  {
    if ds == [] {
      ColumnsOfNone(|GradeRanges|);
    } else {
      var init := ds[..|ds| - 1];
      var d := ds[|ds| - 1];
      assert ds == init + [d];
      ColumnsCountEveryGrade(init);
      ColumnsUpToSnoc(init, d, |GradeRanges|);
      CountsUpToCount(d, |GradeRanges|);
    }
  }

  lemma {:induction false} CountIsColumns(ds: seq<GradeDistribution>, n: nat)
    requires n <= |GradeRanges|
    ensures Count(TotalBuckets(ds)[..n]) == ColumnsUpTo(ds, n)
  {
    if n > 0 {
      assert TotalBuckets(ds)[..n][..n - 1] == TotalBuckets(ds)[..n - 1];
      CountIsColumns(ds, n - 1);
    }
  }

  /** The total has one bucket per grade range with that range's bounds and label, each
      holding the groups' counts at that index, and counts every grade of every group. */
  lemma TotalConservesCounts(ds: seq<GradeDistribution>)
    requires BucketsFit(ds)
    ensures var t := TotalDistribution(ds);
      && t.groupId == "total" && t.groupName == "Total"
      && |t.distribution| == |GradeRanges|
      && (forall k :: 0 <= k < |GradeRanges| ==>
            && t.distribution[k].min == GradeRanges[k].min && t.distribution[k].max == GradeRanges[k].max
            && t.distribution[k].caption == GradeRanges[k].caption
            && t.distribution[k].count == ColumnSum(ds, k))
      && Count(t.distribution) == GroupsCount(ds)
  {
    CountIsColumns(ds, |GradeRanges|);
    assert TotalBuckets(ds)[..|GradeRanges|] == TotalBuckets(ds);
    ColumnsCountEveryGrade(ds);
  }

  lemma ScaleLe(a: real, b: real, c: real)
    requires a <= b && c >= 0.0
    ensures a * c <= b * c
  {
    assert (b - a) * c >= 0.0;
  }

  lemma Distribute(x: real, a: real, b: real)
    ensures x * (a + b) == x * a + x * b
  {
  }

  /** Sum of the bucket counts, each weighted by the same `x`. */
  function ScaledCount(t: seq<GradeCount>, x: real): real
  {
    if t == [] then 0.0 else ScaledCount(t[..|t| - 1], x) + x * (t[|t| - 1].count as real)
  }

  lemma {:induction false} ScaledCountIsProduct(t: seq<GradeCount>, x: real)
    ensures ScaledCount(t, x) == x * (Count(t) as real)
  {
    if t != [] {
      var init := t[..|t| - 1];
      ScaledCountIsProduct(init, x);
      Distribute(x, Count(init) as real, t[|t| - 1].count as real);
    }
  }

  lemma {:induction false} WeightedSumBetween(t: seq<GradeCount>, lo: real, hi: real)
    requires forall i :: 0 <= i < |t| ==> lo <= Midpoint(t[i]) <= hi
    ensures ScaledCount(t, lo) <= WeightedSum(t) <= ScaledCount(t, hi)
  {
    if t != [] {
      var init := t[..|t| - 1];
      var c := t[|t| - 1].count as real;
      var m := Midpoint(t[|t| - 1]);
      assert forall i :: 0 <= i < |init| ==> init[i] == t[i];
      WeightedSumBetween(init, lo, hi);
      ScaleLe(lo, m, c);
      ScaleLe(m, hi, c);
      assert WeightedSum(t) == WeightedSum(init) + m * c;
      assert ScaledCount(t, lo) == ScaledCount(init, lo) + lo * c;
      assert ScaledCount(t, hi) == ScaledCount(init, hi) + hi * c;
    }
  }

  lemma WeightedSumBounds(t: seq<GradeCount>, lo: real, hi: real)
    requires forall i :: 0 <= i < |t| ==> lo <= Midpoint(t[i]) <= hi
    ensures lo * (Count(t) as real) <= WeightedSum(t) <= hi * (Count(t) as real)
  {
    WeightedSumBetween(t, lo, hi);
    ScaledCountIsProduct(t, lo);
    ScaledCountIsProduct(t, hi);
  }

  lemma {:induction false} WeightedSquaresNonNegative(t: seq<GradeCount>, m: real)
    ensures WeightedSquares(t, m) >= 0.0
  {
    if t != [] {
      WeightedSquaresNonNegative(t[..|t| - 1], m);
      var d := Midpoint(t[|t| - 1]) - m;
      GradeStats.SquareNonNegative(d);
    }
  }

  /** Every bucket midpoint of the total is a grade in [0, 100]. */
  lemma MidpointsAreGrades(ds: seq<GradeDistribution>)
    ensures forall i :: 0 <= i < |TotalBuckets(ds)| ==> 0.0 <= Midpoint(TotalBuckets(ds)[i]) <= 100.0
  {
    GradeRangesWellFormed();
  }

  /** The mean of the total is 0 with no grade and otherwise the count-weighted mean of the
      bucket midpoints, a grade in [0, 100]; the variance is 0 with no grade and never
      negative. */
  lemma TotalMoments(ds: seq<GradeDistribution>)
    ensures var t := TotalDistribution(ds);
      && (Count(t.distribution) == 0 ==> t.mean == 0.0 && t.variance == 0.0)
      && (Count(t.distribution) > 0 ==>
            t.mean == WeightedSum(t.distribution) / (Count(t.distribution) as real) && 0.0 <= t.mean <= 100.0)
      && t.variance >= 0.0
  {
    var t := TotalBuckets(ds);
    var n := Count(t);
    if n > 0 {
      var mean := WeightedSum(t) / (n as real);
      MidpointsAreGrades(ds);
      WeightedSumBounds(t, 0.0, 100.0);
      GradeStats.MeanBetween(WeightedSum(t), n as real, 0.0, 100.0);
      WeightedSquaresNonNegative(t, mean);
    }
  }

  /** The first half of `calculateTotalDistribution`: the total's buckets, initialised from the
      grade ranges with count 0, receive each group's count at the same index, in place. */
  method SumBuckets(ds: seq<GradeDistribution>) returns (buckets: seq<GradeCount>)
    requires BucketsFit(ds)
    ensures buckets == TotalBuckets(ds)
  {
    var total := new GradeCount[|GradeRanges|](k requires 0 <= k < |GradeRanges| =>
      GradeCount(GradeRanges[k].min, GradeRanges[k].max, GradeRanges[k].caption, 0));
    for j := 0 to |ds|
      invariant forall k :: 0 <= k < total.Length ==>
        total[k] == GradeCount(GradeRanges[k].min, GradeRanges[k].max, GradeRanges[k].caption, ColumnSum(ds[..j], k))
    {
      var d := ds[j];
      assert |d.distribution| <= total.Length;
      assert ds[..j + 1][..j] == ds[..j];
      for index := 0 to |d.distribution|
        invariant forall k :: 0 <= k < total.Length ==>
          total[k] == GradeCount(GradeRanges[k].min, GradeRanges[k].max, GradeRanges[k].caption,
                                 ColumnSum(ds[..j], k) + (if k < index then CountAt(d, k) else 0))
      {
        total[index] := total[index].(count := total[index].count + d.distribution[index].count);
      }
    }
    assert ds[..|ds|] == ds;
    buckets := total[..];
  }

  /** The first pass of the second half of `calculateTotalDistribution`: the weighted sum of
      the midpoints and the number of grades. */
  method WeightedTotals(buckets: seq<GradeCount>) returns (sum: real, count: nat)
    ensures sum == WeightedSum(buckets) && count == Count(buckets)
  {
    sum := 0.0;
    count := 0;
    for k := 0 to |buckets|
      invariant sum == WeightedSum(buckets[..k]) && count == Count(buckets[..k])
    {
      var prefix := buckets[..k + 1];
      assert prefix[..k] == buckets[..k] && prefix[k] == buckets[k];
      assert WeightedSum(prefix) == WeightedSum(buckets[..k]) + Midpoint(buckets[k]) * (buckets[k].count as real);
      assert Count(prefix) == Count(buckets[..k]) + buckets[k].count;
      sum := sum + Midpoint(buckets[k]) * (buckets[k].count as real);
      count := count + buckets[k].count;
    }
    assert buckets[..|buckets|] == buckets;
  }

  /** The second pass: the weighted squared deviations of the midpoints from the mean. */
  method SquaresTotal(buckets: seq<GradeCount>, mean: real) returns (varianceSum: real)
    ensures varianceSum == WeightedSquares(buckets, mean)
  {
    varianceSum := 0.0;
    for k := 0 to |buckets|
      invariant varianceSum == WeightedSquares(buckets[..k], mean)
    {
      var prefix := buckets[..k + 1];
      assert prefix[..k] == buckets[..k] && prefix[k] == buckets[k];
      var d := Midpoint(buckets[k]) - mean;
      assert WeightedSquares(prefix, mean) == WeightedSquares(buckets[..k], mean) + d * d * (buckets[k].count as real);
      varianceSum := varianceSum + d * d * (buckets[k].count as real);
    }
    assert buckets[..|buckets|] == buckets;
  }

  /** The second half of `calculateTotalDistribution`: the mean and the variance of the bucket
      midpoints weighted by the counts, both 0 when there are no grades. */
  method Moments(buckets: seq<GradeCount>) returns (mean: real, variance: real)
    ensures mean == if Count(buckets) > 0 then WeightedSum(buckets) / (Count(buckets) as real) else 0.0
    ensures variance == if Count(buckets) > 0 then WeightedSquares(buckets, mean) / (Count(buckets) as real) else 0.0
  {
    var sum, count := WeightedTotals(buckets);
    mean := if count > 0 then sum / (count as real) else 0.0;
    var varianceSum := SquaresTotal(buckets, mean);
    variance := if count > 0 then varianceSum / (count as real) else 0.0;
  }

  /** `calculateTotalDistribution`. */
  method CalculateTotalDistribution(ds: seq<GradeDistribution>) returns (r: GradeDistribution)
    requires BucketsFit(ds)
    ensures r == TotalDistribution(ds)
  {
    var buckets := SumBuckets(ds);
    var mean, variance := Moments(buckets);
    r := GradeDistribution("total", "Total", buckets, mean, variance);
  }

  // ----- Chart datasets -----

  /** A chart dataset: one bar series per distribution, and a line for a normal curve (its
      y-values are left out). */
  datatype Dataset = Bar(name: string, data: seq<nat>, color: string) | Line(name: string, color: string)

  datatype ChartData = ChartData(labels: seq<string>, datasets: seq<Dataset>)

  function Counts(t: seq<GradeCount>): (c: seq<nat>)
    ensures |c| == |t| && forall i :: 0 <= i < |t| ==> c[i] == t[i].count
  {
    seq(|t|, i requires 0 <= i < |t| => t[i].count)
  }

  function BarOf(d: GradeDistribution, index: nat): Dataset
  {
    Bar(d.groupName, Counts(d.distribution), ColorFor(index))
  }

  function CurveOf(d: GradeDistribution, index: nat): Dataset
  {
    Line(d.groupName + " (Normal curve)", ColorFor(index))
  }

  /** The normal-curve lines for the distributions with positive variance, in order. */
  function CurveLines(vis: seq<GradeDistribution>): seq<Dataset>
  {
    if vis == [] then []
    else
      var i := |vis| - 1;
      CurveLines(vis[..i]) + (if vis[i].variance > 0.0 then [CurveOf(vis[i], i)] else [])
  }

  /** The distributions the chart shows: the groups, then the total when it is switched on. */
  function Visible(ds: seq<GradeDistribution>, showTotal: bool): seq<GradeDistribution>
    requires showTotal ==> BucketsFit(ds)
  {
    if showTotal then ds + [TotalDistribution(ds)] else ds
  }

  /** Every shown distribution with positive variance gets a normal-curve line in the colour of
      its bars. */
  lemma {:induction false} CurveLinesComplete(vis: seq<GradeDistribution>, i: nat)
    requires i < |vis| && vis[i].variance > 0.0
    ensures CurveOf(vis[i], i) in CurveLines(vis)
  {
    var n := |vis| - 1;
    if i < n {
      CurveLinesComplete(vis[..n], i);
    }
  }

  /** Every normal-curve line belongs to a shown distribution with positive variance. */
  lemma {:induction false} CurveLinesSound(vis: seq<GradeDistribution>, x: Dataset)
    requires x in CurveLines(vis)
    ensures exists i :: 0 <= i < |vis| && vis[i].variance > 0.0 && x == CurveOf(vis[i], i)
  {
    var n := |vis| - 1;
    if x in CurveLines(vis[..n]) {
      CurveLinesSound(vis[..n], x);
      var i :| 0 <= i < n && vis[..n][i].variance > 0.0 && x == CurveOf(vis[..n][i], i);
      assert vis[i] == vis[..n][i];
    } else {
      assert x == CurveOf(vis[n], n);
    }
  }

  /** The bar datasets: one per shown distribution, coloured by position. */
  function Bars(vis: seq<GradeDistribution>): (b: seq<Dataset>)
    ensures |b| == |vis| && forall i :: 0 <= i < |vis| ==> b[i] == BarOf(vis[i], i)
  {
    seq(|vis|, i requires 0 <= i < |vis| => BarOf(vis[i], i))
  }

  /** The `forEach` of `prepareChartData` that pushes a normal-curve line for each shown
      distribution with positive variance. */
  method AddCurves(visible: seq<GradeDistribution>, bars: seq<Dataset>) returns (datasets: seq<Dataset>)
    ensures datasets == bars + CurveLines(visible)
  {
    datasets := bars;
    for i := 0 to |visible|
      invariant datasets == bars + CurveLines(visible[..i])
    {
      var prefix := visible[..i + 1];
      assert prefix[..i] == visible[..i] && prefix[i] == visible[i];
      var line := if visible[i].variance > 0.0 then [CurveOf(visible[i], i)] else [];
      assert CurveLines(prefix) == CurveLines(visible[..i]) + line;
      if visible[i].variance > 0.0 {
        datasets := datasets + [CurveOf(visible[i], i)];
      }
      assert datasets == bars + (CurveLines(visible[..i]) + line);
    }
    assert visible[..|visible|] == visible;
  }

  /** `prepareChartData`: the range labels, one bar dataset per shown distribution, then, when
      normal curves are switched on, one line per shown distribution with positive variance. */
  method PrepareChartData(ds: seq<GradeDistribution>, showTotal: bool, showNormalCurve: bool)
    returns (c: ChartData)
    requires showTotal ==> BucketsFit(ds)
    ensures |c.labels| == |GradeRanges| && forall k :: 0 <= k < |GradeRanges| ==> c.labels[k] == GradeRanges[k].caption
    ensures c.datasets == Bars(Visible(ds, showTotal)) + (if showNormalCurve then CurveLines(Visible(ds, showTotal)) else [])
  {
    var visible := ds;
    if showTotal {
      var total := CalculateTotalDistribution(ds);
      visible := visible + [total];
    }
    var datasets := Bars(visible);
    if showNormalCurve {
      datasets := AddCurves(visible, datasets);
    }
    var labels := seq(|GradeRanges|, k requires 0 <= k < |GradeRanges| => GradeRanges[k].caption);
    c := ChartData(labels, datasets);
  }
}
