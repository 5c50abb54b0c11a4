/** The grade statistics engine of the grades service: summary statistics, the ten-bin
    histogram, grouping of grades by group name and the x-domain of the normal curve.
    Numbers are exact reals; the source uses IEEE doubles. */
module GradeStats {
  import opened Wrappers
  import opened Sorting
  import opened SeqOps

  /** Number of histogram bins. */
  const BinCount: nat := 10

  // ----- Sums -----

  /** Left fold `f(s[0]) + f(s[1]) + ...`, the shape of `reduce((acc, val) => acc + val, 0)`. */
  function SumOf(s: seq<real>, f: real -> real): real
  {
    if s == [] then 0.0 else SumOf(s[..|s| - 1], f) + f(s[|s| - 1])
  }

  function Identity(x: real): real { x }

  function SquaredDeviation(m: real): real -> real
  {
    x => (x - m) * (x - m)
  }

  function Sum(s: seq<real>): real { SumOf(s, Identity) }

  /** Sum of the squared differences from `m`. */
  function SquaredDeviationSum(s: seq<real>, m: real): real { SumOf(s, SquaredDeviation(m)) }

  lemma {:induction false} SumOfConcat(p: seq<real>, q: seq<real>, f: real -> real)
    ensures SumOf(p + q, f) == SumOf(p, f) + SumOf(q, f)
  {
    if q != [] {
      assert (p + q)[..|p + q| - 1] == p + q[..|q| - 1];
      SumOfConcat(p, q[..|q| - 1], f);
    } else {
      assert p + q == p;
    }
  }

  /** A sum does not depend on the order of its terms. */
  lemma {:induction false} SumOfPermutation(a: seq<real>, b: seq<real>, f: real -> real)
    requires multiset(a) == multiset(b)
    ensures SumOf(a, f) == SumOf(b, f)
  {
    if a == [] {
      assert |b| == |multiset(b)| == 0;
    } else {
      var n := |a|;
      var x := a[n - 1];
      assert a == a[..n - 1] + [x];
      assert x in multiset(b) by { assert x in multiset(a); }
      var j :| 0 <= j < |b| && b[j] == x;
      var rest := b[..j] + b[j + 1..];
      RemoveOne(b, j);
      assert multiset(a[..n - 1]) == multiset(a) - multiset{x};
      SumOfPermutation(a[..n - 1], rest, f);
      SumOfRemove(b, j, f);
    }
  }

  /** Taking out the element at `j` takes one copy of it out of the multiset. */
  lemma RemoveOne(b: seq<real>, j: nat)
    requires j < |b|
    ensures multiset(b[..j] + b[j + 1..]) == multiset(b) - multiset{b[j]}
  {
    assert b == b[..j] + [b[j]] + b[j + 1..];
  }

  /** Taking out the element at `j` takes its term out of the sum. */
  lemma SumOfRemove(b: seq<real>, j: nat, f: real -> real)
    requires j < |b|
    ensures SumOf(b, f) == SumOf(b[..j] + b[j + 1..], f) + f(b[j])
  {
    var x, p, q := b[j], b[..j], b[j + 1..];
    assert b == (p + [x]) + q by {
      assert b[..j + 1] == p + [x];
      assert b == b[..j + 1] + q;
    }
    calc {
      SumOf(b, f);
    == { SumOfConcat(p + [x], q, f); }
      SumOf(p + [x], f) + SumOf(q, f);
    == { SumOfConcat(p, [x], f); assert [x][..0] == []; }
      SumOf(p, f) + f(x) + SumOf(q, f);
    == { SumOfConcat(p, q, f); }
      SumOf(p + q, f) + f(x);
    }
  }

  lemma {:induction false} SquaredDeviationSumNonNegative(s: seq<real>, m: real)
    ensures SquaredDeviationSum(s, m) >= 0.0
  {
    if s != [] {
      var x := s[|s| - 1];
      SquaredDeviationSumNonNegative(s[..|s| - 1], m);
      SquareNonNegative(x - m);
      assert SquaredDeviation(m)(x) == (x - m) * (x - m);
    }
  }

  lemma SquareNonNegative(d: real)
    ensures d * d >= 0.0
  {
    if d < 0.0 {
      assert d * d == (-d) * (-d);
    }
  }

  /** If every term lies in [lo, hi] then the sum lies in [n lo, n hi]. */
  lemma {:induction false} SumBounds(s: seq<real>, lo: real, hi: real)
    requires forall i :: 0 <= i < |s| ==> lo <= s[i] <= hi
    ensures lo * (|s| as real) <= Sum(s) <= hi * (|s| as real)
  {
    if s != [] {
      var n := |s|;
      SumBounds(s[..n - 1], lo, hi);
      assert lo * (n as real) == lo * ((n - 1) as real) + lo;
      assert hi * (n as real) == hi * ((n - 1) as real) + hi;
    }
  }

  // ----- Median -----

  /** Middle element for odd length, mean of the two middle elements for even length. */
  function Median(sorted: seq<real>): real
    requires |sorted| > 0
  {
    var mid := |sorted| / 2;
    if |sorted| % 2 == 0 then (sorted[mid - 1] + sorted[mid]) / 2.0 else sorted[mid]
  }

  lemma MedianBetween(sorted: seq<real>)
    requires |sorted| > 0 && Sorted(sorted)
    ensures sorted[0] <= Median(sorted) <= sorted[|sorted| - 1]
  {
    var mid := |sorted| / 2;
    SortedBounds(sorted, mid);
    if |sorted| % 2 == 0 {
      SortedBounds(sorted, mid - 1);
    }
  }

  // ----- Histogram -----

  /** `(max - min) / binCount || 1`: a zero width falls back to 1. */
  function BinWidth(lo: real, hi: real): real
  {
    var w := (hi - lo) / (BinCount as real);
    if w == 0.0 then 1.0 else w
  }

  function BinStart(lo: real, w: real, i: nat): real
  {
    lo + (i as real) * w
  }

  /** Bin `i` is [start, end); the last bin also takes `end`. */
  predicate InBin(v: real, lo: real, w: real, i: nat)
  {
    var start := BinStart(lo, w, i);
    var end := start + w;
    v >= start && (v < end || (i == BinCount - 1 && v == end))
  }

  /** The first bin at or after `i` that contains `v`, or `BinCount` when there is none. */
  function BinFrom(v: real, lo: real, w: real, i: nat): (b: nat)
    requires i <= BinCount
    decreases BinCount - i
    ensures i <= b <= BinCount
    ensures b < BinCount ==> InBin(v, lo, w, b)
    ensures forall j :: i <= j < b ==> !InBin(v, lo, w, j)
  {
    if i == BinCount then BinCount
    else if InBin(v, lo, w, i) then i
    else BinFrom(v, lo, w, i + 1)
  }

  /** The bin the counting loop increments for `v` (`BinCount`: none). */
  function BinOf(v: real, lo: real, w: real): nat
  {
    BinFrom(v, lo, w, 0)
  }

  function CountInBin(vals: seq<real>, lo: real, w: real, b: nat): nat
  {
    if vals == [] then 0
    else CountInBin(vals[..|vals| - 1], lo, w, b) + (if BinOf(vals[|vals| - 1], lo, w) == b then 1 else 0)
  }

  /** Bin counts by bin index. */
  function Histogram(vals: seq<real>, lo: real, w: real): (h: seq<nat>)
    ensures |h| == BinCount
  {
    seq(BinCount, b requires 0 <= b => CountInBin(vals, lo, w, b))
  }

  function BinTotal(h: seq<nat>): nat
  {
    if h == [] then 0 else BinTotal(h[..|h| - 1]) + h[|h| - 1]
  }

  /** Number of values that land in some bin. */
  function Binned(vals: seq<real>, lo: real, w: real): nat
  {
    if vals == [] then 0
    else Binned(vals[..|vals| - 1], lo, w) + (if BinOf(vals[|vals| - 1], lo, w) < BinCount then 1 else 0)
  }

  /** Every value between the minimum and the maximum lands in exactly one bin. */
  lemma ExactlyOneBin(v: real, lo: real, hi: real)
    requires lo <= v <= hi
    ensures BinOf(v, lo, BinWidth(lo, hi)) < BinCount
    ensures forall j :: 0 <= j < BinCount ==> (InBin(v, lo, BinWidth(lo, hi), j) <==> j == BinOf(v, lo, BinWidth(lo, hi)))
  {
    var w := BinWidth(lo, hi);
    if hi == lo {
      assert w == 1.0;
      assert InBin(v, lo, w, 0);
    } else {
      assert w == (hi - lo) / 10.0 && w > 0.0;
      assert BinStart(lo, w, 10) == hi;
      BinFound(v, lo, w, 0);
    }
    var b := BinOf(v, lo, w);
    forall j | 0 <= j < BinCount && InBin(v, lo, w, j)
      ensures j == b
    {
      if b < j {
        BinsDisjoint(v, lo, w, b, j);
      }
    }
  }

  lemma {:induction false} BinFound(v: real, lo: real, w: real, i: nat)
    requires w > 0.0 && i < BinCount
    requires BinStart(lo, w, i) <= v <= BinStart(lo, w, BinCount)
    ensures BinFrom(v, lo, w, i) < BinCount
    decreases BinCount - i
  {
    if i == BinCount - 1 {
      assert BinStart(lo, w, i) + w == BinStart(lo, w, BinCount);
      assert InBin(v, lo, w, i);
    } else if !InBin(v, lo, w, i) {
      assert BinStart(lo, w, i) + w == BinStart(lo, w, i + 1);
      BinFound(v, lo, w, i + 1);
    }
  }

  /** A value is never in two different bins. */
  lemma BinsDisjoint(v: real, lo: real, w: real, i: nat, j: nat)
    requires w > 0.0
    requires i < j < BinCount
    requires InBin(v, lo, w, i)
    ensures !InBin(v, lo, w, j)
  {
    BinStartsIncrease(lo, w, i, j);
  }

  /** A later bin starts at or after the end of an earlier one. */
  lemma BinStartsIncrease(lo: real, w: real, i: nat, j: nat)
    requires w > 0.0 && i < j
    ensures BinStart(lo, w, i) + w <= BinStart(lo, w, j)
  {
    var d := (j - i - 1) as real;
    assert d * w >= 0.0;
    assert BinStart(lo, w, j) - (BinStart(lo, w, i) + w) == d * w;
  }

  lemma HistogramSnoc(vals: seq<real>, v: real, lo: real, w: real)
    ensures var b := BinOf(v, lo, w);
            Histogram(vals + [v], lo, w)
            == if b < BinCount then Histogram(vals, lo, w)[b := Histogram(vals, lo, w)[b] + 1]
               else Histogram(vals, lo, w)
  {
    assert (vals + [v])[..|vals|] == vals;
  }

  lemma {:induction false} BinTotalIncrement(h: seq<nat>, b: nat)
    requires b < |h|
    ensures BinTotal(h[b := h[b] + 1]) == BinTotal(h) + 1
  {
    var n := |h|;
    var h' := h[b := h[b] + 1];
    assert h'[..n - 1] == if b < n - 1 then h[..n - 1][b := h[b] + 1] else h[..n - 1];
    if b < n - 1 {
      BinTotalIncrement(h[..n - 1], b);
    }
  }

  lemma {:induction false} HistogramCountsBinned(vals: seq<real>, lo: real, w: real)
    ensures BinTotal(Histogram(vals, lo, w)) == Binned(vals, lo, w)
  {
    if vals == [] {
      var h := Histogram(vals, lo, w);
      assert h == seq(BinCount, _ => 0);
      assert BinTotal(h[..0]) == 0;
      var k := 1;
      while k <= BinCount
        invariant 1 <= k <= BinCount + 1
        invariant BinTotal(h[..k - 1]) == 0
      {
        assert h[..k][..k - 1] == h[..k - 1];
        k := k + 1;
      }
      assert h[..BinCount] == h;
    } else {
      var init := vals[..|vals| - 1];
      var v := vals[|vals| - 1];
      assert vals == init + [v];
      HistogramSnoc(init, v, lo, w);
      HistogramCountsBinned(init, lo, w);
      var b := BinOf(v, lo, w);
      if b < BinCount {
        BinTotalIncrement(Histogram(init, lo, w), b);
      }
    }
  }

  /** When every value lies between `lo` and `hi`, the bin counts sum to the number of values. */
  lemma {:induction false} HistogramTotal(vals: seq<real>, lo: real, hi: real)
    requires forall i :: 0 <= i < |vals| ==> lo <= vals[i] <= hi
    ensures BinTotal(Histogram(vals, lo, BinWidth(lo, hi))) == |vals|
  {
    var w := BinWidth(lo, hi);
    HistogramCountsBinned(vals, lo, w);
    AllBinned(vals, lo, hi);
  }

  lemma {:induction false} AllBinned(vals: seq<real>, lo: real, hi: real)
    requires forall i :: 0 <= i < |vals| ==> lo <= vals[i] <= hi
    ensures Binned(vals, lo, BinWidth(lo, hi)) == |vals|
  {
    if vals != [] {
      AllBinned(vals[..|vals| - 1], lo, hi);
      ExactlyOneBin(vals[|vals| - 1], lo, hi);
    }
  }

  // ----- Summary statistics -----

  /** Result of `calculateStats`; `variance` is the square of the source's standardDeviation. */
  datatype Stats = Stats(min: real, max: real, mean: real, median: real, variance: real, distribution: seq<nat>)

  /** Specification of `calculateStats`: everything computed on the sorted copy. */
  function Summary(values: seq<real>): Stats
  {
    if values == [] then Stats(0.0, 0.0, 0.0, 0.0, 0.0, [])
    else
      var sorted := SortedCopy(values);
      var n := |sorted| as real;
      var lo := sorted[0];
      var hi := sorted[|sorted| - 1];
      var mean := Sum(sorted) / n;
      Stats(lo, hi, mean, Median(sorted), SquaredDeviationSum(sorted, mean) / n,
            Histogram(sorted, lo, BinWidth(lo, hi)))
  }

  /** The minimum and maximum are the smallest and largest input values; the median lies
      between them. */
  lemma SummaryBounds(values: seq<real>)
    requires values != []
    ensures var s := Summary(values);
      && s.min in values && s.max in values
      && (forall i :: 0 <= i < |values| ==> s.min <= values[i] <= s.max)
      && s.min <= s.median <= s.max
  {
    var sorted := SortedCopy(values);
    var lo, hi := sorted[0], sorted[|sorted| - 1];
    assert Summary(values).min == lo && Summary(values).max == hi;
    assert Summary(values).median == Median(sorted);
    SortedCopyMembers(values, lo);
    SortedCopyMembers(values, hi);
    forall i | 0 <= i < |values| ensures lo <= values[i] <= hi {
      SortedCopyMembers(values, values[i]);
      var k :| 0 <= k < |sorted| && sorted[k] == values[i];
      SortedBounds(sorted, k);
    }
    MedianBetween(sorted);
  }

  /** The mean is the arithmetic mean of the caller's values and lies between min and max. */
  lemma SummaryMean(values: seq<real>)
    requires values != []
    ensures var s := Summary(values);
      s.mean == Sum(values) / (|values| as real) && s.min <= s.mean <= s.max
  {
    var sorted := SortedCopy(values);
    SumOfPermutation(sorted, values, Identity);
    SortedMeanBetween(sorted);
  }

  lemma SortedMeanBetween(sorted: seq<real>)
    requires sorted != [] && Sorted(sorted)
    ensures sorted[0] <= Sum(sorted) / (|sorted| as real) <= sorted[|sorted| - 1]
  {
    var lo, hi := sorted[0], sorted[|sorted| - 1];
    forall i | 0 <= i < |sorted| ensures lo <= sorted[i] <= hi {
      SortedBounds(sorted, i);
    }
    SumBounds(sorted, lo, hi);
    MeanBetween(Sum(sorted), |sorted| as real, lo, hi);
  }

  /** The variance is the population variance of the caller's values (divisor n) and is
      never negative. */
  lemma SummaryVariance(values: seq<real>)
    requires values != []
    ensures var s := Summary(values);
      s.variance == SquaredDeviationSum(values, s.mean) / (|values| as real) && s.variance >= 0.0
  {
    var sorted := SortedCopy(values);
    var n := |values| as real;
    var mean := Sum(sorted) / n;
    assert Summary(values).mean == mean;
    assert Summary(values).variance == SquaredDeviationSum(sorted, mean) / n;
    SumOfPermutation(sorted, values, SquaredDeviation(mean));
    SquaredDeviationSumNonNegative(values, mean);
  }

  /** The histogram has ten bins whose counts add up to the number of values. */
  lemma SummaryHistogram(values: seq<real>)
    requires values != []
    ensures |Summary(values).distribution| == BinCount
    ensures BinTotal(Summary(values).distribution) == |values|
  {
    var sorted := SortedCopy(values);
    var lo, hi := sorted[0], sorted[|sorted| - 1];
    assert Summary(values).distribution == Histogram(sorted, lo, BinWidth(lo, hi));
    forall i | 0 <= i < |sorted| ensures lo <= sorted[i] <= hi {
      SortedBounds(sorted, i);
    }
    HistogramTotal(sorted, lo, hi);
  }

  /** A total between `lo * n` and `hi * n` gives a mean between `lo` and `hi`. */
  lemma MeanBetween(total: real, n: real, lo: real, hi: real)
    requires n > 0.0 && lo * n <= total <= hi * n
    ensures lo <= total / n <= hi
  {
  }

  /** The histogram loops of `calculateStats`: ten bins set to 0, then each value counted in the
      first bin whose range holds it (the last bin also holds its end point). */
  method FillBins(sorted: seq<real>, min: real, binSize: real) returns (distribution: seq<nat>)
    ensures distribution == Histogram(sorted, min, binSize)
  {
    distribution := [];
    for i := 0 to BinCount
      invariant distribution == seq(i, _ => 0)
    {
      distribution := distribution + [0];
    }
    assert distribution == Histogram([], min, binSize);

    for k := 0 to |sorted|
      invariant distribution == Histogram(sorted[..k], min, binSize)
    {
      var v := sorted[k];
      assert sorted[..k + 1] == sorted[..k] + [v];
      HistogramSnoc(sorted[..k], v, min, binSize);
      ghost var before := distribution;
      ghost var b := BinOf(v, min, binSize);
      var i := 0;
      while i < BinCount
        invariant 0 <= i <= BinCount
        invariant BinFrom(v, min, binSize, i) == b
        invariant distribution == before
      {
        var binStart := BinStart(min, binSize, i);
        var binEnd := binStart + binSize;
        if v >= binStart && (v < binEnd || (i == BinCount - 1 && v == binEnd)) {
          distribution := distribution[i := distribution[i] + 1];
          break;
        }
        i := i + 1;
      }
      assert distribution == if b < BinCount then before[b := before[b] + 1] else before;
    }
    assert sorted[..|sorted|] == sorted;
  }

  /** `calculateStats`: sorts a copy, computes the scalar statistics and fills the bins. */
  method CalculateStats(values: seq<real>) returns (s: Stats)
    ensures s == Summary(values)
    ensures values == [] ==> s.distribution == [] && s.min == s.max == s.mean == s.median == s.variance == 0.0
    ensures values != [] ==> |s.distribution| == BinCount && BinTotal(s.distribution) == |values|
    ensures values != [] ==> s.min <= s.median <= s.max && s.variance >= 0.0
  {
    if |values| == 0 {
      return Stats(0.0, 0.0, 0.0, 0.0, 0.0, []);
    }
    var sorted := SortedCopy(values);
    var n := |sorted|;
    var min := sorted[0];
    var max := sorted[n - 1];
    var mean := Sum(sorted) / (n as real);
    var median := Median(sorted);
    var variance := SquaredDeviationSum(sorted, mean) / (n as real);
    var binSize := BinWidth(min, max);
    var distribution := FillBins(sorted, min, binSize);
    s := Stats(min, max, mean, median, variance, distribution);
    SummaryBounds(values);
    SummaryVariance(values);
    SummaryHistogram(values);
  }

  // ----- Grouping (getDistribution) -----

  /** A grade value with the name of the group it is reported under. */
  datatype Labelled = Labelled(group: string, value: real)

  function Labels(rows: seq<Labelled>): (r: seq<string>)
    ensures |r| == |rows|
  {
    if rows == [] then [] else Labels(rows[..|rows| - 1]) + [rows[|rows| - 1].group]
  }

  /** Each label once, in order of first occurrence. */
  function FirstOccurrences(s: seq<string>): seq<string>
  {
    if s == [] then []
    else
      var d := FirstOccurrences(s[..|s| - 1]);
      if s[|s| - 1] in d then d else d + [s[|s| - 1]]
  }

  /** The values reported under `name`, in input order. */
  function ValuesLabelled(rows: seq<Labelled>, name: string): seq<real>
  {
    if rows == [] then []
    else
      var last := rows[|rows| - 1];
      ValuesLabelled(rows[..|rows| - 1], name) + (if last.group == name then [last.value] else [])
  }

  lemma {:induction false} FirstOccurrencesMembers(s: seq<string>)
    ensures forall x :: x in FirstOccurrences(s) <==> x in s
    ensures NoDuplicates(FirstOccurrences(s))
  {
    if s != [] {
      FirstOccurrencesMembers(s[..|s| - 1]);
      assert s == s[..|s| - 1] + [s[|s| - 1]];
    }
  }

  /** Total number of values over the groups named in `names`. */
  function GroupedCount(rows: seq<Labelled>, names: seq<string>): nat
  {
    if names == [] then 0
    else GroupedCount(rows, names[..|names| - 1]) + |ValuesLabelled(rows, names[|names| - 1])|
  }

  function Occurrences(names: seq<string>, x: string): nat
  {
    if names == [] then 0
    else Occurrences(names[..|names| - 1], x) + (if names[|names| - 1] == x then 1 else 0)
  }

  lemma {:induction false} GroupedCountSnoc(rows: seq<Labelled>, r: Labelled, names: seq<string>)
    ensures GroupedCount(rows + [r], names) == GroupedCount(rows, names) + Occurrences(names, r.group)
  {
    assert (rows + [r])[..|rows|] == rows;
    if names != [] {
      GroupedCountSnoc(rows, r, names[..|names| - 1]);
    }
  }

  lemma {:induction false} OccursOnce(names: seq<string>, x: string)
    requires NoDuplicates(names)
    ensures Occurrences(names, x) == if x in names then 1 else 0
  {
    if names != [] {
      var init := names[..|names| - 1];
      assert names == init + [names[|names| - 1]];
      OccursOnce(init, x);
    }
  }

  lemma {:induction false} AbsentLabelEmpty(rows: seq<Labelled>, x: string)
    requires x !in Labels(rows)
    ensures ValuesLabelled(rows, x) == []
  {
    if rows != [] {
      assert Labels(rows) == Labels(rows[..|rows| - 1]) + [rows[|rows| - 1].group];
      AbsentLabelEmpty(rows[..|rows| - 1], x);
    }
  }

  /** The groups partition the grades: their sizes add up to the number of grades. */
  lemma {:induction false} GroupsPartition(rows: seq<Labelled>)
    ensures GroupedCount(rows, FirstOccurrences(Labels(rows))) == |rows|
  {
    if rows != [] {
      var init := rows[..|rows| - 1];
      var r := rows[|rows| - 1];
      assert rows == init + [r];
      var names := FirstOccurrences(Labels(init));
      assert Labels(rows) == Labels(init) + [r.group];
      assert Labels(rows)[..|rows| - 1] == Labels(init);
      GroupsPartition(init);
      FirstOccurrencesMembers(Labels(init));
      FirstOccurrencesMembers(Labels(rows));
      var names' := FirstOccurrences(Labels(rows));
      if r.group !in names {
        assert names' == names + [r.group];
        assert names'[..|names'| - 1] == names;
        AbsentLabelEmpty(init, r.group);
      }
      assert GroupedCount(init, names') == GroupedCount(init, names);
      GroupedCountSnoc(init, r, names');
      OccursOnce(names', r.group);
    }
  }

  /** How the labels and their first occurrences grow by one row. */
  lemma LabelsStep(rows: seq<Labelled>, k: nat)
    requires k < |rows|
    ensures Labels(rows[..k + 1]) == Labels(rows[..k]) + [rows[k].group]
    ensures FirstOccurrences(Labels(rows[..k + 1])) ==
      if rows[k].group in FirstOccurrences(Labels(rows[..k])) then FirstOccurrences(Labels(rows[..k]))
      else FirstOccurrences(Labels(rows[..k])) + [rows[k].group]
  {
    var p := rows[..k + 1];
    assert p[..k] == rows[..k] && p[k] == rows[k];
    assert Labels(p)[..k] == Labels(rows[..k]);
  }

  /** How the values under each label grow by one row: only the row's own label gains its value. */
  lemma ValuesStep(rows: seq<Labelled>, k: nat)
    requires k < |rows|
    ensures forall g :: g != rows[k].group ==> ValuesLabelled(rows[..k + 1], g) == ValuesLabelled(rows[..k], g)
    ensures ValuesLabelled(rows[..k + 1], rows[k].group) == ValuesLabelled(rows[..k], rows[k].group) + [rows[k].value]
  {
    var p := rows[..k + 1];
    assert p[..k] == rows[..k] && p[k] == rows[k];
  }

  /** One step of the grouping loop: appending row `k` to its group (created empty on first
      sight) turns the groups of the first `k` rows into those of the first `k + 1`. */
  lemma GroupStep(rows: seq<Labelled>, k: nat, groups: map<string, seq<real>>)
    requires k < |rows|
    requires forall g :: g in groups <==> g in Labels(rows[..k])
    requires forall g :: g in groups ==> groups[g] == ValuesLabelled(rows[..k], g)
    ensures var r := rows[k];
      var after := groups[r.group := (if r.group in groups then groups[r.group] else []) + [r.value]];
      && (forall g :: g in after <==> g in Labels(rows[..k + 1]))
      && (forall g :: g in after ==> after[g] == ValuesLabelled(rows[..k + 1], g))
  {
    var r := rows[k];
    var after := groups[r.group := (if r.group in groups then groups[r.group] else []) + [r.value]];
    LabelsStep(rows, k);
    ValuesStep(rows, k);
    forall g ensures g in after <==> g in Labels(rows[..k + 1]) {
      assert g in Labels(rows[..k]) + [r.group] <==> g in Labels(rows[..k]) || g == r.group;
    }
    forall g | g in after ensures after[g] == ValuesLabelled(rows[..k + 1], g) {
      if g == r.group {
        if r.group !in groups {
          AbsentLabelEmpty(rows[..k], r.group);
        }
      } else {
        assert after[g] == groups[g];
      }
    }
  }

  /** The grouping loop of `getDistribution`: creates a group on first sight of its name and
      appends the value to it. */
  method GroupByLabel(rows: seq<Labelled>) returns (names: seq<string>, groups: map<string, seq<real>>)
    ensures names == FirstOccurrences(Labels(rows))
    ensures forall g :: g in groups <==> g in Labels(rows)
    ensures forall g :: g in groups ==> groups[g] == ValuesLabelled(rows, g)
  {
    names := [];
    groups := map[];
    for k := 0 to |rows|
      invariant names == FirstOccurrences(Labels(rows[..k]))
      invariant forall g :: g in groups <==> g in Labels(rows[..k])
      invariant forall g :: g in groups ==> groups[g] == ValuesLabelled(rows[..k], g)
    {
      var r := rows[k];
      LabelsStep(rows, k);
      FirstOccurrencesMembers(Labels(rows[..k]));
      GroupStep(rows, k, groups);
      var current := [];
      if r.group in groups {
        current := groups[r.group];
      } else {
        names := names + [r.group];
      }
      groups := groups[r.group := current + [r.value]];
    }
    assert rows[..|rows|] == rows;
  }

  // ----- Normal curve x-domain (generateNormalCurve) -----

  /** `Math.max(0, mean - 3 * standardDeviation)` */
  function CurveLow(mean: real, sd: real): real
  {
    if 0.0 >= mean - 3.0 * sd then 0.0 else mean - 3.0 * sd
  }

  /** `Math.min(100, mean + 3 * standardDeviation)` */
  function CurveHigh(mean: real, sd: real): real
  {
    if 100.0 <= mean + 3.0 * sd then 100.0 else mean + 3.0 * sd
  }

  /** For a mean inside the grade range the clipped three-sigma window is a non-empty
      interval of [0, 100] containing the mean. */
  lemma CurveDomain(mean: real, sd: real)
    requires 0.0 <= mean <= 100.0 && sd >= 0.0
    ensures 0.0 <= CurveLow(mean, sd) <= mean <= CurveHigh(mean, sd) <= 100.0
  {
  }

  lemma StepWithin(lo: real, hi: real, points: nat, i: nat)
    requires lo <= hi && 0 < points && i <= points
    ensures lo <= lo + (i as real) * ((hi - lo) / (points as real)) <= hi
  {
    var step := (hi - lo) / (points as real);
    assert step >= 0.0;
    assert (i as real) * step <= (points as real) * step;
    assert (points as real) * step == hi - lo;
  }

  lemma StepEnd(lo: real, hi: real, points: nat)
    requires 0 < points
    ensures lo + (points as real) * ((hi - lo) / (points as real)) == hi
  {
  }

  /** `(max - min) / points`: none for a count of 0, where JavaScript's division gives NaN or
      Infinity and every x-coordinate computed from it is NaN. */
  function CurveStep(lo: real, hi: real, points: int): (step: Option<real>)
    ensures step.None? <==> points == 0
  {
    if points == 0 then None else Some((hi - lo) / (points as real))
  }

  /** `min + i * step`, NaN (`None`) when the step is. */
  function CurvePoint(min: real, step: Option<real>, i: nat): Option<real>
  {
    if step.None? then None else Some(min + (i as real) * step.value)
  }

  /** The `i`-th x-coordinate of `generateNormalCurve`. */
  function CurveX(mean: real, sd: real, points: int, i: nat): Option<real>
  {
    CurvePoint(CurveLow(mean, sd), CurveStep(CurveLow(mean, sd), CurveHigh(mean, sd), points), i)
  }

  /** For a positive count every coordinate is a number in the window, which lies in [0, 100];
      the first is the window's low end and the last its high end. */
  lemma CurveXWithin(mean: real, sd: real, points: int, i: nat)
    requires 0.0 <= mean <= 100.0 && sd >= 0.0 && 0 < points && i <= points
    ensures CurveX(mean, sd, points, i).Some?
    ensures 0.0 <= CurveLow(mean, sd) <= CurveX(mean, sd, points, i).value <= CurveHigh(mean, sd) <= 100.0
    ensures i == 0 ==> CurveX(mean, sd, points, i).value == CurveLow(mean, sd)
    ensures i == points ==> CurveX(mean, sd, points, i).value == CurveHigh(mean, sd)
  {
    var lo, hi := CurveLow(mean, sd), CurveHigh(mean, sd);
    var step := (hi - lo) / (points as real);
    assert CurveStep(lo, hi, points).value == step;
    assert CurveX(mean, sd, points, i).value == lo + (i as real) * step;
    CurveDomain(mean, sd);
    StepWithin(lo, hi, points, i);
    if i == points {
      StepEnd(lo, hi, points);
    }
  }

  /** The x-coordinates of `generateNormalCurve`: `points + 1` equal steps over the clipped window,
      no point at all for a negative count, and a single NaN coordinate (`None`) for a count of
      0. */
  method CurveXs(mean: real, sd: real, points: int) returns (xs: seq<Option<real>>)
    ensures |xs| == if points < 0 then 0 else points + 1
    ensures points == 0 ==> xs == [None]
    ensures points != 0 ==> forall i :: 0 <= i < |xs| ==> xs[i].Some? && xs[i] == CurveX(mean, sd, points, i)
    ensures 0.0 <= mean <= 100.0 && sd >= 0.0 && points > 0 ==>
      xs[0].Some? && xs[0].value == CurveLow(mean, sd) && xs[points].Some? && xs[points].value == CurveHigh(mean, sd) &&
      forall i :: 0 <= i < |xs| ==> xs[i].Some? && 0.0 <= CurveLow(mean, sd) <= xs[i].value <= CurveHigh(mean, sd) <= 100.0
  {
    var min := CurveLow(mean, sd);
    var max := CurveHigh(mean, sd);
    var step := CurveStep(min, max, points);
    xs := [];
    var i := 0;
    while i <= points
      invariant 0 <= i && (points >= 0 ==> i <= points + 1)
      invariant points < 0 ==> i == 0
      invariant |xs| == i
      invariant forall k :: 0 <= k < i ==> xs[k] == CurveX(mean, sd, points, k)
    {
      xs := xs + [CurvePoint(min, step, i)];
      i := i + 1;
    }
    if 0.0 <= mean <= 100.0 && sd >= 0.0 && points > 0 {
      forall k | 0 <= k < |xs|
        ensures xs[k].Some? && 0.0 <= min <= xs[k].value <= max <= 100.0
      {
        CurveXWithin(mean, sd, points, k);
      }
      CurveXWithin(mean, sd, points, 0);
      CurveXWithin(mean, sd, points, points);
    }
  }


}
