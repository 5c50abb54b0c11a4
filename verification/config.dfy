/** The frontend's constant tables: the grade ranges of the histogram buckets and the chart
    colour palette. */
module Config {

  /** One histogram bucket: the integer grades `min..max` and their label (`caption`, since
      `label` is reserved in Dafny). */
  datatype GradeRange = GradeRange(min: int, max: int, caption: string)

  const GradeRanges: seq<GradeRange> := [
    GradeRange(0, 9, "0-9"),
    GradeRange(10, 19, "10-19"),
    GradeRange(20, 29, "20-29"),
    GradeRange(30, 39, "30-39"),
    GradeRange(40, 49, "40-49"),
    GradeRange(50, 59, "50-59"),
    GradeRange(60, 69, "60-69"),
    GradeRange(70, 79, "70-79"),
    GradeRange(80, 89, "80-89"),
    GradeRange(90, 100, "90-100")
  ]

  const ChartColors: seq<string> := [
    "#3498db", "#2ecc71", "#e74c3c", "#f39c12", "#9b59b6", "#1abc9c", "#d35400",
    "#34495e", "#16a085", "#27ae60", "#2980b9", "#8e44ad", "#c0392b", "#f1c40f"
  ]

  const Digits: string := "0123456789"

  /** The decimal numeral of `n`, without leading zeros. */
  function NatToString(n: nat): (s: string)
    ensures 1 <= |s| && forall i :: 0 <= i < |s| ==> s[i] in Digits
    ensures n < 10 <==> |s| == 1
    ensures |s| > 1 ==> s[0] != '0'
  {
    if n < 10 then [Digits[n]] else NatToString(n / 10) + [Digits[n % 10]]
  }

  function DigitValue(c: char): (d: nat)
    requires c in Digits
    ensures d < 10 && Digits[d] == c
  {
    if c == '0' then 0 else if c == '1' then 1 else if c == '2' then 2 else if c == '3' then 3
    else if c == '4' then 4 else if c == '5' then 5 else if c == '6' then 6 else if c == '7' then 7
    else if c == '8' then 8 else 9
  }

  /** The value of a decimal numeral. */
  function ParseNat(s: string): nat
    requires forall i :: 0 <= i < |s| ==> s[i] in Digits
  {
    if s == [] then 0 else 10 * ParseNat(s[..|s| - 1]) + DigitValue(s[|s| - 1])
  }

  /** Reading a numeral back gives the number it was written from. */
  lemma {:induction false} ParseNatToString(n: nat)
    ensures ParseNat(NatToString(n)) == n
  {
    var s := NatToString(n);
    if n >= 10 {
      ParseNatToString(n / 10);
      assert s[..|s| - 1] == NatToString(n / 10);
    }
  }

  /** The label format of a range: `"<min>-<max>"`. */
  function RangeLabel(lo: nat, hi: nat): string
  {
    NatToString(lo) + "-" + NatToString(hi)
  }

  /** The table has ten ranges from 0 to 100, each non-empty, each starting one above the end of
      the previous one. */
  lemma GradeRangesWellFormed()
    ensures |GradeRanges| == 10
    ensures GradeRanges[0].min == 0 && GradeRanges[|GradeRanges| - 1].max == 100
    ensures forall i :: 0 <= i < |GradeRanges| ==> 0 <= GradeRanges[i].min <= GradeRanges[i].max <= 100
    ensures forall i :: 0 < i < |GradeRanges| ==> GradeRanges[i].min == GradeRanges[i - 1].max + 1
  {
  }

  /** Every range is labelled with its bounds, as `"<min>-<max>"`. */
  lemma GradeRangeCaptions()
    ensures forall i :: 0 <= i < |GradeRanges| ==>
      GradeRanges[i].caption == RangeLabel(GradeRanges[i].min, GradeRanges[i].max)
  {
    forall i | 0 <= i < |GradeRanges|
      ensures GradeRanges[i].caption == RangeLabel(GradeRanges[i].min, GradeRanges[i].max)
    {
      if i == 0 {
        assert RangeLabel(0, 9) == "0-9";
      } else if i == 1 {
        DecadeLabel(1, "10-19");
      } else if i == 2 {
        DecadeLabel(2, "20-29");
      } else if i == 3 {
        DecadeLabel(3, "30-39");
      } else if i == 4 {
        DecadeLabel(4, "40-49");
      } else if i == 5 {
        DecadeLabel(5, "50-59");
      } else if i == 6 {
        DecadeLabel(6, "60-69");
      } else if i == 7 {
        DecadeLabel(7, "70-79");
      } else if i == 8 {
        DecadeLabel(8, "80-89");
      } else {
        assert NatToString(10) == "10";
        assert NatToString(100) == NatToString(10) + "0";
        assert RangeLabel(90, 100) == "90-100";
      }
    }
  }

  /** The label of the range `10a..10a+9` for a single digit `a` above 0. */
  lemma DecadeLabel(a: nat, caption: string)
    requires 1 <= a <= 9 && caption == [Digits[a], '0', '-', Digits[a], '9']
    ensures RangeLabel(10 * a, 10 * a + 9) == caption
  {
    assert (10 * a) / 10 == a && (10 * a) % 10 == 0;
    assert (10 * a + 9) / 10 == a && (10 * a + 9) % 10 == 9;
    assert NatToString(a) == [Digits[a]];
    assert NatToString(10 * a) == [Digits[a], '0'];
    assert NatToString(10 * a + 9) == [Digits[a], '9'];
  }

  /** Moving a palette length on does not change the remainder; below it the remainder is the
      index itself. */
  lemma PaletteModulus(i: nat)
    ensures |ChartColors| == 14
    ensures (i + 14) % 14 == i % 14
    ensures i < 14 ==> i % 14 == i
  {
  }

  /** Every integer grade from 0 to 100 lies in exactly one range. */
  lemma GradeRangesPartition(v: int)
    requires 0 <= v <= 100
    ensures exists i :: 0 <= i < |GradeRanges| && GradeRanges[i].min <= v <= GradeRanges[i].max
    ensures forall i, j ::
      (0 <= i < |GradeRanges| && 0 <= j < |GradeRanges| &&
       GradeRanges[i].min <= v <= GradeRanges[i].max && GradeRanges[j].min <= v <= GradeRanges[j].max) ==> i == j
  {
    var i := if v < 90 then v / 10 else 9;
    assert GradeRanges[i].min <= v <= GradeRanges[i].max;
  }

  /** `CHART_COLORS[index % CHART_COLORS.length]`: the palette cycles, so every index has a
      colour. */
  function ColorFor(index: nat): (c: string)
    ensures c in ChartColors
  {
    ChartColors[index % |ChartColors|]
  }

  /** The palette cycles: the first indices take the palette's colours in order, and an index a
      palette length further on takes the same colour again. */
  lemma ColorsCycle(i: nat)
    ensures i < |ChartColors| ==> ColorFor(i) == ChartColors[i]
    ensures ColorFor(i) == ColorFor(i + |ChartColors|)
  {
    PaletteModulus(i);
  }
}
