/** The statistics of `generateReport`: average, minimum and maximum of the forecast, its
    trend, and the last actual price as the baseline. */
module Summary {
  import opened Rounding

  datatype Trend = Upward | Downward

  /** The fields of the prediction summary, as numbers (the HTML around them is not modelled). */
  datatype Report = Report(
    startingPrice: real,
    average: real,
    minimum: real,
    maximum: real,
    ending: real,
    trend: Trend)

  /** `reduce((a, b) => a + b, 0)`: a left fold from zero. */
  function Sum(s: seq<real>): real
    decreases |s|
  {
    if s == [] then 0.0 else Sum(s[..|s| - 1]) + s[|s| - 1]
  }

  /** `Math.min(...s)`. */
  function Min(s: seq<real>): (m: real)
    requires |s| > 0
    ensures forall k :: 0 <= k < |s| ==> m <= s[k]
    ensures exists k :: 0 <= k < |s| && m == s[k]
    decreases |s|
  {
    if |s| == 1 then s[0]
    else
      var m := Min(s[..|s| - 1]);
      assert forall k :: 0 <= k < |s| - 1 ==> s[..|s| - 1][k] == s[k];
      if s[|s| - 1] < m then s[|s| - 1] else m
  }

  /** `Math.max(...s)`. */
  function Max(s: seq<real>): (m: real)
    requires |s| > 0
    ensures forall k :: 0 <= k < |s| ==> s[k] <= m
    ensures exists k :: 0 <= k < |s| && m == s[k]
    decreases |s|
  {
    if |s| == 1 then s[0]
    else
      var m := Max(s[..|s| - 1]);
      assert forall k :: 0 <= k < |s| - 1 ==> s[..|s| - 1][k] == s[k];
      if s[|s| - 1] > m then s[|s| - 1] else m
  }

  /** A sum of values between `lo` and `hi` lies between `|s| * lo` and `|s| * hi`. */
  lemma {:induction false} SumBounds(s: seq<real>, lo: real, hi: real)
    requires forall k :: 0 <= k < |s| ==> lo <= s[k] <= hi
    ensures |s| as real * lo <= Sum(s) <= |s| as real * hi
  {
    if s != [] {
      var p := s[..|s| - 1];
      assert forall k :: 0 <= k < |p| ==> p[k] == s[k];
      SumBounds(p, lo, hi);
      assert |s| as real * lo == |p| as real * lo + lo;
      assert |s| as real * hi == |p| as real * hi + hi;
    }
  }

  /** Dividing by a positive count keeps a lower and an upper bound scaled by that count. */
  lemma DivideBounds(a: real, n: real, lo: real, hi: real)
    requires n > 0.0 && n * lo <= a <= n * hi
    ensures lo <= a / n <= hi
  {
  }

  /** The mean of a non-empty sequence lies between its minimum and its maximum. */
  lemma {:induction false} MeanBetween(s: seq<real>)
    requires |s| > 0
    ensures Min(s) <= Sum(s) / |s| as real <= Max(s)
  {
    var lo, hi, n, a := Min(s), Max(s), |s| as real, Sum(s);
    SumBounds(s, lo, hi);
    DivideBounds(a, n, lo, hi);
  }

  /** "Upward" exactly when the last prediction exceeds the first; equal counts as "Downward". */
  function TrendOf(start: real, end: real): (t: Trend)
    ensures t == Upward <==> end > start
  {
    if end > start then Upward else Downward
  }

  /** The report for forecast `predicted` after history `historical`: average, minimum and
      maximum rounded to cents, the last prediction, the trend, and the last actual price
      rounded to cents as the starting price. */
  function Summarize(predicted: seq<real>, historical: seq<real>): (r: Report)
    requires |predicted| > 0 && |historical| > 0
    ensures r.minimum <= r.average <= r.maximum
    ensures r.trend == Upward <==> predicted[|predicted| - 1] > predicted[0]
    ensures r.ending == predicted[|predicted| - 1]
    ensures r.startingPrice == Round2(historical[|historical| - 1])
  {
    var average := Sum(predicted) / |predicted| as real;
    MeanBetween(predicted);
    Round2Monotone(Min(predicted), average);
    Round2Monotone(average, Max(predicted));
    Report(
      Round2(historical[|historical| - 1]),
      Round2(average),
      Round2(Min(predicted)),
      Round2(Max(predicted)),
      predicted[|predicted| - 1],
      TrendOf(predicted[0], predicted[|predicted| - 1]))
  }

  /** When every prediction is already a whole number of cents (as `toFixed(2)` leaves
      them), the reported minimum and maximum are predictions themselves and bound every
      prediction. */
  lemma ReportBoundsPredictions(predicted: seq<real>, historical: seq<real>)
    requires |predicted| > 0 && |historical| > 0
    requires forall k :: 0 <= k < |predicted| ==> IsRounded(predicted[k])
    ensures var r := Summarize(predicted, historical);
      (forall k :: 0 <= k < |predicted| ==> r.minimum <= predicted[k] <= r.maximum) &&
      (exists k :: 0 <= k < |predicted| && r.minimum == predicted[k]) &&
      (exists k :: 0 <= k < |predicted| && r.maximum == predicted[k])
  {
    var i :| 0 <= i < |predicted| && Min(predicted) == predicted[i];
    var j :| 0 <= j < |predicted| && Max(predicted) == predicted[j];
    assert Round2(Min(predicted)) == predicted[i];
    assert Round2(Max(predicted)) == predicted[j];
  }
}
