/** The arithmetic of `generatePrediction`: a fixed daily growth on the last actual price
    plus a bounded random fluctuation, for 30 days ahead, and the dates of those days. */
module Forecast {
  import opened Calendar
  import opened Rounding

  /** Number of forecast days. */
  const Horizon: nat := 30
  /** Daily growth of the trend, 0.5%. */
  const GrowthRate: real := 0.005
  /** Width of the random fluctuation, 2% of the baseline. */
  const Volatility: real := 0.02

  function Abs(x: real): real {
    if x < 0.0 then -x else x
  }

  /** The deterministic part of the forecast for day `i`: `lastPrice * (1 + growthRate * i)`. */
  function TrendPrice(lastPrice: real, i: int): real {
    lastPrice * (1.0 + GrowthRate * i as real)
  }

  /** The unrounded forecast for day `i` when the random source yields `r`:
      the trend plus `(r - 0.5) * volatility * lastPrice`. */
  function PredictedPrice(lastPrice: real, i: int, r: real): real {
    TrendPrice(lastPrice, i) + (r - 0.5) * Volatility * lastPrice
  }

  lemma ProductNonNegative(a: real, b: real)
    requires a >= 0.0 && b >= 0.0
    ensures a * b >= 0.0
  {
  }

  /** A factor of magnitude at most 1% scales a value to at most 1% of its magnitude. */
  lemma ScaleBound(w: real, x: real)
    requires -0.01 <= w <= 0.01
    ensures -0.01 * Abs(x) <= w * x <= 0.01 * Abs(x)
  {
    var m := Abs(x);
    ProductNonNegative(0.01 - w, m);
    ProductNonNegative(w + 0.01, m);
    assert (0.01 - w) * m == 0.01 * m - w * m;
    assert (w + 0.01) * m == w * m + 0.01 * m;
    assert w * x == if x >= 0.0 then w * m else -(w * m);
  }

  /** For a random value in [0, 1) the forecast stays within 1% of the baseline's magnitude
      (half the volatility) of the trend. */
  lemma PredictionWithinEnvelope(lastPrice: real, i: int, r: real)
    requires 0.0 <= r < 1.0
    ensures Abs(PredictedPrice(lastPrice, i, r) - TrendPrice(lastPrice, i)) <= Volatility / 2.0 * Abs(lastPrice)
  {
    ScaleBound((r - 0.5) * Volatility, lastPrice);
  }

  /** After rounding to cents the forecast is off the trend by at most 1% of the baseline
      plus half a cent. */
  lemma RoundedPredictionWithinEnvelope(lastPrice: real, i: int, r: real)
    requires 0.0 <= r < 1.0
    ensures Abs(Round2(PredictedPrice(lastPrice, i, r)) - TrendPrice(lastPrice, i)) <= Volatility / 2.0 * Abs(lastPrice) + 0.005
  {
    PredictionWithinEnvelope(lastPrice, i, r);
  }

  /** The labels of the forecast days as local calendar days: the day after `today`, then
      one day apart each. */
  function FutureLabels(today: int): (r: seq<int>)
    ensures |r| == Horizon
    ensures r[0] == today + 1
    ensures forall k :: 0 < k < |r| ==> r[k] == r[k - 1] + 1
  {
    seq(Horizon, k => today + k + 1)
  }

  /** The label the source prints for local day `localDay`: the UTC date of the instant at
      which that local day begins, in a zone `offsetMs` milliseconds ahead of UTC at that
      instant (`toISOString().split('T')[0]` of a local-midnight `Date`). */
  function IsoDateOfLocalMidnight(localDay: int, offsetMs: int): (d: int)
    ensures d * MsPerDay <= localDay * MsPerDay - offsetMs < d * MsPerDay + MsPerDay
  {
    DayOf(localDay * MsPerDay - offsetMs)
  }

  /** In a zone ahead of UTC, local midnight falls on the previous UTC day. */
  lemma IsoDateAheadOfUtc(localDay: int, offsetMs: int)
    requires 0 < offsetMs <= MsPerDay
    ensures IsoDateOfLocalMidnight(localDay, offsetMs) == localDay - 1
  {
  }

  /** In a zone at or behind UTC (by less than a day), local midnight falls on the same UTC day. */
  lemma IsoDateAtOrBehindUtc(localDay: int, offsetMs: int)
    requires -MsPerDay < offsetMs <= 0
    ensures IsoDateOfLocalMidnight(localDay, offsetMs) == localDay
  {
  }

  /** Whenever the zone's offset is at or behind UTC at one local midnight and ahead of UTC
      at the next, the two days print the same date. */
  lemma IsoLabelsRepeatWhenOffsetTurnsPositive(localDay: int, o1: int, o2: int)
    requires -MsPerDay < o1 <= 0 < o2 <= MsPerDay
    ensures IsoDateOfLocalMidnight(localDay, o1) == IsoDateOfLocalMidnight(localDay + 1, o2)
  {
    IsoDateAtOrBehindUtc(localDay, o1);
    IsoDateAheadOfUtc(localDay + 1, o2);
  }

  /** Europe/London, spring 2026: local day 20541 (2026-03-29) starts at UTC+0 and local day
      20542 (2026-03-30) starts at UTC+1, so both forecast days print "2026-03-29". */
  lemma IsoLabelsRepeatAcrossDst()
    ensures IsoDateOfLocalMidnight(20541, 0) == IsoDateOfLocalMidnight(20542, 3600000) == 20541
  {
  }
}
