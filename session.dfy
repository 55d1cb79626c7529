/** The page's four global buffers and the two operations that rebuild them: loading a
    coin's history and generating a forecast. */
module Session {
  import opened Rounding
  import opened Calendar
  import opened Normalizer
  import opened Forecast
  import opened Summary

  datatype Option<T> = None | Some(value: T)

  /** `historicalLabels`, `historicalData`, `futureLabels` and `predictedPrices`; dates are
      day numbers. */
  class PredictorState {
    var historicalLabels: seq<int>
    var historicalData: seq<real>
    var futureLabels: seq<int>
    var predictedPrices: seq<real>

    /** The buffers as the page starts: all empty. */
    constructor ()
      ensures historicalLabels == [] && historicalData == []
      ensures futureLabels == [] && predictedPrices == []
    {
      historicalLabels, historicalData := [], [];
      futureLabels, predictedPrices := [], [];
    }

    /** Rebuilds the history from the fetched samples: a `forEach` over the samples fills an
        insertion-ordered map from day to price, keeping the first price of each day; its
        keys become the labels and its values, rounded to cents, the prices. Any previous
        forecast is discarded. */
    method LoadHistoricalData(samples: seq<Sample>)
      modifies this
      ensures historicalLabels == Labels(Normalized(samples))
      ensures historicalData == RoundedPrices(Normalized(samples))
      ensures |historicalLabels| == |historicalData|
      ensures forall i, j :: 0 <= i < j < |historicalLabels| ==> historicalLabels[i] != historicalLabels[j]
      ensures futureLabels == [] && predictedPrices == []
    {
      // The map, as its keys and values in insertion order.
      var keys: seq<int> := [];
      var values: seq<real> := [];
      var i := 0;
      while i < |samples|
        invariant 0 <= i <= |samples|
        invariant |keys| == |values| == |Normalized(samples[..i])|
        invariant forall k :: 0 <= k < |keys| ==> Normalized(samples[..i])[k] == DailyPoint(keys[k], values[k])
      {
        var date := DayOf(samples[i].timestamp);
        NormalizedSnoc(samples[..i], samples[i]);
        assert samples[..i + 1] == samples[..i] + [samples[i]];
        assert (date in keys) == HasDay(Normalized(samples[..i]), date) by {
          var pts := Normalized(samples[..i]);
          if date in keys {
            var k :| 0 <= k < |keys| && keys[k] == date;
            assert pts[k].day == date;
          }
        }
        if date !in keys {
          keys := keys + [date];
          values := values + [samples[i].price];
        }
        i := i + 1;
      }
      assert samples[..i] == samples;
      NormalizedUnique(samples);
      historicalLabels := keys;
      historicalData := seq(|values|, k requires 0 <= k < |values| => Round2(values[k]));
      predictedPrices := [];
      futureLabels := [];
    }

    /** With no history, does nothing (the page shows an alert). Otherwise replaces the
        forecast with 30 days: day `i` gets the trend on the last actual price plus the
        fluctuation for the `i`-th random value, rounded to cents, and the date `today + i`;
        then returns the summary report. `randoms` stands for the 30 draws of `Math.random`. */
    method GeneratePrediction(today: int, randoms: seq<real>) returns (report: Option<Report>)
      requires |randoms| == Horizon
      modifies this
      ensures historicalLabels == old(historicalLabels) && historicalData == old(historicalData)
      ensures old(historicalData) == [] ==>
        report == None && futureLabels == old(futureLabels) && predictedPrices == old(predictedPrices)
      ensures old(historicalData) != [] ==>
        var lastPrice := historicalData[|historicalData| - 1];
        && |predictedPrices| == Horizon
        && (forall k :: 0 <= k < Horizon ==> predictedPrices[k] == Round2(PredictedPrice(lastPrice, k + 1, randoms[k])))
        && futureLabels == FutureLabels(today)
        && report == Some(Summarize(predictedPrices, historicalData))
    {
      if |historicalData| == 0 {
        return None;
      }
      var lastPrice := historicalData[|historicalData| - 1];
      predictedPrices := [];
      futureLabels := [];
      for i := 1 to Horizon + 1
        invariant |predictedPrices| == |futureLabels| == i - 1
        invariant forall k :: 0 <= k < i - 1 ==> predictedPrices[k] == Round2(PredictedPrice(lastPrice, k + 1, randoms[k]))
        invariant forall k :: 0 <= k < i - 1 ==> futureLabels[k] == today + k + 1
        invariant historicalLabels == old(historicalLabels) && historicalData == old(historicalData)
      {
        var fluctuation := (randoms[i - 1] - 0.5) * Volatility * lastPrice;
        var predicted := lastPrice * (1.0 + GrowthRate * i as real) + fluctuation;
        assert predicted == PredictedPrice(lastPrice, i, randoms[i - 1]);
        predictedPrices := predictedPrices + [Round2(predicted)];
        futureLabels := futureLabels + [today + i];
      }
      report := Some(Summarize(predictedPrices, historicalData));
    }
  }
}
