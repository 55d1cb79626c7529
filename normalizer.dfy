/** The daily-series normaliser of `loadHistoricalData`: raw (timestamp, price) samples are
    collapsed to one price per UTC calendar day, the first sample of a day winning, in the
    order in which the days are first met. */
module Normalizer {
  import opened Calendar
  import opened Rounding

  /** One `[timestamp, price]` pair of the market-chart response. */
  datatype Sample = Sample(timestamp: int, price: real)

  /** One entry of the insertion-ordered map from date to price. */
  datatype DailyPoint = DailyPoint(day: int, price: real)

  /** Some sample of `s` falls on day `d`. */
  predicate OccursIn(s: seq<Sample>, d: int) {
    exists i :: 0 <= i < |s| && DayOf(s[i].timestamp) == d
  }

  /** The series already has an entry for day `d` (the map's `has`). */
  predicate HasDay(pts: seq<DailyPoint>, d: int) {
    exists k :: 0 <= k < |pts| && pts[k].day == d
  }

  /** The samples' timestamps never decrease (what the API is expected to deliver). */
  predicate NonDecreasingTimes(s: seq<Sample>) {
    forall i, j :: 0 <= i < j < |s| ==> s[i].timestamp <= s[j].timestamp
  }

  /** The map's entries after visiting `s` in order: a sample whose day already has an
      entry is skipped, any other sample adds an entry at the end. */
  function Normalized(s: seq<Sample>): seq<DailyPoint>
    decreases |s|
  {
    if s == [] then []
    else
      var prev := Normalized(s[..|s| - 1]);
      var x := s[|s| - 1];
      if HasDay(prev, DayOf(x.timestamp)) then prev
      else prev + [DailyPoint(DayOf(x.timestamp), x.price)]
  }

  /** The keys of the map, in insertion order (`historicalLabels`). */
  function Labels(pts: seq<DailyPoint>): seq<int>
  {
    seq(|pts|, k requires 0 <= k < |pts| => pts[k].day)
  }

  /** The values of the map, each rounded to cents (`historicalData`). */
  function RoundedPrices(pts: seq<DailyPoint>): seq<real>
  {
    seq(|pts|, k requires 0 <= k < |pts| => Round2(pts[k].price))
  }

  /** Reference definition of "first": the index of the earliest sample on day `d`. */
  function FirstIndex(s: seq<Sample>, d: int): (i: nat)
    requires OccursIn(s, d)
    ensures i < |s| && DayOf(s[i].timestamp) == d
    ensures forall j :: 0 <= j < i ==> DayOf(s[j].timestamp) != d
  {
    if DayOf(s[0].timestamp) == d then 0
    else
      assert OccursIn(s[1..], d) by {
        var i :| 0 <= i < |s| && DayOf(s[i].timestamp) == d;
        assert s[1..][i - 1] == s[i];
      }
      1 + FirstIndex(s[1..], d)
  }

  /** Any index satisfying the two clauses of `FirstIndex`'s contract is `FirstIndex`. */
  lemma FirstIndexIsLeast(s: seq<Sample>, d: int, i: nat)
    requires i < |s| && DayOf(s[i].timestamp) == d
    requires forall j :: 0 <= j < i ==> DayOf(s[j].timestamp) != d
    ensures OccursIn(s, d) && FirstIndex(s, d) == i
  {
  }

  /** Appending a sample keeps the first index of every day already present, and a sample
      on a new day is the first of that day. */
  lemma FirstIndexSnoc(p: seq<Sample>, x: Sample, d: int)
    requires OccursIn(p, d) || d == DayOf(x.timestamp)
    ensures OccursIn(p + [x], d)
    ensures OccursIn(p, d) ==> FirstIndex(p + [x], d) == FirstIndex(p, d)
    ensures !OccursIn(p, d) ==> FirstIndex(p + [x], d) == |p|
  {
    var s := p + [x];
    if OccursIn(p, d) {
      var i := FirstIndex(p, d);
      assert s[i] == p[i];
      FirstIndexIsLeast(s, d, i);
    } else {
      assert s[|p|] == x;
      assert forall j :: 0 <= j < |p| ==> s[j] == p[j];
      FirstIndexIsLeast(s, d, |p|);
    }
  }

  /** Unfolds `Normalized` one step at its last sample. */
  lemma NormalizedSnoc(p: seq<Sample>, x: Sample)
    ensures Normalized(p + [x]) ==
      if HasDay(Normalized(p), DayOf(x.timestamp)) then Normalized(p)
      else Normalized(p) + [DailyPoint(DayOf(x.timestamp), x.price)]
  {
    assert (p + [x])[..|p + [x]| - 1] == p;
  }

  /** No day has two entries: `historicalLabels` holds no duplicate date. */
  lemma {:induction false} NormalizedUnique(s: seq<Sample>)
    ensures forall i, j :: 0 <= i < j < |Normalized(s)| ==> Normalized(s)[i].day != Normalized(s)[j].day
  {
    if s != [] {
      var p, x := s[..|s| - 1], s[|s| - 1];
      assert s == p + [x];
      NormalizedUnique(p);
      NormalizedSnoc(p, x);
    }
  }

  /** Every day met in the input has an entry, and every entry's day was met in the input. */
  lemma {:induction false} NormalizedCovers(s: seq<Sample>)
    ensures forall d :: HasDay(Normalized(s), d) <==> OccursIn(s, d)
  {
    if s != [] {
      var p, x := s[..|s| - 1], s[|s| - 1];
      assert s == p + [x];
      NormalizedCovers(p);
      NormalizedSnoc(p, x);
      var prev := Normalized(p);
      forall d
        ensures HasDay(Normalized(s), d) <==> OccursIn(s, d)
      {
        if OccursIn(p, d) {
          var i :| 0 <= i < |p| && DayOf(p[i].timestamp) == d;
          assert s[i] == p[i];
          var k :| 0 <= k < |prev| && prev[k].day == d;
          assert Normalized(s)[k] == prev[k];
        } else if d == DayOf(x.timestamp) {
          assert s[|p|] == x;
          assert Normalized(s)[|prev|].day == d;
        }
      }
    }
  }

  /** First wins: the entry for a day carries the price of the earliest sample on that day. */
  lemma {:induction false} NormalizedFirstWins(s: seq<Sample>)
    ensures forall k :: 0 <= k < |Normalized(s)| ==>
      OccursIn(s, Normalized(s)[k].day) &&
      Normalized(s)[k].price == s[FirstIndex(s, Normalized(s)[k].day)].price
  {
    if s != [] {
      var p, x := s[..|s| - 1], s[|s| - 1];
      assert s == p + [x];
      NormalizedFirstWins(p);
      NormalizedCovers(p);
      NormalizedSnoc(p, x);
      var prev := Normalized(p);
      forall k | 0 <= k < |Normalized(s)|
        ensures OccursIn(s, Normalized(s)[k].day)
        ensures Normalized(s)[k].price == s[FirstIndex(s, Normalized(s)[k].day)].price
      {
        var d := Normalized(s)[k].day;
        if k < |prev| {
          assert Normalized(s)[k] == prev[k];
          FirstIndexSnoc(p, x, d);
          assert s[FirstIndex(p, d)] == p[FirstIndex(p, d)];
        } else {
          assert !HasDay(prev, d);
          FirstIndexSnoc(p, x, d);
          assert s[|p|] == x;
        }
      }
    }
  }

  /** Entries appear in the order in which their days are first met in the input. */
  lemma {:induction false} NormalizedFirstEncounterOrder(s: seq<Sample>)
    ensures forall k1, k2 :: 0 <= k1 < k2 < |Normalized(s)| ==>
      OccursIn(s, Normalized(s)[k1].day) && OccursIn(s, Normalized(s)[k2].day) &&
      FirstIndex(s, Normalized(s)[k1].day) < FirstIndex(s, Normalized(s)[k2].day)
  {
    NormalizedFirstWins(s);
    if s != [] {
      var p, x := s[..|s| - 1], s[|s| - 1];
      assert s == p + [x];
      NormalizedFirstEncounterOrder(p);
      NormalizedFirstWins(p);
      NormalizedCovers(p);
      NormalizedSnoc(p, x);
      var prev := Normalized(p);
      forall k1, k2 | 0 <= k1 < k2 < |Normalized(s)|
        ensures FirstIndex(s, Normalized(s)[k1].day) < FirstIndex(s, Normalized(s)[k2].day)
      {
        var d1, d2 := Normalized(s)[k1].day, Normalized(s)[k2].day;
        assert Normalized(s)[k1] == prev[k1];
        FirstIndexSnoc(p, x, d1);
        FirstIndexSnoc(p, x, d2);
        if k2 < |prev| {
          assert Normalized(s)[k2] == prev[k2];
        } else {
          assert !HasDay(prev, d2);
        }
      }
    }
  }

  /** On input sorted by timestamp, the entries' days strictly increase: the series is
      chronological. */
  lemma NormalizedChronological(s: seq<Sample>)
    requires NonDecreasingTimes(s)
    ensures forall k1, k2 :: 0 <= k1 < k2 < |Normalized(s)| ==> Normalized(s)[k1].day < Normalized(s)[k2].day
  {
    NormalizedUnique(s);
    NormalizedFirstEncounterOrder(s);
    forall k1, k2 | 0 <= k1 < k2 < |Normalized(s)|
      ensures Normalized(s)[k1].day < Normalized(s)[k2].day
    {
      var d1, d2 := Normalized(s)[k1].day, Normalized(s)[k2].day;
      var i1, i2 := FirstIndex(s, d1), FirstIndex(s, d2);
      DayOfMonotone(s[i1].timestamp, s[i2].timestamp);
    }
  }

  /** A later sample on a day that already occurs changes nothing. */
  lemma LaterSampleIgnored(s: seq<Sample>, x: Sample)
    requires OccursIn(s, DayOf(x.timestamp))
    ensures Normalized(s + [x]) == Normalized(s)
  {
    NormalizedCovers(s);
    NormalizedSnoc(s, x);
  }
}
