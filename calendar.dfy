/** Calendar days as integers: day 0 is 1970-01-01 (UTC), the epoch of JavaScript timestamps. */
module Calendar {

  /** Milliseconds in one day; JavaScript timestamps count milliseconds. */
  const MsPerDay: int := 86400000

  /** The UTC calendar day that contains the instant `timestamp` (milliseconds since the epoch):
      the date part of `new Date(timestamp).toISOString()`, read as a day number. The division
      is floor division, so instants before the epoch fall on negative days. */
  function DayOf(timestamp: int): (d: int)
    ensures d * MsPerDay <= timestamp < d * MsPerDay + MsPerDay
  {
    timestamp / MsPerDay
  }

  /** A later instant never falls on an earlier day. */
  lemma DayOfMonotone(t1: int, t2: int)
    requires t1 <= t2
    ensures DayOf(t1) <= DayOf(t2)
  {
  }

  /** The day is determined by the two bounds of its ensures clause: any `d` whose day window
      holds the instant is the day of that instant. */
  lemma DayOfUnique(timestamp: int, d: int)
    requires d * MsPerDay <= timestamp < d * MsPerDay + MsPerDay
    ensures DayOf(timestamp) == d
  {
  }
}
