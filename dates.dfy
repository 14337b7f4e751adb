/** Dates as the core uses them: points in time compared with `<`, shifted by
    whole days. */
module Dates {

  /** A point in time, in seconds. */
  type Date = int

  const SecondsPerDay: int := 86400

  /** The calendar's `addDays`, on a calendar whose days all have the same length. */
  function AddDays(d: Date, days: int): Date {
    d + days * SecondsPerDay
  }

  /** Adding more days never gives an earlier date. */
  lemma AddDaysMonotone(d: Date, m: int, n: int)
    requires m <= n
    ensures AddDays(d, m) <= AddDays(d, n)
  {
  }
}
