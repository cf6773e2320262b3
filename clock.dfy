/** Clock readings and calendar days. */
module Clock {
  /**
    Clock readings are seconds since 0001-01-01 00:00, so 0 is C#'s
    `default(DateTime)` and a calendar day is `t / 86400`.
  */
  const SecondsPerDay: nat := 86400

  function DayOf(t: nat): nat
  {
    t / SecondsPerDay
  }

  /** DateTime.Date: midnight at the start of t's day. */
  function Midnight(t: nat): (m: nat)
    ensures m <= t && DayOf(m) == DayOf(t) && m % SecondsPerDay == 0
  {
    DayOf(t) * SecondsPerDay
  }
}
