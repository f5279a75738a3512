/**
 * Timestamps are integer seconds since 1970-01-01T00:00:00 (naive UTC, as the pipeline uses them).
 * A partition is one calendar day: the day number of a timestamp is its floor division by 86400.
 */
module Time {

  const SecondsPerHour: int := 3600
  const SecondsPerDay: int := 86400

  /** `datetime.min`, 0001-01-01T00:00:00. */
  const DatetimeMin: int := -62135596800
  /** `datetime.max`, 9999-12-31T23:59:59 (its microseconds dropped). */
  const DatetimeMax: int := 253402300799
  /** `pd.Timestamp.min`, 1677-09-21T00:12:43.145224193, rounded up to a whole second. */
  const PandasTimestampMin: int := -9223372036
  /** The smallest `timedelta`, -999999999 days, in seconds. */
  const TimedeltaMin: int := -999999999 * 86400
  /** The largest `timedelta`, 999999999 days 23:59:59 (its microseconds dropped), in seconds. */
  const TimedeltaMax: int := 999999999 * 86400 + 86399

  /** A `datetime` can hold the instant. */
  predicate InDatetimeRange(t: int) {
    DatetimeMin <= t <= DatetimeMax
  }

  /** A `timedelta` can hold the duration. */
  predicate InTimedeltaRange(d: int) {
    TimedeltaMin <= d <= TimedeltaMax
  }

  /** `ts.floor("d")` as a day number. */
  function Day(t: int): int {
    t / SecondsPerDay
  }

  /** The first second of a day. */
  function Midnight(day: int): int {
    day * SecondsPerDay
  }

  lemma DayBounds(t: int)
    ensures Midnight(Day(t)) <= t < Midnight(Day(t)) + SecondsPerDay
  {
  }

  lemma MidnightOrder(a: int, b: int)
    ensures a < b <==> Midnight(a) < Midnight(b)
  {
    if a < b {
      assert Midnight(b) - Midnight(a) == (b - a) * SecondsPerDay;
    } else {
      assert Midnight(a) - Midnight(b) == (a - b) * SecondsPerDay;
    }
  }

  lemma DayMonotone(a: int, b: int)
    requires a <= b
    ensures Day(a) <= Day(b)
  {
    DayBounds(a);
    DayBounds(b);
  }

  /** A day's midnight is not before `t` exactly when the day starts after the day of `t`, or `t` is midnight. */
  lemma MidnightNotBefore(day: int, t: int)
    ensures Midnight(day) >= t <==> (day > Day(t) || (day == Day(t) && t % SecondsPerDay == 0))
  {
    DayBounds(t);
    if day > Day(t) {
      MidnightOrder(Day(t), day);
      assert Midnight(day) >= Midnight(Day(t) + 1);
      MidnightOrder(Day(t), Day(t) + 1);
    } else if day < Day(t) {
      MidnightOrder(day, Day(t));
    }
  }

  /** Every timestamp of a day lies at or after that day's midnight and before the next. */
  lemma DayOfTimestamp(t: int, day: int)
    requires Day(t) == day
    ensures Midnight(day) <= t < Midnight(day + 1)
  {
    DayBounds(t);
  }
}
