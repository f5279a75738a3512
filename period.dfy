/**
 * `build_period_from_frequency`: the window a `frequency` dependency reads, derived from the last
 * timestamp rounded to the frequency's unit. A frequency is a count followed by one of h, d, w, m.
 */
module Periods {
  import opened Base
  import opened Text
  import opened Time

  datatype Unit = Hour | Day | Week | Month

  datatype Frequency = Frequency(count: int, unit: Unit)

  /** The unit letter of a frequency; None for a letter the unit table does not hold. */
  function UnitOf(c: char): (u: Option<Unit>)
    ensures u.Some? <==> c in {'h', 'd', 'w', 'm'}
  {
    if c == 'h' then Some(Hour)
    else if c == 'd' then Some(Day)
    else if c == 'w' then Some(Week)
    else if c == 'm' then Some(Month)
    else None
  }

  function UnitLetter(u: Unit): char {
    match u
    case Hour => 'h'
    case Day => 'd'
    case Week => 'w'
    case Month => 'm'
  }

  /** The `timedelta` of one unit, in seconds: an hour, a day, seven days, thirty days. */
  function UnitSeconds(u: Unit): (s: int)
    ensures s > 0 && s % SecondsPerHour == 0
  {
    match u
    case Hour => SecondsPerHour
    case Day => SecondsPerDay
    case Week => 7 * SecondsPerDay
    case Month => 30 * SecondsPerDay
  }

  /**
   * Reads a frequency: the last character picks the unit, the rest is the count.
   * An empty string fails on the index, an unknown letter on the table, a count that is not an integer on `int`.
   */
  function ParseFrequency(s: string): (r: Result<Frequency>)
    ensures |s| == 0 ==> r.Err? && r.error.IndexError?
    ensures |s| > 0 && UnitOf(s[|s| - 1]).None? ==> r.Err? && r.error == KeyError([s[|s| - 1]])
    ensures |s| > 0 && UnitOf(s[|s| - 1]).Some? && ParseInt(s[..|s| - 1]).None? ==> r.Err? && r.error.ValueError?
    ensures r.Ok? ==> UnitLetter(r.value.unit) == s[|s| - 1] && ParseInt(s[..|s| - 1]) == Some(r.value.count)
  {
    if |s| == 0 then Err(IndexError("string index out of range"))
    else
      var letter := s[|s| - 1];
      var unit := UnitOf(letter);
      if unit.None? then Err(KeyError([letter]))
      else
        var count := ParseInt(s[..|s| - 1]);
        if count.None? then Err(ValueError("invalid literal for int()"))
        else Ok(Frequency(count.value, unit.value))
  }

  /** What a frequency looks like written out. */
  function FrequencyString(f: Frequency): string {
    DecimalString(f.count) + [UnitLetter(f.unit)]
  }

  /** Reading a written-out frequency gives it back. */
  lemma ParseFrequencyString(f: Frequency)
    ensures ParseFrequency(FrequencyString(f)) == Ok(f)
  {
    var s := FrequencyString(f);
    assert s[..|s| - 1] == DecimalString(f.count);
    ParseDecimalString(f.count);
  }

  /** A positive factor of at least one does not shrink a positive number. */
  lemma MulAtLeast(a: int, b: int)
    requires a >= 1 && b > 0
    ensures a * b >= b
  {
    assert a * b == (a - 1) * b + b;
  }

  /** Dividing a multiple of `unit` by `unit` gives the factor back, with nothing left over. */
  lemma MultipleDiv(k: int, unit: int)
    requires unit > 0
    ensures (k * unit) / unit == k && (k * unit) % unit == 0
  {
    var m := k * unit;
    var d := k - m / unit;
    assert d * unit == m % unit by {
      assert d * unit == k * unit - (m / unit) * unit;
    }
    assert d >= 1 ==> d * unit >= unit by {
      if d >= 1 {
        MulAtLeast(d, unit);
      }
    }
    assert d <= -1 ==> d * unit <= -unit by {
      if d <= -1 {
        MulAtLeast(-d, unit);
      }
    }
  }

  /** Rounds to a multiple of `unit` measured from the epoch, as pandas rounds half to even. */
  function RoundHalfEven(t: int, unit: int): int
    requires unit > 0
  {
    var q := t / unit;
    var rem := t % unit;
    if 2 * rem < unit || (2 * rem == unit && q % 2 == 0) then q * unit else (q + 1) * unit
  }

  /**
   * The rounding is a multiple of the unit, at most half a unit away, and a tie goes to the even multiple.
   */
  lemma RoundHalfEvenNearest(t: int, unit: int)
    requires unit > 0
    ensures RoundHalfEven(t, unit) % unit == 0
    ensures 2 * (RoundHalfEven(t, unit) - t) <= unit && 2 * (t - RoundHalfEven(t, unit)) <= unit
    ensures 2 * (RoundHalfEven(t, unit) - t) == unit || 2 * (t - RoundHalfEven(t, unit)) == unit ==>
      (RoundHalfEven(t, unit) / unit) % 2 == 0
  {
    var q := t / unit;
    var rem := t % unit;
    assert t == q * unit + rem;
    var k := if 2 * rem < unit || (2 * rem == unit && q % 2 == 0) then q else q + 1;
    assert RoundHalfEven(t, unit) == k * unit;
    MultipleDiv(k, unit);
    assert (q + 1) * unit == q * unit + unit;
  }

  /** A multiple of the unit is its own rounding. */
  lemma RoundAligned(k: int, unit: int)
    requires unit > 0
    ensures RoundHalfEven(k * unit, unit) == k * unit
  {
    MultipleDiv(k, unit);
  }

  /**
   * The last timestamp rounded to the unit. Hours and days are fixed lengths and round half to even; how pandas
   * rounds to a week or a month is given by `roundCoarse` (recent pandas rejects those as non-fixed frequencies).
   */
  function Rounded(u: Unit, last: int, roundCoarse: (Unit, int) -> Result<int>): (r: Result<int>)
    ensures (u.Hour? || u.Day?) ==> r == Ok(RoundHalfEven(last, UnitSeconds(u)))
    ensures (u.Week? || u.Month?) ==> r == roundCoarse(u, last)
  {
    if u.Hour? || u.Day? then Ok(RoundHalfEven(last, UnitSeconds(u))) else roundCoarse(u, last)
  }

  /**
   * The window from the rounded timestamp: `count` units ending at it (before), or starting at it.
   * Going back, a length `timedelta` cannot hold or a start `datetime` cannot hold gives `datetime.min`;
   * going forward, the same overflow is an error.
   */
  function Window(f: Frequency, rounded: int, before: bool): Result<(int, int)> {
    var length := UnitSeconds(f.unit) * f.count;
    if before then
      var start := if InTimedeltaRange(length) && InDatetimeRange(rounded - length) then rounded - length
                   else DatetimeMin;
      Ok((start, rounded))
    else if InTimedeltaRange(length) && InDatetimeRange(rounded + length) then Ok((rounded, rounded + length))
    else Err(OverflowError("date value out of range"))
  }

  /** `build_period_from_frequency`. */
  function BuildPeriod(frequency: string, last: int, before: bool, roundCoarse: (Unit, int) -> Result<int>)
    : (r: Result<(int, int)>)
    ensures ParseFrequency(frequency).Err? ==> r == Err(ParseFrequency(frequency).error)
    ensures ParseFrequency(frequency).Ok? ==>
      var f := ParseFrequency(frequency).value;
      var rounded := Rounded(f.unit, last, roundCoarse);
      (rounded.Err? ==> r == Err(rounded.error)) && (rounded.Ok? ==> r == Window(f, rounded.value, before))
  {
    var f :- ParseFrequency(frequency);
    var rounded :- Rounded(f.unit, last, roundCoarse);
    Window(f, rounded, before)
  }

  /**
   * A window read backwards ends at the rounded timestamp and spans `count` units, or starts at `datetime.min`
   * when that many units do not fit; for a non-negative count it is never reversed.
   */
  lemma BackwardWindow(f: Frequency, rounded: int)
    requires InDatetimeRange(rounded)
    ensures Window(f, rounded, true).Ok?
    ensures Window(f, rounded, true).value.1 == rounded
    ensures var start := Window(f, rounded, true).value.0;
      start == rounded - UnitSeconds(f.unit) * f.count || start == DatetimeMin
    ensures f.count >= 0 ==> Window(f, rounded, true).value.0 <= rounded
    ensures rounded - UnitSeconds(f.unit) * f.count < DatetimeMin ==> Window(f, rounded, true).value.0 == DatetimeMin
  {
    var length := UnitSeconds(f.unit) * f.count;
    if f.count >= 0 {
      assert length >= 0 by {
        assert UnitSeconds(f.unit) > 0;
      }
    }
  }

  /**
   * A window read forwards starts at the rounded timestamp and spans exactly `count` units, or fails with
   * OverflowError when the end does not fit in a `datetime`.
   */
  lemma ForwardWindow(f: Frequency, rounded: int)
    requires InDatetimeRange(rounded)
    ensures var length := UnitSeconds(f.unit) * f.count;
      Window(f, rounded, false).Ok? <==> InTimedeltaRange(length) && InDatetimeRange(rounded + length)
    ensures Window(f, rounded, false).Ok? ==>
      var (start, end) := Window(f, rounded, false).value;
      start == rounded && end - start == UnitSeconds(f.unit) * f.count
    ensures rounded + UnitSeconds(f.unit) * f.count > DatetimeMax ==> Window(f, rounded, false).Err?
  {
  }

  /**
   * The timestamp is rounded to one unit, not to the whole period: with "2h" and a last timestamp of 01:00
   * the next window is 01:00 to 03:00.
   */
  lemma RoundsToOneUnit(roundCoarse: (Unit, int) -> Result<int>)
    ensures BuildPeriod("2h", SecondsPerHour, false, roundCoarse) == Ok((SecondsPerHour, 3 * SecondsPerHour))
  {
    var s := "2h";
    assert s[..|s| - 1] == "2";
    assert ParseInt("2") == Some(2) by {
      ParseDecimalString(2);
      assert DecimalString(2) == "2";
    }
    assert ParseFrequency(s) == Ok(Frequency(2, Hour));
    RoundAligned(1, SecondsPerHour);
  }
}
