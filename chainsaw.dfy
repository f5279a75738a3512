/**
 * `ChainSawProcessing`: the cleaning stage. It sorts the rows by time, records each row's distance to the
 * row before it in the sorted input, keeps the rows between one second and thirty minutes after their
 * predecessor, then the rows between 1 and 100 km/h, then the rows whose ten sensor readings are not zero.
 */
module ChainSaw {
  import opened Base
  import opened Seqs
  import opened Frames
  import opened Detection

  /** The ten sensor columns of the source data. */
  const SensorColumns: seq<string> := ["air_temp_1", "air_temp_2", "oil_press_1", "oil_press_2", "rpm_1", "rpm_2",
                                       "water_temp_1", "water_temp_2", "oil_temp_1", "oil_temp_2"]

  const GapColumn: string := "time_difference"

  /** A kept row follows the previous one by less than this: thirty minutes, in seconds. */
  const MaxGap: int := 1800

  /** A kept row follows the previous one by more than this: one second. */
  const MinGap: int := 1

  /** 1 km/h and 100 km/h in m/s (exact rationals where the source uses the floats `1 / 3.6` and `100 / 3.6`). */
  const MinSpeed: real := 5.0 / 18.0
  const MaxSpeed: real := 250.0 / 9.0

  /** The distance to the previous row of the sorted input; the first row has none (NaT). */
  function GapCell(sorted: seq<Row>, i: int): Cell
    requires 0 <= i < |sorted|
  {
    if i == 0 then Missing else Span(sorted[i].ts - sorted[i - 1].ts)
  }

  /** `df["time_difference"] = df.index.to_series().diff()`. */
  function WithGaps(sorted: seq<Row>): (r: seq<Row>)
    ensures |r| == |sorted|
    ensures forall i :: 0 <= i < |sorted| ==>
      r[i] == sorted[i].(fields := sorted[i].fields[GapColumn := GapCell(sorted, i)])
  {
    seq(|sorted|, i requires 0 <= i < |sorted| => sorted[i].(fields := sorted[i].fields[GapColumn := GapCell(sorted, i)]))
  }

  predicate GapBelowMax(r: Row) {
    CellAt(r, GapColumn).Span? && CellAt(r, GapColumn).seconds < MaxGap
  }

  predicate GapAboveMin(r: Row) {
    CellAt(r, GapColumn).Span? && CellAt(r, GapColumn).seconds > MinGap
  }

  predicate FastEnough(r: Row) {
    AtLeast(CellAt(r, "speed"), MinSpeed)
  }

  predicate SlowEnough(r: Row) {
    AtMost(CellAt(r, "speed"), MaxSpeed)
  }

  /** `df[df[column] != 0]` for each column in turn; a column the frame does not have raises KeyError. */
  function NonZero(f: Frame, columns: seq<string>): Result<Frame>
    decreases |columns|
  {
    if columns == [] then Ok(f)
    else if columns[0] !in f.columns then Err(KeyError(columns[0]))
    else
      var column := columns[0];
      NonZero(f.(rows := Filter(f.rows, x => !IsZero(CellAt(x, column)))), columns[1..])
  }

  /** `ChainSawProcessing.run`. */
  function Process(source: Frame): Result<Frame> {
    var annotated := WithGaps(SortBy(source.rows, Ts));
    var timed := Frame(source.index, source.columns + {GapColumn},
                       Filter(Filter(annotated, GapBelowMax), GapAboveMin));
    var _ :- Ordered(timed, "speed");
    NonZero(timed.(rows := Filter(Filter(timed.rows, FastEnough), SlowEnough)), SensorColumns)
  }

  /** Every sensor column reads something other than zero (a missing reading counts as non-zero). */
  predicate SensorsNonZero(r: Row, columns: seq<string>) {
    forall k :: 0 <= k < |columns| ==> !IsZero(CellAt(r, columns[k]))
  }

  /** What the whole chain asks of a row of the annotated input. */
  predicate Keep(r: Row) {
    GapBelowMax(r) && GapAboveMin(r) && FastEnough(r) && SlowEnough(r) && SensorsNonZero(r, SensorColumns)
  }

  /** The filters over the sensor columns are one filter that asks for all of them. */
  lemma {:induction false} NonZeroIsOneFilter(f: Frame, columns: seq<string>)
    requires NonZero(f, columns).Ok?
    ensures NonZero(f, columns).value.index == f.index && NonZero(f, columns).value.columns == f.columns
    ensures NonZero(f, columns).value.rows == Filter(f.rows, x => SensorsNonZero(x, columns))
    decreases |columns|
  {
    if columns == [] {
      FilterEquiv(f.rows, x => SensorsNonZero(x, columns), x => true);
      FilterAll(f.rows, x => SensorsNonZero(x, columns));
    } else {
      var column := columns[0];
      var g := f.(rows := Filter(f.rows, x => !IsZero(CellAt(x, column))));
      NonZeroIsOneFilter(g, columns[1..]);
      assert forall x :: SensorsNonZero(x, columns) == (!IsZero(CellAt(x, column)) && SensorsNonZero(x, columns[1..])) by {
        forall x
          ensures SensorsNonZero(x, columns) == (!IsZero(CellAt(x, column)) && SensorsNonZero(x, columns[1..]))
        {
          assert forall k :: 1 <= k < |columns| ==> columns[k] == columns[1..][k - 1];
        }
      }
      FilterBoth(f.rows, x => !IsZero(CellAt(x, column)), x => SensorsNonZero(x, columns[1..]),
                 x => SensorsNonZero(x, columns));
    }
  }

  /** A mask every element passes keeps everything. */
  lemma {:induction false} FilterAll(s: seq<Row>, p: Row -> bool)
    requires forall x :: p(x)
    ensures Filter(s, p) == s
  {
    if s != [] {
      FilterAll(s[1..], p);
    }
  }

  /**
   * The stage keeps exactly the rows of the sorted, annotated input that pass every test, in order: the gap
   * to the predecessor in the full sorted input, the speed and the sensor readings.
   */
  lemma ProcessIsOneFilter(source: Frame)
    requires Process(source).Ok?
    ensures var out := Process(source).value;
      out.index == source.index && out.columns == source.columns + {GapColumn} &&
      out.rows == Filter(WithGaps(SortBy(source.rows, Ts)), Keep)
  {
    var annotated := WithGaps(SortBy(source.rows, Ts));
    var timed := Filter(Filter(annotated, GapBelowMax), GapAboveMin);
    var fast := Filter(Filter(timed, FastEnough), SlowEnough);
    var f := Frame(source.index, source.columns + {GapColumn}, fast);
    NonZeroIsOneFilter(f, SensorColumns);
    FilterBoth(annotated, GapBelowMax, GapAboveMin, x => GapBelowMax(x) && GapAboveMin(x));
    FilterBoth(timed, FastEnough, SlowEnough, x => FastEnough(x) && SlowEnough(x));
    FilterBoth(annotated, x => GapBelowMax(x) && GapAboveMin(x), x => FastEnough(x) && SlowEnough(x),
               x => GapBelowMax(x) && GapAboveMin(x) && FastEnough(x) && SlowEnough(x));
    FilterBoth(annotated, x => GapBelowMax(x) && GapAboveMin(x) && FastEnough(x) && SlowEnough(x),
               x => SensorsNonZero(x, SensorColumns), Keep);
  }

  /** A row that passes every test sits one to thirty minutes (exclusive) after its predecessor. */
  lemma KeptHasGap(sorted: seq<Row>, x: Row)
    requires x in Filter(WithGaps(sorted), Keep)
    ensures FastEnough(x) && SlowEnough(x) && SensorsNonZero(x, SensorColumns)
    ensures exists k :: 1 <= k < |sorted| && x.ts == sorted[k].ts && x.train == sorted[k].train &&
                        MinGap < sorted[k].ts - sorted[k - 1].ts < MaxGap
  {
    var annotated := WithGaps(sorted);
    var k :| 0 <= k < |annotated| && annotated[k] == x;
    assert CellAt(x, GapColumn) == GapCell(sorted, k);
  }

  /**
   * Every row kept is a row of the input, one to thirty minutes (exclusive) after its predecessor in the
   * sorted input, at 1 to 100 km/h, with no sensor reading zero; the first row, which has no predecessor, is
   * never kept, so a non-empty input loses at least one row.
   */
  lemma ProcessKeeps(source: Frame)
    requires Process(source).Ok?
    ensures var out := Process(source).value;
      var sorted := SortBy(source.rows, Ts);
      (forall x :: x in out.rows ==>
         FastEnough(x) && SlowEnough(x) && SensorsNonZero(x, SensorColumns) &&
         exists k :: 1 <= k < |sorted| && x.ts == sorted[k].ts && x.train == sorted[k].train &&
                     MinGap < sorted[k].ts - sorted[k - 1].ts < MaxGap) &&
      (source.rows != [] ==> |out.rows| < |source.rows|)
  {
    ProcessIsOneFilter(source);
    var sorted := SortBy(source.rows, Ts);
    var out := Process(source).value;
    forall x | x in out.rows
      ensures FastEnough(x) && SlowEnough(x) && SensorsNonZero(x, SensorColumns)
      ensures exists k :: 1 <= k < |sorted| && x.ts == sorted[k].ts && x.train == sorted[k].train &&
                          MinGap < sorted[k].ts - sorted[k - 1].ts < MaxGap
    {
      KeptHasGap(sorted, x);
    }
    if source.rows != [] {
      FirstDropped(sorted);
    }
  }

  /** The first row of the sorted input has no gap, so a non-empty input always loses a row. */
  lemma FirstDropped(sorted: seq<Row>)
    requires sorted != []
    ensures |Filter(WithGaps(sorted), Keep)| < |sorted|
  {
    var annotated := WithGaps(sorted);
    assert CellAt(annotated[0], GapColumn) == Missing;
    FilterDrops(annotated, Keep, 0);
  }

  /** The result is an order-preserving selection of the annotated sorted input. */
  lemma ProcessSelects(source: Frame)
    requires Process(source).Ok?
    ensures IsSubsequence(Process(source).value.rows, WithGaps(SortBy(source.rows, Ts)))
  {
    ProcessIsOneFilter(source);
    FilterIsSubsequence(WithGaps(SortBy(source.rows, Ts)), Keep);
  }

  /**
   * The gap is taken in the full sorted input, before any row is dropped: of rows at 0, 2000 and 2010
   * seconds the last is kept as 10 seconds after the second, which is itself dropped for its 2000-second gap.
   */
  lemma GapBeforeFiltering()
    ensures var rows := [Row(0, None, map[]), Row(2000, None, map[]), Row(2010, None, map[])];
      var annotated := WithGaps(rows);
      !GapBelowMax(annotated[1]) && GapBelowMax(annotated[2]) && GapAboveMin(annotated[2])
  {
    var rows := [Row(0, None, map[]), Row(2000, None, map[]), Row(2010, None, map[])];
    assert GapCell(rows, 1) == Span(2000);
    assert GapCell(rows, 2) == Span(10);
  }
}
