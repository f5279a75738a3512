/**
 * Data frames as the pipeline stores and passes them: a timestamp index, a set of column names and rows.
 * The `train_id` column is carried in `Row.train` (None is a missing value); every other column is a cell.
 */
module Frames {
  import opened Base
  import opened Seqs
  import opened Text

  /**
   * One value of a column: a number, a text (such as `classification`), a boolean flag a rule adds, a
   * time difference in seconds (`time_difference`), or a missing value (NaN / NaT / None).
   */
  datatype Cell = Num(x: real) | Text(s: string) | Flag(b: bool) | Span(seconds: int) | Missing

  /** A train identifier as found in a `train_id` column or passed as an argument: an integer or a text. */
  datatype TrainId = Number(n: int) | Name(s: string)

  datatype Row = Row(ts: int, train: Option<TrainId>, fields: map<string, Cell>)

  /** The kind of a frame's index: DatetimeIndex, RangeIndex (what `pd.DataFrame()` has) or anything else. */
  datatype IndexKind = TimeIndex | RangeIndex | OtherIndex

  datatype Frame = Frame(index: IndexKind, columns: set<string>, rows: seq<Row>)

  const TrainColumn: string := "train_id"

  /** `pd.DataFrame()`. */
  const NoFrame: Frame := Frame(RangeIndex, {}, [])

  /** Python truthiness of an optional train id: None, 0 and "" are false. */
  predicate IsSet(t: Option<TrainId>) {
    t.Some? && t.value != Number(0) && t.value != Name("")
  }

  /** The text of a train id inside a path or a key (`f"{train_id}"`). */
  function Render(t: TrainId): string {
    match t
    case Number(n) => DecimalString(n)
    case Name(s) => s
  }

  /**
   * `int(train_id)`: a numeric id is itself; a text id is read as Python's `int` reads it, and anything that
   * is not an integer literal raises ValueError.
   */
  function AsInt(t: TrainId): (r: Result<int>)
    ensures t.Number? ==> r == Ok(t.n)
    ensures t.Name? ==> (r.Ok? <==> ParseInt(t.s).Some?) && (r.Ok? ==> r.value == ParseInt(t.s).value)
    ensures r.Err? ==> r.error.ValueError?
  {
    match t
    case Number(n) => Ok(n)
    case Name(s) =>
      var v := ParseInt(s);
      if v.Some? then Ok(v.value) else Err(ValueError("invalid literal for int()"))
  }

  /** A text id holding an integer's decimal text, with any whitespace around it, reads as that integer. */
  lemma AsIntRendered(pre: string, n: int, post: string)
    requires AllSpace(pre) && AllSpace(post)
    ensures AsInt(Name(pre + DecimalString(n) + post)) == Ok(n)
  {
    ParseIntSpaces(pre, n, post);
  }

  /** `DataFrame.empty`: no rows or no columns. */
  predicate IsEmpty(f: Frame) {
    |f.rows| == 0 || f.columns == {}
  }

  function Ts(r: Row): int {
    r.ts
  }

  function Stamps(rows: seq<Row>): (s: seq<int>)
    ensures |s| == |rows| && forall i :: 0 <= i < |rows| ==> s[i] == rows[i].ts
  {
    if rows == [] then [] else [rows[0].ts] + Stamps(rows[1..])
  }

  predicate HasStamp(rows: seq<Row>, t: int) {
    exists i :: 0 <= i < |rows| && rows[i].ts == t
  }

  /** `index.is_monotonic_increasing` (non-decreasing). */
  predicate NonDecreasing(rows: seq<Row>) {
    forall i :: 0 <= i < |rows| - 1 ==> rows[i].ts <= rows[i + 1].ts
  }

  lemma {:induction false} NonDecreasingSorted(rows: seq<Row>)
    requires NonDecreasing(rows)
    ensures SortedBy(rows, Ts)
    decreases |rows|
  {
    if |rows| > 1 {
      NonDecreasingSorted(rows[1..]);
      forall i, j | 0 <= i < j < |rows|
        ensures rows[i].ts <= rows[j].ts
      {
        if i > 0 {
          assert rows[i] == rows[1..][i - 1] && rows[j] == rows[1..][j - 1];
        } else if j > 1 {
          assert rows[1] == rows[1..][0] && rows[j] == rows[1..][j - 1];
        }
      }
    }
  }

  /** The value a row holds in a column (`NaN` where the row has none, as concat aligns columns). */
  function CellAt(r: Row, column: string): Cell {
    if column in r.fields then r.fields[column] else Missing
  }

  /**
   * `pd.concat([a, b])`: rows appended, columns united; an empty operand does not contribute its index.
   */
  function Concat(a: Frame, b: Frame): (c: Frame)
    ensures c.rows == a.rows + b.rows && c.columns == a.columns + b.columns
    ensures |a.rows| > 0 && a.index == TimeIndex && (|b.rows| == 0 || b.index == TimeIndex) ==> c.index == TimeIndex
    ensures |b.rows| > 0 && b.index == TimeIndex && (|a.rows| == 0 || a.index == TimeIndex) ==> c.index == TimeIndex
  {
    var index :=
      if |a.rows| == 0 then b.index
      else if |b.rows| == 0 then a.index
      else if a.index == b.index then a.index
      else OtherIndex;
    Frame(index, a.columns + b.columns, a.rows + b.rows)
  }

  /** The rows with their `train_id` value removed (`df.drop(columns=["train_id"])`). */
  function DropTrain(rows: seq<Row>): (r: seq<Row>)
    ensures |r| == |rows|
    ensures forall i :: 0 <= i < |rows| ==> r[i] == rows[i].(train := None)
  {
    if rows == [] then [] else [rows[0].(train := None)] + DropTrain(rows[1..])
  }

  /** `df["train_id"] = n`. */
  function TagTrain(f: Frame, n: int): (g: Frame)
    ensures g.index == f.index && g.columns == f.columns + {TrainColumn} && |g.rows| == |f.rows|
    ensures forall i :: 0 <= i < |f.rows| ==> g.rows[i] == f.rows[i].(train := Some(Number(n)))
  {
    Frame(f.index, f.columns + {TrainColumn}, TagRows(f.rows, n))
  }

  function TagRows(rows: seq<Row>, n: int): (r: seq<Row>)
    ensures |r| == |rows|
    ensures forall i :: 0 <= i < |rows| ==> r[i] == rows[i].(train := Some(Number(n)))
  {
    if rows == [] then [] else [rows[0].(train := Some(Number(n)))] + TagRows(rows[1..], n)
  }

  /** The smallest timestamp of non-empty rows (`index.min()`). */
  function MinStamp(rows: seq<Row>): (m: int)
    requires |rows| > 0
    ensures HasStamp(rows, m)
    ensures forall i :: 0 <= i < |rows| ==> m <= rows[i].ts
  {
    if |rows| == 1 then rows[0].ts
    else
      var rest := MinStamp(rows[1..]);
      assert forall i :: 1 <= i < |rows| ==> rows[i] == rows[1..][i - 1];
      if rows[0].ts <= rest then rows[0].ts else rest
  }

  /** The largest timestamp of non-empty rows (`index.max()`). */
  function MaxStamp(rows: seq<Row>): (m: int)
    requires |rows| > 0
    ensures HasStamp(rows, m)
    ensures forall i :: 0 <= i < |rows| ==> rows[i].ts <= m
  {
    if |rows| == 1 then rows[0].ts
    else
      var rest := MaxStamp(rows[1..]);
      assert forall i :: 1 <= i < |rows| ==> rows[i] == rows[1..][i - 1];
      if rows[0].ts >= rest then rows[0].ts else rest
  }

  /** `frame.index.max()`: None stands for the NaN of an empty index. */
  function MaxIndex(f: Frame): (m: Option<int>)
    ensures m.None? <==> |f.rows| == 0
    ensures m.Some? ==> HasStamp(f.rows, m.value) && forall i :: 0 <= i < |f.rows| ==> f.rows[i].ts <= m.value
  {
    if |f.rows| == 0 then None else Some(MaxStamp(f.rows))
  }
}
