/**
 * `compute_ranking_for_train_for_outliers`: every outlier row gets an intensity (1, or a value derived from
 * an intensity column); the intensities are summed per train and the trains sorted by that sum, largest first.
 */
module Ranking {
  import opened Base
  import opened Seqs
  import opened Frames

  const IntensityColumn: string := "intensity"

  datatype Mode = Multiplicative | Additive | Exponential

  function ModeName(m: Mode): string {
    match m
    case Multiplicative => "multiplicative"
    case Additive => "additive"
    case Exponential => "exponential"
  }

  /** `_intensity_mode_to_function`: the three supported modes by name; any other name raises ValueError. */
  function ModeOf(name: string): (r: Result<Mode>)
    ensures r.Ok? <==> name == "multiplicative" || name == "additive" || name == "exponential"
    ensures r.Err? ==> r.error.ValueError?
  {
    if name == "multiplicative" then Ok(Multiplicative)
    else if name == "additive" then Ok(Additive)
    else if name == "exponential" then Ok(Exponential)
    else Err(ValueError("Intensity mode not supported"))
  }

  /** Every mode is found under its own name, and only there. */
  lemma ModeRoundTrip(m: Mode, name: string)
    ensures ModeOf(ModeName(m)) == Ok(m)
    ensures ModeOf(name).Ok? ==> ModeName(ModeOf(name).value) == name
  {
  }

  /** `True` and `False` as numbers. */
  function FlagValue(b: bool): real {
    if b then 1.0 else 0.0
  }

  /**
   * The mode's function applied as `f(x, 1)`: `x * 1`, `x + 1` or `x ** 1`. A boolean becomes the number 1
   * or 0; NaN stays NaN; a text or a duration survives `* 1` but not `+ 1` or `** 1` (TypeError).
   */
  function WithOne(m: Mode, x: Cell): Result<Cell> {
    match x
    case Num(v) => Ok(if m == Additive then Num(v + 1.0) else Num(v))
    case Flag(b) => Ok(if m == Additive then Num(FlagValue(b) + 1.0) else Num(FlagValue(b)))
    case Missing => Ok(Missing)
    case Text(_) => if m == Multiplicative then Ok(x) else Err(TypeError("unsupported operand type"))
    case Span(_) => if m == Multiplicative then Ok(x) else Err(TypeError("unsupported operand type"))
  }

  /**
   * With `y = 1`, multiplication leaves every value but a boolean as it is, and so does exponentiation for
   * numbers and NaN; addition adds one to a number.
   */
  lemma WithOneIdentity(x: Cell)
    ensures !x.Flag? ==> WithOne(Multiplicative, x) == Ok(x)
    ensures x.Num? || x.Missing? ==> WithOne(Exponential, x) == Ok(x)
    ensures x.Num? ==> WithOne(Additive, x) == Ok(Num(x.x + 1.0))
  {
  }

  /** The `train_id` column read as a value: an integer id is a number, a text id a text, no id NaN. */
  function IdCell(t: Option<TrainId>): Cell {
    match t
    case None => Missing
    case Some(Number(n)) => Num(n as real)
    case Some(Name(s)) => Text(s)
  }

  function ColumnCell(r: Row, column: string): Cell {
    if column == TrainColumn then IdCell(r.train) else CellAt(r, column)
  }

  /** One row's intensity: 1 without an intensity column, otherwise the mode applied to the column's value. */
  function RowIntensity(r: Row, column: Option<string>, mode: string): Result<Cell> {
    if column.None? then Ok(Num(1.0))
    else
      var m :- ModeOf(mode);
      WithOne(m, ColumnCell(r, column.value))
  }

  function WithIntensityField(r: Row, c: Cell): Row {
    r.(fields := r.fields[IntensityColumn := c])
  }

  /** `Series.apply` over the rows in order: the first failing row raises. */
  function Annotate(rows: seq<Row>, column: Option<string>, mode: string): (r: Result<seq<Row>>)
    ensures r.Ok? <==> forall i :: 0 <= i < |rows| ==> RowIntensity(rows[i], column, mode).Ok?
    ensures r.Ok? ==> |r.value| == |rows|
    ensures r.Ok? ==>
      forall i :: 0 <= i < |rows| ==> r.value[i] == WithIntensityField(rows[i], RowIntensity(rows[i], column, mode).value)
  {
    if rows == [] then Ok([])
    else
      var c :- RowIntensity(rows[0], column, mode);
      var rest :- Annotate(rows[1..], column, mode);
      assert forall i :: 1 <= i < |rows| ==> rows[i] == rows[1..][i - 1];
      Ok([WithIntensityField(rows[0], c)] + rest)
  }

  /** `data["intensity"] = ...`: an intensity column the frame lacks raises KeyError. */
  function WithIntensity(f: Frame, column: Option<string>, mode: string): (r: Result<Frame>)
    ensures column.Some? && column.value !in f.columns ==> r == Err(KeyError(column.value))
    ensures column.None? ==> r.Ok?
    ensures r.Ok? ==> r.value.index == f.index && r.value.columns == f.columns + {IntensityColumn} &&
                      |r.value.rows| == |f.rows|
  {
    if column.Some? && column.value !in f.columns then Err(KeyError(column.value))
    else
      var rows :- Annotate(f.rows, column, mode);
      Ok(Frame(f.index, f.columns + {IntensityColumn}, rows))
  }

  // ---------------------------------------------------------------------------------------------
  // Summing per train

  /** One entry of the ranking: a train and its summed intensity. */
  datatype Ranked = Ranked(train: TrainId, intensity: real)

  /** A summand of `sum()`: NaN is skipped (counts 0); a text or a duration is not summed here. */
  function Amount(c: Cell): Result<real> {
    match c
    case Num(v) => Ok(v)
    case Flag(b) => Ok(FlagValue(b))
    case Missing => Ok(0.0)
    case Text(_) => Err(TypeError("intensity is not numeric"))
    case Span(_) => Err(TypeError("intensity is not numeric"))
  }

  /** The train and intensity of every row with a train id; `groupby` drops rows whose id is missing. */
  function Contributions(rows: seq<Row>): Result<seq<(TrainId, real)>> {
    if rows == [] then Ok([])
    else
      var rest :- Contributions(rows[1..]);
      if rows[0].train.None? then Ok(rest)
      else
        var v :- Amount(CellAt(rows[0], IntensityColumn));
        Ok([(rows[0].train.value, v)] + rest)
  }

  function Trains(g: seq<Ranked>): (ts: seq<TrainId>)
    ensures |ts| == |g| && forall i :: 0 <= i < |g| ==> ts[i] == g[i].train
  {
    if g == [] then [] else [g[0].train] + Trains(g[1..])
  }

  /** The intensity recorded for `t`, 0 if there is none. */
  function ValueOf(g: seq<Ranked>, t: TrainId): real {
    if g == [] then 0.0
    else if g[0].train == t then g[0].intensity
    else ValueOf(g[1..], t)
  }

  function Total(g: seq<Ranked>): real {
    if g == [] then 0.0 else g[0].intensity + Total(g[1..])
  }

  /** The summed intensity of train `t`. */
  function SumFor(pairs: seq<(TrainId, real)>, t: TrainId): real {
    if pairs == [] then 0.0
    else (if pairs[0].0 == t then pairs[0].1 else 0.0) + SumFor(pairs[1..], t)
  }

  function PairsTotal(pairs: seq<(TrainId, real)>): real {
    if pairs == [] then 0.0 else pairs[0].1 + PairsTotal(pairs[1..])
  }

  predicate HasKey(pairs: seq<(TrainId, real)>, t: TrainId) {
    exists i :: 0 <= i < |pairs| && pairs[i].0 == t
  }

  /** Adds `v` to the entry of `t`, or appends a new one. */
  function AddTo(g: seq<Ranked>, t: TrainId, v: real): seq<Ranked> {
    if g == [] then [Ranked(t, v)]
    else if g[0].train == t then [g[0].(intensity := g[0].intensity + v)] + g[1..]
    else [g[0]] + AddTo(g[1..], t, v)
  }

  /** `groupby("train_id")[["intensity"]].sum()`: one entry per train (in some order). */
  function Totals(pairs: seq<(TrainId, real)>): seq<Ranked> {
    if pairs == [] then [] else AddTo(Totals(pairs[1..]), pairs[0].0, pairs[0].1)
  }

  lemma {:induction false} AddToFacts(g: seq<Ranked>, t: TrainId, v: real)
    requires NoDup(Trains(g))
    ensures var h := AddTo(g, t, v);
      NoDup(Trains(h)) &&
      (forall u :: u in Trains(h) <==> u in Trains(g) || u == t) &&
      (forall u :: ValueOf(h, u) == ValueOf(g, u) + (if u == t then v else 0.0)) &&
      Total(h) == Total(g) + v
  {
    if g != [] {
      assert Trains(g) == [g[0].train] + Trains(g[1..]);
      NoDupTail(Trains(g));
      if g[0].train == t {
        ValueOfAbsent(g[1..], t);
        assert Trains(AddTo(g, t, v)) == Trains(g);
      } else {
        AddToFacts(g[1..], t, v);
        var h := AddTo(g, t, v);
        assert Trains(h) == [g[0].train] + Trains(AddTo(g[1..], t, v));
        NoDupCons(g[0].train, Trains(AddTo(g[1..], t, v)));
      }
    }
  }

  /** The tail of a list without duplicates has none and lacks the head. */
  lemma NoDupTail(s: seq<TrainId>)
    requires NoDup(s) && s != []
    ensures NoDup(s[1..]) && s[0] !in s[1..]
  {
    var t := s[1..];
    forall i, j | 0 <= i < j < |t|
      ensures t[i] != t[j]
    {
      assert t[i] == s[i + 1] && t[j] == s[j + 1];
    }
    forall j | 0 <= j < |t|
      ensures t[j] != s[0]
    {
      assert t[j] == s[j + 1];
    }
  }

  lemma {:induction false} ValueOfAbsent(g: seq<Ranked>, t: TrainId)
    requires t !in Trains(g)
    ensures ValueOf(g, t) == 0.0
  {
    if g != [] {
      assert Trains(g) == [g[0].train] + Trains(g[1..]);
      ValueOfAbsent(g[1..], t);
    }
  }

  lemma NoDupCons(x: TrainId, s: seq<TrainId>)
    requires NoDup(s) && x !in s
    ensures NoDup([x] + s)
  {
    var r := [x] + s;
    forall i, j | 0 <= i < j < |r|
      ensures r[i] != r[j]
    {
      assert r[j] == s[j - 1];
      if i > 0 {
        assert r[i] == s[i - 1];
      }
    }
  }

  /**
   * The per-train sums: each train with a row appears once, no other train appears, each entry holds the sum
   * of its train's intensities, and the entries add up to the total intensity.
   */
  lemma {:induction false} TotalsFacts(pairs: seq<(TrainId, real)>)
    ensures var g := Totals(pairs);
      NoDup(Trains(g)) &&
      (forall u :: u in Trains(g) <==> HasKey(pairs, u)) &&
      (forall u :: ValueOf(g, u) == SumFor(pairs, u)) &&
      Total(g) == PairsTotal(pairs)
  {
    if pairs != [] {
      TotalsFacts(pairs[1..]);
      AddToFacts(Totals(pairs[1..]), pairs[0].0, pairs[0].1);
      forall u
        ensures HasKey(pairs, u) <==> HasKey(pairs[1..], u) || u == pairs[0].0
      {
        if HasKey(pairs, u) && u != pairs[0].0 {
          var i :| 0 <= i < |pairs| && pairs[i].0 == u;
          assert pairs[1..][i - 1].0 == u;
        }
        if HasKey(pairs[1..], u) {
          var i :| 0 <= i < |pairs[1..]| && pairs[1..][i].0 == u;
          assert pairs[i + 1].0 == u;
        }
        if u == pairs[0].0 {
          assert pairs[0].0 == u;
        }
      }
    } else {
      assert Trains([]) == [];
    }
  }

  // ---------------------------------------------------------------------------------------------
  // Sorting, largest first

  ghost predicate Descending(s: seq<Ranked>) {
    forall i, j :: 0 <= i < j < |s| ==> s[i].intensity >= s[j].intensity
  }

  function InsertDesc(x: Ranked, s: seq<Ranked>): (r: seq<Ranked>)
    ensures |r| == |s| + 1 && multiset(r) == multiset(s) + multiset{x}
  {
    if s == [] || x.intensity >= s[0].intensity then [x] + s
    else
      assert s == [s[0]] + s[1..];
      [s[0]] + InsertDesc(x, s[1..])
  }

  /** `sort_values(ascending=False, by="intensity")`. */
  function SortDesc(s: seq<Ranked>): (r: seq<Ranked>)
    ensures |r| == |s| && multiset(r) == multiset(s)
  {
    if s == [] then []
    else
      assert s == [s[0]] + s[1..];
      InsertDesc(s[0], SortDesc(s[1..]))
  }

  /** The trains of a list are the trains of its entries. */
  lemma TrainsMembers(g: seq<Ranked>)
    ensures forall u :: u in Trains(g) <==> exists e :: e in g && e.train == u
  {
    forall u | u in Trains(g)
      ensures exists e :: e in g && e.train == u
    {
      var i :| 0 <= i < |g| && Trains(g)[i] == u;
      assert g[i] in g;
    }
    forall e | e in g
      ensures e.train in Trains(g)
    {
      var i :| 0 <= i < |g| && g[i] == e;
      assert Trains(g)[i] == e.train;
    }
  }

  /** Entries are kept by sorting, and nothing is added. */
  lemma SameEntries(r: seq<Ranked>, s: seq<Ranked>, x: Option<Ranked>)
    requires multiset(r) == multiset(s) + (if x.Some? then multiset{x.value} else multiset{})
    ensures forall e :: e in r <==> e in s || x == Some(e)
  {
    forall e
      ensures e in r <==> e in s || x == Some(e)
    {
      assert e in r <==> e in multiset(r);
      assert e in s <==> e in multiset(s);
    }
  }

  /** The first entry of a descending list is the largest, and the rest is descending. */
  lemma DescHead(s: seq<Ranked>)
    requires Descending(s) && s != []
    ensures Descending(s[1..])
    ensures forall y :: y in s ==> s[0].intensity >= y.intensity
  {
    forall y | y in s
      ensures s[0].intensity >= y.intensity
    {
      var j :| 0 <= j < |s| && s[j] == y;
      if j > 0 {
        assert s[0].intensity >= s[j].intensity;
      }
    }
    var t := s[1..];
    forall i, j | 0 <= i < j < |t|
      ensures t[i].intensity >= t[j].intensity
    {
      assert t[i] == s[i + 1] && t[j] == s[j + 1];
    }
  }

  /** An entry at least as large as every entry of a descending list may go in front of it. */
  lemma DescCons(a: Ranked, s: seq<Ranked>)
    requires Descending(s)
    requires forall y :: y in s ==> a.intensity >= y.intensity
    ensures Descending([a] + s)
  {
    var r := [a] + s;
    forall i, j | 0 <= i < j < |r|
      ensures r[i].intensity >= r[j].intensity
    {
      assert r[j] == s[j - 1] && r[j] in s;
      if i > 0 {
        assert r[i] == s[i - 1];
      }
    }
  }

  lemma {:induction false} InsertDescSorted(x: Ranked, s: seq<Ranked>)
    requires Descending(s)
    ensures Descending(InsertDesc(x, s))
  {
    if s == [] {
    } else if x.intensity >= s[0].intensity {
      DescHead(s);
      DescCons(x, s);
    } else {
      DescHead(s);
      InsertDescSorted(x, s[1..]);
      var rest := InsertDesc(x, s[1..]);
      SameEntries(rest, s[1..], Some(x));
      assert forall y :: y in s[1..] ==> y in s;
      DescCons(s[0], rest);
    }
  }

  lemma {:induction false} InsertDescTotal(x: Ranked, s: seq<Ranked>)
    ensures Total(InsertDesc(x, s)) == x.intensity + Total(s)
  {
    if s != [] && x.intensity < s[0].intensity {
      InsertDescTotal(x, s[1..]);
    }
  }

  lemma {:induction false} InsertDescNoDup(x: Ranked, s: seq<Ranked>)
    requires NoDup(Trains(s)) && x.train !in Trains(s)
    ensures NoDup(Trains(InsertDesc(x, s)))
  {
    assert s != [] ==> Trains(s) == [s[0].train] + Trains(s[1..]);
    if s == [] || x.intensity >= s[0].intensity {
      assert Trains(InsertDesc(x, s)) == [x.train] + Trains(s);
      NoDupCons(x.train, Trains(s));
    } else {
      NoDupTail(Trains(s));
      InsertDescNoDup(x, s[1..]);
      var rest := InsertDesc(x, s[1..]);
      assert Trains(InsertDesc(x, s)) == [s[0].train] + Trains(rest);
      SameEntries(rest, s[1..], Some(x));
      TrainsMembers(rest);
      TrainsMembers(s[1..]);
      NoDupCons(s[0].train, Trains(rest));
    }
  }

  /** Sorting yields a descending list with the same entries and the same total. */
  lemma {:induction false} SortDescFacts(s: seq<Ranked>)
    ensures var r := SortDesc(s);
      Descending(r) && Total(r) == Total(s) && (forall e :: e in r <==> e in s)
  {
    SameEntries(SortDesc(s), s, None);
    if s != [] {
      SortDescFacts(s[1..]);
      var rest := SortDesc(s[1..]);
      InsertDescSorted(s[0], rest);
      InsertDescTotal(s[0], rest);
    }
  }

  /** Sorting keeps the trains distinct. */
  lemma {:induction false} SortDescNoDup(s: seq<Ranked>)
    requires NoDup(Trains(s))
    ensures NoDup(Trains(SortDesc(s)))
  {
    if s != [] {
      assert Trains(s) == [s[0].train] + Trains(s[1..]);
      NoDupTail(Trains(s));
      SortDescNoDup(s[1..]);
      var rest := SortDesc(s[1..]);
      SameEntries(rest, s[1..], None);
      TrainsMembers(rest);
      TrainsMembers(s[1..]);
      InsertDescNoDup(s[0], rest);
    }
  }

  // ---------------------------------------------------------------------------------------------
  // The ranking

  /**
   * `compute_ranking_for_train_for_outliers(data, intensity_column, intensity_mode)` as a value: None when
   * the frame has no `train_id` column, otherwise the per-train sums, largest first.
   */
  function Ranking(f: Frame, column: Option<string>, mode: string): (r: Result<Option<seq<Ranked>>>)
    ensures r.Ok? ==> (r.value.None? <==> TrainColumn !in f.columns)
  {
    var g :- WithIntensity(f, column, mode);
    if TrainColumn !in g.columns then Ok(None)
    else
      var pairs :- Contributions(g.rows);
      Ok(Some(SortDesc(Totals(pairs))))
  }

  /** The summands behind a successful ranking. */
  function Summands(f: Frame, column: Option<string>, mode: string): seq<(TrainId, real)>
    requires Ranking(f, column, mode).Ok? && Ranking(f, column, mode).value.Some?
  {
    Contributions(WithIntensity(f, column, mode).value.rows).value
  }

  /**
   * A ranking has one entry per train with a row, sorted by summed intensity, largest first; each entry
   * holds its train's sum, and the entries add up to the total intensity.
   */
  lemma RankingSums(f: Frame, column: Option<string>, mode: string)
    requires Ranking(f, column, mode).Ok? && Ranking(f, column, mode).value.Some?
    ensures var rk := Ranking(f, column, mode).value.value; var pairs := Summands(f, column, mode);
      Descending(rk) && NoDup(Trains(rk)) &&
      (forall u :: u in Trains(rk) <==> HasKey(pairs, u)) &&
      (forall e :: e in rk ==> e.intensity == SumFor(pairs, e.train)) &&
      Total(rk) == PairsTotal(pairs)
  {
    var pairs := Summands(f, column, mode);
    var g := Totals(pairs);
    TotalsFacts(pairs);
    SortDescFacts(g);
    SortDescNoDup(g);
    TrainsMembers(g);
    TrainsMembers(SortDesc(g));
    forall e | e in g
      ensures e.intensity == ValueOf(g, e.train)
    {
      EntryValue(g, e);
    }
  }

  /** In a list of distinct trains, an entry's intensity is the one recorded for its train. */
  lemma {:induction false} EntryValue(g: seq<Ranked>, e: Ranked)
    requires NoDup(Trains(g)) && e in g
    ensures e.intensity == ValueOf(g, e.train)
  {
    assert Trains(g) == [g[0].train] + Trains(g[1..]);
    if g[0] != e {
      NoDupTail(Trains(g));
      assert e in g[1..];
      TrainsMembers(g[1..]);
      EntryValue(g[1..], e);
    }
  }

  /** The number of rows of train `t`. */
  function CountFor(rows: seq<Row>, t: TrainId): nat {
    if rows == [] then 0 else (if rows[0].train == Some(t) then 1 else 0) + CountFor(rows[1..], t)
  }

  /** Without an intensity column every row counts one, so a train's sum is its number of outlier rows. */
  lemma {:induction false} CountedRows(rows: seq<Row>, t: TrainId)
    requires forall i :: 0 <= i < |rows| ==> CellAt(rows[i], IntensityColumn) == Num(1.0)
    ensures Contributions(rows).Ok? && SumFor(Contributions(rows).value, t) == CountFor(rows, t) as real
  {
    if rows != [] {
      CountedRows(rows[1..], t);
      assert CellAt(rows[0], IntensityColumn) == Num(1.0);
    }
  }

  /** Without an intensity column the ranking counts each train's outlier rows. */
  lemma RankingCounts(f: Frame)
    requires Ranking(f, None, "multiplicative").Ok? && Ranking(f, None, "multiplicative").value.Some?
    ensures forall e :: e in Ranking(f, None, "multiplicative").value.value ==> e.intensity == CountFor(f.rows, e.train) as real
  {
    var g := WithIntensity(f, None, "multiplicative").value;
    forall i | 0 <= i < |g.rows|
      ensures CellAt(g.rows[i], IntensityColumn) == Num(1.0)
    {
      assert g.rows[i] == WithIntensityField(f.rows[i], Num(1.0));
    }
    RankingSums(f, None, "multiplicative");
    forall e | e in Ranking(f, None, "multiplicative").value.value
      ensures e.intensity == CountFor(f.rows, e.train) as real
    {
      CountedRows(g.rows, e.train);
      SameTrains(f.rows, g.rows, e.train);
    }
  }

  /** Annotating rows does not move them between trains. */
  lemma {:induction false} SameTrains(a: seq<Row>, b: seq<Row>, t: TrainId)
    requires |a| == |b| && forall i :: 0 <= i < |a| ==> a[i].train == b[i].train
    ensures CountFor(a, t) == CountFor(b, t)
  {
    if a != [] {
      SameTrains(a[1..], b[1..], t);
    }
  }

  // ---------------------------------------------------------------------------------------------
  // The caller's frame

  /** A data frame object that the ranking writes its `intensity` column into. */
  class FrameRef {
    var frame: Frame

    constructor (f: Frame)
      ensures frame == f
    {
      frame := f;
    }
  }

  /**
   * `compute_ranking_for_train_for_outliers`: the `intensity` column is written into the caller's frame
   * before the `train_id` check, so it stays there even when the result is None.
   */
  method ComputeRanking(data: FrameRef, column: Option<string>, mode: string) returns (r: Result<Option<seq<Ranked>>>)
    modifies data
    ensures r == Ranking(old(data.frame), column, mode)
    ensures var g := WithIntensity(old(data.frame), column, mode);
      data.frame == if g.Ok? then g.value else old(data.frame)
  {
    var g := WithIntensity(data.frame, column, mode);
    if g.Err? {
      return Err(g.error);
    }
    data.frame := g.value;
    if TrainColumn !in data.frame.columns {
      return Ok(None);
    }
    var pairs := Contributions(data.frame.rows);
    if pairs.Err? {
      return Err(pairs.error);
    }
    r := Ok(Some(SortDesc(Totals(pairs.value))));
  }
}
