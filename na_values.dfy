/** `NotApplicableCountComponent`: the rows holding at least one missing value. */
module NaValues {
  import opened Seqs
  import opened Frames

  /** `isna` of one cell; the `train_id` column is missing where the row has no train id. */
  predicate IsNa(r: Row, column: string) {
    if column == TrainColumn then r.train.None? else CellAt(r, column).Missing?
  }

  /** `isna().any(axis=1)`: some column of the frame is missing in the row. */
  predicate HasNa(columns: set<string>, r: Row) {
    exists c | c in columns :: IsNa(r, c)
  }

  /**
   * `NotApplicableCountComponent.run`: exactly the rows with a missing value, in their order and each as often
   * as in the source, with the same columns; no row is added.
   */
  function NotApplicableCount(source: Frame): (r: Frame)
    ensures r.index == source.index && r.columns == source.columns
    ensures IsSubsequence(r.rows, source.rows)
    ensures forall x :: x in r.rows <==> x in source.rows && HasNa(source.columns, x)
    ensures |r.rows| <= |source.rows|
    ensures forall x :: multiset(r.rows)[x] == if HasNa(source.columns, x) then multiset(source.rows)[x] else 0
  {
    var columns := source.columns;
    var kept := Filter(source.rows, x => HasNa(columns, x));
    FilterIsSubsequence(source.rows, x => HasNa(columns, x));
    forall x {
      FilterCount(source.rows, x => HasNa(columns, x), x);
    }
    source.(rows := kept)
  }

  /** Rows without a missing value are all dropped; a row with one is kept. */
  lemma NotApplicableCountKeeps(source: Frame, i: int)
    requires 0 <= i < |source.rows|
    ensures HasNa(source.columns, source.rows[i]) <==> source.rows[i] in NotApplicableCount(source).rows
  {
  }
}
