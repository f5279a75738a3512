/**
 * `find_trip_split_indexes`: cuts the time series into trips wherever two consecutive timestamps lie more than
 * `threshold` minutes apart, and returns each trip as a pair of its first and last timestamp.
 */
module TripSplit {
  import opened Base
  import opened Seqs
  import opened Frames

  /** A trip: its first and last timestamp; `None` stands for NaT. */
  type Segment = (Option<int>, Option<int>)

  predicate Sorted(s: seq<int>) {
    forall i, j :: 0 <= i < j < |s| ==> s[i] <= s[j]
  }

  /** The gap in front of position `j` is longer than the threshold (given in minutes; stamps are seconds). */
  predicate Splits(s: seq<int>, threshold: real, j: int)
    requires 1 <= j < |s|
  {
    (s[j] - s[j - 1]) as real > 60.0 * threshold
  }

  /**
   * `diff[diff > Timedelta(minutes=threshold)].index` from position `i` on: the stamps that come more than the
   * threshold after their predecessor (the first difference is NaT, which no comparison selects).
   */
  function LeftFrom(s: seq<int>, threshold: real, i: nat): seq<int>
    requires 1 <= i
    decreases |s| - i
  {
    if i >= |s| then []
    else (if Splits(s, threshold, i) then [s[i]] else []) + LeftFrom(s, threshold, i + 1)
  }

  /**
   * `s_diff[s_diff < -Timedelta(minutes=threshold)].index` from position `i` on, where `s_diff` is the
   * difference to the next stamp (`diff(periods=-1)`; the last one is NaT).
   */
  function RightFrom(s: seq<int>, threshold: real, i: nat): seq<int>
    decreases |s| - i
  {
    if i + 1 >= |s| then []
    else (if ((s[i] - s[i + 1]) as real) < -(60.0 * threshold) then [s[i]] else []) + RightFrom(s, threshold, i + 1)
  }

  /** `zip`: pairs up the two lists, stopping at the shorter. */
  function Pair(a: seq<int>, b: seq<int>): (r: seq<Segment>)
    ensures |r| == if |a| <= |b| then |a| else |b|
    ensures forall k :: 0 <= k < |r| ==> r[k] == (Some(a[k]), Some(b[k]))
  {
    if a == [] || b == [] then [] else [(Some(a[0]), Some(b[0]))] + Pair(a[1..], b[1..])
  }

  /** `find_trip_split_indexes(data, threshold)`; the caller's frame is left as it was. */
  function FindTripSplits(data: Frame, threshold: real): (r: seq<Segment>)
    ensures data.rows == [] ==> r == [(None, None)]
  {
    var s := Stamps(SortBy(data.rows, Ts));
    if s == [] then [(None, None)]
    else Pair([MinStamp(data.rows)] + LeftFrom(s, threshold, 1), RightFrom(s, threshold, 0) + [MaxStamp(data.rows)])
  }

  /** The trips of sorted, non-empty stamps, starting at the first stamp and ending at the last. */
  function Trips(s: seq<int>, threshold: real): seq<Segment>
    requires s != []
  {
    Pair([s[0]] + LeftFrom(s, threshold, 1), RightFrom(s, threshold, 0) + [s[|s| - 1]])
  }

  // ---------------------------------------------------------------------------------------------
  // The trips by position in the sorted stamps

  /** The positions from `i` on whose gap to their predecessor is longer than the threshold, in order. */
  function CutsFrom(s: seq<int>, threshold: real, i: nat): (r: seq<nat>)
    requires 1 <= i
    ensures forall k :: 0 <= k < |r| ==> i <= r[k] < |s|
    ensures forall k, l :: 0 <= k < l < |r| ==> r[k] < r[l]
    ensures forall j :: i <= j < |s| ==> (j in r <==> Splits(s, threshold, j))
    decreases |s| - i
  {
    if i >= |s| then []
    else (if Splits(s, threshold, i) then [i] else []) + CutsFrom(s, threshold, i + 1)
  }

  function Cuts(s: seq<int>, threshold: real): seq<nat> {
    CutsFrom(s, threshold, 1)
  }

  /** Position of the first stamp of trip `k`. */
  function First(s: seq<int>, cuts: seq<nat>, k: int): int
    requires 0 <= k <= |cuts|
  {
    if k == 0 then 0 else cuts[k - 1]
  }

  /** Position of the last stamp of trip `k`. */
  function Last(s: seq<int>, cuts: seq<nat>, k: int): int
    requires 0 <= k <= |cuts|
  {
    if k == |cuts| then |s| - 1 else cuts[k] as int - 1
  }

  /** The left side picks exactly the stamps at the cut positions. */
  lemma {:induction false} LeftAtCuts(s: seq<int>, threshold: real, i: nat)
    requires 1 <= i
    ensures var left := LeftFrom(s, threshold, i); var cuts := CutsFrom(s, threshold, i);
      |left| == |cuts| && forall k :: 0 <= k < |cuts| ==> left[k] == s[cuts[k]]
    decreases |s| - i
  {
    if i < |s| {
      LeftAtCuts(s, threshold, i + 1);
    }
  }

  /** The right side picks exactly the stamps just before the cut positions: the same gaps, seen from their left. */
  lemma {:induction false} RightBeforeCuts(s: seq<int>, threshold: real, i: nat)
    requires 1 <= i
    ensures var right := RightFrom(s, threshold, i - 1); var cuts := CutsFrom(s, threshold, i);
      |right| == |cuts| && forall k :: 0 <= k < |cuts| ==> right[k] == s[cuts[k] - 1]
    decreases |s| - i
  {
    if i < |s| {
      RightBeforeCuts(s, threshold, i + 1);
      var head := if Splits(s, threshold, i) then [i] else [];
      assert ((s[i - 1] - s[i]) as real < -(60.0 * threshold)) == Splits(s, threshold, i);
      assert RightFrom(s, threshold, i - 1) == (if Splits(s, threshold, i) then [s[i - 1]] else []) + RightFrom(s, threshold, i);
      assert CutsFrom(s, threshold, i) == head + CutsFrom(s, threshold, i + 1);
    }
  }

  /** The stamps of rows sorted by time are sorted, and they are the stamps of the rows. */
  lemma SortedStamps(rows: seq<Row>)
    ensures var sorted := SortBy(rows, Ts); var s := Stamps(sorted);
      Sorted(s) && forall x :: x in sorted <==> x in rows
  {
    SortByMembers(rows, Ts);
  }

  /** `index.min()` and `index.max()` are the first and last of the sorted stamps. */
  lemma Ends(rows: seq<Row>)
    requires rows != []
    ensures var s := Stamps(SortBy(rows, Ts));
      Sorted(s) && MinStamp(rows) == s[0] && MaxStamp(rows) == s[|s| - 1]
  {
    var sorted := SortBy(rows, Ts);
    var s := Stamps(sorted);
    SortedStamps(rows);
    MinEnd(rows, sorted, s);
    MaxEnd(rows, sorted, s);
  }

  lemma MinEnd(rows: seq<Row>, sorted: seq<Row>, s: seq<int>)
    requires rows != [] && |sorted| == |rows| == |s| && Sorted(s)
    requires forall i :: 0 <= i < |sorted| ==> s[i] == sorted[i].ts
    requires forall x :: x in sorted <==> x in rows
    ensures MinStamp(rows) == s[0]
  {
    var i :| 0 <= i < |rows| && rows[i].ts == MinStamp(rows);
    assert rows[i] in sorted;
    assert sorted[0] in rows;
  }

  lemma MaxEnd(rows: seq<Row>, sorted: seq<Row>, s: seq<int>)
    requires rows != [] && |sorted| == |rows| == |s| && Sorted(s)
    requires forall i :: 0 <= i < |sorted| ==> s[i] == sorted[i].ts
    requires forall x :: x in sorted <==> x in rows
    ensures MaxStamp(rows) == s[|s| - 1]
  {
    var j :| 0 <= j < |rows| && rows[j].ts == MaxStamp(rows);
    assert rows[j] in sorted;
    assert sorted[|s| - 1] in rows;
  }

  /** For a non-empty frame the result is the trips of its sorted stamps. */
  lemma FindIsTrips(data: Frame, threshold: real)
    requires data.rows != []
    ensures var s := Stamps(SortBy(data.rows, Ts));
      Sorted(s) && FindTripSplits(data, threshold) == Trips(s, threshold)
  {
    Ends(data.rows);
  }

  /**
   * There is one trip more than there are gaps longer than the threshold, and trip `k` runs from the stamp
   * after the `k`-th such gap (the first stamp for the first trip) to the stamp before the next one (the last
   * stamp for the last trip).
   */
  lemma {:induction false} TripsByPosition(s: seq<int>, threshold: real)
    requires s != []
    ensures var cuts := Cuts(s, threshold); var r := Trips(s, threshold);
      |r| == |cuts| + 1 &&
      forall k :: 0 <= k < |r| ==>
        0 <= First(s, cuts, k) <= Last(s, cuts, k) < |s| &&
        r[k] == (Some(s[First(s, cuts, k)]), Some(s[Last(s, cuts, k)]))
  {
    var cuts := Cuts(s, threshold);
    LeftAtCuts(s, threshold, 1);
    RightBeforeCuts(s, threshold, 1);
    var starts := [s[0]] + LeftFrom(s, threshold, 1);
    var ends := RightFrom(s, threshold, 0) + [s[|s| - 1]];
    forall k | 0 <= k <= |cuts|
      ensures 0 <= First(s, cuts, k) <= Last(s, cuts, k) < |s|
      ensures starts[k] == s[First(s, cuts, k)] && ends[k] == s[Last(s, cuts, k)]
    {
      if 0 < k < |cuts| {
        assert cuts[k - 1] < cuts[k];
      }
    }
  }

  /** The first trip starts at the first stamp, the last ends at the last, and each starts no later than it ends. */
  lemma CoverTrips(s: seq<int>, threshold: real)
    requires s != [] && Sorted(s)
    ensures var r := Trips(s, threshold);
      r != [] && r[0].0 == Some(s[0]) && r[|r| - 1].1 == Some(s[|s| - 1]) &&
      forall k :: 0 <= k < |r| ==> r[k].0.Some? && r[k].1.Some? && r[k].0.value <= r[k].1.value
  {
    TripsByPosition(s, threshold);
  }

  /**
   * For a non-empty frame the first trip starts at the earliest stamp, the last ends at the latest, and each
   * trip starts no later than it ends.
   */
  lemma TripsCover(data: Frame, threshold: real)
    requires data.rows != []
    ensures var r := FindTripSplits(data, threshold);
      r != [] &&
      r[0].0 == Some(MinStamp(data.rows)) && r[|r| - 1].1 == Some(MaxStamp(data.rows)) &&
      forall k :: 0 <= k < |r| ==> r[k].0.Some? && r[k].1.Some? && r[k].0.value <= r[k].1.value
  {
    var s := Stamps(SortBy(data.rows, Ts));
    Ends(data.rows);
    FindIsTrips(data, threshold);
    CoverTrips(s, threshold);
  }

  /** At a cut the trip before ends and the next one begins, with a gap longer than the threshold between them. */
  lemma SeparatedAt(s: seq<int>, threshold: real, k: int)
    requires s != []
    requires 0 <= k < |Trips(s, threshold)| - 1
    ensures var r := Trips(s, threshold);
      r[k].1.Some? && r[k + 1].0.Some? && (r[k + 1].0.value - r[k].1.value) as real > 60.0 * threshold
  {
    TripsByPosition(s, threshold);
    var cuts := Cuts(s, threshold);
    assert Splits(s, threshold, cuts[k]);
  }

  /** The next trip starts more than the threshold after this one ends. */
  lemma SeparatedTrips(s: seq<int>, threshold: real)
    requires s != []
    ensures var r := Trips(s, threshold);
      forall k, l :: 0 <= k && l == k + 1 < |r| ==>
        r[k].1.Some? && r[l].0.Some? && (r[l].0.value - r[k].1.value) as real > 60.0 * threshold
  {
    var r := Trips(s, threshold);
    forall k, l | 0 <= k && l == k + 1 < |r|
      ensures r[k].1.Some? && r[l].0.Some? && (r[l].0.value - r[k].1.value) as real > 60.0 * threshold
    {
      SeparatedAt(s, threshold, k);
    }
  }

  /** For a frame: the next trip starts more than the threshold after this one ends. */
  lemma TripsSeparated(data: Frame, threshold: real)
    requires data.rows != []
    ensures var r := FindTripSplits(data, threshold);
      forall k, l :: 0 <= k && l == k + 1 < |r| ==>
        r[k].1.Some? && r[l].0.Some? && (r[l].0.value - r[k].1.value) as real > 60.0 * threshold
  {
    var s := Stamps(SortBy(data.rows, Ts));
    FindIsTrips(data, threshold);
    SeparatedTrips(s, threshold);
  }

  /** No gap longer than the threshold lies inside a trip. */
  lemma NoGapInside(s: seq<int>, threshold: real, k: int, j: int)
    requires var cuts := Cuts(s, threshold);
      0 <= k <= |cuts| && First(s, cuts, k) < j <= Last(s, cuts, k)
    ensures 1 <= j < |s| && (s[j] - s[j - 1]) as real <= 60.0 * threshold
  {
    var cuts := Cuts(s, threshold);
    if j in cuts {
      var l :| 0 <= l < |cuts| && cuts[l] == j;
    }
  }

  /** Without a gap longer than the threshold there is no cut. */
  lemma {:induction false} NoCutsFrom(s: seq<int>, threshold: real, i: nat)
    requires 1 <= i
    requires forall j :: 1 <= j < |s| ==> (s[j] - s[j - 1]) as real <= 60.0 * threshold
    ensures CutsFrom(s, threshold, i) == []
    decreases |s| - i
  {
    if i < |s| {
      NoCutsFrom(s, threshold, i + 1);
    }
  }

  /**
   * A gap of exactly the threshold does not split: when no two consecutive stamps are more than the
   * threshold apart, there is one trip from the first stamp to the last.
   */
  lemma OneTripOf(s: seq<int>, threshold: real)
    requires s != []
    requires forall j :: 1 <= j < |s| ==> (s[j] - s[j - 1]) as real <= 60.0 * threshold
    ensures Trips(s, threshold) == [(Some(s[0]), Some(s[|s| - 1]))]
  {
    NoCutsFrom(s, threshold, 1);
    TripsByPosition(s, threshold);
  }

  /**
   * For a frame: when no two consecutive stamps are more than the threshold apart, the whole series is one
   * trip from its earliest to its latest stamp.
   */
  lemma OneTrip(data: Frame, threshold: real)
    requires data.rows != []
    requires var s := Stamps(SortBy(data.rows, Ts));
      forall j :: 1 <= j < |s| ==> (s[j] - s[j - 1]) as real <= 60.0 * threshold
    ensures FindTripSplits(data, threshold) == [(Some(MinStamp(data.rows)), Some(MaxStamp(data.rows)))]
  {
    var s := Stamps(SortBy(data.rows, Ts));
    FindIsTrips(data, threshold);
    Ends(data.rows);
    OneTripOf(s, threshold);
  }
}
