/**
 * The outlier ranking over components: the window of the last 30 days of a component (`_get_last_30_days`)
 * and the loop that ranks the trains once per component over one shared window
 * (`get_ranking_for_components`).
 */
module Outliers {
  import opened Base
  import opened Time
  import opened Frames
  import opened StorageModel
  import opened StorageQueries
  import opened Storage
  import opened Ranking

  const ThirtyDays: int := 30 * SecondsPerDay

  /** `except ValueError` also catches `ArrowInvalid`, which derives from it. */
  predicate Caught(e: Error) {
    e.ValueError? || e.ArrowInvalid?
  }

  /** The later of two optional timestamps; NaT (None) adds nothing. */
  function Later(a: Option<int>, b: Option<int>): Option<int> {
    if b.None? then a
    else if a.None? || a.value < b.value then b
    else a
  }

  /** A reader of each train's last timestamp. */
  type LastReader = TrainId -> Result<Option<int>>

  /** `get_last_timestamp(name, train_id)` over the folder. */
  function LastIn(disk: Disk, name: string): LastReader {
    t => LastTimestamp(disk, name, Some(t))
  }

  /** `max` over the last timestamps of the trains `ids` and `acc`: the first read that fails aborts. */
  function LatestFrom(last: LastReader, ids: seq<TrainId>, acc: Option<int>): Result<Option<int>>
    decreases |ids|
  {
    if ids == [] then Ok(acc)
    else
      var l :- last(ids[0]);
      LatestFrom(last, ids[1..], Later(acc, l))
  }

  /**
   * `(m - 30 days, m)`. A start before `pd.Timestamp.min` raises pandas' OutOfBoundsDatetime, a ValueError the
   * `except` catches: a train without files reads `datetime.min`, so the window is then None.
   */
  function Window30(latest: Result<Option<int>>): Result<Option<(int, int)>> {
    if latest.Err? then (if Caught(latest.error) then Ok(None) else Err(latest.error))
    else if latest.value.None? then Ok(None)
    else if latest.value.value - ThirtyDays < PandasTimestampMin then Ok(None)
    else Ok(Some((latest.value.value - ThirtyDays, latest.value.value)))
  }

  /**
   * `_get_last_30_days`: `(m - 30 days, m)` for the latest last timestamp `m` over the catalog trains; None
   * when a read raises a ValueError or there is no timestamp (`max` of an empty set).
   */
  function LastThirtyDays(disk: Disk, name: string): Result<Option<(int, int)>> {
    Window30(LatestFrom(LastIn(disk, name), Catalog(disk), None))
  }

  /** What a successful fold over `ids` found. */
  lemma {:induction false} LatestFacts(last: LastReader, ids: seq<TrainId>, acc: Option<int>)
    requires LatestFrom(last, ids, acc).Ok?
    ensures var m := LatestFrom(last, ids, acc).value;
      (forall i :: 0 <= i < |ids| ==> last(ids[i]).Ok?) &&
      (forall i :: 0 <= i < |ids| ==> (last(ids[i]).value.Some? ==> m.Some? && last(ids[i]).value.value <= m.value)) &&
      (acc.Some? ==> m.Some? && acc.value <= m.value) &&
      (m.Some? ==> m == acc || exists i :: 0 <= i < |ids| && last(ids[i]) == Ok(m))
    decreases |ids|
  {
    if ids != [] {
      var l := last(ids[0]).value;
      LatestFacts(last, ids[1..], Later(acc, l));
      var m := LatestFrom(last, ids, acc).value;
      assert forall i :: 1 <= i < |ids| ==> ids[i] == ids[1..][i - 1];
      if m.Some? && m != acc && m != Later(acc, l) {
        var i :| 0 <= i < |ids[1..]| && last(ids[1..][i]) == Ok(m);
        assert ids[i + 1] == ids[1..][i];
      }
    }
  }

  /**
   * A window is exactly 30 days long, starts within the range of a pandas timestamp and ends at the latest
   * last timestamp over the catalog: some train's last timestamp, and no train's is later.
   */
  lemma LastThirtyDaysWindow(disk: Disk, name: string)
    requires LastThirtyDays(disk, name).Ok? && LastThirtyDays(disk, name).value.Some?
    ensures var (start, end) := LastThirtyDays(disk, name).value.value;
      var ids := Catalog(disk);
      end - start == ThirtyDays && PandasTimestampMin <= start &&
      (exists i :: 0 <= i < |ids| && LastTimestamp(disk, name, Some(ids[i])) == Ok(Some(end))) &&
      (forall i :: 0 <= i < |ids| ==> LastTimestamp(disk, name, Some(ids[i])).Ok?) &&
      (forall i :: 0 <= i < |ids| && LastTimestamp(disk, name, Some(ids[i])).Ok? && LastTimestamp(disk, name, Some(ids[i])).value.Some? ==>
        LastTimestamp(disk, name, Some(ids[i])).value.value <= end)
  {
    LatestFacts(LastIn(disk, name), Catalog(disk), None);
  }

  /** Without catalog trains there is no window. */
  lemma NoTrainsNoWindow(disk: Disk, name: string)
    requires Catalog(disk) == []
    ensures LastThirtyDays(disk, name) == Ok(None)
  {
  }

  /** When every read gives `datetime.min`, the latest is `datetime.min` too, and no window fits before it. */
  lemma AllMinNoWindow(last: LastReader, ids: seq<TrainId>)
    requires forall i :: 0 <= i < |ids| ==> last(ids[i]) == Ok(Some(DatetimeMin))
    ensures Window30(LatestFrom(last, ids, None)) == Ok(None)
  {
    AllMinLatest(last, ids, None);
  }

  lemma {:induction false} AllMinLatest(last: LastReader, ids: seq<TrainId>, acc: Option<int>)
    requires forall i :: 0 <= i < |ids| ==> last(ids[i]) == Ok(Some(DatetimeMin))
    requires acc == None || acc == Some(DatetimeMin)
    ensures LatestFrom(last, ids, acc) == Ok(None) || LatestFrom(last, ids, acc) == Ok(Some(DatetimeMin))
    decreases |ids|
  {
    if ids != [] {
      assert last(ids[0]) == Ok(Some(DatetimeMin));
      assert forall i :: 0 <= i < |ids[1..]| ==> ids[1..][i] == ids[i + 1];
      AllMinLatest(last, ids[1..], Some(DatetimeMin));
    }
  }

  /**
   * A component no catalog train has files for yet reads `datetime.min` for every train; the 30 days before it
   * are out of pandas' range, so there is no window, and reading proceeds unbounded.
   */
  lemma NoFilesNoWindow(disk: Disk, name: string)
    requires forall i :: 0 <= i < |Catalog(disk)| ==> LastTimestamp(disk, name, Some(Catalog(disk)[i])) == Ok(Some(DatetimeMin))
    ensures LastThirtyDays(disk, name) == Ok(None)
  {
    var ids := Catalog(disk);
    var last := LastIn(disk, name);
    forall i | 0 <= i < |ids|
      ensures last(ids[i]) == Ok(Some(DatetimeMin))
    {
      assert last(ids[i]) == LastTimestamp(disk, name, Some(ids[i]));
    }
    AllMinNoWindow(last, ids);
  }

  /** The set comprehension and `max` of `_get_last_30_days`, train by train. */
  method Latest(sm: StorageManager, name: string, ids: seq<TrainId>) returns (r: Result<Option<int>>)
    ensures r == LatestFrom(LastIn(sm.disk, name), ids, None)
  {
    ghost var last := LastIn(sm.disk, name);
    var acc: Option<int> := None;
    var rest := ids;
    while rest != []
      invariant LatestFrom(last, rest, acc) == LatestFrom(last, ids, None)
      decreases |rest|
    {
      var l := sm.GetLastTimestamp(name, Some(rest[0]));
      assert last(rest[0]) == l;
      if l.Err? {
        return Err(l.error);
      }
      acc := Later(acc, l.value);
      rest := rest[1..];
    }
    r := Ok(acc);
  }

  /** `_get_last_30_days`: loads the catalog, then reads each train's last timestamp and keeps the latest. */
  method Last30Days(sm: StorageManager, name: string) returns (r: Result<Option<(int, int)>>)
    modifies sm
    ensures sm.disk == old(sm.disk) && sm.Valid()
    ensures r == LastThirtyDays(sm.disk, name)
  {
    var ids := sm.RetrieveTrainIds();
    var latest := Latest(sm, name, ids);
    r := Window30(latest);
  }

  // ---------------------------------------------------------------------------------------------
  // Ranking every component

  /** A component as the ranking sees it: its name and its optional intensity column. */
  datatype RankedComponent = RankedComponent(name: string, intensityColumn: Option<string>)

  /** A `(start, end)` window as a storage period; None reads everything. */
  function AsPeriod(p: Option<(int, int)>): Period {
    if p.None? then Unbounded else Window(Some(p.value.0), Some(p.value.1))
  }

  /** One component: all trains' outliers over the window, ranked in multiplicative mode. */
  function RankOne(disk: Disk, c: RankedComponent, period: Option<(int, int)>): Result<Option<seq<Ranked>>> {
    var data :- ForAllTrains(disk, c.name, AsPeriod(period), None, false);
    Ranking.Ranking(data, c.intensityColumn, "multiplicative")
  }

  /** One pass of the loop: the window (computed while none is known) and the component's ranking. */
  function Step(disk: Disk, c: RankedComponent, period: Option<(int, int)>): Result<(Option<(int, int)>, Option<seq<Ranked>>)> {
    var p :- if period.None? then LastThirtyDays(disk, c.name) else Ok(period);
    var rk :- RankOne(disk, c, p);
    Ok((p, rk))
  }

  /** A pass of the loop for each component and known window. */
  type Stepper = (RankedComponent, Option<(int, int)>) -> Result<(Option<(int, int)>, Option<seq<Ranked>>)>

  function StepsOn(disk: Disk): Stepper {
    (c, period) => Step(disk, c, period)
  }

  /** The passes of the loop from `comps` on, the window of each pass handed to the next. */
  function RankWith(steps: Stepper, comps: seq<RankedComponent>, period: Option<(int, int)>): Result<seq<Option<seq<Ranked>>>>
    decreases |comps|
  {
    if comps == [] then Ok([])
    else
      var step :- steps(comps[0], period);
      var rest :- RankWith(steps, comps[1..], step.0);
      Ok([step.1] + rest)
  }

  /**
   * The loop of `get_ranking_for_components` from `comps` on: while no window is known, each component
   * computes one from its own last timestamps; once one is known, every later component reuses it.
   */
  function RankFrom(disk: Disk, comps: seq<RankedComponent>, period: Option<(int, int)>): Result<seq<Option<seq<Ranked>>>> {
    RankWith(StepsOn(disk), comps, period)
  }

  /** Passes that keep a known window hand it on unchanged: each ranking is that pass's own, one per component. */
  lemma {:induction false} KeptWindow(steps: Stepper, comps: seq<RankedComponent>, w: (int, int))
    requires forall i :: 0 <= i < |comps| && steps(comps[i], Some(w)).Ok? ==> steps(comps[i], Some(w)).value.0 == Some(w)
    requires RankWith(steps, comps, Some(w)).Ok?
    ensures var rs := RankWith(steps, comps, Some(w)).value;
      |rs| == |comps| && forall i :: 0 <= i < |comps| ==> steps(comps[i], Some(w)) == Ok((Some(w), rs[i]))
    decreases |comps|
  {
    if comps != [] {
      assert forall i :: 1 <= i < |comps| ==> comps[i] == comps[1..][i - 1];
      KeptWindow(steps, comps[1..], w);
    }
  }

  /** With a window known, a pass keeps it and ranks the component over it. */
  lemma StepKnown(disk: Disk, c: RankedComponent, w: (int, int))
    ensures StepsOn(disk)(c, Some(w)).Ok? <==> RankOne(disk, c, Some(w)).Ok?
    ensures StepsOn(disk)(c, Some(w)).Ok? ==> StepsOn(disk)(c, Some(w)).value == (Some(w), RankOne(disk, c, Some(w)).value)
  {
  }

  /** Once a window is known, each component's ranking is its ranking over that same window, one per component. */
  lemma WindowShared(disk: Disk, comps: seq<RankedComponent>, w: (int, int))
    requires RankFrom(disk, comps, Some(w)).Ok?
    ensures var rs := RankFrom(disk, comps, Some(w)).value;
      |rs| == |comps| && forall i :: 0 <= i < |comps| ==> RankOne(disk, comps[i], Some(w)) == Ok(rs[i])
  {
    forall c {
      StepKnown(disk, c, w);
    }
    KeptWindow(StepsOn(disk), comps, w);
  }

  /** Without a window, a pass takes the one its component finds and ranks the component over it. */
  lemma StepFirst(disk: Disk, c: RankedComponent, w: (int, int))
    requires LastThirtyDays(disk, c.name) == Ok(Some(w))
    ensures StepsOn(disk)(c, None) == StepsOn(disk)(c, Some(w))
  {
  }

  /**
   * Without a given period, the window found for the first component is the one every later component is
   * ranked over; the rankings come one per component, in order.
   */
  lemma FirstWindowReused(disk: Disk, comps: seq<RankedComponent>, w: (int, int))
    requires comps != [] && LastThirtyDays(disk, comps[0].name) == Ok(Some(w))
    requires RankFrom(disk, comps, None).Ok?
    ensures var rs := RankFrom(disk, comps, None).value;
      |rs| == |comps| && forall i :: 0 <= i < |comps| ==> RankOne(disk, comps[i], Some(w)) == Ok(rs[i])
  {
    var steps := StepsOn(disk);
    StepFirst(disk, comps[0], w);
    assert RankWith(steps, comps, None) == RankWith(steps, comps, Some(w));
    WindowShared(disk, comps, w);
  }

  /** `acc` followed by a fold's result, failures passed on. */
  function Prepend(acc: seq<Option<seq<Ranked>>>, r: Result<seq<Option<seq<Ranked>>>>): Result<seq<Option<seq<Ranked>>>> {
    if r.Err? then r else Ok(acc + r.value)
  }

  lemma PrependNothing(r: Result<seq<Option<seq<Ranked>>>>)
    ensures Prepend([], r) == r
  {
    if r.Ok? {
      assert [] + r.value == r.value;
    }
  }

  /** One pass moves a ranking from the fold to the rankings collected so far, or ends the fold with its failure. */
  lemma PrependStep(steps: Stepper, acc: seq<Option<seq<Ranked>>>, comps: seq<RankedComponent>, period: Option<(int, int)>)
    requires comps != []
    ensures var step := steps(comps[0], period);
      Prepend(acc, RankWith(steps, comps, period)) ==
        if step.Err? then Err(step.error)
        else Prepend(acc + [step.value.1], RankWith(steps, comps[1..], step.value.0))
  {
    var step := steps(comps[0], period);
    if step.Ok? && RankWith(steps, comps[1..], step.value.0).Ok? {
      var rest := RankWith(steps, comps[1..], step.value.0).value;
      assert acc + ([step.value.1] + rest) == (acc + [step.value.1]) + rest;
    }
  }

  /** One pass of the loop over the storage manager. */
  method RankStep(sm: StorageManager, c: RankedComponent, period: Option<(int, int)>)
    returns (r: Result<(Option<(int, int)>, Option<seq<Ranked>>)>)
    requires sm.Valid()
    modifies sm
    ensures sm.disk == old(sm.disk) && sm.Valid()
    ensures r == StepsOn(old(sm.disk))(c, period)
  {
    var p := period;
    if p.None? {
      var found := Last30Days(sm, c.name);
      if found.Err? {
        return Err(found.error);
      }
      p := found.value;
    }
    var data := sm.GetForAllTrains(c.name, AsPeriod(p), None, false);
    if data.Err? {
      return Err(data.error);
    }
    var frame := new FrameRef(data.value);
    var rk := ComputeRanking(frame, c.intensityColumn, "multiplicative");
    if rk.Err? {
      return Err(rk.error);
    }
    r := Ok((p, rk.value));
  }

  /**
   * `get_ranking_for_components` without decay: the per-component rankings in order, before they are
   * combined. Each ranking writes its intensity column into a frame of its own.
   */
  method RankingForComponents(sm: StorageManager, comps: seq<RankedComponent>, period: Option<(int, int)>)
    returns (r: Result<seq<Option<seq<Ranked>>>>)
    requires sm.Valid()
    modifies sm
    ensures sm.disk == old(sm.disk) && sm.Valid()
    ensures r == RankFrom(old(sm.disk), comps, period)
  {
    ghost var steps := StepsOn(sm.disk);
    var rankings: seq<Option<seq<Ranked>>> := [];
    var p := period;
    var rest := comps;
    PrependNothing(RankWith(steps, comps, period));
    while rest != []
      invariant sm.disk == old(sm.disk) && sm.Valid()
      invariant Prepend(rankings, RankWith(steps, rest, p)) == RankWith(steps, comps, period)
      decreases |rest|
    {
      var step := RankStep(sm, rest[0], p);
      PrependStep(steps, rankings, rest, p);
      if step.Err? {
        return Err(step.error);
      }
      rankings := rankings + [step.value.1];
      p := step.value.0;
      rest := rest[1..];
    }
    assert rankings + [] == rankings;
    r := Ok(rankings);
  }
}
