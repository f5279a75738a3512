/**
 * The reading side of the storage manager as functions of the folder: directory listings, reads with a
 * row limit, the period slice, first/last timestamps and the readiness count.
 */
module StorageQueries {
  import opened Base
  import opened Seqs
  import opened Time
  import opened Frames
  import opened Partitions
  import opened StorageModel

  // ---------------------------------------------------------------------------------------------
  // Listing

  /** Some per-train subdirectory exists under `dataset/`. */
  predicate HasTrainDirs(disk: Disk, dataset: string) {
    exists i :: 0 <= i < |disk.entries| && disk.entries[i].key.dataset == dataset && disk.entries[i].key.dir.PerTrain?
  }

  /** A partition is listed when its midnight lies within [start or `datetime.min`, end or `datetime.max`]. */
  predicate InPeriod(day: int, period: Period) {
    period.Unbounded? || period.start.GetOr(DatetimeMin) <= Midnight(day) <= period.end.GetOr(DatetimeMax)
  }

  predicate InDir(e: Entry, dataset: string, dir: Dir, period: Period) {
    e.key.dataset == dataset && e.key.dir == dir && InPeriod(e.key.day, period)
  }

  function InDirOf(dataset: string, dir: Dir, period: Period): Entry -> bool {
    (e: Entry) => InDir(e, dataset, dir, period)
  }

  function EntryDay(e: Entry): int {
    e.key.day
  }

  function NegDay(e: Entry): int {
    -e.key.day
  }

  /** The sort key of a listing: the date, reversed when `invert`. */
  function ListOrder(invert: bool): Entry -> int {
    if invert then NegDay else EntryDay
  }

  /**
   * `_list_files`: the partitions of a directory within the period, sorted by date (descending when
   * `invert`). A missing directory lists nothing; in `name/` a per-train subdirectory is not a dated
   * file name, and parsing it raises ValueError.
   */
  function ListFiles(disk: Disk, dataset: string, dir: Dir, period: Period, invert: bool): (r: Result<seq<Entry>>)
    ensures r.Err? <==> dir.Agnostic? && HasTrainDirs(disk, dataset)
    ensures r.Ok? ==> forall e :: e in r.value <==> e in disk.entries && InDir(e, dataset, dir, period)
    ensures r.Ok? ==> SortedBy(r.value, ListOrder(invert))
  {
    if dir.Agnostic? && HasTrainDirs(disk, dataset) then
      Err(ValueError("time data does not match format '%Y-%m-%d.parquet'"))
    else
      var chosen := Filter(disk.entries, InDirOf(dataset, dir, period));
      SortByMembers(chosen, ListOrder(invert));
      Ok(SortBy(chosen, ListOrder(invert)))
  }

  /** The partition of the day holding a start that is not a midnight is never listed. */
  lemma ListingSkipsStartDay(disk: Disk, dataset: string, dir: Dir, t: int, end: Option<int>, invert: bool)
    requires t % SecondsPerDay != 0
    requires ListFiles(disk, dataset, dir, Window(Some(t), end), invert).Ok?
    ensures forall e :: e in ListFiles(disk, dataset, dir, Window(Some(t), end), invert).value ==> e.key.day != Day(t)
  {
    forall e | e in ListFiles(disk, dataset, dir, Window(Some(t), end), invert).value
      ensures e.key.day != Day(t)
    {
      MidnightNotBefore(e.key.day, t);
    }
  }

  // ---------------------------------------------------------------------------------------------
  // Reading

  /** The frame `pd.read_parquet` gives for a readable partition. */
  function PartFrame(p: Partition): Frame {
    Frame(TimeIndex, p.columns, p.rows)
  }

  /** `len(df) >= (limit or math.inf)`. */
  predicate LimitReached(n: int, limit: Option<int>) {
    limit.Some? && limit.value != 0 && n >= limit.value
  }

  /** The loop of `_read_rows_from_files` from `acc` on: corrupt files are skipped, reading stops at the limit. */
  function ReadFrom(files: seq<Entry>, limit: Option<int>, acc: Frame): Frame
    decreases |files|
  {
    if files == [] then acc
    else
      var p := files[0].part;
      if p.corrupt then ReadFrom(files[1..], limit, acc)
      else
        var df := Concat(acc, PartFrame(p));
        if LimitReached(|df.rows|, limit) then df.(rows := Take(df.rows, limit.value))
        else ReadFrom(files[1..], limit, df)
  }

  /** `_read_rows_from_files`. */
  function ReadRows(files: seq<Entry>, limit: Option<int>): Frame {
    ReadFrom(files, limit, NoFrame)
  }

  /** The rows of the readable files, in file order. */
  function AllRows(files: seq<Entry>): seq<Row> {
    if files == [] then []
    else (if files[0].part.corrupt then [] else files[0].part.rows) + AllRows(files[1..])
  }

  lemma {:induction false} ReadFromRows(files: seq<Entry>, limit: Option<int>, acc: Frame)
    requires limit.None? || limit.value >= 0
    requires !LimitReached(|acc.rows|, limit)
    ensures ReadFrom(files, limit, acc).rows ==
      if limit.Some? && limit.value > 0 then Take(acc.rows + AllRows(files), limit.value)
      else acc.rows + AllRows(files)
    decreases |files|
  {
    if files == [] {
      assert acc.rows + [] == acc.rows;
    } else {
      var p := files[0].part;
      var rest := AllRows(files[1..]);
      if p.corrupt {
        assert AllRows(files) == [] + rest == rest;
        ReadFromRows(files[1..], limit, acc);
      } else {
        var df := Concat(acc, PartFrame(p));
        assert AllRows(files) == p.rows + rest;
        assert acc.rows + (p.rows + rest) == df.rows + rest;
        if LimitReached(|df.rows|, limit) {
          TakeLong(df.rows, rest, limit.value);
        } else {
          ReadFromRows(files[1..], limit, df);
        }
      }
    }
  }

  lemma TakeLong<T>(a: seq<T>, b: seq<T>, n: int)
    requires 0 <= n <= |a|
    ensures Take(a + b, n) == Take(a, n)
  {
    assert (a + b)[..n] == a[..n];
  }

  /** With a limit of None or 0 everything readable is read; with a positive one exactly the first `limit` rows. */
  lemma ReadRowsContent(files: seq<Entry>, limit: Option<int>)
    requires limit.None? || limit.value >= 0
    ensures ReadRows(files, limit).rows ==
      if limit.Some? && limit.value > 0 then Take(AllRows(files), limit.value) else AllRows(files)
  {
    ReadFromRows(files, limit, NoFrame);
    assert NoFrame.rows + AllRows(files) == AllRows(files);
  }

  function Clamp(x: int, lo: int, hi: int): (r: int)
    requires lo <= hi
    ensures lo <= r <= hi
  {
    if x < lo then lo else if x > hi then hi else x
  }

  predicate PositionIn(i: int, start: int, end: int) {
    start <= i <= end
  }

  /**
   * `slice_df_with_period`: only a RangeIndex frame is clipped, to the rows whose position lies in
   * [start, end]. Its ends must be present: `None.timestamp()` raises AttributeError.
   */
  function SliceWithPeriod(f: Frame, period: Period): (r: Result<Frame>)
    ensures period.Unbounded? || f.index != RangeIndex ==> r == Ok(f)
    ensures period.Window? && f.index == RangeIndex ==> (r.Err? <==> period.start.None? || period.end.None?)
    ensures r.Ok? ==> r.value.index == f.index && r.value.columns == f.columns
    ensures r.Ok? && period.Window? && f.index == RangeIndex ==>
      var lo := Clamp(period.start.value, 0, |f.rows|);
      && lo + |r.value.rows| <= |f.rows|
      && r.value.rows == f.rows[lo..lo + |r.value.rows|]
      && forall i :: 0 <= i < |f.rows| ==> (PositionIn(i, period.start.value, period.end.value) <==> lo <= i < lo + |r.value.rows|)
  {
    if period.Unbounded? || f.index != RangeIndex then Ok(f)
    else if period.start.None? || period.end.None? then
      Err(AttributeError("'NoneType' object has no attribute 'timestamp'"))
    else
      var lo := Clamp(period.start.value, 0, |f.rows|);
      var hi := Clamp(period.end.value + 1, lo, |f.rows|);
      Ok(f.(rows := f.rows[lo..hi]))
  }

  /** `f"{name}/{train_id}"` for `get_for_train`, where a None train still names a directory. */
  function TrainDir(train: Option<TrainId>): Dir {
    PerTrain(if train.Some? then Render(train.value) else "None")
  }

  /** The directory of the first/last timestamp and readiness queries: `name/<train>` for a truthy train, `name/` otherwise. */
  function QueryDir(train: Option<TrainId>): Dir {
    if IsSet(train) then PerTrain(Render(train.value)) else Agnostic
  }

  function ReadDir(disk: Disk, dataset: string, dir: Dir, period: Period, limit: Option<int>, invert: bool): Result<Frame> {
    var files :- ListFiles(disk, dataset, dir, period, invert);
    SliceWithPeriod(ReadRows(files, limit), period)
  }

  /** `get_for_train`. */
  function ForTrain(disk: Disk, dataset: string, train: Option<TrainId>, period: Period, limit: Option<int>, invert: bool): Result<Frame> {
    ReadDir(disk, dataset, TrainDir(train), period, limit, invert)
  }

  /** `get_for_agnostic`. */
  function ForAgnostic(disk: Disk, dataset: string, period: Period, limit: Option<int>, invert: bool): Result<Frame> {
    ReadDir(disk, dataset, Agnostic, period, limit, invert)
  }

  /** A directory read holds the readable listed partitions' rows in listing order, cut to a positive limit. */
  lemma ReadDirRows(disk: Disk, dataset: string, dir: Dir, period: Period, limit: Option<int>, invert: bool)
    requires ListFiles(disk, dataset, dir, period, invert).Ok?
    requires limit.None? || limit.value >= 0
    ensures var files := ListFiles(disk, dataset, dir, period, invert).value;
      var f := ReadDir(disk, dataset, dir, period, limit, invert);
      f.Ok? && ReadRows(files, limit).index == TimeIndex ==>
        f.value.rows == (if limit.Some? && limit.value > 0 then Take(AllRows(files), limit.value) else AllRows(files))
  {
    var files := ListFiles(disk, dataset, dir, period, invert).value;
    ReadRowsContent(files, limit);
  }

  /** A reader of one train's frame. */
  type FrameReader = TrainId -> Result<Frame>

  /** `get_for_train(name, train_id, period, limit, invert)` over the folder. */
  function TrainReader(disk: Disk, dataset: string, period: Period, limit: Option<int>, invert: bool): FrameReader {
    id => ForTrain(disk, dataset, Some(id), period, limit, invert)
  }

  /** One train of `get_for_all_trains`: its directory read, its rows tagged with its integer id, appended to `acc`. */
  function AddTrain(read: FrameReader, id: TrainId, acc: Frame): Result<Frame> {
    var f :- read(id);
    var n :- AsInt(id);
    Ok(Concat(acc, TagTrain(f, n)))
  }

  /** The loop of `get_for_all_trains` over the catalog ids from `acc` on. */
  function TrainFrames(read: FrameReader, ids: seq<TrainId>, acc: Frame): Result<Frame>
    decreases |ids|
  {
    if ids == [] then Ok(acc)
    else
      var next :- AddTrain(read, ids[0], acc);
      TrainFrames(read, ids[1..], next)
  }

  /** `get_for_all_trains`: every catalog train read alike, tagged, sorted by time and cut to the limit. */
  function ForAllTrains(disk: Disk, dataset: string, period: Period, limit: Option<int>, invert: bool): Result<Frame> {
    var all :- TrainFrames(TrainReader(disk, dataset, period, limit, invert), Catalog(disk), NoFrame);
    SliceWithPeriod(SortAndCut(all, limit), period)
  }

  /** `sort_index()` on the union, then `head(limit)` for a non-zero limit. */
  function SortAndCut(all: Frame, limit: Option<int>): Frame {
    all.(rows := SortedHead(all.rows, limit))
  }

  /** Row `r` carries the integer value of one of `ids` in its `train_id`. */
  predicate TaggedBy(r: Row, ids: seq<TrainId>) {
    exists i :: 0 <= i < |ids| && AsInt(ids[i]).Ok? && r.train == Some(Number(AsInt(ids[i]).value))
  }

  lemma TaggedByTail(r: Row, ids: seq<TrainId>)
    requires ids != [] && TaggedBy(r, ids[1..])
    ensures TaggedBy(r, ids)
  {
    var i :| 0 <= i < |ids[1..]| && AsInt(ids[1..][i]).Ok? && r.train == Some(Number(AsInt(ids[1..][i]).value));
    assert ids[1..][i] == ids[i + 1];
  }

  lemma TagTrainTagged(acc: Frame, f: Frame, ids: seq<TrainId>, r: Row)
    requires ids != [] && AsInt(ids[0]).Ok?
    requires r in Concat(acc, TagTrain(f, AsInt(ids[0]).value)).rows && r !in acc.rows
    ensures TaggedBy(r, ids)
  {
    var n := AsInt(ids[0]).value;
    var g := TagTrain(f, n);
    assert r in acc.rows + g.rows;
    var k :| 0 <= k < |g.rows| && g.rows[k] == r;
    assert r.train == Some(Number(n));
  }

  /** Every row of the union comes from `acc` or carries the integer id of one of the trains read. */
  lemma {:induction false} TrainFramesTagged(read: FrameReader, ids: seq<TrainId>, acc: Frame)
    requires TrainFrames(read, ids, acc).Ok?
    ensures forall r :: r in TrainFrames(read, ids, acc).value.rows ==>
      r in acc.rows || TaggedBy(r, ids)
    decreases |ids|
  {
    if ids != [] {
      var f := read(ids[0]).value;
      var n := AsInt(ids[0]).value;
      var next := AddTrain(read, ids[0], acc).value;
      TrainFramesTagged(read, ids[1..], next);
      var all := TrainFrames(read, ids, acc).value;
      forall r | r in all.rows && r !in acc.rows
        ensures TaggedBy(r, ids)
      {
        if r in next.rows {
          TagTrainTagged(acc, f, ids, r);
        } else {
          TaggedByTail(r, ids);
        }
      }
    }
  }

  /** One train's directory read succeeds and its id converts to an integer. */
  predicate TrainRead(read: FrameReader, id: TrainId) {
    read(id).Ok? && AsInt(id).Ok?
  }

  /** Every train of `ids` reads and converts. */
  predicate AllTrainsRead(read: FrameReader, ids: seq<TrainId>) {
    forall i :: 0 <= i < |ids| ==> TrainRead(read, ids[i])
  }

  /** The rows of one train's own read, each tagged with its integer id. */
  function TrainRows(read: FrameReader, id: TrainId): seq<Row>
    requires TrainRead(read, id)
  {
    TagTrain(read(id).value, AsInt(id).value).rows
  }

  /** The tagged rows of each train, one train after another in `ids` order. */
  function TaggedUnion(read: FrameReader, ids: seq<TrainId>): seq<Row>
    requires AllTrainsRead(read, ids)
    decreases |ids|
  {
    if ids == [] then []
    else TrainRows(read, ids[0]) + TaggedUnion(read, ids[1..])
  }

  /**
   * The loop over the trains fails exactly when one train's read or id conversion fails, and otherwise
   * appends to `acc` each train's own rows, tagged with its id, in catalog order.
   */
  lemma {:induction false} TrainFramesContent(read: FrameReader, ids: seq<TrainId>, acc: Frame)
    ensures TrainFrames(read, ids, acc).Ok? ==> AllTrainsRead(read, ids)
    ensures AllTrainsRead(read, ids) ==>
      && TrainFrames(read, ids, acc).Ok?
      && TrainFrames(read, ids, acc).value.rows == acc.rows + TaggedUnion(read, ids)
    decreases |ids|
  {
    if ids == [] {
      assert acc.rows + [] == acc.rows;
    } else {
      AllTrainsReadCons(read, ids);
      if TrainRead(read, ids[0]) {
        var next := Concat(acc, TagTrain(read(ids[0]).value, AsInt(ids[0]).value));
        assert AddTrain(read, ids[0], acc) == Ok(next);
        TrainFramesContent(read, ids[1..], next);
      } else {
        assert AddTrain(read, ids[0], acc).Err?;
      }
    }
  }

  lemma AllTrainsReadCons(read: FrameReader, ids: seq<TrainId>)
    requires ids != []
    ensures AllTrainsRead(read, ids) <==>
      TrainRead(read, ids[0]) && AllTrainsRead(read, ids[1..])
  {
    var tail := ids[1..];
    assert forall i :: 0 <= i < |tail| ==> tail[i] == ids[i + 1];
    if AllTrainsRead(read, ids) {
      forall i | 0 <= i < |tail|
        ensures TrainRead(read, tail[i])
      {
        assert TrainRead(read, ids[i + 1]);
      }
    }
    if TrainRead(read, ids[0]) && AllTrainsRead(read, tail) {
      forall i | 0 < i < |ids|
        ensures TrainRead(read, ids[i])
      {
        assert ids[i] == tail[i - 1];
      }
    }
  }

  /**
   * The all-trains read is the tagged union of the catalog trains sorted by time and cut to a non-zero
   * limit; only a RangeIndex frame over a window is then clipped to a run of positions. Without a limit
   * it holds every tagged row of every train, as often as the trains' reads hold it.
   */
  lemma ForAllTrainsContent(disk: Disk, dataset: string, period: Period, limit: Option<int>, invert: bool)
    requires ForAllTrains(disk, dataset, period, limit, invert).Ok?
    ensures AllTrainsRead(TrainReader(disk, dataset, period, limit, invert), Catalog(disk))
    ensures var u := TaggedUnion(TrainReader(disk, dataset, period, limit, invert), Catalog(disk));
      var cut := SortedHead(u, limit);
      var f := ForAllTrains(disk, dataset, period, limit, invert).value;
      && (period.Unbounded? || f.index != RangeIndex ==> f.rows == cut)
      && (period.Window? && f.index == RangeIndex ==> RunFrom(f.rows, cut, period.start.value))
  {
    var read := TrainReader(disk, dataset, period, limit, invert);
    ForAllTrainsUnfold(disk, dataset, period, limit, invert);
    TrainFramesContent(read, Catalog(disk), NoFrame);
    var all := TrainFrames(read, Catalog(disk), NoFrame).value;
    var u := TaggedUnion(read, Catalog(disk));
    assert all.rows == [] + u == u;
    SortCutWhole(all, period, limit);
    SortCutWindow(all, period, limit);
  }

  lemma ForAllTrainsUnfold(disk: Disk, dataset: string, period: Period, limit: Option<int>, invert: bool)
    requires ForAllTrains(disk, dataset, period, limit, invert).Ok?
    ensures var all := TrainFrames(TrainReader(disk, dataset, period, limit, invert), Catalog(disk), NoFrame);
      all.Ok? && ForAllTrains(disk, dataset, period, limit, invert) == SliceWithPeriod(SortAndCut(all.value, limit), period)
  {
  }

  /** Sorting by time and keeping the first rows of a non-zero limit; the union itself without one. */
  function SortedHead(rows: seq<Row>, limit: Option<int>): seq<Row> {
    var sorted := SortBy(rows, Ts);
    if limit.Some? && limit.value != 0 then Take(sorted, limit.value) else sorted
  }

  /** Unless a RangeIndex frame is clipped by a window, the result is the sorted head of the union. */
  lemma SortCutWhole(all: Frame, period: Period, limit: Option<int>)
    requires SliceWithPeriod(SortAndCut(all, limit), period).Ok?
    ensures var f := SliceWithPeriod(SortAndCut(all, limit), period).value;
      period.Unbounded? || f.index != RangeIndex ==> f.rows == SortedHead(all.rows, limit)
  {
  }

  /** A RangeIndex frame clipped by a window keeps a run of the sorted head from the window's start. */
  lemma SortCutWindow(all: Frame, period: Period, limit: Option<int>)
    requires SliceWithPeriod(SortAndCut(all, limit), period).Ok?
    ensures var cut := SortedHead(all.rows, limit);
      var f := SliceWithPeriod(SortAndCut(all, limit), period).value;
      period.Window? && f.index == RangeIndex ==> RunFrom(f.rows, cut, period.start.value)
  {
  }

  /** `part` is a run of consecutive rows of `whole` from position `start`, clamped into range. */
  predicate RunFrom(part: seq<Row>, whole: seq<Row>, start: int) {
    var lo := Clamp(start, 0, |whole|);
    lo + |part| <= |whole| && part == whole[lo..lo + |part|]
  }

  lemma SortedSlice(s: seq<Row>, lo: int, hi: int)
    requires 0 <= lo <= hi <= |s| && SortedBy(s, Ts)
    ensures SortedBy(s[lo..hi], Ts)
    ensures forall r :: r in s[lo..hi] ==> r in s
  {
    var t := s[lo..hi];
    forall i, j | 0 <= i < j < |t|
      ensures Ts(t[i]) <= Ts(t[j])
    {
      assert t[i] == s[lo + i] && t[j] == s[lo + j];
    }
  }

  /** The period slice of a time-sorted frame is time-sorted, no longer, and holds only its rows. */
  lemma SliceKeepsSorted(f: Frame, period: Period)
    requires SortedBy(f.rows, Ts) && SliceWithPeriod(f, period).Ok?
    ensures var g := SliceWithPeriod(f, period).value;
      SortedBy(g.rows, Ts) && |g.rows| <= |f.rows| && forall r :: r in g.rows ==> r in f.rows
  {
    if period.Window? && f.index == RangeIndex {
      var g := SliceWithPeriod(f, period).value;
      var lo := Clamp(period.start.value, 0, |f.rows|);
      SortedSlice(f.rows, lo, lo + |g.rows|);
    }
  }

  /** Sorting the union and keeping its first `limit` rows gives time-sorted rows of the union; without a limit, all of them. */
  lemma SortedCut(rows: seq<Row>, limit: Option<int>)
    ensures var cut := SortedHead(rows, limit);
      && SortedBy(cut, Ts)
      && (limit.Some? && limit.value > 0 ==> |cut| <= limit.value)
      && (forall r :: r in cut ==> r in rows)
      && (limit.None? || limit == Some(0) ==> multiset(cut) == multiset(rows))
  {
    var sorted := SortBy(rows, Ts);
    SortByMembers(rows, Ts);
    var cut := SortedHead(rows, limit);
    SortedSlice(sorted, 0, |cut|);
    assert cut == sorted[0..|cut|];
  }

  /** The all-trains read is sorted by time, at most a positive `limit` long, and every row is tagged with a catalog train. */
  lemma ForAllTrainsShape(disk: Disk, dataset: string, period: Period, limit: Option<int>, invert: bool)
    requires ForAllTrains(disk, dataset, period, limit, invert).Ok?
    ensures var f := ForAllTrains(disk, dataset, period, limit, invert).value;
      && SortedBy(f.rows, Ts)
      && (limit.Some? && limit.value > 0 ==> |f.rows| <= limit.value)
      && forall r :: r in f.rows ==> TaggedBy(r, Catalog(disk))
  {
    var all := TrainFrames(TrainReader(disk, dataset, period, limit, invert), Catalog(disk), NoFrame).value;
    TrainFramesTagged(TrainReader(disk, dataset, period, limit, invert), Catalog(disk), NoFrame);
    SortedCut(all.rows, limit);
    var cut := SortAndCut(all, limit);
    assert ForAllTrains(disk, dataset, period, limit, invert) == SliceWithPeriod(cut, period);
    SliceKeepsSorted(cut, period);
  }

  // ---------------------------------------------------------------------------------------------
  // First and last timestamps

  /**
   * `get_first_timestamp`: the earliest row of the earliest-day partition, or `datetime.max` when there is
   * none. None stands for the NaT of an empty partition file, which `store` never writes.
   */
  function FirstTimestamp(disk: Disk, dataset: string, train: Option<TrainId>): Result<Option<int>> {
    var files :- ListFiles(disk, dataset, QueryDir(train), Unbounded, true);
    if files == [] then Ok(Some(DatetimeMax))
    else
      var p := files[|files| - 1].part;
      if p.corrupt then Err(ArrowInvalid("Parquet magic bytes not found"))
      else if p.rows == [] then Ok(None)
      else Ok(Some(MinStamp(p.rows)))
  }

  /** `get_last_timestamp`: the latest row of the latest-day partition, or `datetime.min` when there is none. */
  function LastTimestamp(disk: Disk, dataset: string, train: Option<TrainId>): Result<Option<int>> {
    var files :- ListFiles(disk, dataset, QueryDir(train), Unbounded, false);
    if files == [] then Ok(Some(DatetimeMin))
    else
      var p := files[|files| - 1].part;
      if p.corrupt then Err(ArrowInvalid("Parquet magic bytes not found"))
      else if p.rows == [] then Ok(None)
      else Ok(Some(MaxStamp(p.rows)))
  }

  /** A readable partition of the directory. */
  ghost predicate Readable(disk: Disk, dataset: string, dir: Dir, e: Entry) {
    e in disk.entries && e.key.dataset == dataset && e.key.dir == dir && !e.part.corrupt
  }

  /** A row on an earlier day has an earlier timestamp. */
  lemma EarlierDay(x: Row, y: Row)
    requires Day(x.ts) < Day(y.ts)
    ensures x.ts < y.ts
  {
    DayOfTimestamp(x.ts, Day(x.ts));
    DayOfTimestamp(y.ts, Day(y.ts));
    MidnightOrder(Day(x.ts) + 1, Day(y.ts) + 1);
    MidnightOrder(Day(x.ts) + 1, Day(y.ts));
  }

  /** Partitions of one directory with the same day are the same file. */
  lemma SameDaySameEntry(disk: Disk, dataset: string, dir: Dir, a: Entry, b: Entry)
    requires WellFormed(disk) && Readable(disk, dataset, dir, a) && Readable(disk, dataset, dir, b)
    requires a.key.day == b.key.day
    ensures a == b
  {
    SameKeySameEntry(disk.entries, a, b);
  }

  /** Every row of a later-or-same-day readable partition is at or after the smallest row of `first`. */
  lemma NotBeforeFirst(disk: Disk, dataset: string, dir: Dir, first: Entry, e: Entry, r: Row)
    requires WellFormed(disk) && Readable(disk, dataset, dir, first) && Readable(disk, dataset, dir, e)
    requires first.key.day <= e.key.day && r in e.part.rows
    ensures first.part.rows != [] && MinStamp(first.part.rows) <= r.ts
  {
    var m := MinStamp(first.part.rows);
    var x :| 0 <= x < |first.part.rows| && first.part.rows[x].ts == m;
    assert first.part.rows[x] in first.part.rows;
    if first.key.day < e.key.day {
      EarlierDay(first.part.rows[x], r);
    } else {
      SameDaySameEntry(disk, dataset, dir, first, e);
      var j :| 0 <= j < |e.part.rows| && e.part.rows[j] == r;
    }
  }

  /** Every row of an earlier-or-same-day readable partition is at or before the largest row of `last`. */
  lemma NotAfterLast(disk: Disk, dataset: string, dir: Dir, last: Entry, e: Entry, r: Row)
    requires WellFormed(disk) && Readable(disk, dataset, dir, last) && Readable(disk, dataset, dir, e)
    requires e.key.day <= last.key.day && r in e.part.rows
    ensures last.part.rows != [] && r.ts <= MaxStamp(last.part.rows)
  {
    var m := MaxStamp(last.part.rows);
    var x :| 0 <= x < |last.part.rows| && last.part.rows[x].ts == m;
    assert last.part.rows[x] in last.part.rows;
    if e.key.day < last.key.day {
      EarlierDay(r, last.part.rows[x]);
    } else {
      SameDaySameEntry(disk, dataset, dir, last, e);
      var j :| 0 <= j < |e.part.rows| && e.part.rows[j] == r;
    }
  }

  /** The last element of a sorted listing has the largest key. */
  lemma SortedLast(files: seq<Entry>, key: Entry -> int, e: Entry)
    requires SortedBy(files, key) && e in files
    ensures key(e) <= key(files[|files| - 1])
  {
    var i :| 0 <= i < |files| && files[i] == e;
    if i < |files| - 1 {
      assert key(files[i]) <= key(files[|files| - 1]);
    }
  }

  /** The partition listed last by the inverted listing bounds every readable row of the directory from below. */
  lemma FirstListedBounds(disk: Disk, dataset: string, dir: Dir, files: seq<Entry>)
    requires WellFormed(disk)
    requires forall e :: Readable(disk, dataset, dir, e) ==> e in files
    requires SortedBy(files, NegDay)
    requires files != [] && Readable(disk, dataset, dir, files[|files| - 1])
    ensures files[|files| - 1].part.rows != []
    ensures forall e, r :: Readable(disk, dataset, dir, e) && r in e.part.rows ==> MinStamp(files[|files| - 1].part.rows) <= r.ts
  {
    var first := files[|files| - 1];
    assert GoodEntry(first);
    forall e, r | Readable(disk, dataset, dir, e) && r in e.part.rows
      ensures MinStamp(first.part.rows) <= r.ts
    {
      SortedLast(files, NegDay, e);
      NotBeforeFirst(disk, dataset, dir, first, e, r);
    }
  }

  /** The partition listed last bounds every readable row of the directory from above. */
  lemma LastListedBounds(disk: Disk, dataset: string, dir: Dir, files: seq<Entry>)
    requires WellFormed(disk)
    requires forall e :: Readable(disk, dataset, dir, e) ==> e in files
    requires SortedBy(files, EntryDay)
    requires files != [] && Readable(disk, dataset, dir, files[|files| - 1])
    ensures files[|files| - 1].part.rows != []
    ensures forall e, r :: Readable(disk, dataset, dir, e) && r in e.part.rows ==> r.ts <= MaxStamp(files[|files| - 1].part.rows)
  {
    var last := files[|files| - 1];
    assert GoodEntry(last);
    forall e, r | Readable(disk, dataset, dir, e) && r in e.part.rows
      ensures r.ts <= MaxStamp(last.part.rows)
    {
      SortedLast(files, EntryDay, e);
      NotAfterLast(disk, dataset, dir, last, e, r);
    }
  }

  /** The first timestamp is the smallest timestamp stored in the directory (`datetime.max` for an empty one). */
  lemma FirstIsMinimum(disk: Disk, dataset: string, train: Option<TrainId>)
    requires WellFormed(disk)
    requires FirstTimestamp(disk, dataset, train).Ok?
    ensures FirstTimestamp(disk, dataset, train).value.Some?
    ensures var m := FirstTimestamp(disk, dataset, train).value.value;
      var dir := QueryDir(train);
      && (forall e, r :: Readable(disk, dataset, dir, e) && r in e.part.rows ==> m <= r.ts)
      && ((exists e :: Readable(disk, dataset, dir, e)) ==> exists e :: Readable(disk, dataset, dir, e) && HasStamp(e.part.rows, m))
      && ((forall e :: !Readable(disk, dataset, dir, e)) ==> m == DatetimeMax)
  {
    var dir := QueryDir(train);
    var files := ListFiles(disk, dataset, dir, Unbounded, true).value;
    assert forall e :: Readable(disk, dataset, dir, e) ==> e in files;
    if files != [] {
      assert files[|files| - 1] in files;
      FirstListedBounds(disk, dataset, dir, files);
    }
  }

  /** The last timestamp is the largest timestamp stored in the directory (`datetime.min` for an empty one). */
  lemma LastIsMaximum(disk: Disk, dataset: string, train: Option<TrainId>)
    requires WellFormed(disk)
    requires LastTimestamp(disk, dataset, train).Ok?
    ensures LastTimestamp(disk, dataset, train).value.Some?
    ensures var m := LastTimestamp(disk, dataset, train).value.value;
      var dir := QueryDir(train);
      && (forall e, r :: Readable(disk, dataset, dir, e) && r in e.part.rows ==> r.ts <= m)
      && ((exists e :: Readable(disk, dataset, dir, e)) ==> exists e :: Readable(disk, dataset, dir, e) && HasStamp(e.part.rows, m))
      && ((forall e :: !Readable(disk, dataset, dir, e)) ==> m == DatetimeMin)
  {
    var dir := QueryDir(train);
    var files := ListFiles(disk, dataset, dir, Unbounded, false).value;
    assert forall e :: Readable(disk, dataset, dir, e) ==> e in files;
    if files != [] {
      assert files[|files| - 1] in files;
      LastListedBounds(disk, dataset, dir, files);
    }
  }

  // ---------------------------------------------------------------------------------------------
  // Readiness

  /** `amount or 0`. */
  function Threshold(amount: Option<int>): int {
    if amount.Some? then amount.value else 0
  }

  function NotBefore(t: int): Row -> bool {
    (r: Row) => r.ts >= t
  }

  /** The loop of `has_sufficient_data_since` from `count` on; every file is read and filtered, a corrupt one raises. */
  function CountFrom(files: seq<Entry>, t: int, threshold: int, count: int): Result<bool>
    decreases |files|
  {
    if files == [] then Ok(count >= threshold)
    else
      var p := files[0].part;
      if p.corrupt then Err(ArrowInvalid("Parquet magic bytes not found"))
      else
        var c := count + |Filter(p.rows, NotBefore(t))|;
        if c >= threshold then Ok(true) else CountFrom(files[1..], t, threshold, c)
  }

  /** The files `has_sufficient_data_since` lists. */
  function SinceFiles(disk: Disk, t: int, dataset: string, train: Option<TrainId>): Result<seq<Entry>> {
    ListFiles(disk, dataset, QueryDir(train), Window(Some(t), None), false)
  }

  /** `has_sufficient_data_since`. */
  function Sufficient(disk: Disk, t: int, amount: Option<int>, dataset: string, train: Option<TrainId>): Result<bool> {
    var files :- SinceFiles(disk, t, dataset, train);
    CountFrom(files, t, Threshold(amount), 0)
  }

  /** With `amount` None or 0 the answer is never "not ready": only an error can stand in its way. */
  lemma SufficientWithoutAmount(disk: Disk, t: int, amount: Option<int>, dataset: string, train: Option<TrainId>)
    requires amount.None? || amount.value == 0
    ensures Sufficient(disk, t, amount, dataset, train) != Ok(false)
    ensures SinceFiles(disk, t, dataset, train).Ok? ==>
      var files := SinceFiles(disk, t, dataset, train).value;
      (files == [] || !files[0].part.corrupt) ==> Sufficient(disk, t, amount, dataset, train) == Ok(true)
  {
  }

  function RowCount(files: seq<Entry>): nat {
    if files == [] then 0 else |files[0].part.rows| + RowCount(files[1..])
  }

  predicate NoneCorrupt(files: seq<Entry>) {
    forall e :: e in files ==> !e.part.corrupt
  }

  lemma {:induction false} CountFromTotal(files: seq<Entry>, t: int, threshold: int, count: int)
    requires NoneCorrupt(files)
    requires forall e, r :: e in files && r in e.part.rows ==> r.ts >= t
    ensures CountFrom(files, t, threshold, count) == Ok(count + RowCount(files) >= threshold)
    decreases |files|
  {
    if files != [] {
      var p := files[0].part;
      assert files[0] in files;
      FilterKeepsAll(p.rows, NotBefore(t));
      assert forall e :: e in files[1..] ==> e in files;
      CountFromTotal(files[1..], t, threshold, count + |p.rows|);
    }
  }

  /** Without corrupt partitions, readiness is exactly: the partitions dated from the first midnight at or after `t` hold at least `amount` rows. */
  lemma SufficientCountsRows(disk: Disk, t: int, amount: Option<int>, dataset: string, train: Option<TrainId>)
    requires WellFormed(disk)
    requires SinceFiles(disk, t, dataset, train).Ok?
    requires NoneCorrupt(SinceFiles(disk, t, dataset, train).value)
    ensures Sufficient(disk, t, amount, dataset, train) ==
      Ok(RowCount(SinceFiles(disk, t, dataset, train).value) >= Threshold(amount))
  {
    var files := SinceFiles(disk, t, dataset, train).value;
    forall e, r | e in files && r in e.part.rows
      ensures r.ts >= t
    {
      assert GoodEntry(e);
      DayOfTimestamp(r.ts, e.key.day);
    }
    CountFromTotal(files, t, Threshold(amount), 0);
  }

  lemma {:induction false} RowCountConcat(a: seq<Entry>, b: seq<Entry>)
    ensures RowCount(a + b) == RowCount(a) + RowCount(b)
    decreases |a|
  {
    if a == [] {
      assert a + b == b;
    } else {
      assert (a + b)[1..] == a[1..] + b;
      RowCountConcat(a[1..], b);
    }
  }

  lemma {:induction false} RowCountInsert(x: Entry, s: seq<Entry>, key: Entry -> int)
    ensures RowCount(InsertBy(x, s, key)) == |x.part.rows| + RowCount(s)
    decreases |s|
  {
    if s != [] && key(x) >= key(s[0]) {
      RowCountInsert(x, s[1..], key);
    }
  }

  lemma RowCountSnoc(p: seq<Entry>, x: Entry)
    ensures RowCount(p + [x]) == RowCount(p) + |x.part.rows|
  {
    RowCountConcat(p, [x]);
    assert RowCount([x]) == |x.part.rows| + RowCount([]);
  }

  /** Sorting a listing does not change how many rows it holds. */
  lemma {:induction false} RowCountSort(s: seq<Entry>, key: Entry -> int)
    ensures RowCount(SortBy(s, key)) == RowCount(s)
    decreases |s|
  {
    if s != [] {
      var p := s[..|s| - 1];
      var x := s[|s| - 1];
      assert s == p + [x];
      RowCountSnoc(p, x);
      RowCountSort(p, key);
      RowCountInsert(x, SortBy(p, key), key);
    }
  }

  lemma {:induction false} RowCountFilterMonotone(s: seq<Entry>, p: Entry -> bool, q: Entry -> bool)
    requires forall e :: e in s && p(e) ==> q(e)
    ensures RowCount(Filter(s, p)) <= RowCount(Filter(s, q))
    decreases |s|
  {
    if s != [] {
      assert forall e :: e in s[1..] ==> e in s;
      RowCountFilterMonotone(s[1..], p, q);
      assert s[0] in s;
    }
  }

  /** Listing from an earlier start lists every partition listed from a later one, so it holds at least as many rows. */
  lemma SinceFilesMonotone(disk: Disk, t: int, t': int, dataset: string, train: Option<TrainId>)
    requires t' <= t
    requires SinceFiles(disk, t', dataset, train).Ok?
    ensures SinceFiles(disk, t, dataset, train).Ok?
    ensures forall e :: e in SinceFiles(disk, t, dataset, train).value ==> e in SinceFiles(disk, t', dataset, train).value
    ensures RowCount(SinceFiles(disk, t, dataset, train).value) <= RowCount(SinceFiles(disk, t', dataset, train).value)
  {
    var dir := QueryDir(train);
    var p := InDirOf(dataset, dir, Window(Some(t), None));
    var p' := InDirOf(dataset, dir, Window(Some(t'), None));
    RowCountSort(Filter(disk.entries, p), ListOrder(false));
    RowCountSort(Filter(disk.entries, p'), ListOrder(false));
    RowCountFilterMonotone(disk.entries, p, p');
  }

  /** Readiness is monotone in the start: ready from `t` means ready from any earlier `t'`. */
  lemma SufficientMonotone(disk: Disk, t: int, t': int, amount: Option<int>, dataset: string, train: Option<TrainId>)
    requires WellFormed(disk) && t' <= t
    requires SinceFiles(disk, t', dataset, train).Ok?
    requires NoneCorrupt(SinceFiles(disk, t', dataset, train).value)
    requires Sufficient(disk, t, amount, dataset, train) == Ok(true)
    ensures Sufficient(disk, t', amount, dataset, train) == Ok(true)
  {
    SinceFilesMonotone(disk, t, t', dataset, train);
    var files := SinceFiles(disk, t, dataset, train).value;
    var files' := SinceFiles(disk, t', dataset, train).value;
    assert NoneCorrupt(files) by {
      forall e | e in files
        ensures !e.part.corrupt
      {
        assert e in files';
      }
    }
    SufficientCountsRows(disk, t, amount, dataset, train);
    SufficientCountsRows(disk, t', amount, dataset, train);
  }
}
