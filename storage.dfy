/**
 * `StorageManager`: the storage folder and the cached train-id set as fields, its operations as methods
 * that change them step by step. Each method is proved to do what the matching function of
 * `StorageModel` / `StorageQueries` specifies, and the properties proved there carry over.
 */
module Storage {
  import opened Base
  import opened Seqs
  import opened Time
  import opened Frames
  import opened Partitions
  import opened StorageModel
  import opened StorageQueries

  /** `_read_rows_from_files`: concatenates the readable files in order and stops once `limit` rows are read. */
  method ReadRowsFromFiles(files: seq<Entry>, limit: Option<int>) returns (df: Frame)
    ensures df == ReadRows(files, limit)
  {
    df := NoFrame;
    var i := 0;
    while i < |files|
      invariant 0 <= i <= |files|
      invariant ReadFrom(files[i..], limit, df) == ReadRows(files, limit)
    {
      assert files[i..][0] == files[i] && files[i..][1..] == files[i + 1..];
      var p := files[i].part;
      if !p.corrupt {
        df := Concat(df, PartFrame(p));
        if LimitReached(|df.rows|, limit) {
          df := df.(rows := Take(df.rows, limit.value));
          return;
        }
      }
      i := i + 1;
    }
  }

  /** The loop of `has_sufficient_data_since`: reads file after file and stops once `threshold` rows are counted. */
  method CountRowsSince(files: seq<Entry>, t: int, threshold: int) returns (r: Result<bool>)
    ensures r == CountFrom(files, t, threshold, 0)
  {
    ghost var goal := CountFrom(files, t, threshold, 0);
    var count := 0;
    var rest := files;
    while rest != []
      invariant CountFrom(rest, t, threshold, count) == goal
      decreases |rest|
    {
      var p := rest[0].part;
      if p.corrupt {
        return Err(ArrowInvalid("Parquet magic bytes not found"));
      }
      var kept := Filter(p.rows, NotBefore(t));
      count := count + |kept|;
      if count >= threshold {
        return Ok(true);
      }
      rest := rest[1..];
    }
    r := Ok(count >= threshold);
  }

  /** `get_for_train` on a given folder: the listed partitions of the train's directory, read and sliced. */
  method ReadTrainDir(folder: Disk, dataset: string, train: Option<TrainId>, period: Period, limit: Option<int>, invert: bool) returns (r: Result<Frame>)
    ensures r == ForTrain(folder, dataset, train, period, limit, invert)
  {
    var files := ListFiles(folder, dataset, TrainDir(train), period, invert);
    assert files.Ok?;
    var df := ReadRowsFromFiles(files.value, limit);
    r := SliceWithPeriod(df, period);
  }

  /** One pass of the `get_for_all_trains` loop: `get_for_train`, the id as an integer, the tagged rows appended. */
  method AddTrainRows(folder: Disk, dataset: string, id: TrainId, period: Period, limit: Option<int>, invert: bool, acc: Frame) returns (r: Result<Frame>)
    ensures r == AddTrain(TrainReader(folder, dataset, period, limit, invert), id, acc)
  {
    var trainDf := ReadTrainDir(folder, dataset, Some(id), period, limit, invert);
    if trainDf.Err? {
      return Err(trainDf.error);
    }
    var n := AsInt(id);
    if n.Err? {
      return Err(n.error);
    }
    r := Ok(Concat(acc, TagTrain(trainDf.value, n.value)));
  }

  /** The loop of `get_for_all_trains`: reads each train's directory and tags its rows with the train's integer id. */
  method ReadEachTrain(folder: Disk, dataset: string, ids: seq<TrainId>, period: Period, limit: Option<int>, invert: bool) returns (r: Result<Frame>)
    ensures r == TrainFrames(TrainReader(folder, dataset, period, limit, invert), ids, NoFrame)
  {
    ghost var all := TrainFrames(TrainReader(folder, dataset, period, limit, invert), ids, NoFrame);
    var df := NoFrame;
    var rest := ids;
    while rest != []
      invariant TrainFrames(TrainReader(folder, dataset, period, limit, invert), rest, df) == all
      decreases |rest|
    {
      var next := AddTrainRows(folder, dataset, rest[0], period, limit, invert, df);
      if next.Err? {
        return next;
      }
      df := next.value;
      rest := rest[1..];
    }
    r := Ok(df);
  }

  class StorageManager {
    /** The folder under `path`: partition files and `train_ids.json`. */
    var disk: Disk
    /** `_cached_train_ids`: None until the catalog is first loaded. */
    var cachedTrainIds: Option<seq<TrainId>>

    /** The cache, once loaded, holds what the catalog file holds. */
    predicate Valid()
      reads this
    {
      cachedTrainIds.None? || cachedTrainIds.value == Catalog(disk)
    }

    constructor (folder: Disk)
      ensures disk == folder && cachedTrainIds.None? && Valid()
    {
      disk := folder;
      cachedTrainIds := None;
    }

    /** `_update_train_ids`: reloads the catalog, adds the new ids and rewrites the file only if there were any. */
    method UpdateTrainIds(ids: seq<TrainId>)
      modifies this
      ensures disk == WithTrainIds(old(disk), ids)
      ensures cachedTrainIds == Some(Catalog(disk)) && Valid()
    {
      var known := Catalog(disk);
      var added := Dedup(Filter(ids, NotIn(known)));
      if added != [] {
        disk := disk.(catalogFile := Some(known + added));
      }
      cachedTrainIds := Some(Catalog(disk));
    }

    /** `retrieve_train_ids`: the persisted ids, each once; the folder is not changed. */
    method RetrieveTrainIds() returns (ids: seq<TrainId>)
      modifies this
      ensures disk == old(disk) && ids == Catalog(disk) && NoDup(ids)
      ensures cachedTrainIds == Some(ids) && Valid()
    {
      UpdateTrainIds([]);
      ids := cachedTrainIds.value;
    }

    /** `_append_df_to_parquet`. */
    method AppendDfToParquet(key: PartKey, columns: set<string>, rows: seq<Row>) returns (res: Result<()>)
      requires Valid()
      modifies this
      ensures (disk, res) == AppendPartition(old(disk), key, columns, rows)
      ensures cachedTrainIds == old(cachedTrainIds) && Valid()
    {
      var current := Lookup(disk.entries, key);
      if current.Some? && current.value.corrupt {
        return Err(ArrowInvalid("Parquet magic bytes not found"));
      }
      var r := AppendPartition(disk, key, columns, rows);
      disk := r.0;
      res := r.1;
    }

    /** `_inner` of `_store_per_train`. */
    method StoreForTrainId(dataset: string, day: int, t: TrainId, columns: set<string>, rows: seq<Row>) returns (res: Result<()>)
      requires Valid()
      modifies this
      ensures (disk, res) == StoreForTrain(old(disk), dataset, day, t, columns, rows) && Valid()
    {
      UpdateTrainIds([t]);
      res := AppendDfToParquet(TrainKey(dataset, t, day), columns - {TrainColumn}, DropTrain(rows));
    }

    /** `_store_per_train`: the given train, or one group per train id in the day's rows. */
    method StorePerTrain(dataset: string, day: int, columns: set<string>, group: seq<Row>, train: Option<TrainId>) returns (res: Result<()>)
      requires Valid()
      modifies this
      ensures IsSet(train) ==> (disk, res) == StoreForTrain(old(disk), dataset, day, train.value, columns, group)
      ensures !IsSet(train) ==> (disk, res) == StoreTrains(old(disk), dataset, day, columns, TrainGroups(group))
      ensures Valid()
    {
      if IsSet(train) {
        res := StoreForTrainId(dataset, day, train.value, columns, group);
        return;
      }
      var groups := TrainGroups(group);
      var i := 0;
      while i < |groups|
        invariant 0 <= i <= |groups| && Valid()
        invariant StoreTrains(disk, dataset, day, columns, groups[i..]) == StoreTrains(old(disk), dataset, day, columns, groups)
      {
        assert groups[i..][0] == groups[i] && groups[i..][1..] == groups[i + 1..];
        res := StoreForTrainId(dataset, day, groups[i].0, columns, groups[i].1);
        if res.Err? {
          return;
        }
        i := i + 1;
      }
      res := Ok(());
    }

    /** `store`. */
    method Store(data: Frame, dataset: string, train: Option<TrainId>) returns (res: Result<()>)
      requires Valid()
      modifies this
      ensures (disk, res) == StorageModel.Store(old(disk), data, dataset, train) && Valid()
    {
      if IsEmpty(data) {
        return Ok(());
      }
      var valid := ValidateIndex(data);
      if valid.Err? {
        return valid;
      }
      var groups := DayGroups(data.rows);
      ghost var goal := StoreDays(disk, dataset, train, data.columns, groups);
      var rest: seq<seq<Row>> := groups;
      while rest != []
        invariant NonEmptyGroups(rest) && Valid()
        invariant StoreDays(disk, dataset, train, data.columns, rest) == goal
        decreases |rest|
      {
        assert NonEmptyGroups(rest[1..]) by {
          assert forall j: int :: 0 <= j < |rest| - 1 ==> rest[1..][j] == rest[j + 1];
        }
        ghost var before := disk;
        var group := rest[0];
        var day := Day(group[0].ts);
        if PerTrainRoute(data.columns, train) {
          res := StorePerTrain(dataset, day, data.columns, group, train);
        } else {
          res := AppendDfToParquet(PartKey(dataset, Agnostic, day), data.columns, group);
        }
        assert (disk, res) == StoreDay(before, dataset, train, data.columns, group);
        if res.Err? {
          return;
        }
        rest := rest[1..];
      }
      res := Ok(());
    }

    /** `get_for_train`. */
    method GetForTrain(dataset: string, train: Option<TrainId>, period: Period, limit: Option<int>, invert: bool) returns (r: Result<Frame>)
      ensures r == ForTrain(disk, dataset, train, period, limit, invert)
    {
      r := ReadTrainDir(disk, dataset, train, period, limit, invert);
    }

    /** `get_for_agnostic`. */
    method GetForAgnostic(dataset: string, period: Period, limit: Option<int>, invert: bool) returns (r: Result<Frame>)
      ensures r == ForAgnostic(disk, dataset, period, limit, invert)
    {
      var files := ListFiles(disk, dataset, Agnostic, period, invert);
      if files.Err? {
        return Err(files.error);
      }
      var df := ReadRowsFromFiles(files.value, limit);
      r := SliceWithPeriod(df, period);
    }

    /** `get_for_all_trains`: reads every catalog train, tags its rows, sorts the union by time and cuts it. */
    method GetForAllTrains(dataset: string, period: Period, limit: Option<int>, invert: bool) returns (r: Result<Frame>)
      modifies this
      ensures r == ForAllTrains(old(disk), dataset, period, limit, invert)
      ensures disk == old(disk) && Valid()
    {
      var ids := RetrieveTrainIds();
      var all := ReadEachTrain(disk, dataset, ids, period, limit, invert);
      if all.Err? {
        return Err(all.error);
      }
      var df := all.value;
      df := df.(rows := SortBy(df.rows, Ts));
      if limit.Some? && limit.value != 0 {
        df := df.(rows := Take(df.rows, limit.value));
      }
      r := SliceWithPeriod(df, period);
    }

    /** `get_first_timestamp`. */
    method GetFirstTimestamp(dataset: string, train: Option<TrainId>) returns (r: Result<Option<int>>)
      ensures r == FirstTimestamp(disk, dataset, train)
    {
      var files := ListFiles(disk, dataset, QueryDir(train), Unbounded, true);
      if files.Err? {
        return Err(files.error);
      }
      if files.value == [] {
        return Ok(Some(DatetimeMax));
      }
      var p := files.value[|files.value| - 1].part;
      if p.corrupt {
        return Err(ArrowInvalid("Parquet magic bytes not found"));
      }
      r := if p.rows == [] then Ok(None) else Ok(Some(MinStamp(p.rows)));
    }

    /** `get_last_timestamp`. */
    method GetLastTimestamp(dataset: string, train: Option<TrainId>) returns (r: Result<Option<int>>)
      ensures r == LastTimestamp(disk, dataset, train)
    {
      var files := ListFiles(disk, dataset, QueryDir(train), Unbounded, false);
      if files.Err? {
        return Err(files.error);
      }
      if files.value == [] {
        return Ok(Some(DatetimeMin));
      }
      var p := files.value[|files.value| - 1].part;
      if p.corrupt {
        return Err(ArrowInvalid("Parquet magic bytes not found"));
      }
      r := if p.rows == [] then Ok(None) else Ok(Some(MaxStamp(p.rows)));
    }

    /** `has_sufficient_data_since`: counts the rows from `t` on, file by file, until `amount` is reached. */
    method HasSufficientDataSince(t: int, amount: Option<int>, dataset: string, train: Option<TrainId>) returns (r: Result<bool>)
      ensures r == Sufficient(disk, t, amount, dataset, train)
    {
      var listed := SinceFiles(disk, t, dataset, train);
      if listed.Err? {
        return Err(listed.error);
      }
      r := CountRowsSince(listed.value, t, Threshold(amount));
    }
  }
}
