/**
 * The storage folder as a value: the partition files in the order they were created, and the train-id
 * catalog file. Every writing operation of the storage manager is specified here as a function of that
 * value; the `Storage` module's class performs the same operations step by step on its fields.
 */
module StorageModel {
  import opened Base
  import opened Seqs
  import opened Time
  import opened Frames
  import opened Partitions

  /** `name/` itself, or the per-train subdirectory `name/<train>/`. */
  datatype Dir = Agnostic | PerTrain(train: string)

  /** The file `name/[<train>/]YYYY-MM-DD.parquet`; the calendar date is kept as its day number. */
  datatype PartKey = PartKey(dataset: string, dir: Dir, day: int)

  /** A partition file; a corrupt one makes the parquet reader raise ArrowInvalid. */
  datatype Partition = Partition(columns: set<string>, rows: seq<Row>, corrupt: bool)

  datatype Entry = Entry(key: PartKey, part: Partition)

  /** The storage folder: partition files in creation order, and `train_ids.json` (None while it does not exist). */
  datatype Disk = Disk(entries: seq<Entry>, catalogFile: Option<seq<TrainId>>)

  /** A read period: None (no filtering) or a (start, end) pair whose ends may each be None. */
  datatype Period = Unbounded | Window(start: Option<int>, end: Option<int>)

  // ---------------------------------------------------------------------------------------------
  // Files

  /** The content of the file named `k`, if it exists. */
  function Lookup(entries: seq<Entry>, k: PartKey): (r: Option<Partition>)
    ensures r.Some? ==> Entry(k, r.value) in entries
    ensures r.None? <==> forall e :: e in entries ==> e.key != k
  {
    if entries == [] then None
    else if entries[0].key == k then Some(entries[0].part)
    else
      assert forall e :: e in entries ==> e == entries[0] || e in entries[1..];
      Lookup(entries[1..], k)
  }

  /** A file name occurs once in a folder. */
  ghost predicate UniqueKeys(entries: seq<Entry>) {
    forall i, j :: 0 <= i < j < |entries| ==> entries[i].key != entries[j].key
  }

  lemma SameKeySameEntry(entries: seq<Entry>, a: Entry, b: Entry)
    requires UniqueKeys(entries) && a in entries && b in entries && a.key == b.key
    ensures a == b
  {
    var i :| 0 <= i < |entries| && entries[i] == a;
    var j :| 0 <= j < |entries| && entries[j] == b;
    assert i == j;
  }

  /** In a folder without repeated names, every file is what looking up its name finds. */
  lemma LookupUnique(entries: seq<Entry>, e: Entry)
    requires UniqueKeys(entries) && e in entries
    ensures Lookup(entries, e.key) == Some(e.part)
  {
    var r := Lookup(entries, e.key);
    assert r.Some?;
    SameKeySameEntry(entries, Entry(e.key, r.value), e);
  }

  /** The folder with the file `key` rewritten to `p`. */
  function Replace(entries: seq<Entry>, key: PartKey, p: Partition): (r: seq<Entry>)
    ensures |r| == |entries|
    ensures forall i :: 0 <= i < |entries| ==> r[i] == if entries[i].key == key then Entry(key, p) else entries[i]
  {
    if entries == [] then []
    else [if entries[0].key == key then Entry(key, p) else entries[0]] + Replace(entries[1..], key, p)
  }

  lemma {:induction false} LookupReplace(entries: seq<Entry>, key: PartKey, p: Partition, k: PartKey)
    ensures Lookup(Replace(entries, key, p), k) ==
      if k == key && Lookup(entries, k).Some? then Some(p) else Lookup(entries, k)
    decreases |entries|
  {
    if entries != [] {
      assert Replace(entries, key, p)[1..] == Replace(entries[1..], key, p);
      LookupReplace(entries[1..], key, p, k);
    }
  }

  lemma {:induction false} LookupAppend(entries: seq<Entry>, e: Entry, k: PartKey)
    ensures Lookup(entries + [e], k) ==
      if Lookup(entries, k).Some? then Lookup(entries, k) else if e.key == k then Some(e.part) else None
    decreases |entries|
  {
    if entries == [] {
      assert entries + [e] == [e];
    } else {
      assert (entries + [e])[1..] == entries[1..] + [e];
      LookupAppend(entries[1..], e, k);
    }
  }

  lemma ReplaceSame(entries: seq<Entry>, key: PartKey, p: Partition)
    requires forall i :: 0 <= i < |entries| && entries[i].key == key ==> entries[i].part == p
    ensures Replace(entries, key, p) == entries
  {
    var r := Replace(entries, key, p);
    assert forall i :: 0 <= i < |r| ==> r[i] == entries[i];
  }

  /** A readable partition is non-empty and holds only rows of its own day. */
  predicate GoodEntry(e: Entry) {
    e.part.rows != [] && forall r :: r in e.part.rows ==> Day(r.ts) == e.key.day
  }

  /** What `store` maintains: unique file names, and every readable partition good. */
  ghost predicate WellFormed(disk: Disk) {
    UniqueKeys(disk.entries) && forall e :: e in disk.entries && !e.part.corrupt ==> GoodEntry(e)
  }

  /** File `k` is in the same state in both folders. */
  predicate Unchanged(a: Disk, b: Disk, k: PartKey) {
    Lookup(a.entries, k) == Lookup(b.entries, k)
  }

  // ---------------------------------------------------------------------------------------------
  // Train-id catalog

  /** The ids `retrieve_train_ids` enumerates: the persisted ones, each once. */
  function Catalog(disk: Disk): (ids: seq<TrainId>)
    ensures NoDup(ids)
  {
    if disk.catalogFile.None? then [] else Dedup(disk.catalogFile.value)
  }

  function NotIn(ids: seq<TrainId>): TrainId -> bool {
    (t: TrainId) => t !in ids
  }

  /**
   * `_update_train_ids`: the persisted set gains the new ids; the file is rewritten only if there are any. The
   * rewritten set is listed with the known ids first and the new ones after, standing for Python's set order.
   */
  function WithTrainIds(disk: Disk, ids: seq<TrainId>): (d: Disk)
    ensures d.entries == disk.entries
  {
    var known := Catalog(disk);
    var added := Dedup(Filter(ids, NotIn(known)));
    if added == [] then disk else disk.(catalogFile := Some(known + added))
  }

  /**
   * The catalog only grows: every known id stays (first, in the modelled listing), exactly the new ones are
   * added, and the file is rewritten only for them.
   */
  lemma WithTrainIdsCatalog(disk: Disk, ids: seq<TrainId>)
    ensures var d := WithTrainIds(disk, ids);
      && Extends(Catalog(disk), Catalog(d))
      && (forall t :: t in Catalog(d) <==> t in Catalog(disk) || t in ids)
      && (d.catalogFile == disk.catalogFile <==> forall t :: t in ids ==> t in Catalog(disk))
  {
    var known := Catalog(disk);
    var added := Dedup(Filter(ids, NotIn(known)));
    var d := WithTrainIds(disk, ids);
    assert forall t :: t in ids && t !in known ==> t in added by {
      forall t | t in ids && t !in known
        ensures t in added
      {
        assert NotIn(known)(t);
      }
    }
    if added != [] {
      assert NoDup(known + added) by {
        forall i, j | 0 <= i < j < |known + added|
          ensures (known + added)[i] != (known + added)[j]
        {
          if i < |known| && j >= |known| {
            assert (known + added)[j] in added;
          }
        }
      }
      DedupOfNoDup(known + added);
      assert Catalog(d) == known + added;
      assert added[0] in added;
      assert added[0] !in known;
      assert Catalog(d) != known;
    }
  }

  // ---------------------------------------------------------------------------------------------
  // Writing

  /** The content of a partition after a batch is appended to what it held (nothing, for a new file). */
  function Appended(current: Option<Partition>, columns: set<string>, rows: seq<Row>): Partition {
    if current.Some? then Partition(current.value.columns + columns, KeepLast(current.value.rows + rows), false)
    else Partition(columns, rows, false)
  }

  /**
   * `_append_df_to_parquet`: an existing partition gets the batch appended and all but the last row per
   * timestamp dropped; a new partition is written as given. Reading a corrupt partition raises.
   */
  function AppendPartition(disk: Disk, key: PartKey, columns: set<string>, rows: seq<Row>): (r: (Disk, Result<()>))
    ensures r.0.catalogFile == disk.catalogFile
    ensures forall k :: k != key ==> Unchanged(disk, r.0, k)
    ensures r.1.Err? <==> Lookup(disk.entries, key).Some? && Lookup(disk.entries, key).value.corrupt
    ensures r.1.Err? ==> r.0 == disk
    ensures r.1.Ok? ==> Lookup(r.0.entries, key) == Some(Appended(Lookup(disk.entries, key), columns, rows))
    ensures UniqueKeys(disk.entries) ==> UniqueKeys(r.0.entries)
  {
    var current := Lookup(disk.entries, key);
    if current.Some? && current.value.corrupt then
      (disk, Err(ArrowInvalid("Parquet magic bytes not found")))
    else if current.Some? then
      var p := Appended(current, columns, rows);
      assert forall k :: (Lookup(Replace(disk.entries, key, p), k) ==
        if k == key && Lookup(disk.entries, k).Some? then Some(p) else Lookup(disk.entries, k)) by {
        forall k {
          LookupReplace(disk.entries, key, p, k);
        }
      }
      (disk.(entries := Replace(disk.entries, key, p)), Ok(()))
    else
      var e := Entry(key, Appended(current, columns, rows));
      assert forall k :: (Lookup(disk.entries + [e], k) ==
        if Lookup(disk.entries, k).Some? then Lookup(disk.entries, k) else if e.key == k then Some(e.part) else None) by {
        forall k {
          LookupAppend(disk.entries, e, k);
        }
      }
      assert forall i :: 0 <= i < |disk.entries| ==> disk.entries[i].key != key by {
        forall i | 0 <= i < |disk.entries|
          ensures disk.entries[i].key != key
        {
          assert disk.entries[i] in disk.entries;
        }
      }
      (disk.(entries := disk.entries + [e]), Ok(()))
  }

  /** Appending to a partition whose merge with the batch is the partition itself changes nothing. */
  lemma AppendUnchanged(disk: Disk, key: PartKey, columns: set<string>, rows: seq<Row>)
    requires UniqueKeys(disk.entries)
    requires Lookup(disk.entries, key).Some? && !Lookup(disk.entries, key).value.corrupt
    requires Appended(Lookup(disk.entries, key), columns, rows) == Lookup(disk.entries, key).value
    ensures AppendPartition(disk, key, columns, rows) == (disk, Ok(()))
  {
    var p := Lookup(disk.entries, key).value;
    forall i | 0 <= i < |disk.entries| && disk.entries[i].key == key
      ensures disk.entries[i].part == p
    {
      assert disk.entries[i] in disk.entries;
      LookupUnique(disk.entries, disk.entries[i]);
    }
    ReplaceSame(disk.entries, key, p);
  }

  /** Appending the same batch twice equals appending it once exactly when the partition existed or the batch has no repeated timestamp. */
  lemma AppendTwice(disk: Disk, key: PartKey, columns: set<string>, rows: seq<Row>)
    requires UniqueKeys(disk.entries)
    requires AppendPartition(disk, key, columns, rows).1.Ok?
    ensures var once := AppendPartition(disk, key, columns, rows).0;
      AppendPartition(once, key, columns, rows) == (once, Ok(())) <==> Lookup(disk.entries, key).Some? || UniqueStamps(rows)
  {
    var before := Lookup(disk.entries, key);
    var once := AppendPartition(disk, key, columns, rows).0;
    var p := Appended(before, columns, rows);
    var twice := AppendPartition(once, key, columns, rows);
    assert Lookup(once.entries, key) == Some(p);
    if before.Some? {
      MergeTwice(before.value.rows, rows);
      assert Appended(Some(p), columns, rows) == p;
      AppendUnchanged(once, key, columns, rows);
    } else {
      MergeIntoItself(rows);
      if UniqueStamps(rows) {
        KeepLastUnique(rows);
        assert Appended(Some(p), columns, rows) == p;
        AppendUnchanged(once, key, columns, rows);
      } else {
        assert Lookup(twice.0.entries, key) == Some(Appended(Some(p), columns, rows));
        assert Appended(Some(p), columns, rows).rows == KeepLast(rows) != rows;
      }
    }
  }

  /** A new partition keeps a batch's repeated timestamps. */
  lemma NewPartitionKeepsDuplicates(disk: Disk, key: PartKey, columns: set<string>, rows: seq<Row>)
    requires Lookup(disk.entries, key).None?
    ensures Lookup(AppendPartition(disk, key, columns, rows).0.entries, key) == Some(Partition(columns, rows, false))
  {
  }

  /** The directory a per-train write goes to. */
  function TrainKey(dataset: string, t: TrainId, day: int): PartKey {
    PartKey(dataset, PerTrain(Render(t)), day)
  }

  /** `_inner` of `_store_per_train`: register the train id, then append the rows without their `train_id`. */
  function StoreForTrain(disk: Disk, dataset: string, day: int, t: TrainId, columns: set<string>, rows: seq<Row>): (r: (Disk, Result<()>))
  {
    AppendPartition(WithTrainIds(disk, [t]), TrainKey(dataset, t, day), columns - {TrainColumn}, DropTrain(rows))
  }

  /** The per-train groups of one day, stored one after the other; the first failure stops the loop. */
  function StoreTrains(disk: Disk, dataset: string, day: int, columns: set<string>, groups: seq<(TrainId, seq<Row>)>): (r: (Disk, Result<()>))
    decreases |groups|
  {
    if groups == [] then (disk, Ok(()))
    else
      var (d, res) := StoreForTrain(disk, dataset, day, groups[0].0, columns, groups[0].1);
      if res.Err? then (d, res) else StoreTrains(d, dataset, day, columns, groups[1..])
  }

  /** Routes a batch per train when it has a `train_id` column or a train argument, to `name/` otherwise. */
  predicate PerTrainRoute(columns: set<string>, train: Option<TrainId>) {
    TrainColumn in columns || IsSet(train)
  }

  /** One day's group of `store`. */
  function StoreDay(disk: Disk, dataset: string, train: Option<TrainId>, columns: set<string>, group: seq<Row>): (r: (Disk, Result<()>))
    requires group != []
  {
    var day := Day(group[0].ts);
    if PerTrainRoute(columns, train) then
      if IsSet(train) then StoreForTrain(disk, dataset, day, train.value, columns, group)
      else StoreTrains(disk, dataset, day, columns, TrainGroups(group))
    else AppendPartition(disk, PartKey(dataset, Agnostic, day), columns, group)
  }

  predicate NonEmptyGroups(groups: seq<seq<Row>>) {
    forall i :: 0 <= i < |groups| ==> groups[i] != []
  }

  function StoreDays(disk: Disk, dataset: string, train: Option<TrainId>, columns: set<string>, groups: seq<seq<Row>>): (r: (Disk, Result<()>))
    requires NonEmptyGroups(groups)
    decreases |groups|
  {
    if groups == [] then (disk, Ok(()))
    else
      var (d, res) := StoreDay(disk, dataset, train, columns, groups[0]);
      if res.Err? then (d, res) else StoreDays(d, dataset, train, columns, groups[1..])
  }

  /** `_validate_index`. */
  function ValidateIndex(data: Frame): (r: Result<()>)
    ensures r.Ok? <==> data.index == TimeIndex && SortedBy(data.rows, Ts)
  {
    if data.index != TimeIndex then Err(ValueError("Index must be DateTimeIndex, use df.set_index('timestamp', inplace=True)"))
    else if !NonDecreasing(data.rows) then
      Err(ValueError("Index must be sorted, use df.sort_index(inplace=True)"))
    else
      NonDecreasingSorted(data.rows);
      Ok(())
  }

  /** `store`: nothing for an empty frame, ValueError for a bad index, otherwise every day's group stored. */
  function Store(disk: Disk, data: Frame, dataset: string, train: Option<TrainId>): (r: (Disk, Result<()>))
    ensures IsEmpty(data) ==> r == (disk, Ok(()))
    ensures !IsEmpty(data) && ValidateIndex(data).Err? ==> r == (disk, ValidateIndex(data))
  {
    if IsEmpty(data) then (disk, Ok(()))
    else match ValidateIndex(data)
      case Err(e) => (disk, Err(e))
      case Ok(_) => StoreDays(disk, dataset, train, data.columns, DayGroups(data.rows))
  }

  // ---------------------------------------------------------------------------------------------
  // Properties of store

  /** The files a write for `dataset` with this routing may touch. */
  predicate RoutedKey(k: PartKey, dataset: string, columns: set<string>, train: Option<TrainId>) {
    k.dataset == dataset &&
    if !PerTrainRoute(columns, train) then k.dir == Agnostic
    else if IsSet(train) then k.dir == PerTrain(Render(train.value))
    else k.dir.PerTrain?
  }

  /** Which files a day's group may touch. */
  ghost predicate DayWrite(d0: Disk, d1: Disk, dataset: string, columns: set<string>, train: Option<TrainId>, day: int) {
    forall k :: !Unchanged(d0, d1, k) ==> RoutedKey(k, dataset, columns, train) && k.day == day
  }

  lemma DayWriteTrans(d0: Disk, d1: Disk, d2: Disk, dataset: string, columns: set<string>, train: Option<TrainId>, day: int)
    requires DayWrite(d0, d1, dataset, columns, train, day) && DayWrite(d1, d2, dataset, columns, train, day)
    ensures DayWrite(d0, d2, dataset, columns, train, day)
  {
  }

  /** An append touches only the file it names. */
  lemma AppendWrites(disk: Disk, key: PartKey, columns: set<string>, rows: seq<Row>, dataset: string, columns': set<string>, train: Option<TrainId>)
    requires RoutedKey(key, dataset, columns', train)
    ensures DayWrite(disk, AppendPartition(disk, key, columns, rows).0, dataset, columns', train, key.day)
  {
    var d := AppendPartition(disk, key, columns, rows).0;
    forall k | !Unchanged(disk, d, k)
      ensures RoutedKey(k, dataset, columns', train) && k.day == key.day
    {
      assert k == key;
    }
  }

  lemma StoreForTrainWrites(disk: Disk, dataset: string, day: int, t: TrainId, columns: set<string>, rows: seq<Row>, columns': set<string>, train: Option<TrainId>)
    requires RoutedKey(TrainKey(dataset, t, day), dataset, columns', train)
    ensures DayWrite(disk, StoreForTrain(disk, dataset, day, t, columns, rows).0, dataset, columns', train, day)
  {
    var w := WithTrainIds(disk, [t]);
    AppendWrites(w, TrainKey(dataset, t, day), columns - {TrainColumn}, DropTrain(rows), dataset, columns', train);
    assert forall k :: Unchanged(disk, w, k);
  }

  lemma {:induction false} StoreTrainsWrites(disk: Disk, dataset: string, day: int, columns: set<string>, groups: seq<(TrainId, seq<Row>)>)
    ensures DayWrite(disk, StoreTrains(disk, dataset, day, columns, groups).0, dataset, columns + {TrainColumn}, None, day)
    decreases |groups|
  {
    if groups != [] {
      var (d, res) := StoreForTrain(disk, dataset, day, groups[0].0, columns, groups[0].1);
      StoreForTrainWrites(disk, dataset, day, groups[0].0, columns, groups[0].1, columns + {TrainColumn}, None);
      if res.Ok? {
        StoreTrainsWrites(d, dataset, day, columns, groups[1..]);
        DayWriteTrans(disk, d, StoreTrains(d, dataset, day, columns, groups[1..]).0, dataset, columns + {TrainColumn}, None, day);
      }
    }
  }

  /** Each day's group writes only to partitions of that day, in the directory its routing names. */
  lemma StoreDayWrites(disk: Disk, dataset: string, train: Option<TrainId>, columns: set<string>, group: seq<Row>)
    requires group != []
    ensures DayWrite(disk, StoreDay(disk, dataset, train, columns, group).0, dataset, columns, train, Day(group[0].ts))
  {
    var day := Day(group[0].ts);
    if !PerTrainRoute(columns, train) {
      AppendWrites(disk, PartKey(dataset, Agnostic, day), columns, group, dataset, columns, train);
    } else if IsSet(train) {
      StoreForTrainWrites(disk, dataset, day, train.value, columns, group, columns, train);
    } else {
      StoreTrainsWrites(disk, dataset, day, columns, TrainGroups(group));
      assert columns + {TrainColumn} == columns;
    }
  }

  lemma {:induction false} StoreDaysWrites(disk: Disk, dataset: string, train: Option<TrainId>, columns: set<string>, groups: seq<seq<Row>>)
    requires NonEmptyGroups(groups)
    ensures forall k :: !Unchanged(disk, StoreDays(disk, dataset, train, columns, groups).0, k) ==>
      RoutedKey(k, dataset, columns, train) && exists i :: 0 <= i < |groups| && k.day == Day(groups[i][0].ts)
    decreases |groups|
  {
    if groups != [] {
      var (d, res) := StoreDay(disk, dataset, train, columns, groups[0]);
      StoreDayWrites(disk, dataset, train, columns, groups[0]);
      if res.Ok? {
        StoreDaysWrites(d, dataset, train, columns, groups[1..]);
        var d2 := StoreDays(d, dataset, train, columns, groups[1..]).0;
        forall k | !Unchanged(disk, d2, k)
          ensures RoutedKey(k, dataset, columns, train) && exists i :: 0 <= i < |groups| && k.day == Day(groups[i][0].ts)
        {
          if Unchanged(disk, d, k) {
            var i :| 0 <= i < |groups[1..]| && k.day == Day(groups[1..][i][0].ts);
            assert groups[i + 1] == groups[1..][i];
          } else {
            assert k.day == Day(groups[0][0].ts);
          }
        }
      }
    }
  }

  /** `store` writes a row only to its own day's partition, under `name/` or a train's directory as routed. */
  lemma StoreWritesOwnDays(disk: Disk, data: Frame, dataset: string, train: Option<TrainId>)
    ensures forall k :: !Unchanged(disk, Store(disk, data, dataset, train).0, k) ==>
      RoutedKey(k, dataset, data.columns, train) && exists r :: r in data.rows && Day(r.ts) == k.day
  {
    if !IsEmpty(data) && ValidateIndex(data).Ok? {
      var gs := DayGroups(data.rows);
      StoreDaysWrites(disk, dataset, train, data.columns, gs);
      forall k | !Unchanged(disk, Store(disk, data, dataset, train).0, k)
        ensures exists r :: r in data.rows && Day(r.ts) == k.day
      {
        var i :| 0 <= i < |gs| && k.day == Day(gs[i][0].ts);
        assert gs[i] in gs && gs[i][0] in gs[i];
        FlattenMember(gs, gs[i], gs[i][0]);
      }
    }
  }

  lemma AppendKeepsWellFormed(disk: Disk, key: PartKey, columns: set<string>, rows: seq<Row>)
    requires WellFormed(disk) && rows != [] && forall r :: r in rows ==> Day(r.ts) == key.day
    ensures WellFormed(AppendPartition(disk, key, columns, rows).0)
  {
    var current := Lookup(disk.entries, key);
    var (d, res) := AppendPartition(disk, key, columns, rows);
    if res.Ok? {
      var p := Appended(current, columns, rows);
      assert GoodEntry(Entry(key, p)) by {
        if current.Some? {
          var all := current.value.rows + rows;
          assert Entry(key, current.value) in disk.entries;
          assert forall r :: r in all ==> r in current.value.rows || r in rows;
          assert rows[0] in all;
          HasStampMember(all, rows[0]);
          assert HasStamp(p.rows, rows[0].ts);
        }
      }
      forall e | e in d.entries && !e.part.corrupt
        ensures GoodEntry(e)
      {
        var i :| 0 <= i < |d.entries| && d.entries[i] == e;
        if current.Some? {
          assert disk.entries[i] in disk.entries;
        } else if i < |disk.entries| {
          assert e == disk.entries[i];
        }
      }
    }
  }

  lemma {:induction false} StoreTrainsKeepsWellFormed(disk: Disk, dataset: string, day: int, columns: set<string>, groups: seq<(TrainId, seq<Row>)>)
    requires WellFormed(disk)
    requires forall i :: 0 <= i < |groups| ==> groups[i].1 != [] && forall r :: r in groups[i].1 ==> Day(r.ts) == day
    ensures WellFormed(StoreTrains(disk, dataset, day, columns, groups).0)
    decreases |groups|
  {
    if groups != [] {
      var g := groups[0].1;
      var dropped := DropTrain(g);
      assert forall r :: r in dropped ==> Day(r.ts) == day by {
        forall r | r in dropped
          ensures Day(r.ts) == day
        {
          var i :| 0 <= i < |dropped| && dropped[i] == r;
          assert g[i] in g;
        }
      }
      AppendKeepsWellFormed(WithTrainIds(disk, [groups[0].0]), TrainKey(dataset, groups[0].0, day), columns - {TrainColumn}, dropped);
      assert forall i :: 0 <= i < |groups[1..]| ==> groups[1..][i] == groups[i + 1];
      StoreTrainsKeepsWellFormed(StoreForTrain(disk, dataset, day, groups[0].0, columns, g).0, dataset, day, columns, groups[1..]);
    }
  }

  lemma StoreDayKeepsWellFormed(disk: Disk, dataset: string, train: Option<TrainId>, columns: set<string>, group: seq<Row>)
    requires WellFormed(disk) && group != [] && forall r :: r in group ==> Day(r.ts) == Day(group[0].ts)
    ensures WellFormed(StoreDay(disk, dataset, train, columns, group).0)
  {
    var day := Day(group[0].ts);
    if PerTrainRoute(columns, train) {
      if IsSet(train) {
        StoreTrainsKeepsWellFormed(disk, dataset, day, columns, [(train.value, group)]);
        assert StoreForTrain(disk, dataset, day, train.value, columns, group).0 == StoreTrains(disk, dataset, day, columns, [(train.value, group)]).0;
      } else {
        StoreTrainsKeepsWellFormed(disk, dataset, day, columns, TrainGroups(group));
      }
    } else {
      AppendKeepsWellFormed(disk, PartKey(dataset, Agnostic, day), columns, group);
    }
  }

  lemma {:induction false} StoreDaysKeepsWellFormed(disk: Disk, dataset: string, train: Option<TrainId>, columns: set<string>, groups: seq<seq<Row>>)
    requires WellFormed(disk) && NonEmptyGroups(groups)
    requires forall i :: 0 <= i < |groups| ==> forall r :: r in groups[i] ==> Day(r.ts) == Day(groups[i][0].ts)
    ensures WellFormed(StoreDays(disk, dataset, train, columns, groups).0)
    decreases |groups|
  {
    if groups != [] {
      StoreDayKeepsWellFormed(disk, dataset, train, columns, groups[0]);
      var d := StoreDay(disk, dataset, train, columns, groups[0]).0;
      assert forall i :: 0 <= i < |groups[1..]| ==> groups[1..][i] == groups[i + 1];
      StoreDaysKeepsWellFormed(d, dataset, train, columns, groups[1..]);
    }
  }

  /** `store` keeps file names unique and every readable partition non-empty and holding only its own day's rows. */
  lemma StoreKeepsWellFormed(disk: Disk, data: Frame, dataset: string, train: Option<TrainId>)
    requires WellFormed(disk)
    ensures WellFormed(Store(disk, data, dataset, train).0)
  {
    if !IsEmpty(data) && ValidateIndex(data).Ok? {
      StoreDaysKeepsWellFormed(disk, dataset, train, data.columns, DayGroups(data.rows));
    }
  }

  /** Per-train stores only add to the catalog, keeping the known ids (first, in the modelled listing). */
  lemma {:induction false} StoreTrainsCatalog(disk: Disk, dataset: string, day: int, columns: set<string>, groups: seq<(TrainId, seq<Row>)>)
    ensures Extends(Catalog(disk), Catalog(StoreTrains(disk, dataset, day, columns, groups).0))
    decreases |groups|
  {
    if groups != [] {
      WithTrainIdsCatalog(disk, [groups[0].0]);
      var (d, res) := StoreForTrain(disk, dataset, day, groups[0].0, columns, groups[0].1);
      assert Catalog(d) == Catalog(WithTrainIds(disk, [groups[0].0]));
      if res.Ok? {
        StoreTrainsCatalog(d, dataset, day, columns, groups[1..]);
        ExtendsTrans(Catalog(disk), Catalog(d), Catalog(StoreTrains(d, dataset, day, columns, groups[1..]).0));
      }
    }
  }

  /** `c` starts with `b`. */
  predicate Extends(b: seq<TrainId>, c: seq<TrainId>) {
    |b| <= |c| && c[..|b|] == b
  }

  lemma ExtendsTrans(a: seq<TrainId>, b: seq<TrainId>, c: seq<TrainId>)
    requires Extends(a, b) && Extends(b, c)
    ensures Extends(a, c)
  {
    assert c[..|a|] == c[..|b|][..|a|];
  }

  lemma StoreDayCatalog(disk: Disk, dataset: string, train: Option<TrainId>, columns: set<string>, group: seq<Row>)
    requires group != []
    ensures Extends(Catalog(disk), Catalog(StoreDay(disk, dataset, train, columns, group).0))
  {
    var day := Day(group[0].ts);
    if PerTrainRoute(columns, train) {
      if IsSet(train) {
        StoreTrainsCatalog(disk, dataset, day, columns, [(train.value, group)]);
        assert StoreForTrain(disk, dataset, day, train.value, columns, group).0 == StoreTrains(disk, dataset, day, columns, [(train.value, group)]).0;
      } else {
        StoreTrainsCatalog(disk, dataset, day, columns, TrainGroups(group));
      }
    }
  }

  lemma {:induction false} StoreDaysCatalog(disk: Disk, dataset: string, train: Option<TrainId>, columns: set<string>, groups: seq<seq<Row>>)
    requires NonEmptyGroups(groups)
    ensures Extends(Catalog(disk), Catalog(StoreDays(disk, dataset, train, columns, groups).0))
    decreases |groups|
  {
    if groups != [] {
      var (d, res) := StoreDay(disk, dataset, train, columns, groups[0]);
      StoreDayCatalog(disk, dataset, train, columns, groups[0]);
      if res.Ok? {
        assert forall i :: 0 <= i < |groups[1..]| ==> groups[1..][i] == groups[i + 1];
        StoreDaysCatalog(d, dataset, train, columns, groups[1..]);
        ExtendsTrans(Catalog(disk), Catalog(d), Catalog(StoreDays(d, dataset, train, columns, groups[1..]).0));
      }
    }
  }

  /** The catalog is add-only: `store` never removes a known train id, and the modelled listing keeps them first. */
  lemma StoreCatalogGrows(disk: Disk, data: Frame, dataset: string, train: Option<TrainId>)
    ensures Extends(Catalog(disk), Catalog(Store(disk, data, dataset, train).0))
  {
    if !IsEmpty(data) && ValidateIndex(data).Ok? {
      StoreDaysCatalog(disk, dataset, train, data.columns, DayGroups(data.rows));
    }
  }

  lemma {:induction false} UniqueStampsPart(gs: seq<seq<Row>>, i: int)
    requires UniqueStamps(Flatten(gs)) && 0 <= i < |gs|
    ensures UniqueStamps(gs[i])
    decreases i
  {
    assert Flatten(gs) == gs[0] + Flatten(gs[1..]);
    if i > 0 {
      assert UniqueStamps(Flatten(gs[1..])) by {
        var f := Flatten(gs[1..]);
        forall a, b | 0 <= a < b < |f|
          ensures f[a].ts != f[b].ts
        {
          assert f[a] == Flatten(gs)[|gs[0]| + a] && f[b] == Flatten(gs)[|gs[0]| + b];
        }
      }
      UniqueStampsPart(gs[1..], i - 1);
    } else {
      forall a, b | 0 <= a < b < |gs[0]|
        ensures gs[0][a].ts != gs[0][b].ts
      {
        assert gs[0][a] == Flatten(gs)[a] && gs[0][b] == Flatten(gs)[b];
      }
    }
  }

  lemma StoreDayAgnostic(disk: Disk, dataset: string, train: Option<TrainId>, columns: set<string>, group: seq<Row>)
    requires group != [] && !PerTrainRoute(columns, train)
    ensures StoreDay(disk, dataset, train, columns, group) == AppendPartition(disk, PartKey(dataset, Agnostic, Day(group[0].ts)), columns, group)
  {
  }

  /** The agnostic routing of groups on other days leaves the file `k` alone. */
  lemma {:induction false} StoreDaysAgnosticFrame(disk: Disk, dataset: string, train: Option<TrainId>, columns: set<string>, groups: seq<seq<Row>>, k: PartKey)
    requires NonEmptyGroups(groups) && !PerTrainRoute(columns, train)
    requires forall i :: 0 <= i < |groups| ==> Day(groups[i][0].ts) != k.day
    ensures Unchanged(disk, StoreDays(disk, dataset, train, columns, groups).0, k)
    decreases |groups|
  {
    if groups != [] {
      StoreDayAgnostic(disk, dataset, train, columns, groups[0]);
      var (d, res) := StoreDay(disk, dataset, train, columns, groups[0]);
      assert Unchanged(disk, d, k);
      if res.Ok? {
        var tail := groups[1..];
        assert forall i :: 0 <= i < |tail| ==> tail[i] == groups[i + 1];
        StoreDaysAgnosticFrame(d, dataset, train, columns, tail, k);
      }
    }
  }

  /** The agnostic routing keeps the file names unique. */
  lemma {:induction false} StoreDaysAgnosticUnique(disk: Disk, dataset: string, train: Option<TrainId>, columns: set<string>, groups: seq<seq<Row>>)
    requires NonEmptyGroups(groups) && !PerTrainRoute(columns, train) && UniqueKeys(disk.entries)
    ensures UniqueKeys(StoreDays(disk, dataset, train, columns, groups).0.entries)
    decreases |groups|
  {
    if groups != [] {
      StoreDayAgnostic(disk, dataset, train, columns, groups[0]);
      var (d, res) := StoreDay(disk, dataset, train, columns, groups[0]);
      if res.Ok? {
        var tail := groups[1..];
        assert forall i :: 0 <= i < |tail| ==> tail[i] == groups[i + 1];
        StoreDaysAgnosticUnique(d, dataset, train, columns, tail);
      }
    }
  }

  lemma {:induction false} StoreDaysTwice(disk: Disk, dataset: string, train: Option<TrainId>, columns: set<string>, groups: seq<seq<Row>>)
    requires UniqueKeys(disk.entries)
    requires NonEmptyGroups(groups) && !PerTrainRoute(columns, train) && DaysAscending(groups)
    requires forall i :: 0 <= i < |groups| ==> UniqueStamps(groups[i])
    requires StoreDays(disk, dataset, train, columns, groups).1.Ok?
    ensures var once := StoreDays(disk, dataset, train, columns, groups).0;
      StoreDays(once, dataset, train, columns, groups) == (once, Ok(()))
    decreases |groups|
  {
    if groups != [] {
      var g := groups[0];
      var key := PartKey(dataset, Agnostic, Day(g[0].ts));
      var d := AppendPartition(disk, key, columns, g).0;
      var tail := groups[1..];
      assert forall i :: 0 <= i < |tail| ==> tail[i] == groups[i + 1];
      assert DaysAscending(tail);
      StoreDaysTwice(d, dataset, train, columns, tail);
      var once := StoreDays(d, dataset, train, columns, tail).0;
      StoreDaysAgnosticFrame(d, dataset, train, columns, tail, key);
      StoreDaysAgnosticUnique(d, dataset, train, columns, tail);
      AppendTwice(disk, key, columns, g);
      var p := Lookup(d.entries, key).value;
      assert Lookup(once.entries, key) == Some(p);
      AppendUnchanged(once, key, columns, g);
    }
  }

  /** Storing a batch without repeated timestamps in `name/` a second time changes nothing. */
  lemma StoreTwice(disk: Disk, data: Frame, dataset: string)
    requires UniqueKeys(disk.entries)
    requires TrainColumn !in data.columns && UniqueStamps(data.rows)
    requires Store(disk, data, dataset, None).1.Ok?
    ensures var once := Store(disk, data, dataset, None).0;
      Store(once, data, dataset, None) == (once, Ok(()))
  {
    if !IsEmpty(data) {
      var gs := DayGroups(data.rows);
      DayGroupsOrdered(data.rows);
      forall i | 0 <= i < |gs|
        ensures UniqueStamps(gs[i])
      {
        UniqueStampsPart(gs, i);
      }
      StoreDaysTwice(disk, dataset, None, data.columns, gs);
    }
  }

  // ---------------------------------------------------------------------------------------------
  // What store writes, file by file

  /** One per-train append of a day: the train's partition gets its rows without `train_id`; other files keep `prev`. */
  function TrainWrite(prev: Option<Partition>, dataset: string, day: int, columns: set<string>, t: TrainId, rows: seq<Row>, k: PartKey): Option<Partition> {
    if k == TrainKey(dataset, t, day) then Some(Appended(prev, columns - {TrainColumn}, DropTrain(rows))) else prev
  }

  /** What file `k` holds after the per-train groups `gs` of a day are appended one after the other. */
  function TrainsContent(prev: Option<Partition>, dataset: string, day: int, columns: set<string>, gs: seq<(TrainId, seq<Row>)>, k: PartKey): Option<Partition>
    decreases |gs|
  {
    if gs == [] then prev
    else TrainsContent(TrainWrite(prev, dataset, day, columns, gs[0].0, gs[0].1, k), dataset, day, columns, gs[1..], k)
  }

  /** What file `k` holds after one day's group is stored, given what it held before. */
  function DayContent(prev: Option<Partition>, dataset: string, train: Option<TrainId>, columns: set<string>, group: seq<Row>, k: PartKey): Option<Partition>
    requires group != []
  {
    var day := Day(group[0].ts);
    if !PerTrainRoute(columns, train) then
      if k == PartKey(dataset, Agnostic, day) then Some(Appended(prev, columns, group)) else prev
    else if IsSet(train) then TrainWrite(prev, dataset, day, columns, train.value, group, k)
    else TrainsContent(prev, dataset, day, columns, TrainGroups(group), k)
  }

  /** What file `k` holds after the day groups are stored one after the other. */
  function DaysContent(prev: Option<Partition>, dataset: string, train: Option<TrainId>, columns: set<string>, groups: seq<seq<Row>>, k: PartKey): Option<Partition>
    requires NonEmptyGroups(groups)
    decreases |groups|
  {
    if groups == [] then prev
    else DaysContent(DayContent(prev, dataset, train, columns, groups[0], k), dataset, train, columns, groups[1..], k)
  }

  /** A successful run of per-train appends leaves every file as the appends, taken in turn, make it. */
  lemma {:induction false} StoreTrainsContent(disk: Disk, dataset: string, day: int, columns: set<string>, gs: seq<(TrainId, seq<Row>)>, k: PartKey)
    requires StoreTrains(disk, dataset, day, columns, gs).1.Ok?
    ensures Lookup(StoreTrains(disk, dataset, day, columns, gs).0.entries, k) == TrainsContent(Lookup(disk.entries, k), dataset, day, columns, gs, k)
    decreases |gs|
  {
    if gs != [] {
      var (d, res) := StoreForTrain(disk, dataset, day, gs[0].0, columns, gs[0].1);
      StoreForTrainContent(disk, dataset, day, gs[0].0, columns, gs[0].1, k);
      StoreTrainsContent(d, dataset, day, columns, gs[1..], k);
    }
  }

  /** A successful per-train append writes the train's partition and nothing else. */
  lemma StoreForTrainContent(disk: Disk, dataset: string, day: int, t: TrainId, columns: set<string>, rows: seq<Row>, k: PartKey)
    requires StoreForTrain(disk, dataset, day, t, columns, rows).1.Ok?
    ensures Lookup(StoreForTrain(disk, dataset, day, t, columns, rows).0.entries, k) == TrainWrite(Lookup(disk.entries, k), dataset, day, columns, t, rows, k)
  {
    var d0 := WithTrainIds(disk, [t]);
    assert Lookup(d0.entries, k) == Lookup(disk.entries, k);
    var key := TrainKey(dataset, t, day);
    if k != key {
      assert Unchanged(d0, AppendPartition(d0, key, columns - {TrainColumn}, DropTrain(rows)).0, k);
    }
  }

  /** A successful store of one day's group leaves every file as that day's writes make it. */
  lemma StoreDayContent(disk: Disk, dataset: string, train: Option<TrainId>, columns: set<string>, group: seq<Row>, k: PartKey)
    requires group != [] && StoreDay(disk, dataset, train, columns, group).1.Ok?
    ensures Lookup(StoreDay(disk, dataset, train, columns, group).0.entries, k) == DayContent(Lookup(disk.entries, k), dataset, train, columns, group, k)
  {
    var day := Day(group[0].ts);
    if !PerTrainRoute(columns, train) {
      var key := PartKey(dataset, Agnostic, day);
      if k != key {
        assert Unchanged(disk, AppendPartition(disk, key, columns, group).0, k);
      }
    } else if IsSet(train) {
      StoreForTrainContent(disk, dataset, day, train.value, columns, group, k);
    } else {
      StoreTrainsContent(disk, dataset, day, columns, TrainGroups(group), k);
    }
  }

  /** A successful store of the day groups leaves every file as the days' writes, taken in turn, make it. */
  lemma {:induction false} StoreDaysContent(disk: Disk, dataset: string, train: Option<TrainId>, columns: set<string>, groups: seq<seq<Row>>, k: PartKey)
    requires NonEmptyGroups(groups) && StoreDays(disk, dataset, train, columns, groups).1.Ok?
    ensures Lookup(StoreDays(disk, dataset, train, columns, groups).0.entries, k) == DaysContent(Lookup(disk.entries, k), dataset, train, columns, groups, k)
    decreases |groups|
  {
    if groups != [] {
      var (d, res) := StoreDay(disk, dataset, train, columns, groups[0]);
      StoreDayContent(disk, dataset, train, columns, groups[0], k);
      StoreDaysContent(d, dataset, train, columns, groups[1..], k);
    }
  }

  /** Per-train appends of one day leave the files of other days alone. */
  lemma {:induction false} TrainsContentOtherDay(prev: Option<Partition>, dataset: string, day: int, columns: set<string>, gs: seq<(TrainId, seq<Row>)>, k: PartKey)
    requires k.day != day
    ensures TrainsContent(prev, dataset, day, columns, gs, k) == prev
    decreases |gs|
  {
    if gs != [] {
      TrainsContentOtherDay(prev, dataset, day, columns, gs[1..], k);
    }
  }

  /** Storing one day's group leaves the files of other days alone. */
  lemma DayContentOtherDay(prev: Option<Partition>, dataset: string, train: Option<TrainId>, columns: set<string>, group: seq<Row>, k: PartKey)
    requires group != [] && k.day != Day(group[0].ts)
    ensures DayContent(prev, dataset, train, columns, group, k) == prev
  {
    TrainsContentOtherDay(prev, dataset, Day(group[0].ts), columns, TrainGroups(group), k);
  }

  /** Day groups none of which falls on `k`'s day leave file `k` alone. */
  lemma {:induction false} DaysContentOtherDays(prev: Option<Partition>, dataset: string, train: Option<TrainId>, columns: set<string>, groups: seq<seq<Row>>, k: PartKey)
    requires NonEmptyGroups(groups)
    requires forall j :: 0 <= j < |groups| ==> Day(groups[j][0].ts) != k.day
    ensures DaysContent(prev, dataset, train, columns, groups, k) == prev
    decreases |groups|
  {
    if groups != [] {
      DayContentOtherDay(prev, dataset, train, columns, groups[0], k);
      var tail := groups[1..];
      assert forall j :: 0 <= j < |tail| ==> tail[j] == groups[j + 1];
      DaysContentOtherDays(prev, dataset, train, columns, tail, k);
    }
  }

  /** With one group per day, a file of day `i`'s date holds what that day's group alone writes to it. */
  lemma {:induction false} DaysContentOwnDay(prev: Option<Partition>, dataset: string, train: Option<TrainId>, columns: set<string>, groups: seq<seq<Row>>, i: int, k: PartKey)
    requires NonEmptyGroups(groups) && DaysAscending(groups)
    requires 0 <= i < |groups| && k.day == Day(groups[i][0].ts)
    ensures DaysContent(prev, dataset, train, columns, groups, k) == DayContent(prev, dataset, train, columns, groups[i], k)
    decreases |groups|
  {
    var tail := groups[1..];
    assert forall j :: 0 <= j < |tail| ==> tail[j] == groups[j + 1];
    if i == 0 {
      DaysContentOtherDays(DayContent(prev, dataset, train, columns, groups[0], k), dataset, train, columns, tail, k);
    } else {
      DayContentOtherDay(prev, dataset, train, columns, groups[0], k);
      DaysContentOwnDay(prev, dataset, train, columns, tail, i - 1, k);
    }
  }

  /**
   * After a successful `store`, a file dated on the day of the `i`-th day group holds what that group's
   * writes make of its former content: under `name/` the group appended; under a train's directory the
   * rows of that train appended without `train_id`.
   */
  lemma StoreContent(disk: Disk, data: Frame, dataset: string, train: Option<TrainId>, i: int, k: PartKey)
    requires !IsEmpty(data) && Store(disk, data, dataset, train).1.Ok?
    requires 0 <= i < |DayGroups(data.rows)| && k.day == Day(DayGroups(data.rows)[i][0].ts)
    ensures Lookup(Store(disk, data, dataset, train).0.entries, k) ==
      DayContent(Lookup(disk.entries, k), dataset, train, data.columns, DayGroups(data.rows)[i], k)
  {
    var gs := DayGroups(data.rows);
    DayGroupsOrdered(data.rows);
    StoreDaysContent(disk, dataset, train, data.columns, gs, k);
    DaysContentOwnDay(Lookup(disk.entries, k), dataset, train, data.columns, gs, i, k);
  }

  /** With the trains `gs[m]` alone writing to file `k`, the file gets that train's rows without `train_id`. */
  lemma {:induction false} TrainsContentOne(prev: Option<Partition>, dataset: string, day: int, columns: set<string>, gs: seq<(TrainId, seq<Row>)>, m: int, k: PartKey)
    requires 0 <= m < |gs|
    requires forall j :: 0 <= j < |gs| ==> (TrainKey(dataset, gs[j].0, day) == k <==> j == m)
    ensures TrainsContent(prev, dataset, day, columns, gs, k) == Some(Appended(prev, columns - {TrainColumn}, DropTrain(gs[m].1)))
    decreases |gs|
  {
    var tail := gs[1..];
    assert forall j :: 0 <= j < |tail| ==> tail[j] == gs[j + 1];
    if m == 0 {
      TrainsContentNone(TrainWrite(prev, dataset, day, columns, gs[0].0, gs[0].1, k), dataset, day, columns, tail, k);
    } else {
      TrainsContentOne(prev, dataset, day, columns, tail, m - 1, k);
    }
  }

  /** Per-train appends none of which names file `k` leave it alone. */
  lemma {:induction false} TrainsContentNone(prev: Option<Partition>, dataset: string, day: int, columns: set<string>, gs: seq<(TrainId, seq<Row>)>, k: PartKey)
    requires forall j :: 0 <= j < |gs| ==> TrainKey(dataset, gs[j].0, day) != k
    ensures TrainsContent(prev, dataset, day, columns, gs, k) == prev
    decreases |gs|
  {
    if gs != [] {
      var tail := gs[1..];
      assert forall j :: 0 <= j < |tail| ==> tail[j] == gs[j + 1];
      TrainsContentNone(prev, dataset, day, columns, tail, k);
    }
  }

  /**
   * Grouping a day by `train_id`: a train's partition gets exactly that train's rows of the day, in order and
   * without `train_id`, as long as no other train of the day renders to the same directory name.
   */
  lemma DayContentPerTrain(prev: Option<Partition>, dataset: string, columns: set<string>, group: seq<Row>, t: TrainId)
    requires group != [] && TrainColumn in columns
    requires Filter(group, OfTrain(t)) != []
    requires forall r :: r in group && r.train.Some? && Render(r.train.value) == Render(t) ==> r.train.value == t
    ensures DayContent(prev, dataset, None, columns, group, TrainKey(dataset, t, Day(group[0].ts))) ==
      Some(Appended(prev, columns - {TrainColumn}, DropTrain(Filter(group, OfTrain(t)))))
  {
    var day := Day(group[0].ts);
    var k := TrainKey(dataset, t, day);
    var gs := TrainGroups(group);
    var r0 := Filter(group, OfTrain(t))[0];
    assert r0 in Filter(group, OfTrain(t));
    var m :| 0 <= m < |gs| && gs[m].0 == t && r0 in gs[m].1;
    forall j | 0 <= j < |gs|
      ensures TrainKey(dataset, gs[j].0, day) == k <==> j == m
    {
      if TrainKey(dataset, gs[j].0, day) == k {
        var r := gs[j].1[0];
        assert r in gs[j].1;
      }
    }
    TrainsContentOne(prev, dataset, day, columns, gs, m, k);
  }
}
