# PycassoDB core, modelled in Dafny

PycassoDB is a small time-series pipeline for train sensor data. Components declared in a TOML configuration
read named datasets, compute new ones and write them back. Three pieces make up its framework:

- **The partitioned store** (`StorageManager`). A dataset `name` lives in a folder `name/`. It holds one
  Parquet partition per calendar day, either directly or under one sub-directory per train id. A
  `train_ids.json` catalog lists the trains seen so far. Writes merge into a day's partition, and the last row
  for a timestamp wins. Reads list a directory's partitions within a period, in date order or reversed. They
  concatenate the readable ones up to a row limit, and then clip the result to the period.
- **The watermark store** (`RunnerPersistence`). It maps `component` or `component_train` to the last
  timestamp the component has processed.
- **The scheduler step** (`_run_component_once` and its helpers). It finds a cold-start bound and builds each
  dependency's read window from the watermark and the dependency's frequency, batch size and `before` flag. It
  checks that every dependency has enough data and hands the inputs to the component. It stores the outputs
  and then advances the watermark to the lowest of the inputs' latest timestamps.

The configuration parser, the frequency-to-window function and the pure detection rules round out the core.
The detection rules are stopped motors, thresholds, stop points, trip splitting, the chainsaw cleaning stage,
the outlier ranking and the sensor and missing-value components.

## How the model is laid out

The model follows the source's own form:

- **Folder state.** A folder is a value: a sequence of entries mapping a file path to its content (rows, a
  corrupt partition, or a catalog of train ids). `StorageModel` states, as functions, what each write does to
  it. `StorageQueries` states what each read returns from it.
- **Objects that change state.** `Storage.StorageManager` and `Persistence.RunnerPersistence` are classes
  whose fields the methods reassign. Each method is proved against the functions above. The read loops are
  `while` loops with invariants.
- **The scheduler.** `Runner` models it as functions over explicit parameters: the current time, the
  component's run and a rounding function. Methods over the storage manager are proved equal to those
  functions. Two lookups in `_run_component_once` fail as written (see Findings): the did-run query of the
  cold start and the key each input is stored under. Both are parameters of the run function, so the program
  is stated both as written and as intended. The methods follow the intended program.
- **Pure code.** The pure rules (`Detection`, `Sensors`, `NaValues`, `ChainSaw`, `TripSplit`, `Ranking`,
  `Periods`, `Config`) are functions with lemmas.
- **Shared parts.** `Frames` holds the row and frame values. `Partitions` holds the merge and grouping
  steps. `Time` holds day arithmetic on seconds, and `Text` holds the decimal rendering of train ids. `Seqs`
  holds generic sequence lemmas.

## Model

| member | source | states |
|---|---|---|
| Text.ParseDecimalString | src/framework/storage.py:121-123 | Parsing the decimal text of a train id gives the id back, so `int(train_id)` recovers what the directory name was written from |
| Text.DecimalStringInjective | src/framework/runner_persistence.py:16-24 | Distinct numeric ids render to distinct texts, so distinct trains get distinct directories and keys |
| Text.ParseIntRejects | src/framework/storage.py:226 | `int(s)` refuses a text that, once surrounding whitespace is stripped, is empty, a lone sign, or does not end in a digit |
| Text.ParseIntSpaces | src/framework/storage.py:226 | Whitespace around an integer's decimal text is ignored: `int(" 42\n")` is 42 |
| Text.ParseIntUnderscore | src/framework/storage.py:226 | A single underscore between digit groups is ignored: `int("1_000")` is 1000 |
| Text.ParseIntDoubleUnderscore | src/framework/storage.py:226 | Two underscores in a row are refused |
| Text.ParseIntLeadingUnderscore | src/framework/storage.py:226 | An underscore before the first digit, with or without a sign, is refused |
| Text.ParseIntLetter | src/framework/storage.py:226 | A letter anywhere in the stripped text is refused |
| Time.DayOfTimestamp | src/framework/storage.py:152 | Every timestamp lies at or after its day's midnight and before the next midnight: `floor("d")` picks the day that holds it |
| Time.MidnightNotBefore | src/framework/storage.py:181 | A day's midnight is at or after a start exactly when the day begins after the start's day, or the start is that midnight |
| Frames.AsInt | src/framework/storage.py:226 | `int(train_id)` of a numeric id is the id itself. A text id succeeds exactly when Python's `int` syntax accepts it (whitespace, a sign, digits with single underscores) and gives its value; otherwise ValueError |
| Frames.AsIntRendered | src/framework/storage.py:226 | A text id holding an integer's decimal text, with any whitespace around it, converts to that integer |
| Frames.Concat | src/framework/storage.py:19 | `pd.concat` appends the rows in order and unites the columns. The result keeps a time index when the non-empty operands have one |
| Frames.TagTrain | src/framework/storage.py:226 | Every row gets the given id in `train_id`; timestamps, other values and the order stay |
| Frames.MinStamp | src/framework/storage.py:264 | `index.min()` is a timestamp of the rows and at most every other one |
| Frames.MaxStamp | src/framework/storage.py:282 | `index.max()` is a timestamp of the rows and at least every other one |
| Frames.MaxIndex | src/framework/runner.py:151-155 | The index maximum of a frame is None (NaN) exactly when the frame is empty, and otherwise its largest timestamp |
| Partitions.KeepLastSurvivor | src/framework/storage.py:88 | `~index.duplicated(keep="last")` keeps a row when no later row has its timestamp: the newest write wins |
| Partitions.KeepLastOnlyLast | src/framework/storage.py:88 | Every row that is kept is the last one with its timestamp |
| Partitions.KeepLastUnique | src/framework/storage.py:88 | A batch whose timestamps are already distinct is left as it is |
| Partitions.KeepLastConcat | src/framework/storage.py:84-88 | Merging a batch into existing rows keeps the existing rows whose timestamps the batch lacks, followed by the batch's last row per timestamp |
| Partitions.MergeTwice | src/framework/storage.py:84-88 | Merging the same batch again into a partition it was merged into changes nothing |
| Partitions.MergeIntoItself | src/framework/storage.py:84-88 | Merging a batch into a copy of itself keeps only its last row per timestamp |
| Partitions.DayRun | src/framework/storage.py:152 | The leading run of rows on one day lies on that day and stops at the first row on another day |
| Partitions.DayGroups | src/framework/storage.py:152 | `groupby(index.floor("d"))` makes non-empty groups, each on one day, that concatenate back to the rows |
| Partitions.DayGroupsOrdered | src/framework/storage.py:152 | On time-sorted rows, each day forms exactly one group, and the groups come in ascending day order |
| Partitions.TrainGroups | src/framework/storage.py:129 | `groupby("train_id")` makes one non-empty group per train present. Each group is exactly that train's rows, in their order and with their repetitions. No train gets two groups. Rows without a train are dropped |
| Partitions.FilterOtherTrain | src/framework/storage.py:129 | Setting aside one train's rows leaves the rows of every other train as they were |
| Partitions.GroupsCons | src/framework/storage.py:129 | The first row's train gets the group of all its rows, in front of the groups of the other trains |
| StorageModel.Lookup | src/framework/storage.py:83-84 | A file exists exactly when some entry names it, and looking it up finds that entry's content |
| StorageModel.Catalog | src/framework/storage.py:311-315 | The catalog never lists an id twice |
| StorageModel.WithTrainIds | src/framework/storage.py:59-78 | Only the catalog file can change: every partition stays as it was |
| StorageModel.WithTrainIdsCatalog | src/framework/storage.py:59-78 | The catalog only grows: every known id stays, exactly the new ones are added, and a file that was there stays (the model writes the old ids first; see Left out) |
| StorageModel.AppendPartition | src/framework/storage.py:80-90 | Only the named partition can change. A corrupt existing partition gives an error and nothing changes. Otherwise an existing partition holds the merge and a new one holds the batch. File names stay unique |
| StorageModel.AppendUnchanged | src/framework/storage.py:80-90 | Appending to a partition that already equals its merge with the batch changes nothing |
| StorageModel.AppendTwice | src/framework/storage.py:80-90 | Appending the same batch twice equals appending it once exactly when the partition existed or the batch's timestamps are distinct |
| StorageModel.NewPartitionKeepsDuplicates | src/framework/storage.py:83-90 | A batch written to a new partition keeps its repeated timestamps, because only the merge path drops duplicates |
| StorageModel.ValidateIndex | src/framework/storage.py:92-103 | ValueError exactly when the index is not a DatetimeIndex or not sorted ascending |
| StorageModel.Store | src/framework/storage.py:132-159 | An empty frame writes nothing, and a bad index gives ValueError before anything is written |
| StorageModel.StoreWritesOwnDays | src/framework/storage.py:149-159 | `store` writes a row only to its own day's partition, under `name/`, or under its train's directory when trains are routed |
| StorageModel.StoreKeepsWellFormed | src/framework/storage.py:132-159 | `store` keeps file names unique, and every readable partition non-empty and holding only its own day's rows |
| StorageModel.StoreCatalogGrows | src/framework/storage.py:120 | The catalog is add-only: `store` never drops a known train id (the model keeps the old ids as a prefix; see Left out) |
| StorageModel.StoreTrainsContent | src/framework/storage.py:112-130 | After successful per-train appends, each file holds what the appends, taken in turn, make of its former content |
| StorageModel.StoreDayContent | src/framework/storage.py:149-159 | After one day's group is stored, each file holds what that day's writes make of its former content |
| StorageModel.StoreDaysContent | src/framework/storage.py:149-159 | After all day groups are stored, each file holds what the days' writes, taken in turn, make of its former content |
| StorageModel.DaysContentOwnDay | src/framework/storage.py:149-159 | With one group per day, a file dated on a group's day holds only what that group writes to it |
| StorageModel.StoreContent | src/framework/storage.py:132-159 | After a successful `store`, a file on a day group's date holds its former content merged with that group under `name/`. In a train's directory it holds its former content merged with that train's rows of the day, without `train_id`. Any other file of that date keeps its content |
| StorageModel.DayContentPerTrain | src/framework/storage.py:112-130 | Grouped by `train_id`, a train's partition for the day receives exactly that train's rows of the day, in order and without `train_id`, when no other train of the day renders to the same directory name |
| StorageModel.StoreTwice | src/framework/storage.py:132-159 | Storing a batch with distinct timestamps under `name/` a second time changes nothing (idempotent writes) |
| StorageQueries.ListFiles | src/framework/storage.py:161-188 | The listing holds exactly the directory's partitions within the period, sorted by date, reversed when `invert`. An agnostic listing of a dataset split into train directories fails |
| StorageQueries.ListingSkipsStartDay | src/framework/storage.py:173-182 | The partition of the day of a start that is not a midnight is never listed, because the file date is that day's midnight |
| StorageQueries.ReadRowsContent | src/framework/storage.py:15-26 | With a limit of None or 0 all readable rows are read. With a positive limit exactly the first `limit` of them are read. Corrupt partitions are skipped |
| StorageQueries.SliceWithPeriod | src/framework/storage.py:190-201 | Without a period, or for a frame not on a RangeIndex, the frame is returned as it is. An open end fails. Otherwise the result is exactly the rows whose position lies in the period, in order |
| StorageQueries.ReadDirRows | src/framework/storage.py:203-215 | A directory read is the readable listed partitions' rows in listing order, cut to a positive limit |
| StorageQueries.TrainFramesTagged | src/framework/storage.py:224-227 | Every row of the all-trains union comes from the initial frame or carries the integer id of one of the trains read |
| StorageQueries.TrainFramesContent | src/framework/storage.py:224-227 | The loop fails exactly when some train's read or id conversion fails. Otherwise it appends, in catalog order, each train's own read rows, tagged with its integer id |
| StorageQueries.SliceKeepsSorted | src/framework/storage.py:190-201 | The period slice of a time-sorted frame is time-sorted, no longer, and holds only its own rows |
| StorageQueries.SortedCut | src/framework/storage.py:229-234 | Sorting the union and keeping the first `limit` rows gives time-sorted rows of the union. Without a limit, it keeps every row of the union as often as it occurs |
| StorageQueries.ForAllTrainsShape | src/framework/storage.py:217-236 | The all-trains read is sorted by time and at most a positive `limit` long. Each row carries the integer id of a catalog train |
| StorageQueries.ForAllTrainsContent | src/framework/storage.py:217-236 | The all-trains read is the union of every catalog train's tagged rows, sorted by time and cut to a non-zero `limit`. Only a RangeIndex frame read over a window is then clipped, to a run of those rows from the window's start position |
| StorageQueries.FirstIsMinimum | src/framework/storage.py:248-264 | The first timestamp is the smallest timestamp stored in the directory, or `datetime.max` for an empty one |
| StorageQueries.LastIsMaximum | src/framework/storage.py:266-282 | The last timestamp is the largest timestamp stored in the directory, or `datetime.min` for an empty one |
| StorageQueries.SufficientWithoutAmount | src/framework/storage.py:284-290 | With `amount` None or 0 the answer is "ready", unless an error occurs |
| StorageQueries.SufficientCountsRows | src/framework/storage.py:284-309 | Without corrupt partitions, "ready" means exactly that the partitions dated from the first midnight at or after `t` hold at least `amount` rows |
| StorageQueries.RowCountSort | src/framework/storage.py:184-186 | The order a listing is read in does not change how many rows it holds |
| StorageQueries.SinceFilesMonotone | src/framework/storage.py:173-182 | A listing from an earlier start holds every partition of one from a later start |
| StorageQueries.SufficientMonotone | src/framework/storage.py:284-309 | Readiness is monotone in the start: ready from `t` means ready from any earlier `t'` |
| Storage.ReadRowsFromFiles | src/framework/storage.py:15-26 | The loop reads the readable files in order and stops at `limit`. Its result is the row prefix of the read function |
| Storage.CountRowsSince | src/framework/storage.py:292-309 | The loop counts rows file by file and stops at the threshold. Its answer is the one of the readiness function |
| Storage.ReadTrainDir | src/framework/storage.py:203-215 | Reads a train's directory as `get_for_train` does, leaving the folder alone |
| Storage.AddTrainRows | src/framework/storage.py:225-227 | One pass of the all-trains loop: the train's rows, tagged with its integer id, appended to the union |
| Storage.ReadEachTrain | src/framework/storage.py:224-227 | The loop over the catalog gives the union that the all-trains function describes, or the first id that fails `int` |
| Storage.StorageManager.constructor | src/framework/storage.py:55-57 | A manager over a folder starts without a cached catalog |
| Storage.StorageManager.UpdateTrainIds | src/framework/storage.py:59-78 | The folder becomes the catalog update of the old folder, and the cache holds the merged ids |
| Storage.StorageManager.RetrieveTrainIds | src/framework/storage.py:311-315 | Returns the catalog, each id once, and leaves the folder unchanged |
| Storage.StorageManager.AppendDfToParquet | src/framework/storage.py:80-90 | The folder becomes the append of the batch to the named partition |
| Storage.StorageManager.StoreForTrainId | src/framework/storage.py:115-124 | Drops the `train_id` column, records the train in the catalog and appends to the train's day partition |
| Storage.StorageManager.StorePerTrain | src/framework/storage.py:112-130 | A truthy train id stores the whole group under it. Otherwise each train group is stored under its own train |
| Storage.StorageManager.Store | src/framework/storage.py:132-159 | The new folder is the one the store function gives for the old folder, and errors are the same |
| Storage.StorageManager.GetForTrain | src/framework/storage.py:203-215 | The rows of the train's directory read within the period and limit, then sliced. The folder is unchanged |
| Storage.StorageManager.GetForAgnostic | src/framework/storage.py:238-246 | The same read on `name/` itself |
| Storage.StorageManager.GetForAllTrains | src/framework/storage.py:217-236 | Reads every catalog train, tags, sorts, cuts to `limit` and slices, as the all-trains function gives |
| Storage.StorageManager.GetFirstTimestamp | src/framework/storage.py:248-264 | Returns the first timestamp of the directory, which the lemma above shows is its minimum |
| Storage.StorageManager.GetLastTimestamp | src/framework/storage.py:266-282 | Returns the last timestamp of the directory, which the lemma above shows is its maximum |
| Storage.StorageManager.HasSufficientDataSince | src/framework/storage.py:284-309 | Answers as the readiness function does, counting the rows from `t` on until `amount` is reached |
| Persistence.Key | src/framework/runner_persistence.py:16-32 | The key is the component name alone when the train id is falsy, and the component name followed by more text otherwise |
| Persistence.FalsyTrainIsGlobal | src/framework/runner_persistence.py:16-32 | A train id of 0, "" or none shares the component's global watermark |
| Persistence.KeysCollide | src/framework/runner_persistence.py:16-32 | Component `a_b` without a train and component `a` for train `b` share one watermark |
| Persistence.NumericKeysDistinct | src/framework/runner_persistence.py:16-32 | Two numeric train ids of one component share a key only when they are the same id |
| Persistence.WatermarkAfterRegister | src/framework/runner_persistence.py:16-32 | Registering overwrites the key's watermark, even with an earlier time, and every other key reads as before |
| Persistence.RunnerPersistence.constructor | src/framework/runner_persistence.py:7-14 | Loads the stored map when the file exists, and otherwise starts empty |
| Persistence.RunnerPersistence.RegisterLastTimestamp | src/framework/runner_persistence.py:16-24 | The map gains the key's new timestamp, and the file then holds the whole map |
| Persistence.RunnerPersistence.GetLastTimestamp | src/framework/runner_persistence.py:26-32 | Returns the watermark of the key, or `datetime.min`, and changes nothing |
| Persistence.RunnerPersistence.GetDidRun | src/framework/runner.py:228 | The did-run query the cold start makes, which the class as written lacks (see Findings): as intended, true exactly when a watermark is stored under the key |
| Config.Get | src/framework/config.py:45-62 | A key is found exactly when the table has it, and what is found is stored under that key |
| Config.ParseDependency | src/framework/config.py:8-20 | A value that is not a table, an unknown field or a missing `component` gives TypeError. A parsed dependency keeps the given component, batch size, frequency and flags |
| Config.ParseDependencies | src/framework/config.py:49-54 | Every dependency is parsed in order, and the first failure ends the list |
| Config.DependencyItems | src/framework/config.py:49-54 | A list yields its items, and an empty string or table yields nothing |
| Config.ParseComponent | src/framework/config.py:43-64 | A parsed component carries the name it is declared under and comes from a table |
| Config.ParseComponentFields | src/framework/config.py:41-66 | A table without `class` fails with KeyError once its dependencies parse. A parsed component keeps its fields and defaults |
| Config.ParseComponents | src/framework/config.py:41-66 | The loop fills the shared dictionary table by table. It gives the parse function's result, and an error stops it |
| Config.ParseFromStep | src/framework/config.py:43-64 | One step puts the first table's descriptor under its name, after the ones before it |
| Config.ParseFromOk | src/framework/config.py:41-66 | Parsing fails exactly when some component table fails to parse |
| Config.ParseFromNames | src/framework/config.py:41-66 | The parsed dictionary holds exactly the declared names, and what it started with |
| Config.ParseFromEntry | src/framework/config.py:41-66 | A component declared once is parsed from its own table |
| Config.ParseFromKeeps | src/framework/config.py:41-66 | A name that no later table declares keeps the descriptor it already has |
| Config.GetComponent | src/framework/config.py:17-20 | The dependency's component is looked up in the shared dictionary, and None when it is absent |
| Config.ResolvesAnyDeclared | src/framework/config.py:17-20 | The lookup happens after parsing, so a dependency resolves any declared component, even one declared after it |
| Config.ComponentDefaults | src/framework/config.py:23-31 | A table with only `class` gets one output, per train, run per train and no dependencies |
| Config.DependencyDefaults | src/framework/config.py:8-16 | A table with only `component` gets no batch size, no frequency, no all-trains read and not `before` |
| Config.ParseConfig | src/framework/config.py:69-79 | The components are parsed, then the globals with their defaults; a bad component fails the whole configuration |
| Config.GlobalsDefaults | src/framework/config.py:69-79 | An empty `globals` table falls back to "data" and "data/persistence.json"; a missing one raises KeyError |
| Periods.UnitOf | src/framework/period.py:21-27 | The unit letter is found for exactly the four letters of the unit table |
| Periods.UnitSeconds | src/framework/period.py:29-34 | The length of one unit is positive and a whole number of hours |
| Periods.ParseFrequencyString | src/framework/period.py:16-20 | Reading a written-out frequency gives it back (round trip) |
| Periods.RoundHalfEvenNearest | src/framework/period.py:40 | Rounding to an hour or a day gives a multiple of the unit at most half a unit away, and a tie goes to the even multiple |
| Periods.RoundAligned | src/framework/period.py:40 | A timestamp that is a multiple of the unit rounds to itself |
| Periods.BuildPeriod | src/framework/period.py:6-59 | An unknown unit or a failed rounding gives that error, and otherwise the window around the rounded timestamp (see the two lemmas below) |
| Periods.BackwardWindow | src/framework/period.py:46-53 | Read backwards, the window ends at the rounded timestamp and spans `count` units, or starts unbounded when that would underflow |
| Periods.ForwardWindow | src/framework/period.py:54-56 | Read forwards, the window starts at the rounded timestamp and spans exactly `count` units |
| Periods.RoundsToOneUnit | src/framework/period.py:37-40 | Rounding is to one unit, not the whole period: "2h" keeps an odd hour as the window end |
| Runner.DependencyName | src/framework/runner.py:125-140 | A current input is handed over under its component's name, and a past window under a different name |
| Runner.BeforeNameDistinct | src/framework/runner.py:140 | The current and the past windows of one source reach the component under different names |
| Runner.EarliestStep | src/framework/runner.py:229-241 | One step of the cold-start fold keeps the smaller of the bound and the dependency's first timestamp, and a missing one adds nothing |
| Runner.EarliestIsLowerBound | src/framework/runner.py:214-242 | The cold-start bound is at most every dependency's first timestamp, including `before` ones |
| Runner.EarliestIsAttained | src/framework/runner.py:214-242 | The cold-start bound is the starting value or the first timestamp of one of the dependencies |
| Runner.RanBeforeNoColdStart | src/framework/runner.py:221-228 | With the did-run query as intended (see Findings), once a watermark exists for the component and train there is no cold-start bound, so the watermark is used |
| Runner.NeverRanColdStart | src/framework/runner.py:221-242 | With the did-run query as intended, a component that never ran for the train takes the earliest first timestamp over its dependencies, with the catalog loaded first |
| Runner.WrittenStartFails | src/framework/runner.py:95-97 | As written, every run raises AttributeError at the did-run query of line 228, whatever the dependencies (none included), before its loop: nothing is stored and no watermark moves |
| Runner.WindowAroundBound | src/framework/runner.py:110-115 | Without a frequency, past data is read from `Timestamp.min` up to the bound, and current data from one second after it up to now |
| Runner.FrequencyWindow | src/framework/runner.py:120-123 | With a frequency the window is the period built from the bound, whatever `before` would otherwise give |
| Runner.AnySufficientExists | src/framework/runner.py:42-51 | Without errors, some train has enough data exactly when the search finds one |
| Runner.ReadyForTrain | src/framework/runner.py:37-60 | With a train, readiness is the count in that train's directory, whether or not the dependency reads all trains |
| Runner.LowestWatermark | src/framework/runner.py:174-177 | `min(max_timestamps)` is the smallest candidate when all are known. It gives AttributeError when none is known and TypeError when only some are |
| Runner.GatherStep | src/framework/runner.py:100-155 | One pass of the dependency loop, unfolded: the window, the readiness, the fetch and the candidate |
| Runner.WrittenGatherFails | src/framework/runner.py:140 | As written, the loop fails on the first dependency once its readiness is checked and its data read |
| Runner.WrittenNeverRuns | src/framework/runner.py:63-177 | With the did-run query corrected but the input keying as written, a component with at least one dependency still never runs: every run ends in an error, and nothing is stored or registered |
| Runner.GatherReadiness | src/framework/runner.py:131-138 | The component is to run exactly when every dependency is ready |
| Runner.GatherNotBefore | src/framework/runner.py:151-153 | The loop records whether some dependency is not `before` |
| Runner.StepCandidate | src/framework/runner.py:151-155 | One pass adds that dependency's candidate |
| Runner.GatherCandidates | src/framework/runner.py:151-155 | One candidate per dependency that is not `before`: its window end, or its data's latest timestamp |
| Runner.CandidatesOfBefore | src/framework/runner.py:151-155 | Dependencies that are all `before` give no candidate |
| Runner.GatherNames | src/framework/runner.py:140 | With the intended names, every dependency's input reaches the component under its name, and earlier inputs stay |
| Runner.RunOnceAfterLoop | src/framework/runner.py:157-177 | Once the bound and the loop succeed, the assertion fails exactly when a dependency exists but none is current |
| Runner.NotReadyNoEffect | src/framework/runner.py:131-138 | When a dependency is not ready, nothing is stored and no watermark moves |
| Runner.FinishRegistered | src/framework/runner.py:161-177 | A registered watermark comes from a run that stored everything, and it is the lowest of the known candidates |
| Runner.RegisteredAfterLoop | src/framework/runner.py:157-177 | A watermark is registered only by a run whose loop succeeded and found the component ready |
| Runner.RegisteredIsLowestCandidate | src/framework/runner.py:157-177 | A registered watermark is the smallest candidate, and every candidate is a known timestamp |
| Runner.NoCandidateNoWatermark | src/framework/runner.py:157-177 | Without a dependency that is not `before`, no watermark is ever written |
| Runner.EarliestTimestamp | src/framework/runner.py:225-240 | The loop over the dependencies gives the cold-start fold, one first-timestamp query each |
| Runner.StartingTimestamp | src/framework/runner.py:214-242 | Gives the cold-start function with the did-run query as intended: no bound once a watermark exists, otherwise the smallest first timestamp over the dependencies |
| Runner.AnyTrainSufficient | src/framework/runner.py:45-58 | The search over catalog trains gives the search function's answer |
| Runner.ShouldRun | src/framework/runner.py:28-60 | Readiness per train, per all trains or per agnostic folder, as the readiness function gives |
| Runner.FetchDependency | src/framework/runner.py:180-211 | The read that `_get_data_from_dependency` makes: the train's, all trains' or the agnostic folder's rows |
| Runner.GatherDependencies | src/framework/runner.py:100-155 | The loop over dependencies gives the gather function with the intended names |
| Runner.StoreOutputs | src/framework/runner.py:166-172 | Stores each returned frame in turn. The first failure ends it, as the store fold gives |
| Runner.FinishRun | src/framework/runner.py:161-177 | Stores the outputs, then registers the lowest candidate when one is known |
| Runner.RunComponentOnce | src/framework/runner.py:63-177 | The folder, the result and the watermarks are those the run function gives for the old state, with the did-run query and the input names as intended |
| Runner.RunAllKeys | src/framework/runner.py:245-263 | A pass moves only the watermarks of the component for the trains it ran |
| Runner.FailedRunEndsPass | src/framework/runner.py:245-263 | A pass whose run fails stops there, and later trains are not run |
| Runner.RunPass | src/framework/runner.py:245-263 | One pass over the catalog trains (or the single agnostic run) gives the pass function |
| Detection.Present | src/mining/outliers_detection.py:15-24 | The columns are read in order, and the first one missing gives KeyError |
| Detection.Ordered | src/mining/outliers_detection.py:15-24 | A column can be compared against a number exactly when it is present and every value in it is orderable. Otherwise the error comes first |
| Detection.StoppedMotorsShape | src/mining/outliers_detection.py:4-42 | The labelled frame keeps every row and value and only adds the label columns |
| Detection.MotorStates | src/mining/outliers_detection.py:15-24 | Per motor, exactly one holds at a time: stopped, faulty RPM, faulty oil pressure, or neither |
| Detection.EcoModeIsOneMotor | src/mining/outliers_detection.py:27-40 | The train is stopped when both motors are, and in eco mode when exactly one is, never both |
| Detection.StationOrWorkshop | src/mining/outliers_detection.py:29-37 | A stopped train is at a station exactly when it is a "Station" within 1000 m, and in a workshop exactly when `stop_distance` is above 1000 m, whatever its classification; never both |
| Detection.CheckColumns | src/mining/outliers_detection.py:45-66 | The checks pass exactly when every input column is present and orderable against its bound |
| Detection.CheckRowLabels | src/mining/outliers_detection.py:45-58 | A label holds exactly where its input is above its bound |
| Detection.CheckRowStamps | src/mining/outliers_detection.py:45-66 | Labelling leaves each row's timestamp and train id alone |
| Detection.CheckRowKeeps | src/mining/outliers_detection.py:45-66 | Columns other than the labels keep their values |
| Detection.CheckedShape | src/mining/outliers_detection.py:45-66 | A threshold labelling keeps every row and value and only adds its labels |
| Detection.CoolingThresholds | src/mining/outliers_detection.py:45-58 | Overheating is strictly above 100 for water, 115 for oil and 65 for air |
| Detection.SpeedTooHigh | src/mining/outliers_detection.py:61-66 | `speed_too_high` holds exactly where the speed is above 120 |
| Detection.ThresholdIgnored | src/mining/outliers_detection.py:69-74 | The threshold passed makes no difference, because it is overwritten with 500 |
| Detection.StopLabels | src/mining/outliers_detection.py:69-86 | At a station means a "Station" closer than 500 m. At a stop point means another type closer than 100 m, so never both. Not moving holds exactly when the `speed` value is below 1 and the train is at a station or a stop point |
| Detection.TrainStoppedShape | src/mining/outliers_detection.py:69-86 | The stop labelling keeps every row and value and only adds its three labels |
| Sensors.FaultyIsMismatch | src/mining/outliers_detection.py:15-24 | A row gets a faulty label exactly when, for some motor, one of oil pressure and RPM reads zero and the other does not |
| Sensors.OilPressureNotMatchingRpmRows | components/sensors/rpm_and_oil.py:8-13 | The component keeps exactly the rows with such a mismatch, in order, labelled |
| Sensors.TrainTooFastRows | components/sensors/speed.py:8-13 | The component returns, sorted by time, exactly the rows of its first input whose speed is above 120 |
| NaValues.NotApplicableCount | components/na_values.py:7-15 | Exactly the rows with a missing value, in their order and each as many times as in the source, with index and columns kept |
| NaValues.NotApplicableCountKeeps | components/na_values.py:7-15 | Rows without a missing value are all dropped, and each row with one is kept |
| ChainSaw.NonZeroIsOneFilter | components/preprocess/chainsaw_processing.py:42-43 | The filters over the sensor columns are one filter asking for all of them |
| ChainSaw.ProcessIsOneFilter | components/preprocess/chainsaw_processing.py:9-45 | The stage keeps exactly the rows of the sorted, annotated input that pass every test, in order |
| ChainSaw.KeptHasGap | components/preprocess/chainsaw_processing.py:18-24 | A kept row sits between one second and thirty minutes (exclusive) after its predecessor |
| ChainSaw.ProcessKeeps | components/preprocess/chainsaw_processing.py:9-45 | Kept rows pass the gap, the speed and the sensor tests. The first row is never kept, so a non-empty input loses a row |
| ChainSaw.FirstDropped | components/preprocess/chainsaw_processing.py:18-24 | The first row of the sorted input has no gap and is always dropped |
| ChainSaw.ProcessSelects | components/preprocess/chainsaw_processing.py:9-45 | The result is an order-preserving selection of the annotated sorted input |
| ChainSaw.GapBeforeFiltering | components/preprocess/chainsaw_processing.py:18-24 | The gap is measured in the full sorted input, before any row is dropped |
| TripSplit.FindTripSplits | src/mining/trip_split.py:9-45 | An empty frame gives one trip with no ends |
| TripSplit.CutsFrom | src/mining/trip_split.py:28-39 | Exactly the positions whose gap to the predecessor exceeds the threshold, in increasing order |
| TripSplit.FindIsTrips | src/mining/trip_split.py:9-45 | For a non-empty frame the result is the trips of its sorted timestamps |
| TripSplit.TripsByPosition | src/mining/trip_split.py:28-45 | There is one trip more than there are long gaps. Trip `k` runs from the stamp after cut `k-1` to the stamp before cut `k` |
| TripSplit.TripsCover | src/mining/trip_split.py:28-45 | The first trip starts at the earliest stamp, the last ends at the latest, and each starts no later than it ends |
| TripSplit.TripsSeparated | src/mining/trip_split.py:28-45 | The next trip starts more than the threshold after this one ends |
| TripSplit.NoGapInside | src/mining/trip_split.py:28-45 | No gap longer than the threshold lies inside a trip |
| TripSplit.OneTrip | src/mining/trip_split.py:28-45 | When no two consecutive stamps are more than the threshold apart, the whole frame is one trip |
| Ranking.ModeOf | src/framework/outliers.py:22-35 | The three supported modes by name; any other name gives ValueError |
| Ranking.ModeRoundTrip | src/framework/outliers.py:22-35 | Every mode is found under its own name, and only there |
| Ranking.WithOneIdentity | src/framework/outliers.py:52-58 | With `y = 1`, multiplication and exponentiation leave a value as it is, and addition adds one |
| Ranking.Annotate | src/framework/outliers.py:52-58 | Every row is annotated, in order, exactly when each row's intensity can be computed |
| Ranking.WithIntensity | src/framework/outliers.py:52-58 | An intensity column the frame lacks gives KeyError, and without a column every row counts 1 |
| Ranking.TotalsFacts | src/framework/outliers.py:65-67 | One sum per train with a row, no other train, and each sum is that train's total |
| Ranking.SortDescFacts | src/framework/outliers.py:68 | Sorting gives a descending list with the same entries and the same total |
| Ranking.Ranking | src/framework/outliers.py:38-69 | None exactly when the frame has no `train_id` column |
| Ranking.RankingSums | src/framework/outliers.py:38-69 | One entry per train with a row, sorted by summed intensity, largest first. Each entry is its train's sum |
| Ranking.RankingCounts | src/framework/outliers.py:60-69 | Without an intensity column the ranking counts each train's outlier rows |
| Ranking.SameTrains | src/framework/outliers.py:52-58 | Annotating rows does not move them between trains |
| Ranking.FrameRef.constructor | src/framework/outliers.py:38-51 | Wraps the caller's frame |
| Ranking.ComputeRanking | src/framework/outliers.py:38-69 | Writes the `intensity` column into the caller's frame and returns the ranking of the original frame |
| Outliers.LastThirtyDays | src/framework/outliers.py:179-191 | The window is `(m - 30 days, m)` for the latest last timestamp `m` over the catalog trains. It is None when a read raises a ValueError, when there is no timestamp, or when the start would fall before pandas' earliest timestamp |
| Outliers.NoFilesNoWindow | src/framework/outliers.py:179-191 | When every catalog train reads `datetime.min` (no files yet), the start is out of pandas' range, the error is caught and there is no window |
| Outliers.LastThirtyDaysWindow | src/framework/outliers.py:179-191 | A window is exactly 30 days long, starts within pandas' timestamp range, and ends at the latest last timestamp, which some catalog train has |
| Outliers.NoTrainsNoWindow | src/framework/outliers.py:179-191 | Without catalog trains there is no window |
| Outliers.Latest | src/framework/outliers.py:186-188 | The loop over the trains gives the latest last timestamp, or the first error |
| Outliers.Last30Days | src/framework/outliers.py:179-191 | Reads the catalog and every train's last timestamp, leaves the folder alone and returns the window function's answer |
| Outliers.RankFrom | src/framework/outliers.py:150-176 | The loop's result, built step by step: the rankings in component order, or the first error |
| Outliers.WindowShared | src/framework/outliers.py:150-176 | Once a window is known, each component's ranking is its ranking over that same window |
| Outliers.FirstWindowReused | src/framework/outliers.py:160-170 | Without a given period, the window found for the first component is the one every later component uses |
| Outliers.PrependStep | src/framework/outliers.py:160-172 | One pass moves a ranking from the fold into the collected rankings, or ends the fold with its error |
| Outliers.RankStep | src/framework/outliers.py:160-172 | One pass of the loop over the storage manager gives the step function |
| Outliers.RankingForComponents | src/framework/outliers.py:150-176 | The rankings in component order, before decay and combining, as the fold gives; the folder is unchanged |

## Left out

- The folder is modelled as values, not a file system. Parquet and JSON serialisation, directory creation,
  and file names as paths are abstracted. A partition is either rows or corrupt (`ArrowInvalid`).
- Loading the configuration from a file, `run_pipeline`, the lock, the worker processes, the endless
  `_run_component_for_ever` loop and its `sleep` are not modelled. `RunPass` is one pass of that loop.
- Component instantiation (`importlib` and the user's `run`) is a parameter of the scheduler, since it is
  code outside the core.
- The current time is a parameter. The source calls `pd.Timestamp.now()` once per dependency. The model
  uses one `now` for every dependency of a run, and `RunPass` hands the same `now` to every run of a pass.
- Timestamps are whole seconds. Nanosecond precision and time zones are not modelled.
- Floating point is not modelled. The chainsaw speed bounds `1 / 3.6` and `100 / 3.6` are exact
  rationals, and trip thresholds are real minutes.
- Periods.BuildPeriod: week and month rounding (`round("w")`, `round("m")`) is a parameter, because pandas
  rejects or anchors these non-fixed frequencies in ways not modelled here.
- Runner.StartingTimestamp: a dependency whose first timestamp is missing (NaT) is skipped, not compared. It
  and the other step-by-step runner methods model the program with the did-run query and the input names as
  intended. The program as written is stated by Runner.WrittenStartFails (see Findings).
- Runner.RanBeforeNoColdStart: states the cold start with the did-run query as intended. As written, the query
  raises AttributeError (Runner.WrittenStartFails).
- Runner.RunComponentOnce: models the run with the did-run query and the input names as intended. As written,
  every run raises AttributeError at its cold start (Runner.WrittenStartFails).
- Error kinds are approximate. A Python exception is one error value per kind.
- Sorting is stable everywhere (`sort_index`, `sort_values`, `files.sort`). pandas' default quicksort may
  order ties differently.
- Set enumeration order is the catalog's file order. Python gives no order to a set. Properties that name an
  order of trains (the all-trains union before its sort, the runs of a pass, the catalog prefix below) state it
  for that file order. Everything else holds for any order, given each id once.
- StorageModel.WithTrainIds: the rewritten catalog is modelled as the old ids followed by the new ones. The
  source writes `list(self._cached_train_ids)`, in Python's set order, which may interleave them.
- StorageModel.WithTrainIdsCatalog: its prefix clause (`Extends`) is about the modelled order only. What holds
  of the source is that every old id stays and exactly the new ones are added.
- StorageModel.StoreCatalogGrows: the prefix it states is the modelled order. What holds of the source is that
  no known id is dropped.
- `groupby` is modelled in order of first appearance, not sorted by key. The properties proved hold for
  either order.
- Ranking.WithIntensity: a text or duration intensity value is treated as an error of the sum, not as
  pandas' concatenation or duration arithmetic.
- Ranking.WithOneIdentity: the intensity mode is only ever applied with `y = 1`, as the source does. Other
  second arguments are not modelled.
- Outliers.LastThirtyDays: a missing (NaT) last timestamp is ignored rather than compared by `max`.
- Outliers.RankingForComponents: the decayed ranking and `combine_rankings` that follow the loop are not
  modelled. The result is the list of per-component rankings before they are combined.
- Config.ParseDependency: a `batch_size` that is not an integer, a `frequency` that is not a string, or a
  `component` that is not a string gives TypeError when parsed. The dataclass stores any value unchecked, so the source fails only later, where the
  value is used.
- Config.ParseConfig: a `storage_folder` or `runner_persistence` that is not a string gives TypeError when
  parsed. The source stores it and fails only when the value is used as a path.
- Frames.AsInt: only ASCII decimal digits are digits. Python's `int` also accepts other Unicode decimal digits.
- Text.ParseIntRejects: a text of non-ASCII decimal digits is refused here, though Python's `int` reads it.
- Logging and printing are left out.
- The machine-learning components (k-means, DBSCAN, neural network, random forest, Prophet), the moving
  averages, `data_cleaning`, `data_enriching`, `surgeon_processing`, `fluid_temperature`, the web interface
  and `main*.py` are not part of this model.

## Findings

| source | as written | input that shows it | evidently intended | confidence | as-written member | corrected member |
|---|---|---|---|---|---|---|
| src/framework/runner.py:228 | `runner_persistence.get_did_run(...)` calls a method that `RunnerPersistence` (runner_persistence.py:8-32) does not define. The cold start at runner.py:95 runs before the dependency loop on every run, so every run raises AttributeError | any component, with or without dependencies | the cold start asks whether a watermark is stored for the component and train, and otherwise takes the earliest first timestamp of the dependencies | not executed | Runner.WrittenStartFails | Persistence.RunnerPersistence.GetDidRun |
| src/framework/runner.py:140 | `data[dependency.name]` reads a `name` attribute that `ConfigDependency` does not define, so the loop raises AttributeError on its first pass, once the fetch on the right-hand side returns, whether or not the data was ready. The did-run query at line 228 fails before it on every run | any component with at least one dependency, once the did-run query is corrected | the input is keyed by the dependency's component name (with `_before` for a past window), so the component receives it | not executed | Runner.WrittenNeverRuns | Runner.GatherNames |
