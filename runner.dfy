/**
 * The scheduler: one run of a component works out where its inputs start (a cold start from the
 * dependencies' first timestamps, else the stored watermark), derives each dependency's read window,
 * checks readiness, reads the inputs, runs the component, stores what it returns and moves the watermark.
 * The component itself is an opaque function from its named inputs to what it returns.
 */
module Runner {
  import opened Base
  import opened Seqs
  import opened Time
  import opened Frames
  import opened StorageModel
  import opened StorageQueries
  import opened Storage
  import opened Persistence
  import Config
  import Periods

  /** What a component's `run` gives back: one frame, several frames, or the error it raises. */
  datatype Outcome = One(frame: Frame) | Many(frames: seq<Frame>) | Raised(error: Error)

  /** Where one dependency is read: the window `(start, end)` and the row limit. */
  datatype Read = Read(start: int, end: int, limit: Option<int>)

  /**
   * What the loop over dependencies gathers: whether every dependency so far is ready, the inputs by name,
   * one watermark candidate per dependency that is not `before` (None where the frame has no maximum), and
   * whether some dependency is not `before`.
   */
  datatype Gathered = Gathered(shouldRun: bool, data: map<string, Frame>, maxima: seq<Option<int>>, oneNotBefore: bool)

  /** The effect of one run: the new folder, the watermark registered (if any) and how the run ended. */
  datatype Effect = Effect(disk: Disk, registered: Option<int>, result: Result<()>)

  /** The component: its inputs by name to what its `run` gives back. */
  type ComponentRun = map<string, Frame> -> Outcome
  /** How pandas rounds a timestamp to a week or a month. */
  type Rounder = (Periods.Unit, int) -> Result<int>
  type Probe = (Config.DependencyConfig, Read) -> Result<bool>
  type Reader = (Config.DependencyConfig, Read) -> Result<Frame>
  type Keying = Config.DependencyConfig -> Result<string>

  const NoPerTrain: Error := AttributeError("'NoneType' object has no attribute 'per_train'")

  /** A `frequency` that is set and not empty. */
  predicate FrequencyGiven(dep: Config.DependencyConfig) {
    dep.frequency.Some? && dep.frequency.value != ""
  }

  /** The read limit: the batch size when it is set and not zero. */
  function BatchLimit(dep: Config.DependencyConfig): (limit: Option<int>)
    ensures limit.Some? <==> dep.batchSize.Some? && dep.batchSize.value != 0
    ensures limit.Some? ==> limit == dep.batchSize
  {
    if dep.batchSize.Some? && dep.batchSize.value != 0 then dep.batchSize else None
  }

  /** The name an input is handed to the component under: the component's name, with `_before` for past data. */
  function DependencyName(dep: Config.DependencyConfig): string {
    dep.component + (if dep.before then "_before" else "")
  }

  /** The current and the past window of one source reach the component under different names. */
  lemma BeforeNameDistinct(dep: Config.DependencyConfig)
    ensures DependencyName(dep.(before := false)) == dep.component
    ensures DependencyName(dep.(before := true)) != DependencyName(dep.(before := false))
  {
    assert |DependencyName(dep.(before := true))| == |dep.component| + 7;
  }

  /** How each input is keyed as intended. */
  function IntendedKey(dep: Config.DependencyConfig): Result<string> {
    Ok(DependencyName(dep))
  }

  /** How each input is keyed as written: `dependency.name`, which `ConfigDependency` does not have. */
  function WrittenKey(dep: Config.DependencyConfig): Result<string> {
    Err(AttributeError("'ConfigDependency' object has no attribute 'name'"))
  }

  /** How the cold start asks whether the component already ran under a watermark key. */
  type DidRunQuery = (map<string, int>, string) -> Result<bool>

  /** The query as intended: a watermark is stored under the key. */
  function IntendedDidRun(memory: map<string, int>, key: string): Result<bool> {
    Ok(key in memory)
  }

  /** The query as written: `runner_persistence.get_did_run`, a method `RunnerPersistence` does not have. */
  function WrittenDidRun(memory: map<string, int>, key: string): Result<bool> {
    Err(NoDidRun)
  }

  const NoDidRun: Error := AttributeError("'RunnerPersistence' object has no attribute 'get_did_run'")

  // ---------------------------------------------------------------------------------------------
  // Cold start

  /** The train a cold-start query uses: the first catalog id for a per-train dependency, else none. */
  function FirstQueryTrain(components: map<string, Config.ComponentConfig>, ids: seq<TrainId>,
                           dep: Config.DependencyConfig): Result<Option<TrainId>>
  {
    if ids == [] then Ok(None)
    else
      var c := Config.GetComponent(components, dep);
      if c.None? then Err(NoPerTrain)
      else if c.value.perTrain then Ok(Some(ids[0]))
      else Ok(None)
  }

  /** `min` of the first timestamps so far and the next dependency's; an empty earliest partition adds nothing. */
  function EarliestFrom(disk: Disk, components: map<string, Config.ComponentConfig>, ids: seq<TrainId>,
                        deps: seq<Config.DependencyConfig>, acc: Option<int>): Result<Option<int>>
  {
    if deps == [] then Ok(acc)
    else
      var train :- FirstQueryTrain(components, ids, deps[0]);
      var first :- FirstTimestamp(disk, deps[0].component, train);
      var next := if first.None? || (acc.Some? && acc.value <= first.value) then acc else first;
      EarliestFrom(disk, components, ids, deps[1..], next)
  }

  /**
   * `_get_starting_timestamp_for_all_dependencies`: nothing once the component has run for the train, else the
   * earliest first timestamp of the dependencies; a failing did-run query ends it.
   */
  function StartingBound(disk: Disk, memory: map<string, int>, component: Config.ComponentConfig,
                         components: map<string, Config.ComponentConfig>, train: Option<TrainId>,
                         didRun: DidRunQuery): Result<Option<int>>
  {
    var ran :- didRun(memory, Key(component.name, train));
    if ran then Ok(None)
    else EarliestFrom(disk, components, Catalog(disk), component.dependencies, None)
  }

  /** The first timestamp the cold start reads for one dependency. */
  function FirstOf(disk: Disk, components: map<string, Config.ComponentConfig>, ids: seq<TrainId>,
                   dep: Config.DependencyConfig): Result<Option<int>>
  {
    var train :- FirstQueryTrain(components, ids, dep);
    FirstTimestamp(disk, dep.component, train)
  }

  /** One step of the cold-start fold. */
  lemma EarliestStep(disk: Disk, components: map<string, Config.ComponentConfig>, ids: seq<TrainId>,
                     deps: seq<Config.DependencyConfig>, acc: Option<int>)
    requires deps != [] && EarliestFrom(disk, components, ids, deps, acc).Ok?
    ensures FirstOf(disk, components, ids, deps[0]).Ok?
    ensures var first := FirstOf(disk, components, ids, deps[0]).value;
      var next := if first.None? || (acc.Some? && acc.value <= first.value) then acc else first;
      EarliestFrom(disk, components, ids, deps, acc) == EarliestFrom(disk, components, ids, deps[1..], next)
  {
  }

  /**
   * The cold-start bound is at most every dependency's first timestamp, `before` ones included, and at most
   * the starting value.
   */
  lemma {:induction false} EarliestIsLowerBound(disk: Disk, components: map<string, Config.ComponentConfig>,
                                                ids: seq<TrainId>, deps: seq<Config.DependencyConfig>, acc: Option<int>)
    requires EarliestFrom(disk, components, ids, deps, acc).Ok?
    ensures forall i :: 0 <= i < |deps| ==> FirstOf(disk, components, ids, deps[i]).Ok?
    ensures var m := EarliestFrom(disk, components, ids, deps, acc).value;
      forall i :: 0 <= i < |deps| && FirstOf(disk, components, ids, deps[i]).value.Some? ==>
        m.Some? && m.value <= FirstOf(disk, components, ids, deps[i]).value.value
    ensures var m := EarliestFrom(disk, components, ids, deps, acc).value;
      acc.Some? ==> m.Some? && m.value <= acc.value
    decreases |deps|
  {
    if deps != [] {
      EarliestStep(disk, components, ids, deps, acc);
      var first := FirstOf(disk, components, ids, deps[0]).value;
      var next := if first.None? || (acc.Some? && acc.value <= first.value) then acc else first;
      EarliestIsLowerBound(disk, components, ids, deps[1..], next);
      assert forall i :: 1 <= i < |deps| ==> deps[i] == deps[1..][i - 1];
    }
  }

  /** The cold-start bound is the starting value or the first timestamp of one of the dependencies. */
  lemma {:induction false} EarliestIsAttained(disk: Disk, components: map<string, Config.ComponentConfig>,
                                              ids: seq<TrainId>, deps: seq<Config.DependencyConfig>, acc: Option<int>)
    requires EarliestFrom(disk, components, ids, deps, acc).Ok?
    ensures var m := EarliestFrom(disk, components, ids, deps, acc).value;
      m.Some? ==> m == acc || exists i :: 0 <= i < |deps| && FirstOf(disk, components, ids, deps[i]) == Ok(m)
    decreases |deps|
  {
    if deps != [] {
      EarliestStep(disk, components, ids, deps, acc);
      var first := FirstOf(disk, components, ids, deps[0]).value;
      var next := if first.None? || (acc.Some? && acc.value <= first.value) then acc else first;
      EarliestIsAttained(disk, components, ids, deps[1..], next);
      var m := EarliestFrom(disk, components, ids, deps, acc).value;
      if m.Some? && m != next {
        var i :| 0 <= i < |deps[1..]| && FirstOf(disk, components, ids, deps[1..][i]) == Ok(m);
        assert deps[1..][i] == deps[i + 1];
      }
    }
  }

  /** Once a watermark exists for the component and train there is no cold start. */
  lemma RanBeforeNoColdStart(disk: Disk, memory: map<string, int>, component: Config.ComponentConfig,
                             components: map<string, Config.ComponentConfig>, train: Option<TrainId>, t: int)
    ensures StartingBound(disk, memory[Key(component.name, train) := t], component, components, train,
                          IntendedDidRun) == Ok(None)
  {
  }

  /** Without a watermark for the component and train, the bound is the cold-start fold over the catalog. */
  lemma NeverRanColdStart(disk: Disk, memory: map<string, int>, component: Config.ComponentConfig,
                          components: map<string, Config.ComponentConfig>, train: Option<TrainId>)
    requires Key(component.name, train) !in memory
    ensures StartingBound(disk, memory, component, components, train, IntendedDidRun)
         == EarliestFrom(disk, components, Catalog(disk), component.dependencies, None)
  {
  }

  // ---------------------------------------------------------------------------------------------
  // Windows

  /** The window before any frequency: up to the bound for past data, from one second after it to now otherwise. */
  function BaseWindow(dep: Config.DependencyConfig, last: int, now: int): Result<(int, int)> {
    if dep.before then Ok((PandasTimestampMin, last))
    else if last + 1 > DatetimeMax then Err(OverflowError("date value out of range"))
    else Ok((last + 1, now))
  }

  /**
   * One dependency's read: the base window, the batch size as limit, and with a frequency the period built
   * from the bound instead. A cold-start bound of `pd.Timestamp(datetime.max)` (no data in any dependency)
   * cannot be rounded: the rounded value lies past the last representable timestamp, and pandas raises
   * OutOfBoundsDatetime, a ValueError.
   */
  function DependencyWindow(dep: Config.DependencyConfig, last: int, now: int,
                            roundCoarse: Rounder): Result<Read>
  {
    var base :- BaseWindow(dep, last, now);
    if FrequencyGiven(dep) then
      if last == DatetimeMax then Err(ValueError("OutOfBoundsDatetime: rounding datetime.max leaves the timestamp range"))
      else
        var p :- Periods.BuildPeriod(dep.frequency.value, last, dep.before, roundCoarse);
        Ok(Read(p.0, p.1, BatchLimit(dep)))
    else Ok(Read(base.0, base.1, BatchLimit(dep)))
  }

  /**
   * Without a frequency, past data is read from `Timestamp.min` up to the bound, and current data from one
   * second after the bound to now, so a row at the bound itself (the earliest row on a cold start) is never
   * read as current data.
   */
  lemma WindowAroundBound(dep: Config.DependencyConfig, last: int, now: int,
                          roundCoarse: Rounder)
    requires !FrequencyGiven(dep) && last < DatetimeMax
    ensures DependencyWindow(dep, last, now, roundCoarse).Ok?
    ensures var w := DependencyWindow(dep, last, now, roundCoarse).value;
      w.limit == BatchLimit(dep) &&
      (dep.before ==> w.start == PandasTimestampMin && w.end == last) &&
      (!dep.before ==> w.start == last + 1 && w.end == now && last < w.start)
  {
  }

  /** With a frequency the window is the period built from the bound, whatever `before` would otherwise give. */
  lemma FrequencyWindow(dep: Config.DependencyConfig, last: int, now: int,
                        roundCoarse: Rounder)
    requires FrequencyGiven(dep) && last < DatetimeMax
    requires BaseWindow(dep, last, now).Ok?
    ensures var p := Periods.BuildPeriod(dep.frequency.value, last, dep.before, roundCoarse);
      p.Ok? <==> DependencyWindow(dep, last, now, roundCoarse).Ok?
    ensures var p := Periods.BuildPeriod(dep.frequency.value, last, dep.before, roundCoarse);
      p.Ok? ==> DependencyWindow(dep, last, now, roundCoarse).value == Read(p.value.0, p.value.1, BatchLimit(dep))
  {
  }

  // ---------------------------------------------------------------------------------------------
  // Readiness and reads

  /** Whether some of the trains has enough data; the first error ends the search. */
  function AnySufficient(disk: Disk, ids: seq<TrainId>, t: int, amount: Option<int>, dataset: string): Result<bool> {
    if ids == [] then Ok(false)
    else
      var enough :- Sufficient(disk, t, amount, dataset, Some(ids[0]));
      if enough then Ok(true) else AnySufficient(disk, ids[1..], t, amount, dataset)
  }

  /** Without errors, some train has enough data exactly when one of them is found to. */
  lemma {:induction false} AnySufficientExists(disk: Disk, ids: seq<TrainId>, t: int, amount: Option<int>, dataset: string)
    requires AnySufficient(disk, ids, t, amount, dataset).Ok?
    ensures AnySufficient(disk, ids, t, amount, dataset).value <==>
      exists i :: 0 <= i < |ids| && Sufficient(disk, t, amount, dataset, Some(ids[i])) == Ok(true)
    decreases |ids|
  {
    if ids != [] {
      var first := Sufficient(disk, t, amount, dataset, Some(ids[0]));
      if !first.value {
        AnySufficientExists(disk, ids[1..], t, amount, dataset);
        assert forall i :: 1 <= i < |ids| ==> ids[i] == ids[1..][i - 1];
        if exists i :: 0 <= i < |ids| && Sufficient(disk, t, amount, dataset, Some(ids[i])) == Ok(true) {
          var i :| 0 <= i < |ids| && Sufficient(disk, t, amount, dataset, Some(ids[i])) == Ok(true);
          assert i != 0;
          assert Sufficient(disk, t, amount, dataset, Some(ids[1..][i - 1])) == Ok(true);
        }
      }
    }
  }

  /**
   * `_component_should_run`: past data is always ready; otherwise the count starts at the window end with a
   * frequency and at the window start without; a run without a train over a per-train dependency is ready
   * when any catalog train is; every other run looks in the directory of its own train.
   */
  function Ready(disk: Disk, components: map<string, Config.ComponentConfig>, dep: Config.DependencyConfig,
                 w: Read, train: Option<TrainId>): Result<bool>
  {
    if dep.before then Ok(true)
    else
      var t := if FrequencyGiven(dep) then w.end else w.start;
      if !IsSet(train) then
        var c := Config.GetComponent(components, dep);
        if c.None? then Err(NoPerTrain)
        else if c.value.perTrain then AnySufficient(disk, Catalog(disk), t, dep.batchSize, dep.component)
        else Sufficient(disk, t, dep.batchSize, dep.component, train)
      else Sufficient(disk, t, dep.batchSize, dep.component, train)
  }

  /** With a train, readiness is the count in that train's directory, whether or not the dependency is per train. */
  lemma ReadyForTrain(disk: Disk, components: map<string, Config.ComponentConfig>, dep: Config.DependencyConfig,
                      w: Read, train: Option<TrainId>)
    requires !dep.before && IsSet(train)
    ensures Ready(disk, components, dep, w, train)
         == Sufficient(disk, if FrequencyGiven(dep) then w.end else w.start, dep.batchSize, dep.component, train)
  {
  }

  /** `_get_data_from_dependency`: one train's directory, every train, or the agnostic directory; inverted for past data. */
  function Fetch(disk: Disk, components: map<string, Config.ComponentConfig>, runPerTrain: bool,
                 dep: Config.DependencyConfig, w: Read, train: Option<TrainId>): Result<Frame>
  {
    var c := Config.GetComponent(components, dep);
    if c.None? then Err(NoPerTrain)
    else
      var period := Window(Some(w.start), Some(w.end));
      if runPerTrain && c.value.perTrain then ForTrain(disk, dep.component, train, period, w.limit, dep.before)
      else if c.value.perTrain then ForAllTrains(disk, dep.component, period, w.limit, dep.before)
      else ForAgnostic(disk, dep.component, period, w.limit, dep.before)
  }

  /** The watermark candidate of a dependency that is not `before`: the window end with a frequency, else the latest row read. */
  function Candidate(dep: Config.DependencyConfig, w: Read, frame: Frame): Option<int> {
    if FrequencyGiven(dep) then Some(w.end) else MaxIndex(frame)
  }

  /** The readiness check of one run, as a function of the dependency and its window. */
  function ReadyIn(disk: Disk, components: map<string, Config.ComponentConfig>, train: Option<TrainId>): Probe {
    (dep: Config.DependencyConfig, w: Read) => Ready(disk, components, dep, w, train)
  }

  /** The read of one run, as a function of the dependency and its window. */
  function FetchIn(disk: Disk, components: map<string, Config.ComponentConfig>, runPerTrain: bool,
                   train: Option<TrainId>): Reader
  {
    (dep: Config.DependencyConfig, w: Read) => Fetch(disk, components, runPerTrain, dep, w, train)
  }

  /**
   * One pass of the loop over dependencies: the window, readiness (asked only while every earlier dependency
   * was ready), the read, and the input stored under its key.
   */
  function Step(dep: Config.DependencyConfig, last: int, now: int, roundCoarse: Rounder, ready: Probe,
                fetch: Reader, keyOf: Keying, g: Gathered): Result<Gathered>
  {
    var w :- DependencyWindow(dep, last, now, roundCoarse);
    var isReady :- if g.shouldRun then ready(dep, w) else Ok(false);
    var frame :- fetch(dep, w);
    var key :- keyOf(dep);
    Ok(Gathered(isReady, g.data[key := frame],
                if dep.before then g.maxima else g.maxima + [Candidate(dep, w, frame)],
                g.oneNotBefore || !dep.before))
  }

  /** The loop over dependencies, from a partial result; the first error ends it. */
  function Gather(deps: seq<Config.DependencyConfig>, last: int, now: int, roundCoarse: Rounder, ready: Probe,
                  fetch: Reader, keyOf: Keying, g: Gathered): Result<Gathered>
  {
    if deps == [] then Ok(g)
    else
      var next :- Step(deps[0], last, now, roundCoarse, ready, fetch, keyOf, g);
      Gather(deps[1..], last, now, roundCoarse, ready, fetch, keyOf, next)
  }

  function Start(component: Config.ComponentConfig): Gathered {
    Gathered(true, map[], [], component.dependencies == [])
  }

  // ---------------------------------------------------------------------------------------------
  // Running and storing

  /**
   * The frames to store: with `multiple_outputs` every frame returned (a single frame is iterated over its
   * column labels, which cannot be stored); otherwise the one frame (a list cannot be stored).
   */
  function Outputs(o: Outcome, multiple: bool): Result<seq<Frame>> {
    match o
    case Raised(e) => Err(e)
    case Many(frames) => if multiple then Ok(frames) else Err(AttributeError("'list' object has no attribute 'empty'"))
    case One(frame) =>
      if !multiple then Ok([frame])
      else if frame.columns == {} then Ok([])
      else Err(AttributeError("'str' object has no attribute 'empty'"))
  }

  /** Stores the frames one after the other; the first failure ends it. */
  function StoreAll(disk: Disk, frames: seq<Frame>, dataset: string, train: Option<TrainId>): (Disk, Result<()>)
    decreases |frames|
  {
    if frames == [] then (disk, Ok(()))
    else
      var stored := Store(disk, frames[0], dataset, train);
      if stored.1.Err? then stored else StoreAll(stored.0, frames[1..], dataset, train)
  }

  predicate AllKnown(maxima: seq<Option<int>>) {
    forall i :: 0 <= i < |maxima| ==> maxima[i].Some?
  }

  predicate NoneKnown(maxima: seq<Option<int>>) {
    forall i :: 0 <= i < |maxima| ==> maxima[i].None?
  }

  /** The smallest of known candidates. */
  function Lowest(maxima: seq<Option<int>>): (m: int)
    requires maxima != [] && AllKnown(maxima)
    ensures forall i :: 0 <= i < |maxima| ==> m <= maxima[i].value
    ensures Some(m) in maxima
  {
    if |maxima| == 1 then maxima[0].value
    else
      var rest := Lowest(maxima[1..]);
      assert forall i :: 1 <= i < |maxima| ==> maxima[i] == maxima[1..][i - 1];
      if maxima[0].value <= rest then maxima[0].value else rest
  }

  /**
   * `min(max_timestamps)` as Python computes it: a NaN (an empty frame's maximum) among timestamps cannot be
   * compared, and a minimum that is NaN has no `isoformat`.
   */
  function LowestWatermark(maxima: seq<Option<int>>): (r: Result<int>)
    requires maxima != []
    ensures r.Ok? <==> AllKnown(maxima)
    ensures r.Ok? ==> Some(r.value) in maxima && forall i :: 0 <= i < |maxima| ==> r.value <= maxima[i].value
    ensures NoneKnown(maxima) ==> r.Err? && r.error.AttributeError?
    ensures !AllKnown(maxima) && !NoneKnown(maxima) ==> r.Err? && r.error.TypeError?
  {
    if AllKnown(maxima) then Ok(Lowest(maxima))
    else if NoneKnown(maxima) then Err(AttributeError("'float' object has no attribute 'isoformat'"))
    else Err(TypeError("'<' not supported between instances of 'float' and 'Timestamp'"))
  }

  /** After the component has run: store what it returned, then register the lowest candidate, if any. */
  function Finish(disk: Disk, component: Config.ComponentConfig, train: Option<TrainId>, outcome: Outcome,
                  maxima: seq<Option<int>>): Effect
  {
    var outs := Outputs(outcome, component.multipleOutputs);
    if outs.Err? then Effect(disk, None, Err(outs.error))
    else
      var stored := StoreAll(disk, outs.value, component.name, train);
      if stored.1.Err? then Effect(stored.0, None, stored.1)
      else if maxima == [] then Effect(stored.0, None, Ok(()))
      else
        var m := LowestWatermark(maxima);
        if m.Err? then Effect(stored.0, None, Err(m.error)) else Effect(stored.0, Some(m.value), Ok(()))
  }

  /** The bound the dependency windows are derived from: the cold-start bound, else the stored watermark. */
  function LastBound(memory: map<string, int>, component: Config.ComponentConfig, train: Option<TrainId>,
                     start: Option<int>): int
  {
    if start.Some? then start.value else Watermark(memory, Key(component.name, train))
  }

  /** `_run_component_once`, with the did-run query `didRun` and the inputs keyed by `keyOf`. */
  function RunOnce(disk: Disk, memory: map<string, int>, component: Config.ComponentConfig,
                   components: map<string, Config.ComponentConfig>, train: Option<TrainId>, now: int,
                   roundCoarse: Rounder, run: ComponentRun, didRun: DidRunQuery, keyOf: Keying): Effect
  {
    var start := StartingBound(disk, memory, component, components, train, didRun);
    if start.Err? then Effect(disk, None, Err(start.error))
    else
      var g := Gather(component.dependencies, LastBound(memory, component, train, start.value), now, roundCoarse,
                      ReadyIn(disk, components, train), FetchIn(disk, components, component.runPerTrain, train),
                      keyOf, Start(component));
      if g.Err? then Effect(disk, None, Err(g.error))
      else if !g.value.oneNotBefore then Effect(disk, None, Err(AssertionError(AllBeforeMessage)))
      else if !g.value.shouldRun then Effect(disk, None, Ok(()))
      else Finish(disk, component, train, run(g.value.data), g.value.maxima)
  }

  const AllBeforeMessage: string := "At least one dependency should not be before"

  /** The watermark map after a run. */
  function Registered(memory: map<string, int>, key: string, e: Effect): map<string, int> {
    if e.registered.Some? then memory[key := e.registered.value] else memory
  }

  // ---------------------------------------------------------------------------------------------
  // What one run does

  /** One pass of the dependency loop, unfolded. */
  lemma GatherStep(deps: seq<Config.DependencyConfig>, last: int, now: int, roundCoarse: Rounder, ready: Probe,
                   fetch: Reader, keyOf: Keying, g: Gathered)
    requires deps != [] && Gather(deps, last, now, roundCoarse, ready, fetch, keyOf, g).Ok?
    ensures Step(deps[0], last, now, roundCoarse, ready, fetch, keyOf, g).Ok?
    ensures Gather(deps, last, now, roundCoarse, ready, fetch, keyOf, g)
         == Gather(deps[1..], last, now, roundCoarse, ready, fetch, keyOf,
                   Step(deps[0], last, now, roundCoarse, ready, fetch, keyOf, g).value)
  {
  }

  /** As written, the loop fails on the first dependency, once its readiness has been checked and its data read. */
  lemma WrittenGatherFails(deps: seq<Config.DependencyConfig>, last: int, now: int, roundCoarse: Rounder,
                           ready: Probe, fetch: Reader, g: Gathered)
    requires deps != []
    ensures Gather(deps, last, now, roundCoarse, ready, fetch, WrittenKey, g).Err?
  {
  }

  /**
   * As written, the cold start asks the persistence a question it cannot answer: every run fails there, before
   * the dependency loop and whatever the component's dependencies (none included), with nothing stored and no
   * watermark written.
   */
  lemma WrittenStartFails(disk: Disk, memory: map<string, int>, component: Config.ComponentConfig,
                          components: map<string, Config.ComponentConfig>, train: Option<TrainId>, now: int,
                          roundCoarse: Rounder, run: ComponentRun, keyOf: Keying)
    ensures RunOnce(disk, memory, component, components, train, now, roundCoarse, run, WrittenDidRun, keyOf)
         == Effect(disk, None, Err(NoDidRun))
  {
  }

  /**
   * As written, and with the did-run query as intended, a component with at least one dependency still never
   * runs: every run ends in an error with nothing stored and no watermark written.
   */
  lemma WrittenNeverRuns(disk: Disk, memory: map<string, int>, component: Config.ComponentConfig,
                         components: map<string, Config.ComponentConfig>, train: Option<TrainId>, now: int,
                         roundCoarse: Rounder, run: ComponentRun)
    requires component.dependencies != []
    ensures var e := RunOnce(disk, memory, component, components, train, now, roundCoarse, run, IntendedDidRun, WrittenKey);
      e.disk == disk && e.registered.None? && e.result.Err?
  {
    var start := StartingBound(disk, memory, component, components, train, IntendedDidRun);
    if start.Ok? {
      WrittenGatherFails(component.dependencies, LastBound(memory, component, train, start.value), now, roundCoarse,
                         ReadyIn(disk, components, train), FetchIn(disk, components, component.runPerTrain, train),
                         Start(component));
    }
  }

  /** Every dependency is ready in its own window. */
  predicate AllReady(deps: seq<Config.DependencyConfig>, last: int, now: int, roundCoarse: Rounder, ready: Probe) {
    forall i :: 0 <= i < |deps| ==>
      DependencyWindow(deps[i], last, now, roundCoarse).Ok? &&
      ready(deps[i], DependencyWindow(deps[i], last, now, roundCoarse).value) == Ok(true)
  }

  /**
   * The component is to run exactly when every dependency is ready: the loop's conjunction, which stops
   * asking once one dependency is not.
   */
  lemma {:induction false} GatherReadiness(deps: seq<Config.DependencyConfig>, last: int, now: int,
                                           roundCoarse: Rounder, ready: Probe, fetch: Reader, keyOf: Keying, g: Gathered)
    requires Gather(deps, last, now, roundCoarse, ready, fetch, keyOf, g).Ok?
    ensures Gather(deps, last, now, roundCoarse, ready, fetch, keyOf, g).value.shouldRun
        <==> g.shouldRun && AllReady(deps, last, now, roundCoarse, ready)
    decreases |deps|
  {
    if deps != [] {
      GatherStep(deps, last, now, roundCoarse, ready, fetch, keyOf, g);
      var next := Step(deps[0], last, now, roundCoarse, ready, fetch, keyOf, g).value;
      GatherReadiness(deps[1..], last, now, roundCoarse, ready, fetch, keyOf, next);
      assert forall i :: 1 <= i < |deps| ==> deps[i] == deps[1..][i - 1];
    }
  }

  /** Whether some dependency is not `before` (or the loop started out saying so). */
  lemma {:induction false} GatherNotBefore(deps: seq<Config.DependencyConfig>, last: int, now: int,
                                           roundCoarse: Rounder, ready: Probe, fetch: Reader, keyOf: Keying, g: Gathered)
    requires Gather(deps, last, now, roundCoarse, ready, fetch, keyOf, g).Ok?
    ensures Gather(deps, last, now, roundCoarse, ready, fetch, keyOf, g).value.oneNotBefore
        <==> g.oneNotBefore || exists i :: 0 <= i < |deps| && !deps[i].before
    decreases |deps|
  {
    if deps != [] {
      GatherStep(deps, last, now, roundCoarse, ready, fetch, keyOf, g);
      var next := Step(deps[0], last, now, roundCoarse, ready, fetch, keyOf, g).value;
      GatherNotBefore(deps[1..], last, now, roundCoarse, ready, fetch, keyOf, next);
      assert forall i :: 1 <= i < |deps| ==> deps[i] == deps[1..][i - 1];
    }
  }

  /** The candidate one dependency contributes: none when it is `before` (or its read fails). */
  function CandidateOf(dep: Config.DependencyConfig, last: int, now: int, roundCoarse: Rounder,
                       fetch: Reader): seq<Option<int>>
  {
    var w := DependencyWindow(dep, last, now, roundCoarse);
    if dep.before || w.Err? || fetch(dep, w.value).Err? then []
    else [Candidate(dep, w.value, fetch(dep, w.value).value)]
  }

  /** The watermark candidates of the dependencies that are not `before`, in order. */
  function Candidates(deps: seq<Config.DependencyConfig>, last: int, now: int, roundCoarse: Rounder,
                      fetch: Reader): seq<Option<int>>
  {
    if deps == [] then [] else CandidateOf(deps[0], last, now, roundCoarse, fetch) + Candidates(deps[1..], last, now, roundCoarse, fetch)
  }

  /** One pass adds the dependency's candidate. */
  lemma StepCandidate(dep: Config.DependencyConfig, last: int, now: int, roundCoarse: Rounder, ready: Probe,
                      fetch: Reader, keyOf: Keying, g: Gathered)
    requires Step(dep, last, now, roundCoarse, ready, fetch, keyOf, g).Ok?
    ensures Step(dep, last, now, roundCoarse, ready, fetch, keyOf, g).value.maxima
         == g.maxima + CandidateOf(dep, last, now, roundCoarse, fetch)
  {
  }

  /** The loop records one candidate per dependency that is not `before`: its window end or its latest row. */
  lemma {:induction false} GatherCandidates(deps: seq<Config.DependencyConfig>, last: int, now: int,
                                            roundCoarse: Rounder, ready: Probe, fetch: Reader, keyOf: Keying, g: Gathered)
    requires Gather(deps, last, now, roundCoarse, ready, fetch, keyOf, g).Ok?
    ensures Gather(deps, last, now, roundCoarse, ready, fetch, keyOf, g).value.maxima
         == g.maxima + Candidates(deps, last, now, roundCoarse, fetch)
    decreases |deps|
  {
    if deps != [] {
      GatherStep(deps, last, now, roundCoarse, ready, fetch, keyOf, g);
      var next := Step(deps[0], last, now, roundCoarse, ready, fetch, keyOf, g).value;
      GatherCandidates(deps[1..], last, now, roundCoarse, ready, fetch, keyOf, next);
      StepCandidate(deps[0], last, now, roundCoarse, ready, fetch, keyOf, g);
      var head := CandidateOf(deps[0], last, now, roundCoarse, fetch);
      var rest := Candidates(deps[1..], last, now, roundCoarse, fetch);
      assert Candidates(deps, last, now, roundCoarse, fetch) == head + rest;
      assert (g.maxima + head) + rest == g.maxima + (head + rest);
    }
  }

  /** Dependencies that are all `before` give no candidate. */
  lemma {:induction false} CandidatesOfBefore(deps: seq<Config.DependencyConfig>, last: int, now: int,
                                              roundCoarse: Rounder, fetch: Reader)
    requires forall i :: 0 <= i < |deps| ==> deps[i].before
    ensures Candidates(deps, last, now, roundCoarse, fetch) == []
    decreases |deps|
  {
    if deps != [] {
      CandidatesOfBefore(deps[1..], last, now, roundCoarse, fetch);
    }
  }

  /** With the intended names, every dependency's input reaches the component under its name. */
  lemma {:induction false} GatherNames(deps: seq<Config.DependencyConfig>, last: int, now: int,
                                       roundCoarse: Rounder, ready: Probe, fetch: Reader, g: Gathered)
    requires Gather(deps, last, now, roundCoarse, ready, fetch, IntendedKey, g).Ok?
    ensures forall k :: k in g.data ==> k in Gather(deps, last, now, roundCoarse, ready, fetch, IntendedKey, g).value.data
    ensures forall i :: 0 <= i < |deps| ==>
      DependencyName(deps[i]) in Gather(deps, last, now, roundCoarse, ready, fetch, IntendedKey, g).value.data
    decreases |deps|
  {
    if deps != [] {
      GatherStep(deps, last, now, roundCoarse, ready, fetch, IntendedKey, g);
      var next := Step(deps[0], last, now, roundCoarse, ready, fetch, IntendedKey, g).value;
      GatherNames(deps[1..], last, now, roundCoarse, ready, fetch, next);
      assert forall i :: 1 <= i < |deps| ==> deps[i] == deps[1..][i - 1];
    }
  }

  predicate AllBefore(deps: seq<Config.DependencyConfig>) {
    deps != [] && forall i :: 0 <= i < |deps| ==> deps[i].before
  }

  /** The loop of one run. */
  function GatherOf(disk: Disk, memory: map<string, int>, component: Config.ComponentConfig,
                    components: map<string, Config.ComponentConfig>, train: Option<TrainId>, now: int,
                    roundCoarse: Rounder, keyOf: Keying, start: Option<int>): Result<Gathered>
  {
    Gather(component.dependencies, LastBound(memory, component, train, start), now, roundCoarse,
           ReadyIn(disk, components, train), FetchIn(disk, components, component.runPerTrain, train),
           keyOf, Start(component))
  }

  /**
   * Once the bound and the loop succeed: the assertion fails exactly when there is a dependency and every one
   * is `before`, with nothing stored and no watermark written; otherwise the component runs when the loop
   * found it ready, and nothing happens when not.
   */
  lemma RunOnceAfterLoop(disk: Disk, memory: map<string, int>, component: Config.ComponentConfig,
                         components: map<string, Config.ComponentConfig>, train: Option<TrainId>, now: int,
                         roundCoarse: Rounder, run: ComponentRun, didRun: DidRunQuery, keyOf: Keying)
    requires StartingBound(disk, memory, component, components, train, didRun).Ok?
    requires GatherOf(disk, memory, component, components, train, now, roundCoarse, keyOf,
                      StartingBound(disk, memory, component, components, train, didRun).value).Ok?
    ensures var g := GatherOf(disk, memory, component, components, train, now, roundCoarse, keyOf,
                              StartingBound(disk, memory, component, components, train, didRun).value).value;
      var e := RunOnce(disk, memory, component, components, train, now, roundCoarse, run, didRun, keyOf);
      (AllBefore(component.dependencies) ==> e == Effect(disk, None, Err(AssertionError(AllBeforeMessage)))) &&
      (!AllBefore(component.dependencies) && g.shouldRun ==> e == Finish(disk, component, train, run(g.data), g.maxima)) &&
      (!AllBefore(component.dependencies) && !g.shouldRun ==> e == Effect(disk, None, Ok(())))
  {
    var start := StartingBound(disk, memory, component, components, train, didRun).value;
    GatherNotBefore(component.dependencies, LastBound(memory, component, train, start), now, roundCoarse,
                    ReadyIn(disk, components, train), FetchIn(disk, components, component.runPerTrain, train),
                    keyOf, Start(component));
  }

  /** When some dependency is not ready, the component does not run: nothing is stored and no watermark is written. */
  lemma NotReadyNoEffect(disk: Disk, memory: map<string, int>, component: Config.ComponentConfig,
                         components: map<string, Config.ComponentConfig>, train: Option<TrainId>, now: int,
                         roundCoarse: Rounder, run: ComponentRun, didRun: DidRunQuery, keyOf: Keying)
    requires StartingBound(disk, memory, component, components, train, didRun).Ok?
    requires !AllReady(component.dependencies,
                       LastBound(memory, component, train, StartingBound(disk, memory, component, components, train, didRun).value),
                       now, roundCoarse, ReadyIn(disk, components, train))
    ensures var e := RunOnce(disk, memory, component, components, train, now, roundCoarse, run, didRun, keyOf);
      e.disk == disk && e.registered.None?
  {
    var start := StartingBound(disk, memory, component, components, train, didRun).value;
    var g := GatherOf(disk, memory, component, components, train, now, roundCoarse, keyOf, start);
    if g.Ok? {
      GatherReadiness(component.dependencies, LastBound(memory, component, train, start), now, roundCoarse,
                      ReadyIn(disk, components, train), FetchIn(disk, components, component.runPerTrain, train),
                      keyOf, Start(component));
      RunOnceAfterLoop(disk, memory, component, components, train, now, roundCoarse, run, didRun, keyOf);
    }
  }

  /** A registered watermark comes from a run that stored everything: the lowest of the known candidates. */
  lemma FinishRegistered(disk: Disk, component: Config.ComponentConfig, train: Option<TrainId>, outcome: Outcome,
                         maxima: seq<Option<int>>)
    requires Finish(disk, component, train, outcome, maxima).registered.Some?
    ensures maxima != [] && AllKnown(maxima)
    ensures var m := Finish(disk, component, train, outcome, maxima).registered.value;
      Some(m) in maxima && forall i :: 0 <= i < |maxima| ==> m <= maxima[i].value
    ensures Finish(disk, component, train, outcome, maxima).result == Ok(())
  {
  }

  /** A watermark is registered only by a run whose loop succeeded and found the component ready. */
  lemma RegisteredAfterLoop(disk: Disk, memory: map<string, int>, component: Config.ComponentConfig,
                            components: map<string, Config.ComponentConfig>, train: Option<TrainId>, now: int,
                            roundCoarse: Rounder, run: ComponentRun, didRun: DidRunQuery, keyOf: Keying)
    requires RunOnce(disk, memory, component, components, train, now, roundCoarse, run, didRun, keyOf).registered.Some?
    ensures StartingBound(disk, memory, component, components, train, didRun).Ok?
    ensures GatherOf(disk, memory, component, components, train, now, roundCoarse, keyOf,
                     StartingBound(disk, memory, component, components, train, didRun).value).Ok?
    ensures var g := GatherOf(disk, memory, component, components, train, now, roundCoarse, keyOf,
                              StartingBound(disk, memory, component, components, train, didRun).value).value;
      RunOnce(disk, memory, component, components, train, now, roundCoarse, run, didRun, keyOf)
        == Finish(disk, component, train, run(g.data), g.maxima)
  {
  }

  /** A registered watermark is the smallest candidate, and every candidate is a known timestamp. */
  lemma RegisteredIsLowestCandidate(disk: Disk, memory: map<string, int>, component: Config.ComponentConfig,
                                    components: map<string, Config.ComponentConfig>, train: Option<TrainId>, now: int,
                                    roundCoarse: Rounder, run: ComponentRun, didRun: DidRunQuery, keyOf: Keying)
    requires RunOnce(disk, memory, component, components, train, now, roundCoarse, run, didRun, keyOf).registered.Some?
    ensures StartingBound(disk, memory, component, components, train, didRun).Ok?
    ensures var m := RunOnce(disk, memory, component, components, train, now, roundCoarse, run, didRun, keyOf).registered.value;
      var cs := Candidates(component.dependencies,
                           LastBound(memory, component, train, StartingBound(disk, memory, component, components, train, didRun).value),
                           now, roundCoarse, FetchIn(disk, components, component.runPerTrain, train));
      cs != [] && (forall i :: 0 <= i < |cs| ==> cs[i].Some? && m <= cs[i].value) && Some(m) in cs
  {
    RegisteredAfterLoop(disk, memory, component, components, train, now, roundCoarse, run, didRun, keyOf);
    var start := StartingBound(disk, memory, component, components, train, didRun).value;
    var g := GatherOf(disk, memory, component, components, train, now, roundCoarse, keyOf, start).value;
    GatherCandidates(component.dependencies, LastBound(memory, component, train, start), now, roundCoarse,
                     ReadyIn(disk, components, train), FetchIn(disk, components, component.runPerTrain, train),
                     keyOf, Start(component));
    var cs := Candidates(component.dependencies, LastBound(memory, component, train, start), now, roundCoarse,
                         FetchIn(disk, components, component.runPerTrain, train));
    assert g.maxima == [] + cs == cs;
    FinishRegistered(disk, component, train, run(g.data), cs);
  }

  /** Without a dependency that is not `before` no watermark is ever written. */
  lemma NoCandidateNoWatermark(disk: Disk, memory: map<string, int>, component: Config.ComponentConfig,
                               components: map<string, Config.ComponentConfig>, train: Option<TrainId>, now: int,
                               roundCoarse: Rounder, run: ComponentRun, didRun: DidRunQuery, keyOf: Keying)
    requires forall i :: 0 <= i < |component.dependencies| ==> component.dependencies[i].before
    ensures RunOnce(disk, memory, component, components, train, now, roundCoarse, run, didRun, keyOf).registered.None?
  {
    var start := StartingBound(disk, memory, component, components, train, didRun);
    if start.Ok? {
      var last := LastBound(memory, component, train, start.value);
      var fetch := FetchIn(disk, components, component.runPerTrain, train);
      var g := GatherOf(disk, memory, component, components, train, now, roundCoarse, keyOf, start.value);
      if g.Ok? {
        GatherCandidates(component.dependencies, last, now, roundCoarse, ReadyIn(disk, components, train), fetch,
                         keyOf, Start(component));
        CandidatesOfBefore(component.dependencies, last, now, roundCoarse, fetch);
      }
    }
  }

  // ---------------------------------------------------------------------------------------------
  // The runner, step by step, over the storage manager and the persistence

  /** The cold-start fold over the dependencies, one first-timestamp query each. */
  method EarliestTimestamp(sm: StorageManager, components: map<string, Config.ComponentConfig>, ids: seq<TrainId>,
                           deps: seq<Config.DependencyConfig>) returns (r: Result<Option<int>>)
    ensures r == EarliestFrom(sm.disk, components, ids, deps, None)
  {
    var acc: Option<int> := None;
    var rest := deps;
    while rest != []
      invariant EarliestFrom(sm.disk, components, ids, rest, acc) == EarliestFrom(sm.disk, components, ids, deps, None)
      decreases |rest|
    {
      var train := FirstQueryTrain(components, ids, rest[0]);
      if train.Err? {
        return Err(train.error);
      }
      var first := sm.GetFirstTimestamp(rest[0].component, train.value);
      if first.Err? {
        return Err(first.error);
      }
      if first.value.Some? && (acc.None? || first.value.value < acc.value) {
        acc := first.value;
      }
      rest := rest[1..];
    }
    r := Ok(acc);
  }

  /** `_get_starting_timestamp_for_all_dependencies`: loads the catalog, then folds unless the component already ran. */
  method StartingTimestamp(sm: StorageManager, p: RunnerPersistence, component: Config.ComponentConfig,
                           components: map<string, Config.ComponentConfig>, train: Option<TrainId>)
    returns (r: Result<Option<int>>)
    modifies sm
    ensures sm.disk == old(sm.disk) && sm.Valid()
    ensures r == StartingBound(sm.disk, p.memory, component, components, train, IntendedDidRun)
  {
    var ids := sm.RetrieveTrainIds();
    var didRun := p.GetDidRun(component.name, train);
    if didRun {
      return Ok(None);
    }
    r := EarliestTimestamp(sm, components, ids, component.dependencies);
  }

  /** The search over the catalog trains for one with enough data. */
  method AnyTrainSufficient(sm: StorageManager, ids: seq<TrainId>, t: int, amount: Option<int>, dataset: string)
    returns (r: Result<bool>)
    ensures r == AnySufficient(sm.disk, ids, t, amount, dataset)
  {
    var rest := ids;
    while rest != []
      invariant AnySufficient(sm.disk, rest, t, amount, dataset) == AnySufficient(sm.disk, ids, t, amount, dataset)
      decreases |rest|
    {
      var enough := sm.HasSufficientDataSince(t, amount, dataset, Some(rest[0]));
      if enough.Err? || enough.value {
        return enough;
      }
      rest := rest[1..];
    }
    r := Ok(false);
  }

  /** `_component_should_run`. */
  method ShouldRun(sm: StorageManager, components: map<string, Config.ComponentConfig>, dep: Config.DependencyConfig,
                   w: Read, train: Option<TrainId>) returns (r: Result<bool>)
    requires sm.Valid()
    modifies sm
    ensures sm.disk == old(sm.disk) && sm.Valid()
    ensures r == Ready(sm.disk, components, dep, w, train)
  {
    if dep.before {
      return Ok(true);
    }
    var t := if FrequencyGiven(dep) then w.end else w.start;
    if !IsSet(train) {
      var c := Config.GetComponent(components, dep);
      if c.None? {
        return Err(NoPerTrain);
      }
      if c.value.perTrain {
        var ids := sm.RetrieveTrainIds();
        r := AnyTrainSufficient(sm, ids, t, dep.batchSize, dep.component);
        return;
      }
    }
    r := sm.HasSufficientDataSince(t, dep.batchSize, dep.component, train);
  }

  /** `_get_data_from_dependency`. */
  method FetchDependency(sm: StorageManager, components: map<string, Config.ComponentConfig>, runPerTrain: bool,
                         dep: Config.DependencyConfig, w: Read, train: Option<TrainId>) returns (r: Result<Frame>)
    requires sm.Valid()
    modifies sm
    ensures sm.disk == old(sm.disk) && sm.Valid()
    ensures r == Fetch(sm.disk, components, runPerTrain, dep, w, train)
  {
    var c := Config.GetComponent(components, dep);
    if c.None? {
      return Err(NoPerTrain);
    }
    var period := Window(Some(w.start), Some(w.end));
    if runPerTrain && c.value.perTrain {
      r := sm.GetForTrain(dep.component, train, period, w.limit, dep.before);
    } else if c.value.perTrain {
      r := sm.GetForAllTrains(dep.component, period, w.limit, dep.before);
    } else {
      r := sm.GetForAgnostic(dep.component, period, w.limit, dep.before);
    }
  }

  /** The loop over dependencies of `_run_component_once`, each input under its intended name. */
  method GatherDependencies(sm: StorageManager, components: map<string, Config.ComponentConfig>,
                            component: Config.ComponentConfig, last: int, now: int, roundCoarse: Rounder,
                            train: Option<TrainId>) returns (r: Result<Gathered>)
    requires sm.Valid()
    modifies sm
    ensures sm.disk == old(sm.disk) && sm.Valid()
    ensures r == Gather(component.dependencies, last, now, roundCoarse, ReadyIn(sm.disk, components, train),
                        FetchIn(sm.disk, components, component.runPerTrain, train), IntendedKey, Start(component))
  {
    ghost var ready := ReadyIn(sm.disk, components, train);
    ghost var fetch := FetchIn(sm.disk, components, component.runPerTrain, train);
    ghost var goal := Gather(component.dependencies, last, now, roundCoarse, ready, fetch, IntendedKey, Start(component));
    var g := Start(component);
    var rest := component.dependencies;
    while rest != []
      invariant sm.disk == old(sm.disk) && sm.Valid()
      invariant Gather(rest, last, now, roundCoarse, ready, fetch, IntendedKey, g) == goal
      decreases |rest|
    {
      var dep := rest[0];
      var w := DependencyWindow(dep, last, now, roundCoarse);
      if w.Err? {
        return Err(w.error);
      }
      var isReady := Ok(false);
      if g.shouldRun {
        isReady := ShouldRun(sm, components, dep, w.value, train);
        if isReady.Err? {
          return Err(isReady.error);
        }
      }
      var frame := FetchDependency(sm, components, component.runPerTrain, dep, w.value, train);
      if frame.Err? {
        return Err(frame.error);
      }
      g := Gathered(isReady.value, g.data[DependencyName(dep) := frame.value],
                    if dep.before then g.maxima else g.maxima + [Candidate(dep, w.value, frame.value)],
                    g.oneNotBefore || !dep.before);
      rest := rest[1..];
    }
    r := Ok(g);
  }

  /** Stores what the component returned, frame by frame; the first failure ends it. */
  method StoreOutputs(sm: StorageManager, frames: seq<Frame>, dataset: string, train: Option<TrainId>)
    returns (res: Result<()>)
    requires sm.Valid()
    modifies sm
    ensures (sm.disk, res) == StoreAll(old(sm.disk), frames, dataset, train) && sm.Valid()
  {
    var rest := frames;
    while rest != []
      invariant StoreAll(sm.disk, rest, dataset, train) == StoreAll(old(sm.disk), frames, dataset, train)
      invariant sm.Valid()
      decreases |rest|
    {
      res := sm.Store(rest[0], dataset, train);
      if res.Err? {
        return;
      }
      rest := rest[1..];
    }
    res := Ok(());
  }

  /** What follows a run that is to happen: store the outputs, then register the lowest candidate, if any. */
  method FinishRun(sm: StorageManager, p: RunnerPersistence, component: Config.ComponentConfig, train: Option<TrainId>,
                   outcome: Outcome, maxima: seq<Option<int>>) returns (r: Result<()>)
    requires sm.Valid()
    modifies sm, p
    ensures var e := Finish(old(sm.disk), component, train, outcome, maxima);
      sm.disk == e.disk && r == e.result && p.memory == Registered(old(p.memory), Key(component.name, train), e) &&
      (e.registered.Some? ==> p.Saved()) && (e.registered.None? ==> p.file == old(p.file))
    ensures sm.Valid()
  {
    var outs := Outputs(outcome, component.multipleOutputs);
    if outs.Err? {
      return Err(outs.error);
    }
    r := StoreOutputs(sm, outs.value, component.name, train);
    if r.Err? {
      return;
    }
    assert r.Ok?;
    assert r.value == ();
    assert r == Ok(());
    if maxima == [] {
      return;
    }
    var m := LowestWatermark(maxima);
    if m.Err? {
      return Err(m.error);
    }
    p.RegisterLastTimestamp(component.name, m.value, train);
  }

  /**
   * `_run_component_once`, inputs under their intended names: the folder, the result and the watermarks are
   * those of `RunOnce`, and the persistence file is rewritten exactly when a watermark is registered.
   */
  method RunComponentOnce(sm: StorageManager, p: RunnerPersistence, component: Config.ComponentConfig,
                          components: map<string, Config.ComponentConfig>, train: Option<TrainId>, now: int,
                          roundCoarse: Rounder, run: ComponentRun) returns (r: Result<()>)
    requires sm.Valid()
    modifies sm, p
    ensures var e := RunOnce(old(sm.disk), old(p.memory), component, components, train, now, roundCoarse, run, IntendedDidRun, IntendedKey);
      sm.disk == e.disk && r == e.result && p.memory == Registered(old(p.memory), Key(component.name, train), e) &&
      (e.registered.Some? ==> p.Saved()) && (e.registered.None? ==> p.file == old(p.file))
    ensures sm.Valid()
  {
    ghost var d0 := sm.disk;
    ghost var e := RunOnce(sm.disk, p.memory, component, components, train, now, roundCoarse, run, IntendedDidRun, IntendedKey);
    var start := StartingTimestamp(sm, p, component, components, train);
    if start.Err? {
      return Err(start.error);
    }
    var last: int;
    if start.value.Some? {
      last := start.value.value;
    } else {
      last := p.GetLastTimestamp(component.name, train);
    }
    assert last == LastBound(p.memory, component, train, start.value);
    var g := GatherDependencies(sm, components, component, last, now, roundCoarse, train);
    assert g == GatherOf(d0, p.memory, component, components, train, now, roundCoarse, IntendedKey, start.value);
    if g.Err? {
      return Err(g.error);
    }
    RunOnceAfterLoop(d0, p.memory, component, components, train, now, roundCoarse, run, IntendedDidRun, IntendedKey);
    if !g.value.oneNotBefore {
      return Err(AssertionError(AllBeforeMessage));
    }
    if !g.value.shouldRun {
      return Ok(());
    }
    r := FinishRun(sm, p, component, train, run(g.value.data), g.value.maxima);
  }

  // ---------------------------------------------------------------------------------------------
  // One pass of `_run_component_for_ever`

  /** The folder, the watermarks and the result after a pass. */
  datatype Pass = Pass(disk: Disk, memory: map<string, int>, result: Result<()>)

  /** The catalog ids as run targets. */
  function Somes(ids: seq<TrainId>): (r: seq<Option<TrainId>>)
    ensures |r| == |ids| && forall i :: 0 <= i < |ids| ==> r[i] == Some(ids[i])
  {
    seq(|ids|, i requires 0 <= i < |ids| => Some(ids[i]))
  }

  /** The runs of a pass: every train of the catalog as loaded when the pass starts, or one run without a train. */
  function PassTrains(disk: Disk, component: Config.ComponentConfig): seq<Option<TrainId>> {
    if component.runPerTrain then Somes(Catalog(disk)) else [None]
  }

  /** The runs one after the other, each seeing what the previous one stored; the first error ends the pass. */
  function RunAll(disk: Disk, memory: map<string, int>, component: Config.ComponentConfig,
                  components: map<string, Config.ComponentConfig>, trains: seq<Option<TrainId>>, now: int,
                  roundCoarse: Rounder, run: ComponentRun): Pass
    decreases |trains|
  {
    if trains == [] then Pass(disk, memory, Ok(()))
    else
      var e := RunOnce(disk, memory, component, components, trains[0], now, roundCoarse, run, IntendedDidRun, IntendedKey);
      var next := Registered(memory, Key(component.name, trains[0]), e);
      if e.result.Err? then Pass(e.disk, next, e.result)
      else RunAll(e.disk, next, component, components, trains[1..], now, roundCoarse, run)
  }

  function OnePass(disk: Disk, memory: map<string, int>, component: Config.ComponentConfig,
                   components: map<string, Config.ComponentConfig>, now: int, roundCoarse: Rounder,
                   run: ComponentRun): Pass
  {
    RunAll(disk, memory, component, components, PassTrains(disk, component), now, roundCoarse, run)
  }

  /** The watermark keys of the component for the given runs. */
  function TrainKeys(name: string, trains: seq<Option<TrainId>>): set<string> {
    set i | 0 <= i < |trains| :: Key(name, trains[i])
  }

  /** A pass moves only the watermarks of the component for the trains it ran. */
  lemma {:induction false} RunAllKeys(disk: Disk, memory: map<string, int>, component: Config.ComponentConfig,
                                      components: map<string, Config.ComponentConfig>, trains: seq<Option<TrainId>>,
                                      now: int, roundCoarse: Rounder, run: ComponentRun, k: string)
    requires k !in TrainKeys(component.name, trains)
    ensures var m := RunAll(disk, memory, component, components, trains, now, roundCoarse, run).memory;
      (k in m <==> k in memory) && (k in m ==> m[k] == memory[k])
    decreases |trains|
  {
    if trains != [] {
      var e := RunOnce(disk, memory, component, components, trains[0], now, roundCoarse, run, IntendedDidRun, IntendedKey);
      var next := Registered(memory, Key(component.name, trains[0]), e);
      assert Key(component.name, trains[0]) in TrainKeys(component.name, trains);
      if e.result.Ok? {
        assert TrainKeys(component.name, trains[1..]) <= TrainKeys(component.name, trains) by {
          forall j | 0 <= j < |trains[1..]|
            ensures Key(component.name, trains[1..][j]) in TrainKeys(component.name, trains)
          {
            assert trains[1..][j] == trains[j + 1];
          }
        }
        RunAllKeys(e.disk, next, component, components, trains[1..], now, roundCoarse, run, k);
      }
    }
  }

  /** A pass whose run fails stops there: the later trains are not run. */
  lemma FailedRunEndsPass(disk: Disk, memory: map<string, int>, component: Config.ComponentConfig,
                          components: map<string, Config.ComponentConfig>, trains: seq<Option<TrainId>>, now: int,
                          roundCoarse: Rounder, run: ComponentRun)
    requires trains != []
    requires RunOnce(disk, memory, component, components, trains[0], now, roundCoarse, run, IntendedDidRun, IntendedKey).result.Err?
    ensures var e := RunOnce(disk, memory, component, components, trains[0], now, roundCoarse, run, IntendedDidRun, IntendedKey);
      RunAll(disk, memory, component, components, trains, now, roundCoarse, run)
        == Pass(e.disk, Registered(memory, Key(component.name, trains[0]), e), e.result)
  {
  }

  /** One pass of `_run_component_for_ever` (without the pause between passes). */
  method RunPass(sm: StorageManager, p: RunnerPersistence, component: Config.ComponentConfig,
                 components: map<string, Config.ComponentConfig>, now: int, roundCoarse: Rounder, run: ComponentRun)
    returns (r: Result<()>)
    requires sm.Valid()
    modifies sm, p
    ensures var pass := OnePass(old(sm.disk), old(p.memory), component, components, now, roundCoarse, run);
      sm.disk == pass.disk && p.memory == pass.memory && r == pass.result
    ensures sm.Valid()
  {
    var trains: seq<Option<TrainId>> := [None];
    if component.runPerTrain {
      var ids := sm.RetrieveTrainIds();
      trains := Somes(ids);
    }
    ghost var goal := RunAll(sm.disk, p.memory, component, components, trains, now, roundCoarse, run);
    var rest := trains;
    while rest != []
      invariant sm.Valid()
      invariant RunAll(sm.disk, p.memory, component, components, rest, now, roundCoarse, run) == goal
      decreases |rest|
    {
      r := RunComponentOnce(sm, p, component, components, rest[0], now, roundCoarse, run);
      if r.Err? {
        return;
      }
      assert r.value == ();
      rest := rest[1..];
    }
    r := Ok(());
  }
}
