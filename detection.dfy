/**
 * `outliers_detection`: classifiers that copy a frame and add boolean columns computed row by row.
 * Comparisons follow pandas: a missing value (NaN) is never equal to anything and every ordering with it is
 * false (so `!= 0` holds for it), a text is never equal to a number, and ordering a text or a time span
 * against a number raises TypeError. Reading a column the frame does not have raises KeyError.
 */
module Detection {
  import opened Base
  import opened Frames

  /** The number a cell holds, booleans counting as 1 and 0; None for NaN, texts and time spans. */
  function NumValue(c: Cell): Option<real> {
    match c
    case Num(x) => Some(x)
    case Flag(b) => Some(if b then 1.0 else 0.0)
    case _ => None
  }

  /** `cell == 0`. */
  predicate IsZero(c: Cell) {
    NumValue(c) == Some(0.0)
  }

  /** `cell == text`. */
  predicate TextIs(c: Cell, s: string) {
    c == Text(s)
  }

  /** Whether a cell may be ordered against a number. */
  predicate Orderable(c: Cell) {
    !c.Text? && !c.Span?
  }

  predicate Above(c: Cell, v: real) {
    NumValue(c).Some? && NumValue(c).value > v
  }

  predicate AtMost(c: Cell, v: real) {
    NumValue(c).Some? && NumValue(c).value <= v
  }

  predicate Below(c: Cell, v: real) {
    NumValue(c).Some? && NumValue(c).value < v
  }

  predicate AtLeast(c: Cell, v: real) {
    NumValue(c).Some? && NumValue(c).value >= v
  }

  /** A flag column holds true in the row. */
  predicate Holds(r: Row, column: string) {
    CellAt(r, column) == Flag(true)
  }

  /** Every row's value in the column may be ordered against a number. */
  predicate AllOrderable(rows: seq<Row>, column: string) {
    forall i :: 0 <= i < |rows| ==> Orderable(CellAt(rows[i], column))
  }

  /** Reads the columns in order: KeyError for the first one the frame does not have. */
  function Present(f: Frame, columns: seq<string>): (r: Result<()>)
    ensures r.Ok? <==> forall i :: 0 <= i < |columns| ==> columns[i] in f.columns
    ensures r.Err? ==> r.error.KeyError? && r.error.key in columns && r.error.key !in f.columns
  {
    if columns == [] then Ok(())
    else if columns[0] !in f.columns then Err(KeyError(columns[0]))
    else
      var rest := Present(f, columns[1..]);
      assert forall i :: 1 <= i < |columns| ==> columns[i] == columns[1..][i - 1];
      rest
  }

  /** Orders a column against a number: a KeyError or a TypeError before any row is classified. */
  function Ordered(f: Frame, column: string): (r: Result<()>)
    ensures r.Ok? <==> column in f.columns && AllOrderable(f.rows, column)
  {
    if column !in f.columns then Err(KeyError(column))
    else if !AllOrderable(f.rows, column) then Err(TypeError("'>' not supported between instances of 'str' and 'int'"))
    else Ok(())
  }

  /**
   * The result of adding columns: the same index, the same rows in the same order with the same timestamps,
   * train ids and values, and the new columns on top.
   */
  ghost predicate AddsColumns(f: Frame, g: Frame, added: set<string>) {
    g.index == f.index && g.columns == f.columns + added && |g.rows| == |f.rows| &&
    forall i :: 0 <= i < |f.rows| ==>
      g.rows[i].ts == f.rows[i].ts && g.rows[i].train == f.rows[i].train &&
      forall c :: c !in added ==> CellAt(g.rows[i], c) == CellAt(f.rows[i], c)
  }

  /** The frame with every row passed through `labelRow`. */
  function Relabel(f: Frame, added: set<string>, labelRow: Row -> Row): Frame {
    Frame(f.index, f.columns + added, seq(|f.rows|, i requires 0 <= i < |f.rows| => labelRow(f.rows[i])))
  }

  // ---------------------------------------------------------------------------------------------
  // stopped_motors

  const MotorInputs: seq<string> := ["oil_press_1", "rpm_1", "oil_press_2", "rpm_2", "classification", "stop_distance"]

  const MotorFlags: set<string> := {"motor_stopped_1", "motor_stopped_2", "faulty_rpm_1", "faulty_rpm_2",
                                    "faulty_oil_press_1", "faulty_oil_press_2", "train_stopped",
                                    "stopped_at_station", "stopped_at_workshop", "eco_mode"}

  /** The distance beyond which a stopped train is taken to be in a workshop, in metres. */
  const WorkshopDistance: real := 1000.0

  function OilPress(r: Row, motor: int): Cell {
    CellAt(r, if motor == 1 then "oil_press_1" else "oil_press_2")
  }

  function Rpm(r: Row, motor: int): Cell {
    CellAt(r, if motor == 1 then "rpm_1" else "rpm_2")
  }

  /** The labels of one row. */
  function MotorRow(r: Row): Row {
    var oil1 := IsZero(CellAt(r, "oil_press_1"));
    var rpm1 := IsZero(CellAt(r, "rpm_1"));
    var oil2 := IsZero(CellAt(r, "oil_press_2"));
    var rpm2 := IsZero(CellAt(r, "rpm_2"));
    var stopped1 := oil1 && rpm1;
    var stopped2 := oil2 && rpm2;
    var trainStopped := stopped1 && stopped2;
    var distance := CellAt(r, "stop_distance");
    r.(fields := r.fields["motor_stopped_1" := Flag(stopped1)]["motor_stopped_2" := Flag(stopped2)]
                         ["faulty_rpm_1" := Flag(!oil1 && rpm1)]["faulty_rpm_2" := Flag(!oil2 && rpm2)]
                         ["faulty_oil_press_1" := Flag(oil1 && !rpm1)]["faulty_oil_press_2" := Flag(oil2 && !rpm2)]
                         ["train_stopped" := Flag(trainStopped)]
                         ["stopped_at_station" := Flag(trainStopped && TextIs(CellAt(r, "classification"), "Station")
                                                       && AtMost(distance, WorkshopDistance))]
                         ["stopped_at_workshop" := Flag(trainStopped && Above(distance, WorkshopDistance))]
                         ["eco_mode" := Flag(stopped1 != stopped2)])
  }

  /** `stopped_motors`. */
  function StoppedMotors(f: Frame): (r: Result<Frame>)
    ensures r.Ok? <==> (forall i :: 0 <= i < |MotorInputs| ==> MotorInputs[i] in f.columns) &&
                       AllOrderable(f.rows, "stop_distance")
  {
    var _ :- Present(f, MotorInputs);
    assert MotorInputs[5] == "stop_distance";
    var _ :- Ordered(f, "stop_distance");
    Ok(Relabel(f, MotorFlags, MotorRow))
  }

  /** The labelled frame keeps every row and value and only adds the label columns. */
  lemma StoppedMotorsShape(f: Frame)
    requires StoppedMotors(f).Ok?
    ensures AddsColumns(f, StoppedMotors(f).value, MotorFlags)
  {
    var g := StoppedMotors(f).value;
    forall i | 0 <= i < |f.rows|
      ensures g.rows[i].ts == f.rows[i].ts && g.rows[i].train == f.rows[i].train
      ensures forall c :: c !in MotorFlags ==> CellAt(g.rows[i], c) == CellAt(f.rows[i], c)
    {
      assert g.rows[i] == MotorRow(f.rows[i]);
    }
  }

  function StoppedLabel(motor: int): string {
    if motor == 1 then "motor_stopped_1" else "motor_stopped_2"
  }

  function FaultyRpmLabel(motor: int): string {
    if motor == 1 then "faulty_rpm_1" else "faulty_rpm_2"
  }

  function FaultyOilLabel(motor: int): string {
    if motor == 1 then "faulty_oil_press_1" else "faulty_oil_press_2"
  }

  /**
   * Per motor exactly one state holds at a time among stopped, faulty RPM, faulty oil pressure and running,
   * running (no label) being the case where neither reading is zero.
   */
  lemma MotorStates(r: Row, motor: int)
    requires motor == 1 || motor == 2
    ensures var m := MotorRow(r);
      !(Holds(m, StoppedLabel(motor)) && Holds(m, FaultyRpmLabel(motor))) &&
      !(Holds(m, StoppedLabel(motor)) && Holds(m, FaultyOilLabel(motor))) &&
      !(Holds(m, FaultyRpmLabel(motor)) && Holds(m, FaultyOilLabel(motor))) &&
      ((!Holds(m, StoppedLabel(motor)) && !Holds(m, FaultyRpmLabel(motor)) && !Holds(m, FaultyOilLabel(motor)))
         <==> !IsZero(OilPress(r, motor)) && !IsZero(Rpm(r, motor)))
  {
  }

  /** The train is stopped when both motors are, in eco mode when exactly one is: never both. */
  lemma EcoModeIsOneMotor(r: Row)
    ensures var m := MotorRow(r);
      (Holds(m, "train_stopped") <==> Holds(m, "motor_stopped_1") && Holds(m, "motor_stopped_2")) &&
      (Holds(m, "eco_mode") <==> Holds(m, "motor_stopped_1") != Holds(m, "motor_stopped_2")) &&
      !(Holds(m, "eco_mode") && Holds(m, "train_stopped"))
  {
  }

  /**
   * A stopped train is at a station only as a "Station" within 1000 m, and in a workshop exactly beyond
   * 1000 m whatever its classification: the two never hold together.
   */
  lemma StationOrWorkshop(r: Row)
    ensures var m := MotorRow(r);
      var d := CellAt(r, "stop_distance");
      (Holds(m, "stopped_at_station") <==>
         Holds(m, "train_stopped") && TextIs(CellAt(r, "classification"), "Station") && AtMost(d, WorkshopDistance)) &&
      (Holds(m, "stopped_at_workshop") <==> Holds(m, "train_stopped") && Above(d, WorkshopDistance)) &&
      !(Holds(m, "stopped_at_station") && Holds(m, "stopped_at_workshop"))
  {
  }

  // ---------------------------------------------------------------------------------------------
  // Threshold labels: cooling_sensors, train_speed

  /** A label that holds where `input` is strictly above `bound`. */
  datatype Check = Check(input: string, output: string, bound: real)

  const CoolingChecks: seq<Check> := [
    Check("water_temp_1", "water_overheating_1", 100.0), Check("water_temp_2", "water_overheating_2", 100.0),
    Check("oil_temp_1", "oil_overheating_1", 115.0), Check("oil_temp_2", "oil_overheating_2", 115.0),
    Check("air_temp_1", "air_overheating_1", 65.0), Check("air_temp_2", "air_overheating_2", 65.0)]

  /** The maximum speed of the train, in km/h. */
  const SpeedLimit: real := 120.0

  const SpeedCheck: Check := Check("speed", "speed_too_high", SpeedLimit)

  function Outputs(checks: seq<Check>): set<string> {
    set i | 0 <= i < |checks| :: checks[i].output
  }

  /** The checks in order: the first column missing or holding a text raises. */
  function CheckColumns(f: Frame, checks: seq<Check>): (r: Result<()>)
    ensures r.Ok? <==> forall i :: 0 <= i < |checks| ==> Ordered(f, checks[i].input).Ok?
  {
    if checks == [] then Ok(())
    else
      var _ :- Ordered(f, checks[0].input);
      var rest := CheckColumns(f, checks[1..]);
      assert forall i :: 1 <= i < |checks| ==> checks[i] == checks[1..][i - 1];
      rest
  }

  /** Sets every check's label in one row; a later check writes over an earlier one of the same name. */
  function CheckRow(checks: seq<Check>, r: Row): Row
    decreases |checks|
  {
    if checks == [] then r
    else
      var c := checks[|checks| - 1];
      var before := CheckRow(checks[..|checks| - 1], r);
      before.(fields := before.fields[c.output := Flag(Above(CellAt(r, c.input), c.bound))])
  }

  function Checked(f: Frame, checks: seq<Check>): Result<Frame> {
    var _ :- CheckColumns(f, checks);
    Ok(Relabel(f, Outputs(checks), r => CheckRow(checks, r)))
  }

  /** `cooling_sensors`. */
  function CoolingSensors(f: Frame): Result<Frame> {
    Checked(f, CoolingChecks)
  }

  /** `train_speed`. */
  function TrainSpeed(f: Frame): Result<Frame> {
    Checked(f, [SpeedCheck])
  }

  /** A label set by the checks holds exactly where its input is above its bound (the last check of a name wins). */
  lemma {:induction false} CheckRowLabels(checks: seq<Check>, r: Row, k: int)
    requires 0 <= k < |checks|
    requires forall j :: k < j < |checks| ==> checks[j].output != checks[k].output
    ensures Holds(CheckRow(checks, r), checks[k].output) <==> Above(CellAt(r, checks[k].input), checks[k].bound)
    decreases |checks|
  {
    if k < |checks| - 1 {
      var p := checks[..|checks| - 1];
      assert p[k] == checks[k];
      CheckRowLabels(p, r, k);
    }
  }

  /** Labelling leaves a row's timestamp and train id alone. */
  lemma {:induction false} CheckRowStamps(checks: seq<Check>, r: Row)
    ensures CheckRow(checks, r).ts == r.ts && CheckRow(checks, r).train == r.train
    decreases |checks|
  {
    if checks != [] {
      CheckRowStamps(checks[..|checks| - 1], r);
    }
  }

  /** Columns other than the labels keep their values. */
  lemma {:induction false} CheckRowKeeps(checks: seq<Check>, r: Row, c: string)
    requires c !in Outputs(checks)
    ensures CellAt(CheckRow(checks, r), c) == CellAt(r, c)
    decreases |checks|
  {
    if checks != [] {
      var p := checks[..|checks| - 1];
      assert Outputs(p) <= Outputs(checks) by {
        forall i | 0 <= i < |p|
          ensures p[i].output in Outputs(checks)
        {
          assert p[i] == checks[i];
        }
      }
      assert checks[|checks| - 1].output in Outputs(checks);
      CheckRowKeeps(p, r, c);
    }
  }

  /** A threshold labelling keeps every row and value and only adds its labels. */
  lemma CheckedShape(f: Frame, checks: seq<Check>)
    requires Checked(f, checks).Ok?
    ensures AddsColumns(f, Checked(f, checks).value, Outputs(checks))
  {
    var g := Checked(f, checks).value;
    forall i | 0 <= i < |f.rows|
      ensures g.rows[i].ts == f.rows[i].ts && g.rows[i].train == f.rows[i].train
      ensures forall c :: c !in Outputs(checks) ==> CellAt(g.rows[i], c) == CellAt(f.rows[i], c)
    {
      assert g.rows[i] == CheckRow(checks, f.rows[i]);
      forall c | c !in Outputs(checks)
        ensures CellAt(g.rows[i], c) == CellAt(f.rows[i], c)
      {
        CheckRowKeeps(checks, f.rows[i], c);
      }
      CheckRowStamps(checks, f.rows[i]);
    }
  }

  /**
   * Overheating is strictly above 100 for water, 115 for oil and 65 for air: neither a reading at the limit
   * nor a missing reading is overheating.
   */
  lemma CoolingThresholds(f: Frame, i: int, k: int)
    requires CoolingSensors(f).Ok? && 0 <= i < |f.rows| && 0 <= k < |CoolingChecks|
    ensures var c := CoolingChecks[k];
      Holds(CoolingSensors(f).value.rows[i], c.output) <==> Above(CellAt(f.rows[i], c.input), c.bound)
  {
    assert CoolingSensors(f).value.rows[i] == CheckRow(CoolingChecks, f.rows[i]);
    CheckRowLabels(CoolingChecks, f.rows[i], k);
  }

  /** `speed_too_high` holds exactly where the speed is above 120. */
  lemma SpeedTooHigh(f: Frame, i: int)
    requires TrainSpeed(f).Ok? && 0 <= i < |f.rows|
    ensures Holds(TrainSpeed(f).value.rows[i], "speed_too_high") <==> Above(CellAt(f.rows[i], "speed"), SpeedLimit)
  {
    assert TrainSpeed(f).value.rows[i] == CheckRow([SpeedCheck], f.rows[i]);
    CheckRowLabels([SpeedCheck], f.rows[i], 0);
  }

  // ---------------------------------------------------------------------------------------------
  // train_stopped

  const StopFlags: set<string> := {"at_station", "at_stop_point", "train_not_moving"}

  /** How close to a station a train counts as at the station, in metres (whatever threshold is passed). */
  const StationDistance: real := 500.0

  /** How close to another stop point a train counts as at it, in metres. */
  const StopPointDistance: real := 100.0

  function StopRow(r: Row): Row {
    var station := TextIs(CellAt(r, "classification"), "Station");
    var distance := CellAt(r, "stop_distance");
    var atStation := station && Below(distance, StationDistance);
    var atStop := !station && Below(distance, StopPointDistance);
    r.(fields := r.fields["at_station" := Flag(atStation)]["at_stop_point" := Flag(atStop)]
                         ["train_not_moving" := Flag(Below(CellAt(r, "speed"), 1.0) && (atStation || atStop))])
  }

  /** `train_stopped`: the threshold argument is overwritten with 500 before it is used. */
  function TrainStopped(f: Frame, threshold: real): (r: Result<Frame>)
    ensures r.Ok? <==> "classification" in f.columns && Ordered(f, "stop_distance").Ok? && Ordered(f, "speed").Ok?
  {
    var _ :- Present(f, ["classification"]);
    var _ :- Ordered(f, "stop_distance");
    var _ :- Ordered(f, "speed");
    Ok(Relabel(f, StopFlags, StopRow))
  }

  /** The threshold passed makes no difference. */
  lemma ThresholdIgnored(f: Frame, a: real, b: real)
    ensures TrainStopped(f, a) == TrainStopped(f, b)
  {
  }

  /**
   * A train is at a station (a "Station" closer than 500 m) or at another stop point (closer than 100 m),
   * never both, and it is not moving exactly when its `speed` (in m/s) is below 1 and it is at one of them.
   */
  lemma StopLabels(f: Frame, threshold: real, i: int)
    requires TrainStopped(f, threshold).Ok? && 0 <= i < |f.rows|
    ensures var m := TrainStopped(f, threshold).value.rows[i];
      var r := f.rows[i];
      (Holds(m, "at_station") <==> TextIs(CellAt(r, "classification"), "Station") &&
                                    Below(CellAt(r, "stop_distance"), StationDistance)) &&
      (Holds(m, "at_stop_point") <==> !TextIs(CellAt(r, "classification"), "Station") &&
                                       Below(CellAt(r, "stop_distance"), StopPointDistance)) &&
      !(Holds(m, "at_station") && Holds(m, "at_stop_point")) &&
      (Holds(m, "train_not_moving") <==> Below(CellAt(r, "speed"), 1.0) &&
                                         (Holds(m, "at_station") || Holds(m, "at_stop_point")))
  {
    assert TrainStopped(f, threshold).value.rows[i] == StopRow(f.rows[i]);
  }

  /** The stop labelling keeps every row and value and only adds its three labels. */
  lemma TrainStoppedShape(f: Frame, threshold: real)
    requires TrainStopped(f, threshold).Ok?
    ensures AddsColumns(f, TrainStopped(f, threshold).value, StopFlags)
  {
    var g := TrainStopped(f, threshold).value;
    forall i | 0 <= i < |f.rows|
      ensures g.rows[i].ts == f.rows[i].ts && g.rows[i].train == f.rows[i].train
      ensures forall c :: c !in StopFlags ==> CellAt(g.rows[i], c) == CellAt(f.rows[i], c)
    {
      assert g.rows[i] == StopRow(f.rows[i]);
    }
  }
}
