/**
 * The sensor components: `OilPressureNotMatchingRPMsComponent` keeps the rows where a motor's oil pressure
 * and RPM disagree, `TrainTooFastComponent` the rows above the speed limit, sorted by time.
 */
module Sensors {
  import opened Base
  import opened Seqs
  import opened Frames
  import opened Detection

  /** Some motor has a faulty RPM or a faulty oil pressure label. */
  predicate AnyFaulty(m: Row) {
    Holds(m, "faulty_oil_press_1") || Holds(m, "faulty_oil_press_2") || Holds(m, "faulty_rpm_1") || Holds(m, "faulty_rpm_2")
  }

  /** For the motor, exactly one of oil pressure and RPM reads zero. */
  predicate Mismatch(r: Row, motor: int) {
    IsZero(OilPress(r, motor)) != IsZero(Rpm(r, motor))
  }

  predicate EitherMismatch(r: Row) {
    Mismatch(r, 1) || Mismatch(r, 2)
  }

  /** A row gets a faulty label exactly when some motor's readings disagree. */
  lemma FaultyIsMismatch(r: Row)
    ensures AnyFaulty(MotorRow(r)) == EitherMismatch(r)
  {
  }

  /** `OilPressureNotMatchingRPMsComponent.run`. */
  function OilPressureNotMatchingRpm(source: Frame): Result<Frame> {
    var df :- StoppedMotors(source);
    Ok(df.(rows := Filter(df.rows, AnyFaulty)))
  }

  /**
   * The component keeps exactly the rows where, for some motor, one of oil pressure and RPM is zero and the
   * other is not, in their order, each with its values and the motor labels added.
   */
  lemma OilPressureNotMatchingRpmRows(source: Frame)
    requires OilPressureNotMatchingRpm(source).Ok?
    ensures var out := OilPressureNotMatchingRpm(source).value;
      out.index == source.index && out.columns == source.columns + MotorFlags &&
      out.rows == Map(Filter(source.rows, EitherMismatch), MotorRow)
  {
    var df := StoppedMotors(source).value;
    assert forall i :: 0 <= i < |source.rows| ==> df.rows[i] == MotorRow(source.rows[i]);
    forall x
      ensures EitherMismatch(x) == AnyFaulty(MotorRow(x))
    {
      FaultyIsMismatch(x);
    }
    FilterMap(source.rows, df.rows, MotorRow, AnyFaulty, EitherMismatch);
  }

  // ---------------------------------------------------------------------------------------------
  // TrainTooFastComponent

  predicate TooFast(r: Row) {
    Above(CellAt(r, "speed"), SpeedLimit)
  }

  predicate Flagged(m: Row) {
    Holds(m, "speed_too_high")
  }

  /** The speed label of one row. */
  function SpeedRow(r: Row): Row {
    CheckRow([SpeedCheck], r)
  }

  /**
   * `TrainTooFastComponent.run`: the first input, whatever its name (none at all stops the iteration), with
   * the speed label, the rows above the limit, sorted by time. The inputs are the keyword arguments in the
   * order they were passed, which is the order the runner gathered the dependencies in.
   */
  function TrainTooFast(inputs: seq<(string, Frame)>): Result<Frame> {
    if inputs == [] then Err(StopIteration)
    else
      var df :- TrainSpeed(inputs[0].1);
      Ok(df.(rows := SortBy(Filter(df.rows, Flagged), Ts)))
  }

  /**
   * The component returns, sorted by time, exactly the rows of its first input whose speed is above 120,
   * each with the speed label added: never more rows than it was given.
   */
  lemma TrainTooFastRows(inputs: seq<(string, Frame)>)
    requires TrainTooFast(inputs).Ok?
    ensures inputs != []
    ensures var out := TrainTooFast(inputs).value;
      var source := inputs[0].1;
      SortedBy(out.rows, Ts) &&
      multiset(out.rows) == multiset(Map(Filter(source.rows, TooFast), SpeedRow)) &&
      |out.rows| <= |source.rows| &&
      out.columns == source.columns + {"speed_too_high"}
  {
    var source := inputs[0].1;
    var df := TrainSpeed(source).value;
    forall i | 0 <= i < |source.rows|
      ensures df.rows[i] == SpeedRow(source.rows[i])
    {
      assert df.rows[i] == CheckRow([SpeedCheck], source.rows[i]);
    }
    forall x
      ensures TooFast(x) == Flagged(SpeedRow(x))
    {
      CheckRowLabels([SpeedCheck], x, 0);
    }
    FilterMap(source.rows, df.rows, SpeedRow, Flagged, TooFast);
    assert Outputs([SpeedCheck]) == {"speed_too_high"} by {
      assert [SpeedCheck][0].output == "speed_too_high";
    }
  }
}
