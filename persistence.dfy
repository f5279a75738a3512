/**
 * `RunnerPersistence`: the watermark of every (component, train) pair, kept in memory and written out
 * whole to a JSON file after every change. Timestamps are integer seconds.
 */
module Persistence {
  import opened Base
  import opened Time
  import opened Text
  import opened Frames

  /** The key a watermark is stored under: the component alone when the train id is falsy. */
  function Key(component: string, train: Option<TrainId>): (k: string)
    ensures !IsSet(train) ==> k == component
    ensures IsSet(train) ==> |k| > |component| && k[..|component|] == component && k[|component|] == '_'
  {
    if IsSet(train) then component + "_" + Render(train.value) else component
  }

  /** What `get_last_timestamp` answers for a key: the stored watermark, else `datetime.min`. */
  function Watermark(memory: map<string, int>, key: string): (t: int)
    ensures key in memory ==> t == memory[key]
    ensures key !in memory ==> t == DatetimeMin
  {
    if key in memory then memory[key] else DatetimeMin
  }

  /** A train id of 0 or "" (or none) shares the component's global watermark. */
  lemma FalsyTrainIsGlobal(component: string, train: Option<TrainId>)
    requires train.None? || train.value == Number(0) || train.value == Name("")
    ensures Key(component, train) == component
  {
  }

  /** A component named `a_b` without a train and component `a` for train `b` share one watermark. */
  lemma KeysCollide()
    ensures Key("a_b", None) == Key("a", Some(Name("b")))
  {
    assert Key("a", Some(Name("b"))) == "a" + "_" + "b";
  }

  /** Two numeric train ids of one component have the same key only when they are the same id. */
  lemma NumericKeysDistinct(component: string, a: int, b: int)
    requires a != 0 && b != 0
    requires Key(component, Some(Number(a))) == Key(component, Some(Number(b)))
    ensures a == b
  {
    var ka := Key(component, Some(Number(a)));
    var kb := Key(component, Some(Number(b)));
    assert ka[|component| + 1..] == DecimalString(a);
    assert kb[|component| + 1..] == DecimalString(b);
    DecimalStringInjective(a, b);
  }

  /** Registering overwrites: the key now reads the new timestamp, even an earlier one, and no other key moves. */
  lemma WatermarkAfterRegister(memory: map<string, int>, key: string, t: int, other: string)
    ensures Watermark(memory[key := t], key) == t
    ensures other != key ==> Watermark(memory[key := t], other) == Watermark(memory, other)
  {
  }

  class RunnerPersistence {
    /** `memory`: key to watermark. */
    var memory: map<string, int>
    /** The JSON file at `path`: None while it does not exist. */
    var file: Option<map<string, int>>

    /** The state after the last write: what is in memory is what is in the file. */
    predicate Saved()
      reads this
    {
      file == Some(memory)
    }

    /** Loads the file when it exists, else starts empty; nothing is written. */
    constructor(stored: Option<map<string, int>>)
      ensures file == stored
      ensures memory == if stored.Some? then stored.value else map[]
      ensures stored.Some? ==> Saved()
    {
      file := stored;
      memory := if stored.Some? then stored.value else map[];
    }

    /** `register_last_timestamp`: overwrites the key's watermark and writes the whole map out. */
    method RegisterLastTimestamp(component: string, t: int, train: Option<TrainId>)
      modifies this
      ensures memory == old(memory)[Key(component, train) := t]
      ensures Saved()
    {
      memory := memory[Key(component, train) := t];
      file := Some(memory);
    }

    /** `get_last_timestamp`. */
    method GetLastTimestamp(component: string, train: Option<TrainId>) returns (t: int)
      ensures t == Watermark(memory, Key(component, train))
    {
      var key := Key(component, train);
      if key in memory {
        t := memory[key];
      } else {
        t := DatetimeMin;
      }
    }

    /**
     * The did-run query the runner's cold start makes, which this class as written does not define: as
     * intended, whether the component already ran for the train, that is, a watermark exists under its key.
     */
    method GetDidRun(component: string, train: Option<TrainId>) returns (b: bool)
      ensures b <==> Key(component, train) in memory
    {
      b := Key(component, train) in memory;
    }
  }
}
