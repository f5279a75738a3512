/**
 * The TOML configuration: one table per component, each with its dependencies, turned into component and
 * dependency descriptors, plus the `globals` table holding the storage folder and the watermark file.
 */
module Config {
  import opened Base
  import opened Seqs

  /** A TOML value. Tables keep their keys in document order; TOML forbids a key twice in one table. */
  datatype Value =
    | Str(s: string)
    | Int(i: int)
    | Bool(b: bool)
    | Real(x: real)
    | List(items: seq<Value>)
    | Table(entries: seq<(string, Value)>)

  /** Python truthiness of a TOML value. */
  predicate Truthy(v: Value) {
    match v
    case Str(s) => s != ""
    case Int(i) => i != 0
    case Bool(b) => b
    case Real(x) => x != 0.0
    case List(items) => items != []
    case Table(entries) => entries != []
  }

  predicate HasKey(t: seq<(string, Value)>, k: string) {
    exists i :: 0 <= i < |t| && t[i].0 == k
  }

  /** Looks a key up in a table. */
  function Get(t: seq<(string, Value)>, k: string): (r: Option<Value>)
    ensures r.Some? <==> HasKey(t, k)
    ensures r.Some? ==> (k, r.value) in t
  {
    if t == [] then None
    else if t[0].0 == k then Some(t[0].1)
    else
      var r := Get(t[1..], k);
      assert HasKey(t[1..], k) ==> HasKey(t, k) by {
        if HasKey(t[1..], k) {
          var i :| 0 <= i < |t[1..]| && t[1..][i].0 == k;
          assert t[i + 1].0 == k;
        }
      }
      assert HasKey(t, k) ==> HasKey(t[1..], k) by {
        if HasKey(t, k) {
          var i :| 0 <= i < |t| && t[i].0 == k;
          assert i > 0 && t[1..][i - 1].0 == k;
        }
      }
      r
  }

  /** `ConfigDependency`, without its back-reference to the shared component dictionary. */
  datatype DependencyConfig = DependencyConfig(
    component: string,
    batchSize: Option<int>,
    frequency: Option<string>,
    allTrains: bool,
    before: bool)

  /** `ConfigComponent`. The class name is kept as written; it is only looked up when the runner starts. */
  datatype ComponentConfig = ComponentConfig(
    name: string,
    componentClass: Value,
    multipleOutputs: bool,
    perTrain: bool,
    runPerTrain: bool,
    dependencies: seq<DependencyConfig>,
    settings: seq<(string, Value)>)

  datatype Configuration = Configuration(
    storageFolder: string,
    runnerPersistence: string,
    components: map<string, ComponentConfig>)

  /** The keyword arguments `ConfigDependency(**dep, components=...)` accepts from a dependency table. */
  const DependencyFields: set<string> := {"component", "batch_size", "frequency", "all_trains", "before"}

  /** The keys a component table gives up to its descriptor; every other key is a setting. */
  const Reserved: set<string> := {"dependencies", "class", "multiple_outputs", "per_train", "run_per_train"}

  function OptionalInt(t: seq<(string, Value)>, k: string): Result<Option<int>> {
    var v := Get(t, k);
    if v.None? then Ok(None)
    else if v.value.Int? then Ok(Some(v.value.i))
    else Err(TypeError(k))
  }

  function OptionalString(t: seq<(string, Value)>, k: string): Result<Option<string>> {
    var v := Get(t, k);
    if v.None? then Ok(None)
    else if v.value.Str? then Ok(Some(v.value.s))
    else Err(TypeError(k))
  }

  /** A flag read through truthiness, `default` when absent. */
  function Flag(t: seq<(string, Value)>, k: string, default: bool): (b: bool)
    ensures !HasKey(t, k) ==> b == default
    ensures HasKey(t, k) ==> (b <==> Truthy(Get(t, k).value))
  {
    var v := Get(t, k);
    if v.None? then default else Truthy(v.value)
  }

  /**
   * One dependency: it must be a table whose keys are dependency fields and which names its component;
   * the other fields default to no batch size, no frequency, not all trains, not before.
   */
  function ParseDependency(dep: Value): (r: Result<DependencyConfig>)
    ensures !dep.Table? ==> r.Err? && r.error.TypeError?
    ensures dep.Table? && (exists i :: 0 <= i < |dep.entries| && dep.entries[i].0 !in DependencyFields) ==>
      r.Err? && r.error.TypeError?
    ensures dep.Table? && !HasKey(dep.entries, "component") ==> r.Err? && r.error.TypeError?
    ensures r.Ok? ==> Get(dep.entries, "component") == Some(Str(r.value.component))
    ensures r.Ok? ==> (r.value.batchSize.Some? <==> HasKey(dep.entries, "batch_size"))
    ensures r.Ok? ==> (r.value.frequency.Some? <==> HasKey(dep.entries, "frequency"))
    ensures r.Ok? ==> r.value.allTrains == Flag(dep.entries, "all_trains", false)
    ensures r.Ok? ==> r.value.before == Flag(dep.entries, "before", false)
  {
    if !dep.Table? then Err(TypeError("argument after ** must be a mapping"))
    else
      var t := dep.entries;
      if exists i :: 0 <= i < |t| && t[i].0 !in DependencyFields then Err(TypeError("unexpected keyword argument"))
      else
        var component := Get(t, "component");
        if component.None? then Err(TypeError("missing 1 required positional argument: 'component'"))
        else if !component.value.Str? then Err(TypeError("component"))
        else
          var batchSize :- OptionalInt(t, "batch_size");
          var frequency :- OptionalString(t, "frequency");
          Ok(DependencyConfig(component.value.s, batchSize, frequency, Flag(t, "all_trains", false),
                              Flag(t, "before", false)))
  }

  /** The list comprehension over the dependencies: every one parsed, in order; the first failure ends it. */
  function ParseDependencies(deps: seq<Value>): (r: Result<seq<DependencyConfig>>)
    ensures r.Ok? <==> forall i :: 0 <= i < |deps| ==> ParseDependency(deps[i]).Ok?
    ensures r.Ok? ==> |r.value| == |deps| && forall i :: 0 <= i < |deps| ==> r.value[i] == ParseDependency(deps[i]).value
  {
    if deps == [] then Ok([])
    else
      var first :- ParseDependency(deps[0]);
      var rest :- ParseDependencies(deps[1..]);
      assert forall i :: 1 <= i < |deps| ==> deps[i] == deps[1..][i - 1];
      Ok([first] + rest)
  }

  /**
   * What `for dep in dependencies` walks: a list's items; an empty string or table yields nothing; any other
   * value fails (a string's characters and a table's keys are not mappings, a number is not iterable).
   */
  function DependencyItems(v: Option<Value>): (r: Result<seq<Value>>)
    ensures v.None? ==> r == Ok([])
    ensures v.Some? && v.value.List? ==> r == Ok(v.value.items)
  {
    if v.None? then Ok([])
    else
      match v.value
      case List(items) => Ok(items)
      case Str(s) => if s == "" then Ok([]) else Err(TypeError("argument after ** must be a mapping"))
      case Table(entries) => if entries == [] then Ok([]) else Err(TypeError("argument after ** must be a mapping"))
      case _ => Err(TypeError("object is not iterable"))
  }

  /**
   * One component table: its dependencies are parsed first, then the required `class` is taken; the flags
   * default to single output, per train, run per train; what is left of the table is its settings.
   */
  function ParseComponent(name: string, value: Value): (r: Result<ComponentConfig>)
    ensures r.Ok? ==> r.value.name == name && value.Table?
  {
    if value.List? then Err(TypeError("pop expected at most 1 argument"))
    else if !value.Table? then Err(AttributeError("pop"))
    else
      var t := value.entries;
      var items :- DependencyItems(Get(t, "dependencies"));
      var deps :- ParseDependencies(items);
      var componentClass := Get(t, "class");
      if componentClass.None? then Err(KeyError("class"))
      else
        Ok(ComponentConfig(name, componentClass.value, Flag(t, "multiple_outputs", false), Flag(t, "per_train", true),
                           Flag(t, "run_per_train", true), deps, Filter(t, (e: (string, Value)) => e.0 !in Reserved)))
  }

  /**
   * A component table without `class` fails with KeyError once its dependencies parse; a parsed component
   * carries the table's class, its flags with their defaults, its parsed dependencies, and as settings exactly
   * the entries whose keys it does not reserve.
   */
  lemma ParseComponentFields(name: string, value: Value)
    ensures value.Table? && !HasKey(value.entries, "class") && DependencyItems(Get(value.entries, "dependencies")).Ok?
            && ParseDependencies(DependencyItems(Get(value.entries, "dependencies")).value).Ok? ==>
      ParseComponent(name, value) == Err(KeyError("class"))
    ensures var r := ParseComponent(name, value);
      r.Ok? ==> Get(value.entries, "class") == Some(r.value.componentClass)
    ensures var r := ParseComponent(name, value);
      r.Ok? ==>
        (DependencyItems(Get(value.entries, "dependencies")).Ok? &&
         ParseDependencies(DependencyItems(Get(value.entries, "dependencies")).value) == Ok(r.value.dependencies))
    ensures var r := ParseComponent(name, value);
      r.Ok? ==> r.value.multipleOutputs == Flag(value.entries, "multiple_outputs", false)
    ensures var r := ParseComponent(name, value);
      r.Ok? ==> r.value.perTrain == Flag(value.entries, "per_train", true)
    ensures var r := ParseComponent(name, value);
      r.Ok? ==> r.value.runPerTrain == Flag(value.entries, "run_per_train", true)
    ensures var r := ParseComponent(name, value);
      r.Ok? ==> forall e :: e in r.value.settings <==> e in value.entries && e.0 !in Reserved
  {
  }

  /** `_parse_components` from a partial result: each table in order, the first failure ending it. */
  function ParseFrom(components: seq<(string, Value)>, acc: map<string, ComponentConfig>)
    : Result<map<string, ComponentConfig>>
  {
    if components == [] then Ok(acc)
    else
      var c :- ParseComponent(components[0].0, components[0].1);
      ParseFrom(components[1..], acc[components[0].0 := c])
  }

  /** `_parse_components`: fills the dictionary the dependencies share, one component at a time. */
  method ParseComponents(components: seq<(string, Value)>) returns (r: Result<map<string, ComponentConfig>>)
    ensures r == ParseFrom(components, map[])
  {
    var parsed: map<string, ComponentConfig> := map[];
    var rest := components;
    while rest != []
      invariant ParseFrom(rest, parsed) == ParseFrom(components, map[])
      decreases |rest|
    {
      var c := ParseComponent(rest[0].0, rest[0].1);
      if c.Err? {
        return Err(c.error);
      }
      parsed := parsed[rest[0].0 := c.value];
      rest := rest[1..];
    }
    r := Ok(parsed);
  }

  /** One step of `_parse_components`: the first table parses and its descriptor goes under its name. */
  lemma ParseFromStep(components: seq<(string, Value)>, acc: map<string, ComponentConfig>)
    requires components != [] && ParseFrom(components, acc).Ok?
    ensures ParseComponent(components[0].0, components[0].1).Ok?
    ensures ParseFrom(components, acc)
         == ParseFrom(components[1..], acc[components[0].0 := ParseComponent(components[0].0, components[0].1).value])
  {
  }

  /** Parsing fails exactly when some component table fails to parse. */
  lemma {:induction false} ParseFromOk(components: seq<(string, Value)>, acc: map<string, ComponentConfig>)
    ensures ParseFrom(components, acc).Ok? <==>
      forall i :: 0 <= i < |components| ==> ParseComponent(components[i].0, components[i].1).Ok?
    decreases |components|
  {
    if components != [] {
      var c := ParseComponent(components[0].0, components[0].1);
      if c.Ok? {
        ParseFromOk(components[1..], acc[components[0].0 := c.value]);
        assert forall i :: 1 <= i < |components| ==> components[i] == components[1..][i - 1];
      }
    }
  }

  /**
   * The parsed dictionary holds exactly the declared names (and what it started with), each under its own name.
   */
  lemma {:induction false} ParseFromNames(components: seq<(string, Value)>, acc: map<string, ComponentConfig>, name: string)
    requires ParseFrom(components, acc).Ok?
    requires forall k :: k in acc ==> acc[k].name == k
    ensures name in ParseFrom(components, acc).value <==> name in acc || HasKey(components, name)
    ensures name in ParseFrom(components, acc).value ==> ParseFrom(components, acc).value[name].name == name
    decreases |components|
  {
    if components != [] {
      ParseFromStep(components, acc);
      var c := ParseComponent(components[0].0, components[0].1).value;
      ParseFromNames(components[1..], acc[components[0].0 := c], name);
      assert HasKey(components[1..], name) ==> HasKey(components, name) by {
        if HasKey(components[1..], name) {
          var i :| 0 <= i < |components[1..]| && components[1..][i].0 == name;
          assert components[i + 1].0 == name;
        }
      }
      assert HasKey(components, name) ==> name == components[0].0 || HasKey(components[1..], name) by {
        if HasKey(components, name) && name != components[0].0 {
          var i :| 0 <= i < |components| && components[i].0 == name;
          assert components[1..][i - 1].0 == name;
        }
      }
    }
  }

  /** A component declared once is parsed from its own table. */
  lemma {:induction false} ParseFromEntry(components: seq<(string, Value)>, acc: map<string, ComponentConfig>, i: nat)
    requires ParseFrom(components, acc).Ok?
    requires i < |components|
    requires forall j :: i < j < |components| ==> components[j].0 != components[i].0
    ensures components[i].0 in ParseFrom(components, acc).value
    ensures ParseComponent(components[i].0, components[i].1).Ok?
    ensures ParseFrom(components, acc).value[components[i].0] == ParseComponent(components[i].0, components[i].1).value
    decreases |components|
  {
    ParseFromStep(components, acc);
    var c := ParseComponent(components[0].0, components[0].1).value;
    var next := acc[components[0].0 := c];
    if i == 0 {
      ParseFromKeeps(components[1..], next, components[0].0);
    } else {
      assert forall j :: i - 1 < j < |components[1..]| ==> components[1..][j].0 != components[1..][i - 1].0 by {
        assert forall j :: i - 1 < j < |components[1..]| ==> components[1..][j] == components[j + 1];
      }
      ParseFromEntry(components[1..], next, i - 1);
      assert components[1..][i - 1] == components[i];
    }
  }

  /** A name no later table declares keeps the descriptor it already has. */
  lemma {:induction false} ParseFromKeeps(components: seq<(string, Value)>, acc: map<string, ComponentConfig>, name: string)
    requires ParseFrom(components, acc).Ok?
    requires name in acc
    requires forall j :: 0 <= j < |components| ==> components[j].0 != name
    ensures name in ParseFrom(components, acc).value && ParseFrom(components, acc).value[name] == acc[name]
    decreases |components|
  {
    if components != [] {
      ParseFromStep(components, acc);
      var c := ParseComponent(components[0].0, components[0].1).value;
      assert forall j :: 0 <= j < |components[1..]| ==> components[1..][j] == components[j + 1];
      ParseFromKeeps(components[1..], acc[components[0].0 := c], name);
    }
  }

  /**
   * `get_component`: the dependency's component looked up in the shared dictionary, None for an unknown name.
   */
  function GetComponent(components: map<string, ComponentConfig>, dep: DependencyConfig): (r: Option<ComponentConfig>)
    ensures r.Some? <==> dep.component in components
  {
    if dep.component in components then Some(components[dep.component]) else None
  }

  /**
   * The lookup happens after parsing, in the dictionary every dependency shares, so a dependency resolves to
   * any declared component, including one declared after it; an undeclared name gives None.
   */
  lemma ResolvesAnyDeclared(components: seq<(string, Value)>, dep: DependencyConfig)
    requires ParseFrom(components, map[]).Ok?
    ensures GetComponent(ParseFrom(components, map[]).value, dep).Some? <==> HasKey(components, dep.component)
    ensures GetComponent(ParseFrom(components, map[]).value, dep).Some? ==>
      GetComponent(ParseFrom(components, map[]).value, dep).value.name == dep.component
  {
    ParseFromNames(components, map[], dep.component);
  }

  /** A table holding only `class` gets every default: one output, per train, run per train, no dependencies. */
  lemma ComponentDefaults(name: string, componentClass: Value)
    ensures ParseComponent(name, Table([("class", componentClass)]))
         == Ok(ComponentConfig(name, componentClass, false, true, true, [], []))
  {
    var t := [("class", componentClass)];
    assert !HasKey(t, "dependencies") && !HasKey(t, "multiple_outputs");
    assert !HasKey(t, "per_train") && !HasKey(t, "run_per_train");
    assert Filter(t, (e: (string, Value)) => e.0 !in Reserved) == [];
  }

  /** A table holding only `component` gets every default: no batch size, no frequency, not all trains, not before. */
  lemma DependencyDefaults(component: string)
    ensures ParseDependency(Table([("component", Str(component))]))
         == Ok(DependencyConfig(component, None, None, false, false))
  {
    var t := [("component", Str(component))];
    assert !HasKey(t, "batch_size") && !HasKey(t, "frequency");
    assert !HasKey(t, "all_trains") && !HasKey(t, "before");
  }

  function StringOr(t: seq<(string, Value)>, k: string, default: string): Result<string> {
    var v := Get(t, k);
    if v.None? then Ok(default)
    else if v.value.Str? then Ok(v.value.s)
    else Err(TypeError(k))
  }

  /** `_parse_config`: the components, then the globals with their two defaults. */
  function ParseConfig(data: seq<(string, Value)>): (r: Result<Configuration>)
    ensures !HasKey(data, "components") ==> r == Err(KeyError("components"))
    ensures r.Ok? ==> HasKey(data, "components") && HasKey(data, "globals")
    ensures r.Ok? ==>
      (Get(data, "components").value.Table? &&
       ParseFrom(Get(data, "components").value.entries, map[]) == Ok(r.value.components))
  {
    var components := Get(data, "components");
    if components.None? then Err(KeyError("components"))
    else if !components.value.Table? then Err(AttributeError("items"))
    else
      var parsed :- ParseFrom(components.value.entries, map[]);
      var globals := Get(data, "globals");
      if globals.None? then Err(KeyError("globals"))
      else if !globals.value.Table? then Err(AttributeError("get"))
      else
        var storage :- StringOr(globals.value.entries, "storage_folder", "data");
        var persistence :- StringOr(globals.value.entries, "runner_persistence", "data/persistence.json");
        Ok(Configuration(storage, persistence, parsed))
  }

  /** An empty `globals` table falls back to "data" and "data/persistence.json"; a missing one fails. */
  lemma GlobalsDefaults(components: seq<(string, Value)>)
    requires ParseFrom(components, map[]).Ok?
    ensures ParseConfig([("components", Table(components)), ("globals", Table([]))])
         == Ok(Configuration("data", "data/persistence.json", ParseFrom(components, map[]).value))
    ensures ParseConfig([("components", Table(components))]) == Err(KeyError("globals"))
  {
    var data := [("components", Table(components)), ("globals", Table([]))];
    assert Get(data, "globals") == Some(Table([]));
    var data2 := [("components", Table(components))];
    assert !HasKey(data2, "globals");
  }
}
