/**
 The metric-flattening transform of the HTTP handler: every measurement of
 every module of every station is written into one flat map from metric name
 to float32 value; a later write under the same name replaces an earlier one.
 */
module Transform {
  import opened Upstream
  import opened MetricNames

  /** Why the transform yields no map: the `value.(float32)` type assertion
      met a value of another dynamic type, and the handler panics. */
  datatype Failure = TypeAssertionPanic

  datatype Result<T> = Ok(value: T) | Err(failure: Failure)

  /** The handler's output map, before it is encoded as JSON. */
  type Metrics = map<string, Float32>

  predicate AllFloat32(data: map<string, Value>)
  {
    forall k :: k in data ==> data[k].F32?
  }

  predicate ModulesAllFloat32(ms: seq<Module>)
  {
    forall i :: 0 <= i < |ms| ==> AllFloat32(ms[i].data)
  }

  /** The entries written for one module's measurements, given its lowercased name. */
  function DataMetrics(lowerName: string, data: map<string, Value>): Metrics
    requires AllFloat32(data)
  {
    assert forall k1, k2 :: MetricKey(lowerName, k1) == MetricKey(lowerName, k2) ==> k1 == k2 by {
      forall k1, k2 { MetricKeyInjective(lowerName, k1, k2); }
    }
    map k | k in data :: MetricKey(lowerName, k) := data[k].f
  }

  /** A module's measurements yield an entry under each key's metric name
      holding that key's value, and no other entry. */
  lemma DataMetricsEntries(lowerName: string, data: map<string, Value>)
    requires AllFloat32(data)
    ensures forall k :: k in data ==>
      MetricKey(lowerName, k) in DataMetrics(lowerName, data) && F32(DataMetrics(lowerName, data)[MetricKey(lowerName, k)]) == data[k]
    ensures forall name :: name in DataMetrics(lowerName, data) ==> exists k :: k in data && name == MetricKey(lowerName, k)
  {
    var r := DataMetrics(lowerName, data);
    forall k | k in data ensures MetricKey(lowerName, k) in r && F32(r[MetricKey(lowerName, k)]) == data[k] {
      forall k' | k' in data && MetricKey(lowerName, k') == MetricKey(lowerName, k) ensures k' == k {
        MetricKeyInjective(lowerName, k, k');
      }
    }
  }

  /** The entries written for one module. */
  function ModuleMetrics(m: Module): (r: Metrics)
    requires AllFloat32(m.data)
    ensures forall k :: k in m.data ==> MetricName(m.moduleName, k) in r && F32(r[MetricName(m.moduleName, k)]) == m.data[k]
  {
    DataMetricsEntries(Lower(m.moduleName), m.data);
    DataMetrics(Lower(m.moduleName), m.data)
  }

  /** One module contributes exactly as many entries as it has measurements,
      because distinct keys give distinct names. */
  lemma {:induction false} DataMetricsSize(lowerName: string, data: map<string, Value>)
    requires AllFloat32(data)
    ensures |DataMetrics(lowerName, data)| == |data|
    decreases |data|
  {
    if data != map[] {
      var k :| k in data;
      DataMetricsSize(lowerName, data - {k});
      DataMetricsRemove(lowerName, data, k);
    }
  }

  /** A module's entries are those of its other measurements plus one new entry for `k`. */
  lemma DataMetricsRemove(lowerName: string, data: map<string, Value>, k: string)
    requires AllFloat32(data) && k in data
    ensures AllFloat32(data - {k})
    ensures MetricKey(lowerName, k) !in DataMetrics(lowerName, data - {k})
    ensures DataMetrics(lowerName, data) == DataMetrics(lowerName, data - {k})[MetricKey(lowerName, k) := data[k].f]
  {
    var rest := data - {k};
    var name := MetricKey(lowerName, k);
    assert DataMetrics(lowerName, data) == DataMetrics(lowerName, rest)[name := data[k].f] by {
      DataMetricsUpdate(lowerName, rest, k, data[k]);
      assert rest[k := data[k]] == data;
    }
    forall k' | k' in rest ensures MetricKey(lowerName, k') != name {
      MetricKeyInjective(lowerName, k, k');
    }
  }

  /** Writing one measurement into a module's data overwrites only its own name. */
  lemma DataMetricsUpdate(lowerName: string, data: map<string, Value>, k: string, v: Value)
    requires AllFloat32(data) && v.F32?
    ensures AllFloat32(data[k := v])
    ensures DataMetrics(lowerName, data[k := v]) == DataMetrics(lowerName, data)[MetricKey(lowerName, k) := v.f]
  {
  }

  /** The map after all of `ms` has been written, later modules overwriting earlier ones. */
  function FlattenModules(ms: seq<Module>): (r: Metrics)
    requires ModulesAllFloat32(ms)
    ensures ms != [] ==> forall name :: name in ModuleMetrics(ms[|ms| - 1]) ==>
      name in r && r[name] == ModuleMetrics(ms[|ms| - 1])[name]
  {
    if ms == [] then map[] else FlattenModules(ms[..|ms| - 1]) + ModuleMetrics(ms[|ms| - 1])
  }

  /** The outcome of the transform on what the client read. */
  function Flatten(stations: seq<Station>): (r: Result<Metrics>)
    ensures r.Err? <==> exists m, k :: m in ModulesOf(stations) && k in m.data && m.data[k].Other?
  {
    var ms := ModulesOf(stations);
    if ModulesAllFloat32(ms) then Ok(FlattenModules(ms)) else Err(TypeAssertionPanic)
  }

  /** Writing one more measurement of a module. */
  lemma DataMetricsStep(lowerName: string, data: map<string, Value>, pending: set<string>, k: string)
    requires AllFloat32(data - pending) && k in pending && k in data && data[k].F32?
    ensures AllFloat32(data - (pending - {k}))
    ensures DataMetrics(lowerName, data - (pending - {k}))
         == DataMetrics(lowerName, data - pending)[MetricKey(lowerName, k) := data[k].f]
  {
    assert data - (pending - {k}) == (data - pending)[k := data[k]];
  }

  /** Overwriting one entry of a union is overwriting it in the right operand. */
  lemma UpdateAfterUnion(a: Metrics, b: Metrics, name: string, v: Float32)
    ensures (a + b)[name := v] == a + b[name := v]
  {
  }

  /** Visiting a further module: it is written after everything before it. */
  lemma FlattenModulesSnoc(ms: seq<Module>, m: Module)
    requires ModulesAllFloat32(ms) && AllFloat32(m.data)
    ensures ModulesAllFloat32(ms + [m])
    ensures FlattenModules(ms + [m]) == FlattenModules(ms) + ModuleMetrics(m)
  {
    assert (ms + [m])[..|ms|] == ms;
  }

  /** One module's pass of the handler's innermost loop: every measurement is
      written under its metric name, in whatever order the map is walked. If a
      value is not a float32 the type assertion panics. */
  method WriteModule(values: Metrics, sensor: Module) returns (r: Result<Metrics>)
    ensures r.Err? <==> !AllFloat32(sensor.data)
    ensures r.Ok? ==> r.value == values + ModuleMetrics(sensor)
  {
    var data := sensor.data;
    var moduleName := Lower(sensor.moduleName);
    var written := values;
    var pending := data.Keys;
    while pending != {}
      invariant pending <= data.Keys
      invariant AllFloat32(data - pending)
      invariant written == values + DataMetrics(moduleName, data - pending)
      decreases pending
    {
      var key :| key in pending;
      if data[key].Other? {
        return Err(TypeAssertionPanic);
      }
      var metricName := MetricKey(moduleName, key);
      DataMetricsStep(moduleName, data, pending, key);
      UpdateAfterUnion(values, DataMetrics(moduleName, data - pending), metricName, data[key].f);
      written := written[metricName := data[key].f];
      pending := pending - {key};
    }
    assert data - pending == data;
    return Ok(written);
  }

  /** The flattening loop of the handler. The stations are walked in order, the
      modules of each station in order, and each module's measurement map in an
      order the caller cannot know (Go's map iteration order); the result is the
      same for every such order. */
  method FlattenStations(stations: seq<Station>) returns (r: Result<Metrics>)
    ensures r == Flatten(stations)
  {
    var values: Metrics := map[];
    for i := 0 to |stations|
      invariant ModulesAllFloat32(ModulesOf(stations[..i]))
      invariant values == FlattenModules(ModulesOf(stations[..i]))
    {
      var station := stations[i];
      ghost var visited := ModulesOf(stations[..i]);
      assert visited + station.modules[..0] == visited;
      for j := 0 to |station.modules|
        invariant ModulesAllFloat32(visited + station.modules[..j])
        invariant values == FlattenModules(visited + station.modules[..j])
      {
        var sensor := station.modules[j];
        var written := WriteModule(values, sensor);
        if written.Err? {
          PanicWitness(stations, i, j);
          return written;
        }
        ModuleVisited(visited, station.modules, j);
        values := written.value;
      }
      assert station.modules[..|station.modules|] == station.modules;
      StationVisited(stations, i);
    }
    assert stations[..|stations|] == stations;
    return Ok(values);
  }

  /** The outer loop's step: station `i` contributes all its modules. */
  lemma StationVisited(stations: seq<Station>, i: nat)
    requires i < |stations|
    ensures ModulesOf(stations[..i + 1]) == ModulesOf(stations[..i]) + stations[i].modules
  {
    assert stations[..i + 1] == stations[..i] + [stations[i]];
    ModulesOfSnoc(stations[..i], stations[i]);
  }

  /** The middle loop's step: module `j` is written after the ones before it. */
  lemma ModuleVisited(visited: seq<Module>, modules: seq<Module>, j: nat)
    requires j < |modules| && ModulesAllFloat32(visited + modules[..j]) && AllFloat32(modules[j].data)
    ensures ModulesAllFloat32(visited + modules[..j + 1])
    ensures FlattenModules(visited + modules[..j + 1]) == FlattenModules(visited + modules[..j]) + ModuleMetrics(modules[j])
  {
    FlattenModulesSnoc(visited + modules[..j], modules[j]);
    assert visited + modules[..j + 1] == (visited + modules[..j]) + [modules[j]];
  }

  /** A module anywhere in the input with a value that is not a float32 makes
      the whole transform panic. */
  lemma PanicWitness(stations: seq<Station>, i: nat, j: nat)
    requires i < |stations| && j < |stations[i].modules|
    requires !AllFloat32(stations[i].modules[j].data)
    ensures Flatten(stations).Err?
  {
    var m := stations[i].modules[j];
    ModulesOfMembers(stations);
    assert stations[i] in stations && m in stations[i].modules;
    var k :| k in m.data && !m.data[k].F32?;
  }
}
