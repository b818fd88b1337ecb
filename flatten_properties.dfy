/**
 What the flattening transform promises, stated over the pure model of
 module Transform (and so, through FlattenStations' postcondition, over the
 handler's loop).
 */
module FlattenProperties {
  import opened Upstream
  import opened MetricNames
  import opened Transform

  /** The metric names are exactly the synthesized names of the measurements:
      none is dropped and none is invented. */
  lemma {:induction false} FlattenModulesKeys(ms: seq<Module>)
    requires ModulesAllFloat32(ms)
    ensures forall name :: name in FlattenModules(ms) <==>
      exists m, k :: m in ms && k in m.data && name == MetricName(m.moduleName, k)
  {
    if ms != [] {
      var init, last := ms[..|ms| - 1], ms[|ms| - 1];
      FlattenModulesKeys(init);
      assert ms == init + [last];
      forall name | name in FlattenModules(ms)
        ensures exists m, k :: m in ms && k in m.data && name == MetricName(m.moduleName, k)
      {
        if name !in ModuleMetrics(last) {
          assert name in FlattenModules(init);
          var m, k :| m in init && k in m.data && name == MetricName(m.moduleName, k);
          assert m in ms;
        }
      }
    }
  }

  /** The same, for what the handler reads: every key of the output is
      "netatmo." + lower(module name) + "." + measurement key of some module of
      some station, and every measurement has its key in the output. */
  lemma FlattenKeys(stations: seq<Station>, out: Metrics)
    requires Flatten(stations) == Ok(out)
    ensures forall name :: name in out <==>
      exists m, k :: m in ModulesOf(stations) && k in m.data && name == MetricName(m.moduleName, k)
  {
    FlattenModulesKeys(ModulesOf(stations));
  }

  /** On a collision the module visited last wins: the value stored under a
      name is that of the last module that writes the name. */
  lemma {:induction false} LastWriteWins(ms: seq<Module>, i: nat, k: string)
    requires ModulesAllFloat32(ms)
    requires i < |ms| && k in ms[i].data
    requires forall j, k' :: i < j < |ms| && k' in ms[j].data ==>
      MetricName(ms[j].moduleName, k') != MetricName(ms[i].moduleName, k)
    ensures MetricName(ms[i].moduleName, k) in FlattenModules(ms)
    ensures F32(FlattenModules(ms)[MetricName(ms[i].moduleName, k)]) == ms[i].data[k]
  {
    var name := MetricName(ms[i].moduleName, k);
    var init, last := ms[..|ms| - 1], ms[|ms| - 1];
    if i < |ms| - 1 {
      LastWriteWins(init, i, k);
      forall k' | k' in last.data ensures MetricKey(Lower(last.moduleName), k') != name {
        assert MetricName(ms[|ms| - 1].moduleName, k') != name;
      }
      assert name !in ModuleMetrics(last);
    }
  }

  /** Every stored value is, unchanged, the value of some measurement that
      writes under that name. */
  lemma {:induction false} ValueFromInput(ms: seq<Module>, name: string)
    requires ModulesAllFloat32(ms)
    requires name in FlattenModules(ms)
    ensures exists m, k :: m in ms && k in m.data && name == MetricName(m.moduleName, k)
                           && m.data[k] == F32(FlattenModules(ms)[name])
  {
    var init, last := ms[..|ms| - 1], ms[|ms| - 1];
    if name in ModuleMetrics(last) {
      var k :| k in last.data && name == MetricKey(Lower(last.moduleName), k);
      assert last in ms;
    } else {
      ValueFromInput(init, name);
      var m, k :| m in init && k in m.data && name == MetricName(m.moduleName, k)
                  && m.data[k] == F32(FlattenModules(init)[name]);
      assert m in ms;
    }
  }

  /** The output has at most as many keys as the input has measurements. */
  lemma {:induction false} SizeBound(ms: seq<Module>)
    requires ModulesAllFloat32(ms)
    ensures |FlattenModules(ms)| <= MeasurementCount(ms)
  {
    if ms != [] {
      var init, last := ms[..|ms| - 1], ms[|ms| - 1];
      SizeBound(init);
      DataMetricsSize(Lower(last.moduleName), last.data);
      var a, b := FlattenModules(init), ModuleMetrics(last);
      assert (a + b).Keys == a.Keys + b.Keys;
      assert |a.Keys + b.Keys| <= |a.Keys| + |b.Keys|;
    }
  }

  /** No stations, or only modules without measurements, give an empty map. */
  lemma EmptyInput(stations: seq<Station>)
    requires forall s, m :: s in stations && m in s.modules ==> m.data == map[]
    ensures Flatten(stations) == Ok(map[])
  {
    var ms := ModulesOf(stations);
    ModulesOfMembers(stations);
    assert ModulesAllFloat32(ms) by {
      forall i | 0 <= i < |ms| ensures AllFloat32(ms[i].data) {
        assert ms[i] in ms;
      }
    }
    FlattenModulesKeys(ms);
    forall m | m in ms ensures m.data == map[] { }
    assert FlattenModules(ms).Keys == {};
  }

  /** The station takes no part in the metric names: only its modules, in order, matter. */
  lemma {:induction false} StationIrrelevant(s1: seq<Station>, s2: seq<Station>)
    requires |s1| == |s2|
    requires forall i :: 0 <= i < |s1| ==> s1[i].modules == s2[i].modules
    ensures ModulesOf(s1) == ModulesOf(s2)
    ensures Flatten(s1) == Flatten(s2)
  {
    if s1 != [] {
      StationIrrelevant(s1[..|s1| - 1], s2[..|s2| - 1]);
    }
  }

  /** The handler's innermost loop, with the walk over the measurement map
      fixed as the sequence of keys `order`. */
  function WriteInOrder(acc: Metrics, lowerName: string, data: map<string, Value>, order: seq<string>): (r: Metrics)
    requires forall i :: 0 <= i < |order| ==> order[i] in data && data[order[i]].F32?
    ensures forall name :: name in acc ==> name in r
    ensures forall i :: 0 <= i < |order| ==> MetricKey(lowerName, order[i]) in r
  {
    if order == [] then acc
    else
      var k := order[|order| - 1];
      WriteInOrder(acc, lowerName, data, order[..|order| - 1])[MetricKey(lowerName, k) := data[k].f]
  }

  /** The measurements a walk along `order` has visited. */
  function Visited(data: map<string, Value>, order: seq<string>): map<string, Value>
  {
    map k | k in data && k in order :: data[k]
  }

  lemma VisitedSnoc(data: map<string, Value>, order: seq<string>, k: string)
    requires k in data
    ensures Visited(data, order + [k]) == Visited(data, order)[k := data[k]]
  {
  }

  /** Whatever order the walk takes, as long as it visits every key, the
      result is the one of the model. */
  lemma OrderIrrelevant(acc: Metrics, lowerName: string, data: map<string, Value>, order: seq<string>)
    requires AllFloat32(data)
    requires forall i :: 0 <= i < |order| ==> order[i] in data
    requires forall k :: k in data ==> k in order
    ensures WriteInOrder(acc, lowerName, data, order) == acc + DataMetrics(lowerName, data)
  {
    WritesPrefix(acc, lowerName, data, order);
    assert Visited(data, order) == data;
  }

  lemma {:induction false} WritesPrefix(acc: Metrics, lowerName: string, data: map<string, Value>, order: seq<string>)
    requires AllFloat32(data)
    requires forall i :: 0 <= i < |order| ==> order[i] in data
    ensures AllFloat32(Visited(data, order))
    ensures WriteInOrder(acc, lowerName, data, order) == acc + DataMetrics(lowerName, Visited(data, order))
  {
    if order != [] {
      var init, k := order[..|order| - 1], order[|order| - 1];
      WritesPrefix(acc, lowerName, data, init);
      assert order == init + [k];
      VisitedSnoc(data, init, k);
      var seen := Visited(data, init);
      DataMetricsUpdate(lowerName, seen, k, data[k]);
      UpdateAfterUnion(acc, DataMetrics(lowerName, seen), MetricKey(lowerName, k), data[k].f);
    }
  }

  /** A module with a single measurement contributes a single entry. */
  lemma SingleMeasurement(moduleName: string, key: string, v: Float32)
    ensures AllFloat32(map[key := F32(v)])
    ensures ModuleMetrics(Module(moduleName, map[key := F32(v)])) == map[MetricName(moduleName, key) := v]
  {
    var empty: map<string, Value> := map[];
    assert DataMetrics(Lower(moduleName), empty) == map[];
    DataMetricsUpdate(Lower(moduleName), empty, key, F32(v));
  }

  /** A single module is flattened to its own entries. */
  lemma FlattenSingle(m: Module)
    requires AllFloat32(m.data)
    ensures ModulesAllFloat32([m]) && FlattenModules([m]) == ModuleMetrics(m)
  {
    assert [m] == [] + [m];
    FlattenModulesSnoc([], m);
    assert map[] + ModuleMetrics(m) == ModuleMetrics(m);
  }

  /** One station, one module "Salon" with humidity: one entry "netatmo.salon.humidity". */
  lemma SalonHumidity(v: Float32)
    ensures Flatten([Station("Home", [Module("Salon", map["humidity" := F32(v)])])])
         == Ok(map["netatmo.salon.humidity" := v])
  {
    var m := Module("Salon", map["humidity" := F32(v)]);
    var home := Station("Home", [m]);
    assert ModulesOf([home]) == [m] by {
      assert [home] == [] + [home];
      ModulesOfSnoc([], home);
    }
    SingleMeasurement("Salon", "humidity", v);
    SalonHumidityName();
    FlattenSingle(m);
  }

  /** Two modules whose names lowercase alike, both reporting `key`: one
      entry, holding the value of the later module. */
  lemma CollidingModules(n1: string, n2: string, key: string, a: Float32, b: Float32)
    requires Lower(n1) == Lower(n2)
    ensures var ms := [Module(n1, map[key := F32(a)]), Module(n2, map[key := F32(b)])];
      ModulesAllFloat32(ms) && FlattenModules(ms) == map[MetricName(n1, key) := b]
  {
    var m1, m2 := Module(n1, map[key := F32(a)]), Module(n2, map[key := F32(b)]);
    var name := MetricName(n1, key);
    assert ModuleMetrics(m1) == map[name := a] by {
      SingleMeasurement(n1, key, a);
    }
    assert ModuleMetrics(m2) == map[name := b] by {
      SingleMeasurement(n2, key, b);
    }
    TwoModules(m1, m2);
    assert map[name := a] + map[name := b] == map[name := b];
  }

  /** Two modules are flattened to the first one's entries overwritten by the second's. */
  lemma TwoModules(m1: Module, m2: Module)
    requires AllFloat32(m1.data) && AllFloat32(m2.data)
    ensures ModulesAllFloat32([m1, m2])
    ensures FlattenModules([m1, m2]) == ModuleMetrics(m1) + ModuleMetrics(m2)
  {
    FlattenSingle(m1);
    assert [m1, m2] == [m1] + [m2];
    FlattenModulesSnoc([m1], m2);
  }

  /** The same modules in two different stations: the station plays no part,
      and the later station's value remains. */
  lemma CollisionAcrossStations(a: Float32, b: Float32)
    ensures Flatten([Station("Home", [Module("Indoor", map["temperature" := F32(a)])]),
                     Station("Cabin", [Module("INDOOR", map["temperature" := F32(b)])])])
         == Ok(map["netatmo.indoor.temperature" := b])
  {
    var m1 := Module("Indoor", map["temperature" := F32(a)]);
    var m2 := Module("INDOOR", map["temperature" := F32(b)]);
    var home, cabin := Station("Home", [m1]), Station("Cabin", [m2]);
    assert [home] == [] + [home];
    assert [home, cabin] == [home] + [cabin];
    ModulesOfSnoc([], home);
    ModulesOfSnoc([home], cabin);
    var ms := ModulesOf([home, cabin]);
    assert ms == [m1, m2];
    IndoorTemperature();
    CollidingModules("Indoor", "INDOOR", "temperature", a, b);
    assert ModulesAllFloat32(ms) && FlattenModules(ms) == map["netatmo.indoor.temperature" := b];
  }

  /** A measurement of another dynamic type makes the handler panic, whatever
      the other measurements are. */
  lemma NonFloatPanics(v: Float32)
    ensures Flatten([Station("Home", [Module("Salon", map["humidity" := F32(v), "co2" := Other("int32")])])]).Err?
  {
    var m := Module("Salon", map["humidity" := F32(v), "co2" := Other("int32")]);
    var stations := [Station("Home", [m])];
    assert stations[0] in stations && m in stations[0].modules;
    assert "co2" in m.data && m.data["co2"].Other?;
  }
}
