/**
 The shapes the weather-station client library hands to the HTTP handler
 after a successful read: stations, each with its modules, each module with
 a name and a map from measurement key to a dynamically typed value.
 */
module Upstream {

  /** The bit pattern of an IEEE 754 single. The handler copies it and never
      computes with it, so it stays an opaque token here. */
  datatype Float32 = Float32(bits: bv32)

  /** A measurement value as the library delivers it: dynamically typed. */
  datatype Value =
    | F32(f: Float32)          // dynamic type float32
    | Other(typeName: string)  // any other dynamic type (an int32, a string, ...)

  datatype Module = Module(moduleName: string, data: map<string, Value>)

  datatype Station = Station(stationName: string, modules: seq<Module>)

  /** Every module of every station, in station order and then in module order:
      the order in which the handler's two outer loops visit them. */
  function ModulesOf(stations: seq<Station>): seq<Module>
  {
    if stations == [] then []
    else ModulesOf(stations[..|stations| - 1]) + stations[|stations| - 1].modules
  }

  /** A module is visited exactly when it belongs to one of the stations. */
  lemma {:induction false} ModulesOfMembers(stations: seq<Station>)
    ensures forall s, m :: s in stations && m in s.modules ==> m in ModulesOf(stations)
    ensures forall m :: m in ModulesOf(stations) ==> exists s :: s in stations && m in s.modules
  {
    if stations != [] {
      var init, last := stations[..|stations| - 1], stations[|stations| - 1];
      ModulesOfMembers(init);
      assert stations == init + [last];
    }
  }

  /** Appending a station appends its modules. */
  lemma ModulesOfSnoc(stations: seq<Station>, s: Station)
    ensures ModulesOf(stations + [s]) == ModulesOf(stations) + s.modules
  {
    assert (stations + [s])[..|stations|] == stations;
  }

  /** The modules of two runs of stations, one after the other, are visited
      one run after the other: station order decides module order. */
  lemma {:induction false} ModulesOfAppend(a: seq<Station>, b: seq<Station>)
    ensures ModulesOf(a + b) == ModulesOf(a) + ModulesOf(b)
    decreases |b|
  {
    if b == [] {
      assert a + b == a;
    } else {
      var init, last := b[..|b| - 1], b[|b| - 1];
      calc {
        ModulesOf(a + b);
        { assert a + b == (a + init) + [last]; }
        ModulesOf((a + init) + [last]);
        { ModulesOfSnoc(a + init, last); }
        ModulesOf(a + init) + last.modules;
        { ModulesOfAppend(a, init); }
        ModulesOf(a) + ModulesOf(init) + last.modules;
        { assert b == init + [last]; ModulesOfSnoc(init, last); }
        ModulesOf(a) + ModulesOf(b);
      }
    }
  }

  /** How many measurements the stations report in all. */
  function MeasurementCount(ms: seq<Module>): nat
  {
    if ms == [] then 0 else MeasurementCount(ms[..|ms| - 1]) + |ms[|ms| - 1].data|
  }
}
