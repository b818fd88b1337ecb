# netatmo-http-api: the metric-flattening transform

The HTTP handler of netatmo-http-api reads the current readings of every
weather station on an account and answers with one flat JSON object: for each
module of each station, each measurement is stored under the metric name
`netatmo.<module name, lowercased>.<measurement key>`. This project models that
transform (main.go:66-76) and proves what it does.

- `upstream.dfy`, module `Upstream`: what the client library hands over after a
  successful read. A `Station` has a name and a sequence of `Module`s; a `Module`
  has a name and a map from measurement key to a dynamically typed `Value`, which
  is either a `float32` (kept as its opaque 32-bit pattern, since the handler only
  copies it) or a value of some other dynamic type. `ModulesOf` lists the modules
  in the order the handler's two outer loops visit them.
- `metric_name.dfy`, module `MetricNames`: ASCII lowercasing of the module name and
  the `"netatmo.%s.%s"` formatting of the metric name, with lemmas that the module
  name is compared case-insensitively, the key case-sensitively, and that a name
  determines its key once the module part is fixed. Dots are not escaped, so
  module `"a.b"` with key `"c"` and module `"a"` with key `"b.c"` share a name.
- `flatten.dfy`, module `Transform`: the pure model (`DataMetrics`, `ModuleMetrics`,
  `FlattenModules`, `Flatten`) and the handler's loop lifted into the method
  `FlattenStations`: two `for` loops over stations and modules, and (in
  `WriteModule`) a `while` loop that takes the keys of the measurement map in an
  arbitrary order, as Go's `range` over a map does. The loop is proved to yield
  exactly `Flatten(stations)`, so the outcome does not depend on that order.
  A measurement that is not a `float32` makes the type assertion `value.(float32)`
  panic; the model returns `Err(TypeAssertionPanic)` for it.
- `flatten_properties.dfy`, module `FlattenProperties`: the promises of the
  transform, proved over the model. `WriteInOrder` and `OrderIrrelevant` restate,
  with the order of the walk over a measurement map made an explicit sequence of
  keys, the guarantee `WriteModule` already gives by choosing each key freely.

The code does not handle a measurement that is not a float32: the type
assertion panics, and the model follows the code.

## Model

| member | source | states |
|---|---|---|
| `Upstream.ModulesOf` | main.go:67-68 | the modules in the order the two outer loops visit them: station by station, each station's modules in order; its content is stated by `ModulesOfMembers` (membership, both directions) and `ModulesOfAppend` (order) |
| `Upstream.ModulesOfMembers` | main.go:67-68 | a module is visited exactly when it belongs to one of the stations |
| `Upstream.ModulesOfAppend` | main.go:67-68 | the modules of two runs of stations are visited one run after the other, so station order decides module order |
| `MetricNames.Lower` | main.go:70 | the lowercased name has the same length, no upper-case ASCII letter, and differs from the input only at upper-case letters, each moved to its lower-case letter |
| `MetricNames.LowerIdempotent` | main.go:70 | lowercasing an already lowercased name changes nothing |
| `MetricNames.MetricKey` | main.go:72 | the formatted name is `"netatmo."`, then the lowercased module name, then `"."`, then the key verbatim, with these lengths |
| `MetricNames.MetricName` | main.go:70-72 | the metric name holds the lowercased module name after the prefix and ends with the key, unchanged |
| `MetricNames.MetricKeyInjective` | main.go:72 | for one module, two keys give the same metric name if and only if they are the same key |
| `MetricNames.ModuleNameCaseInsensitive` | main.go:70-72 | module names equal up to ASCII case give the same metric name for every key |
| `MetricNames.KeyCaseSensitive` | main.go:71-72 | distinct keys, even ones differing only in case, give distinct metric names |
| `MetricNames.IndoorTemperature` | main.go:70-72 | module `"Indoor"` or `"INDOOR"` with key `"temperature"` gives `"netatmo.indoor.temperature"`; key `"Temperature"` does not |
| `MetricNames.SalonHumidityName` | main.go:70-72 | module `"Salon"` with key `"humidity"` gives `"netatmo.salon.humidity"` |
| `MetricNames.DotsAreAmbiguous` | main.go:72 | a module name with a dot can produce the same metric name as another module whose key has a dot |
| `Transform.DataMetrics` | main.go:71-73 | the entries one module's measurement map writes under its lowercased name; its content is stated by `DataMetricsEntries` (each entry and its value, no other entry) and `DataMetricsSize` (one entry per measurement) |
| `Transform.DataMetricsEntries` | main.go:71-73 | a module's measurements yield an entry under each key's metric name holding that key's value, and no other entry |
| `Transform.ModuleMetrics` | main.go:69-73 | every measurement of a module has an entry under its metric name holding exactly its value |
| `Transform.DataMetricsSize` | main.go:71-73 | one module contributes as many entries as it has measurements |
| `Transform.FlattenModules` | main.go:67-75 | after a run of modules, every entry the last module writes is present with that module's value |
| `Transform.StationVisited` | main.go:67-68 | after station `i`, the visited modules are those of the stations before it followed by all of station `i`'s modules |
| `Transform.ModuleVisited` | main.go:68-73 | writing module `j` of a station extends the map of the modules before it by that module's entries |
| `Transform.Flatten` | main.go:66-76 | the transform fails exactly when some measurement of some module of some station is not a float32 |
| `Transform.WriteModule` | main.go:69-74 | walking one module's measurement map in any order panics exactly when a value is not a float32, and otherwise adds that module's entries over the map so far |
| `Transform.FlattenStations` | main.go:66-76 | the handler's nested loops, with the measurement map walked in any order, yield exactly the outcome of `Flatten` |
| `Transform.PanicWitness` | main.go:73 | one non-float32 value in any module of any station makes the whole transform fail |
| `FlattenProperties.FlattenModulesKeys` | main.go:67-74 | a name is in the output if and only if it is the metric name of some measurement key of some visited module |
| `FlattenProperties.FlattenKeys` | main.go:66-76 | for the stations read: every output key is `"netatmo." + lower(module name) + "." + key` of some module and key, and every measurement has its key in the output |
| `FlattenProperties.LastWriteWins` | main.go:67-73 | the value under a name is the value of the last module, in station then module order, that writes that name |
| `FlattenProperties.ValueFromInput` | main.go:73 | every stored value is exactly some input measurement's value, under that measurement's metric name |
| `FlattenProperties.SizeBound` | main.go:66-76 | the output has at most as many keys as there are measurements in all |
| `FlattenProperties.EmptyInput` | main.go:66-76 | no stations, or only modules without measurements, give the empty map |
| `FlattenProperties.StationIrrelevant` | main.go:67-72 | stations with the same modules in the same order give the same outcome, whatever the stations themselves are |
| `FlattenProperties.WriteInOrder` | main.go:71-73 | writing a module's measurements along a given sequence of keys keeps every earlier entry's name and adds the metric name of every key in the sequence |
| `FlattenProperties.OrderIrrelevant` | main.go:71-73 | writing a module's measurements in any order that visits every key gives the same map |
| `FlattenProperties.SingleMeasurement` | main.go:69-73 | a module with one measurement contributes exactly one entry |
| `FlattenProperties.SalonHumidity` | main.go:66-76 | one station with module `"Salon"` reporting humidity gives exactly the entry `"netatmo.salon.humidity"` |
| `FlattenProperties.TwoModules` | main.go:68-73 | two modules in a row give the first one's entries overwritten by the second's |
| `FlattenProperties.CollidingModules` | main.go:68-73 | two modules whose names lowercase alike, both with the same key, give one entry holding the later module's value |
| `FlattenProperties.CollisionAcrossStations` | main.go:67-73 | the same two modules in two different stations give one entry holding the later station's value |
| `FlattenProperties.NonFloatPanics` | main.go:73 | a module with one float32 and one int32 measurement makes the transform fail |

## Left out

- Configuration loading (`Config`, `init`, `check`, main.go:16-40): flag parsing, file reading, YAML decoding and process exit are I/O.
- The client library (`netatmo.NewClient`, `Read`, `Stations`, `Modules`, `Data`, main.go:48-69): network calls into code that is not part of this model; their result is the input `seq<Station>`.
- JSON encoding, the response headers and the response write (main.go:77-86), and `InternalServerError` (main.go:42-45): serialisation and HTTP plumbing.
- The error branches at main.go:55-58, 61-64 and 78-81, which write a 500 and then carry on; only the successful read is modelled.
- `main` and the HTTP server (main.go:89-100): server lifecycle and concurrency between requests.
- What happens after the panic of the type assertion (recovery by the HTTP server, the dropped connection): the model stops at `Err(TypeAssertionPanic)`.
- float32 arithmetic and JSON number formatting: values are only copied, so they are opaque 32-bit patterns.
- MetricNames.Lower: lowercases ASCII letters only; Go's `strings.ToLower` also maps non-ASCII upper-case letters, which this model leaves unchanged.
