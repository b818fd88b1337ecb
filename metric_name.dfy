/**
 Synthesis of the metric name under which the handler stores a measurement:
 the module name lowercased, the measurement key verbatim, joined as
 "netatmo.<module>.<key>".
 */
module MetricNames {

  const Prefix: string := "netatmo."

  predicate IsUpper(c: char)
  {
    'A' <= c <= 'Z'
  }

  /** ASCII lowercasing of one character. */
  function LowerChar(c: char): (r: char)
    ensures !IsUpper(r)
    ensures !IsUpper(c) ==> r == c
    ensures IsUpper(c) ==> r as int - c as int == 'a' as int - 'A' as int
  {
    if IsUpper(c) then (c as int + ('a' as int - 'A' as int)) as char else c
  }

  /** Lowercasing of a module name (ASCII letters only). */
  function Lower(s: string): (r: string)
    ensures |r| == |s|
    ensures forall i :: 0 <= i < |r| ==> !IsUpper(r[i])
    ensures forall i :: 0 <= i < |s| && !IsUpper(s[i]) ==> r[i] == s[i]
    ensures forall i :: 0 <= i < |s| && IsUpper(s[i]) ==> r[i] as int - s[i] as int == 'a' as int - 'A' as int
  {
    seq(|s|, i requires 0 <= i < |s| => LowerChar(s[i]))
  }

  /** Lowercasing twice is lowercasing once. */
  lemma LowerIdempotent(s: string)
    ensures Lower(Lower(s)) == Lower(s)
  {
  }

  /** The formatted name "netatmo.%s.%s" for an already lowercased module name. */
  function MetricKey(lowerName: string, key: string): (r: string)
    ensures |r| == |Prefix| + |lowerName| + 1 + |key|
    ensures r[..|Prefix|] == Prefix
    ensures r[|Prefix|..|Prefix| + |lowerName|] == lowerName
    ensures r[|Prefix| + |lowerName|] == '.'
    ensures r[|Prefix| + |lowerName| + 1..] == key
  {
    Prefix + lowerName + "." + key
  }

  /** The name a measurement `key` of a module called `moduleName` is stored under. */
  function MetricName(moduleName: string, key: string): (r: string)
    ensures |r| == |Prefix| + |moduleName| + 1 + |key|
    ensures r[..|Prefix|] == Prefix
    ensures r[|Prefix|..|Prefix| + |moduleName|] == Lower(moduleName)
    ensures r[|Prefix| + |moduleName|] == '.'
    ensures r[|Prefix| + |moduleName| + 1..] == key
  {
    MetricKey(Lower(moduleName), key)
  }

  /** With the module part fixed, the name determines the measurement key. */
  lemma MetricKeyInjective(lowerName: string, k1: string, k2: string)
    ensures MetricKey(lowerName, k1) == MetricKey(lowerName, k2) <==> k1 == k2
  {
    if MetricKey(lowerName, k1) == MetricKey(lowerName, k2) {
      var n := |Prefix| + |lowerName| + 1;
      assert k1 == MetricKey(lowerName, k1)[n..];
    }
  }

  /** The module name is compared without regard to ASCII case ... */
  lemma ModuleNameCaseInsensitive(n1: string, n2: string, key: string)
    requires Lower(n1) == Lower(n2)
    ensures MetricName(n1, key) == MetricName(n2, key)
  {
  }

  /** ... but the measurement key is not: two keys that differ only in case give two names. */
  lemma KeyCaseSensitive(moduleName: string, k1: string, k2: string)
    requires k1 != k2
    ensures MetricName(moduleName, k1) != MetricName(moduleName, k2)
  {
    MetricKeyInjective(Lower(moduleName), k1, k2);
  }

  /** Module names "Indoor" and "INDOOR" both lowercase to "indoor". */
  lemma LowerIndoor()
    ensures Lower("Indoor") == "indoor"
    ensures Lower("INDOOR") == "indoor"
  {
  }

  /** Module "Indoor", key "temperature": the module name is lowercased, the key is not. */
  lemma IndoorTemperature()
    ensures MetricName("Indoor", "temperature") == "netatmo.indoor.temperature"
    ensures MetricName("INDOOR", "temperature") == "netatmo.indoor.temperature"
    ensures MetricName("Indoor", "Temperature") != "netatmo.indoor.temperature"
  {
    LowerIndoor();
    assert MetricKey("indoor", "temperature") == "netatmo.indoor.temperature";
    KeyCaseSensitive("Indoor", "Temperature", "temperature");
  }

  /** Module "Salon", key "humidity": the module name is lowercased. */
  lemma SalonHumidityName()
    ensures MetricName("Salon", "humidity") == "netatmo.salon.humidity"
  {
    assert Lower("Salon") == "salon";
  }

  /** The dot is not escaped: a module name holding a dot can collide with a
      different module whose key holds one. */
  lemma DotsAreAmbiguous()
    ensures MetricName("a.b", "c") == MetricName("a", "b.c")
  {
    assert Lower("a.b") == "a.b";
    assert Lower("a") == "a";
  }
}
