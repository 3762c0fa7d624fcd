/**
 * The command-line reader of scripts/read.js: it collects the current indoor temperature,
 * indoor humidity and outdoor temperature from advertisements, finishes once all three are
 * present, and prints them as JSON or as influxdb line protocol.
 */
module ReadScript {
  import opened Wrappers
  import Text
  import Reading
  import ThermSmart

  /** The two output formats the script accepts. */
  datatype Format = Influxdb | Json

  function FormatName(f: Format): string
  {
    match f
    case Influxdb => "influxdb"
    case Json => "json"
  }

  /** The `--format` check: only 'influxdb' and 'json' are accepted; anything else ends the script with status 1. */
  function ParseFormat(name: string): (f: Option<Format>)
    ensures f.Some? <==> name == "influxdb" || name == "json"
    ensures f.Some? ==> FormatName(f.value) == name
  {
    if name == "influxdb" then Some(Influxdb)
    else if name == "json" then Some(Json)
    else None
  }

  lemma FormatRoundTrip(f: Format)
    ensures ParseFormat(FormatName(f)) == Some(f)
  {
  }

  /** The keys the script waits for, in the order it checks them. */
  const READINGS: seq<string> := [
    Reading.KeyOf(Reading.Indoor, Reading.Temperature),
    Reading.KeyOf(Reading.Indoor, Reading.Humidity),
    Reading.KeyOf(Reading.Outdoor, Reading.Temperature)
  ]

  /** The keys of a `Map`'s entries, in insertion order. */
  function Keys(entries: seq<(string, Reading.Reading)>): (ks: seq<string>)
    ensures |ks| == |entries|
    ensures forall i :: 0 <= i < |entries| ==> ks[i] == entries[i].0
  {
    seq(|entries|, i requires 0 <= i < |entries| => entries[i].0)
  }

  /** No key occurs twice, as in any `Map`. */
  predicate DistinctKeys(entries: seq<(string, Reading.Reading)>)
  {
    forall i, j :: 0 <= i < j < |entries| ==> entries[i].0 != entries[j].0
  }

  /** Where `key` sits among the entries, or `|entries|` when it is absent. */
  function IndexOfKey(entries: seq<(string, Reading.Reading)>, key: string): (i: nat)
    ensures i <= |entries|
    ensures i < |entries| ==> entries[i].0 == key
    ensures forall j :: 0 <= j < i ==> entries[j].0 != key
    decreases |entries|
  {
    if entries == [] then 0
    else if entries[0].0 == key then 0
    else
      var i := IndexOfKey(entries[1..], key);
      assert forall j :: 1 <= j < i + 1 ==> entries[j] == entries[1..][j - 1];
      i + 1
  }

  /**
   * `Map.prototype.set`: an existing key keeps its place and takes the new value; a new key is
   * appended; every other entry is left as it was.
   */
  function MapSet(entries: seq<(string, Reading.Reading)>, key: string, value: Reading.Reading): (r: seq<(string, Reading.Reading)>)
    requires DistinctKeys(entries)
    ensures DistinctKeys(r)
    ensures key in Keys(entries) ==> |r| == |entries|
    ensures key !in Keys(entries) ==> |r| == |entries| + 1 && r[|entries|] == (key, value)
    ensures forall i :: 0 <= i < |entries| ==>
      r[i] == if entries[i].0 == key then (key, value) else entries[i]
  {
    var i := IndexOfKey(entries, key);
    if i == |entries| then
      assert key !in Keys(entries);
      entries + [(key, value)]
    else
      assert key in Keys(entries) by {
        assert Keys(entries)[i] == key;
      }
      entries[i := (key, value)]
  }

  /** `readings.has(key)`. */
  predicate Has(entries: seq<(string, Reading.Reading)>, key: string)
  {
    key in Keys(entries)
  }

  /** The state of one run: the `readings` Map. */
  class Collector {
    var readings: seq<(string, Reading.Reading)>

    predicate Valid()
      reads this
    {
      DistinctKeys(readings) && forall i :: 0 <= i < |readings| ==> readings[i].0 in READINGS
    }

    constructor ()
      ensures Valid() && readings == []
    {
      readings := [];
    }

    /** The `for` loop over `READINGS`: whether every awaited key is present. */
    method AllCollected() returns (all: bool)
      ensures all <==> forall k :: k in READINGS ==> Has(readings, k)
    {
      var i := 0;
      while i < |READINGS|
        invariant 0 <= i <= |READINGS|
        invariant forall j :: 0 <= j < i ==> Has(readings, READINGS[j])
      {
        if !Has(readings, READINGS[i]) {
          return false;
        }
        i := i + 1;
      }
      return true;
    }

    /**
     * `readingHandler`: a reading whose key is not awaited is ignored; otherwise it is stored
     * under its key, replacing an earlier one; the run is done once all three keys are present.
     */
    method ReadingHandler(r: Reading.Reading) returns (done: bool)
      requires Valid()
      modifies this
      ensures Valid()
      ensures Reading.Key(r) !in READINGS ==> readings == old(readings) && !done
      ensures Reading.Key(r) in READINGS ==> readings == MapSet(old(readings), Reading.Key(r), r)
      ensures done <==> Reading.Key(r) in READINGS && forall k :: k in READINGS ==> Has(readings, k)
    {
      var key := Reading.Key(r);
      if key !in READINGS {
        return false;
      }
      readings := MapSet(readings, key, r);
      done := AllCollected();
    }
  }

  // ---------------------------------------------------------------- output

  /** Tenths that JavaScript prints in plain decimal notation (below 1e21 in magnitude). */
  predicate Printable(v: Reading.Value)
  {
    v.Tenths? ==> -1_000_000_000_000_000_000_0 < v.tenths < 1_000_000_000_000_000_000_0
  }

  /** `${value}` for a decoded value. */
  function ValueText(v: Reading.Value): (s: string)
    requires Printable(v)
    ensures '=' !in s && |s| > 0
  {
    match v
    case Tenths(t) =>
      TenthsHaveNoEquals(t);
      Text.FormatTenths(t)
    case NaN => "NaN"
    case Undefined => "undefined"
  }

  lemma {:induction false} TenthsHaveNoEquals(t: int)
    requires -1_000_000_000_000_000_000_0 < t < 1_000_000_000_000_000_000_0
    ensures '=' !in Text.FormatTenths(t) && |Text.FormatTenths(t)| > 0
    ensures Text.FormatTenths(t)[0] == '-' || '0' <= Text.FormatTenths(t)[0] <= '9'
  {
    var m := if t < 0 then -t else t;
    Text.ParseFormatMagnitude(m);
    var whole := Text.Render(Text.Digits(m / 10, 10));
    assert forall i :: 0 <= i < |whole| ==> whole[i] != '=';
    var f := Text.FormatMagnitude(m);
    assert forall i :: 0 <= i < |f| ==> f[i] != '=' by {
      if m % 10 != 0 {
        var tail := "." + Text.Render([m % 10]);
        assert f == whole + tail;
        assert forall i :: 0 <= i < |tail| ==> tail[i] != '=';
      } else {
        assert f == whole + "";
      }
    }
    if t < 0 {
      assert Text.FormatTenths(t) == "-" + f;
    }
  }

  /** Reads a printed value back. */
  function ParseValueText(s: string): Option<Reading.Value>
  {
    if s == "NaN" then Some(Reading.NaN)
    else if s == "undefined" then Some(Reading.Undefined)
    else match Text.ParseTenths(s)
      case Some(t) => Some(Reading.Tenths(t))
      case None => None
  }

  lemma {:induction false} ValueTextRoundTrip(v: Reading.Value)
    requires Printable(v)
    ensures ParseValueText(ValueText(v)) == Some(v)
  {
    if v.Tenths? {
      TenthsHaveNoEquals(v.tenths);
      Text.ParseFormatTenths(v.tenths);
      var s := ValueText(v);
      assert s != "NaN" && s != "undefined" by {
        assert s[0] != 'N' && s[0] != 'u';
      }
    }
  }

  /** `${sensor}`: a reading without a sensor prints `null`. */
  function SensorText(s: Reading.Sensor): string
  {
    if s == Reading.NoSensor then "null" else Reading.SensorName(s)
  }

  /** One influxdb line: `type,sensor=<sensor> <fieldName>=<value>`. */
  function InfluxLine(r: Reading.Reading, fieldName: string): string
    requires Printable(r.value)
  {
    Reading.KindName(r.kind) + ",sensor=" + SensorText(r.sensor) + " " + fieldName + "=" + ValueText(r.value)
  }

  /** The text before the first ','. */
  function BeforeFirstComma(s: string): string
    decreases |s|
  {
    if s == [] then [] else if s[0] == ',' then [] else [s[0]] + BeforeFirstComma(s[1..])
  }

  /** The text after the last '='. */
  function AfterLastEquals(s: string): string
    decreases |s|
  {
    if s == [] then [] else if s[|s| - 1] == '=' then [] else AfterLastEquals(s[..|s| - 1]) + [s[|s| - 1]]
  }

  lemma {:induction false} BeforeFirstCommaOf(a: string, b: string)
    requires ',' !in a
    ensures BeforeFirstComma(a + "," + b) == a
    decreases |a|
  {
    if a != [] {
      assert (a + "," + b)[1..] == a[1..] + "," + b;
      assert a[0] in a;
      assert forall c :: c in a[1..] ==> c in a;
      BeforeFirstCommaOf(a[1..], b);
      assert [a[0]] + a[1..] == a;
    } else {
      assert (a + "," + b)[0] == ',';
    }
  }

  lemma {:induction false} AfterLastEqualsOf(a: string, b: string)
    requires '=' !in b
    ensures AfterLastEquals(a + "=" + b) == b
    decreases |b|
  {
    var s := a + "=" + b;
    if b == [] {
      assert s[|s| - 1] == '=';
    } else {
      var init := b[..|b| - 1];
      assert b[|b| - 1] in b;
      assert forall c :: c in init ==> c in b;
      assert s[..|s| - 1] == a + "=" + init;
      AfterLastEqualsOf(a, init);
      assert init + [b[|b| - 1]] == b;
    }
  }

  /**
   * An influxdb line can be taken apart again: the measurement before the first ',' is the
   * reading's type, and the text after the last '=' reads back as its value, whatever the
   * field name.
   */
  lemma {:induction false} InfluxLineRoundTrip(r: Reading.Reading, fieldName: string)
    requires Printable(r.value)
    ensures BeforeFirstComma(InfluxLine(r, fieldName)) == Reading.KindName(r.kind)
    ensures ParseValueText(AfterLastEquals(InfluxLine(r, fieldName))) == Some(r.value)
  {
    var kind := Reading.KindName(r.kind);
    var rest := "sensor=" + SensorText(r.sensor) + " " + fieldName + "=" + ValueText(r.value);
    assert ',' !in kind by {
      match r.kind
      case BatteryLevel =>
      case Temperature =>
      case MaximumTemperature =>
      case MinimumTemperature =>
      case Humidity =>
      case MaximumHumidity =>
      case MinimumHumidity =>
    }
    assert InfluxLine(r, fieldName) == kind + "," + rest;
    BeforeFirstCommaOf(kind, rest);
    var head := kind + ",sensor=" + SensorText(r.sensor) + " " + fieldName;
    assert InfluxLine(r, fieldName) == head + "=" + ValueText(r.value);
    AfterLastEqualsOf(head, ValueText(r.value));
    ValueTextRoundTrip(r.value);
  }

  // ---------------------------------------------------------------- addresses

  /** `normAddresses`: every address lower-cased with ':' removed; no list stays no list. */
  function NormAddresses(addresses: Option<seq<string>>): (r: Option<seq<string>>)
    ensures r.None? <==> addresses.None?
    ensures r.Some? ==> |r.value| == |addresses.value|
    ensures r.Some? ==> forall i :: 0 <= i < |r.value| ==>
      ':' !in r.value[i] && Text.NormalizeAddress(r.value[i]) == r.value[i]
    ensures r.Some? ==> forall i :: 0 <= i < |r.value| ==>
      r.value[i] == Text.StripColons(Text.LowerAscii(addresses.value[i]))
  {
    if addresses.None? then None
    else
      var normal := seq(|addresses.value|, i requires 0 <= i < |addresses.value| => Text.NormalizeAddress(addresses.value[i]));
      assert forall i :: 0 <= i < |normal| ==> ':' !in normal[i] && Text.NormalizeAddress(normal[i]) == normal[i] by {
        forall i | 0 <= i < |normal| ensures ':' !in normal[i] && Text.NormalizeAddress(normal[i]) == normal[i] {
          Text.NormalizeAddressNormal(addresses.value[i]);
        }
      }
      Some(normal)
  }

  /**
   * The scanner only strips ':' from a peripheral's address, while the allow-list is lower-cased:
   * a peripheral that reports an upper-case address is never on it.
   */
  lemma {:induction false} UpperCaseAddressNeverListed(p: ThermSmart.Peripheral, addresses: seq<string>, i: nat)
    requires p.address.Some? && i < |p.address.value| && 'A' <= p.address.value[i] <= 'Z'
    ensures !ThermSmart.Listed(ThermSmart.StrippedAddress(p), NormAddresses(Some(addresses)))
  {
    var a := ThermSmart.StrippedAddress(p).value;
    var c := p.address.value[i];
    assert c in p.address.value && c != ':';
    assert c in a;
    var normal := NormAddresses(Some(addresses)).value;
    forall j | 0 <= j < |normal| ensures normal[j] != a {
      Text.NormalizeAddressNormal(addresses[j]);
      assert normal[j] == Text.NormalizeAddress(addresses[j]);
    }
  }
}
