/**
 * The HomeKit accessory of index.js, reduced to its state: the map of the four tracked values
 * that decoded readings are routed into, the getters that report them, the low-battery status
 * and the address handed to the scanner.
 */
module Accessory {
  import opened Wrappers
  import Text
  import Reading
  import Protocol

  /** The keys the accessory tracks; each starts at 0. */
  const BATTERY_LEVEL: string := Reading.KeyOf(Reading.NoSensor, Reading.BatteryLevel)
  const INDOOR_TEMPERATURE: string := Reading.KeyOf(Reading.Indoor, Reading.Temperature)
  const INDOOR_HUMIDITY: string := Reading.KeyOf(Reading.Indoor, Reading.Humidity)
  const OUTDOOR_TEMPERATURE: string := Reading.KeyOf(Reading.Outdoor, Reading.Temperature)
  const TRACKED: set<string> := {BATTERY_LEVEL, INDOOR_TEMPERATURE, INDOOR_HUMIDITY, OUTDOOR_TEMPERATURE}

  /** The tracked keys as the source spells them. */
  lemma TrackedKeys()
    ensures TRACKED == {"battery-level", "indoor-temperature", "indoor-humidity", "outdoor-temperature"}
  {
    assert Reading.KeyOf(Reading.Indoor, Reading.Temperature) == "indoor-temperature";
    assert Reading.KeyOf(Reading.Indoor, Reading.Humidity) == "indoor-humidity";
    assert Reading.KeyOf(Reading.Outdoor, Reading.Temperature) == "outdoor-temperature";
  }

  /** The initial value map. */
  function InitialData(): (d: map<string, Reading.Value>)
    ensures d.Keys == TRACKED
    ensures forall k :: k in d ==> d[k] == Reading.Tenths(0)
  {
    map k | k in TRACKED :: Reading.Tenths(0)
  }

  /**
   * What one reading does to the value map: the entry under the reading's key takes its value
   * when that key is already present; no key is added and no other entry changes.
   */
  function Route(data: map<string, Reading.Value>, r: Reading.Reading): (d: map<string, Reading.Value>)
    ensures d.Keys == data.Keys
    ensures Reading.Key(r) in data ==> d[Reading.Key(r)] == r.value
    ensures forall k :: k in data && k != Reading.Key(r) ==> d[k] == data[k]
  {
    var name := Reading.Key(r);
    if name in data then data[name := r.value] else data
  }

  /** Routing readings one after another, in order. */
  function RouteAll(data: map<string, Reading.Value>, readings: seq<Reading.Reading>): (d: map<string, Reading.Value>)
    ensures d.Keys == data.Keys
    decreases |readings|
  {
    if readings == [] then data
    else RouteAll(Route(data, readings[0]), readings[1..])
  }

  /** The value of the last reading routed under `key`, if any. */
  function LastValue(readings: seq<Reading.Reading>, key: string): (v: Option<Reading.Value>)
    ensures v.None? <==> forall i :: 0 <= i < |readings| ==> Reading.Key(readings[i]) != key
    ensures v.Some? ==> exists i :: 0 <= i < |readings| && Reading.Key(readings[i]) == key && readings[i].value == v.value
    decreases |readings|
  {
    if readings == [] then None
    else
      var later := LastValue(readings[1..], key);
      assert forall i :: 1 <= i < |readings| ==> readings[i] == readings[1..][i - 1];
      if later.Some? then
        var i :| 0 <= i < |readings[1..]| && Reading.Key(readings[1..][i]) == key && readings[1..][i].value == later.value;
        assert readings[i + 1] == readings[1..][i];
        later
      else if Reading.Key(readings[0]) == key then Some(readings[0].value)
      else None
  }

  /** After routing a run of readings, a present key holds the last value routed under it, or its old value. */
  lemma {:induction false} RouteAllTakesLast(data: map<string, Reading.Value>, readings: seq<Reading.Reading>, key: string)
    requires key in data
    ensures RouteAll(data, readings)[key] == if LastValue(readings, key).Some? then LastValue(readings, key).value else data[key]
    decreases |readings|
  {
    if readings != [] {
      RouteAllTakesLast(Route(data, readings[0]), readings[1..], key);
    }
  }

  /**
   * An advertisement sets the battery level to its first byte and nothing else sets it: the low
   * battery status that follows is low exactly when that byte is below 10.
   */
  lemma {:induction false} AdvertisementSetsBattery(data: map<string, Reading.Value>, body: Protocol.Bytes)
    requires data.Keys == TRACKED && |body| > 0 && Reading.ParseReadings(body).Ok?
    ensures var d := RouteAll(data, Reading.ParseReadings(body).value);
      && d[BATTERY_LEVEL] == Reading.Tenths(10 * (body[0] as int))
      && (LowBatteryStatus(d[BATTERY_LEVEL]) == BatteryLevelLow <==> body[0] < 10)
  {
    var readings := Reading.ParseReadings(body).value;
    forall i | 1 <= i < |readings| ensures Reading.Key(readings[i]) != BATTERY_LEVEL {
      Reading.ParseReadingsLayout(body, i);
      if Reading.Key(readings[i]) == BATTERY_LEVEL {
        Reading.KeyInjective(readings[i], Reading.Reading(Reading.NoSensor, Reading.BatteryLevel, readings[i].value));
      }
    }
    assert Reading.Key(readings[0]) == BATTERY_LEVEL;
    assert LastValue(readings[1..], BATTERY_LEVEL).None? by {
      assert forall i :: 0 <= i < |readings[1..]| ==> readings[1..][i] == readings[i + 1];
    }
    RouteAllTakesLast(data, readings, BATTERY_LEVEL);
  }

  /** Whether the battery is reported low. */
  datatype StatusLowBattery = BatteryLevelNormal | BatteryLevelLow

  /**
   * `getLowBatteryStatus`: low exactly when the stored level is a number below 10 (NaN and
   * `undefined` compare false, so they read as normal).
   */
  function LowBatteryStatus(batteryLevel: Reading.Value): (status: StatusLowBattery)
    ensures status == BatteryLevelLow <==> batteryLevel.Tenths? && batteryLevel.tenths < 100
  {
    if batteryLevel.Tenths? && batteryLevel.tenths < 100 then BatteryLevelLow else BatteryLevelNormal
  }

  /** The address passed to the scanner: the configured one lower-cased without ':', or none. */
  function ScanAddress(configured: Option<string>): (a: Option<string>)
    ensures a.None? <==> configured.None? || configured.value == ""
    ensures a.Some? ==> ':' !in a.value && forall c :: 'A' <= c <= 'Z' ==> c !in a.value
    ensures a.Some? ==> Text.NormalizeAddress(a.value) == a.value
    ensures a.Some? ==> a.value == Text.StripColons(Text.LowerAscii(configured.value))
  {
    if configured.None? || configured.value == "" then None
    else
      Text.NormalizeAddressNormal(configured.value);
      Some(Text.NormalizeAddress(configured.value))
  }

  /**
   * A reading's value is stored exactly when its key is tracked: the battery level and the
   * current indoor temperature, indoor humidity and outdoor temperature, and nothing else.
   */
  lemma {:induction false} TrackedReadings(r: Reading.Reading)
    ensures Reading.Key(r) in TRACKED <==>
      (r.sensor == Reading.NoSensor && r.kind == Reading.BatteryLevel) ||
      (r.sensor == Reading.Indoor && (r.kind == Reading.Temperature || r.kind == Reading.Humidity)) ||
      (r.sensor == Reading.Outdoor && r.kind == Reading.Temperature)
  {
    var k := Reading.Key(r);
    if k == BATTERY_LEVEL {
      Reading.KeyInjective(r, Reading.Reading(Reading.NoSensor, Reading.BatteryLevel, r.value));
    } else if k == INDOOR_TEMPERATURE {
      Reading.KeyInjective(r, Reading.Reading(Reading.Indoor, Reading.Temperature, r.value));
    } else if k == INDOOR_HUMIDITY {
      Reading.KeyInjective(r, Reading.Reading(Reading.Indoor, Reading.Humidity, r.value));
    } else if k == OUTDOOR_TEMPERATURE {
      Reading.KeyInjective(r, Reading.Reading(Reading.Outdoor, Reading.Temperature, r.value));
    }
  }

  /** The accessory's state (`this.data` and the normalised address). */
  class ThermSmartAccessory {
    var data: map<string, Reading.Value>
    const address: Option<string>

    predicate Valid()
      reads this
    {
      data.Keys == TRACKED
    }

    constructor (configuredAddress: Option<string>)
      ensures Valid() && data == InitialData() && address == ScanAddress(configuredAddress)
    {
      data := InitialData();
      address := ScanAddress(configuredAddress);
    }

    /** `readingHandler`. */
    method ReadingHandler(r: Reading.Reading)
      requires Valid()
      modifies this
      ensures Valid() && data == Route(old(data), r)
    {
      var name := Reading.Key(r);
      if name in data {
        data := data[name := r.value];
      }
    }

    /** The scanner's delivery loop: each reading of an accepted advertisement goes to the handler, in order. */
    method HandleReadings(readings: seq<Reading.Reading>)
      requires Valid()
      modifies this
      ensures Valid() && data == RouteAll(old(data), readings)
    {
      var i := 0;
      while i < |readings|
        invariant 0 <= i <= |readings|
        invariant Valid()
        invariant RouteAll(old(data), readings) == RouteAll(data, readings[i..])
      {
        assert readings[i..][1..] == readings[i + 1..];
        ReadingHandler(readings[i]);
        i := i + 1;
      }
    }

    method GetBatteryLevel() returns (v: Reading.Value)
      requires Valid()
      ensures v == data[BATTERY_LEVEL]
    {
      v := data[BATTERY_LEVEL];
    }

    method GetLowBatteryStatus() returns (status: StatusLowBattery)
      requires Valid()
      ensures status == BatteryLevelLow <==> data[BATTERY_LEVEL].Tenths? && data[BATTERY_LEVEL].tenths < 100
    {
      status := LowBatteryStatus(data[BATTERY_LEVEL]);
    }

    method GetIndoorTemperature() returns (v: Reading.Value)
      requires Valid()
      ensures v == data[INDOOR_TEMPERATURE]
    {
      v := data[INDOOR_TEMPERATURE];
    }

    method GetRelativeHumidity() returns (v: Reading.Value)
      requires Valid()
      ensures v == data[INDOOR_HUMIDITY]
    {
      v := data[INDOOR_HUMIDITY];
    }

    method GetOutdoorTemperature() returns (v: Reading.Value)
      requires Valid()
      ensures v == data[OUTDOOR_TEMPERATURE]
    {
      v := data[OUTDOOR_TEMPERATURE];
    }
  }
}
