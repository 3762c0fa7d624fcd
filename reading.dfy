/**
 * The advertisement payload decoder (reading.js): sentinel classification of a status byte,
 * the legacy temperature and humidity field decoders, and the split of an advertisement body
 * into an ordered list of readings.
 *
 * A decoded value is a JavaScript number; every number this decoder can produce is a multiple
 * of 0.1, so it is held exactly as a count of tenths.
 */
module Reading {
  import opened Wrappers
  import opened Protocol
  import Text

  const TOO_HIGH: int := 224
  const TOO_LOW: int := 225
  const ERROR_VALUE: int := 254
  const INVALID_VALUE: int := -999

  /** `(b & 0xf0) >> 4`. */
  function HighNibble(b: Byte): nat
  {
    b / 16
  }

  /** `b & 0xf`. */
  function LowNibble(b: Byte): nat
  {
    b % 16
  }

  /** The status bytes that carry a sentinel code, and the code each one stands for. */
  const SENTINELS: map<Byte, int> :=
    map[0xFF := INVALID_VALUE, 0xFE := ERROR_VALUE, 0xE0 := TOO_HIGH, 0xE1 := TOO_LOW]
    + (map b: Byte | 0xE2 <= b <= 0xEF :: INVALID_VALUE)

  /**
   * `getError`: the sentinel code a status byte carries, or 0 when the value that goes with
   * it is to be decoded normally.
   */
  function GetError(b: Byte): int
  {
    var errorValue := LowNibble(b);
    if HighNibble(b) == 0xf then
      if errorValue == 0xf then INVALID_VALUE        // no value / no sensor
      else if errorValue == 0xe then ERROR_VALUE     // sensor error
      else if errorValue <= 9 then 0                 // a negative value: decode it
      else 0                                         // 0xA..0xD reach the final `return 0`
    else if HighNibble(b) == 0xe then
      if errorValue == 0 then TOO_HIGH
      else if errorValue == 1 then TOO_LOW
      else INVALID_VALUE                             // out of range
    else 0
  }

  /** `GetError` agrees with the sentinel table: a byte in the table gets its code, any other byte 0. */
  lemma GetErrorTable(b: Byte)
    ensures GetError(b) == if b in SENTINELS then SENTINELS[b] else 0
  {
  }

  /** The codes `GetError` can return, and the bytes that carry one: 0xe0 to 0xef, 0xfe and 0xff. */
  lemma GetErrorCodes(b: Byte)
    ensures GetError(b) in {0, TOO_HIGH, TOO_LOW, ERROR_VALUE, INVALID_VALUE}
    ensures GetError(b) != 0 <==> 0xe0 <= b <= 0xef || b >= 0xfe
  {
  }

  /** A JavaScript number as the decoder produces it: `tenths / 10`, NaN, or `undefined`. */
  datatype Value = Tenths(tenths: int) | NaN | Undefined

  /** What the source's buffer reads throw. */
  datatype Fault = RangeError

  /** `Math.round(d / 2)` for an integer `d`: the nearest integer, a tie rounded up. */
  function RoundHalf(d: int): (r: int)
    ensures (r as real) - 0.5 <= (d as real) / 2.0 < (r as real) + 0.5
  {
    (d + 1) / 2
  }

  /**
   * `parseTemperature(data, position)`: the sentinel of the high byte when it carries one;
   * otherwise `Math.round((raw - 0x3000) / 2) / 10` of the little-endian field, which throws
   * when the field runs past the end of the buffer.
   */
  function ParseTemperature(data: Bytes, position: nat): (r: Result<Value, Fault>)
    ensures r.Err? <==> |data| < position + 2
    ensures r.Ok? && GetError(data[position + 1]) != 0 ==>
      r.value == Tenths(10 * GetError(data[position + 1]))
    ensures r.Ok? && GetError(data[position + 1]) == 0 ==>
      r.value.Tenths? && 2 * r.value.tenths - 1 <= U16LE(data, position) - 0x3000 <= 2 * r.value.tenths
  {
    var error := GetError(ByteOrZero(data, position + 1));
    if error != 0 then Ok(Tenths(10 * error))
    else if |data| < position + 2 then Err(RangeError)
    else Ok(Tenths(RoundHalf(U16LE(data, position) - 0x3000)))
  }

  /**
   * `parseHumidity(data, position)`: the sentinel of the byte when it carries one; otherwise the
   * byte printed as two hex digits and read back by `parseInt` as a decimal number. Past the
   * end of the buffer the byte is `undefined`, which carries no sentinel and prints as "".
   */
  function ParseHumidity(data: Bytes, position: nat): (v: Value)
    ensures position >= |data| ==> v == NaN
    ensures position < |data| ==> var b := data[position];
      && (GetError(b) != 0 ==> v == Tenths(10 * GetError(b)))
      && (GetError(b) == 0 && HighNibble(b) < 10 && LowNibble(b) < 10 ==> v == Tenths(10 * (10 * HighNibble(b) + LowNibble(b))))
      && (GetError(b) == 0 && HighNibble(b) < 10 && LowNibble(b) >= 10 ==> v == Tenths(10 * HighNibble(b)))
      && (GetError(b) == 0 && HighNibble(b) >= 10 ==> v == NaN)
  {
    if position >= |data| then NaN
    else
      var error := GetError(data[position]);
      Text.ParseIntOfHexByte(data[position]);
      if error != 0 then Tenths(10 * error)
      else match Text.ParseIntNoRadix(Text.HexByte(data[position]))
        case None => NaN
        case Some(h) => Tenths(10 * h)
  }

  // ---------------------------------------------------------------- readings

  /** Where a reading comes from; `NoSensor` is the source's `null` (a device-level reading). */
  datatype Sensor = NoSensor | Indoor | Outdoor | UnknownSensor

  datatype Kind =
    | BatteryLevel
    | Temperature | MaximumTemperature | MinimumTemperature
    | Humidity | MaximumHumidity | MinimumHumidity

  datatype Reading = Reading(sensor: Sensor, kind: Kind, value: Value)

  /** The `type` string of a reading. */
  function KindName(k: Kind): string
  {
    match k
    case BatteryLevel => "battery-level"
    case Temperature => "temperature"
    case MaximumTemperature => "maximum-temperature"
    case MinimumTemperature => "minimum-temperature"
    case Humidity => "humidity"
    case MaximumHumidity => "maximum-humidity"
    case MinimumHumidity => "minimum-humidity"
  }

  /** The `sensor` string of a located reading. */
  function SensorName(s: Sensor): string
    requires s != NoSensor
  {
    match s
    case Indoor => "indoor"
    case Outdoor => "outdoor"
    case UnknownSensor => "unknown"
  }

  predicate IsTemperatureKind(k: Kind)
  {
    k == Temperature || k == MaximumTemperature || k == MinimumTemperature
  }

  /** The `symbol` getter: the unit printed after a reading's value. */
  function Symbol(k: Kind): (s: string)
    ensures s == "%" <==> !IsTemperatureKind(k)
    ensures s == "°C" <==> IsTemperatureKind(k)
  {
    match k
    case Temperature | MaximumTemperature | MinimumTemperature => "°C"
    case BatteryLevel | Humidity | MaximumHumidity | MinimumHumidity => "%"
  }

  /** `(typeByte & 0xf0) >> 4` of the type byte `data[1]` (an absent byte reads as 0). */
  function DataType(data: Bytes): nat
  {
    HighNibble(ByteOrZero(data, 1))
  }

  /** `typeByte & 0x7`. */
  function SensorType(data: Bytes): nat
  {
    ByteOrZero(data, 1) % 8
  }

  /** The sensor-type allow-list {1, 3, 4, 7}. */
  predicate IsKnownSensorType(sensorType: nat)
  {
    sensorType == 1 || sensorType == 3 || sensorType == 4 || sensorType == 7
  }

  /** The label `addReading` gives every reading after the battery level. */
  function SensorOf(dataType: nat): Sensor
  {
    if dataType == 1 then Indoor else if dataType == 2 then Outdoor else UnknownSensor
  }

  /** The order in which `parseReadings` pushes its readings. */
  const LAYOUT: seq<Kind> := [BatteryLevel, Temperature, MaximumTemperature, MinimumTemperature,
                              Humidity, MaximumHumidity, MinimumHumidity]

  /** How many readings `parseReadings` returns for an advertisement body it does not throw on. */
  function ReadingCount(data: Bytes): nat
  {
    if !IsKnownSensorType(SensorType(data)) then 1
    else if DataType(data) == 1 && |data| >= 11 then 7
    else 4
  }

  /** The battery reading every decoded advertisement starts with: `data[0]`, no sensor. */
  function BatteryReading(data: Bytes): Reading
  {
    Reading(NoSensor, BatteryLevel, if |data| > 0 then Tenths(10 * (data[0] as int)) else Undefined)
  }

  /**
   * `Reading.parseReadings(data)`: the battery level; then, when the sensor type is allowed,
   * current, maximum and minimum temperature from offsets 2, 4 and 6; then, for an indoor
   * sensor and a body of at least 11 bytes, current, maximum and minimum humidity from
   * offsets 8, 9 and 10. A temperature field that runs past the end throws.
   */
  function ParseReadings(data: Bytes): (r: Result<seq<Reading>, Fault>)
    ensures r.Err? <==> IsKnownSensorType(SensorType(data)) && |data| < 8
    ensures r.Ok? ==> |r.value| == ReadingCount(data) && r.value[0] == BatteryReading(data)
  {
    var battery := BatteryReading(data);
    if !IsKnownSensorType(SensorType(data)) then
      Ok([battery])
    else
      var sensor := SensorOf(DataType(data));
      var temperature := ParseTemperature(data, 2);
      var maximum := ParseTemperature(data, 4);
      var minimum := ParseTemperature(data, 6);
      if temperature.Err? || maximum.Err? || minimum.Err? then
        Err(RangeError)
      else
        var readings := [battery,
                         Reading(sensor, Temperature, temperature.value),
                         Reading(sensor, MaximumTemperature, maximum.value),
                         Reading(sensor, MinimumTemperature, minimum.value)];
        if DataType(data) == 1 && |data| >= 11 then
          Ok(readings + [Reading(sensor, Humidity, ParseHumidity(data, 8)),
                         Reading(sensor, MaximumHumidity, ParseHumidity(data, 9)),
                         Reading(sensor, MinimumHumidity, ParseHumidity(data, 10))])
        else
          Ok(readings)
  }

  /** The first four readings of a body with an allowed sensor type: battery, then the three temperatures. */
  lemma ParseReadingsHead(data: Bytes)
    requires ParseReadings(data).Ok? && IsKnownSensorType(SensorType(data))
    ensures var rs := ParseReadings(data).value;
      && |rs| >= 4
      && rs[..4] == [BatteryReading(data),
                     Reading(SensorOf(DataType(data)), Temperature, ParseTemperature(data, 2).value),
                     Reading(SensorOf(DataType(data)), MaximumTemperature, ParseTemperature(data, 4).value),
                     Reading(SensorOf(DataType(data)), MinimumTemperature, ParseTemperature(data, 6).value)]
  {
  }

  /** The last three readings of an indoor body of at least 11 bytes: the three humidities. */
  lemma ParseReadingsTail(data: Bytes)
    requires ParseReadings(data).Ok? && IsKnownSensorType(SensorType(data)) && DataType(data) == 1 && |data| >= 11
    ensures var rs := ParseReadings(data).value;
      && |rs| == 7
      && rs[4..] == [Reading(Indoor, Humidity, ParseHumidity(data, 8)),
                     Reading(Indoor, MaximumHumidity, ParseHumidity(data, 9)),
                     Reading(Indoor, MinimumHumidity, ParseHumidity(data, 10))]
  {
  }

  /** Where each reading of a decoded advertisement comes from, and what it is labelled. */
  lemma {:induction false} ParseReadingsLayout(data: Bytes, i: nat)
    requires ParseReadings(data).Ok? && i < |ParseReadings(data).value|
    ensures var rs := ParseReadings(data).value;
      && rs[i].kind == LAYOUT[i]
      && (i >= 1 ==> rs[i].sensor == SensorOf(DataType(data)))
      && (1 <= i < 4 ==> ParseTemperature(data, 2 * i) == Ok(rs[i].value))
      && (4 <= i ==> i + 4 < |data| && rs[i].value == ParseHumidity(data, i + 4))
  {
    var rs := ParseReadings(data).value;
    if IsKnownSensorType(SensorType(data)) {
      ParseReadingsHead(data);
      var head := rs[..4];
      if i == 0 {
        assert rs[0] == head[0];
      } else if i == 1 {
        assert rs[1] == head[1];
      } else if i == 2 {
        assert rs[2] == head[2] && 2 * i == 4;
      } else if i == 3 {
        assert rs[3] == head[3] && 2 * i == 6;
      } else {
        ParseReadingsTail(data);
        var tail := rs[4..];
        if i == 4 {
          assert rs[4] == tail[0];
        } else if i == 5 {
          assert rs[5] == tail[1];
        } else {
          assert rs[6] == tail[2];
        }
      }
    }
  }

  // ---------------------------------------------------------------- encoding, the decoder's inverse

  /** A temperature `t` (tenths) that the legacy field can carry without its high byte reading as a sentinel. */
  predicate Encodable(t: int)
  {
    -0x1800 <= t < 0x5800
  }

  /** The little-endian field `0x3000 + 2 t` for a temperature of `t` tenths. */
  function EncodeTemperature(t: int): (bs: Bytes)
    requires Encodable(t)
    ensures |bs| == 2
  {
    var raw := 0x3000 + 2 * t;
    [raw % 256, raw / 256]
  }

  /** A humidity of `h` percent written the way the decoder reads it: one decimal digit per nibble. */
  function EncodeHumidity(h: nat): Byte
    requires h < 100
  {
    16 * (h / 10) + h % 10
  }

  lemma {:induction false} TemperatureRoundTrip(data: Bytes, position: nat, t: int)
    requires Encodable(t) && position + 2 <= |data|
    requires data[position..position + 2] == EncodeTemperature(t)
    ensures ParseTemperature(data, position) == Ok(Tenths(t))
  {
    var raw := 0x3000 + 2 * t;
    assert data[position] == raw % 256 && data[position + 1] == raw / 256;
    assert U16LE(data, position) == raw;
    assert HighNibble(data[position + 1]) < 0xe;
    GetErrorCodes(data[position + 1]);
  }

  /** Examples of the legacy rounding (the general rule is `RoundHalf`): a raw delta of 101 rounds up to 5.1 degrees, 100 gives 5.0. */
  lemma LegacyRounding()
    ensures ParseTemperature([0x65, 0x30], 0) == Ok(Tenths(51))
    ensures ParseTemperature([0x64, 0x30], 0) == Ok(Tenths(50))
  {
  }

  lemma {:induction false} HumidityRoundTrip(data: Bytes, position: nat, h: nat)
    requires h < 100 && position < |data| && data[position] == EncodeHumidity(h)
    ensures ParseHumidity(data, position) == Tenths(10 * h)
  {
    GetErrorCodes(data[position]);
    assert HighNibble(data[position]) == h / 10 && LowNibble(data[position]) == h % 10;
  }

  /** An advertisement body: battery, type byte, three temperature fields and three humidity bytes. */
  function EncodeBody(battery: Byte, typeByte: Byte, temperatures: seq<int>, humidities: seq<nat>): (data: Bytes)
    requires |temperatures| == 3 && forall i :: 0 <= i < 3 ==> Encodable(temperatures[i])
    requires |humidities| == 3 && forall i :: 0 <= i < 3 ==> humidities[i] < 100
    ensures |data| == 11 && data[0] == battery && data[1] == typeByte
    ensures forall i :: 0 <= i < 3 ==> data[2 + 2 * i..4 + 2 * i] == EncodeTemperature(temperatures[i])
    ensures forall i :: 0 <= i < 3 ==> data[8 + i] == EncodeHumidity(humidities[i])
  {
    [battery, typeByte]
      + EncodeTemperature(temperatures[0]) + EncodeTemperature(temperatures[1]) + EncodeTemperature(temperatures[2])
      + [EncodeHumidity(humidities[0]), EncodeHumidity(humidities[1]), EncodeHumidity(humidities[2])]
  }

  /** The readings of an 11-byte body whose fields decode to the given values. */
  function ExpectedReadings(battery: Byte, typeByte: Byte, temperatures: seq<int>, humidities: seq<nat>): seq<Reading>
    requires |temperatures| == 3 && |humidities| == 3
  {
    var s := SensorOf(typeByte / 16);
    [Reading(NoSensor, BatteryLevel, Tenths(10 * (battery as int))),
     Reading(s, Temperature, Tenths(temperatures[0])),
     Reading(s, MaximumTemperature, Tenths(temperatures[1])),
     Reading(s, MinimumTemperature, Tenths(temperatures[2]))]
    + if typeByte / 16 == 1 then
        [Reading(s, Humidity, Tenths(10 * humidities[0])),
         Reading(s, MaximumHumidity, Tenths(10 * humidities[1])),
         Reading(s, MinimumHumidity, Tenths(10 * humidities[2]))]
      else []
  }

  lemma {:induction false} ParseFields(data: Bytes, temperatures: seq<int>, humidities: seq<nat>)
    requires |data| == 11 && IsKnownSensorType(data[1] % 8) && |temperatures| == 3 && |humidities| == 3
    requires forall i :: 0 <= i < 3 ==> ParseTemperature(data, 2 + 2 * i) == Ok(Tenths(temperatures[i]))
    requires forall i :: 0 <= i < 3 ==> ParseHumidity(data, 8 + i) == Tenths(10 * humidities[i])
    ensures ParseReadings(data) == Ok(ExpectedReadings(data[0], data[1], temperatures, humidities))
  {
    assert ParseTemperature(data, 2) == Ok(Tenths(temperatures[0]));
    assert ParseTemperature(data, 4) == Ok(Tenths(temperatures[1]));
    assert ParseTemperature(data, 6) == Ok(Tenths(temperatures[2]));
    assert ParseHumidity(data, 8) == Tenths(10 * humidities[0]);
    assert ParseHumidity(data, 9) == Tenths(10 * humidities[1]);
    assert ParseHumidity(data, 10) == Tenths(10 * humidities[2]);
    assert DataType(data) == data[1] / 16 && SensorType(data) == data[1] % 8;
    var s := SensorOf(data[1] / 16);
    var head := [BatteryReading(data),
                 Reading(s, Temperature, Tenths(temperatures[0])),
                 Reading(s, MaximumTemperature, Tenths(temperatures[1])),
                 Reading(s, MinimumTemperature, Tenths(temperatures[2]))];
    assert BatteryReading(data) == Reading(NoSensor, BatteryLevel, Tenths(10 * (data[0] as int)));
    if data[1] / 16 == 1 {
      assert ParseReadings(data) == Ok(head + [Reading(s, Humidity, Tenths(10 * humidities[0])),
                                               Reading(s, MaximumHumidity, Tenths(10 * humidities[1])),
                                               Reading(s, MinimumHumidity, Tenths(10 * humidities[2]))]);
    } else {
      assert ParseReadings(data) == Ok(head);
      assert ExpectedReadings(data[0], data[1], temperatures, humidities) == head + [];
      assert head + [] == head;
    }
  }

  /**
   * Decoding an encoded body gives back what was encoded: the battery level, the three
   * temperatures labelled by the type byte's high nibble, and the three humidities exactly when
   * that nibble says indoor.
   */
  lemma {:induction false} BodyRoundTrip(battery: Byte, typeByte: Byte, temperatures: seq<int>, humidities: seq<nat>)
    requires |temperatures| == 3 && forall i :: 0 <= i < 3 ==> Encodable(temperatures[i])
    requires |humidities| == 3 && forall i :: 0 <= i < 3 ==> humidities[i] < 100
    requires IsKnownSensorType(typeByte % 8)
    ensures ParseReadings(EncodeBody(battery, typeByte, temperatures, humidities))
         == Ok(ExpectedReadings(battery, typeByte, temperatures, humidities))
  {
    var data := EncodeBody(battery, typeByte, temperatures, humidities);
    forall i | 0 <= i < 3
      ensures ParseTemperature(data, 2 + 2 * i) == Ok(Tenths(temperatures[i]))
      ensures ParseHumidity(data, 8 + i) == Tenths(10 * humidities[i])
    {
      TemperatureRoundTrip(data, 2 + 2 * i, temperatures[i]);
      HumidityRoundTrip(data, 8 + i, humidities[i]);
    }
    ParseFields(data, temperatures, humidities);
  }

  // ---------------------------------------------------------------- routing keys

  /**
   * The key a reading is routed under by its consumers (index.js, scripts/read.js):
   * `sensor + '-' + type` when the reading has a sensor, `type` alone otherwise.
   */
  function Key(r: Reading): string
  {
    KeyOf(r.sensor, r.kind)
  }

  function KeyOf(sensor: Sensor, kind: Kind): string
  {
    if sensor == NoSensor then KindName(kind) else SensorName(sensor) + "-" + KindName(kind)
  }

  function KindOfName(name: string): (k: Option<Kind>)
  {
    if name == "battery-level" then Some(BatteryLevel)
    else if name == "temperature" then Some(Temperature)
    else if name == "maximum-temperature" then Some(MaximumTemperature)
    else if name == "minimum-temperature" then Some(MinimumTemperature)
    else if name == "humidity" then Some(Humidity)
    else if name == "maximum-humidity" then Some(MaximumHumidity)
    else if name == "minimum-humidity" then Some(MinimumHumidity)
    else None
  }

  /** Splits a routing key back into sensor and type. */
  function ParseKey(key: string): Option<(Sensor, Kind)>
  {
    if KindOfName(key).Some? then Some((NoSensor, KindOfName(key).value))
    else if |key| > 7 && key[..7] == "indoor-" && KindOfName(key[7..]).Some? then Some((Indoor, KindOfName(key[7..]).value))
    else if |key| > 8 && key[..8] == "outdoor-" && KindOfName(key[8..]).Some? then Some((Outdoor, KindOfName(key[8..]).value))
    else if |key| > 8 && key[..8] == "unknown-" && KindOfName(key[8..]).Some? then Some((UnknownSensor, KindOfName(key[8..]).value))
    else None
  }

  lemma {:induction false} KindNameRoundTrip(k: Kind)
    ensures KindOfName(KindName(k)) == Some(k)
    ensures |KindName(k)| > 0 && KindName(k)[0] in "btmh"
  {
  }

  /** A routing key names its reading's sensor and type unambiguously. */
  lemma {:induction false} ParseKeyOfKey(r: Reading)
    ensures ParseKey(Key(r)) == Some((r.sensor, r.kind))
  {
    KindNameRoundTrip(r.kind);
    var name := KindName(r.kind);
    var key := Key(r);
    if r.sensor != NoSensor {
      var prefix := SensorName(r.sensor) + "-";
      assert key == prefix + name;
      assert key[0] == prefix[0] && key[0] !in "btmh";
      assert KindOfName(key).None? by {
        assert key[0] != 'b' && key[0] != 't' && key[0] != 'm' && key[0] != 'h';
      }
      assert key[|prefix|..] == name;
      assert key[..|prefix|] == prefix;
    }
  }

  /** Two readings share a routing key only when they share sensor and type. */
  lemma KeyInjective(a: Reading, b: Reading)
    requires Key(a) == Key(b)
    ensures a.sensor == b.sensor && a.kind == b.kind
  {
    ParseKeyOfKey(a);
    ParseKeyOfKey(b);
  }
}
