# homebridge-therm-smart in Dafny

This project models the core of homebridge-therm-smart. It is a HomeKit bridge plugin and a
command-line reader for the Therm Smart wireless thermometer/hygrometer, and it gets readings in
two ways:

- **Passive scanning** listens to Bluetooth LE advertisements. The scanner checks the
  manufacturer id and the address embedded in the payload, applies an allow-list of addresses,
  and decodes the advertisement body (`reading.js`) into battery, temperature and humidity
  readings. Those readings are routed into the accessory's value map (`index.js`) or collected
  by `scripts/read.js` until indoor temperature, indoor humidity and outdoor temperature are all
  present.
- **Connected mode** (`therm-smart-sensor.js`) connects to the sensor and writes the command
  `0xd2`. It waits for the matching notification and caches the 14-byte response for `dataTtl`
  seconds. A pending load is shared by all callers. A disconnect clears the session; a load
  cut off while it waits for its response is left pending for good (see Findings).

The model is split into modules:

| file | module | models |
|---|---|---|
| `wrappers.dfy` | `Wrappers` | `Option` and `Result` |
| `protocol.dfy` | `Protocol` | bytes, the company id, service and characteristic uuids, the `0xd2` command, little-endian reads, the response-matching rule |
| `text.dfy` | `Text` | the JavaScript string operations the code relies on: `Number.prototype.toString(16)`, `Buffer.toString('hex')`, `parseInt` without a radix, `toLowerCase`, `replace(/:/g, '')`, printing tenths as a number |
| `reading.dfy` | `Reading` | `reading.js` and the `sensor-type` key of a reading |
| `therm_smart.dfy` | `ThermSmart` | `therm-smart.js`: the advertisement filter, the `write` response matching, the characteristic lookup, the device object and the `scan` list |
| `sensor.dfy` | `ThermSmartSensor` | `therm-smart-sensor.js`: the response readers, the session as a pure step function, and the three classes whose methods are proved against it |
| `accessory.dfy` | `Accessory` | `index.js`: the value map, its routing, the low-battery rule, the configured address |
| `read_script.dfy` | `ReadScript` | `scripts/read.js`: the format allow-list, the readings map, completion, the influxdb line, `normAddresses` |

Representation choices:

- Advertisement values are exact integer **tenths**: `Value = Tenths(n) | NaN | Undefined`. Here
  `Tenths(n)` is the JavaScript number `n / 10`, and `Undefined` is what reading past the buffer
  yields. The legacy rounding `Math.round(d / 2)` is `(d + 1) / 2` on integers.
- Connected-mode temperatures are exact `real`s (`(raw - 0x3000) / 20`).
- Throwing is an explicit error value (`Err`, `Threw`, `ListenerThrew`).
- The session is specified by `ThermSmartSensor.Step(Session, Event)`, a pure function. Its
  events are:
  - the caller's `load` requests;
  - the outcome of scan, connect and discovery, reported as one event;
  - notifications;
  - the write error;
  - the peripheral's disconnect;
  - the clock, passed as `now` in milliseconds.

  The methods that handle a whole event ensure `(State(), o) == Step(old(State()), e)` for their
  event: `SensorDataHandler.Load`, `HandleData` and `HandleWriteError`, and
  `ThermSmartSensor.LoadBattery`, `CompleteConnect`, `FailConnect` and `HandleDisconnect`.
  `SensorDataHandler.Resume` ensures the continuation `AfterConnect`. The remaining methods
  (the handlers' `Connect`, `HandleDisconnect` and `SetData`) are steps inside an event and state
  their new fields one by one.

Behaviour of the code worth knowing, which the model follows:

- The legacy temperature rule rounds halves up: a raw field of `0x3000 + 101` decodes to
  `Math.round(50.5) / 10 = 5.1` (reading.js:42, `Reading.LegacyRounding`, `Reading.RoundHalf`).
- An advertisement with an unknown sensor type still yields the battery reading: the early
  return at reading.js:68-71 comes after the push at reading.js:58-62 (`Reading.ParseReadings`).
- Only the data handler's `load` is deduplicated, through `promise` (therm-smart-sensor.js:268-271).
  `connect` (therm-smart-sensor.js:88-119) starts a new scan and connection on every call while
  not connected.
- `BluetoothSensor.scan` compares `config.address` with the peripheral's address as given, with no
  case or colon normalisation (therm-smart-sensor.js:53, `ThermSmartSensor.ScanComparesExactly`).
- Humidity goes through `parseInt` of the byte's hex text, which reads leading decimal digits:
  `1a` gives 1 and `a1` gives NaN (reading.js:51, `Text.ParseIntOfHexByte`).
- The temperature symbol is `°C`, which reading.js:102 shows as two characters because of its
  encoding.

## Model

| member | source | states |
|---|---|---|
| Protocol.U16LE | reading.js:42 | `readUInt16LE`: below 0x10000, low byte first, high byte second |
| Protocol.UIntLE | therm-smart.js:93 | `readUIntLE(2, 6)` is a number below 256^6 |
| Text.Digits | therm-smart.js:93 | base-b digits of `toString(16)`: every digit below the base, no leading zero, one digit exactly when n < base |
| Text.ValueOfDigits | therm-smart.js:93 | the digits of n evaluate back to n |
| Text.DigitsOfValue | therm-smart.js:93 | canonical digit strings are exactly the digits of their value |
| Text.ToHexStringIff | therm-smart.js:93 | `n.toString(16) == s` iff s is canonical lower-case hex whose value is n |
| Text.HexByte | reading.js:51 | `toString('hex')` of one byte is two hex digits, high nibble then low |
| Text.ParseIntNoRadix | reading.js:51 | `parseInt` is NaN exactly for text that does not start with a decimal digit |
| Text.ParseIntOfHexByte | reading.js:51 | `parseInt` of a byte's hex: 10*hi+lo for decimal nibbles, hi when only the low nibble is a-f, NaN when the high nibble is a-f |
| Text.StripColons | therm-smart.js:42 | `replace(/:/g, '')` leaves no ':' and keeps every other character |
| Text.StripColonsAppend | therm-smart.js:42 | stripping a concatenation strips each part, so the other characters keep their order |
| Text.StripColonsChar | therm-smart.js:42 | one ':' is removed, any other character kept; with the lemma above this fixes the result completely |
| Text.StripColonsOfJoin | therm-smart.js:42 | a colon-separated address strips to its parts run together |
| Text.LowerAscii | index.js:35 | `toLowerCase` maps A-Z to a-z and keeps the rest, length unchanged |
| Text.NormalizeAddressNormal | index.js:34-36 | a normalised address has no ':' and no upper-case letter, and normalising again changes nothing |
| Text.ParseFormatTenths | scripts/read.js:67 | the printed text of a value in tenths reads back to the same value |
| Reading.GetErrorTable | reading.js:6-34 | `getError` is the sentinel table (0xff→-999, 0xfe→254, 0xe0→224, 0xe1→225, 0xe2..0xef→-999), 0 elsewhere |
| Reading.GetErrorCodes | reading.js:6-34 | `getError` returns one of 0, 224, 225, 254, -999, and a non-zero code exactly for the bytes 0xe0-0xef, 0xfe and 0xff |
| Reading.RoundHalf | reading.js:42 | `Math.round(d / 2)`: the integer within half of d/2, rounding halves up |
| Reading.ParseTemperature | reading.js:36-43 | error exactly when the field is past the end; the high byte's sentinel when it has one; otherwise tenths t with 2t-1 <= raw-0x3000 <= 2t |
| Reading.ParseHumidity | reading.js:45-52 | the byte's sentinel; otherwise 10*hi+lo, hi, or NaN by the nibbles; NaN past the end |
| Reading.Symbol | reading.js:97-112 | `°C` exactly for the three temperature kinds, `%` exactly for the others |
| Reading.ParseReadings | reading.js:55-89 | throws exactly for a known sensor type with fewer than 8 bytes; otherwise 1, 4 or 7 readings, the first being the battery reading of byte 0 |
| Reading.ParseReadingsLayout | reading.js:73-88 | reading i has kind LAYOUT[i], sensor by the data type, temperature from offset 2i, humidity from offset i+4 |
| Reading.TemperatureRoundTrip | reading.js:36-43 | a temperature field encoded from tenths t decodes back to t |
| Reading.LegacyRounding | reading.js:42 | raw 0x3000+101 decodes to 5.1 and 0x3000+100 to 5.0 |
| Reading.HumidityRoundTrip | reading.js:45-52 | a humidity byte written as two decimal digits decodes back to the percentage |
| Reading.EncodeBody | reading.js:55-89 | an 11-byte body with battery, type byte, three temperature fields and three humidity bytes at their offsets |
| Reading.BodyRoundTrip | reading.js:55-89 | decoding an encoded body with a known sensor type gives the seven expected readings in order |
| Reading.KindNameRoundTrip | reading.js:78-85 | every kind's `type` name reads back to the kind |
| Reading.ParseKeyOfKey | index.js:23-27 | the `sensor-type` key (just `type` without a sensor) determines sensor and kind |
| Reading.KeyInjective | scripts/read.js:41-44 | two readings with the same key have the same sensor and kind |
| ThermSmart.StrippedAddress | therm-smart.js:92 | present iff the peripheral has an address; no ':', every other character kept, not lower-cased |
| ThermSmart.StrippedAddressOfPrinted | therm-smart.js:92 | a printed `aa:bb:...` address strips to `aabb...`, parts in order |
| ThermSmart.OnAdvertisement | therm-smart.js:86-108 | dropped exactly when the filter rejects; otherwise delivers exactly `parseReadings(data.slice(8))`, or throws when that throws |
| ThermSmart.EmbeddedAddressIff | therm-smart.js:92-97 | the embedded-address check passes iff the address is canonical hex of the 48-bit little-endian value in bytes 2-7 |
| ThermSmart.LeadingZeroNeverAgrees | therm-smart.js:92-97 | an address starting with '0' (longer than one character) never passes |
| ThermSmart.UpperCaseNeverAgrees | therm-smart.js:92-97 | an address with an upper-case letter never passes |
| ThermSmart.AllowListExtremes | therm-smart.js:99-101 | no allow-list accepts every address; an empty one accepts none |
| ThermSmart.Advertisement | therm-smart.js:86-93 | manufacturer data made of the company id, six address bytes and a body |
| ThermSmart.OwnAdvertisementDelivered | therm-smart.js:86-108 | a listed sensor's own advertisement delivers exactly the decoded body |
| ThermSmart.Settle | therm-smart.js:229-243 | a decisive event resolves with its data iff it is a notification starting with the response command, and rejects iff it is a failed write |
| ThermSmart.WriteOutcomeOf | therm-smart.js:227-245 | pending iff no event is decisive; otherwise settled by the first decisive event |
| ThermSmart.WriteOutcomeFinal | therm-smart.js:229-243 | once settled, later events change nothing |
| ThermSmart.ThrowingNotificationIgnored | therm-smart.js:229-234 | an empty notification makes the listener throw without settling: the write goes on as if it had not arrived |
| ThermSmart.ResolvedOnlyByResponse | therm-smart.js:229-235 | a resolved write came from a notification whose first byte is the response command, and resolves with its data |
| ThermSmart.FindByUuid | therm-smart.js:195-200 | `find`: the first characteristic with the uuid, none iff no characteristic has it |
| ThermSmart.ThermSmartDevice.constructor | therm-smart.js:146-152 | id, address and local name copied from the peripheral; no characteristics yet |
| ThermSmart.ThermSmartDevice.GetCharacteristics | therm-smart.js:179-207 | on success write/notify are the first 'fff3'/'fff4'; on error nothing changes |
| ThermSmart.Scanner.constructor | therm-smart.js:36-39 | the allow-list is kept and the sensor list starts empty |
| ThermSmart.Scanner.OnDiscover | therm-smart.js:41-53 | a new device is appended iff the stripped address is listed, carrying the peripheral's id, address and local name and no characteristics yet; otherwise the list is unchanged |
| ThermSmartSensor.ReadTemperature | therm-smart-sensor.js:9-11 | error iff the field is past the end; otherwise 20*t + 0x3000 equals the raw little-endian field |
| ThermSmartSensor.ReadRelativeHumidity | therm-smart-sensor.js:13-15 | 10*hi+lo, hi, or NaN by the nibbles; NaN past the end |
| ThermSmartSensor.BatteryLevel | therm-smart-sensor.js:363-367 | byte 0 of the battery data; fails when there is none |
| ThermSmartSensor.TemperatureFormulasAgreeIffEven | therm-smart-sensor.js:9-11 | without a sentinel, the legacy and connected-mode decoders agree iff the raw delta is even |
| ThermSmartSensor.SentinelNeverAgrees | therm-smart-sensor.js:9-11 | where the legacy decoder reports a sentinel, this decoder reads 2252.8 degrees or more and never the same number |
| ThermSmartSensor.SentinelNotInspected | therm-smart-sensor.js:9-11 | example: 0xffff reads as 2662.35 here, while the legacy decoder reports sentinel -999 |
| ThermSmartSensor.HumidityFormulasAgree | therm-smart-sensor.js:13-15 | without a sentinel, both humidity decoders give the same percentage or both give NaN |
| ThermSmartSensor.Response | therm-smart-sensor.js:369-385 | a 14-byte response starting with 0xd2 |
| ThermSmartSensor.ResponseRoundTrip | therm-smart-sensor.js:369-385 | indoor temperature at offset 3, humidity at offset 9, outdoor temperature at offset 12 read back as encoded |
| ThermSmartSensor.DataTtl | therm-smart-sensor.js:229 | 15 when `dataTtl` is missing or 0, otherwise the configured value |
| ThermSmartSensor.ConfiguredAddress | therm-smart-sensor.js:20 | no address iff none or the empty string is configured |
| ThermSmartSensor.ScanComparesExactly | therm-smart-sensor.js:53 | a configured address selects a peripheral iff the texts are equal (so case and colons matter); with no address every peripheral is taken |
| ThermSmartSensor.FindByKind | therm-smart-sensor.js:187-189 | `find`: the first characteristic of the battery-level type, none iff there is none |
| ThermSmartSensor.LastByUuid | therm-smart-sensor.js:239-245 | the last characteristic with the uuid, none iff no characteristic has it |
| ThermSmartSensor.FirstAndLastAgreeWhenUnique | therm-smart-sensor.js:239-245 | with at most one match, the forEach assignment picks what `find` picks |
| ThermSmartSensor.Initial | therm-smart-sensor.js:334-342 | a new sensor has no peripheral, is not connected, and has no pending load or data |
| ThermSmartSensor.CachedData | therm-smart-sensor.js:324-330 | the stored response exactly while it is at most `dataTtl` seconds old, otherwise null |
| ThermSmartSensor.InitialValid | therm-smart-sensor.js:18-25 | the session invariant holds for a new sensor |
| ThermSmartSensor.StepKeepsValid | therm-smart-sensor.js:88-145 | every event keeps the invariant: connected iff services and characteristics are stored, and a live exchange awaits its response only while connected with both handles |
| ThermSmartSensor.RunKeepsValid | therm-smart-sensor.js:88-145 | every sequence of events keeps the invariant |
| ThermSmartSensor.PromiseClearedOnSettle | therm-smart-sensor.js:268-317 | every settlement clears `promise`, and `promise` is cleared only by a settlement |
| ThermSmartSensor.PendingLoadJoins | therm-smart-sensor.js:268-271 | while a load is pending, `load` returns it and changes nothing |
| ThermSmartSensor.OneCommandInFlight | therm-smart-sensor.js:268-317 | the command is written only when no response is awaited, and awaiting begins only with a write |
| ThermSmartSensor.ServedFromCacheWithinTtl | therm-smart-sensor.js:273-277 | a response at most `dataTtl` seconds old answers the next load without a write |
| ThermSmartSensor.ReloadAfterTtl | therm-smart-sensor.js:324-330 | an older response is not used; the next load writes the command again |
| ThermSmartSensor.DisconnectResets | therm-smart-sensor.js:357-361 | a disconnect clears peripheral, services, characteristics, connection, battery data and handles, and the cache reads as empty at any later time; a load waiting for the connection is cleared, one waiting for its response is stranded |
| ThermSmartSensor.OnDisconnect | therm-smart-sensor.js:262-285 | as written: a disconnect clears the link and handles; a load awaiting its response is stranded and the listener throws |
| ThermSmartSensor.OnDisconnectIntended | therm-smart-sensor.js:280-284 | corrected: a disconnect clears the link and the slot, and settles the load exactly when one was pending |
| ThermSmartSensor.DisconnectStrandsLoad | therm-smart-sensor.js:262-285 | a disconnect during the exchange clears the handles, then the load's listener throws and the load is stranded |
| ThermSmartSensor.StrandedForever | therm-smart-sensor.js:268-271 | after that, no event settles the load and every later `load` returns the stranded promise |
| ThermSmartSensor.IntendedPromiseClearedOnSettle | therm-smart-sensor.js:280-284 | with the intended disconnect no load is stranded, and settlement and clearing go together |
| ThermSmartSensor.IntendedDisconnectRejects | therm-smart-sensor.js:280-284 | with the intended disconnect a cut-off exchange fails and the next load connects afresh |
| ThermSmartSensor.ConnectedShortCircuits | therm-smart-sensor.js:344-347 | a connected sensor does not reconnect for either load |
| ThermSmartSensor.BatteryLevelHandler.constructor | therm-smart-sensor.js:174-178 | no battery data |
| ThermSmartSensor.BatteryLevelHandler.Connect | therm-smart-sensor.js:180-209 | succeeds iff there is no battery characteristic or its read succeeded; stores the read data |
| ThermSmartSensor.BatteryLevelHandler.HandleDisconnect | therm-smart-sensor.js:211-213 | battery data cleared |
| ThermSmartSensor.SensorDataHandler.constructor | therm-smart-sensor.js:221-230 | no handles, nothing pending, no data, loaded at 0, the configured TTL |
| ThermSmartSensor.SensorDataHandler.Data | therm-smart-sensor.js:324-330 | the stored data exactly while `(now - dataLoadedAt) / 1000 <= dataTtl` |
| ThermSmartSensor.SensorDataHandler.SetData | therm-smart-sensor.js:319-322 | stores the data, stamps `now`, changes nothing else |
| ThermSmartSensor.SensorDataHandler.Connect | therm-smart-sensor.js:232-260 | the forEach loop leaves the last 'fff3'/'fff4' characteristic (or the previous one); succeeds iff subscribed to a notify characteristic |
| ThermSmartSensor.SensorDataHandler.HandleDisconnect | therm-smart-sensor.js:262-266 | handles and data cleared, with the setter stamping `now` |
| ThermSmartSensor.SensorDataHandler.Resume | therm-smart-sensor.js:273-309 | the continuation after connecting agrees with the session specification |
| ThermSmartSensor.SensorDataHandler.Load | therm-smart-sensor.js:268-317 | state and output agree with `Step` for a load |
| ThermSmartSensor.SensorDataHandler.HandleData | therm-smart-sensor.js:287-296 | state and output agree with `Step` for a notification |
| ThermSmartSensor.SensorDataHandler.HandleWriteError | therm-smart-sensor.js:302-309 | state and output agree with `Step` for a write error |
| ThermSmartSensor.ThermSmartSensor.constructor | therm-smart-sensor.js:334-342 | the new sensor's state is `Initial(config)` and satisfies the invariant |
| ThermSmartSensor.ThermSmartSensor.LoadBattery | therm-smart-sensor.js:215-217 | the battery load agrees with `Step` |
| ThermSmartSensor.ThermSmartSensor.CompleteConnect | therm-smart-sensor.js:344-355 | a completed connection agrees with `Step` |
| ThermSmartSensor.ThermSmartSensor.FailConnect | therm-smart-sensor.js:88-119 | a failed connection agrees with `Step` |
| ThermSmartSensor.ThermSmartSensor.HandleDisconnect | therm-smart-sensor.js:357-361 | a disconnect agrees with `Step`: handles cleared, then the waiting load rejected (connecting) or stranded (awaiting its response) |
| Accessory.TrackedKeys | index.js:12-17 | the four tracked keys are battery-level, indoor-temperature, indoor-humidity and outdoor-temperature |
| Accessory.InitialData | index.js:12-17 | exactly the tracked keys, all 0 |
| Accessory.Route | index.js:23-32 | same keys; the reading's key takes its value when present; every other entry unchanged |
| Accessory.RouteAll | index.js:23-32 | routing readings never adds or removes a key |
| Accessory.LastValue | index.js:29-31 | the value of the last reading with the key, none iff there is none |
| Accessory.RouteAllTakesLast | index.js:29-31 | after a batch, each key holds its last reading's value, or its old value |
| Accessory.AdvertisementSetsBattery | index.js:53-58 | after an advertisement, battery-level is byte 0, and the status is low iff byte 0 < 10 |
| Accessory.LowBatteryStatus | index.js:53-58 | low iff the battery level is a number below 10 |
| Accessory.ScanAddress | index.js:34-36 | null iff no or an empty address is configured; otherwise the lower-cased, colon-stripped configured address, which has no ':' and no upper case |
| Accessory.TrackedReadings | index.js:29-31 | exactly the battery, indoor temperature, indoor humidity and outdoor temperature readings are tracked |
| Accessory.ThermSmartAccessory.constructor | index.js:8-20 | the initial map and the normalised address |
| Accessory.ThermSmartAccessory.ReadingHandler | index.js:23-32 | the map becomes `Route` of the old map |
| Accessory.ThermSmartAccessory.HandleReadings | therm-smart.js:103-107 | handling readings one by one gives `RouteAll` of the old map |
| Accessory.ThermSmartAccessory.GetBatteryLevel | index.js:49-51 | the stored battery-level |
| Accessory.ThermSmartAccessory.GetLowBatteryStatus | index.js:53-58 | low iff the stored battery level is below 10 |
| Accessory.ThermSmartAccessory.GetIndoorTemperature | index.js:77-79 | the stored indoor-temperature |
| Accessory.ThermSmartAccessory.GetRelativeHumidity | index.js:95-97 | the stored indoor-humidity |
| Accessory.ThermSmartAccessory.GetOutdoorTemperature | index.js:111-113 | the stored outdoor-temperature |
| ReadScript.ParseFormat | scripts/read.js:27-30 | only 'influxdb' and 'json' are accepted |
| ReadScript.FormatRoundTrip | scripts/read.js:27-30 | each format's name is accepted as that format |
| ReadScript.MapSet | scripts/read.js:50 | `Map.set`: an existing key is replaced in place, a new key is appended, keys stay distinct |
| ReadScript.Collector.constructor | scripts/read.js:38 | an empty map |
| ReadScript.Collector.AllCollected | scripts/read.js:52-56 | true iff every key in READINGS is present |
| ReadScript.Collector.ReadingHandler | scripts/read.js:40-59 | untracked readings change nothing; tracked ones are set by key; done iff all three keys are present after the update |
| ReadScript.ValueText | scripts/read.js:67 | a printed value is non-empty and contains no '=' |
| ReadScript.ValueTextRoundTrip | scripts/read.js:67 | a printed value reads back to the value |
| ReadScript.InfluxLineRoundTrip | scripts/read.js:67 | the text before the first ',' is the type, and the text after the last '=' reads back to the value |
| ReadScript.NormAddresses | scripts/read.js:76-78 | no list stays no list; entry i is the lower-cased, colon-stripped input entry i, with no ':' and no upper case |
| ReadScript.UpperCaseAddressNeverListed | scripts/read.js:76-78 | a peripheral whose reported address has an upper-case letter never passes the normalised allow-list |

## Left out

- Radio plumbing: `noble` power state, `startScanning`/`stopScanning`, the peripheral's connect,
  discover, subscribe and read callbacks. Their outcomes are inputs (`ThermSmartSensor.Event`,
  `ThermSmart.WriteEvent`, the `discovered` argument of `GetCharacteristics`), never calls.
- Timers: the 5-second power-on timeout (therm-smart.js:19-22) and the read timeout
  (scripts/read.js:80-82). The clock is the `now` parameter.
- Promise and listener concurrency. A connection attempt is one event that reports the outcome of
  scan, connect and discovery together. A disconnect while a load waits for the connection fails
  the load at once, and the scan's own rejection is folded into the same failure.
- Where an exception thrown by a listener goes after it leaves the listener (into the radio
  library's event emitter) is not modelled; the model reports `ListenerThrew` and keeps the state
  the code leaves behind.
- ThermSmartSensor.OnLoadBattery: a battery load that starts a connection reports only
  `ConnectRequested`. Its later resolution with the battery data is not modelled.
- ThermSmartSensor.OnData: the write callback and the data listener of an exchange that already
  ended, or that a disconnect stranded, are not modelled. A notification after an exchange settled
  or was stranded is `Quiet`; the stranded listener stays attached to the old characteristic
  object, which the model does not keep.
- ThermSmartSensor.SensorDataHandler.Connect: the disconnect listener left behind when
  `notifyCharacteristic` is null is not modelled; the model reports a failed connect.
- `ThermSmart.connect` and `_setupListeners` (therm-smart.js:154-177, 209-225) are not part of
  this model beyond `_getCharacteristics`. `BluetoothSensor.disconnect` (therm-smart-sensor.js:147-162)
  only forwards to the radio.
- ThermSmart.OnAdvertisement: missing manufacturer data (which makes `data.length` throw) is
  modelled as empty data, which is dropped.
- ThermSmart.Listed: `index.js` passes its address to `scanForReadings` as a string, so
  therm-smart.js:99 searches for a substring. The allow-list is modelled as a sequence of
  addresses compared whole.
- Text.FormatTenths: JavaScript number printing is modelled for magnitudes below 10^21 only.
  Values decoded from bytes are far below that.
- Text.LowerAscii: `toLowerCase` is modelled for ASCII letters only.
- JavaScript floating point: advertisement values are exact tenths and connected-mode values exact
  reals. Rounding of the division by 20 or by 10 is not modelled.
- The JSON output of `scripts/read.js`, logging, coloured console output and `process.exit`.
- The HomeKit service and characteristic construction and `registerAccessory` (index.js:60-151).
- `scripts/manage.js` is not part of this model. It is interactive stdin handling and calls a
  `readTime` that the device class does not define.

## Findings

| source | as written | input that shows it | evidently intended | confidence | as-written member | corrected member |
|---|---|---|---|---|---|---|
| therm-smart-sensor.js:280-284 | the load's disconnect listener dereferences `this.notifyCharacteristic`, which the sensor's `handleDisconnect` (added first, at :99) has already set to null (:262-266, :357-361); it throws before clearing `promise` or rejecting, and the load stays pending for good (`ThermSmartSensor.DisconnectStrandsLoad`, `ThermSmartSensor.StrandedForever`) | a `load` that has written the command, then a 'disconnect' event before the response | the load is rejected with "Sensor disconnected unexpectedly" and `promise` is cleared, so the next `load` reconnects | high, not executed | ThermSmartSensor.OnDisconnect | ThermSmartSensor.OnDisconnectIntended |
