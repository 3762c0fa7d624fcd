/**
 * The connected-mode sensor of therm-smart-sensor.js.
 *
 * A `ThermSmartSensor` owns a `BatteryLevelHandler` and a `SensorDataHandler`. Loading sensor
 * data connects (unless already connected), answers from a time-limited cache when it can, and
 * otherwise writes the 0xd2 command and waits for the notification that echoes it. At most one
 * load is in flight: its promise is kept in `promise` until the load settles.
 *
 * The radio is outside the model: what scanning, connecting, discovery, reading the battery
 * characteristic and subscribing report back arrives as an `Event`, and the clock is the `now`
 * those events carry (milliseconds). `Step` is the specification of one event; the classes at
 * the end hold the same state in the source's fields and are proved to follow `Step`.
 */
module ThermSmartSensor {
  import opened Wrappers
  import opened Protocol
  import Text
  import Reading
  import ThermSmart

  /** How a read of a response buffer can fail: past the end, or no buffer at all (`null`). */
  datatype ReadFault = OutOfRange | NoData

  /** `readTemperature(data, position)`: `(readUInt16LE(position) - 0x3000) / 20`, no sentinel check. */
  function ReadTemperature(data: Bytes, position: nat): (r: Result<real, ReadFault>)
    ensures r.Err? <==> |data| < position + 2
    ensures r.Ok? ==> 20.0 * r.value + 12288.0 == (data[position] as int + 256 * data[position + 1] as int) as real
  {
    if |data| < position + 2 then Err(OutOfRange)
    else Ok((U16LE(data, position) - 0x3000) as real / 20.0)
  }

  /**
   * `readRelativeHumidity(data, position)`: the byte printed as two hex digits and read back by
   * `parseInt` (`None` is NaN; a position past the end prints as the empty string).
   */
  function ReadRelativeHumidity(data: Bytes, position: nat): (r: Option<nat>)
    ensures position >= |data| ==> r.None?
    ensures position < |data| ==> var b := data[position];
      && (b / 16 < 10 && b % 16 < 10 ==> r == Some(10 * (b / 16) + b % 16))
      && (b / 16 < 10 && b % 16 >= 10 ==> r == Some(b / 16))
      && (b / 16 >= 10 ==> r.None?)
  {
    if position >= |data| then None
    else
      Text.ParseIntOfHexByte(data[position]);
      Text.ParseIntNoRadix(Text.HexByte(data[position]))
  }

  /** `getIndoorTemperature`: the temperature field at offset 3 of the response. */
  function IndoorTemperature(data: Bytes): Result<real, ReadFault>
  {
    ReadTemperature(data, 3)
  }

  /** `getRelativeHumidity`: the humidity byte at offset 9 of the response. */
  function RelativeHumidity(data: Bytes): Option<nat>
  {
    ReadRelativeHumidity(data, 9)
  }

  /** `getOutdoorTemperature`: the temperature field at offset 12 of the response. */
  function OutdoorTemperature(data: Bytes): Result<real, ReadFault>
  {
    ReadTemperature(data, 12)
  }

  /** `getBatteryLevel`: `data.readUInt8()` of the stored battery data, which may be `null`. */
  function BatteryLevel(data: Option<Bytes>): (r: Result<Byte, ReadFault>)
    ensures r.Ok? <==> data.Some? && |data.value| > 0
    ensures r.Ok? ==> r.value == data.value[0]
  {
    if data.None? then Err(NoData)
    else if data.value == [] then Err(OutOfRange)
    else Ok(data.value[0])
  }

  /**
   * The two temperature decoders agree exactly when the raw delta is even: the legacy decoder
   * rounds `delta / 2` to whole tenths, this one keeps `delta / 20` exact.
   */
  lemma {:induction false} TemperatureFormulasAgreeIffEven(data: Bytes, position: nat)
    requires position + 2 <= |data| && Reading.GetError(data[position + 1]) == 0
    ensures Reading.ParseTemperature(data, position).value.Tenths?
    ensures (Reading.ParseTemperature(data, position).value.tenths as real / 10.0 == ReadTemperature(data, position).value)
        <==> (U16LE(data, position) - 0x3000) % 2 == 0
  {
    var d := U16LE(data, position) - 0x3000;
    var t := Reading.ParseTemperature(data, position).value.tenths;
    assert 2 * t - 1 <= d <= 2 * t;
    assert ReadTemperature(data, position).value == d as real / 20.0;
    assert t as real / 10.0 == d as real / 20.0 <==> 2 * t == d;
  }

  /**
   * Where the legacy decoder reports a sentinel, this one never reads the same number: every
   * sentinel byte has the high nibble 0xe or 0xf, which puts the reading at 2252.8 degrees or more.
   */
  lemma {:induction false} SentinelNeverAgrees(data: Bytes, position: nat)
    requires position + 2 <= |data| && Reading.GetError(data[position + 1]) != 0
    ensures ReadTemperature(data, position).value >= 2252.8
    ensures Reading.ParseTemperature(data, position).value.Tenths?
    ensures Reading.ParseTemperature(data, position).value.tenths as real / 10.0 != ReadTemperature(data, position).value
  {
    Reading.GetErrorCodes(data[position + 1]);
    assert data[position + 1] >= 0xe0;
    assert U16LE(data, position) >= 0xe000;
  }

  /** An example: an all-ones field reads as 2662.35 degrees here, and as the -999 sentinel in the legacy decoder. */
  lemma SentinelNotInspected()
    ensures ReadTemperature([0xff, 0xff], 0) == Ok(2662.35)
    ensures Reading.ParseTemperature([0xff, 0xff], 0) == Ok(Reading.Tenths(-9990))
  {
  }

  /** Where no sentinel applies, both humidity decoders read the same number (or both NaN). */
  lemma {:induction false} HumidityFormulasAgree(data: Bytes, position: nat)
    requires position < |data| && Reading.GetError(data[position]) == 0
    ensures ReadRelativeHumidity(data, position).None? <==> Reading.ParseHumidity(data, position).NaN?
    ensures ReadRelativeHumidity(data, position).Some? ==>
      Reading.ParseHumidity(data, position) == Reading.Tenths(10 * ReadRelativeHumidity(data, position).value)
  {
  }

  /** The little-endian field for a temperature of `n` twentieths of a degree. */
  function TemperatureField(n: int): (bs: Bytes)
    requires -0x3000 <= n < 0xD000
    ensures |bs| == 2
  {
    var raw := 0x3000 + n;
    [raw % 256, raw / 256]
  }

  /** A sensor-data response carrying an indoor temperature, a humidity and an outdoor temperature. */
  function Response(indoor: int, humidity: nat, outdoor: int): (data: Bytes)
    requires -0x3000 <= indoor < 0xD000 && -0x3000 <= outdoor < 0xD000 && humidity < 100
    ensures |data| == 14 && data[0] == GET_SENSOR_DATA_COMMAND
  {
    [GET_SENSOR_DATA_COMMAND, 0, 0] + TemperatureField(indoor) + [0, 0, 0, 0]
      + [Reading.EncodeHumidity(humidity), 0, 0] + TemperatureField(outdoor)
  }

  /** The getters read back what a response carries, at offsets 3, 9 and 12. */
  lemma {:induction false} ResponseRoundTrip(indoor: int, humidity: nat, outdoor: int)
    requires -0x3000 <= indoor < 0xD000 && -0x3000 <= outdoor < 0xD000 && humidity < 100
    ensures IndoorTemperature(Response(indoor, humidity, outdoor)) == Ok(indoor as real / 20.0)
    ensures RelativeHumidity(Response(indoor, humidity, outdoor)) == Some(humidity)
    ensures OutdoorTemperature(Response(indoor, humidity, outdoor)) == Ok(outdoor as real / 20.0)
  {
    var data := Response(indoor, humidity, outdoor);
    assert data[3] == (0x3000 + indoor) % 256 && data[4] == (0x3000 + indoor) / 256;
    assert data[12] == (0x3000 + outdoor) % 256 && data[13] == (0x3000 + outdoor) / 256;
    assert data[9] == Reading.EncodeHumidity(humidity);
    assert data[9] / 16 == humidity / 10 && data[9] % 16 == humidity % 10;
  }

  // ---------------------------------------------------------------- configuration

  /** The options the sensor is created with (`config.address`, `config.dataTtl`). */
  datatype Config = Config(address: Option<string>, dataTtl: Option<real>)

  /** `config.dataTtl || 15`: seconds a loaded response stays fresh; a missing or zero setting means 15. */
  function DataTtl(configured: Option<real>): (ttl: real)
    ensures configured.None? ==> ttl == 15.0
    ensures configured == Some(0.0) ==> ttl == 15.0
    ensures configured.Some? && configured.value != 0.0 ==> ttl == configured.value
  {
    if configured.None? || configured.value == 0.0 then 15.0 else configured.value
  }

  /** `config.address || null`: an empty address means none. */
  function ConfiguredAddress(config: Config): (a: Option<string>)
    ensures a.Some? <==> config.address.Some? && config.address.value != ""
  {
    if config.address.Some? && config.address.value != "" then config.address else None
  }

  /** `BluetoothSensor.scan`'s choice: any peripheral without a configured address, else exact equality. */
  predicate ScanSelects(address: Option<string>, peripheralAddress: string)
  {
    address.None? || address.value == peripheralAddress
  }

  /**
   * No normalisation takes place: a configured address selects exactly the peripheral with the
   * same text, so one in another case or notation is never found (the examples); without an
   * address any peripheral is.
   */
  lemma ScanComparesExactly(configured: string, peripheralAddress: string)
    ensures ScanSelects(Some(configured), peripheralAddress) <==> configured == peripheralAddress
    ensures ScanSelects(None, peripheralAddress)
    ensures !ScanSelects(Some("AA:BB:CC:DD:EE:FF"), "aa:bb:cc:dd:ee:ff")
    ensures !ScanSelects(Some("aabbccddeeff"), "aa:bb:cc:dd:ee:ff")
    ensures ScanSelects(None, "aa:bb:cc:dd:ee:ff")
  {
  }

  // ---------------------------------------------------------------- characteristic selection

  const BATTERY_LEVEL_TYPE: string := "org.bluetooth.characteristic.battery_level"

  /** `characteristics.find(c => c.type === kind)`: the first characteristic of that type. */
  function FindByKind(characteristics: seq<Characteristic>, kind: string): (r: Option<Characteristic>)
    ensures r.None? <==> forall i :: 0 <= i < |characteristics| ==> characteristics[i].kind != kind
    ensures r.Some? ==> r.value in characteristics && r.value.kind == kind
    ensures r.Some? ==>
      exists i :: 0 <= i < |characteristics| && characteristics[i] == r.value &&
        forall j :: 0 <= j < i ==> characteristics[j].kind != kind
  {
    if characteristics == [] then None
    else if characteristics[0].kind == kind then Some(characteristics[0])
    else
      var r := FindByKind(characteristics[1..], kind);
      assert forall i :: 1 <= i < |characteristics| ==> characteristics[i] == characteristics[1..][i - 1];
      if r.None? then r
      else
        var k :| 0 <= k < |characteristics[1..]| && characteristics[1..][k] == r.value
          && forall j :: 0 <= j < k ==> characteristics[1..][j].kind != kind;
        assert characteristics[k + 1] == r.value;
        r
  }

  /** The last characteristic with the given uuid: what a `forEach` that keeps overwriting ends with. */
  function LastByUuid(characteristics: seq<Characteristic>, uuid: string): (r: Option<Characteristic>)
    ensures r.None? <==> forall i :: 0 <= i < |characteristics| ==> characteristics[i].uuid != uuid
    ensures r.Some? ==>
      exists i :: 0 <= i < |characteristics| && characteristics[i] == r.value && r.value.uuid == uuid &&
        forall j :: i < j < |characteristics| ==> characteristics[j].uuid != uuid
  {
    if characteristics == [] then None
    else
      var last := characteristics[|characteristics| - 1];
      var init := characteristics[..|characteristics| - 1];
      assert forall i :: 0 <= i < |init| ==> init[i] == characteristics[i];
      if last.uuid == uuid then Some(last)
      else
        var r := LastByUuid(init, uuid);
        if r.None? then r
        else
          var k :| 0 <= k < |init| && init[k] == r.value && r.value.uuid == uuid &&
            forall j :: k < j < |init| ==> init[j].uuid != uuid;
          assert characteristics[k] == r.value;
          r
  }

  /** The value a `forEach` assignment leaves in a field: the last match, or the old value when nothing matches. */
  function Assigned(characteristics: seq<Characteristic>, uuid: string, previous: Option<Characteristic>): Option<Characteristic>
  {
    if LastByUuid(characteristics, uuid).Some? then LastByUuid(characteristics, uuid) else previous
  }

  /** Where a uuid occurs at most once, the scanner's first match and the session's last match coincide. */
  lemma {:induction false} FirstAndLastAgreeWhenUnique(characteristics: seq<Characteristic>, uuid: string)
    requires forall i, j :: 0 <= i < j < |characteristics| && characteristics[i].uuid == uuid ==> characteristics[j].uuid != uuid
    ensures LastByUuid(characteristics, uuid) == ThermSmart.FindByUuid(characteristics, uuid)
  {
    var l := LastByUuid(characteristics, uuid);
    var f := ThermSmart.FindByUuid(characteristics, uuid);
    if l.Some? {
      var i :| 0 <= i < |characteristics| && characteristics[i] == l.value && l.value.uuid == uuid &&
        forall j :: i < j < |characteristics| ==> characteristics[j].uuid != uuid;
      var k :| 0 <= k < |characteristics| && characteristics[k] == f.value && f.value.uuid == uuid &&
        forall j :: 0 <= j < k ==> characteristics[j].uuid != uuid;
      assert i == k;
    }
  }

  // ---------------------------------------------------------------- the session

  /**
   * The `promise` slot of the data handler: no load, a load waiting for the connection, or for
   * the response; or `Stranded`, a load whose exchange was cut by a disconnect that its own
   * disconnect listener failed to handle, so that nothing is left to settle it.
   */
  datatype Slot = Idle | Connecting | AwaitingResponse | Stranded

  /** What discovery reports once connected: the peripheral, its services and its characteristics. */
  datatype Link = Link(peripheral: string, services: seq<string>, characteristics: seq<Characteristic>)

  /**
   * The fields of a sensor and its two handlers: the sensor's `peripheral`, `services`,
   * `characteristics` and `isConnected`; the battery handler's `data`; the data handler's
   * characteristics, `promise`, `_data`, `dataLoadedAt` and `dataTtl`.
   */
  datatype Session = Session(
    address: Option<string>,
    peripheral: Option<string>,
    services: Option<seq<string>>,
    characteristics: Option<seq<Characteristic>>,
    isConnected: bool,
    battery: Option<Bytes>,
    writeCharacteristic: Option<Characteristic>,
    notifyCharacteristic: Option<Characteristic>,
    promise: Slot,
    data: Option<Bytes>,
    dataLoadedAt: int,
    dataTtl: real)

  /** What the radio, the caller and the clock can do next. */
  datatype Event =
    | Load(now: int)                          // `sensorDataHandler.load()`
    | LoadBattery                             // `batteryLevelHandler.load()`
    | Connected(link: Link, batteryRead: Result<Bytes, string>, subscribed: bool, now: int)
                                              // discovery succeeded; the handlers' connect outcomes
    | LinkFailed(found: Option<string>)       // scan, connect or discovery failed (after finding `found`)
    | Data(bytes: Bytes, isNotification: bool, now: int)   // a 'data' event on the notify characteristic
    | WriteFailed                             // the command write reported an error
    | Disconnect(now: int)                    // the peripheral's 'disconnect' event

  datatype Failure = ConnectFailed | NoNotifyCharacteristic | NoWriteCharacteristic | WriteError | Disconnected

  /** What an event makes observable. */
  datatype Output =
    | Quiet
    | Joined                   // the pending load's promise is returned again
    | ConnectRequested         // a connection attempt was started
    | LinkReady(ok: bool)      // a connection attempt no load was waiting for ended
    | Battery(battery: Option<Bytes>)
    | FromCache(cached: Bytes) // the load resolved from the cache, without writing
    | CommandWritten           // the 0xd2 command was written; the load waits for its response
    | Loaded(response: Bytes)  // the load resolved with a fresh response
    | LoadFailed(reason: Failure)
    | ListenerThrew            // a listener threw: the data listener on an empty notification,
                               // or the load's disconnect listener once the handles were cleared

  /** Outputs that settle the promise of a load. */
  predicate Settles(o: Output)
  {
    o.FromCache? || o.Loaded? || o.LoadFailed?
  }

  /** A freshly constructed sensor. */
  function Initial(config: Config): (s: Session)
    ensures s.promise == Idle && s.data.None? && !s.isConnected && s.peripheral.None?
  {
    Session(ConfiguredAddress(config), None, None, None, false, None, None, None, Idle, None, 0, DataTtl(config.dataTtl))
  }

  /** The `data` getter at time `now`: the stored response while it is at most `dataTtl` seconds old. */
  function CachedData(s: Session, now: int): (d: Option<Bytes>)
    ensures d.Some? <==> s.data.Some? && (now - s.dataLoadedAt) as real / 1000.0 <= s.dataTtl
    ensures d.Some? ==> d == s.data
  {
    if (now - s.dataLoadedAt) as real / 1000.0 > s.dataTtl then None else s.data
  }

  /** The continuation of `load` once the sensor is connected. */
  function AfterConnect(s: Session, now: int): (Session, Output)
  {
    var cached := CachedData(s, now);
    if cached.Some? then (s.(promise := Idle), FromCache(cached.value))
    else if s.notifyCharacteristic.None? then (s.(promise := Idle), LoadFailed(NoNotifyCharacteristic))
    else if s.writeCharacteristic.None? then (s.(promise := Idle), LoadFailed(NoWriteCharacteristic))
    else (s.(promise := AwaitingResponse), CommandWritten)
  }

  function OnLoad(s: Session, now: int): (Session, Output)
  {
    if s.promise != Idle then (s, Joined)
    else if s.isConnected then AfterConnect(s.(promise := Connecting), now)
    else (s.(promise := Connecting), ConnectRequested)
  }

  function OnLoadBattery(s: Session): (Session, Output)
  {
    if s.isConnected then (s, Battery(s.battery)) else (s, ConnectRequested)
  }

  /** Discovery succeeded: the sensor's fields, then both handlers' `connect`, then the waiting load. */
  function OnConnected(s: Session, link: Link, batteryRead: Result<Bytes, string>, subscribed: bool, now: int): (Session, Output)
  {
    var characteristics := link.characteristics;
    var batteryCharacteristic := FindByKind(characteristics, BATTERY_LEVEL_TYPE);
    var batteryOk := batteryCharacteristic.None? || batteryRead.Ok?;
    var s1 := s.(peripheral := Some(link.peripheral), services := Some(link.services),
                 characteristics := Some(characteristics), isConnected := true,
                 battery := if batteryCharacteristic.Some? && batteryRead.Ok? then Some(batteryRead.value) else s.battery,
                 writeCharacteristic := Assigned(characteristics, WRITE_CHARACTERISTIC_UUID, s.writeCharacteristic),
                 notifyCharacteristic := Assigned(characteristics, NOTIFY_CHARACTERISTIC_UUID, s.notifyCharacteristic));
    var ok := batteryOk && s1.notifyCharacteristic.Some? && subscribed;
    if s.promise != Connecting then (s1, LinkReady(ok))
    else if !ok then (s1.(promise := Idle), LoadFailed(ConnectFailed))
    else AfterConnect(s1, now)
  }

  function OnLinkFailed(s: Session, found: Option<string>): (Session, Output)
  {
    var s1 := if found.Some? then s.(peripheral := found) else s;
    if s.promise == Connecting then (s1.(promise := Idle), LoadFailed(ConnectFailed)) else (s1, LinkReady(false))
  }

  function OnData(s: Session, bytes: Bytes, isNotification: bool, now: int): (Session, Output)
  {
    if s.promise != AwaitingResponse then (s, Quiet)
    else if isNotification && bytes == [] then (s, ListenerThrew)
    else if IsResponse(bytes, isNotification, GET_SENSOR_DATA_COMMAND) then
      (s.(data := Some(bytes), dataLoadedAt := now, promise := Idle), Loaded(bytes))
    else (s, Quiet)
  }

  function OnWriteFailed(s: Session): (Session, Output)
  {
    if s.promise == AwaitingResponse then (s.(promise := Idle), LoadFailed(WriteError)) else (s, Quiet)
  }

  /** The fields `handleDisconnect` of the sensor and both handlers clear, with the data stamped at `now`. */
  function ClearedByDisconnect(s: Session, now: int): Session
  {
    s.(peripheral := None, services := None, characteristics := None, isConnected := false,
       battery := None, writeCharacteristic := None, notifyCharacteristic := None,
       data := None, dataLoadedAt := now)
  }

  /**
   * The peripheral's 'disconnect' listeners in the order they were added. The sensor's
   * `handleDisconnect`, added when the connection was made, clears every handle first. A load
   * still waiting for the connection is then rejected by discovery's listener and its promise
   * cleared. A load waiting for its response has its own listener, which dereferences the
   * notify characteristic that was just cleared: it throws before clearing the promise or
   * rejecting, and the load is stranded.
   */
  function OnDisconnect(s: Session, now: int): (r: (Session, Output))
    ensures s.peripheral.Some? ==> r.0.peripheral.None? && !r.0.isConnected && r.0.notifyCharacteristic.None?
    ensures s.peripheral.Some? && s.promise == AwaitingResponse ==> r.0.promise == Stranded && r.1 == ListenerThrew
  {
    if s.peripheral.None? then (s, Quiet)
    else
      var reset := ClearedByDisconnect(s, now);
      match s.promise
      case Idle => (reset, Quiet)
      case Connecting => (reset.(promise := Idle), LoadFailed(Disconnected))
      case AwaitingResponse => (reset.(promise := Stranded), ListenerThrew)
      case Stranded => (reset, Quiet)
  }

  /** The specification of one event. */
  function Step(s: Session, e: Event): (Session, Output)
  {
    match e
    case Load(now) => OnLoad(s, now)
    case LoadBattery => OnLoadBattery(s)
    case Connected(link, batteryRead, subscribed, now) => OnConnected(s, link, batteryRead, subscribed, now)
    case LinkFailed(found) => OnLinkFailed(s, found)
    case Data(bytes, isNotification, now) => OnData(s, bytes, isNotification, now)
    case WriteFailed => OnWriteFailed(s)
    case Disconnect(now) => OnDisconnect(s, now)
  }

  /** The states and outputs a sequence of events produces. */
  function Run(s: Session, events: seq<Event>): (r: (Session, seq<Output>))
    ensures |r.1| == |events|
    decreases |events|
  {
    if events == [] then (s, [])
    else
      var (s1, o) := Step(s, events[0]);
      var (s2, os) := Run(s1, events[1..]);
      (s2, [o] + os)
  }

  /**
   * What holds between events: connected exactly when discovery's results are stored, with a
   * peripheral; a load waits for its response only while connected with both characteristics.
   */
  predicate Valid(s: Session)
  {
    && (s.isConnected <==> s.services.Some?)
    && (s.services.Some? <==> s.characteristics.Some?)
    && (s.isConnected ==> s.peripheral.Some?)
    && (s.promise == AwaitingResponse ==> s.isConnected && s.writeCharacteristic.Some? && s.notifyCharacteristic.Some?)
  }

  lemma InitialValid(config: Config)
    ensures Valid(Initial(config))
  {
  }

  lemma {:induction false} StepKeepsValid(s: Session, e: Event)
    requires Valid(s)
    ensures Valid(Step(s, e).0)
  {
  }

  lemma {:induction false} RunKeepsValid(s: Session, events: seq<Event>)
    requires Valid(s)
    ensures Valid(Run(s, events).0)
    decreases |events|
  {
    if events != [] {
      StepKeepsValid(s, events[0]);
      RunKeepsValid(Step(s, events[0]).0, events[1..]);
    }
  }

  /**
   * The promise slot and settlement go together: every settlement leaves the slot empty, and
   * a pending load's slot is emptied only by settling it. (A disconnect can still leave a load
   * pending for good: see `StrandedForever`.)
   */
  lemma {:induction false} PromiseClearedOnSettle(s: Session, e: Event)
    ensures Settles(Step(s, e).1) ==> Step(s, e).0.promise == Idle
    ensures s.promise != Idle && Step(s, e).0.promise == Idle ==> Settles(Step(s, e).1)
  {
  }

  /** While a load is pending, `load` hands back the same promise and changes nothing. */
  lemma PendingLoadJoins(s: Session, now: int)
    requires s.promise != Idle
    ensures Step(s, Load(now)) == (s, Joined)
  {
  }

  /** At most one command is in flight: a write happens only from a state not already awaiting a response. */
  lemma {:induction false} OneCommandInFlight(s: Session, e: Event)
    ensures Step(s, e).1 == CommandWritten ==> s.promise != AwaitingResponse && Step(s, e).0.promise == AwaitingResponse
    ensures Step(s, e).0.promise == AwaitingResponse && s.promise != AwaitingResponse ==> Step(s, e).1 == CommandWritten
  {
  }

  /** A response stored at `loaded` answers a later load while at most `dataTtl` seconds old, without a write. */
  lemma {:induction false} ServedFromCacheWithinTtl(s: Session, response: Bytes, loaded: int, now: int)
    requires Valid(s) && s.promise == AwaitingResponse && |response| > 0 && response[0] == GET_SENSOR_DATA_COMMAND
    requires loaded <= now && (now - loaded) as real / 1000.0 <= s.dataTtl
    ensures var (s1, o1) := Step(s, Data(response, true, loaded));
      o1 == Loaded(response) && Step(s1, Load(now)) == (s1, FromCache(response))
  {
  }

  /** Once the stored response is more than `dataTtl` seconds old, a load writes the command again. */
  lemma {:induction false} ReloadAfterTtl(s: Session, response: Bytes, loaded: int, now: int)
    requires Valid(s) && s.promise == AwaitingResponse && |response| > 0 && response[0] == GET_SENSOR_DATA_COMMAND
    requires (now - loaded) as real / 1000.0 > s.dataTtl
    ensures var (s1, o1) := Step(s, Data(response, true, loaded));
      o1 == Loaded(response) && Step(s1, Load(now)) == (s1.(promise := AwaitingResponse), CommandWritten)
  {
  }

  /**
   * A disconnect resets the whole session: no peripheral, services, characteristics, battery
   * data or handles, not connected, and no cached response at any later time. A load waiting
   * for the connection is cleared; one waiting for its response is stranded.
   */
  lemma {:induction false} DisconnectResets(s: Session, now: int, later: int)
    requires s.peripheral.Some?
    ensures var s1 := Step(s, Disconnect(now)).0;
      && s1.peripheral.None? && s1.services.None? && s1.characteristics.None? && !s1.isConnected
      && s1.battery.None? && s1.writeCharacteristic.None? && s1.notifyCharacteristic.None?
      && s1.promise == (if s.promise in {AwaitingResponse, Stranded} then Stranded else Idle)
      && CachedData(s1, later).None?
      && s1.address == s.address && s1.dataTtl == s.dataTtl
  {
  }

  /** A disconnect during the exchange makes the load's disconnect listener throw and strands the load. */
  lemma DisconnectStrandsLoad(s: Session, now: int)
    requires Valid(s) && s.promise == AwaitingResponse
    ensures Step(s, Disconnect(now)) == (ClearedByDisconnect(s, now).(promise := Stranded), ListenerThrew)
  {
  }

  /** A stranded load stays pending for good: no event settles it and every later `load` joins it. */
  lemma {:induction false} StrandedForever(s: Session, events: seq<Event>)
    requires s.promise == Stranded
    ensures Run(s, events).0.promise == Stranded
    ensures forall i :: 0 <= i < |events| ==> !Settles(Run(s, events).1[i])
    ensures forall i :: 0 <= i < |events| && events[i].Load? ==> Run(s, events).1[i] == Joined
    decreases |events|
  {
    if events != [] {
      var (s1, o) := Step(s, events[0]);
      assert s1.promise == Stranded && !Settles(o) && (events[0].Load? ==> o == Joined);
      StrandedForever(s1, events[1..]);
      var os := Run(s1, events[1..]).1;
      assert Run(s, events).1 == [o] + os;
      assert forall i :: 1 <= i < |events| ==> events[i] == events[1..][i - 1] && Run(s, events).1[i] == os[i - 1];
    }
  }

  /**
   * The evidently intended disconnect: whatever the load waits for, the connection or its
   * response, it is rejected and its promise cleared.
   */
  function OnDisconnectIntended(s: Session, now: int): (r: (Session, Output))
    ensures s.peripheral.Some? ==> r.0.peripheral.None? && !r.0.isConnected && r.0.promise == Idle
    ensures s.peripheral.Some? ==> (Settles(r.1) <==> s.promise != Idle)
  {
    if s.peripheral.None? then (s, Quiet)
    else (ClearedByDisconnect(s, now).(promise := Idle), if s.promise == Idle then Quiet else LoadFailed(Disconnected))
  }

  /** `Step` with the intended disconnect. */
  function StepIntended(s: Session, e: Event): (Session, Output)
  {
    if e.Disconnect? then OnDisconnectIntended(s, e.now) else Step(s, e)
  }

  /** With the intended disconnect a pending load is never stranded, and the slot and settlement go together. */
  lemma {:induction false} IntendedPromiseClearedOnSettle(s: Session, e: Event)
    requires s.promise != Stranded
    ensures StepIntended(s, e).0.promise != Stranded
    ensures Settles(StepIntended(s, e).1) ==> StepIntended(s, e).0.promise == Idle
    ensures s.promise != Idle && StepIntended(s, e).0.promise == Idle ==> Settles(StepIntended(s, e).1)
  {
  }

  /** With the intended disconnect, a load cut off during its exchange fails, and the next load starts afresh. */
  lemma IntendedDisconnectRejects(s: Session, now: int, later: int)
    requires Valid(s) && s.promise == AwaitingResponse
    ensures var (s1, o) := StepIntended(s, Disconnect(now));
      o == LoadFailed(Disconnected) && s1.promise == Idle && Valid(s1)
      && StepIntended(s1, Load(later)) == (s1.(promise := Connecting), ConnectRequested)
  {
  }

  /** A connected sensor does not connect again: `load` proceeds at once. */
  lemma ConnectedShortCircuits(s: Session, now: int)
    requires s.isConnected && s.promise == Idle
    ensures Step(s, Load(now)).1 != ConnectRequested
    ensures Step(s, LoadBattery) == (s, Battery(s.battery))
  {
  }

  // ---------------------------------------------------------------- the objects

  /** The battery handler: the battery characteristic's value as last read, or `null`. */
  class BatteryLevelHandler {
    var data: Option<Bytes>

    constructor ()
      ensures data.None?
    {
      data := None;
    }

    /**
     * `connect`: with a battery-level characteristic its value is read and stored (a read error
     * rejects and stores nothing); without one, nothing is read and the handler still resolves.
     */
    method Connect(characteristics: seq<Characteristic>, batteryRead: Result<Bytes, string>) returns (ok: bool)
      modifies this
      ensures ok <==> FindByKind(characteristics, BATTERY_LEVEL_TYPE).None? || batteryRead.Ok?
      ensures data == if FindByKind(characteristics, BATTERY_LEVEL_TYPE).Some? && batteryRead.Ok? then Some(batteryRead.value) else old(data)
    {
      var characteristic := FindByKind(characteristics, BATTERY_LEVEL_TYPE);
      if characteristic.None? {
        return true;
      }
      if batteryRead.Err? {
        return false;
      }
      data := Some(batteryRead.value);
      return true;
    }

    /** `handleDisconnect`. */
    method HandleDisconnect()
      modifies this
      ensures data.None?
    {
      data := None;
    }
  }

  /** The sensor-data handler: characteristics, the pending load and the cached response. */
  class SensorDataHandler {
    var writeCharacteristic: Option<Characteristic>
    var notifyCharacteristic: Option<Characteristic>
    var promise: Slot
    var storedData: Option<Bytes>
    var dataLoadedAt: int
    const dataTtl: real

    constructor (config: Config)
      ensures writeCharacteristic.None? && notifyCharacteristic.None? && promise == Idle
      ensures storedData.None? && dataLoadedAt == 0 && dataTtl == DataTtl(config.dataTtl)
    {
      writeCharacteristic := None;
      notifyCharacteristic := None;
      promise := Idle;
      storedData := None;
      dataLoadedAt := 0;
      dataTtl := DataTtl(config.dataTtl);
    }

    /** The `data` getter at time `now`. */
    function Data(now: int): (d: Option<Bytes>)
      reads this
      ensures d.Some? <==> storedData.Some? && (now - dataLoadedAt) as real / 1000.0 <= dataTtl
      ensures d.Some? ==> d == storedData
    {
      if (now - dataLoadedAt) as real / 1000.0 > dataTtl then None else storedData
    }

    /** The `data` setter at time `now`: stores the response and stamps it. */
    method SetData(d: Option<Bytes>, now: int)
      modifies this
      ensures storedData == d && dataLoadedAt == now
      ensures writeCharacteristic == old(writeCharacteristic) && notifyCharacteristic == old(notifyCharacteristic)
      ensures promise == old(promise)
    {
      storedData := d;
      dataLoadedAt := now;
    }

    /**
     * `connect`: the `forEach` over the discovered characteristics, which leaves in each field the
     * last characteristic with its uuid (and the previous value when none has it); then the
     * subscription, which fails when there is no notify characteristic.
     */
    method Connect(characteristics: seq<Characteristic>, subscribed: bool) returns (ok: bool)
      modifies this
      ensures writeCharacteristic == Assigned(characteristics, WRITE_CHARACTERISTIC_UUID, old(writeCharacteristic))
      ensures notifyCharacteristic == Assigned(characteristics, NOTIFY_CHARACTERISTIC_UUID, old(notifyCharacteristic))
      ensures ok <==> notifyCharacteristic.Some? && subscribed
      ensures promise == old(promise) && storedData == old(storedData) && dataLoadedAt == old(dataLoadedAt)
    {
      var i := 0;
      while i < |characteristics|
        invariant 0 <= i <= |characteristics|
        invariant writeCharacteristic == Assigned(characteristics[..i], WRITE_CHARACTERISTIC_UUID, old(writeCharacteristic))
        invariant notifyCharacteristic == Assigned(characteristics[..i], NOTIFY_CHARACTERISTIC_UUID, old(notifyCharacteristic))
        invariant promise == old(promise) && storedData == old(storedData) && dataLoadedAt == old(dataLoadedAt)
      {
        var characteristic := characteristics[i];
        assert characteristics[..i + 1][..i] == characteristics[..i];
        if characteristic.uuid == WRITE_CHARACTERISTIC_UUID {
          writeCharacteristic := Some(characteristic);
        } else if characteristic.uuid == NOTIFY_CHARACTERISTIC_UUID {
          notifyCharacteristic := Some(characteristic);
        }
        i := i + 1;
      }
      assert characteristics[..i] == characteristics;
      ok := notifyCharacteristic.Some? && subscribed;
    }

    /** `handleDisconnect`: forgets both characteristics and, through the setter, the cached response. */
    method HandleDisconnect(now: int)
      modifies this
      ensures writeCharacteristic.None? && notifyCharacteristic.None?
      ensures storedData.None? && dataLoadedAt == now && promise == old(promise)
    {
      writeCharacteristic := None;
      notifyCharacteristic := None;
      SetData(None, now);
    }

    /** The continuation of `load` once `sensor.connect()` has resolved. */
    method Resume(sensor: ThermSmartSensor, now: int) returns (o: Output)
      requires sensor.sensorDataHandler == this
      modifies this
      ensures (sensor.State(), o) == AfterConnect(old(sensor.State()), now)
    {
      var cached := Data(now);
      if cached.Some? {
        promise := Idle;
        o := FromCache(cached.value);
      } else if notifyCharacteristic.None? {
        promise := Idle;
        o := LoadFailed(NoNotifyCharacteristic);
      } else if writeCharacteristic.None? {
        promise := Idle;
        o := LoadFailed(NoWriteCharacteristic);
      } else {
        promise := AwaitingResponse;
        o := CommandWritten;
      }
    }

    /**
     * `load`: joins the pending load if there is one; otherwise connects the sensor, resuming at
     * once when it is already connected.
     */
    method Load(sensor: ThermSmartSensor, now: int) returns (o: Output)
      requires sensor.sensorDataHandler == this
      modifies this
      ensures (sensor.State(), o) == Step(old(sensor.State()), Event.Load(now))
    {
      if promise != Idle {
        return Joined;
      }
      promise := Connecting;
      if sensor.isConnected {
        o := Resume(sensor, now);
      } else {
        o := ConnectRequested;
      }
    }

    /** The data listener of a load waiting for its response. */
    method HandleData(sensor: ThermSmartSensor, bytes: Bytes, isNotification: bool, now: int) returns (o: Output)
      requires sensor.sensorDataHandler == this
      modifies this
      ensures (sensor.State(), o) == Step(old(sensor.State()), Event.Data(bytes, isNotification, now))
    {
      if promise != AwaitingResponse {
        return Quiet;
      }
      if isNotification && bytes == [] {
        return ListenerThrew;
      }
      if IsResponse(bytes, isNotification, GET_SENSOR_DATA_COMMAND) {
        SetData(Some(bytes), now);
        promise := Idle;
        return Loaded(bytes);
      }
      return Quiet;
    }

    /** The write callback of a load, called with an error. */
    method HandleWriteError(sensor: ThermSmartSensor) returns (o: Output)
      requires sensor.sensorDataHandler == this
      modifies this
      ensures (sensor.State(), o) == Step(old(sensor.State()), WriteFailed)
    {
      if promise != AwaitingResponse {
        return Quiet;
      }
      promise := Idle;
      return LoadFailed(WriteError);
    }
  }

  /** The sensor: its link to the peripheral and its two handlers. */
  class ThermSmartSensor {
    const address: Option<string>
    var peripheral: Option<string>
    var services: Option<seq<string>>
    var characteristics: Option<seq<Characteristic>>
    var isConnected: bool
    const batteryLevelHandler: BatteryLevelHandler
    const sensorDataHandler: SensorDataHandler

    /** The session these objects hold. */
    function State(): Session
      reads this, batteryLevelHandler, sensorDataHandler
    {
      Session(address, peripheral, services, characteristics, isConnected, batteryLevelHandler.data,
              sensorDataHandler.writeCharacteristic, sensorDataHandler.notifyCharacteristic,
              sensorDataHandler.promise, sensorDataHandler.storedData, sensorDataHandler.dataLoadedAt,
              sensorDataHandler.dataTtl)
    }

    constructor (config: Config)
      ensures State() == Initial(config) && Valid(State())
      ensures fresh(batteryLevelHandler) && fresh(sensorDataHandler)
    {
      address := ConfiguredAddress(config);
      peripheral := None;
      services := None;
      characteristics := None;
      isConnected := false;
      batteryLevelHandler := new BatteryLevelHandler();
      sensorDataHandler := new SensorDataHandler(config);
    }

    /** `batteryLevelHandler.load()`: the stored battery data once connected. */
    method LoadBattery() returns (o: Output)
      ensures (State(), o) == Step(State(), Event.LoadBattery)
    {
      if isConnected {
        return Battery(batteryLevelHandler.data);
      }
      return ConnectRequested;
    }

    /**
     * Discovery succeeded: the sensor stores what it found and is connected; both handlers
     * connect; a load waiting for the connection then fails or resumes.
     */
    method CompleteConnect(link: Link, batteryRead: Result<Bytes, string>, subscribed: bool, now: int) returns (o: Output)
      modifies this, batteryLevelHandler, sensorDataHandler
      ensures (State(), o) == Step(old(State()), Connected(link, batteryRead, subscribed, now))
    {
      peripheral := Some(link.peripheral);
      services := Some(link.services);
      characteristics := Some(link.characteristics);
      isConnected := true;
      var batteryOk := batteryLevelHandler.Connect(link.characteristics, batteryRead);
      var dataOk := sensorDataHandler.Connect(link.characteristics, subscribed);
      var ok := batteryOk && dataOk;
      if sensorDataHandler.promise != Connecting {
        return LinkReady(ok);
      }
      if !ok {
        sensorDataHandler.promise := Idle;
        return LoadFailed(ConnectFailed);
      }
      o := sensorDataHandler.Resume(this, now);
    }

    /** Scanning, connecting or discovery failed, after finding `found` (if it got that far). */
    method FailConnect(found: Option<string>) returns (o: Output)
      modifies this, sensorDataHandler
      ensures (State(), o) == Step(old(State()), LinkFailed(found))
    {
      if found.Some? {
        peripheral := found;
      }
      if sensorDataHandler.promise == Connecting {
        sensorDataHandler.promise := Idle;
        return LoadFailed(ConnectFailed);
      }
      return LinkReady(false);
    }

    /**
     * The 'disconnect' listeners in order: `handleDisconnect` of the sensor and both handlers;
     * then discovery's listener, which rejects a load waiting for the connection (its promise
     * is cleared), or the waiting load's own listener, which throws on the cleared notify
     * characteristic and leaves that load stranded.
     */
    method HandleDisconnect(now: int) returns (o: Output)
      modifies this, batteryLevelHandler, sensorDataHandler
      ensures (State(), o) == Step(old(State()), Disconnect(now))
    {
      if peripheral.None? {
        return Quiet;
      }
      peripheral := None;
      services := None;
      characteristics := None;
      isConnected := false;
      batteryLevelHandler.HandleDisconnect();
      sensorDataHandler.HandleDisconnect(now);
      if sensorDataHandler.promise == Connecting {
        sensorDataHandler.promise := Idle;
        return LoadFailed(Disconnected);
      }
      if sensorDataHandler.promise == AwaitingResponse {
        sensorDataHandler.promise := Stranded;
        return ListenerThrew;
      }
      return Quiet;
    }
  }
}
