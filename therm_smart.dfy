/**
 * The scanner and device of therm-smart.js: the decision that turns a discovered
 * advertisement into readings, the allow-list of the plain scan, the rule by which `write`
 * picks its response among the notifications that follow, and the choice of the write and
 * notify characteristics after service discovery.
 */
module ThermSmart {
  import opened Wrappers
  import opened Protocol
  import Text
  import Reading

  /** What the radio reports about a discovered peripheral (`address` is `undefined` when absent). */
  datatype Peripheral = Peripheral(
    id: string,
    address: Option<string>,
    localName: Option<string>,
    manufacturerData: Bytes)

  /**
   * `peripheral.address && peripheral.address.replace(/:/g, '')`: the address with every ':'
   * removed and nothing else changed (in particular, not lower-cased).
   */
  function StrippedAddress(p: Peripheral): (a: Option<string>)
    ensures a.Some? <==> p.address.Some?
    ensures a.Some? ==> ':' !in a.value && |a.value| <= |p.address.value|
    ensures a.Some? ==> forall c :: c != ':' ==> (c in a.value <==> c in p.address.value)
  {
    if p.address.None? then None else Some(Text.StripColons(p.address.value))
  }

  /** The address an advertisement is matched by is the printed address with its parts run together. */
  lemma StrippedAddressOfPrinted(p: Peripheral, parts: seq<string>)
    requires p.address == Some(Text.JoinWithColons(parts))
    requires forall i :: 0 <= i < |parts| ==> ':' !in parts[i]
    ensures StrippedAddress(p) == Some(Text.Concat(parts))
  {
    Text.StripColonsOfJoin(parts);
  }

  /** `!(addresses && addresses.indexOf(address) === -1)`: no allow-list, or the address is on it. */
  predicate Listed(address: Option<string>, addresses: Option<seq<string>>)
  {
    addresses.None? || (address.Some? && address.value in addresses.value)
  }

  /** At least 9 bytes, and the first two read little-endian are the manufacturer id. */
  predicate HasCompanyId(data: Bytes)
  {
    |data| >= 9 && U16LE(data, 0) == COMPANY_ID
  }

  /** The 48-bit little-endian value in bytes 2..7, printed by `toString(16)`. */
  function EmbeddedAddress(data: Bytes): string
    requires |data| >= 8
  {
    Text.ToHexString(UIntLE(data[2..8]))
  }

  /** The embedded-address check, applied only when the stripped address is truthy. */
  predicate EmbeddedAddressAgrees(data: Bytes, address: Option<string>)
    requires |data| >= 8
  {
    address.None? || address.value == "" || EmbeddedAddress(data) == address.value
  }

  /** Whether `scanForReadings`' discover handler gets past its three early returns. */
  predicate Accepts(p: Peripheral, addresses: Option<seq<string>>)
  {
    var data := p.manufacturerData;
    HasCompanyId(data) && EmbeddedAddressAgrees(data, StrippedAddress(p)) && Listed(StrippedAddress(p), addresses)
  }

  /** What one advertisement does: nothing, a run of handler calls, or an exception from the decoder. */
  datatype Delivery = Dropped | Delivered(readings: seq<Reading.Reading>) | Threw

  /**
   * The discover handler of `scanForReadings`: an accepted advertisement hands the readings of
   * its body (the manufacturer data after byte 8) to the reading handler, in order.
   */
  function OnAdvertisement(p: Peripheral, addresses: Option<seq<string>>): (d: Delivery)
    ensures d.Dropped? <==> !Accepts(p, addresses)
    ensures d.Delivered? ==> Reading.ParseReadings(p.manufacturerData[8..]) == Ok(d.readings)
    ensures d.Threw? <==> Accepts(p, addresses) && Reading.ParseReadings(p.manufacturerData[8..]).Err?
  {
    if !Accepts(p, addresses) then Dropped
    else match Reading.ParseReadings(p.manufacturerData[8..])
      case Ok(readings) => Delivered(readings)
      case Err(_) => Threw
  }

  /**
   * The embedded-address check in terms of the address string: a truthy address passes exactly
   * when it is canonical lower-case hex (no leading zero) naming the value in bytes 2..7.
   */
  lemma {:induction false} EmbeddedAddressIff(data: Bytes, address: string)
    requires |data| >= 8 && address != ""
    ensures EmbeddedAddressAgrees(data, Some(address))
        <==> Text.IsCanonicalHex(address) && Text.ParseHex(address) == Some(UIntLE(data[2..8]))
  {
    Text.ToHexStringIff(UIntLE(data[2..8]), address);
  }

  /** Printing drops leading zeros, so a longer address that starts with '0' is never accepted. */
  lemma {:induction false} LeadingZeroNeverAgrees(data: Bytes, address: string)
    requires |data| >= 8 && |address| > 1 && address[0] == '0'
    ensures !EmbeddedAddressAgrees(data, Some(address))
  {
    EmbeddedAddressIff(data, address);
  }

  /** The stripped address is not lower-cased, so an address with an upper-case letter is never accepted. */
  lemma {:induction false} UpperCaseNeverAgrees(data: Bytes, address: string, i: nat)
    requires |data| >= 8 && i < |address| && 'A' <= address[i] <= 'Z'
    ensures !EmbeddedAddressAgrees(data, Some(address))
  {
    EmbeddedAddressIff(data, address);
  }

  /** Without an allow-list the allow-list check passes every peripheral; an empty one passes none. */
  lemma AllowListExtremes(address: Option<string>)
    ensures Listed(address, None)
    ensures !Listed(address, Some([]))
  {
  }

  /** An advertisement as a sensor sends it: the manufacturer id, its address little-endian, then the body. */
  function Advertisement(addressBytes: Bytes, body: Bytes): (data: Bytes)
    requires |addressBytes| == 6
    ensures |data| == 8 + |body| && data[8..] == body && data[2..8] == addressBytes
  {
    [0x42, 0x48] + addressBytes + body
  }

  /**
   * A sensor's own advertisement reaches the handler: with its address printed the way the filter
   * prints it and on the allow-list (or no allow-list), the handler receives exactly the readings
   * of the body.
   */
  lemma {:induction false} OwnAdvertisementDelivered(
    id: string, localName: Option<string>, addressBytes: Bytes, body: Bytes, addresses: Option<seq<string>>)
    requires |addressBytes| == 6 && |body| >= 1
    requires var a := Text.ToHexString(UIntLE(addressBytes)); Listed(Some(a), addresses)
    ensures var p := Peripheral(id, Some(Text.ToHexString(UIntLE(addressBytes))), localName, Advertisement(addressBytes, body));
      OnAdvertisement(p, addresses) == match Reading.ParseReadings(body)
        case Ok(readings) => Delivered(readings)
        case Err(_) => Threw
  {
    var a := Text.ToHexString(UIntLE(addressBytes));
    var data := Advertisement(addressBytes, body);
    var p := Peripheral(id, Some(a), localName, data);
    assert U16LE(data, 0) == COMPANY_ID;
    Text.ToHexStringIff(UIntLE(addressBytes), a);
    assert ':' !in a by {
      forall i | 0 <= i < |a| ensures a[i] != ':' {
        assert Text.DigitValue(a[i]).Some?;
      }
    }
    Text.StripColonsNoColon(a);
    assert StrippedAddress(p) == Some(a);
  }

  // ---------------------------------------------------------------- write / response matching

  /** What can happen after `write` installs its data listener and starts the write. */
  datatype WriteEvent =
    | DataEvent(data: Bytes, isNotification: bool)   // a 'data' event on the notify characteristic
    | WriteDone(failed: bool)                         // the write callback, with or without an error

  /** The state of the promise `write` returns. */
  datatype WriteOutcome = Pending | Resolved(response: Bytes) | Rejected

  /**
   * An event that ends the exchange: a notification whose first byte is the response command,
   * or a failed write.
   */
  predicate Decisive(e: WriteEvent, responseCommand: Byte)
  {
    match e
    case DataEvent(data, isNotification) => IsResponse(data, isNotification, responseCommand)
    case WriteDone(failed) => failed
  }

  /**
   * An empty notification: reading its first byte throws inside the data listener, before
   * either settling call, so the exception leaves the listener and the promise stays pending.
   */
  predicate Throws(e: WriteEvent)
  {
    e.DataEvent? && e.isNotification && e.data == []
  }

  /** How a decisive event settles the promise: a response resolves with its bytes, a failed write rejects. */
  function Settle(e: WriteEvent, responseCommand: Byte): (o: WriteOutcome)
    requires Decisive(e, responseCommand)
    ensures o != Pending
    ensures o.Resolved? <==> e.DataEvent? && IsResponse(e.data, e.isNotification, responseCommand)
    ensures o.Resolved? ==> o.response == e.data
    ensures o == Rejected <==> e.WriteDone? && e.failed
  {
    match e
    case DataEvent(data, _) => Resolved(data)
    case WriteDone(_) => Rejected
  }

  /**
   * `write(data, responseCommand)` after the given events: still pending until the first
   * decisive event, and then settled by that event alone (the listener is removed on both the
   * resolve and the reject path).
   */
  function WriteOutcomeOf(events: seq<WriteEvent>, responseCommand: Byte): (o: WriteOutcome)
    ensures o.Pending? <==> forall i :: 0 <= i < |events| ==> !Decisive(events[i], responseCommand)
    ensures !o.Pending? ==>
      exists i :: 0 <= i < |events| && Decisive(events[i], responseCommand) &&
        o == Settle(events[i], responseCommand) &&
        forall j :: 0 <= j < i ==> !Decisive(events[j], responseCommand)
  {
    if events == [] then Pending
    else if Decisive(events[0], responseCommand) then
      var o := Settle(events[0], responseCommand);
      assert Decisive(events[0], responseCommand) && o == Settle(events[0], responseCommand);
      o
    else
      var o := WriteOutcomeOf(events[1..], responseCommand);
      assert forall i :: 1 <= i < |events| ==> events[i] == events[1..][i - 1];
      if o.Pending? then o
      else
        var k :| 0 <= k < |events[1..]| && Decisive(events[1..][k], responseCommand)
          && o == Settle(events[1..][k], responseCommand)
          && forall j :: 0 <= j < k ==> !Decisive(events[1..][j], responseCommand);
        assert Decisive(events[k + 1], responseCommand) && o == Settle(events[k + 1], responseCommand);
        o
  }

  /** A settled write stays settled: later events change nothing. */
  lemma {:induction false} WriteOutcomeFinal(events: seq<WriteEvent>, later: seq<WriteEvent>, responseCommand: Byte)
    requires !WriteOutcomeOf(events, responseCommand).Pending?
    ensures WriteOutcomeOf(events + later, responseCommand) == WriteOutcomeOf(events, responseCommand)
  {
    if !Decisive(events[0], responseCommand) {
      assert (events + later)[1..] == events[1..] + later;
      WriteOutcomeFinal(events[1..], later, responseCommand);
    }
  }

  /**
   * An empty notification is not decisive: the listener throws, stays installed, and the
   * exchange goes on exactly as if the notification had not arrived.
   */
  lemma ThrowingNotificationIgnored(e: WriteEvent, rest: seq<WriteEvent>, responseCommand: Byte)
    requires Throws(e)
    ensures !Decisive(e, responseCommand)
    ensures WriteOutcomeOf([e] + rest, responseCommand) == WriteOutcomeOf(rest, responseCommand)
  {
    assert ([e] + rest)[1..] == rest;
  }

  /** Only a notification tagged with the response command resolves a write; a write that succeeds never does. */
  lemma {:induction false} ResolvedOnlyByResponse(events: seq<WriteEvent>, responseCommand: Byte)
    requires WriteOutcomeOf(events, responseCommand).Resolved?
    ensures exists i :: 0 <= i < |events| && events[i].DataEvent? &&
              IsResponse(events[i].data, events[i].isNotification, responseCommand) &&
              events[i].data == WriteOutcomeOf(events, responseCommand).response
  {
    var o := WriteOutcomeOf(events, responseCommand);
    var i :| 0 <= i < |events| && Decisive(events[i], responseCommand) && o == Settle(events[i], responseCommand)
      && forall j :: 0 <= j < i ==> !Decisive(events[j], responseCommand);
    assert events[i].DataEvent? && IsResponse(events[i].data, events[i].isNotification, responseCommand);
  }

  // ---------------------------------------------------------------- characteristic selection

  /** `characteristics.find(c => c.uuid === uuid)`. */
  function FindByUuid(characteristics: seq<Characteristic>, uuid: string): (r: Option<Characteristic>)
    ensures r.None? <==> forall i :: 0 <= i < |characteristics| ==> characteristics[i].uuid != uuid
    ensures r.Some? ==>
      exists i :: 0 <= i < |characteristics| && characteristics[i] == r.value &&
        r.value.uuid == uuid && forall j :: 0 <= j < i ==> characteristics[j].uuid != uuid
  {
    if characteristics == [] then None
    else if characteristics[0].uuid == uuid then Some(characteristics[0])
    else
      var r := FindByUuid(characteristics[1..], uuid);
      assert forall i :: 1 <= i < |characteristics| ==> characteristics[i] == characteristics[1..][i - 1];
      if r.None? then r
      else
        var k :| 0 <= k < |characteristics[1..]| && characteristics[1..][k] == r.value
          && r.value.uuid == uuid && forall j :: 0 <= j < k ==> characteristics[1..][j].uuid != uuid;
        assert characteristics[k + 1] == r.value;
        r
  }

  /** A connection handle to one sensor (the `ThermSmart` object). */
  class ThermSmartDevice {
    const peripheral: Peripheral
    const id: string
    const address: Option<string>
    const localName: Option<string>
    var writeCharacteristic: Option<Characteristic>
    var notifyCharacteristic: Option<Characteristic>

    constructor (p: Peripheral)
      ensures peripheral == p && id == p.id && address == p.address && localName == p.localName
      ensures writeCharacteristic.None? && notifyCharacteristic.None?
    {
      peripheral := p;
      id := p.id;
      address := p.address;
      localName := p.localName;
      writeCharacteristic := None;
      notifyCharacteristic := None;
    }

    /**
     * `_getCharacteristics` given what discovery reported: on success the write and notify
     * handles become the first characteristics with uuids fff3 and fff4 (absent when none has
     * that uuid); on a discovery error or a disconnect nothing is assigned and the promise rejects.
     */
    method GetCharacteristics(discovered: Result<seq<Characteristic>, string>) returns (ok: bool)
      modifies this
      ensures ok <==> discovered.Ok?
      ensures discovered.Ok? ==> writeCharacteristic == FindByUuid(discovered.value, WRITE_CHARACTERISTIC_UUID)
      ensures discovered.Ok? ==> notifyCharacteristic == FindByUuid(discovered.value, NOTIFY_CHARACTERISTIC_UUID)
      ensures discovered.Err? ==> writeCharacteristic == old(writeCharacteristic) && notifyCharacteristic == old(notifyCharacteristic)
    {
      if discovered.Err? {
        return false;
      }
      writeCharacteristic := FindByUuid(discovered.value, WRITE_CHARACTERISTIC_UUID);
      notifyCharacteristic := FindByUuid(discovered.value, NOTIFY_CHARACTERISTIC_UUID);
      return true;
    }
  }

  /** The state of one `ThermSmart.scan`: the allow-list it was given and the devices found so far. */
  class Scanner {
    const addresses: Option<seq<string>>
    var sensors: seq<ThermSmartDevice>

    constructor (addresses: Option<seq<string>>)
      ensures this.addresses == addresses && sensors == []
    {
      this.addresses := addresses;
      sensors := [];
    }

    /**
     * `_discoverHandler`: a peripheral whose stripped address passes the allow-list becomes a
     * new device appended to `sensors` (and is handed to the discover handler); any other
     * peripheral changes nothing.
     */
    method OnDiscover(p: Peripheral) returns (sensor: Option<ThermSmartDevice>)
      modifies this
      ensures sensor.Some? <==> Listed(StrippedAddress(p), addresses)
      ensures sensor.Some? ==>
        fresh(sensor.value) && sensor.value.peripheral == p && sensors == old(sensors) + [sensor.value]
    ensures sensor.Some? ==>
      sensor.value.id == p.id && sensor.value.address == p.address && sensor.value.localName == p.localName
      && sensor.value.writeCharacteristic.None? && sensor.value.notifyCharacteristic.None?
      ensures sensor.None? ==> sensors == old(sensors)
    {
      if !Listed(StrippedAddress(p), addresses) {
        return None;
      }
      var device := new ThermSmartDevice(p);
      sensors := sensors + [device];
      return Some(device);
    }
  }
}
