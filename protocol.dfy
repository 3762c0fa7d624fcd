/**
 * Wire-level vocabulary shared by the advertisement scanner (therm-smart.js) and the
 * connected session (therm-smart-sensor.js): bytes, the fixed protocol constants,
 * little-endian reads and the shape of a discovered characteristic.
 */
module Protocol {

  /** One octet of a Node `Buffer`. */
  type Byte = b: int | 0 <= b < 256

  type Bytes = seq<Byte>

  /** Manufacturer id at the head of an advertisement ('BH' little-endian). */
  const COMPANY_ID: nat := 0x4842
  const SERVICE_UUID: string := "fff0"
  const WRITE_CHARACTERISTIC_UUID: string := "fff3"
  const NOTIFY_CHARACTERISTIC_UUID: string := "fff4"
  /** Command byte of the sensor-data request, echoed as the response tag. */
  const GET_SENSOR_DATA_COMMAND: Byte := 0xd2

  /** A characteristic reported by service discovery: a handle, its uuid and its type name. */
  datatype Characteristic = Characteristic(handle: nat, uuid: string, kind: string)

  /** `Buffer.readUInt16LE(position)`; reading past the end throws in the source. */
  function U16LE(data: Bytes, position: nat): (v: nat)
    requires position + 2 <= |data|
    ensures v < 0x1_0000
    ensures v % 256 == data[position] && v / 256 == data[position + 1]
  {
    data[position] as int + 256 * data[position + 1] as int
  }

  /** 256 raised to `n`. */
  function Pow256(n: nat): (p: nat)
    ensures p >= 1
  {
    if n == 0 then 1 else 256 * Pow256(n - 1)
  }

  /** The unsigned little-endian integer held in `bs` (`Buffer.readUIntLE(offset, |bs|)`). */
  function UIntLE(bs: Bytes): (v: nat)
    ensures v < Pow256(|bs|)
  {
    if bs == [] then 0 else bs[0] + 256 * UIntLE(bs[1..])
  }

  /**
   * `data[i]` used as an operand of `&`: an index past the end reads `undefined`, and
   * `undefined & m` is 0 in JavaScript.
   */
  function ByteOrZero(data: Bytes, i: nat): (b: Byte)
    ensures i < |data| ==> b == data[i]
    ensures i >= |data| ==> b == 0
  {
    if i < |data| then data[i] else 0
  }

  /**
   * The listener rule shared by `ThermSmart.write` and `SensorDataHandler.load`: a data
   * event answers a command when it is a notification whose first byte is the response tag.
   * (An empty notification makes `readUInt8(0)` throw; callers handle that case.)
   */
  predicate IsResponse(data: Bytes, isNotification: bool, command: Byte)
  {
    isNotification && |data| > 0 && data[0] == command
  }
}
