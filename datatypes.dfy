/**
 * The node's data objects: `IPConnectionData` / `BnIPConnectionData`
 * (connection status, receive buffer, timestamps) and
 * `BnSensorData` (a sensor type tag and up to five values).
 */
module Datatypes {
  import opened Common

  const MaxReceivedBytes: nat := 150

  /** `CONNECTION_STATUS_*`, stored in a `uint8_t`. */
  const NotConnected: byte := 0
  const WaitingAck: byte := 1
  const Connected: byte := 2

  class IPConnectionData {
    var connStatus: byte
    var hasIpAddress: bool
    /** The host's IPv4 address as four octets. */
    var ipAddress: seq<byte>
    /** `received_bytes[MAX_RECEIVED_BYTES_LENGTH]`. */
    const receivedBytes: array<byte>
    var numReceivedBytes: nat
    var lastSentTime: u32
    var lastRecTime: u32

    ghost predicate Valid()
      reads this
    {
      receivedBytes.Length == MaxReceivedBytes && numReceivedBytes <= MaxReceivedBytes
    }

    /** The in-class initialisers: not connected, no bytes, both times 0. */
    constructor ()
      ensures Valid() && fresh(receivedBytes)
      ensures connStatus == NotConnected && numReceivedBytes == 0 && !hasIpAddress
      ensures lastSentTime == 0 && lastRecTime == 0
    {
      connStatus := NotConnected;
      hasIpAddress := false;
      ipAddress := [0, 0, 0, 0];
      receivedBytes := new byte[MaxReceivedBytes](_ => 0);
      numReceivedBytes := 0;
      lastSentTime := 0;
      lastRecTime := 0;
    }

    predicate IsDisconnected()
      reads this
    {
      connStatus == NotConnected
    }

    predicate IsWaitingAck()
      reads this
    {
      connStatus == WaitingAck
    }

    predicate IsConnected()
      reads this
    {
      connStatus == Connected
    }

    /** Exactly one of the three status predicates holds. */
    ghost predicate OneStatus()
      reads this
    {
      (IsDisconnected() && !IsWaitingAck() && !IsConnected()) ||
      (!IsDisconnected() && IsWaitingAck() && !IsConnected()) ||
      (!IsDisconnected() && !IsWaitingAck() && IsConnected())
    }

    method SetDisconnected()
      modifies this
      ensures IsDisconnected() && OneStatus()
      ensures numReceivedBytes == old(numReceivedBytes) && lastSentTime == old(lastSentTime)
      ensures lastRecTime == old(lastRecTime) && hasIpAddress == old(hasIpAddress) && ipAddress == old(ipAddress)
    {
      connStatus := NotConnected;
    }

    method SetWaitingAck()
      modifies this
      ensures IsWaitingAck() && OneStatus()
      ensures numReceivedBytes == old(numReceivedBytes) && lastSentTime == old(lastSentTime)
      ensures lastRecTime == old(lastRecTime) && hasIpAddress == old(hasIpAddress) && ipAddress == old(ipAddress)
    {
      connStatus := WaitingAck;
    }

    method SetConnected()
      modifies this
      ensures IsConnected() && OneStatus()
      ensures numReceivedBytes == old(numReceivedBytes) && lastSentTime == old(lastSentTime)
      ensures lastRecTime == old(lastRecTime) && hasIpAddress == old(hasIpAddress) && ipAddress == old(ipAddress)
    {
      connStatus := Connected;
    }

    /** `cleanBytes()`: the buffer counts as empty; its contents stay. */
    method CleanBytes()
      modifies this
      ensures numReceivedBytes == 0 && connStatus == old(connStatus)
      ensures lastSentTime == old(lastSentTime) && lastRecTime == old(lastRecTime)
      ensures hasIpAddress == old(hasIpAddress) && ipAddress == old(ipAddress)
    {
      numReceivedBytes := 0;
    }

    /** The received bytes, `received_bytes[0 .. num_received_bytes)`. */
    ghost function Received(): seq<byte>
      reads this, receivedBytes
      requires Valid()
    {
      receivedBytes[..numReceivedBytes]
    }
  }

  /** `BnStatusLED`: the connection LED and when it last toggled. */
  datatype BnStatusLed = BnStatusLed(on: bool, lastToggle: u32)

  /*** Sensor data ***/

  const NoneTag: string := "none"
  const OrientationAbsTag: string := "orientation_abs"
  const AccelerationRelTag: string := "acceleration_rel"
  const GloveTag: string := "glove"
  const ShoeTag: string := "shoe"

  const MaxSensorValues: nat := 5

  /** The value count `setValues` keeps for a type tag: 4, 3, or the previous count for any other tag. */
  function NumValuesFor(sensorType: string, previous: nat): (n: nat)
    ensures sensorType == OrientationAbsTag ==> n == 4
    ensures sensorType == AccelerationRelTag ==> n == 3
    ensures sensorType != OrientationAbsTag && sensorType != AccelerationRelTag ==> n == previous
  {
    if sensorType == OrientationAbsTag then 4
    else if sensorType == AccelerationRelTag then 3
    else previous
  }

  /** `int` stored in an `int16_t`: the value modulo 2^16, read back as signed. */
  function ToI16(x: int): (r: int)
    ensures -32768 <= r < 32768
    ensures -32768 <= x < 32768 ==> r == x
    ensures (r - x) % 65536 == 0
  {
    var m := x % 65536;
    if m >= 32768 then m - 65536 else m
  }

  class BnSensorData {
    var sensorType: string
    const valuesFloat: array<real>
    const valuesInt: array<int>
    var numValues: nat

    ghost predicate Valid()
      reads this
    {
      valuesFloat.Length == MaxSensorValues && valuesInt.Length == MaxSensorValues &&
      numValues <= MaxSensorValues
    }

    /** A fresh object: type "none". The count, left indeterminate in C++, starts at 0 here. */
    constructor ()
      ensures Valid() && fresh(valuesFloat) && fresh(valuesInt)
      ensures sensorType == NoneTag && numValues == 0
    {
      sensorType := NoneTag;
      valuesFloat := new real[MaxSensorValues](_ => 0.0);
      valuesInt := new int[MaxSensorValues](_ => 0);
      numValues := 0;
    }

    function GetType(): (t: string)
      reads this
      ensures t == sensorType
    {
      sensorType
    }

    /** `isEmpty()`: the type is the "none" tag. */
    predicate IsEmpty()
      reads this
    {
      sensorType == NoneTag
    }

    /** `setValues(float values[], sensortype)`: the tag, the count for it, and that many values. */
    method SetValuesFloat(values: array<real>, t: string)
      requires Valid() && values.Length >= NumValuesFor(t, numValues)
      modifies this, valuesFloat
      ensures Valid() && sensorType == t && numValues == NumValuesFor(t, old(numValues))
      ensures valuesFloat[..numValues] == values[..numValues]
      ensures valuesFloat[numValues..] == old(valuesFloat[..])[numValues..]
      ensures valuesInt[..] == old(valuesInt[..])
    {
      sensorType := t;
      numValues := NumValuesFor(t, numValues);
      var index := 0;
      while index < numValues
        invariant index <= numValues
        modifies valuesFloat
        invariant valuesFloat[..index] == values[..index]
        invariant valuesFloat[numValues..] == old(valuesFloat[..])[numValues..]
        invariant valuesInt[..] == old(valuesInt[..])
      {
        valuesFloat[index] := values[index];
        index := index + 1;
      }
    }

    /** `setValues(int values[], sensortype)`: as above, each value stored as an `int16_t`. */
    method SetValuesInt(values: array<int>, t: string)
      requires Valid() && values.Length >= NumValuesFor(t, numValues)
      modifies this, valuesInt
      ensures Valid() && sensorType == t && numValues == NumValuesFor(t, old(numValues))
      ensures forall i :: 0 <= i < numValues ==> valuesInt[i] == ToI16(values[i])
      ensures valuesInt[numValues..] == old(valuesInt[..])[numValues..]
      ensures valuesFloat[..] == old(valuesFloat[..])
    {
      sensorType := t;
      numValues := NumValuesFor(t, numValues);
      var index := 0;
      while index < numValues
        invariant index <= numValues
        modifies valuesInt
        invariant forall i :: 0 <= i < index ==> valuesInt[i] == ToI16(values[i])
        invariant valuesInt[numValues..] == old(valuesInt[..])[numValues..]
        invariant valuesFloat[..] == old(valuesFloat[..])
      {
        valuesInt[index] := ToI16(values[index]);
        index := index + 1;
      }
    }

    /** `getValues(float values[])`: copies the stored values out. */
    method GetValuesFloat(out: array<real>)
      requires Valid() && out.Length >= numValues && out != valuesFloat
      modifies out
      ensures out[..numValues] == valuesFloat[..numValues]
      ensures out[numValues..] == old(out[numValues..])
    {
      var index := 0;
      while index < numValues
        invariant index <= numValues
        invariant out[..index] == valuesFloat[..index]
        invariant out[numValues..] == old(out[numValues..])
      {
        out[index] := valuesFloat[index];
        index := index + 1;
      }
    }

    /** `getValues(int values[])`. */
    method GetValuesInt(out: array<int>)
      requires Valid() && out.Length >= numValues && out != valuesInt
      modifies out
      ensures out[..numValues] == valuesInt[..numValues]
      ensures out[numValues..] == old(out[numValues..])
    {
      var index := 0;
      while index < numValues
        invariant index <= numValues
        invariant out[..index] == valuesInt[..index]
        invariant out[numValues..] == old(out[numValues..])
      {
        out[index] := valuesInt[index];
        index := index + 1;
      }
    }
  }

  /** Values written with `setValues` for orientation_abs come back from `getValues`. */
  method SetGetFloat(d: BnSensorData, values: array<real>, out: array<real>)
    requires d.Valid() && values.Length >= 4 && out.Length >= 4
    requires out != d.valuesFloat && values != d.valuesFloat && out != values
    modifies d, d.valuesFloat, out
    ensures d.sensorType == OrientationAbsTag && d.numValues == 4 && !d.IsEmpty()
    ensures out[..4] == values[..4]
  {
    d.SetValuesFloat(values, OrientationAbsTag);
    d.GetValuesFloat(out);
  }

  /** The same for int values that fit an `int16_t`. */
  method SetGetInt(d: BnSensorData, values: array<int>, out: array<int>)
    requires d.Valid() && values.Length >= 3 && out.Length >= 3
    requires out != d.valuesInt && values != d.valuesInt && out != values
    requires forall i :: 0 <= i < 3 ==> -32768 <= values[i] < 32768
    modifies d, d.valuesInt, out
    ensures d.sensorType == AccelerationRelTag && d.numValues == 3
    ensures out[..3] == values[..3]
  {
    d.SetValuesInt(values, AccelerationRelTag);
    d.GetValuesInt(out);
    assert forall i :: 0 <= i < 3 ==> out[i] == values[i];
  }

  /** The stored value is the `int16_t` cast: the one value in range that agrees with x modulo 2^16. */
  lemma Int16Cast(x: int, y: int)
    requires -32768 <= y < 32768 && (y - x) % 65536 == 0
    ensures ToI16(x) == y
  {
    var r := ToI16(x);
    assert (r - y) % 65536 == 0 by {
      var k1 := (r - x) / 65536;
      var k2 := (y - x) / 65536;
      assert r - x == 65536 * k1;
      assert y - x == 65536 * k2;
      assert r - y == 65536 * (k1 - k2);
    }
    assert -65536 < r - y < 65536;
  }
}
