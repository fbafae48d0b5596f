/**
 * The older RedBear Duo BLE node (`ble_conn.cpp`): an orientation
 * characteristic notified from a timer, an action characteristic the host
 * writes haptic commands to, and the read callback that serves the node's
 * bodypart and action tags.
 *
 * Floats are their four bytes in memory order (`BleCodecs.Word`); the BLE
 * stack is left out, and the handles it assigns are constructor parameters.
 */
module BleConn {
  import opened Common
  import opened BleCodecs

  /** `CHARACTERISTIC_ORI_MAX_LEN`: four floats of four bytes. */
  const OrientationMaxLength: nat := 16
  /** `CHARACTERISTIC_ACT_MAX_LEN`. */
  const ActionMaxLength: nat := 20

  /** `NODE_BODYPART_FULL_TAG` (13 characters) and `NODE_ACTION_FULL_TAG` (17) of this node. */
  const NodeBodypartTag: string := "forearm_right"
  const NodeActionTag: string := "hap:forearm_right"
  /** What a client characteristic configuration descriptor read returns. */
  const DescriptorValue: string := "sup"

  const ActionNope: int := 0
  const ActionHaptic: int := 1

  /** `struct Action`. */
  datatype Action = Action(actionType: int, strength: int, durationMs: int)

  /** How `checkActionBLE` reads a written command: two big-endian 16-bit fields and a strength byte. */
  function DecodeAction(d: seq<byte>): (a: Action)
    requires |d| >= 5
    ensures 0 <= a.actionType < 65536 && 0 <= a.durationMs < 65536 && 0 <= a.strength < 256
  {
    Action(d[0] as int * 256 + d[1], d[4], d[2] as int * 256 + d[3])
  }

  /** The five bytes a host writes for an action. */
  function EncodeAction(a: Action): (d: seq<byte>)
    requires 0 <= a.actionType < 65536 && 0 <= a.durationMs < 65536 && 0 <= a.strength < 256
    ensures |d| == 5
  {
    [a.actionType / 256, a.actionType % 256, a.durationMs / 256, a.durationMs % 256, a.strength]
  }

  /** Every action whose fields fit their widths survives writing and decoding. */
  lemma ActionRoundTrip(a: Action)
    requires 0 <= a.actionType < 65536 && 0 <= a.durationMs < 65536 && 0 <= a.strength < 256
    ensures DecodeAction(EncodeAction(a)) == a
  {
  }

  /** Five written bytes are exactly the bytes of the action they decode to, so no two commands decode alike. */
  lemma ActionBytesRoundTrip(d: seq<byte>)
    requires |d| == 5
    ensures EncodeAction(DecodeAction(d)) == d
  {
    var e := EncodeAction(DecodeAction(d));
    assert e[0] == d[0] && e[1] == d[1] && e[2] == d[2] && e[3] == d[3] && e[4] == d[4];
  }

  /**
   * This node puts each float on the wire in memory order, where the newer
   * nodes' converter reverses it: the two agree on a float only when its
   * bytes read the same both ways.
   */
  lemma ByteOrdersDiffer(w: Word)
    ensures BigEndian(w) == w <==> (w[0] == w[3] && w[1] == w[2])
  {
    if BigEndian(w) == w {
      assert BigEndian(w)[0] == w[0] && BigEndian(w)[1] == w[1];
    }
  }

  class BleConnection {
    const orientationHandle: int
    const actionHandle: int
    var isConnected: bool
    var dataToSend: bool
    var dataReceived: bool
    const orientationData: array<byte>
    const actionData: array<byte>

    ghost predicate Valid()
      reads this
    {
      orientationData.Length == OrientationMaxLength && actionData.Length == ActionMaxLength &&
      orientationData != actionData
    }

    /** `initBLE`: no flags set, both characteristic buffers zero. */
    constructor (orientationHandle: int, actionHandle: int)
      ensures Valid() && fresh(orientationData) && fresh(actionData)
      ensures this.orientationHandle == orientationHandle && this.actionHandle == actionHandle
      ensures !isConnected && !dataToSend && !dataReceived
    {
      this.orientationHandle := orientationHandle;
      this.actionHandle := actionHandle;
      isConnected := false;
      dataToSend := false;
      dataReceived := false;
      orientationData := new byte[OrientationMaxLength](_ => 0);
      actionData := new byte[ActionMaxLength](_ => 0);
    }

    predicate IsConnOk()
      reads this
    {
      isConnected
    }

    /** The connected callback: only a successful status turns the connection on. */
    method DeviceConnectedCallback(statusOk: bool)
      modifies this
      ensures isConnected == (statusOk || old(isConnected))
      ensures dataToSend == old(dataToSend) && dataReceived == old(dataReceived)
    {
      if statusOk {
        isConnected := true;
      }
    }

    method DeviceDisconnectedCallback()
      modifies this
      ensures !isConnected
      ensures dataToSend == old(dataToSend) && dataReceived == old(dataReceived)
    {
      isConnected := false;
    }

    /**
     * The notify timer: the orientation buffer goes out only when fresh data
     * is pending, and the flag is then cleared (the timer restart is not modelled).
     */
    method NotifyTick() returns (sent: Option<seq<byte>>)
      modifies this
      ensures old(dataToSend) ==> sent == Some(orientationData[..]) && !dataToSend
      ensures !old(dataToSend) ==> sent == None && !dataToSend
      ensures isConnected == old(isConnected) && dataReceived == old(dataReceived)
    {
      sent := None;
      if dataToSend {
        sent := Some(orientationData[..]);
        dataToSend := false;
      }
    }

    /**
     * `gattReadCallback`: the bodypart tag for the orientation handle, the
     * action tag for the action handle, "sup" for the descriptor handle just
     * after either, and 0 bytes otherwise; tested in that order.
     */
    method GattReadCallback(valueHandle: int, buffer: array<char>) returns (len: nat)
      requires buffer.Length >= |NodeActionTag|
      modifies buffer
      ensures valueHandle == orientationHandle ==> len == |NodeBodypartTag| && buffer[..len] == NodeBodypartTag
      ensures valueHandle != orientationHandle && valueHandle == orientationHandle + 1 ==>
        len == 3 && buffer[..len] == DescriptorValue
      ensures valueHandle != orientationHandle && valueHandle != orientationHandle + 1 && valueHandle == actionHandle ==>
        len == |NodeActionTag| && buffer[..len] == NodeActionTag
      ensures (valueHandle != orientationHandle && valueHandle != orientationHandle + 1 && valueHandle != actionHandle &&
        valueHandle == actionHandle + 1) ==> len == 3 && buffer[..len] == DescriptorValue
      ensures valueHandle !in {orientationHandle, orientationHandle + 1, actionHandle, actionHandle + 1} ==> len == 0
      ensures buffer[len..] == old(buffer[len..])
    {
      len := 0;
      if orientationHandle == valueHandle {
        Copy(buffer, NodeBodypartTag);
        len := |NodeBodypartTag|;
      } else if orientationHandle + 1 == valueHandle {
        Copy(buffer, DescriptorValue);
        len := 3;
      } else if actionHandle == valueHandle {
        Copy(buffer, NodeActionTag);
        len := |NodeActionTag|;
      } else if actionHandle + 1 == valueHandle {
        Copy(buffer, DescriptorValue);
        len := 3;
      }
    }

    /**
     * `gattWriteCallback`: only a write to the action handle is stored, and
     * it marks the data received; the stack bounds a write by the
     * characteristic's declared 20 bytes.
     */
    method GattWriteCallback(valueHandle: int, data: seq<byte>) returns (r: int)
      requires Valid() && (valueHandle == actionHandle ==> |data| <= ActionMaxLength)
      modifies this, actionData
      ensures r == 0
      ensures valueHandle == actionHandle ==>
        dataReceived && actionData[..|data|] == data && actionData[|data|..] == old(actionData[|data|..])
      ensures valueHandle != actionHandle ==> dataReceived == old(dataReceived) && actionData[..] == old(actionData[..])
      ensures isConnected == old(isConnected) && dataToSend == old(dataToSend)
      ensures orientationData[..] == old(orientationData[..])
    {
      if actionHandle == valueHandle {
        forall i | 0 <= i < |data| {
          actionData[i] := data[i];
        }
        dataReceived := true;
      }
      r := 0;
    }

    /**
     * `sendOrientationValueQuat`: w, x, y, z in consecutive 4-byte chunks,
     * each in memory order, then the notify flag is set.
     */
    method SendOrientationValueQuat(w: Word, x: Word, y: Word, z: Word)
      requires Valid()
      modifies this, orientationData
      ensures orientationData[..] == w + x + y + z
      ensures dataToSend && isConnected == old(isConnected) && dataReceived == old(dataReceived)
      ensures actionData[..] == old(actionData[..])
    {
      var values := new byte[OrientationMaxLength](_ => 0);
      PutWord(values, 0, w);
      PutWord(values, 4, x);
      PutWord(values, 8, y);
      PutWord(values, 12, z);
      assert values[..] == values[..4] + values[4..8] + values[8..12] + values[12..];
      forall i | 0 <= i < OrientationMaxLength {
        orientationData[i] := values[i];
      }
      dataToSend := true;
    }

    /**
     * `checkActionBLE`: NOPE with zero duration and strength unless a write
     * is pending; a pending write is decoded and the flag cleared.
     */
    method CheckActionBLE() returns (action: Action)
      requires Valid()
      modifies this
      ensures old(dataReceived) ==> action == DecodeAction(actionData[..5]) && !dataReceived
      ensures !old(dataReceived) ==> action == Action(ActionNope, 0, 0) && !dataReceived
      ensures isConnected == old(isConnected) && dataToSend == old(dataToSend)
    {
      action := Action(ActionNope, 0, 0);
      if dataReceived {
        action := Action(actionData[0] as int * 256 + actionData[1], actionData[4], actionData[2] as int * 256 + actionData[3]);
        dataReceived := false;
      }
    }
  }

  /** One `for (c_b = 0; c_b < 4; c_b++) values[offset + c_b] = s.bytes[c_b]` loop. */
  method PutWord(values: array<byte>, offset: nat, w: Word)
    requires offset + 4 <= values.Length
    modifies values
    ensures values[offset..offset + 4] == w
    ensures forall j :: 0 <= j < values.Length && !(offset <= j < offset + 4) ==> values[j] == old(values[j])
  {
    for cb := 0 to 4
      invariant values[offset..offset + cb] == w[..cb]
      invariant forall j :: 0 <= j < values.Length && !(offset <= j < offset + cb) ==> values[j] == old(values[j])
    {
      values[offset + cb] := w[cb];
    }
  }

  /** `memcpy(buffer, text, |text|)`. */
  method Copy(buffer: array<char>, text: string)
    requires |text| <= buffer.Length
    modifies buffer
    ensures buffer[..|text|] == text && buffer[|text|..] == old(buffer[|text|..])
  {
    forall i | 0 <= i < |text| {
      buffer[i] := text[i];
    }
  }

  /** A host command written to the action handle is decoded once; the next check reports NOPE. */
  method WriteThenCheck(conn: BleConnection, a: Action) returns (first: Action, second: Action)
    requires conn.Valid()
    requires 0 <= a.actionType < 65536 && 0 <= a.durationMs < 65536 && 0 <= a.strength < 256
    modifies conn, conn.actionData
    ensures first == a && second == Action(ActionNope, 0, 0)
  {
    var r := conn.GattWriteCallback(conn.actionHandle, EncodeAction(a));
    first := conn.CheckActionBLE();
    ActionRoundTrip(a);
    second := conn.CheckActionBLE();
  }
}
