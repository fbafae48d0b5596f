/**
 * The BLE node glue of the RedBear Duo and the nRF52840 boards
 * (`BnNodeSpecific.cpp`): the connection status mapping, the read callback
 * that serves the player and bodypart characteristics, the message sender
 * that turns the value text of each queued message into a characteristic
 * notification, and (nRF52840) the bounds-checked 512-byte persistent block.
 *
 * The BLE stack itself is not modelled: a notification is recorded as the
 * characteristic and the bytes handed to `sendNotify` / `notify`, and the
 * handles the stack assigns are constructor parameters.
 */
module BleNode {
  import opened Common
  import opened Datatypes
  import opened BleCodecs

  /** `BLE_CHARACTERISTIC_MAX_LEN`, the size of the player and bodypart buffers. */
  const MaxCharaLength: nat := 20

  /** The tag the angular-velocity branch compares against. */
  const AngularVelocityRelTag: string := "angularvelocity_rel"

  datatype Board = RedBearDuo | Nrf52840

  datatype Characteristic =
    OrientationAbsChara | AccelerationRelChara | AngularVelocityRelChara | GloveChara | ShoeChara

  /** `BLE_CHARACTERISTIC_*_MAX_LEN`: the fixed length of each notifying characteristic. */
  function CharaLength(c: Characteristic): nat
  {
    match c
    case OrientationAbsChara => 16
    case AccelerationRelChara => 12
    case AngularVelocityRelChara => 12
    case GloveChara => 9
    case ShoeChara => 1
  }

  /** What one `sendNotify(handle, bytes, len)` hands to the BLE stack. */
  datatype Notification = Notification(chara: Characteristic, bytes: seq<byte>)

  /** One queued JSON message: the four string fields the sender reads. */
  datatype Message = Message(player: string, bodypart: string, sensorType: string, value: string)

  /*** Connection status ***/

  /**
   * `BnBLENodeCommunicator_checkAllOk`: a node that is not connected moves to
   * waiting; otherwise it is connected exactly while the BLE link is up.
   */
  function CheckAllOk(current: byte, isConnected: bool): (s: byte)
    ensures current == NotConnected ==> s == WaitingAck
    ensures current != NotConnected ==> (s == Connected <==> isConnected)
    ensures current != NotConnected && !isConnected ==> s == NotConnected
  {
    if current == NotConnected then WaitingAck
    else if isConnected then Connected
    else NotConnected
  }

  /** The mapping never yields a code outside the three statuses. */
  lemma CheckAllOkInRange(current: byte, isConnected: bool)
    ensures CheckAllOk(current, isConnected) <= Connected
  {
  }

  /** A node that is not connected needs two polls to report connected, and then only over a live link. */
  lemma ConnectsInTwoPolls(isConnected: bool)
    ensures CheckAllOk(NotConnected, isConnected) != Connected
    ensures CheckAllOk(CheckAllOk(NotConnected, isConnected), isConnected) == (if isConnected then Connected else NotConnected)
  {
  }

  /*** From value text to notification bytes ***/

  /** The `uint8_t` the value's length is passed as. */
  function TextLength(value: string): (n: byte)
    ensures n <= |value|
  {
    ToU8(|value|)
  }

  /** The converters index the text below position 2 when its `uint8_t` length is below 2, which C leaves undefined. */
  predicate Convertible(value: string)
  {
    2 <= TextLength(value)
  }

  /** The 4-byte float fields of a notification buffer filled by the float converter. */
  function FloatPayload(value: string, numFloats: byte, atof: string -> Word): (b: seq<byte>)
    requires Convertible(value)
    ensures |b| == 4 * numFloats
  {
    EncodeBigEndian(ParsedFloats(Strtok(Inner(value, TextLength(value))), numFloats, atof))
  }

  function Zeros(n: nat): (z: seq<byte>)
    ensures |z| == n && forall i :: 0 <= i < n ==> z[i] == 0
  {
    seq(n, _ => 0)
  }

  /** A buffer of `len` bytes filled by the `uint8_t` converter; the bytes it does not write read as 0. */
  function UInt8Payload(value: string, len: byte): (b: seq<byte>)
    requires Convertible(value)
    ensures |b| == len
  {
    var v := UInt8Values(value, TextLength(value), len);
    v + Zeros(len - |v|)
  }

  /** Whether the board passes messages of this type through a converter. */
  predicate Converts(board: Board, sensorType: string)
  {
    match board
    case RedBearDuo =>
      sensorType in {OrientationAbsTag, AccelerationRelTag, GloveTag, ShoeTag, AngularVelocityRelTag}
    case Nrf52840 =>
      sensorType in {AccelerationRelTag, GloveTag, AngularVelocityRelTag}
  }

  /** The converter calls of every message the board converts are defined. */
  predicate Sendable(board: Board, m: Message)
  {
    Converts(board, m.sensorType) ==> Convertible(m.value)
  }

  /**
   * The notification one message produces. The RedBear Duo notifies all five
   * sensor types; the nRF52840 has the orientation and shoe branches
   * commented out, so those send nothing.
   */
  function Notify(board: Board, m: Message, atof: string -> Word): (r: Option<Notification>)
    requires Sendable(board, m)
    ensures r.Some? <==> Converts(board, m.sensorType)
    ensures r.Some? ==> |r.value.bytes| == CharaLength(r.value.chara)
  {
    var t := m.sensorType;
    if t == OrientationAbsTag then
      if board == RedBearDuo then Some(Notification(OrientationAbsChara, FloatPayload(m.value, 4, atof))) else None
    else if t == AccelerationRelTag then Some(Notification(AccelerationRelChara, FloatPayload(m.value, 3, atof)))
    else if t == GloveTag then Some(Notification(GloveChara, UInt8Payload(m.value, 9)))
    else if t == ShoeTag then
      if board == RedBearDuo then Some(Notification(ShoeChara, UInt8Payload(m.value, 1))) else None
    else if t == AngularVelocityRelTag then
      Some(Notification(AngularVelocityRelChara, FloatPayload(m.value, 3, atof)))
    else None
  }

  predicate AllSendable(board: Board, ms: seq<Message>)
  {
    forall i :: 0 <= i < |ms| ==> Sendable(board, ms[i])
  }

  /** The notifications of a message list, in list order. */
  function Notifications(board: Board, ms: seq<Message>, atof: string -> Word): (n: seq<Notification>)
    requires AllSendable(board, ms)
    ensures |n| <= |ms|
  {
    if |ms| == 0 then []
    else
      var last := Notify(board, ms[|ms| - 1], atof);
      Notifications(board, ms[..|ms| - 1], atof) + (if last.Some? then [last.value] else [])
  }

  /** A glove message printed from nine byte values notifies exactly those nine bytes. */
  lemma GloveRoundTrip(board: Board, player: string, bodypart: string, values: seq<byte>,
                       sep: string, atof: string -> Word)
    requires |values| == 9 && |sep| > 0 && AllDelim(sep) && |ArrayText(values, sep)| < 256
    ensures var m := Message(player, bodypart, GloveTag, ArrayText(values, sep));
      Sendable(board, m) && Notify(board, m, atof) == Some(Notification(GloveChara, values))
  {
    var text := ArrayText(values, sep);
    assert |text| >= 2;
    UInt8RoundTrip(values, sep, 9);
    assert UInt8Payload(text, 9) == values + Zeros(0);
    assert values + Zeros(0) == values;
  }

  /**
   * An orientation message printed from four float texts reaches a RedBear
   * Duo receiver intact: reading the notification as big-endian floats gives
   * `atof` of each field.
   */
  lemma OrientationRoundTrip(player: string, bodypart: string, fields: seq<string>,
                             sep: string, atof: string -> Word)
    requires |fields| == 4 && forall i :: 0 <= i < 4 ==> |fields[i]| > 0 && NoDelim(fields[i])
    requires |sep| > 0 && AllDelim(sep) && |"[" + JoinWith(fields, sep) + "]"| < 256
    ensures var m := Message(player, bodypart, OrientationAbsTag, "[" + JoinWith(fields, sep) + "]");
      Sendable(RedBearDuo, m) && Notify(RedBearDuo, m, atof).Some? &&
      var b := Notify(RedBearDuo, m, atof).value.bytes;
      |b| == 16 && forall i :: 0 <= i < 4 ==> WordAt(b, i) == atof(fields[i])
  {
    var text := "[" + JoinWith(fields, sep) + "]";
    FloatFieldsParsed(fields, sep, 4, atof);
    var floats := ParsedFloats(Strtok(Inner(text, TextLength(text))), 4, atof);
    BigEndianRecovers(floats);
  }

  /** The nRF52840 sends nothing for orientation messages, whatever their value. */
  lemma Nrf52840SkipsOrientation(m: Message, atof: string -> Word)
    requires m.sensorType == OrientationAbsTag
    ensures Sendable(Nrf52840, m) && Notify(Nrf52840, m, atof) == None
  {
  }

  /*** The communicator state ***/

  /**
   * The player or bodypart value a board keeps from the first message's
   * text. The RedBear Duo `memcpy`s the text and its terminator into a
   * 20-byte buffer, which the text must leave room for; the nRF52840's
   * `BLECharacteristic::write` stores no more than the characteristic's
   * maximum length, `CHARA_MAX_LENGTH` (20) bytes.
   */
  function StoredValue(board: Board, s: string): (t: string)
    requires board == RedBearDuo ==> |s| < MaxCharaLength
    ensures t <= s && |t| == Min(|s|, MaxCharaLength)
  {
    if board == RedBearDuo || |s| <= MaxCharaLength then s else s[..MaxCharaLength]
  }

  /**
   * The static state of the BLE communicator: the connection flag set by
   * the connect and disconnect callbacks, the player and bodypart values,
   * their once-only flag, and the messages list the sender drains.
   */
  class BleNodeCommunicator {
    const board: Board
    /** The value handles the stack returned for the player and bodypart characteristics. */
    const playerHandle: int
    const bodypartHandle: int
    var isConnected: bool
    var playerBodypartSet: bool
    var playerData: string
    var bodypartData: string
    var messages: seq<Message>

    /** The RedBear Duo keeps room for the terminator in its buffers; the nRF52840 characteristics hold up to 20 bytes. */
    ghost predicate Valid()
      reads this
    {
      |playerData| <= MaxCharaLength && |bodypartData| <= MaxCharaLength &&
      (board == RedBearDuo ==> |playerData| < MaxCharaLength && |bodypartData| < MaxCharaLength)
    }

    /** `BnBLENodeCommunicator_init`: no values yet, not connected. */
    constructor (board: Board, playerHandle: int, bodypartHandle: int)
      ensures Valid()
      ensures this.board == board && this.playerHandle == playerHandle && this.bodypartHandle == bodypartHandle
      ensures !isConnected && !playerBodypartSet && playerData == "" && bodypartData == "" && messages == []
    {
      this.board := board;
      this.playerHandle := playerHandle;
      this.bodypartHandle := bodypartHandle;
      isConnected := false;
      playerBodypartSet := false;
      playerData := "";
      bodypartData := "";
      messages := [];
    }

    /** The connected callback: only a successful status marks the link up. */
    method ConnectedCallback(statusOk: bool)
      modifies this
      ensures isConnected == (statusOk || old(isConnected))
      ensures playerBodypartSet == old(playerBodypartSet) && playerData == old(playerData)
      ensures bodypartData == old(bodypartData) && messages == old(messages)
    {
      if statusOk {
        isConnected := true;
      }
    }

    /** The disconnected callback (advertising restarts, which is not modelled). */
    method DisconnectedCallback()
      modifies this
      ensures !isConnected
      ensures playerBodypartSet == old(playerBodypartSet) && playerData == old(playerData)
      ensures bodypartData == old(bodypartData) && messages == old(messages)
    {
      isConnected := false;
    }

    /**
     * `BNC_gattReadCallback` (RedBear Duo): the player or the bodypart value,
     * copied into the stack's buffer, with its length; 0 for any other
     * handle. The player handle is tested first.
     */
    method GattReadCallback(valueHandle: int, buffer: array<char>) returns (len: nat)
      requires Valid() && buffer.Length >= MaxCharaLength
      modifies buffer
      ensures valueHandle == playerHandle ==> len == |playerData| && buffer[..len] == playerData
      ensures valueHandle != playerHandle && valueHandle == bodypartHandle ==>
        len == |bodypartData| && buffer[..len] == bodypartData
      ensures valueHandle != playerHandle && valueHandle != bodypartHandle ==> len == 0
      ensures buffer[len..] == old(buffer[len..])
    {
      len := 0;
      if valueHandle == playerHandle {
        CopyInto(buffer, playerData);
        len := |playerData|;
      } else if valueHandle == bodypartHandle {
        CopyInto(buffer, bodypartData);
        len := |bodypartData|;
      }
    }

    /** The message's notification, through the converter the board uses for its type. */
    method SendOne(m: Message, atof: string -> Word) returns (note: Option<Notification>)
      requires Sendable(board, m)
      ensures note == Notify(board, m, atof)
    {
      var t := m.sensorType;
      var slength := TextLength(m.value);
      if t == OrientationAbsTag && board == RedBearDuo {
        var bytesMessage := new byte[16];
        ConvertStringArrayToFloatBytes(m.value, slength, bytesMessage, 4, atof);
        assert bytesMessage[..] == bytesMessage[..16];
        note := Some(Notification(OrientationAbsChara, bytesMessage[..]));
      } else if t == OrientationAbsTag {
        note := None;
      } else if t == AccelerationRelTag {
        var bytesMessage := new byte[12];
        ConvertStringArrayToFloatBytes(m.value, slength, bytesMessage, 3, atof);
        assert bytesMessage[..] == bytesMessage[..12];
        note := Some(Notification(AccelerationRelChara, bytesMessage[..]));
      } else if t == GloveTag {
        var bytesMessage := new byte[9](_ => 0);
        ghost var v := UInt8Values(m.value, slength, 9);
        assert bytesMessage[|v|..] == Zeros(9 - |v|);
        ConvertStringArrayToUInt8Bytes(m.value, slength, bytesMessage, 9);
        assert bytesMessage[..] == bytesMessage[..|v|] + bytesMessage[|v|..];
        note := Some(Notification(GloveChara, bytesMessage[..]));
      } else if t == ShoeTag && board == RedBearDuo {
        var bytesMessage := new byte[1](_ => 0);
        ghost var v := UInt8Values(m.value, slength, 1);
        assert bytesMessage[|v|..] == Zeros(1 - |v|);
        ConvertStringArrayToUInt8Bytes(m.value, slength, bytesMessage, 1);
        assert bytesMessage[..] == bytesMessage[..|v|] + bytesMessage[|v|..];
        note := Some(Notification(ShoeChara, bytesMessage[..]));
      } else if t == ShoeTag {
        note := None;
      } else if t == AngularVelocityRelTag {
        var bytesMessage := new byte[12];
        ConvertStringArrayToFloatBytes(m.value, slength, bytesMessage, 3, atof);
        assert bytesMessage[..] == bytesMessage[..12];
        note := Some(Notification(AngularVelocityRelChara, bytesMessage[..]));
      } else {
        note := None;
      }
    }

    /**
     * `BnBLENodeCommunicator_sendAllMessages`: the first message sets the
     * player and bodypart values once for the node's lifetime; every message
     * is notified in order; then the first `(uint8_t) size` messages are removed.
     */
    method SendAllMessages(atof: string -> Word) returns (sent: seq<Notification>)
      requires Valid() && AllSendable(board, messages)
      requires board == RedBearDuo && !playerBodypartSet && |messages| > 0 ==>
        |messages[0].player| < MaxCharaLength && |messages[0].bodypart| < MaxCharaLength
      modifies this
      ensures Valid()
      ensures sent == Notifications(board, old(messages), atof)
      ensures !old(playerBodypartSet) && |old(messages)| > 0 ==>
        playerBodypartSet && playerData == StoredValue(board, old(messages)[0].player) &&
        bodypartData == StoredValue(board, old(messages)[0].bodypart)
      ensures old(playerBodypartSet) || |old(messages)| == 0 ==>
        playerBodypartSet == old(playerBodypartSet) && playerData == old(playerData) && bodypartData == old(bodypartData)
      ensures messages == old(messages)[ToU8(|old(messages)|)..]
      ensures |old(messages)| < 256 ==> messages == []
      ensures isConnected == old(isConnected)
    {
      sent := [];
      if |messages| == 0 {
        return;
      }
      var index := 0;
      while index < |messages|
        invariant index <= |messages| && messages == old(messages)
        invariant Valid() && isConnected == old(isConnected)
        invariant sent == Notifications(board, messages[..index], atof)
        invariant index > 0 && !old(playerBodypartSet) ==>
          playerBodypartSet && playerData == StoredValue(board, messages[0].player) &&
          bodypartData == StoredValue(board, messages[0].bodypart)
        invariant index == 0 || old(playerBodypartSet) ==>
          playerBodypartSet == old(playerBodypartSet) && playerData == old(playerData) && bodypartData == old(bodypartData)
      {
        var m := messages[index];
        if !playerBodypartSet {
          playerData := StoredValue(board, m.player);
          bodypartData := StoredValue(board, m.bodypart);
          playerBodypartSet := true;
        }
        var note := SendOne(m, atof);
        assert messages[..index + 1][..index] == messages[..index];
        if note.Some? {
          sent := sent + [note.value];
        }
        index := index + 1;
      }
      assert messages[..index] == messages;
      RemoveSent();
    }

    /** The removal loop: `remove(0)` repeated `(uint8_t) size` times. */
    method RemoveSent()
      modifies this
      ensures messages == old(messages)[ToU8(|old(messages)|)..]
      ensures isConnected == old(isConnected) && playerBodypartSet == old(playerBodypartSet)
      ensures playerData == old(playerData) && bodypartData == old(bodypartData)
    {
      var numMessages := ToU8(|messages|);
      for i := 0 to numMessages
        invariant messages == old(messages)[i..]
        invariant isConnected == old(isConnected) && playerBodypartSet == old(playerBodypartSet)
        invariant playerData == old(playerData) && bodypartData == old(bodypartData)
      {
        messages := messages[1..];
      }
    }
  }

  /** `memcpy(buffer, data, len)` for a text value. */
  method CopyInto(buffer: array<char>, data: string)
    requires |data| <= buffer.Length
    modifies buffer
    ensures buffer[..|data|] == data && buffer[|data|..] == old(buffer[|data|..])
  {
    forall i | 0 <= i < |data| {
      buffer[i] := data[i];
    }
  }

  /** A node with fewer than 256 queued messages ends a send with none left. */
  method SendDrains(node: BleNodeCommunicator, atof: string -> Word) returns (sent: seq<Notification>)
    requires node.Valid() && AllSendable(node.board, node.messages) && |node.messages| < 256
    requires node.playerBodypartSet
    modifies node
    ensures node.messages == [] && |sent| <= |old(node.messages)|
  {
    sent := node.SendAllMessages(atof);
  }

  /*** nRF52840 persistent memory ***/

  const BlockSize: nat := 512

  /** `sBlock`: the 512-byte image of the preferences file. */
  class PersBlock {
    const memory: array<byte>

    ghost predicate Valid()
      reads this
    {
      memory.Length == BlockSize
    }

    /** The static block starts zero-filled. */
    constructor ()
      ensures Valid() && fresh(memory) && memory[..] == Zeros(BlockSize)
    {
      memory := new byte[BlockSize](_ => 0);
    }

    /**
     * `persMemoryInit`: when the file system mounts and the file opens, the
     * bytes read from it (at most 512) overwrite the start of the block.
     */
    method Init(mounted: bool, fileOpened: bool, contents: seq<byte>)
      requires Valid() && |contents| <= BlockSize
      modifies memory
      ensures mounted && fileOpened ==>
        memory[..|contents|] == contents && memory[|contents|..] == old(memory[|contents|..])
      ensures !(mounted && fileOpened) ==> memory[..] == old(memory[..])
    {
      if !mounted || !fileOpened {
        return;
      }
      forall i | 0 <= i < |contents| {
        memory[i] := contents[i];
      }
    }

    /** `persMemoryRead`: the byte at an address inside the block; otherwise the output keeps its value. */
    method Read(address: int, outByte: byte) returns (r: byte)
      requires Valid() && 0 <= address
      ensures address < BlockSize ==> r == memory[address]
      ensures address >= BlockSize ==> r == outByte
    {
      r := outByte;
      if address < memory.Length {
        r := memory[address];
      }
    }

    /** `persMemoryWrite`: only an address inside the block changes, and only that byte. */
    method Write(address: int, inByte: byte)
      requires Valid() && 0 <= address
      modifies memory
      ensures address < BlockSize ==> memory[..] == old(memory[..])[address := inByte]
      ensures address >= BlockSize ==> memory[..] == old(memory[..])
    {
      if address < memory.Length {
        memory[address] := inByte;
      }
    }
  }

  /** A byte written inside the block reads back; other addresses keep their bytes. */
  method WriteThenRead(block: PersBlock, address: int, other: int, b: byte, outByte: byte)
    returns (r: byte, s: byte)
    requires block.Valid() && 0 <= address && 0 <= other && other != address
    modifies block.memory
    ensures address < BlockSize ==> r == b
    ensures other < BlockSize ==> s == old(block.memory[other])
  {
    block.Write(address, b);
    r := block.Read(address, outByte);
    s := block.Read(other, outByte);
  }
}
