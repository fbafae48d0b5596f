/**
 * The WiFi node's link to the host (`BnWifiNodeCommunicator`): the
 * disconnected / waiting-for-ACK / connected state machine, host discovery by
 * the "BN" multicast, the "ACKN"/"ACKH" handshake and keep-alive, and the
 * bounded message and action lists. WiFi, UDP sockets and JSON parsing are
 * parameters: whether the WiFi is up or connects, the packets received, the
 * multicast sender's address and the parse result of the received bytes.
 */
module WifiNodeCommunicator {
  import opened Common
  import opened Datatypes

  const MaxMessagesListLength: nat := 20
  const ConnectionAckIntervalMs: u32 := 1000
  const KeepAliveSendIntervalMs: u32 := 30000
  const KeepAliveRecIntervalMs: u32 := 60000
  /** The LED blinks every 300 ms while waiting for the host's ACK. */
  const WaitingBlinkMs: u32 := 300

  /** "ACKH" and "BN" as bytes, and the "ACKN" datagram with its NUL. */
  const Ackh: seq<byte> := [65, 67, 75, 72]
  const Bn: seq<byte> := [66, 78]
  const AcknPacket: seq<byte> := [65, 67, 75, 78, 0]

  /** The number of bytes `read(buf, MAX_RECEIVED_BYTES_LENGTH)` stores from a packet. */
  function ReadLength(packet: seq<byte>): (n: nat)
    ensures n <= MaxReceivedBytes && n <= |packet|
    ensures |packet| <= MaxReceivedBytes ==> n == |packet|
  {
    if |packet| < MaxReceivedBytes then |packet| else MaxReceivedBytes
  }

  /** The LED after `checkStatus()` at time now. */
  function LedAfter(led: BnStatusLed, status: byte, now: u32): (r: BnStatusLed)
    ensures status == NotConnected ==> r == BnStatusLed(false, now)
    ensures status == WaitingAck ==> r == if Elapsed(now, led.lastToggle) > WaitingBlinkMs then BnStatusLed(!led.on, now) else led
    ensures status != NotConnected && status != WaitingAck ==> r == BnStatusLed(true, now)
  {
    if status == NotConnected then BnStatusLed(false, now)
    else if status == WaitingAck then
      (if Elapsed(now, led.lastToggle) > WaitingBlinkMs then BnStatusLed(!led.on, now) else led)
    else BnStatusLed(true, now)
  }

  /** While waiting, the LED toggles at most once per 300 ms: two checks 300 ms apart or less leave it as the first left it. */
  lemma BlinkRate(led: BnStatusLed, t1: u32, t2: u32)
    requires Elapsed(t1, led.lastToggle) > WaitingBlinkMs
    requires Elapsed(t2, t1) <= WaitingBlinkMs
    ensures LedAfter(LedAfter(led, WaitingAck, t1), WaitingAck, t2) == BnStatusLed(!led.on, t1)
  {
  }

  /** "ACKN" is not "ACKH": the node never mistakes its own datagram for the host's. */
  lemma AcknIsNotAckh()
    ensures !Contains(AcknPacket, Ackh)
    ensures Contains(Ackh, Ackh) && Contains([79, 75] + Ackh, Ackh)
  {
    forall k
      ensures !OccursAt(AcknPacket, Ackh, k)
    {
      if k == 0 {
        assert AcknPacket[0..4][3] != Ackh[3];
      } else if k == 1 {
        assert AcknPacket[1..5][0] != Ackh[0];
      }
    }
    assert OccursAt(Ackh, Ackh, 0);
    assert ([79, 75] + Ackh)[2..6] == Ackh;
    assert OccursAt([79, 75] + Ackh, Ackh, 2);
  }

  /** Copies one received packet into a connection's buffer, as `receiveBytes()` does for each socket. */
  method Receive(data: IPConnectionData, packet: seq<byte>)
    requires data.Valid()
    modifies data, data.receivedBytes
    ensures data.Valid()
    ensures |packet| > 0 ==> data.Received() == packet[..ReadLength(packet)]
    ensures |packet| == 0 ==> data.Received() == old(data.Received())
    ensures data.connStatus == old(data.connStatus) && data.lastSentTime == old(data.lastSentTime)
    ensures data.lastRecTime == old(data.lastRecTime)
    ensures data.hasIpAddress == old(data.hasIpAddress) && data.ipAddress == old(data.ipAddress)
  {
    if |packet| > 0 {
      var n := ReadLength(packet);
      for i := 0 to n
        modifies data.receivedBytes
        invariant data.receivedBytes[..i] == packet[..i]
      {
        data.receivedBytes[i] := packet[i];
      }
      data.numReceivedBytes := n;
    }
  }

  /** The first index of `pat` in `a[..n]` scanning as the firmware's loops do, if any. */
  method FindPattern(a: array<byte>, n: nat, pat: seq<byte>) returns (found: bool)
    requires n <= a.Length && |pat| > 0
    ensures found <==> Contains(a[..n], pat)
  {
    if n < |pat| {
      assert !Contains(a[..n], pat);
      return false;
    }
    var index := 0;
    while index < n - (|pat| - 1)
      invariant index <= n - (|pat| - 1)
      invariant forall k :: 0 <= k < index ==> !OccursAt(a[..n], pat, k)
    {
      var j := 0;
      while j < |pat| && a[index + j] == pat[j]
        invariant j <= |pat|
        invariant forall m :: 0 <= m < j ==> a[index + m] == pat[m]
      {
        j := j + 1;
      }
      if j == |pat| {
        assert a[..n][index..index + |pat|] == pat;
        assert OccursAt(a[..n], pat, index);
        return true;
      }
      assert a[..n][index..index + |pat|][j] != pat[j];
      index := index + 1;
    }
    assert forall k :: OccursAt(a[..n], pat, k) ==> k < index;
    return false;
  }

  class BnWifiNodeCommunicator {
    const connectionData: IPConnectionData
    const multicastData: IPConnectionData
    var statusLed: BnStatusLed
    /** The serialised JSON objects waiting to be sent, `wnc_messages_list`. */
    var messages: seq<string>
    /** The received actions waiting to be collected, `wnc_actions_list`. */
    var actions: seq<string>

    ghost predicate Valid()
      reads this, connectionData, multicastData
    {
      connectionData != multicastData && connectionData.receivedBytes != multicastData.receivedBytes &&
      connectionData.Valid() && multicastData.Valid() && connectionData.connStatus <= Connected &&
      |messages| <= MaxMessagesListLength
    }

    constructor ()
      ensures Valid() && fresh(connectionData) && fresh(multicastData)
      ensures fresh(connectionData.receivedBytes) && fresh(multicastData.receivedBytes)
      ensures messages == [] && actions == []
    {
      connectionData := new IPConnectionData();
      multicastData := new IPConnectionData();
      statusLed := BnStatusLed(false, 0);
      messages := [];
      actions := [];
    }

    /** `init()`: both connections disconnected with times 0, no host address, empty lists, LED off. */
    method Init(now: u32)
      requires Valid()
      modifies this, connectionData, multicastData
      ensures Valid() && statusLed == BnStatusLed(false, now) && messages == [] && actions == []
      ensures connectionData.IsDisconnected() && !connectionData.hasIpAddress
      ensures connectionData.lastSentTime == 0 && connectionData.lastRecTime == 0
      ensures multicastData.IsDisconnected() && multicastData.lastSentTime == 0 && multicastData.lastRecTime == 0
    {
      statusLed := BnStatusLed(false, now);
      connectionData.SetDisconnected();
      connectionData.lastSentTime := 0;
      connectionData.lastRecTime := 0;
      connectionData.hasIpAddress := false;
      multicastData.SetDisconnected();
      multicastData.lastSentTime := 0;
      multicastData.lastRecTime := 0;
      messages := [];
      actions := [];
    }

    /** `addMessage(message)`: appended unless the list already holds 20. */
    method AddMessage(message: string)
      requires Valid()
      modifies this
      ensures Valid()
      ensures messages == if |old(messages)| >= MaxMessagesListLength then old(messages) else old(messages) + [message]
      ensures actions == old(actions) && statusLed == old(statusLed)
    {
      if |messages| >= MaxMessagesListLength {
        return;
      }
      messages := messages + [message];
    }

    /**
     * `sendAllMessages()`: nothing on an empty list; otherwise the list goes
     * out as one datagram, the send time is updated and the list is emptied.
     */
    method SendAllMessages(now: u32) returns (sent: seq<string>)
      requires Valid()
      modifies this, connectionData
      ensures Valid() && messages == [] && sent == old(messages)
      ensures connectionData.lastSentTime == if old(messages) == [] then old(connectionData.lastSentTime) else now
      ensures connectionData.connStatus == old(connectionData.connStatus) && connectionData.lastRecTime == old(connectionData.lastRecTime)
      ensures connectionData.numReceivedBytes == old(connectionData.numReceivedBytes)
      ensures actions == old(actions)
    {
      if |messages| == 0 {
        return [];
      }
      sent := messages;
      connectionData.lastSentTime := now;
      var numMessages := ToU8(|messages|);
      for index := 0 to numMessages
        modifies this
        invariant messages == old(messages)[index..] && actions == old(actions)
      {
        messages := messages[1..];
      }
    }

    /**
     * `getActions(actions)`: every pending action is appended to the caller's
     * list; then as many actions as the `uint8_t` count says are removed.
     */
    method GetActions(out: seq<string>) returns (result: seq<string>)
      requires Valid()
      modifies this
      ensures Valid() && result == out + old(actions)
      ensures actions == old(actions)[ToU8(|old(actions)|)..]
      ensures |old(actions)| < 256 ==> actions == []
      ensures messages == old(messages) && statusLed == old(statusLed)
    {
      result := out;
      for i := 0 to |actions|
        invariant result == out + actions[..i] && messages == old(messages) && statusLed == old(statusLed)
      {
        result := result + [actions[i]];
      }
      assert actions[..|actions|] == actions;
      var numActions := ToU8(|actions|);
      ghost var before := actions;
      for index := 0 to numActions
        invariant actions == before[index..] && messages == old(messages) && statusLed == old(statusLed)
      {
        actions := actions[1..];
      }
    }

    /** `checkForActions()`: a parsable non-empty buffer adds one action. */
    method CheckForActions(parsed: Option<string>)
      requires Valid()
      modifies this
      ensures Valid()
      ensures actions == if connectionData.numReceivedBytes > 0 && parsed.Some? then old(actions) + [parsed.value] else old(actions)
      ensures messages == old(messages) && statusLed == old(statusLed)
    {
      if connectionData.numReceivedBytes > 0 {
        if parsed.None? {
          return;
        }
        actions := actions + [parsed.value];
      }
    }

    /** `checkStatus()`: the LED follows the connection status. */
    method CheckStatus(now: u32)
      requires Valid()
      modifies this
      ensures Valid() && statusLed == LedAfter(old(statusLed), connectionData.connStatus, now)
      ensures messages == old(messages) && actions == old(actions)
    {
      if connectionData.IsDisconnected() {
        statusLed := BnStatusLed(false, now);
      } else if connectionData.IsWaitingAck() {
        if Elapsed(now, statusLed.lastToggle) > WaitingBlinkMs {
          statusLed := BnStatusLed(!statusLed.on, now);
        }
      } else {
        statusLed := BnStatusLed(true, now);
      }
    }

    /** `sendACKN()`: within 1000 ms of the last send nothing goes out; otherwise "ACKN" is sent and the send time updated. */
    method SendAckn(now: u32) returns (packet: seq<byte>)
      requires Valid()
      modifies connectionData
      ensures Valid()
      ensures Elapsed(now, old(connectionData.lastSentTime)) < ConnectionAckIntervalMs ==>
        packet == [] && connectionData.lastSentTime == old(connectionData.lastSentTime)
      ensures Elapsed(now, old(connectionData.lastSentTime)) >= ConnectionAckIntervalMs ==>
        packet == AcknPacket && connectionData.lastSentTime == now
      ensures connectionData.connStatus == old(connectionData.connStatus) && connectionData.lastRecTime == old(connectionData.lastRecTime)
      ensures connectionData.numReceivedBytes == old(connectionData.numReceivedBytes)
      ensures connectionData.hasIpAddress == old(connectionData.hasIpAddress)
    {
      if Elapsed(now, connectionData.lastSentTime) < ConnectionAckIntervalMs {
        return [];
      }
      packet := AcknPacket;
      connectionData.lastSentTime := now;
    }

    /** `checkForACKH()`: true iff "ACKH" occurs in the received bytes, which then updates the receive time. */
    method CheckForAckh(now: u32) returns (found: bool)
      requires Valid()
      modifies connectionData
      ensures Valid()
      ensures found <==> Contains(old(connectionData.Received()), Ackh)
      ensures connectionData.lastRecTime == if found then now else old(connectionData.lastRecTime)
      ensures connectionData.connStatus == old(connectionData.connStatus) && connectionData.lastSentTime == old(connectionData.lastSentTime)
      ensures connectionData.numReceivedBytes == old(connectionData.numReceivedBytes)
      ensures connectionData.hasIpAddress == old(connectionData.hasIpAddress)
    {
      found := FindPattern(connectionData.receivedBytes, connectionData.numReceivedBytes, Ackh);
      if found {
        connectionData.lastRecTime := now;
      }
    }

    /** `checkForMulticastBN()`: true iff "BN" occurs in the multicast bytes, which then updates its receive time; the bytes are consumed either way. */
    method CheckForMulticastBn(now: u32) returns (found: bool)
      requires Valid()
      modifies multicastData
      ensures Valid()
      ensures found <==> Contains(old(multicastData.Received()), Bn)
      ensures multicastData.lastRecTime == if found then now else old(multicastData.lastRecTime)
      ensures multicastData.numReceivedBytes == 0 && multicastData.connStatus == old(multicastData.connStatus)
    {
      found := FindPattern(multicastData.receivedBytes, multicastData.numReceivedBytes, Bn);
      if found {
        multicastData.lastRecTime := now;
      }
      multicastData.CleanBytes();
    }

    /** `saveHostInfo()`: the multicast sender becomes the host. */
    method SaveHostInfo(remoteIp: seq<byte>)
      requires Valid()
      modifies connectionData
      ensures Valid() && connectionData.hasIpAddress && connectionData.ipAddress == remoteIp
      ensures connectionData.connStatus == old(connectionData.connStatus) && connectionData.lastSentTime == old(connectionData.lastSentTime)
      ensures connectionData.lastRecTime == old(connectionData.lastRecTime)
      ensures connectionData.numReceivedBytes == old(connectionData.numReceivedBytes)
    {
      connectionData.hasIpAddress := true;
      connectionData.ipAddress := remoteIp;
    }

    predicate HasHostInfo()
      reads this, connectionData
    {
      connectionData.hasIpAddress
    }

    /** The waiting branch of `checkAllOk()`: a "BN" multicast records the host; with a known host "ACKN" goes out and "ACKH" connects. */
    method WaitingStep(now: u32, remoteIp: seq<byte>)
      requires Valid() && connectionData.IsWaitingAck()
      modifies connectionData, multicastData
      ensures Valid()
      ensures connectionData.hasIpAddress <==> old(connectionData.hasIpAddress) || Contains(old(multicastData.Received()), Bn)
      ensures connectionData.IsConnected() <==> connectionData.hasIpAddress && Contains(old(connectionData.Received()), Ackh)
      ensures connectionData.IsConnected() || connectionData.IsWaitingAck()
      ensures multicastData.numReceivedBytes == 0 && multicastData.connStatus == old(multicastData.connStatus)
    {
      var bn := CheckForMulticastBn(now);
      if bn {
        SaveHostInfo(remoteIp);
      }
      if HasHostInfo() {
        var _ := SendAckn(now);
        var ackh := CheckForAckh(now);
        if ackh {
          connectionData.SetConnected();
        }
      }
    }

    /** The connected branch of `checkAllOk()`: keep-alive, the 60 s receive timeout, one action from non-"ACKH" bytes, the bytes consumed. */
    method ConnectedStep(now: u32, parsed: Option<string>)
      requires Valid() && connectionData.IsConnected()
      modifies this, connectionData
      ensures Valid() && connectionData.numReceivedBytes == 0
      ensures connectionData.IsDisconnected() <==> Elapsed(now, old(connectionData.lastRecTime)) > KeepAliveRecIntervalMs
      ensures connectionData.IsDisconnected() || connectionData.IsConnected()
      ensures actions == if !Contains(old(connectionData.Received()), Ackh) && old(connectionData.numReceivedBytes) > 0 && parsed.Some?
        then old(actions) + [parsed.value] else old(actions)
      ensures messages == old(messages)
    {
      if Elapsed(now, connectionData.lastSentTime) > KeepAliveSendIntervalMs {
        var _ := SendAckn(now);
      }
      if Elapsed(now, connectionData.lastRecTime) > KeepAliveRecIntervalMs {
        connectionData.SetDisconnected();
      }
      var ackh := CheckForAckh(now);
      if !ackh {
        CheckForActions(parsed);
      }
      connectionData.CleanBytes();
    }

    /**
     * `checkAllOk()` at time now. A disconnected node tries the WiFi: on
     * failure it stays disconnected and the call returns false, on success it
     * waits for the host. Then the packets are read, and the waiting or the
     * connected branch runs; only the connected branch returns true.
     */
    method CheckAllOk(now: u32, wifiReady: bool, wifiConnects: bool, packet: seq<byte>, multicastPacket: seq<byte>,
                      remoteIp: seq<byte>, parsed: Option<string>) returns (allOk: bool)
      requires Valid()
      modifies this, connectionData, connectionData.receivedBytes, multicastData, multicastData.receivedBytes
      ensures Valid()
      ensures allOk <==> old(connectionData.IsConnected()) && wifiReady
      ensures (old(connectionData.IsDisconnected()) || !wifiReady) && !wifiConnects ==> connectionData.IsDisconnected()
      ensures (old(connectionData.IsDisconnected()) || !wifiReady) && wifiConnects ==> multicastData.IsConnected()
      ensures connectionData.IsConnected() && !allOk ==>
        connectionData.hasIpAddress && Contains(if |packet| > 0 then packet[..ReadLength(packet)] else old(connectionData.Received()), Ackh)
      ensures allOk ==> connectionData.numReceivedBytes == 0
      ensures allOk ==> (connectionData.IsDisconnected() <==> Elapsed(now, old(connectionData.lastRecTime)) > KeepAliveRecIntervalMs)
      ensures messages == old(messages)
    {
      CheckStatus(now);
      if !wifiReady {
        connectionData.SetDisconnected();
      }
      if connectionData.IsDisconnected() {
        if !wifiConnects {
          connectionData.SetDisconnected();
          return false;
        }
        multicastData.SetConnected();
        connectionData.SetWaitingAck();
      }
      Receive(connectionData, packet);
      Receive(multicastData, multicastPacket);
      if connectionData.IsWaitingAck() {
        WaitingStep(now, remoteIp);
        allOk := false;
      } else {
        ConnectedStep(now, parsed);
        allOk := true;
      }
    }
  }
}
