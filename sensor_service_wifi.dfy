/**
 * The Android sensor app's WiFi service (`SensorServiceWifi`): the same
 * disconnected / waiting-for-ACK / connected machine as the nodes, working on
 * the last datagram text received, the brace-delimited action extraction and
 * the change-threshold test that decides whether sensor values are sent.
 * Sockets, threads, broadcasts and the shared preferences are left to the
 * caller: the received texts and the multicast sender's address are fields the
 * receiving threads assign, the communication state is a field, and the
 * extracted action is returned instead of broadcast.
 */
module SensorServiceWifi {
  import opened Common
  import IpCodec

  const ConnectionAckIntervalMs: int := 1000
  const KeepAliveSendIntervalMs: int := 30000
  const KeepAliveRecIntervalMs: int := 60000

  /** `BnConstants.COMMUNICATION_STATE_*`, kept by `AppData`. */
  datatype CommState = Disconnected | WaitingAck | Connected

  /** `String.indexOf(c)`: the first index of c, or -1 when there is none. */
  function IndexOf(s: string, c: char): (r: int)
    ensures -1 <= r < |s|
    ensures r >= 0 ==> s[r] == c
    ensures forall j :: 0 <= j < (if r < 0 then |s| else r) ==> s[j] != c
  {
    FindFrom(s, c, 0)
  }

  /** The scan of `indexOf` from position i on. */
  function FindFrom(s: string, c: char, i: nat): (r: int)
    requires i <= |s|
    ensures -1 <= r < |s| && (r >= 0 ==> i <= r && s[r] == c)
    ensures forall j :: i <= j < (if r < 0 then |s| else r) ==> s[j] != c
    decreases |s| - i
  {
    if i == |s| then -1
    else if s[i] == c then i
    else FindFrom(s, c, i + 1)
  }

  /** Searching past a prefix free of c finds the same occurrence. */
  lemma IndexOfFrom(s: string, c: char, i: nat)
    requires i <= |s| && forall j :: 0 <= j < i ==> s[j] != c
    ensures IndexOf(s[i..], c) == if IndexOf(s, c) < 0 then -1 else IndexOf(s, c) - i
  {
    var r := IndexOf(s, c);
    var q := IndexOf(s[i..], c);
    if q >= 0 {
      assert s[i + q] == c;
    }
    if r >= 0 {
      assert r >= i;
      assert s[i..][r - i] == c;
    }
  }

  /** A JSON object's text: opened by '{' and closed by its first '}'. */
  predicate IsObjectText(t: string)
  {
    |t| >= 2 && t[0] == '{' && t[|t| - 1] == '}' && forall k :: 0 <= k < |t| - 1 ==> t[k] != '}'
  }

  /** The action `checkForActions()` is meant to extract: from the first '{' through the first '}' after it. */
  function FirstObject(s: string): Option<string>
  {
    var io := IndexOf(s, '{');
    if io < 0 then None
    else
      var k := IndexOf(s[io..], '}');
      if k < 0 then None else Some(s[io..io + k + 1])
  }

  /** There is an action exactly when some '}' follows some '{'; it is an object's text taken from the buffer. */
  lemma FirstObjectShape(s: string)
    ensures FirstObject(s).Some? <==> exists i, j :: 0 <= i < j < |s| && s[i] == '{' && s[j] == '}'
    ensures FirstObject(s).Some? ==> IsObjectText(FirstObject(s).value) && Contains(s, FirstObject(s).value)
  {
    var io := IndexOf(s, '{');
    if io >= 0 {
      var k := IndexOf(s[io..], '}');
      if k >= 0 {
        var t := s[io..io + k + 1];
        assert t == s[io..][..k + 1];
        assert s[io] == '{' && s[io + k] == '}';
        assert OccursAt(s, t, io);
      } else {
        forall i, j | 0 <= i < j < |s| && s[i] == '{'
          ensures s[j] != '}'
        {
          assert s[io..][j - io] == s[j];
        }
      }
    }
  }

  /*** checkForActions as written ***/

  datatype ActionOutcome = ActionOutcome(rest: string, json: Option<string>) | IndexOutOfBounds

  /**
   * `checkForActions()` exactly as written: after a '}' before the first '{'
   * the buffer is cut to start at that '{', but `indexOpen` keeps its old
   * value, so `substring(indexOpen, indexClose + 1)` reads the wrong span or
   * throws when `indexOpen` exceeds `indexClose + 1`.
   */
  function CheckForActionsAsWritten(s: string): (r: ActionOutcome)
    ensures r.ActionOutcome? && r.json.Some? ==> r.rest == ""
  {
    var indexOpen := IndexOf(s, '{');
    var indexClose := IndexOf(s, '}');
    if indexOpen < 0 then ActionOutcome(if indexClose >= 0 then s[indexClose + 1..] else s, None)
    else
      var data := if indexOpen > indexClose then s[indexOpen..] else s;
      var close := if indexOpen > indexClose then IndexOf(data, '}') else indexClose;
      if close < 0 then ActionOutcome(data, None)
      else if indexOpen > close + 1 then IndexOutOfBounds
      else ActionOutcome("", Some(data[indexOpen..close + 1]))
  }

  /** A stray '}' before the object: the code as written yields "a}" for "}{a}" and throws for "}}}}{a}". */
  lemma StaleIndexAsWritten()
    ensures CheckForActionsAsWritten("}{a}") == ActionOutcome("", Some("a}"))
    ensures CheckForActionsAsWritten("}}}}{a}") == IndexOutOfBounds
  {
    assert IndexOf("}{a}", '{') == 1;
    assert IndexOf("}{a}", '}') == 0;
    assert "}{a}"[1..] == "{a}";
    assert IndexOf("{a}", '}') == 2;
    assert "{a}"[1..3] == "a}";
    assert IndexOf("}}}}{a}", '{') == 4;
    assert IndexOf("}}}}{a}", '}') == 0;
    assert "}}}}{a}"[4..] == "{a}";
  }

  /** The intended extraction of the same buffers is the whole object. */
  lemma StrayCloseExtracted()
    ensures FirstObject("}{a}") == Some("{a}")
    ensures FirstObject("}}}}{a}") == Some("{a}")
  {
    assert IndexOf("}{a}", '{') == 1;
    assert "}{a}"[1..] == "{a}";
    assert IndexOf("{a}", '}') == 2;
    assert "}{a}"[1..4] == "{a}";
    assert IndexOf("}}}}{a}", '{') == 4;
    assert "}}}}{a}"[4..] == "{a}";
    assert "}}}}{a}"[4..7] == "{a}";
  }

  /** Without a '}' before the first '{' the code as written already extracts the intended object. */
  lemma AsWrittenAgreesWhenOrdered(s: string)
    requires 0 <= IndexOf(s, '{') < IndexOf(s, '}')
    ensures CheckForActionsAsWritten(s) == ActionOutcome("", FirstObject(s))
  {
    IndexOfFrom(s, '}', IndexOf(s, '{'));
  }

  /*** bigChangeValues ***/

  /** x lies strictly outside `prev ± bigDiff`. */
  predicate Outside(x: real, prev: real, bigDiff: real)
  {
    x < prev - bigDiff || prev + bigDiff < x
  }

  /**
   * `bigChangeValues(values, prev, n, bigDiff)`: true iff one of the first n
   * components moved out of its band; then those n values become the new
   * reference, otherwise the reference is untouched. Java `float` is `real`.
   */
  method BigChangeValues(values: array<real>, prev: array<real>, n: nat, bigDiff: real) returns (changed: bool)
    requires n <= values.Length && n <= prev.Length && values != prev
    modifies prev
    ensures changed <==> exists i :: 0 <= i < n && Outside(values[i], old(prev[i]), bigDiff)
    ensures changed ==> prev[..n] == values[..n] && prev[n..] == old(prev[n..])
    ensures !changed ==> prev[..] == old(prev[..])
  {
    changed := false;
    var component := 0;
    while component < n
      invariant component <= n
      invariant forall i :: 0 <= i < component ==> !Outside(values[i], prev[i], bigDiff)
    {
      if Outside(values[component], prev[component], bigDiff) {
        changed := true;
        break;
      }
      component := component + 1;
    }
    if changed {
      for i := 0 to n
        invariant prev[..i] == values[..i] && prev[n..] == old(prev[n..])
        invariant forall j :: i <= j < n ==> prev[j] == old(prev[j])
      {
        prev[i] := values[i];
      }
    }
  }

  /** With a non-negative threshold a reported change is not reported again for the same values. */
  method BigChangeSettles(values: array<real>, prev: array<real>, n: nat, bigDiff: real) returns (first: bool, second: bool)
    requires n <= values.Length && n <= prev.Length && values != prev && bigDiff >= 0.0
    modifies prev
    ensures first ==> !second
  {
    first := BigChangeValues(values, prev, n, bigDiff);
    if first {
      assert forall i :: 0 <= i < n ==> prev[i] == values[i] by {
        forall i | 0 <= i < n ensures prev[i] == values[i] {
          assert prev[..n][i] == values[..n][i];
        }
      }
    }
    second := BigChangeValues(values, prev, n, bigDiff);
  }

  class SensorServiceWifi {
    /** `mLastDataReceived`, assigned by the data receiving thread. */
    var lastDataReceived: string
    /** `mLastMulticastReceived` and the sender's address `mLastMulticastIpAddress`. */
    var lastMulticastReceived: string
    var lastMulticastIpAddress: string
    /** `mServerIpAddress`: the host, null until a multicast is accepted. */
    var serverIpAddress: Option<seq<byte>>
    var lastSentTime: int
    var lastRecTime: int
    var state: CommState
    /** `mConnector != null`. */
    var connectorOpen: bool

    constructor ()
      ensures lastDataReceived == "" && lastMulticastReceived == "" && lastMulticastIpAddress == ""
      ensures serverIpAddress.None? && lastSentTime == 0 && lastRecTime == 0 && state == Disconnected
    {
      lastDataReceived := "";
      lastMulticastReceived := "";
      lastMulticastIpAddress := "";
      serverIpAddress := None;
      lastSentTime := 0;
      lastRecTime := 0;
      state := Disconnected;
      connectorOpen := false;
    }

    /**
     * `checkForActions()`, with the '{' index moved along when the buffer is
     * cut: text before the first '{' whose '}' has arrived is an action and
     * the buffer is emptied; an unclosed '{' keeps the buffer from that '{';
     * with no '{' a buffer holding '}' drops the text through it.
     */
    method CheckForActions() returns (json: Option<string>)
      modifies this
      ensures json == FirstObject(old(lastDataReceived))
      ensures var s := old(lastDataReceived); var io := IndexOf(s, '{'); var ic := IndexOf(s, '}');
        if io < 0 then lastDataReceived == (if ic >= 0 then s[ic + 1..] else s)
        else if json.None? then lastDataReceived == s[io..]
        else lastDataReceived == ""
      ensures lastRecTime == old(lastRecTime) && lastSentTime == old(lastSentTime) && state == old(state)
      ensures serverIpAddress == old(serverIpAddress) && lastMulticastReceived == old(lastMulticastReceived)
    {
      var s := lastDataReceived;
      var indexOpen := IndexOf(s, '{');
      var indexClose := IndexOf(s, '}');
      if indexOpen < 0 {
        if indexClose >= 0 {
          lastDataReceived := s[indexClose + 1..];
        }
        return None;
      }
      if indexOpen > indexClose {
        ghost var io := indexOpen;
        lastDataReceived := s[indexOpen..];
        indexOpen := 0;
        indexClose := IndexOf(lastDataReceived, '}');
        assert indexClose >= 0 ==> lastDataReceived[0..indexClose + 1] == s[io..io + indexClose + 1];
      } else {
        IndexOfFrom(s, '}', indexOpen);
      }
      if indexClose < 0 {
        return None;
      }
      json := Some(lastDataReceived[indexOpen..indexClose + 1]);
      lastDataReceived := lastDataReceived[indexClose + 1..];
      lastDataReceived := "";
    }

    /** `checkForACKH()`: true iff the text contains "ACKH", which updates the receive time and empties the text. */
    method CheckForAckh(now: int) returns (found: bool)
      modifies this
      ensures found <==> Contains(old(lastDataReceived), "ACKH")
      ensures found ==> lastRecTime == now && lastDataReceived == ""
      ensures !found ==> lastRecTime == old(lastRecTime) && lastDataReceived == old(lastDataReceived)
      ensures lastSentTime == old(lastSentTime) && state == old(state) && serverIpAddress == old(serverIpAddress)
      ensures lastMulticastReceived == old(lastMulticastReceived)
    {
      if IsSubstring("ACKH", lastDataReceived) {
        lastRecTime := now;
        lastDataReceived := "";
        return true;
      }
      return false;
    }

    /** `checkForMulticastBN()`: true iff the multicast text contains the configured group tag, which then updates the receive time and empties that text. */
    method CheckForMulticastBn(now: int, group: string) returns (found: bool)
      modifies this
      ensures found <==> Contains(old(lastMulticastReceived), group)
      ensures found ==> lastRecTime == now && lastMulticastReceived == ""
      ensures !found ==> lastRecTime == old(lastRecTime) && lastMulticastReceived == old(lastMulticastReceived)
      ensures lastDataReceived == old(lastDataReceived) && lastSentTime == old(lastSentTime) && state == old(state)
      ensures serverIpAddress == old(serverIpAddress) && lastMulticastIpAddress == old(lastMulticastIpAddress)
    {
      if IsSubstring(group, lastMulticastReceived) {
        lastRecTime := now;
        lastMulticastReceived := "";
        return true;
      }
      return false;
    }

    /** `saveHostInfo()`: the host is the multicast sender's parsed address, or none when it does not parse. */
    method SaveHostInfo()
      modifies this
      ensures serverIpAddress == IpCodec.GetInetAddressFromStr(lastMulticastIpAddress)
      ensures lastDataReceived == old(lastDataReceived) && lastRecTime == old(lastRecTime)
      ensures lastSentTime == old(lastSentTime) && state == old(state)
    {
      serverIpAddress := IpCodec.GetInetAddressFromStr(lastMulticastIpAddress);
    }

    predicate HasHostInfo()
      reads this
    {
      serverIpAddress.Some?
    }

    /** `sendACKN()`: nothing without a socket or within 1000 ms of the last send; otherwise "ACKN" goes out and the send time is updated. */
    method SendAckn(now: int) returns (sent: bool)
      modifies this
      ensures sent <==> old(connectorOpen) && now - old(lastSentTime) >= ConnectionAckIntervalMs
      ensures lastSentTime == if sent then now else old(lastSentTime)
      ensures lastDataReceived == old(lastDataReceived) && lastRecTime == old(lastRecTime)
      ensures state == old(state) && serverIpAddress == old(serverIpAddress)
      ensures lastMulticastReceived == old(lastMulticastReceived)
    {
      if !connectorOpen {
        return false;
      }
      if now - lastSentTime < ConnectionAckIntervalMs {
        return false;
      }
      lastSentTime := now;
      return true;
    }

    /**
     * `checkAllOk()` at time now. Waiting: a multicast carrying the group tag
     * records the host; with a host "ACKN" is sent and "ACKH" connects; false.
     * Disconnected: start waiting; false. Connected: keep-alive, a receive
     * timeout after 60 s, an action from text that is not "ACKH"; true.
     */
    method CheckAllOk(now: int, wifiType: bool, group: string) returns (ok: bool, action: Option<string>)
      modifies this
      ensures ok <==> wifiType && old(state) == Connected
      ensures !wifiType ==> state == old(state) && lastDataReceived == old(lastDataReceived)
      ensures wifiType && old(state) == Disconnected ==> state == WaitingAck
      ensures state == Connected && old(state) != Connected ==>
        old(state) == WaitingAck && serverIpAddress.Some? && Contains(old(lastDataReceived), "ACKH")
      ensures ok ==> (state == Disconnected <==> now - old(lastRecTime) > KeepAliveRecIntervalMs)
      ensures action.Some? ==> ok && !Contains(old(lastDataReceived), "ACKH")
      ensures ok && !Contains(old(lastDataReceived), "ACKH") ==> action == FirstObject(old(lastDataReceived))
    {
      action := None;
      if !wifiType {
        return false, None;
      }
      if state == WaitingAck {
        var bn := CheckForMulticastBn(now, group);
        if bn {
          SaveHostInfo();
        }
        if HasHostInfo() {
          var _ := SendAckn(now);
          var ackh := CheckForAckh(now);
          if ackh {
            state := Connected;
          }
        }
        return false, None;
      } else if state == Disconnected {
        state := WaitingAck;
        return false, None;
      }
      if now - lastSentTime > KeepAliveSendIntervalMs {
        var _ := SendAckn(now);
      }
      if now - lastRecTime > KeepAliveRecIntervalMs {
        state := Disconnected;
      }
      var ackh := CheckForAckh(now);
      if !ackh {
        action := CheckForActions();
      }
      ok := true;
    }
  }
}
