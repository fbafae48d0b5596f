/**
 * The intermediate node's table of bodyparts (`messages_mgr`): up to 15
 * slots, each with a bodypart name, an enabled flag, the connection that
 * registered it, and the last message (type, value, changed flag) stored for
 * it; `getAllMessages` serialises the changed messages as a JSON array.
 * C strings are Dafny strings: the fixed 20- and 100-byte buffers and
 * `strcpy` overflowing them are not modelled.
 */
module MessagesTable {
  import opened Common

  const MaxBodynodes: nat := 15

  /** `struct Connection`: the sender's IPv4 address and UDP port. */
  datatype Connection = Connection(remoteIp: seq<byte>, remotePort: int)

  /** A default-constructed `Connection`: address 0.0.0.0, port 0. */
  const NoConnection: Connection := Connection([0, 0, 0, 0], 0)

  /** The number of leading enabled slots, which is where a lookup stops. */
  function Active(en: seq<bool>): (r: nat)
    ensures r <= |en|
    ensures forall i :: 0 <= i < r ==> en[i]
    ensures r < |en| ==> !en[r]
  {
    if en == [] || !en[0] then 0 else 1 + Active(en[1..])
  }

  /**
   * The loop of `get_index_bodypart` from slot i: the first enabled slot whose
   * name contains `bp`, or else the first slot that is not enabled (|en| when
   * every slot is enabled).
   */
  function Scan(parts: seq<string>, en: seq<bool>, bp: string, i: nat): (r: nat)
    requires |parts| == |en| && i <= |en|
    ensures i <= r <= |en|
    ensures forall k :: i <= k < r ==> en[k] && !Contains(parts[k], bp)
    ensures r < |en| && en[r] ==> Contains(parts[r], bp)
    decreases |en| - i
  {
    if i == |en| || !en[i] then i
    else if IsSubstring(bp, parts[i]) then i
    else Scan(parts, en, bp, i + 1)
  }

  /** One serialised message, `{"bodypart":"…","type":"…","value":"…"}`. */
  function Entry(bodypart: string, mtype: string, mvalue: string): string
  {
    "{\"bodypart\":\"" + bodypart + "\",\"type\":\"" + mtype + "\",\"value\":\"" + mvalue + "\"}"
  }

  /** The entries of the changed slots below k, in slot order. */
  function Entries(parts: seq<string>, types: seq<string>, values: seq<string>, ch: seq<bool>, k: nat): (r: seq<string>)
    requires k <= |parts| && k <= |types| && k <= |values| && k <= |ch|
  {
    if k == 0 then []
    else Entries(parts, types, values, ch, k - 1) + (if ch[k - 1] then [Entry(parts[k - 1], types[k - 1], values[k - 1])] else [])
  }

  function Join(s: seq<string>): string
  {
    if |s| == 0 then "" else if |s| == 1 then s[0] else Join(s[..|s| - 1]) + "," + s[|s| - 1]
  }

  /** A JSON array of the given serialised objects. */
  function Json(entries: seq<string>): string
  {
    "[" + Join(entries) + "]"
  }

  /*** Properties of the specification functions ***/

  /** Appending an object to the open JSON array text, with a comma unless it is the first. */
  lemma JsonPrefixStep(listed: seq<string>, e: string)
    ensures "[" + Join(listed + [e]) ==
      if listed == [] then ("[" + Join(listed)) + e else (("[" + Join(listed)) + ",") + e
  {
    assert (listed + [e])[..|listed|] == listed;
  }

  /** A changed slot below k is listed, in the position given by the changed slots before it. */
  lemma {:induction false} EntriesList(parts: seq<string>, types: seq<string>, values: seq<string>, ch: seq<bool>, k: nat, i: nat)
    requires k <= |parts| && k <= |types| && k <= |values| && k <= |ch|
    requires i < k && ch[i]
    ensures Entry(parts[i], types[i], values[i]) in Entries(parts, types, values, ch, k)
  {
    if i < k - 1 {
      EntriesList(parts, types, values, ch, k - 1, i);
    }
  }

  /** With no changed slot below k there is nothing to list. */
  lemma {:induction false} NoChangesNoEntries(parts: seq<string>, types: seq<string>, values: seq<string>, ch: seq<bool>, k: nat)
    requires k <= |parts| && k <= |types| && k <= |values| && k <= |ch|
    requires forall i :: 0 <= i < k ==> !ch[i]
    ensures Entries(parts, types, values, ch, k) == []
    ensures Json(Entries(parts, types, values, ch, k)) == "[]"
  {
    if k > 0 {
      NoChangesNoEntries(parts, types, values, ch, k - 1);
    }
  }

  /** Entries returns one object per changed slot below k. */
  lemma {:induction false} EntriesCount(parts: seq<string>, types: seq<string>, values: seq<string>, ch: seq<bool>, k: nat)
    requires k <= |parts| && k <= |types| && k <= |values| && k <= |ch|
    ensures |Entries(parts, types, values, ch, k)| == |set i | 0 <= i < k && ch[i]|
  {
    if k > 0 {
      EntriesCount(parts, types, values, ch, k - 1);
      var below := set i | 0 <= i < k - 1 && ch[i];
      if ch[k - 1] {
        assert (set i | 0 <= i < k && ch[i]) == below + {k - 1};
      } else {
        assert (set i | 0 <= i < k && ch[i]) == below;
      }
    }
  }

  /** After a name is registered in the first free slot r, the lookup for it finds r. */
  lemma {:induction false} ScanAfterRegister(parts: seq<string>, en: seq<bool>, bp: string, i: nat, r: nat)
    requires |parts| == |en| && i <= r < |en| && !en[r]
    requires forall k :: i <= k < r ==> en[k] && !Contains(parts[k], bp)
    ensures Scan(parts[r := bp], en[r := true], bp, i) == r
    decreases r - i
  {
    if i < r {
      ScanAfterRegister(parts, en, bp, i + 1, r);
    } else {
      assert OccursAt(bp, bp, 0);
    }
  }

  /** A lookup only stops at a slot whose name contains the bodypart, or at a free one; registering another name leaves it in place. */
  lemma {:induction false} ScanKeepsFound(parts: seq<string>, en: seq<bool>, bp: string, other: string, i: nat, r: nat)
    requires |parts| == |en| && i <= |en| && r < |en| && !en[r]
    requires Scan(parts, en, bp, i) < r
    ensures Scan(parts[r := other], en[r := true], bp, i) == Scan(parts, en, bp, i)
    decreases |en| - i
  {
    if en[i] && !IsSubstring(bp, parts[i]) {
      ScanKeepsFound(parts, en, bp, other, i + 1, r);
    }
  }

  /*** The table ***/

  class Messages {
    /** `mBodyparts`. */
    const bodyparts: array<string>
    /** `mEnabled`. */
    const enabled: array<bool>
    /** `mMessagesWS_Type` and `mMessagesWS_Value`. */
    const types: array<string>
    const values: array<string>
    /** `mMessagesWS_Changed`. */
    const changed: array<bool>
    /** `mConnections`. */
    const connections: array<Connection>

    ghost predicate Valid()
      reads this, enabled
    {
      bodyparts.Length == MaxBodynodes && enabled.Length == MaxBodynodes &&
      types.Length == MaxBodynodes && values.Length == MaxBodynodes &&
      changed.Length == MaxBodynodes && connections.Length == MaxBodynodes &&
      bodyparts != types && bodyparts != values && types != values && enabled != changed &&
      EnabledPrefix()
    }

    /** The enabled slots form a prefix of the table. */
    ghost predicate EnabledPrefix()
      reads this, enabled
    {
      forall i, j :: 0 <= i < j < enabled.Length && enabled[j] ==> enabled[i]
    }

    /** The zero-initialised globals before `initMessages()`. */
    constructor ()
      ensures Valid() && fresh(bodyparts) && fresh(enabled) && fresh(types) && fresh(values)
      ensures fresh(changed) && fresh(connections)
      ensures Active(enabled[..]) == 0
    {
      bodyparts := new string[MaxBodynodes](_ => "");
      enabled := new bool[MaxBodynodes](_ => false);
      types := new string[MaxBodynodes](_ => "");
      values := new string[MaxBodynodes](_ => "");
      changed := new bool[MaxBodynodes](_ => false);
      connections := new Connection[MaxBodynodes](_ => NoConnection);
      new;
      assert !enabled[..][0];
    }

    /** `initMessages()`: every slot disabled, unnamed, with no message and no connection. */
    method InitMessages()
      requires Valid()
      modifies bodyparts, enabled, types, values, changed, connections
      ensures Valid() && Active(enabled[..]) == 0
      ensures forall i :: 0 <= i < MaxBodynodes ==>
        bodyparts[i] == "" && !enabled[i] && types[i] == "" && values[i] == "" && !changed[i] &&
        connections[i] == NoConnection
    {
      for index := 0 to MaxBodynodes
        invariant forall i :: 0 <= i < index ==>
          bodyparts[i] == "" && !enabled[i] && types[i] == "" && values[i] == "" && !changed[i] &&
          connections[i] == NoConnection
      {
        bodyparts[index] := "";
        enabled[index] := false;
        types[index] := "";
        values[index] := "";
        changed[index] := false;
        connections[index] := NoConnection;
      }
      assert !enabled[..][0];
    }

    /**
     * `get_index_bodypart(connection, bodypart)`: no name gives -1; a name
     * contained in an enabled slot's name gives that slot; otherwise the first
     * free slot is claimed for it and the connection. A full table gives -1
     * and changes nothing (the firmware writes slot 15, past the table).
     */
    method GetIndexBodypart(connection: Connection, bodypart: Option<string>) returns (index: int)
      requires Valid()
      modifies bodyparts, enabled, connections
      ensures Valid()
      ensures bodypart.None? ==> index == -1
      ensures bodypart.Some? ==>
        var r := Scan(old(bodyparts[..]), old(enabled[..]), bodypart.value, 0);
        index == (if r == MaxBodynodes then -1 else r) &&
        if r < MaxBodynodes && !old(enabled[r]) then
          bodyparts[..] == old(bodyparts[..])[r := bodypart.value] &&
          enabled[..] == old(enabled[..])[r := true] &&
          connections[..] == old(connections[..])[r := connection]
        else
          bodyparts[..] == old(bodyparts[..]) && enabled[..] == old(enabled[..]) &&
          connections[..] == old(connections[..])
      ensures bodypart.None? ==>
        bodyparts[..] == old(bodyparts[..]) && enabled[..] == old(enabled[..]) && connections[..] == old(connections[..])
    {
      if bodypart.None? {
        return -1;
      }
      var bp := bodypart.value;
      var i := 0;
      while i < MaxBodynodes && enabled[i]
        invariant i <= MaxBodynodes
        invariant Scan(bodyparts[..], enabled[..], bp, 0) == Scan(bodyparts[..], enabled[..], bp, i)
      {
        if IsSubstring(bp, bodyparts[i]) {
          return i;
        }
        i := i + 1;
      }
      if i == MaxBodynodes {
        return -1;
      }
      bodyparts[i] := bp;
      connections[i] := connection;
      enabled[i] := true;
      index := i;
      assert EnabledPrefix() by {
        forall a, b | 0 <= a < b < MaxBodynodes && enabled[b] ensures enabled[a] {
          if b != i {
            assert old(enabled[b]);
          }
        }
      }
    }

    /** `get_connection_bodypart(bodypart)`: the connection of the slot the lookup finds, else port 0. */
    method GetConnectionBodypart(bodypart: Option<string>) returns (c: Connection)
      requires Valid()
      ensures bodypart.None? ==> c == NoConnection
      ensures bodypart.Some? ==>
        var r := Scan(bodyparts[..], enabled[..], bodypart.value, 0);
        c == if r < MaxBodynodes && enabled[r] then connections[r] else NoConnection
    {
      c := NoConnection;
      if bodypart.None? {
        return;
      }
      var bp := bodypart.value;
      var i := 0;
      while i < MaxBodynodes && enabled[i]
        invariant i <= MaxBodynodes
        invariant Scan(bodyparts[..], enabled[..], bp, 0) == Scan(bodyparts[..], enabled[..], bp, i)
      {
        if IsSubstring(bp, bodyparts[i]) {
          return connections[i];
        }
        i := i + 1;
      }
    }

    /** `store_message(index, type, value)`: an index outside 0..14 is ignored. */
    method StoreMessage(index: int, mtype: string, mvalue: string)
      requires Valid()
      modifies types, values, changed
      ensures !(0 <= index < MaxBodynodes) ==>
        types[..] == old(types[..]) && values[..] == old(values[..]) && changed[..] == old(changed[..])
      ensures 0 <= index < MaxBodynodes ==>
        types[..] == old(types[..])[index := mtype] && values[..] == old(values[..])[index := mvalue] &&
        changed[..] == old(changed[..])[index := true]
    {
      if index < 0 || MaxBodynodes <= index {
        return;
      }
      types[index] := mtype;
      values[index] := mvalue;
      changed[index] := true;
    }

    /**
     * `getAllMessages()`: the changed messages of the enabled slots as a JSON
     * array in slot order; their changed flags are cleared.
     */
    method GetAllMessages() returns (msg: string)
      requires Valid()
      modifies changed
      ensures msg == Json(Entries(bodyparts[..], types[..], values[..], old(changed[..]), Active(enabled[..])))
      ensures forall i :: 0 <= i < MaxBodynodes ==>
        changed[i] == (old(changed[i]) && i >= Active(enabled[..]))
    {
      ghost var ch := changed[..];
      ghost var active := Active(enabled[..]);
      msg := "[";
      var isFirst := true;
      var index := 0;
      ghost var listed: seq<string> := [];
      while index < MaxBodynodes && enabled[index]
        invariant index <= active
        invariant listed == Entries(bodyparts[..], types[..], values[..], ch, index)
        invariant isFirst <==> listed == []
        invariant msg == "[" + Join(listed)
        invariant forall i :: 0 <= i < MaxBodynodes ==> changed[i] == (ch[i] && i >= index)
      {
        if changed[index] {
          if !isFirst {
            msg := msg + ",";
          }
          isFirst := false;
          var entry := Entry(bodyparts[index], types[index], values[index]);
          msg := msg + entry;
          changed[index] := false;
          JsonPrefixStep(listed, entry);
          listed := listed + [entry];
        }
        index := index + 1;
      }
      msg := msg + "]";
    }
  }

  /** A second `getAllMessages()` straight after the first returns `[]`. */
  method GetAllMessagesTwice(t: Messages) returns (first: string, second: string)
    requires t.Valid()
    modifies t.changed
    ensures first == Json(Entries(t.bodyparts[..], t.types[..], t.values[..], old(t.changed[..]), Active(t.enabled[..])))
    ensures second == "[]"
  {
    first := t.GetAllMessages();
    NoChangesNoEntries(t.bodyparts[..], t.types[..], t.values[..], t.changed[..], Active(t.enabled[..]));
    second := t.GetAllMessages();
  }

  /** A bodypart registered with a connection is found again with that connection. */
  method RegisterThenLookup(t: Messages, connection: Connection, bp: string) returns (index: int, c: Connection)
    requires t.Valid()
    requires forall i :: 0 <= i < MaxBodynodes ==> !t.enabled[i]
    modifies t.bodyparts, t.enabled, t.connections
    ensures index == 0 && c == connection
  {
    index := t.GetIndexBodypart(connection, Some(bp));
    ScanAfterRegister(old(t.bodyparts[..]), old(t.enabled[..]), bp, 0, 0);
    c := t.GetConnectionBodypart(Some(bp));
  }

  /*** The as-written lookup on a full table ***/

  /** The index the firmware's `get_index_bodypart` returns and writes: the raw loop result, 15 on a full table. */
  function IndexAsWritten(parts: seq<string>, en: seq<bool>, bp: string): (r: int)
    requires |parts| == |en| == MaxBodynodes
    ensures 0 <= r <= MaxBodynodes
  {
    Scan(parts, en, bp, 0)
  }

  /** On a table whose 15 slots are taken by other names the firmware's index is 15, one past the last slot. */
  lemma FullTableOverflows(parts: seq<string>, bp: string)
    requires |parts| == MaxBodynodes
    requires forall i :: 0 <= i < MaxBodynodes ==> !Contains(parts[i], bp)
    ensures IndexAsWritten(parts, seq(MaxBodynodes, _ => true), bp) == MaxBodynodes
  {
    FullScan(parts, seq(MaxBodynodes, _ => true), bp, 0);
  }

  lemma {:induction false} FullScan(parts: seq<string>, en: seq<bool>, bp: string, i: nat)
    requires |parts| == |en| && i <= |en|
    requires forall k :: i <= k < |en| ==> en[k] && !Contains(parts[k], bp)
    ensures Scan(parts, en, bp, i) == |en|
    decreases |en| - i
  {
    if i < |en| {
      FullScan(parts, en, bp, i + 1);
    }
  }

  /*** Quaternion components as text ***/

  /** The digits the conversion loop produces for x >= 0: the integer part, then each next decimal. */
  function DigitsOf(x: real, n: nat): (ds: seq<int>)
    requires x >= 0.0
    ensures |ds| == n
    ensures n > 0 ==> ds[0] == x.Floor
    ensures forall j :: 1 <= j < n ==> 0 <= ds[j] <= 9
    decreases n
  {
    if n == 0 then [] else [x.Floor] + DigitsOf(NextDecimal(x), n - 1)
  }

  /** The fraction of x shifted one decimal left, as the loop's `quatVal = (quatVal - val) * 10`. */
  function NextDecimal(x: real): (y: real)
    requires x >= 0.0
    ensures 0.0 <= y < 10.0
  {
    (x - x.Floor as real) * 10.0
  }

  /** x after d steps of the conversion loop. */
  function Shifted(x: real, d: nat): (y: real)
    requires x >= 0.0
    ensures y >= 0.0
  {
    if d == 0 then x else NextDecimal(Shifted(x, d - 1))
  }

  /** Digit d of x is the integer part of x shifted d times. */
  lemma {:induction false} DigitAt(x: real, n: nat, d: nat)
    requires x >= 0.0 && d < n
    ensures DigitsOf(x, n)[d] == Shifted(x, d).Floor
    decreases d
  {
    if d > 0 {
      DigitAt(NextDecimal(x), n - 1, d - 1);
      ShiftedFirst(x, d);
    }
  }

  /** Shifting d times is one shift followed by d - 1 more. */
  lemma {:induction false} ShiftedFirst(x: real, d: nat)
    requires x >= 0.0 && d > 0
    ensures Shifted(x, d) == Shifted(NextDecimal(x), d - 1)
    decreases d
  {
    if d > 1 {
      ShiftedFirst(x, d - 1);
    }
  }

  /** `val + '0'` stored in a `char`: a digit 0..9 becomes '0'..'9'. */
  function DigitChar(v: int): char
  {
    ((48 + v) % 256) as char
  }

  /** A decimal digit becomes its character. */
  lemma DigitCharIsDigit(v: int)
    requires 0 <= v <= 9
    ensures '0' <= DigitChar(v) <= '9' && DigitChar(v) as int - '0' as int == v
  {
  }

  function Pow10(n: nat): (p: nat)
    ensures p >= 1
  {
    if n == 0 then 1 else 10 * Pow10(n - 1)
  }

  /** The number a digit sequence spells in decimal. */
  function DigitValue(ds: seq<int>): int
  {
    if ds == [] then 0 else ds[0] * Pow10(|ds| - 1) + DigitValue(ds[1..])
  }

  /** x * p, kept behind a name so that the proofs below reason about it step by step. */
  function Scale(x: real, p: nat): real
  {
    x * p as real
  }

  /** n digits of x spell x * 10^(n-1) truncated: the text is x cut after n - 1 decimals. */
  lemma {:induction false} DigitsSpellTruncation(x: real, n: nat)
    requires x >= 0.0 && n >= 1
    ensures DigitValue(DigitsOf(x, n)) == Scale(x, Pow10(n - 1)).Floor
    decreases n
  {
    var k := x.Floor;
    var ds := DigitsOf(x, n);
    if n == 1 {
      assert ds == [k];
      assert DigitValue(ds) == k * Pow10(0) + DigitValue([]);
      assert Scale(x, 1) == x;
    } else {
      var f := x - k as real;
      var y := NextDecimal(x);
      var p, q := Pow10(n - 1), Pow10(n - 2);
      assert ds == [k] + DigitsOf(y, n - 1);
      assert ds[1..] == DigitsOf(y, n - 1);
      assert DigitValue(ds) == k * p + DigitValue(DigitsOf(y, n - 1));
      DigitsSpellTruncation(y, n - 1);
      ScaleShift(f, q);
      Split(k, f, p);
    }
  }

  lemma ScaleShift(f: real, q: nat)
    ensures Scale(f * 10.0, q) == Scale(f, 10 * q)
  {
  }

  /** (k + f) * p truncated is k * p plus f * p truncated, for an integer k. */
  lemma Split(k: int, f: real, p: nat)
    ensures Scale(k as real + f, p).Floor == k * p + Scale(f, p).Floor
  {
    assert Scale(k as real + f, p) == (k * p) as real + Scale(f, p);
  }

  /**
   * `insertInOrientationStringQuat(buf, startPos, prec, quatVal)`: the sign
   * at startPos, the integer digit, '.', prec decimals of |quatVal|, then '|'
   * at startPos + 3 + prec; the rest of the buffer is untouched.
   */
  method InsertInOrientationStringQuat(buf: array<char>, startPos: nat, prec: nat, quatVal: real)
    requires startPos + 3 + prec < buf.Length
    modifies buf
    ensures buf[startPos] == if quatVal >= 0.0 then '+' else '-'
    ensures buf[startPos + 2] == '.' && buf[startPos + 3 + prec] == '|'
    ensures var ds := DigitsOf(if quatVal >= 0.0 then quatVal else -quatVal, prec + 1);
      buf[startPos + 1] == DigitChar(ds[0]) &&
      forall k :: startPos + 3 <= k < startPos + 3 + prec ==> buf[k] == DigitChar(ds[k - startPos - 2])
    ensures buf[..startPos] == old(buf[..startPos]) && buf[startPos + 4 + prec..] == old(buf[startPos + 4 + prec..])
  {
    var q := quatVal;
    if q >= 0.0 {
      buf[startPos] := '+';
    } else {
      buf[startPos] := '-';
      q := -q;
    }
    ghost var x := q;
    ghost var ds := DigitsOf(x, prec + 1);
    DigitAt(x, prec + 1, 0);
    buf[startPos + 1] := DigitChar(q.Floor);
    q := NextDecimal(q);
    buf[startPos + 2] := '.';
    for j := 0 to prec
      invariant q == Shifted(x, j + 1)
      invariant buf[startPos] == if quatVal >= 0.0 then '+' else '-'
      invariant buf[startPos + 1] == DigitChar(ds[0]) && buf[startPos + 2] == '.'
      invariant forall k :: startPos + 3 <= k < startPos + 3 + j ==> buf[k] == DigitChar(ds[k - startPos - 2])
      invariant forall k :: 0 <= k < buf.Length && !(startPos <= k < startPos + 3 + j) ==> buf[k] == old(buf[k])
    {
      DigitAt(x, prec + 1, j + 1);
      buf[startPos + 3 + j] := DigitChar(q.Floor);
      q := NextDecimal(q);
    }
    buf[startPos + 3 + prec] := '|';
  }
}
