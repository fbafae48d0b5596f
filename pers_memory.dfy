/**
 * The length-prefixed key/value store `BnPersMemory` (and the older
 * `PersMemory`) over a 512-byte persistent block. Each known key owns a
 * fixed slot: one length byte at `nbytes`, the characters and their NUL from
 * `nbytes + 1`. The block accessors are the bounds-checked
 * `persMemoryRead` / `persMemoryWrite` of the nRF52840 node.
 */
module PersMemory {
  import opened Common

  const MemorySize: nat := 512

  /** The five bytes at addresses 0..4 that mark an initialised block. */
  const CheckKey: seq<byte> := [0x00, 0x00, 0x00, 0x00, 0x01]

  datatype Key = Player | Bodypart | BodypartGlove | BodypartShoe | Ssid | Password | MulticastMessage | Unknown

  /** Where a key's length byte and characters live. */
  datatype Slot = Slot(nbytes: nat, chars: nat)

  /**
   * The address table of setValue/getValue. The shoe bodypart has an address
   * in the header but no branch in setValue/getValue, so it is treated like
   * an unknown key.
   */
  function SlotOf(k: Key): (s: Option<Slot>)
    ensures s.None? <==> k == BodypartShoe || k == Unknown
    ensures s.Some? ==> s.value.chars == s.value.nbytes + 1
    ensures s.Some? ==> 50 <= s.value.nbytes <= 350 && s.value.nbytes % 50 == 0
  {
    match k
    case Player => Some(Slot(50, 51))
    case Bodypart => Some(Slot(100, 101))
    case BodypartGlove => Some(Slot(150, 151))
    case Ssid => Some(Slot(250, 251))
    case Password => Some(Slot(300, 301))
    case MulticastMessage => Some(Slot(350, 351))
    case BodypartShoe => None
    case Unknown => None
  }

  /** Distinct keys own distinct slots, at least 50 bytes apart. */
  lemma SlotsApart(k1: Key, k2: Key)
    requires SlotOf(k1).Some? && SlotOf(k2).Some? && k1 != k2
    ensures SlotOf(k1).value.nbytes != SlotOf(k2).value.nbytes
    ensures SlotOf(k1).value.nbytes + 50 <= SlotOf(k2).value.nbytes ||
            SlotOf(k2).value.nbytes + 50 <= SlotOf(k1).value.nbytes
  {
  }

  /*** The block as a value ***/

  /** `persMemoryWrite(address, b)`: only an address inside the block is written. */
  function Poke(mem: seq<byte>, addr: int, b: byte): (r: seq<byte>)
    ensures |r| == |mem|
    ensures forall j :: 0 <= j < |mem| ==> r[j] == (if j == addr then b else mem[j])
  {
    if 0 <= addr < |mem| then mem[addr := b] else mem
  }

  /** `persMemoryRead(address, &out)`: out keeps its previous value for an address outside the block. */
  function Peek(mem: seq<byte>, addr: int, previous: byte): (b: byte)
    ensures 0 <= addr < |mem| ==> b == mem[addr]
    ensures !(0 <= addr < |mem|) ==> b == previous
  {
    if 0 <= addr < |mem| then mem[addr] else previous
  }

  /** The block after `bs` has been written byte by byte from `addr`; bytes past the end are dropped. */
  function WriteRun(mem: seq<byte>, addr: nat, bs: seq<byte>): (r: seq<byte>)
    ensures |r| == |mem|
    ensures forall j :: 0 <= j < |mem| && addr <= j < addr + |bs| ==> r[j] == bs[j - addr]
    ensures forall j :: 0 <= j < |mem| && !(addr <= j < addr + |bs|) ==> r[j] == mem[j]
  {
    seq(|mem|, j requires 0 <= j < |mem| => if addr <= j < addr + |bs| then bs[j - addr] else mem[j])
  }

  lemma WriteRunStep(mem: seq<byte>, addr: nat, bs: seq<byte>, i: nat)
    requires i < |bs|
    ensures WriteRun(mem, addr, bs[..i + 1]) == Poke(WriteRun(mem, addr, bs[..i]), addr + i, bs[i])
  {
  }

  /** What setValue's loop writes from `addr_chars`: `len - 1` characters and a NUL, where `len` is the `uint8_t` length plus one. */
  function Encoded(value: seq<byte>): (bs: seq<byte>)
    ensures |bs| == ToU8(|value| + 1)
    ensures |value| < 255 ==> bs == value + [0]
  {
    var len := ToU8(|value| + 1);
    if len == 0 then [] else value[..len - 1] + [0]
  }

  /** The bytes before the first NUL; all of them when there is none. */
  function UpToNul(raw: seq<byte>): (s: seq<byte>)
    ensures |s| <= |raw| && s == raw[..|s|]
    ensures forall i :: 0 <= i < |s| ==> s[i] != 0
    ensures |s| < |raw| ==> raw[|s|] == 0
  {
    if raw == [] || raw[0] == 0 then [] else [raw[0]] + UpToNul(raw[1..])
  }

  /** The new block after `setValue(k, value)`. */
  function AfterSet(mem: seq<byte>, k: Key, value: seq<byte>): (r: seq<byte>)
    ensures |r| == |mem|
  {
    match SlotOf(k)
    case None => mem
    case Some(slot) => WriteRun(Poke(mem, slot.nbytes, ToU8(|value| + 1)), slot.chars, Encoded(value))
  }

  /** The string `getValue(k)` returns: `len` bytes read from the slot, up to the first NUL. Reads outside the block give 0. */
  function ValueIn(mem: seq<byte>, k: Key): (s: seq<byte>)
    ensures SlotOf(k).None? ==> s == []
    ensures |s| < 256 && forall i :: 0 <= i < |s| ==> s[i] != 0
  {
    match SlotOf(k)
    case None => []
    case Some(slot) =>
      UpToNul(ReadRun(mem, slot.chars, Peek(mem, slot.nbytes, 0)))
  }

  /** `len` bytes read one by one from `addr`. */
  function ReadRun(mem: seq<byte>, addr: nat, len: nat): (r: seq<byte>)
    ensures |r| == len
    ensures forall i :: 0 <= i < len ==> r[i] == Peek(mem, addr + i, 0)
  {
    if len == 0 then [] else ReadRun(mem, addr, len - 1) + [Peek(mem, addr + len - 1, 0)]
  }

  /** The block after `clean()`: every byte 0. */
  function Cleared(): (mem: seq<byte>)
    ensures |mem| == MemorySize && forall j :: 0 <= j < MemorySize ==> mem[j] == 0
  {
    seq(MemorySize, _ => 0)
  }

  /** The check key is in place. */
  ghost predicate HasCheckKey(mem: seq<byte>)
  {
    |mem| >= 5 && mem[..5] == CheckKey
  }

  /** The defaults, applied in order by `setValue`. */
  function AfterSetAll(mem: seq<byte>, defaults: seq<(Key, seq<byte>)>): (r: seq<byte>)
    ensures |r| == |mem|
    decreases |defaults|
  {
    if defaults == [] then mem
    else AfterSetAll(AfterSet(mem, defaults[0].0, defaults[0].1), defaults[1..])
  }

  /** The block `init()` leaves behind: one with the check key, the old one when it already had it. */
  function AfterInit(mem: seq<byte>, defaults: seq<(Key, seq<byte>)>): (r: seq<byte>)
    requires |mem| == MemorySize
    ensures |r| == MemorySize && HasCheckKey(r)
    ensures HasCheckKey(mem) ==> r == mem
  {
    if HasCheckKeyFn(mem) then mem
    else
      var start := WriteRun(Cleared(), 0, CheckKey);
      assert start[..5] == CheckKey;
      SetAllKeepsCheckKey(start, defaults);
      AfterSetAll(start, defaults)
  }

  function HasCheckKeyFn(mem: seq<byte>): (b: bool)
    requires |mem| == MemorySize
    ensures b <==> HasCheckKey(mem)
  {
    mem[0] == CheckKey[0] && mem[1] == CheckKey[1] && mem[2] == CheckKey[2] &&
    mem[3] == CheckKey[3] && mem[4] == CheckKey[4]
  }

  /*** Properties ***/

  /** An unknown key (or the shoe key) writes nothing and reads as "". */
  lemma UnknownKey(mem: seq<byte>, k: Key, value: seq<byte>)
    requires SlotOf(k).None?
    ensures AfterSet(mem, k, value) == mem && ValueIn(mem, k) == []
  {
  }

  /** A value without NUL bytes that fits its 49-byte slot is read back unchanged. */
  lemma SetThenGet(mem: seq<byte>, k: Key, value: seq<byte>)
    requires |mem| == MemorySize && SlotOf(k).Some?
    requires |value| + 1 <= 49 && forall i :: 0 <= i < |value| ==> value[i] != 0
    ensures ValueIn(AfterSet(mem, k, value), k) == value
  {
    var slot := SlotOf(k).value;
    var after := AfterSet(mem, k, value);
    assert after[slot.nbytes] == |value| + 1;
    var raw := ReadRun(after, slot.chars, |value| + 1);
    assert raw == value + [0];
    NulTerminated(value);
  }

  lemma {:induction false} NulTerminated(value: seq<byte>)
    requires forall i :: 0 <= i < |value| ==> value[i] != 0
    ensures UpToNul(value + [0]) == value
  {
    if value != [] {
      assert (value + [0])[1..] == value[1..] + [0];
      NulTerminated(value[1..]);
    }
  }

  /** Setting one key with a value that fits leaves unchanged every other key whose stored length fits its slot. */
  lemma SetKeepsOthers(mem: seq<byte>, k: Key, other: Key, value: seq<byte>)
    requires |mem| == MemorySize && k != other
    requires |value| + 1 <= 49
    requires SlotOf(other).Some? ==> mem[SlotOf(other).value.nbytes] <= 49
    ensures ValueIn(AfterSet(mem, k, value), other) == ValueIn(mem, other)
  {
    if SlotOf(k).Some? && SlotOf(other).Some? {
      var after := AfterSet(mem, k, value);
      SlotsApart(k, other);
      var o := SlotOf(other).value;
      var len := Peek(mem, o.nbytes, 0);
      assert Peek(after, o.nbytes, 0) == len by {
        AfterSetOutside(mem, k, value, o.nbytes);
      }
      assert len == mem[o.nbytes] <= 49;
      forall j | o.chars <= j < o.chars + len
        ensures Peek(after, j, 0) == Peek(mem, j, 0)
      {
        AfterSetOutside(mem, k, value, j);
      }
      ReadRunAgrees(after, mem, o.chars, len);
    }
  }

  /** Setting a key writes only its own 50-byte slot. */
  lemma AfterSetOutside(mem: seq<byte>, k: Key, value: seq<byte>, j: nat)
    requires |mem| == MemorySize && |value| + 1 <= 49 && SlotOf(k).Some? && j < MemorySize
    requires !(SlotOf(k).value.nbytes <= j < SlotOf(k).value.nbytes + 50)
    ensures AfterSet(mem, k, value)[j] == mem[j]
  {
  }

  /** Two blocks that agree on the bytes read give the same run. */
  lemma {:induction false} ReadRunAgrees(a: seq<byte>, b: seq<byte>, addr: nat, len: nat)
    requires forall j :: addr <= j < addr + len ==> Peek(a, j, 0) == Peek(b, j, 0)
    ensures ReadRun(a, addr, len) == ReadRun(b, addr, len)
  {
    if len > 0 {
      ReadRunAgrees(a, b, addr, len - 1);
    }
  }

  /** After `init()` the check key is in place, so a second `init()` changes nothing. */
  lemma InitIdempotent(mem: seq<byte>, defaults: seq<(Key, seq<byte>)>)
    requires |mem| == MemorySize
    requires forall i :: 0 <= i < |defaults| ==> |defaults[i].1| + 1 <= 49
    ensures HasCheckKey(AfterInit(mem, defaults))
    ensures AfterInit(AfterInit(mem, defaults), defaults) == AfterInit(mem, defaults)
  {
    if !HasCheckKeyFn(mem) {
      var start := WriteRun(Cleared(), 0, CheckKey);
      assert start[..5] == CheckKey;
      SetAllKeepsCheckKey(start, defaults);
    }
  }

  /** Slots start at address 50, so setting keys never touches the check key. */
  lemma {:induction false} SetAllKeepsCheckKey(mem: seq<byte>, defaults: seq<(Key, seq<byte>)>)
    requires |mem| == MemorySize && HasCheckKey(mem)
    ensures HasCheckKey(AfterSetAll(mem, defaults))
    decreases |defaults|
  {
    if defaults != [] {
      var next := AfterSet(mem, defaults[0].0, defaults[0].1);
      assert next[..5] == mem[..5];
      SetAllKeepsCheckKey(next, defaults[1..]);
    }
  }

  /*** The block in place ***/

  class BnPersMemory {
    /** `sBlock.memory`. */
    const memory: array<byte>

    ghost predicate Valid()
      reads this
    {
      memory.Length == MemorySize
    }

    constructor (contents: seq<byte>)
      requires |contents| == MemorySize
      ensures Valid() && memory[..] == contents && fresh(memory)
    {
      memory := new byte[MemorySize](i requires 0 <= i < MemorySize reads {} => contents[i]);
    }

    /** `persMemoryRead`. */
    method Read(addr: nat, previous: byte) returns (b: byte)
      requires Valid()
      ensures b == Peek(memory[..], addr, previous)
    {
      if addr < memory.Length {
        b := memory[addr];
      } else {
        b := previous;
      }
    }

    /** `persMemoryWrite`. */
    method Write(addr: nat, b: byte)
      requires Valid()
      modifies memory
      ensures memory[..] == Poke(old(memory[..]), addr, b)
    {
      if addr < memory.Length {
        memory[addr] := b;
      }
    }

    method WriteBytes(addr: nat, bs: seq<byte>)
      requires Valid()
      modifies memory
      ensures memory[..] == WriteRun(old(memory[..]), addr, bs)
    {
      ghost var start := memory[..];
      var index := 0;
      while index < |bs|
        invariant index <= |bs|
        invariant memory[..] == WriteRun(start, addr, bs[..index])
      {
        WriteRunStep(start, addr, bs, index);
        Write(addr + index, bs[index]);
        index := index + 1;
      }
      assert bs[..index] == bs;
    }

    /** `clean()`: writes 0 to addresses 0..511. */
    method Clean()
      requires Valid()
      modifies memory
      ensures memory[..] == Cleared()
    {
      var index := 0;
      while index < MemorySize
        invariant index <= MemorySize
        invariant forall j :: 0 <= j < index ==> memory[j] == 0
      {
        Write(index, 0);
        index := index + 1;
      }
    }

    /** `setValue(key, value)`. */
    method SetValue(k: Key, value: seq<byte>)
      requires Valid()
      modifies memory
      ensures memory[..] == AfterSet(old(memory[..]), k, value)
    {
      var slot := SlotOf(k);
      if slot.None? {
        return;
      }
      var len := ToU8(|value| + 1);
      Write(slot.value.nbytes, len);
      WriteBytes(slot.value.chars, Encoded(value));
    }

    /** `getValue(key)`. */
    method GetValue(k: Key) returns (s: seq<byte>)
      requires Valid()
      ensures s == ValueIn(memory[..], k)
    {
      var slot := SlotOf(k);
      if slot.None? {
        return [];
      }
      var len := Read(slot.value.nbytes, 0);
      ghost var mem := memory[..];
      var raw := [];
      var index := 0;
      while index < len
        invariant index <= len
        invariant raw == ReadRun(mem, slot.value.chars, index)
      {
        var tmp := Read(slot.value.chars + index, 0);
        raw := raw + [tmp];
        index := index + 1;
      }
      s := UpToNul(raw);
    }

    /** `init()`: a block without the check key is cleaned, marked and given the default values. */
    method Init(defaults: seq<(Key, seq<byte>)>)
      requires Valid()
      modifies memory
      ensures memory[..] == AfterInit(old(memory[..]), defaults)
    {
      var c0 := Read(0, 0);
      var c1 := Read(1, 0);
      var c2 := Read(2, 0);
      var c3 := Read(3, 0);
      var c4 := Read(4, 0);
      if c0 == CheckKey[0] && c1 == CheckKey[1] && c2 == CheckKey[2] && c3 == CheckKey[3] && c4 == CheckKey[4] {
        return;
      }
      Clean();
      WriteBytes(0, CheckKey);
      var index := 0;
      while index < |defaults|
        invariant index <= |defaults|
        invariant AfterSetAll(memory[..], defaults[index..]) == AfterSetAll(WriteRun(Cleared(), 0, CheckKey), defaults)
      {
        SetValue(defaults[index].0, defaults[index].1);
        index := index + 1;
      }
    }
  }
}
