/**
 * Fixed-width integers, options and substring search shared by the node models.
 * Integers are unbounded in Dafny; every place where the firmware relies on a
 * C integer width converts explicitly with the functions below.
 */
module Common {

  /** An unsigned 8-bit value (`uint8_t`, or a Java `byte` read as unsigned). */
  type byte = x: int | 0 <= x < 256

  /** A 32-bit unsigned value, the width of `millis()` and `unsigned long` on the boards. */
  type u32 = x: int | 0 <= x < 0x1_0000_0000

  const TWO32: int := 0x1_0000_0000

  /** A 64-bit unsigned value (`uint64_t`). */
  type u64 = x: int | 0 <= x < 0x1_0000_0000_0000_0000

  datatype Option<T> = None | Some(value: T)

  /** C conversion of any integer to `uint8_t`: the low 8 bits. */
  function ToU8(x: int): (r: byte)
    ensures 0 <= x < 256 ==> r == x
    ensures (r - x) % 256 == 0
  {
    x % 256
  }

  /** `now - since` evaluated in 32-bit unsigned arithmetic, as every timer check does. */
  function Elapsed(now: u32, since: u32): (d: u32)
    ensures since <= now ==> d == now - since
    ensures now < since ==> d == now - since + TWO32
  {
    (now - since) % TWO32
  }

  /** C's integer `/`, which truncates toward zero (Dafny's `/` is Euclidean). */
  function CDiv(a: int, b: int): (q: int)
    requires b != 0
    ensures a >= 0 && b > 0 ==> q == a / b
    ensures a < 0 && b > 0 ==> q == -((-a) / b)
  {
    var m := (if a < 0 then -a else a) / (if b < 0 then -b else b);
    if (a < 0) != (b < 0) then -m else m
  }

  /** `pat` occurs in `s` starting at position `i`. */
  ghost predicate OccursAt<T>(s: seq<T>, pat: seq<T>, i: int)
  {
    0 <= i && i + |pat| <= |s| && s[i..i + |pat|] == pat
  }

  /** `pat` occurs somewhere in `s`. */
  ghost predicate Contains<T>(s: seq<T>, pat: seq<T>)
  {
    exists i :: OccursAt(s, pat, i)
  }

  /** `strstr(s, pat) != NULL`: the search a C string library performs, checked at each start in turn. */
  function IsSubstring<T(==)>(pat: seq<T>, s: seq<T>): (r: bool)
    ensures r <==> Contains(s, pat)
    decreases |s|
  {
    ContainsStep(s, pat);
    if |pat| > |s| then false
    else if s[..|pat|] == pat then true
    else IsSubstring(pat, s[1..])
  }

  /** An occurrence is at the start or in the tail. */
  lemma ContainsStep<T>(s: seq<T>, pat: seq<T>)
    ensures |pat| > |s| ==> !Contains(s, pat)
    ensures |pat| <= |s| ==> (Contains(s, pat) <==> s[..|pat|] == pat || (|s| > 0 && Contains(s[1..], pat)))
  {
    if |pat| <= |s| {
      if Contains(s, pat) && s[..|pat|] != pat {
        var i :| OccursAt(s, pat, i);
        assert i > 0;
        assert OccursAt(s[1..], pat, i - 1) by {
          assert s[1..][i - 1..i - 1 + |pat|] == s[i..i + |pat|];
        }
      }
      if s[..|pat|] == pat {
        assert OccursAt(s, pat, 0);
      }
      if |s| > 0 && Contains(s[1..], pat) {
        var i :| OccursAt(s[1..], pat, i);
        assert s[1..][i..i + |pat|] == s[i + 1..i + 1 + |pat|];
        assert OccursAt(s, pat, i + 1);
      }
    }
  }
}
