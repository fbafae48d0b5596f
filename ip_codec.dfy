/**
 * Dotted-quad IPv4 text: `BodynodesUtils.formatIP` (an `int` printed as four
 * decimal octets, lowest byte first), `BodynodesUtils.getInetAddressFromStr`
 * (Java `split("\\.")` and `Integer.parseInt`, null on failure) and the C++
 * `getIPAdressFromStr` (`strtok` on "." and `atoi`, each field cast to
 * `uint8_t`). Addresses are four octets in network order.
 */
module IpCodec {
  import opened Common

  /*** Decimal digits ***/

  predicate IsDigit(c: char)
  {
    '0' <= c <= '9'
  }

  predicate AllDigits(s: string)
  {
    forall i :: 0 <= i < |s| ==> IsDigit(s[i])
  }

  /** The value of a digit string, most significant digit first. */
  function DecimalValue(s: string): (v: nat)
    requires AllDigits(s)
  {
    if |s| == 0 then 0 else DecimalValue(s[..|s| - 1]) * 10 + (s[|s| - 1] as int - '0' as int)
  }

  /** `%d` of a non-negative value: its shortest decimal spelling. */
  function Decimal(n: nat): (s: string)
    ensures 1 <= |s| && AllDigits(s)
    ensures |s| > 1 ==> s[0] != '0'
    ensures n < 10 ==> |s| == 1
    ensures n < 256 ==> |s| <= 3
  {
    var d := [('0' as int + n % 10) as char];
    if n < 10 then d else Decimal(n / 10) + d
  }

  /** Reading a printed value back gives the value. */
  lemma {:induction false} DecimalRoundTrip(n: nat)
    ensures DecimalValue(Decimal(n)) == n
  {
    var d := [('0' as int + n % 10) as char];
    if n >= 10 {
      var s := Decimal(n / 10) + d;
      assert s[..|s| - 1] == Decimal(n / 10);
      DecimalRoundTrip(n / 10);
    }
  }

  /*** formatIP ***/

  /** The four octets of a Java `int`, lowest first: `ip & 0xff`, `ip >> 8 & 0xff`, `ip >> 16 & 0xff`, `ip >> 24 & 0xff`. */
  function Octets(ip: int): (o: seq<nat>)
    ensures |o| == 4 && forall k :: 0 <= k < 4 ==> o[k] < 256
  {
    var u := ip % TWO32;
    var r1 := u / 256;
    var r2 := r1 / 256;
    [u % 256, r1 % 256, r2 % 256, (r2 / 256) % 256]
  }

  /** The octets are the base-256 digits of the `int`'s 32-bit pattern, so no two patterns share a printed form. */
  lemma OctetsRecompose(ip: int)
    ensures var o := Octets(ip); o[0] + 256 * (o[1] + 256 * (o[2] + 256 * o[3])) == ip % TWO32
  {
    var u := ip % TWO32;
    var r1 := u / 256;
    var r2 := r1 / 256;
    assert r2 / 256 < 256 by {
      assert r1 < TWO32 / 256;
      assert r2 < TWO32 / 65536;
    }
    assert (r2 / 256) % 256 == r2 / 256;
  }

  function Dotted(o: seq<nat>): (s: string)
    requires |o| == 4
  {
    Decimal(o[0]) + "." + Decimal(o[1]) + "." + Decimal(o[2]) + "." + Decimal(o[3])
  }

  /** `formatIP(ip)`: "a.b.c.d" with a the lowest byte. */
  function FormatIp(ip: int): (s: string)
    requires -0x8000_0000 <= ip < 0x8000_0000
    ensures 7 <= |s| <= 15
  {
    Dotted(Octets(ip))
  }

  /**
   * Any `int` whose 32-bit pattern holds the bytes o, lowest first, prints
   * as o in that order: a little-endian address such as `DhcpInfo.gateway`
   * reads in the usual order, and a negative `int` prints its
   * two's-complement bytes.
   */
  lemma FormatIpOfBytes(o: seq<nat>, ip: int)
    requires |o| == 4 && forall k :: 0 <= k < 4 ==> o[k] < 256
    requires -0x8000_0000 <= ip < 0x8000_0000
    requires ip % TWO32 == o[0] + 256 * (o[1] + 256 * (o[2] + 256 * o[3]))
    ensures FormatIp(ip) == Dotted(o)
  {
    var u := ip % TWO32;
    var x2 := o[2] + 256 * o[3];
    var x1 := o[1] + 256 * x2;
    DivModDigit(u, o[0], x1);
    DivModDigit(x1, o[1], x2);
    DivModDigit(x2, o[2], o[3]);
    assert Octets(ip) == o;
  }

  /** The base-256 digit and the rest of d + 256 * rest. */
  lemma DivModDigit(n: int, d: nat, rest: nat)
    requires d < 256 && n == d + 256 * rest
    ensures n % 256 == d && n / 256 == rest
  {
  }

  /*** Java split and parseInt ***/

  /** `s.split(".")` keeping every field; see `GetInetAddressFromStr` for why trailing empty fields need no special case. */
  function Split(s: string, sep: char): (r: seq<string>)
    ensures |r| >= 1
    ensures forall k :: 0 <= k < |r| ==> sep !in r[k]
  {
    if |s| == 0 then [""]
    else
      var rest := Split(s[1..], sep);
      if s[0] == sep then [""] + rest else [[s[0]] + rest[0]] + rest[1..]
  }

  /** A field free of the separator is split off whole. */
  lemma {:induction false} SplitPrefix(a: string, sep: char, b: string)
    requires sep !in a
    ensures Split(a + [sep] + b, sep) == [a] + Split(b, sep)
  {
    if |a| > 0 {
      assert (a + [sep] + b)[1..] == a[1..] + [sep] + b;
      SplitPrefix(a[1..], sep, b);
      assert a == [a[0]] + a[1..];
    } else {
      assert (a + [sep] + b)[1..] == b;
    }
  }

  lemma SplitWhole(a: string, sep: char)
    requires sep !in a
    ensures Split(a, sep) == [a]
  {
    if |a| > 0 {
      SplitWhole(a[1..], sep);
      assert a == [a[0]] + a[1..];
    }
  }

  const IntMin: int := -0x8000_0000
  const IntMax: int := 0x7FFF_FFFF

  /**
   * `Integer.parseInt(s)` on ASCII text: an optional '+' or '-', at least one
   * digit '0'..'9', the value within `int`; None where Java throws. Java also
   * accepts other Unicode decimal digits, which this function rejects.
   */
  function ParseInt(s: string): (r: Option<int>)
    ensures r.Some? ==> IntMin <= r.value <= IntMax
    ensures AllDigits(s) && |s| > 0 && DecimalValue(s) <= IntMax ==> r == Some(DecimalValue(s))
    ensures |s| == 0 ==> r.None?
  {
    if |s| == 0 then None
    else
      var neg := s[0] == '-';
      var body := if s[0] == '-' || s[0] == '+' then s[1..] else s;
      if |body| == 0 || !AllDigits(body) then None
      else
        var v: int := if neg then -(DecimalValue(body) as int) else DecimalValue(body);
        if IntMin <= v <= IntMax then Some(v) else None
  }

  /**
   * `getInetAddressFromStr(address)`: the first four '.'-separated fields as
   * integers, each cast to a byte; null when a field is missing or is not an
   * `int`. Java's `split` drops trailing empty fields, but an empty field
   * among the first four fails `parseInt` either way, so the result is the
   * same. Fields after the fourth are ignored.
   */
  function GetInetAddressFromStr(address: string): (r: Option<seq<byte>>)
    ensures r.Some? ==> |r.value| == 4
  {
    var fields := Split(address, '.');
    if |fields| < 4 then None
    else
      var v0 := ParseInt(fields[0]);
      var v1 := ParseInt(fields[1]);
      var v2 := ParseInt(fields[2]);
      var v3 := ParseInt(fields[3]);
      if v0.None? || v1.None? || v2.None? || v3.None? then None
      else Some([ToU8(v0.value), ToU8(v1.value), ToU8(v2.value), ToU8(v3.value)])
  }

  /** Four separator-free fields joined by '.' split back into those fields. */
  lemma SplitFour(d0: string, d1: string, d2: string, d3: string)
    requires '.' !in d0 && '.' !in d1 && '.' !in d2 && '.' !in d3
    ensures Split(d0 + "." + d1 + "." + d2 + "." + d3, '.') == [d0, d1, d2, d3]
  {
    assert d0 + "." + d1 + "." + d2 + "." + d3 == d0 + ['.'] + (d1 + ['.'] + (d2 + ['.'] + d3));
    SplitPrefix(d0, '.', d1 + ['.'] + (d2 + ['.'] + d3));
    SplitPrefix(d1, '.', d2 + ['.'] + d3);
    SplitPrefix(d2, '.', d3);
    SplitWhole(d3, '.');
  }

  lemma DottedSplit(o: seq<nat>)
    requires |o| == 4
    ensures Split(Dotted(o), '.') == [Decimal(o[0]), Decimal(o[1]), Decimal(o[2]), Decimal(o[3])]
  {
    DigitsHaveNoDot(Decimal(o[0]));
    DigitsHaveNoDot(Decimal(o[1]));
    DigitsHaveNoDot(Decimal(o[2]));
    DigitsHaveNoDot(Decimal(o[3]));
    SplitFour(Decimal(o[0]), Decimal(o[1]), Decimal(o[2]), Decimal(o[3]));
  }

  lemma DigitsHaveNoDot(s: string)
    requires AllDigits(s)
    ensures '.' !in s
  {
  }

  /** Four printed values each within `int` parse back, each kept modulo 256 by the byte cast. */
  lemma DottedThenParse(o: seq<nat>)
    requires |o| == 4 && o[0] <= IntMax && o[1] <= IntMax && o[2] <= IntMax && o[3] <= IntMax
    ensures GetInetAddressFromStr(Dotted(o)) == Some([ToU8(o[0]), ToU8(o[1]), ToU8(o[2]), ToU8(o[3])])
  {
    DottedSplit(o);
    DecimalRoundTrip(o[0]);
    DecimalRoundTrip(o[1]);
    DecimalRoundTrip(o[2]);
    DecimalRoundTrip(o[3]);
  }

  /** Parsing a formatted address returns its octets. */
  lemma FormatThenParse(ip: int)
    requires IntMin <= ip <= IntMax
    ensures GetInetAddressFromStr(FormatIp(ip)) == Some(Octets(ip))
  {
    DottedThenParse(Octets(ip));
  }

  /** A minus sign before a printed value gives its negation, so "-1" casts to the byte 255. */
  lemma ParseNegative(n: nat)
    requires n <= -IntMin
    ensures ParseInt("-" + Decimal(n)) == Some(-(n as int))
  {
    var s := "-" + Decimal(n);
    assert s[1..] == Decimal(n);
    DecimalRoundTrip(n);
  }

  /** Three fields leave the fourth index out of range: null. */
  lemma JavaRejectsThreeFields(a: string, b: string, c: string)
    requires '.' !in a && '.' !in b && '.' !in c
    ensures GetInetAddressFromStr(a + "." + b + "." + c) == None
  {
    assert a + "." + b + "." + c == a + ['.'] + (b + ['.'] + c);
    SplitPrefix(a, '.', b + ['.'] + c);
    SplitPrefix(b, '.', c);
    SplitWhole(c, '.');
  }

  /** An empty field among the first four does not parse: null. */
  lemma JavaRejectsEmptyField(a: string, b: string, c: string)
    requires '.' !in a && '.' !in b && '.' !in c
    ensures GetInetAddressFromStr(a + "." + "" + "." + b + "." + c) == None
  {
    SplitFour(a, "", b, c);
  }

  /*** C strtok and atoi ***/

  /** The tokens `strtok` returns for one delimiter: the non-empty fields in order. */
  function Tokens(s: string, sep: char): (r: seq<string>)
    ensures forall k :: 0 <= k < |r| ==> |r[k]| > 0 && sep !in r[k]
  {
    NonEmptyDrops(Split(s, sep));
    NonEmpty(Split(s, sep))
  }

  /** The fields that have text, in order. */
  function NonEmpty(fields: seq<string>): (r: seq<string>)
    ensures forall k :: 0 <= k < |r| ==> r[k] in fields
  {
    if |fields| == 0 then []
    else if |fields[0]| == 0 then NonEmpty(fields[1..])
    else [fields[0]] + NonEmpty(fields[1..])
  }

  /** `strtok` only drops empty fields: where every field has text, the tokens are the fields. */
  lemma {:induction false} NonEmptyKeeps(fields: seq<string>)
    requires forall k :: 0 <= k < |fields| ==> |fields[k]| > 0
    ensures NonEmpty(fields) == fields
  {
    if |fields| > 0 {
      NonEmptyKeeps(fields[1..]);
      assert fields == [fields[0]] + fields[1..];
    }
  }

  /** Every token is non-empty. */
  lemma {:induction false} NonEmptyDrops(fields: seq<string>)
    ensures forall k :: 0 <= k < |NonEmpty(fields)| ==> |NonEmpty(fields)[k]| > 0
  {
    if |fields| > 0 {
      NonEmptyDrops(fields[1..]);
    }
  }

  predicate IsSpace(c: char)
  {
    c == ' ' || c == '\t' || c == '\n' || c == '\r' || c == 11 as char || c == 12 as char
  }

  /** The leading run of digits. */
  function DigitPrefix(s: string): (d: string)
    ensures AllDigits(d) && |d| <= |s| && d == s[..|d|]
    ensures |d| < |s| ==> !IsDigit(s[|d|])
  {
    if |s| == 0 || !IsDigit(s[0]) then "" else [s[0]] + DigitPrefix(s[1..])
  }

  /** `atoi(s)`: leading white space, an optional sign, then the longest digit run; 0 when there is none. */
  function Atoi(s: string): (v: int)
    ensures AllDigits(s) ==> v == DecimalValue(s)
  {
    if |s| > 0 && IsSpace(s[0]) then Atoi(s[1..])
    else if |s| > 0 && s[0] == '-' then -(DecimalValue(DigitPrefix(s[1..])) as int)
    else if |s| > 0 && s[0] == '+' then DecimalValue(DigitPrefix(s[1..]))
    else
      (AllDigitsPrefix(s); DecimalValue(DigitPrefix(s)))
  }

  lemma AllDigitsPrefix(s: string)
    ensures AllDigits(s) ==> DigitPrefix(s) == s
  {
    if |s| > 0 && AllDigits(s) {
      assert AllDigits(s[1..]) by {
        forall i | 0 <= i < |s[1..]| ensures IsDigit(s[1..][i]) {
          assert s[1..][i] == s[i + 1];
        }
      }
      AllDigitsPrefix(s[1..]);
    }
  }

  /**
   * `getIPAdressFromStr(address)`: the text is copied into a buffer of
   * `(length + 1) % 256` bytes (the length is held in a `uint8_t`), so a text
   * of 255 or more characters is cut short; then the first four tokens are
   * read with `atoi` and kept modulo 256. Fewer than four tokens make `atoi`
   * read a null pointer, which C leaves undefined: `None` here.
   */
  function GetIpAddressFromStr(address: string): (r: Option<seq<byte>>)
    ensures r.Some? ==> |r.value| == 4
  {
    var len := (|address| + 1) % 256;
    if len == 0 then None
    else
      var t := Tokens(address[..len - 1], '.');
      if |t| < 4 then None
      else Some([ToU8(Atoi(t[0])), ToU8(Atoi(t[1])), ToU8(Atoi(t[2])), ToU8(Atoi(t[3]))])
  }

  /** The tokens of a dotted address are its four printed values. */
  lemma DottedTokens(o: seq<nat>)
    requires |o| == 4
    ensures Tokens(Dotted(o), '.') == [Decimal(o[0]), Decimal(o[1]), Decimal(o[2]), Decimal(o[3])]
  {
    DottedSplit(o);
    NonEmptyKeeps([Decimal(o[0]), Decimal(o[1]), Decimal(o[2]), Decimal(o[3])]);
  }

  /** A dotted address printed from four values is read back by the C parser, each value modulo 256. */
  lemma DottedThenStrtok(o: seq<nat>)
    requires |o| == 4 && |Dotted(o)| < 255
    ensures GetIpAddressFromStr(Dotted(o)) == Some([ToU8(o[0]), ToU8(o[1]), ToU8(o[2]), ToU8(o[3])])
  {
    DottedTokens(o);
    StrtokShort(Dotted(o));
    AtoiDecimal(o[0]);
    AtoiDecimal(o[1]);
    AtoiDecimal(o[2]);
    AtoiDecimal(o[3]);
  }

  /** A text shorter than 255 characters is read whole: its first four tokens through `atoi`. */
  lemma StrtokShort(s: string)
    requires |s| < 255 && |Tokens(s, '.')| >= 4
    ensures var t := Tokens(s, '.');
      GetIpAddressFromStr(s) == Some([ToU8(Atoi(t[0])), ToU8(Atoi(t[1])), ToU8(Atoi(t[2])), ToU8(Atoi(t[3]))])
  {
    var len := (|s| + 1) % 256;
    assert len == |s| + 1;
    assert s[..len - 1] == s;
  }

  lemma AtoiDecimal(n: nat)
    ensures Atoi(Decimal(n)) == n
  {
    DecimalRoundTrip(n);
  }

  /** Every octet address survives formatting and the C parse. */
  lemma OctetsThenStrtok(o: seq<nat>)
    requires |o| == 4 && forall k :: 0 <= k < 4 ==> o[k] < 256
    ensures GetIpAddressFromStr(Dotted(o)) == Some([o[0] as byte, o[1] as byte, o[2] as byte, o[3] as byte])
  {
    DottedThenStrtok(o);
  }

  /** Unlike the Java parser, `strtok` skips an empty field: a doubled dot reads as one. */
  lemma StrtokSkipsEmptyField(a: string, b: string)
    requires '.' !in a
    ensures Tokens(a + "." + "." + b, '.') == Tokens(a + "." + b, '.')
  {
    assert a + "." + "." + b == a + ['.'] + (['.'] + b);
    assert a + "." + b == a + ['.'] + b;
    SplitPrefix(a, '.', ['.'] + b);
    SplitPrefix(a, '.', b);
    assert Split(['.'] + b, '.') == [""] + Split(b, '.') by {
      SplitPrefix("", '.', b);
      assert "" + ['.'] + b == ['.'] + b;
    }
    var rest := Split(b, '.');
    assert ([""] + rest)[1..] == rest;
    assert ([a] + ([""] + rest))[1..] == [""] + rest;
    assert ([a] + rest)[1..] == rest;
    assert NonEmpty([""] + rest) == NonEmpty(rest);
    if |a| == 0 {
      assert NonEmpty([a] + ([""] + rest)) == NonEmpty([""] + rest);
      assert NonEmpty([a] + rest) == NonEmpty(rest);
    } else {
      assert NonEmpty([a] + ([""] + rest)) == [a] + NonEmpty([""] + rest);
      assert NonEmpty([a] + rest) == [a] + NonEmpty(rest);
    }
  }
}
