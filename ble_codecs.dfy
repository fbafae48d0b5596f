/**
 * The byte codecs of the BLE nodes: hexadecimal UUID text to the 16 bytes the
 * BLE stack takes, and the `"[a, b, c]"` value text of a message to the bytes
 * of a characteristic notification (big-endian floats, or one `uint8_t`
 * per value).
 *
 * A `float` is represented by its four bytes in memory order (the bytes of
 * the `float_converter` union); the text-to-float conversion (`atof`) is a
 * parameter, since the model has no IEEE 754 arithmetic.
 */
module BleCodecs {
  import opened Common
  import IpCodec

  /*** Hexadecimal digits and UUIDs ***/

  predicate IsHexChar(c: char)
  {
    ('0' <= c <= '9') || ('a' <= c <= 'f') || ('A' <= c <= 'F')
  }

  /**
   * The hexadecimal digit for a nibble, in upper case (as the UUID constants
   * are written) or lower case: only the letters differ.
   */
  function HexDigit(v: nat, upper: bool): (c: char)
    requires v < 16
    ensures IsHexChar(c)
    ensures v < 10 <==> '0' <= c <= '9'
    ensures v >= 10 ==> (upper <==> 'A' <= c <= 'F')
  {
    if v < 10 then ('0' as int + v) as char
    else if upper then ('A' as int + v - 10) as char
    else ('a' as int + v - 10) as char
  }

  /**
   * `HEX_TO_UINT8(c)`: the value of a hexadecimal digit in either case, and 0
   * for any other character.
   */
  function HexValue(c: char): (v: nat)
    ensures v < 16
    ensures IsHexChar(c) ==> HexDigit(v, true) == c || HexDigit(v, false) == c
    ensures !IsHexChar(c) ==> v == 0
  {
    if '0' <= c <= '9' then c as int - '0' as int
    else if 'a' <= c <= 'f' then c as int - 'a' as int + 10
    else if 'A' <= c <= 'F' then c as int - 'A' as int + 10
    else 0
  }

  /** Both spellings of every nibble read back as that nibble. */
  lemma HexDigitRoundTrip(v: nat, upper: bool)
    requires v < 16
    ensures HexValue(HexDigit(v, upper)) == v
  {
  }

  /** `HEX_PAIR_TO_UINT8(high, low)`: `HEX_TO_UINT8(high) << 4 | HEX_TO_UINT8(low)`. */
  function HexPair(high: char, low: char): (b: byte)
    ensures b / 16 == HexValue(high) && b % 16 == HexValue(low)
  {
    HexValue(high) * 16 + HexValue(low)
  }

  /**
   * `UUID_TO_UINT8(uuid)`: sixteen hex pairs of the canonical
   * `8-4-4-4-12` text, skipping the dashes at positions 8, 13, 18 and 23.
   * The macro reads positions 0 to 35 without a check, so the text must hold
   * at least 36 characters.
   */
  function UuidToBytes(u: string): (b: seq<byte>)
    requires |u| >= 36
    ensures |b| == 16
  {
    seq(16, k requires 0 <= k < 16 => HexPair(u[PairStart(k)], u[PairStart(k) + 1]))
  }

  /** The number of dashes before position `p` of the canonical text. */
  function DashesBefore(p: nat): (n: nat)
    ensures n <= 4
  {
    if p <= 8 then 0 else if p <= 13 then 1 else if p <= 18 then 2 else if p <= 23 then 3 else 4
  }

  predicate IsDashPosition(p: nat)
  {
    p == 8 || p == 13 || p == 18 || p == 23
  }

  /** Character `p` of the canonical text: a dash, or the high or low digit of byte `(p - dashes) / 2`. */
  function UuidCharAt(b: seq<byte>, p: nat): (c: char)
    requires |b| == 16 && p < 36
  {
    if IsDashPosition(p) then '-'
    else
      var q := p - DashesBefore(p);
      if q % 2 == 0 then HexDigit(b[q / 2] / 16, true) else HexDigit(b[q / 2] % 16, true)
  }

  /** The canonical upper-case `8-4-4-4-12` text of a 16-byte UUID. */
  function FormatUuid(b: seq<byte>): (u: string)
    requires |b| == 16
    ensures |u| == 36
    ensures forall p :: 0 <= p < 36 ==> (u[p] == '-' <==> IsDashPosition(p))
  {
    seq(36, p requires 0 <= p < 36 => UuidCharAt(b, p))
  }

  /**
   * Where the hex pair of byte `k` starts: 0, 2, 4, 6, 9, 11, 14, 16, 19, 21,
   * 24, 26, 28, 30, 32, 34, the positions `UUID_TO_UINT8` reads.
   */
  function PairStart(k: nat): (p: nat)
    requires k < 16
    ensures p + 1 < 36 && !IsDashPosition(p) && !IsDashPosition(p + 1)
    ensures p - DashesBefore(p) == 2 * k && p + 1 - DashesBefore(p + 1) == 2 * k + 1
  {
    if k < 4 then 2 * k else if k < 6 then 2 * k + 1 else if k < 8 then 2 * k + 2
    else if k < 10 then 2 * k + 3 else 2 * k + 4
  }

  lemma FormatUuidPairs(b: seq<byte>, k: nat)
    requires |b| == 16 && k < 16
    ensures FormatUuid(b)[PairStart(k)] == HexDigit(b[k] / 16, true)
    ensures FormatUuid(b)[PairStart(k) + 1] == HexDigit(b[k] % 16, true)
  {
    var p := PairStart(k);
    assert FormatUuid(b)[p] == UuidCharAt(b, p);
    assert FormatUuid(b)[p + 1] == UuidCharAt(b, p + 1);
  }

  /** Decoding the formatted text of any 16 bytes gives those bytes back. */
  lemma UuidRoundTrip(b: seq<byte>)
    requires |b| == 16
    ensures UuidToBytes(FormatUuid(b)) == b
  {
    var u := FormatUuid(b);
    forall k | 0 <= k < 16
      ensures UuidToBytes(u)[k] == b[k]
    {
      FormatUuidPairs(b, k);
      HexDigitRoundTrip(b[k] / 16, true);
      HexDigitRoundTrip(b[k] % 16, true);
    }
  }

  /** The characters at the four dash positions are never read. */
  lemma UuidIgnoresDashes(u: string, c: char)
    requires |u| >= 36
    ensures UuidToBytes(u[8 := c]) == UuidToBytes(u)
    ensures UuidToBytes(u[13 := c]) == UuidToBytes(u)
    ensures UuidToBytes(u[18 := c]) == UuidToBytes(u)
    ensures UuidToBytes(u[23 := c]) == UuidToBytes(u)
  {
  }

  /*** Floats as bytes ***/

  /** The four bytes of a `float` in memory order (`float_converter.bytes[0..3]`). */
  type Word = s: seq<byte> | |s| == 4 witness [0, 0, 0, 0]

  /** An array entry C leaves uninitialised; the model reads it as all-zero bytes. */
  const ZeroWord: Word := [0, 0, 0, 0]

  /** The four bytes most significant first: `bytes[3], bytes[2], bytes[1], bytes[0]`. */
  function BigEndian(w: Word): (s: seq<byte>)
    ensures |s| == 4 && forall k :: 0 <= k < 4 ==> s[k] == w[3 - k]
  {
    [w[3], w[2], w[1], w[0]]
  }

  /** How a receiver reads the `i`th big-endian float of a notification. */
  function WordAt(bytes: seq<byte>, i: nat): (w: Word)
    requires 4 * i + 4 <= |bytes|
  {
    [bytes[4 * i + 3], bytes[4 * i + 2], bytes[4 * i + 1], bytes[4 * i]]
  }

  /*** The `"[a, b, c]"` value text ***/

  /** The delimiter set of `strtok(s, ", ")`. */
  predicate IsDelim(c: char)
  {
    c == ',' || c == ' '
  }

  predicate NoDelim(s: string)
  {
    forall j :: 0 <= j < |s| ==> !IsDelim(s[j])
  }

  predicate AllDelim(s: string)
  {
    forall j :: 0 <= j < |s| ==> IsDelim(s[j])
  }

  /** The length of the leading run of non-delimiters. */
  function RunLength(s: string): (n: nat)
    ensures n <= |s|
    ensures forall j :: 0 <= j < n ==> !IsDelim(s[j])
    ensures n < |s| ==> IsDelim(s[n])
  {
    if |s| == 0 || IsDelim(s[0]) then 0 else 1 + RunLength(s[1..])
  }

  /** The tokens successive `strtok(…, ", ")` calls return: the maximal runs of non-delimiters, in order. */
  function Strtok(s: string): (t: seq<string>)
    ensures forall i :: 0 <= i < |t| ==> |t[i]| > 0 && NoDelim(t[i])
    decreases |s|
  {
    if |s| == 0 then []
    else if IsDelim(s[0]) then Strtok(s[1..])
    else
      var n := RunLength(s);
      [s[..n]] + Strtok(s[n..])
  }

  /**
   * The text `message_tmp` holds: `slength - 1` characters copied from
   * position 1, then a terminator at `slength - 2`, which drops the first and
   * the last character. `slength` below 2 makes the buffer size or the
   * terminator index negative, which C leaves undefined.
   */
  function Inner(message: string, slength: byte): (r: string)
    requires 2 <= slength <= |message|
    ensures |r| == slength - 2
  {
    message[1..slength - 1]
  }

  function Min(a: int, b: int): int
  {
    if a < b then a else b
  }

  /**
   * The floats the token loop leaves in `fl_array`: `atof` of the first
   * `numFloats` tokens, then (when there are fewer tokens) uninitialised entries.
   */
  function ParsedFloats(tokens: seq<string>, numFloats: nat, atof: string -> Word): (f: seq<Word>)
    ensures |f| == numFloats
    ensures forall i :: 0 <= i < numFloats ==> f[i] == (if i < |tokens| then atof(tokens[i]) else ZeroWord)
  {
    seq(numFloats, i requires 0 <= i < numFloats => if i < |tokens| then atof(tokens[i]) else ZeroWord)
  }

  /**
   * `convertStringArrayToFloatBytes`: the floats of the value text, each
   * written as 4 bytes, most significant first, into `bytes[0 .. 4*numFloats)`.
   */
  method ConvertStringArrayToFloatBytes(message: string, slength: byte, bytes: array<byte>,
                                        numFloats: byte, atof: string -> Word)
    requires 2 <= slength <= |message|
    requires 4 * numFloats <= bytes.Length
    modifies bytes
    ensures bytes[..4 * numFloats] == EncodeBigEndian(ParsedFloats(Strtok(Inner(message, slength)), numFloats, atof))
    ensures bytes[4 * numFloats..] == old(bytes[4 * numFloats..])
  {
    var tokens := Strtok(Inner(message, slength));
    var flArray := ParseFloatTokens(tokens, numFloats, atof);
    WriteBigEndian(flArray[..], bytes);
  }

  /** The token loop: `fl_array[idl] = atof(token)` while tokens remain and `idl < num_floats`. */
  method ParseFloatTokens(tokens: seq<string>, numFloats: byte, atof: string -> Word) returns (flArray: array<Word>)
    ensures fresh(flArray)
    ensures flArray[..] == ParsedFloats(tokens, numFloats as nat, atof)
  {
    flArray := new Word[numFloats](_ => ZeroWord);
    var idl := 0;
    while idl < |tokens| && idl < numFloats as int
      invariant 0 <= idl <= numFloats && idl <= |tokens|
      invariant forall i :: 0 <= i < idl ==> flArray[i] == atof(tokens[i])
      invariant forall i :: idl <= i < numFloats ==> flArray[i] == ZeroWord
    {
      flArray[idl] := atof(tokens[idl]);
      idl := idl + 1;
    }
    assert flArray[..] == ParsedFloats(tokens, numFloats as nat, atof);
  }

  /** The conversion loop: float `idf` goes to `bytes[4*idf .. 4*idf+4)`, most significant byte first. */
  method WriteBigEndian(floats: seq<Word>, bytes: array<byte>)
    requires 4 * |floats| <= bytes.Length
    modifies bytes
    ensures bytes[..4 * |floats|] == EncodeBigEndian(floats)
    ensures bytes[4 * |floats|..] == old(bytes[4 * |floats|..])
  {
    for idf := 0 to |floats|
      invariant bytes[..4 * idf] == EncodeBigEndian(floats[..idf])
      invariant bytes[4 * idf..] == old(bytes[4 * idf..])
    {
      ghost var before := bytes[..];
      var fc := floats[idf];
      bytes[0 + 4 * idf] := fc[3];
      bytes[1 + 4 * idf] := fc[2];
      bytes[2 + 4 * idf] := fc[1];
      bytes[3 + 4 * idf] := fc[0];
      assert bytes[..4 * idf] == before[..4 * idf];
      assert floats[..idf + 1] == floats[..idf] + [floats[idf]];
      assert bytes[..4 * (idf + 1)] == bytes[..4 * idf] + BigEndian(floats[idf]);
    }
    assert floats[..|floats|] == floats;
  }

  /** The wire bytes of a float array: each float's bytes, most significant first. */
  function EncodeBigEndian(floats: seq<Word>): (s: seq<byte>)
    ensures |s| == 4 * |floats|
  {
    if |floats| == 0 then [] else EncodeBigEndian(floats[..|floats| - 1]) + BigEndian(floats[|floats| - 1])
  }

  /** A receiver reading the notification as big-endian floats gets back every float written. */
  lemma {:induction false} BigEndianRecovers(floats: seq<Word>)
    ensures forall i :: 0 <= i < |floats| ==> WordAt(EncodeBigEndian(floats), i) == floats[i]
  {
    if |floats| > 0 {
      var n := |floats| - 1;
      var prefix := EncodeBigEndian(floats[..n]);
      BigEndianRecovers(floats[..n]);
      forall i | 0 <= i < |floats|
        ensures WordAt(EncodeBigEndian(floats), i) == floats[i]
      {
        if i < n {
          assert WordAt(EncodeBigEndian(floats), i) == WordAt(prefix, i);
          assert floats[..n][i] == floats[i];
        }
      }
    }
  }

  /** The bytes the `uint8_t` converter writes: `(uint8_t)atoi` of at most `numUints` tokens. */
  function UInt8Values(message: string, slength: byte, numUints: nat): (v: seq<byte>)
    requires 2 <= slength <= |message|
    ensures |v| <= numUints && |v| <= |Strtok(Inner(message, slength))|
    ensures |v| == Min(numUints, |Strtok(Inner(message, slength))|)
    ensures forall i :: 0 <= i < |v| ==> v[i] == ToU8(IpCodec.Atoi(Strtok(Inner(message, slength))[i]))
  {
    var tokens := Strtok(Inner(message, slength));
    var n := Min(numUints, |tokens|);
    seq(n, i requires 0 <= i < n => ToU8(IpCodec.Atoi(tokens[i])))
  }

  /**
   * `convertStringArrayToUInt8Bytes`: one byte per token, at most
   * `numUints` of them; the rest of the buffer is left as it was.
   */
  method ConvertStringArrayToUInt8Bytes(message: string, slength: byte, bytes: array<byte>, numUints: byte)
    requires 2 <= slength <= |message|
    requires numUints <= bytes.Length
    modifies bytes
    ensures var v := UInt8Values(message, slength, numUints);
      bytes[..|v|] == v && bytes[|v|..] == old(bytes[|v|..])
  {
    var tokens := Strtok(Inner(message, slength));
    ghost var v := UInt8Values(message, slength, numUints);
    var idl := 0;
    while idl < |tokens| && idl < numUints as int
      invariant 0 <= idl <= |v|
      invariant bytes[..idl] == v[..idl]
      invariant bytes[|v|..] == old(bytes[|v|..])
    {
      bytes[idl] := ToU8(IpCodec.Atoi(tokens[idl]));
      idl := idl + 1;
    }
  }

  /*** Printing an array of values, and reading it back ***/

  /** `fields` joined with `sep` between neighbours. */
  function JoinWith(fields: seq<string>, sep: string): (s: string)
    decreases |fields|
  {
    if |fields| == 0 then ""
    else if |fields| == 1 then fields[0]
    else fields[0] + sep + JoinWith(fields[1..], sep)
  }

  function Decimals(values: seq<byte>): (d: seq<string>)
    ensures |d| == |values| && forall i :: 0 <= i < |values| ==> d[i] == IpCodec.Decimal(values[i])
  {
    seq(|values|, i requires 0 <= i < |values| => IpCodec.Decimal(values[i]))
  }

  /** `[v0<sep>v1<sep>…]`, the array text of a message value. */
  function ArrayText(values: seq<byte>, sep: string): (s: string)
  {
    "[" + JoinWith(Decimals(values), sep) + "]"
  }

  lemma {:induction false} RunOfToken(f: string, t: string)
    requires NoDelim(f) && (t == [] || IsDelim(t[0]))
    ensures RunLength(f + t) == |f|
    decreases |f|
  {
    if |f| > 0 {
      assert (f + t)[1..] == f[1..] + t;
      RunOfToken(f[1..], t);
    }
  }

  /** A token followed by end of text or a delimiter is returned whole. */
  lemma StrtokToken(f: string, t: string)
    requires |f| > 0 && NoDelim(f) && (t == [] || IsDelim(t[0]))
    ensures Strtok(f + t) == [f] + Strtok(t)
  {
    RunOfToken(f, t);
    assert (f + t)[..|f|] == f;
    assert (f + t)[|f|..] == t;
  }

  /** Leading delimiters are skipped. */
  lemma {:induction false} StrtokDelims(d: string, t: string)
    requires AllDelim(d)
    ensures Strtok(d + t) == Strtok(t)
    decreases |d|
  {
    if |d| > 0 {
      assert (d + t)[0] == d[0];
      assert (d + t)[1..] == d[1..] + t;
      StrtokDelims(d[1..], t);
    } else {
      assert d + t == t;
    }
  }

  /** Non-empty fields without delimiters, joined by a non-empty run of delimiters, tokenise back to the fields. */
  lemma {:induction false} StrtokJoin(fields: seq<string>, sep: string)
    requires forall i :: 0 <= i < |fields| ==> |fields[i]| > 0 && NoDelim(fields[i])
    requires |sep| > 0 && AllDelim(sep)
    ensures Strtok(JoinWith(fields, sep)) == fields
    decreases |fields|
  {
    if |fields| == 1 {
      StrtokToken(fields[0], []);
      assert fields[0] + [] == fields[0];
    } else if |fields| > 1 {
      var rest := JoinWith(fields[1..], sep);
      assert JoinWith(fields, sep) == fields[0] + (sep + rest);
      StrtokToken(fields[0], sep + rest);
      StrtokDelims(sep, rest);
      StrtokJoin(fields[1..], sep);
    }
  }

  lemma DecimalsAreTokens(values: seq<byte>)
    ensures forall i :: 0 <= i < |values| ==> |Decimals(values)[i]| > 0 && NoDelim(Decimals(values)[i])
  {
    forall i | 0 <= i < |values|
      ensures |Decimals(values)[i]| > 0 && NoDelim(Decimals(values)[i])
    {
      var d := Decimals(values)[i];
      assert IpCodec.AllDigits(d);
      forall j | 0 <= j < |d| ensures !IsDelim(d[j]) {
        assert IpCodec.IsDigit(d[j]);
      }
    }
  }

  /**
   * The `uint8_t` converter reads back any array of byte values printed
   * with a comma or comma-and-space separator, as long as the text fits a
   * `uint8_t` length and there are no more values than `numUints`.
   */
  lemma UInt8RoundTrip(values: seq<byte>, sep: string, numUints: nat)
    requires |sep| > 0 && AllDelim(sep)
    requires |ArrayText(values, sep)| < 256 && |values| <= numUints
    ensures UInt8Values(ArrayText(values, sep), |ArrayText(values, sep)|, numUints) == values
  {
    var s := ArrayText(values, sep);
    var joined := JoinWith(Decimals(values), sep);
    assert Inner(s, |s|) == joined;
    DecimalsAreTokens(values);
    StrtokJoin(Decimals(values), sep);
    var v := UInt8Values(s, |s|, numUints);
    forall i | 0 <= i < |values|
      ensures v[i] == values[i]
    {
      IpCodec.AtoiDecimal(values[i]);
    }
  }

  /** Extra values beyond `numUints` are ignored: only the first `numUints` come back. */
  lemma UInt8Truncates(values: seq<byte>, sep: string, numUints: nat)
    requires |sep| > 0 && AllDelim(sep)
    requires |ArrayText(values, sep)| < 256 && numUints <= |values|
    ensures UInt8Values(ArrayText(values, sep), |ArrayText(values, sep)|, numUints) == values[..numUints]
  {
    var s := ArrayText(values, sep);
    assert Inner(s, |s|) == JoinWith(Decimals(values), sep);
    DecimalsAreTokens(values);
    StrtokJoin(Decimals(values), sep);
    var v := UInt8Values(s, |s|, numUints);
    forall i | 0 <= i < numUints
      ensures v[i] == values[i]
    {
      IpCodec.AtoiDecimal(values[i]);
    }
  }

  /** A printed array of float texts yields exactly `atof` of each field, in order. */
  lemma FloatFieldsParsed(fields: seq<string>, sep: string, numFloats: nat, atof: string -> Word)
    requires forall i :: 0 <= i < |fields| ==> |fields[i]| > 0 && NoDelim(fields[i])
    requires |sep| > 0 && AllDelim(sep)
    requires |"[" + JoinWith(fields, sep) + "]"| < 256 && numFloats == |fields|
    ensures var s := "[" + JoinWith(fields, sep) + "]";
      forall i :: 0 <= i < numFloats ==> ParsedFloats(Strtok(Inner(s, |s|)), numFloats, atof)[i] == atof(fields[i])
  {
    var s := "[" + JoinWith(fields, sep) + "]";
    assert Inner(s, |s|) == JoinWith(fields, sep);
    StrtokJoin(fields, sep);
  }
}
