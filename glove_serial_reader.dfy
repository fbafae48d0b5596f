/**
 * `BnGloveSensorReaderSerial`: a glove whose readings arrive as text lines
 * on the serial port. `checkAllOk` gathers bytes into the current line until
 * a carriage return or line feed; `getData` reads nine integers out of a
 * finished line with `strtol`.
 *
 * The serial receive buffer is the field `serial`, the bytes not yet read.
 * `long` and `int` are 32 bits wide on the boards this reader runs on.
 */
module GloveSerialReader {
  import opened Common
  import opened IpCodec
  import opened Datatypes

  /** How many values `getData` fills. */
  const NumValues: nat := 9

  const LongMax: int := 0x7fff_ffff
  const LongMin: int := -0x8000_0000

  /*** Line accumulation ***/

  predicate IsEol(b: byte)
  {
    b == 13 || b == 10
  }

  predicate NoEol(s: seq<byte>)
  {
    forall j :: 0 <= j < |s| ==> !IsEol(s[j])
  }

  /** The position of the first CR or LF, or the length when there is none. */
  function FirstEol(s: seq<byte>): (i: nat)
    ensures i <= |s| && NoEol(s[..i])
    ensures i < |s| ==> IsEol(s[i])
  {
    if |s| == 0 then 0
    else if IsEol(s[0]) then 0
    else
      var i := 1 + FirstEol(s[1..]);
      assert s[..i] == [s[0]] + s[1..][..i - 1];
      i
  }

  /** A line followed by its terminator ends exactly there, whatever comes after. */
  lemma FirstEolOfLine(line: seq<byte>, eol: byte, rest: seq<byte>)
    requires NoEol(line) && IsEol(eol)
    ensures FirstEol(line + [eol] + rest) == |line|
  {
    var s := line + [eol] + rest;
    assert s[|line|] == eol;
    assert forall j :: 0 <= j < |line| ==> s[j] == line[j];
  }

  /**
   * `String((char)(byteVal))`: the C string of one character and its
   * terminator, so byte 0 gives the empty String.
   */
  function CharString(b: byte): (cs: string)
    ensures b == 0 <==> cs == ""
    ensures b != 0 ==> cs == [b as char]
  {
    if b == 0 then "" else [b as char]
  }

  /** The line text that `String((char)(byteVal))` appends for the bytes in turn: every byte but 0. */
  function Chars(bs: seq<byte>): (cs: string)
    ensures |cs| <= |bs|
  {
    if |bs| == 0 then "" else Chars(bs[..|bs| - 1]) + CharString(bs[|bs| - 1])
  }

  /** Bytes with no 0 among them each become the character with that code. */
  lemma {:induction false} CharsNoNul(bs: seq<byte>)
    requires NoNul(bs)
    ensures |Chars(bs)| == |bs| && forall j :: 0 <= j < |bs| ==> Chars(bs)[j] as int == bs[j]
  {
    if |bs| > 0 {
      var front := bs[..|bs| - 1];
      assert NoNul(front) by {
        forall j | 0 <= j < |front| ensures front[j] != 0 {
          assert front[j] == bs[j];
        }
      }
      CharsNoNul(front);
    }
  }

  /** The line never holds a 0 character, whatever bytes arrived. */
  lemma {:induction false} CharsWithoutNul(bs: seq<byte>)
    ensures forall j :: 0 <= j < |Chars(bs)| ==> Chars(bs)[j] != 0 as char
  {
    if |bs| > 0 {
      CharsWithoutNul(bs[..|bs| - 1]);
    }
  }

  predicate NoNul(bs: seq<byte>)
  {
    forall j :: 0 <= j < |bs| ==> bs[j] != 0
  }

  /** One more byte appends its `String`. */
  lemma CharsAppend(bs: seq<byte>, b: byte)
    ensures Chars(bs + [b]) == Chars(bs) + CharString(b)
  {
    assert (bs + [b])[..|bs|] == bs;
  }

  /** A 0 byte adds nothing to the line, wherever it arrives. */
  lemma {:induction false} CharsSkipsNul(a: seq<byte>, b: seq<byte>)
    ensures Chars(a + [0] + b) == Chars(a + b)
    decreases |b|
  {
    if |b| == 0 {
      assert a + [0] + b == a + [0] && a + b == a;
      assert (a + [0])[..|a|] == a;
    } else {
      var b' := b[..|b| - 1];
      assert (a + [0] + b)[..|a + [0] + b| - 1] == a + [0] + b';
      assert (a + b)[..|a + b| - 1] == a + b';
      CharsSkipsNul(a, b');
    }
  }

  /*** strtol ***/

  /** The value of a `strtol` call and where it leaves the end pointer, as the text from there on. */
  datatype Parsed = Parsed(value: int, rest: string)

  /** Where the white space starting at `p` ends. */
  function SkipSpaces(s: string, p: nat): (q: nat)
    requires p <= |s|
    ensures p <= q <= |s| && (q < |s| ==> !IsSpace(s[q]))
    decreases |s| - p
  {
    if p < |s| && IsSpace(s[p]) then SkipSpaces(s, p + 1) else p
  }

  /** Where the run of digits starting at `p` ends. */
  function DigitEnd(s: string, p: nat): (q: nat)
    requires p <= |s|
    ensures p <= q <= |s| && (q < |s| ==> !IsDigit(s[q]))
    decreases |s| - p
  {
    if p < |s| && IsDigit(s[p]) then DigitEnd(s, p + 1) else p
  }

  function DigitValue(c: char): nat
  {
    if IsDigit(c) then c as int - '0' as int else 0
  }

  /** The value of the digits from `lo` up to `hi`, most significant first. */
  function Magnitude(s: string, lo: nat, hi: nat): nat
    requires lo <= hi <= |s|
    decreases hi
  {
    if hi == lo then 0 else Magnitude(s, lo, hi - 1) * 10 + DigitValue(s[hi - 1])
  }

  function Signed(negative: bool, magnitude: nat): int
  {
    if negative then -(magnitude as int) else magnitude
  }

  /** The overflow rule of `strtol`: out-of-range values saturate at `LONG_MAX` / `LONG_MIN`. */
  function ClampLong(x: int): (r: int)
    ensures LongMin <= r <= LongMax
    ensures LongMin <= x <= LongMax ==> r == x
    ensures x > LongMax ==> r == LongMax
    ensures x < LongMin ==> r == LongMin
  {
    if x > LongMax then LongMax else if x < LongMin then LongMin else x
  }

  /**
   * `strtol(p, &end, 10)`: white space, an optional sign and the longest
   * digit run. With no digit at all the value is 0 and the end pointer is
   * left where it was, white space included.
   */
  function Strtol(s: string): (r: Parsed)
    ensures LongMin <= r.value <= LongMax
    ensures |r.rest| <= |s|
  {
    var t := SkipSpaces(s, 0);
    var negative := t < |s| && s[t] == '-';
    var u := if t < |s| && (s[t] == '-' || s[t] == '+') then t + 1 else t;
    var e := DigitEnd(s, u);
    if e == u then Parsed(0, s)
    else Parsed(ClampLong(Signed(negative, Magnitude(s, u, e))), s[e..])
  }

  /** `n` consecutive `strtol` calls, each starting where the previous one stopped. */
  function ParseValues(s: string, n: nat): (vals: seq<int>)
    ensures |vals| == n
    ensures forall j :: 0 <= j < n ==> LongMin <= vals[j] <= LongMax
    decreases n
  {
    if n == 0 then [] else
      var r := Strtol(s);
      [r.value] + ParseValues(r.rest, n - 1)
  }

  lemma ParseValuesStep(s: string, n: nat)
    requires n > 0
    ensures ParseValues(s, n) == [Strtol(s).value] + ParseValues(Strtol(s).rest, n - 1)
  {
  }

  /** The call that reads value c of a parse resumes where the calls before it stopped. */
  lemma ParseFrom(p: string, m: nat, total: seq<int>, c: nat)
    requires m > 0 && c + m == |total| && ParseValues(p, m) == total[c..]
    ensures Strtol(p).value == total[c] && ParseValues(Strtol(p).rest, m - 1) == total[c + 1..]
  {
    ParseValuesStep(p, m);
    assert total[c..][1..] == total[c + 1..];
  }

  lemma {:induction false} SkipSpacesTo(s: string, p: nat, q: nat)
    requires p <= q <= |s|
    requires forall j :: p <= j < q ==> IsSpace(s[j])
    requires q == |s| || !IsSpace(s[q])
    ensures SkipSpaces(s, p) == q
    decreases q - p
  {
    if p < q {
      SkipSpacesTo(s, p + 1, q);
    }
  }

  lemma {:induction false} DigitEndAt(s: string, p: nat, q: nat)
    requires p <= q <= |s|
    requires forall j :: p <= j < q ==> IsDigit(s[j])
    requires q == |s| || !IsDigit(s[q])
    ensures DigitEnd(s, p) == q
    decreases q - p
  {
    if p < q {
      DigitEndAt(s, p + 1, q);
    }
  }

  /** The digits read inside a longer text have the value they have on their own. */
  lemma {:induction false} MagnitudeShift(s: string, off: nat, d: string, k: nat)
    requires k <= |d| && off + |d| <= |s|
    requires forall j :: 0 <= j < |d| ==> s[off + j] == d[j]
    ensures Magnitude(s, off, off + k) == Magnitude(d, 0, k)
    decreases k
  {
    if k > 0 {
      MagnitudeShift(s, off, d, k - 1);
      assert s[off + (k - 1)] == d[k - 1];
    }
  }

  /** On digit strings this is the decimal value read elsewhere in the model. */
  lemma {:induction false} MagnitudeIsDecimal(d: string)
    requires AllDigits(d)
    ensures Magnitude(d, 0, |d|) == DecimalValue(d)
  {
    if |d| > 0 {
      var e := d[..|d| - 1];
      assert AllDigits(e);
      MagnitudeShift(d, 0, e, |e|);
      MagnitudeIsDecimal(e);
    }
  }

  /*** Lines of numbers ***/

  /** One number as it appears in a line: an optional minus sign, then digits. */
  datatype Field = Field(negative: bool, digits: string)

  predicate ValidField(f: Field)
  {
    |f.digits| > 0 && AllDigits(f.digits)
  }

  predicate AllValid(fields: seq<Field>)
  {
    forall i :: 0 <= i < |fields| ==> ValidField(fields[i])
  }

  function FieldText(f: Field): string
  {
    (if f.negative then "-" else "") + f.digits
  }

  /** The value `strtol` reads from a field: its signed magnitude, saturated to a `long`. */
  function FieldValue(f: Field): (v: int)
    requires ValidField(f)
    ensures LongMin <= v <= LongMax
    ensures LongMin <= Signed(f.negative, Magnitude(f.digits, 0, |f.digits|)) <= LongMax ==>
      v == Signed(f.negative, Magnitude(f.digits, 0, |f.digits|))
  {
    ClampLong(Signed(f.negative, Magnitude(f.digits, 0, |f.digits|)))
  }

  function FieldValues(fields: seq<Field>): (vals: seq<int>)
    requires AllValid(fields)
    ensures |vals| == |fields|
  {
    if |fields| == 0 then [] else [FieldValue(fields[0])] + FieldValues(fields[1..])
  }

  /** Fields with one space between them. */
  function Joined(fields: seq<Field>): string
  {
    if |fields| == 0 then ""
    else if |fields| == 1 then FieldText(fields[0])
    else FieldText(fields[0]) + (" " + Joined(fields[1..]))
  }

  predicate AllSpaces(s: string)
  {
    forall j :: 0 <= j < |s| ==> IsSpace(s[j])
  }

  /**
   * Where a field sits in a text: white space up to `t`, the sign, the
   * digits `d` from `u` on, and then a character that is not a digit.
   */
  predicate FieldAt(s: string, t: nat, f: Field, u: nat)
  {
    ValidField(f) && t < |s| && u == t + (if f.negative then 1 else 0) && u + |f.digits| <= |s| &&
    (forall j :: 0 <= j < t ==> IsSpace(s[j])) &&
    s[t] == (if f.negative then '-' else f.digits[0]) &&
    (forall j :: 0 <= j < |f.digits| ==> s[u + j] == f.digits[j]) &&
    (u + |f.digits| == |s| || !IsDigit(s[u + |f.digits|]))
  }

  /** `strtol` reads a field, after any white space, and stops right after it. */
  lemma StrtolReadsField(lead: string, f: Field, rest: string)
    requires AllSpaces(lead) && ValidField(f)
    requires |rest| == 0 || !IsDigit(rest[0])
    ensures Strtol(lead + (FieldText(f) + rest)) == Parsed(FieldValue(f), rest)
  {
    var s := lead + (FieldText(f) + rest);
    var u := |lead| + (if f.negative then 1 else 0);
    assert Strtol(s) == Parsed(FieldValue(f), s[u + |f.digits|..]) by {
      FieldLayout(lead, f, rest);
      StrtolAtField(s, |lead|, f, u);
    }
    assert s[u + |f.digits|..] == rest by {
      FieldLayout(lead, f, rest);
    }
  }

  lemma FieldLayout(lead: string, f: Field, rest: string)
    requires AllSpaces(lead) && ValidField(f)
    requires |rest| == 0 || !IsDigit(rest[0])
    ensures FieldAt(lead + (FieldText(f) + rest), |lead|, f, |lead| + (if f.negative then 1 else 0))
    ensures (lead + (FieldText(f) + rest))[|lead| + (if f.negative then 1 else 0) + |f.digits|..] == rest
  {
    var sign := if f.negative then "-" else "";
    var s := lead + (FieldText(f) + rest);
    var d := f.digits;
    var u := |lead| + |sign|;
    assert s == (lead + sign) + (d + rest);
    assert forall j :: 0 <= j < |lead| ==> s[j] == lead[j];
    assert forall j :: 0 <= j < |d| ==> s[u + j] == d[j];
    assert s[u + |d|..] == rest;
  }

  lemma StrtolAtField(s: string, t: nat, f: Field, u: nat)
    requires FieldAt(s, t, f, u)
    ensures Strtol(s) == Parsed(FieldValue(f), s[u + |f.digits|..])
  {
    var d := f.digits;
    var e := u + |d|;
    assert IsDigit(d[0]);
    SkipSpacesTo(s, 0, t);
    assert forall j :: u <= j < e ==> IsDigit(s[j]) by {
      forall j | u <= j < e
        ensures IsDigit(s[j])
      {
        assert s[u + (j - u)] == d[j - u];
      }
    }
    DigitEndAt(s, u, e);
    MagnitudeShift(s, u, d, |d|);
    StrtolParts(s, t, u, e);
    assert (s[t] == '-') == f.negative;
  }

  /** `Strtol` once the end of the white space, the start of the digits and their end are known. */
  lemma StrtolParts(s: string, t: nat, u: nat, e: nat)
    requires t < |s| && SkipSpaces(s, 0) == t
    requires u == if s[t] == '-' || s[t] == '+' then t + 1 else t
    requires u <= |s| && DigitEnd(s, u) == e && e > u
    ensures Strtol(s) == Parsed(ClampLong(Signed(s[t] == '-', Magnitude(s, u, e))), s[e..])
  {
  }

  /** `k` zero values. */
  function Zeros(k: nat): (z: seq<int>)
    ensures |z| == k && forall j :: 0 <= j < k ==> z[j] == 0
  {
    if k == 0 then [] else [0] + Zeros(k - 1)
  }

  /** A blank remainder yields 0 for every further call. */
  lemma {:induction false} BlankParsesZeros(lead: string, n: nat)
    requires AllSpaces(lead)
    ensures ParseValues(lead, n) == Zeros(n)
  {
    if n > 0 {
      SkipSpacesTo(lead, 0, |lead|);
      BlankParsesZeros(lead, n - 1);
    }
  }

  /** A field at the front of the text gives the first value; the calls after it start on what follows. */
  lemma ParseFieldThen(lead: string, f: Field, tail: string, n: nat)
    requires AllSpaces(lead) && ValidField(f) && n > 0
    requires |tail| == 0 || !IsDigit(tail[0])
    ensures ParseValues(lead + (FieldText(f) + tail), n) == [FieldValue(f)] + ParseValues(tail, n - 1)
  {
    StrtolReadsField(lead, f, tail);
    ParseValuesStep(lead + (FieldText(f) + tail), n);
  }

  /**
   * A line of space-separated fields gives their values back in order, and
   * 0 for each value the line is short of.
   */
  lemma {:induction false} JoinedRoundTrip(lead: string, fields: seq<Field>, n: nat)
    requires AllSpaces(lead) && AllValid(fields) && |fields| <= n
    ensures ParseValues(lead + Joined(fields), n) == FieldValues(fields) + Zeros(n - |fields|)
    decreases |fields|
  {
    if |fields| == 0 {
      NoField(lead, fields, n);
    } else if |fields| == 1 {
      LastField(lead, fields, n);
    } else {
      ValidRest(fields);
      JoinedRoundTrip(" ", fields[1..], n - 1);
      NextField(lead, fields, n);
    }
  }

  /** A line with no field at all. */
  lemma NoField(lead: string, fields: seq<Field>, n: nat)
    requires AllSpaces(lead) && |fields| == 0
    ensures ParseValues(lead + Joined(fields), n) == FieldValues(fields) + Zeros(n)
  {
    assert lead + Joined(fields) == lead;
    BlankParsesZeros(lead, n);
  }

  lemma ValidRest(fields: seq<Field>)
    requires AllValid(fields) && |fields| > 0
    ensures AllValid(fields[1..])
  {
  }

  /** The last field of a line, followed by nothing. */
  lemma LastField(lead: string, fields: seq<Field>, n: nat)
    requires AllSpaces(lead) && AllValid(fields) && |fields| == 1 && n >= 1
    ensures ParseValues(lead + Joined(fields), n) == FieldValues(fields) + Zeros(n - 1)
  {
    assert Joined(fields) == FieldText(fields[0]) + "";
    ParseFieldThen(lead, fields[0], "", n);
    BlankParsesZeros("", n - 1);
    assert FieldValues(fields) == [FieldValue(fields[0])];
  }

  /** One field, one space and a line the calls after it read as `more` values. */
  lemma NextField(lead: string, fields: seq<Field>, n: nat)
    requires AllSpaces(lead) && AllValid(fields) && 2 <= |fields| <= n
    requires ParseValues(" " + Joined(fields[1..]), n - 1) == FieldValues(fields[1..]) + Zeros(n - |fields|)
    ensures ParseValues(lead + Joined(fields), n) == FieldValues(fields) + Zeros(n - |fields|)
  {
    var tail := " " + Joined(fields[1..]);
    var first := [FieldValue(fields[0])];
    assert ParseValues(lead + Joined(fields), n) == first + ParseValues(tail, n - 1) by {
      assert lead + Joined(fields) == lead + (FieldText(fields[0]) + tail);
      ParseFieldThen(lead, fields[0], tail, n);
    }
    assert FieldValues(fields) == first + FieldValues(fields[1..]);
    assert first + (FieldValues(fields[1..]) + Zeros(n - |fields|)) ==
      (first + FieldValues(fields[1..])) + Zeros(n - |fields|);
  }

  /** `strtol` does not step over a comma: after one, every further value reads as 0. */
  lemma CommaStopsParse(f: Field, g: Field)
    requires ValidField(f) && ValidField(g)
    ensures ParseValues(FieldText(f) + ("," + FieldText(g)), 2) == [FieldValue(f), 0]
  {
    var tail := "," + FieldText(g);
    assert Strtol(FieldText(f) + tail) == Parsed(FieldValue(f), tail) by {
      StrtolReadsField("", f, tail);
      assert "" + (FieldText(f) + tail) == FieldText(f) + tail;
    }
    assert Strtol(tail) == Parsed(0, tail) by {
      SkipSpacesTo(tail, 0, 0);
      DigitEndAt(tail, 0, 0);
    }
    ParseValuesStep(FieldText(f) + tail, 2);
    ParseValuesStep(tail, 1);
  }

  /*** Printed values ***/

  /** A value as `%d` prints it. */
  function FieldOf(v: int): (f: Field)
    ensures ValidField(f)
  {
    Field(v < 0, Decimal(if v < 0 then -v else v))
  }

  function FieldsOf(values: seq<int>): (fields: seq<Field>)
    ensures |fields| == |values| && AllValid(fields)
  {
    if |values| == 0 then [] else [FieldOf(values[0])] + FieldsOf(values[1..])
  }

  predicate InLongRange(values: seq<int>)
  {
    forall j :: 0 <= j < |values| ==> LongMin <= values[j] <= LongMax
  }

  /** A value printed with `%d` is read back as itself. */
  lemma PrintedValue(v: int)
    requires LongMin <= v <= LongMax
    ensures FieldValue(FieldOf(v)) == v
  {
    DecimalRoundTrip(if v < 0 then -v else v);
    MagnitudeIsDecimal(FieldOf(v).digits);
  }

  /** Values printed with `%d` are read back as themselves. */
  lemma PrintedValues(values: seq<int>)
    requires InLongRange(values)
    ensures FieldValues(FieldsOf(values)) == values
  {
    var fs := FieldsOf(values);
    FieldsOfAt(values);
    FieldValuesAt(fs);
    forall i | 0 <= i < |values|
      ensures FieldValues(fs)[i] == values[i]
    {
      PrintedValue(values[i]);
    }
  }

  /** Field i of the printed values is value i printed. */
  lemma {:induction false} FieldsOfAt(values: seq<int>)
    ensures forall i :: 0 <= i < |values| ==> FieldsOf(values)[i] == FieldOf(values[i])
  {
    if |values| > 0 {
      FieldsOfAt(values[1..]);
      assert forall i :: 1 <= i < |values| ==> FieldsOf(values)[i] == FieldsOf(values[1..])[i - 1];
    }
  }

  /** Value i read from the fields is field i's value. */
  lemma {:induction false} FieldValuesAt(fields: seq<Field>)
    requires AllValid(fields)
    ensures forall i :: 0 <= i < |fields| ==> FieldValues(fields)[i] == FieldValue(fields[i])
  {
    if |fields| > 0 {
      assert AllValid(fields[1..]);
      FieldValuesAt(fields[1..]);
      assert forall i :: 1 <= i < |fields| ==> FieldValues(fields)[i] == FieldValues(fields[1..])[i - 1];
    }
  }

  /** A glove line: nine values printed with `%d`, one space apart. */
  function GloveLine(values: seq<int>): string
  {
    Joined(FieldsOf(values))
  }

  /** A full glove line of nine readings is read back exactly. */
  lemma GloveLineRoundTrip(values: seq<int>)
    requires |values| == NumValues && InLongRange(values)
    ensures ParseValues(GloveLine(values), NumValues) == values
  {
    JoinedRoundTrip("", FieldsOf(values), NumValues);
    assert "" + GloveLine(values) == GloveLine(values);
    PrintedValues(values);
  }

  predicate IsLineChar(c: char)
  {
    IsDigit(c) || c == ' ' || c == '-'
  }

  /** A line of fields holds only digits, spaces and minus signs. */
  lemma {:induction false} JoinedChars(fields: seq<Field>)
    requires AllValid(fields)
    ensures forall j :: 0 <= j < |Joined(fields)| ==> IsLineChar(Joined(fields)[j])
  {
    if |fields| > 1 {
      assert AllValid(fields[1..]);
      JoinedChars(fields[1..]);
    }
  }

  /*** The reader ***/

  class GloveSensorReaderSerial {
    var lineDone: bool
    var lineToPrint: string
    var enabled: bool
    /** The bytes waiting in the serial receive buffer. */
    var serial: seq<byte>

    constructor (input: seq<byte>)
      ensures serial == input && !lineDone && lineToPrint == "" && !enabled
    {
      serial := input;
      lineDone := false;
      lineToPrint := "";
      enabled := false;
    }

    /** `init()`: no line in progress, enabled. */
    method Init()
      modifies this
      ensures !lineDone && lineToPrint == "" && enabled && serial == old(serial)
    {
      lineDone := false;
      lineToPrint := "";
      enabled := true;
    }

    /**
     * `checkAllOk()`: bytes are moved from the serial buffer into the line
     * until a CR or LF, which ends the line and is dropped; once a line is
     * done nothing more is read. The result is whether a line is done.
     */
    method CheckAllOk() returns (ok: bool)
      modifies this
      ensures ok == lineDone && enabled == old(enabled)
      ensures old(lineDone) ==> lineDone && lineToPrint == old(lineToPrint) && serial == old(serial)
      ensures !old(lineDone) ==>
        var i := FirstEol(old(serial));
        lineToPrint == old(lineToPrint) + Chars(old(serial)[..i]) &&
        lineDone == (i < |old(serial)|) &&
        serial == (if i < |old(serial)| then old(serial)[i + 1..] else [])
    {
      if !lineDone {
        var text, done, rest := ReadLineBytes(serial);
        lineToPrint, lineDone, serial := lineToPrint + text, done, rest;
      }
      ok := lineDone;
    }

    /**
     * `getData(values)`: with no line done the values are left alone;
     * otherwise the line is taken, the reader is reset to an empty line, and
     * the first nine entries are filled by successive `strtol` calls.
     */
    method GetData(values: array<int>)
      requires values.Length >= NumValues
      modifies this, values
      ensures !lineDone && enabled == old(enabled) && serial == old(serial)
      ensures !old(lineDone) ==> values[..] == old(values[..]) && lineToPrint == old(lineToPrint)
      ensures old(lineDone) ==> (lineToPrint == "" &&
        values[..NumValues] == ParseValues(old(lineToPrint), NumValues) &&
        values[NumValues..] == old(values[NumValues..]))
    {
      if !lineDone {
        return;
      }
      var line := lineToPrint;
      lineToPrint := "";
      lineDone := false;
      StrtolInto(line, values);
    }

    /** `getType()`: the glove tag its data are sent under. */
    function GetType(): (t: string)
      ensures t == GloveTag
    {
      GloveTag
    }

    method SetEnable(enableStatus: bool)
      modifies this
      ensures enabled == enableStatus
      ensures lineDone == old(lineDone) && lineToPrint == old(lineToPrint) && serial == old(serial)
    {
      enabled := enableStatus;
    }

    predicate IsEnabled()
      reads this
    {
      enabled
    }
  }

  /** Up to the first CR or LF, a byte ends the line exactly when it is that one. */
  lemma EolAt(s: seq<byte>, k: nat)
    requires k < |s| && k <= FirstEol(s)
    ensures IsEol(s[k]) <==> k == FirstEol(s)
  {
    if k < FirstEol(s) {
      assert s[..FirstEol(s)][k] == s[k];
    }
  }

  /** The text of one more byte of the buffer. */
  lemma CharsStep(s: seq<byte>, k: nat)
    requires k < |s|
    ensures Chars(s[..k + 1]) == Chars(s[..k]) + CharString(s[k])
  {
    assert s[..k + 1] == s[..k] + [s[k]];
    CharsAppend(s[..k], s[k]);
  }

  /**
   * The loop of `checkAllOk` over the receive buffer `s0`: the text of the
   * bytes before the first CR or LF, whether one was met, and the bytes
   * left after it.
   */
  method ReadLineBytes(s0: seq<byte>) returns (text: string, done: bool, rest: seq<byte>)
    ensures var i := FirstEol(s0);
      text == Chars(s0[..i]) && done == (i < |s0|) && rest == (if i < |s0| then s0[i + 1..] else [])
  {
    ghost var i := FirstEol(s0);
    ghost var k := 0;
    text, done, rest := "", false, s0;
    while |rest| > 0 && !done
      invariant 0 <= k <= |s0| && rest == s0[k..]
      invariant !done ==> k <= i && text == Chars(s0[..k])
      invariant done ==> k == i + 1 && text == Chars(s0[..i])
      decreases |rest|
    {
      var byteVal := rest[0];
      rest := rest[1..];
      EolAt(s0, k);
      if byteVal == 13 || byteVal == 10 {
        done := true;
      } else {
        CharsStep(s0, k);
        text := text + CharString(byteVal);
      }
      k := k + 1;
    }
  }

  /** The `strtol` loop of `getData`: each call resumes where the previous one stopped. */
  method StrtolInto(line: string, values: array<int>)
    requires values.Length >= NumValues
    modifies values
    ensures values[..NumValues] == ParseValues(line, NumValues)
    ensures values[NumValues..] == old(values[NumValues..])
  {
    ReadValues(line, values, NumValues);
  }

  /** The loop of `StrtolInto` for any count n of values. */
  method ReadValues(line: string, values: array<int>, n: nat)
    requires n <= values.Length
    modifies values
    ensures values[..n] == ParseValues(line, n)
    ensures values[n..] == old(values[n..])
  {
    var pEnd := line;
    ghost var total := ParseValues(line, n);
    for counter := 0 to n
      invariant values[..counter] == total[..counter]
      invariant ParseValues(pEnd, n - counter) == total[counter..]
      invariant forall j :: n <= j < values.Length ==> values[j] == old(values[j])
    {
      var r := Strtol(pEnd);
      ParseFrom(pEnd, n - counter, total, counter);
      values[counter] := r.value;
      pEnd := r.rest;
    }
    assert values[n..] == old(values[n..]);
  }

  /**
   * A glove line arriving on the serial port, then read out: the nine values
   * written come back, the terminator and everything before it is consumed,
   * and the reader is ready for the next line.
   */
  method ReceiveLine(reader: GloveSensorReaderSerial, values: seq<int>, eol: byte, rest: seq<byte>, out: array<int>)
    returns (ok: bool)
    requires |values| == NumValues && InLongRange(values) && IsEol(eol)
    requires !reader.lineDone && reader.lineToPrint == ""
    requires out.Length == NumValues
    requires reader.serial == Bytes(GloveLine(values)) + [eol] + rest
    modifies reader, out
    ensures ok && out[..] == values && reader.serial == rest
    ensures !reader.lineDone && reader.lineToPrint == ""
  {
    JoinedChars(FieldsOf(values));
    ok := ReceiveText(reader, GloveLine(values), eol, rest, out);
    GloveLineRoundTrip(values);
  }

  /** The buffer holding a line's bytes, its terminator and more: the line is read back up to the terminator. */
  lemma SentLine(text: string, eol: byte, rest: seq<byte>)
    requires (forall j :: 0 <= j < |text| ==> IsLineChar(text[j])) && IsEol(eol)
    ensures var sent := Bytes(text) + [eol] + rest;
      FirstEol(sent) == |text| < |sent| && Chars(sent[..|text|]) == text && sent[|text| + 1..] == rest
  {
    var sent := Bytes(text) + [eol] + rest;
    FirstEolOfLine(Bytes(text), eol, rest);
    assert sent[..|text|] == Bytes(text);
    LineCharsRoundTrip(text);
    assert sent[|text| + 1..] == rest;
  }

  /** One line of line characters arriving whole: it is gathered, its terminator consumed, and its fields parsed. */
  method ReceiveText(reader: GloveSensorReaderSerial, text: string, eol: byte, rest: seq<byte>, out: array<int>)
    returns (ok: bool)
    requires (forall j :: 0 <= j < |text| ==> IsLineChar(text[j])) && IsEol(eol)
    requires !reader.lineDone && reader.lineToPrint == ""
    requires out.Length == NumValues
    requires reader.serial == Bytes(text) + [eol] + rest
    modifies reader, out
    ensures ok && out[..] == ParseValues(text, NumValues) && reader.serial == rest
    ensures !reader.lineDone && reader.lineToPrint == ""
  {
    SentLine(text, eol, rest);
    ok := reader.CheckAllOk();
    assert reader.lineToPrint == "" + text == text;
    reader.GetData(out);
    assert out[..] == out[..NumValues];
  }

  /** A text of line characters is sent with no 0 byte, so the reader gathers it back whole. */
  lemma LineCharsRoundTrip(text: string)
    requires forall j :: 0 <= j < |text| ==> IsLineChar(text[j])
    ensures Chars(Bytes(text)) == text
  {
    var bs := Bytes(text);
    assert NoNul(bs) by {
      forall j | 0 <= j < |text| ensures bs[j] != 0 {
        assert IsLineChar(text[j]);
      }
    }
    CharsNoNul(bs);
    assert forall j :: 0 <= j < |text| ==> Chars(bs)[j] == text[j];
  }

  /** The bytes a line of text is sent as: the low byte of each character. */
  function Bytes(s: string): (bs: seq<byte>)
    ensures |bs| == |s| && forall j :: 0 <= j < |s| ==> bs[j] == s[j] as int % 256
  {
    seq(|s|, j requires 0 <= j < |s| => (s[j] as int % 256) as byte)
  }
}
