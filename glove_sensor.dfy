/**
 * The glove sensor's signal conditioning: a five-slot moving average per
 * analog finger, a five-slot threshold filter per digital finger, and the
 * per-finger min/max calibration that scales the filtered reading to 0..90.
 * The pin readings (`analogRead`, `digitalRead`) are parameters.
 */
module GloveSensor {
  import opened Common
  import Datatypes

  const FilterSize: nat := 5
  const AnalogFingers: nat := 5
  const DigitalFingers: nat := 4
  /** `TOT_READS`: readings during which the minimum simply follows the signal. */
  const TotReads: nat := 20
  /** The full-scale value of a finger. */
  const FullScale: int := 90

  /** The sum of a full window. */
  function WindowSum(r: seq<int>): int
    requires |r| == FilterSize
  {
    r[0] + r[1] + r[2] + r[3] + r[4]
  }

  /** The running sum of slots 1..k of a window, as the shifting loop accumulates it. */
  function ShiftedSum(w: seq<int>, k: nat): int
    requires k < |w|
  {
    if k == 0 then 0 else ShiftedSum(w, k - 1) + w[k]
  }

  /** The window after a reading: an unfilled window (slot 0 is -1) is filled with the reading, otherwise it shifts left and the reading enters last. */
  function Refilled(w: seq<int>, x: int): (r: seq<int>)
    requires |w| == FilterSize
    ensures |r| == FilterSize && r[FilterSize - 1] == x
  {
    if w[0] == -1 then [x, x, x, x, x] else [w[1], w[2], w[3], w[4], x]
  }

  /** `filterSensorValue`: the first reading is returned as is, later ones give the truncated mean of the window. */
  function SensorFiltered(w: seq<int>, x: int): int
    requires |w| == FilterSize
  {
    if w[0] == -1 then x else CDiv(WindowSum(Refilled(w, x)), FilterSize)
  }

  /** `filterDigitalValue`: the first reading is returned as is, later ones give 1 iff the window sum exceeds (5 + 1) / 2. */
  function DigitalFiltered(w: seq<int>, x: int): int
    requires |w| == FilterSize
  {
    if w[0] == -1 then x else if WindowSum(Refilled(w, x)) > (FilterSize + 1) / 2 then 1 else 0
  }

  /** The calibration of one finger after a filtered reading `tmp`. */
  datatype Finger = Finger(max: int, min: int, value: int)

  /** The scaled value `(tmp - min) * 90 / (max - min)`, 0 when the bounds coincide. */
  function Scaled(tmp: int, min: int, max: int): int
  {
    if max != min then CDiv((tmp - min) * FullScale, max - min) else 0
  }

  /** One finger of `checkAllOk`: a new peak raises the maximum to tmp + 1, the minimum follows tmp for the first 20 reads and then only falls. */
  function FingerStep(f: Finger, numReads: int, tmp: int): (r: Finger)
    ensures r.min <= tmp <= r.max
    ensures 0 <= r.value <= FullScale
    ensures f.max == -1 || tmp > f.max ==> r.max == tmp + 1
    ensures numReads < TotReads ==> r.min == tmp
  {
    var max := if f.max == -1 || tmp > f.max then tmp + 1 else f.max;
    var min := if numReads < TotReads then tmp else if tmp < f.min then tmp else f.min;
    ScaledInRange(tmp, min, max);
    Finger(max, min, Scaled(tmp, min, max))
  }

  /*** Properties ***/

  /** The scaled value lies in 0..90 whenever min <= tmp <= max; tmp at the maximum gives 90 and at the minimum 0. */
  lemma ScaledInRange(tmp: int, min: int, max: int)
    requires min <= tmp <= max
    ensures 0 <= Scaled(tmp, min, max) <= FullScale
    ensures min < max && tmp == max ==> Scaled(tmp, min, max) == FullScale
    ensures tmp == min ==> Scaled(tmp, min, max) == 0
  {
    if max != min {
      ScaledDiv(tmp - min, max - min);
    }
  }

  /** `t * 90 / d` for 0 <= t <= d lies in 0..90, and is 90 at t == d. */
  lemma ScaledDiv(t: int, d: int)
    requires 0 <= t <= d && d > 0
    ensures 0 <= (t * FullScale) / d <= FullScale
    ensures t == d ==> (t * FullScale) / d == FullScale
  {
    DivBound(t * 90, d, 90);
    if t == d {
      DivExact(d, 90);
    }
  }

  lemma DivBound(n: int, d: int, k: int)
    requires 0 <= n <= k * d && d > 0
    ensures 0 <= n / d <= k
  {
    var q, r := n / d, n % d;
    assert d * q + r == n;
    MulCancel(q, k, d);
  }

  lemma DivExact(d: int, k: int)
    requires d > 0 && k >= 0
    ensures (d * k) / d == k
  {
    var q, r := (d * k) / d, (d * k) % d;
    DivBound(d * k, d, k);
    assert d * q + r == d * k && r < d;
    if q < k {
      MulAtLeast(k - q, d);
    }
  }

  lemma MulAtLeast(a: int, d: int)
    requires a >= 1 && d > 0
    ensures a * d >= d
  {
  }

  lemma MulCancel(a: int, b: int, d: int)
    requires a * d <= b * d && d > 0
    ensures a <= b
  {
  }

  /** The first reading fills the window and comes out unchanged. */
  lemma FirstReading(w: seq<int>, x: int)
    requires |w| == FilterSize && w[0] == -1
    ensures Refilled(w, x) == [x, x, x, x, x]
    ensures SensorFiltered(w, x) == x && DigitalFiltered(w, x) == x
  {
  }

  /** The moving average stays inside the range of the readings in its window. */
  lemma MeanInRange(w: seq<int>, x: int, lo: int, hi: int)
    requires |w| == FilterSize && w[0] != -1 && 0 <= lo
    requires forall i :: 0 <= i < FilterSize ==> lo <= Refilled(w, x)[i] <= hi
    ensures lo <= SensorFiltered(w, x) <= hi
  {
    var r := Refilled(w, x);
    assert 5 * lo <= WindowSum(r) <= 5 * hi;
  }

  /** A steady signal c passes through the filled filter unchanged. */
  lemma SteadySignal(c: int)
    requires c != -1 && 0 <= c
    ensures Refilled([c, c, c, c, c], c) == [c, c, c, c, c]
    ensures SensorFiltered([c, c, c, c, c], c) == c
  {
    assert Refilled([c, c, c, c, c], c) == [c, c, c, c, c];
  }

  /** On a filled window of 0/1 readings the digital filter needs four ones out of five: three are not enough. */
  lemma DigitalNeedsFour()
    ensures DigitalFiltered([0, 1, 1, 1, 0], 0) == 0
    ensures DigitalFiltered([0, 1, 1, 1, 1], 0) == 1
    ensures DigitalFiltered([1, 0, 0, 0, 1], 1) == 0
  {
    assert Refilled([0, 1, 1, 1, 0], 0) == [1, 1, 1, 0, 0];
    assert Refilled([0, 1, 1, 1, 1], 0) == [1, 1, 1, 1, 0];
    assert Refilled([1, 0, 0, 0, 1], 1) == [0, 0, 0, 1, 1];
  }

  /** The digital filter's output on a filled window is always 0 or 1. */
  lemma DigitalIsBinary(w: seq<int>, x: int)
    requires |w| == FilterSize && w[0] != -1
    ensures DigitalFiltered(w, x) == 0 || DigitalFiltered(w, x) == 1
  {
  }

  /*** The sensor object ***/

  /** Row f of a filter table: one finger's window. */
  ghost function Row(a: array2<int>, f: nat): (r: seq<int>)
    reads a
    requires f < a.Length0 && a.Length1 == FilterSize
    ensures |r| == FilterSize && forall i :: 0 <= i < FilterSize ==> r[i] == a[f, i]
  {
    [a[f, 0], a[f, 1], a[f, 2], a[f, 3], a[f, 4]]
  }

  class BnGloveSensor {
    const filterSensorValues: array2<int>
    const filterDigitalValues: array2<int>
    const sensorValueMax: array<int>
    const sensorValueMin: array<int>
    const sensorValue: array<int>
    const digitalValue: array<int>
    var numReads: int
    var enabled: bool

    ghost predicate Valid()
      reads this
    {
      filterSensorValues.Length0 == AnalogFingers && filterSensorValues.Length1 == FilterSize &&
      filterDigitalValues.Length0 == DigitalFingers && filterDigitalValues.Length1 == FilterSize &&
      filterSensorValues != filterDigitalValues &&
      sensorValueMax.Length == AnalogFingers && sensorValueMin.Length == AnalogFingers &&
      sensorValue.Length == AnalogFingers && digitalValue.Length == DigitalFingers &&
      sensorValueMax != sensorValueMin && sensorValueMax != sensorValue && sensorValueMax != digitalValue &&
      sensorValueMin != sensorValue && sensorValueMin != digitalValue && sensorValue != digitalValue
    }

    /** The filter window of analog finger f. */
    ghost function SensorRow(f: nat): seq<int>
      reads this, filterSensorValues
      requires Valid() && f < AnalogFingers
    {
      Row(filterSensorValues, f)
    }

    ghost function DigitalRow(f: nat): seq<int>
      reads this, filterDigitalValues
      requires Valid() && f < DigitalFingers
    {
      Row(filterDigitalValues, f)
    }

    ghost function FingerOf(f: nat): Finger
      reads this, sensorValueMax, sensorValueMin, sensorValue
      requires Valid() && f < AnalogFingers
    {
      Finger(sensorValueMax[f], sensorValueMin[f], sensorValue[f])
    }

    /** Every scaled finger value lies in 0..90. */
    ghost predicate ValuesInRange()
      reads this, sensorValue
      requires Valid()
    {
      forall f :: 0 <= f < AnalogFingers ==> 0 <= sensorValue[f] <= FullScale
    }

    constructor ()
      ensures Valid() && fresh(filterSensorValues) && fresh(filterDigitalValues)
      ensures fresh(sensorValueMax) && fresh(sensorValueMin) && fresh(sensorValue) && fresh(digitalValue)
      ensures numReads == 0
    {
      filterSensorValues := new int[AnalogFingers, FilterSize]((_, _) => 0);
      filterDigitalValues := new int[DigitalFingers, FilterSize]((_, _) => 0);
      sensorValueMax := new int[AnalogFingers](_ => 0);
      sensorValueMin := new int[AnalogFingers](_ => 0);
      sensorValue := new int[AnalogFingers](_ => 0);
      digitalValue := new int[DigitalFingers](_ => 0);
      numReads := 0;
      enabled := false;
    }

    /** `initFilter()`: every window is marked unfilled. */
    method InitFilter()
      requires Valid()
      modifies filterSensorValues, filterDigitalValues
      ensures forall f :: 0 <= f < AnalogFingers ==> filterSensorValues[f, 0] == -1
      ensures forall f :: 0 <= f < DigitalFingers ==> filterDigitalValues[f, 0] == -1
    {
      for finger := 0 to AnalogFingers
        invariant forall f :: 0 <= f < finger ==> filterSensorValues[f, 0] == -1
      {
        filterSensorValues[finger, 0] := -1;
      }
      for finger := 0 to DigitalFingers
        invariant forall f :: 0 <= f < finger ==> filterDigitalValues[f, 0] == -1
        invariant forall f :: 0 <= f < AnalogFingers ==> filterSensorValues[f, 0] == -1
      {
        filterDigitalValues[finger, 0] := -1;
      }
    }

    /** `init()`: values 0, bounds -1, windows unfilled, no digital value yet. */
    method Init()
      requires Valid()
      modifies this, filterSensorValues, filterDigitalValues, sensorValueMax, sensorValueMin, sensorValue, digitalValue
      ensures Valid() && enabled && numReads == old(numReads) && ValuesInRange()
      ensures forall f :: 0 <= f < AnalogFingers ==>
        FingerOf(f) == Finger(-1, -1, 0) && SensorRow(f)[0] == -1
      ensures forall f :: 0 <= f < DigitalFingers ==> digitalValue[f] == 0 && DigitalRow(f)[0] == -1
    {
      for finger := 0 to AnalogFingers
        modifies sensorValue, sensorValueMax, sensorValueMin
        invariant forall f :: 0 <= f < finger ==> sensorValue[f] == 0 && sensorValueMax[f] == -1 && sensorValueMin[f] == -1
      {
        sensorValue[finger] := 0;
        sensorValueMax[finger] := -1;
        sensorValueMin[finger] := -1;
      }
      InitFilter();
      digitalValue[0] := 0;
      digitalValue[1] := 0;
      digitalValue[2] := 0;
      digitalValue[3] := 0;
      enabled := true;
    }

    /** Shared body of both filters: fill an unfilled window, or shift it left and append. */
    static method ShiftIn(a: array2<int>, finger: nat, x: int) returns (filled: bool, sum: int)
      requires a.Length1 == FilterSize && finger < a.Length0
      modifies a
      ensures filled == (old(a[finger, 0]) == -1)
      ensures forall i :: 0 <= i < FilterSize ==>
        a[finger, i] == Refilled(old(Row(a, finger)), x)[i]
      ensures !filled ==> sum == WindowSum(Refilled(old(Row(a, finger)), x))
      ensures forall f, i :: 0 <= f < a.Length0 && 0 <= i < FilterSize && f != finger ==> a[f, i] == old(a[f, i])
    {
      ghost var w := Row(a, finger);
      if a[finger, 0] == -1 {
        for ix := 0 to FilterSize
          invariant forall i :: 0 <= i < ix ==> a[finger, i] == x
          invariant forall f, i :: 0 <= f < a.Length0 && 0 <= i < FilterSize && f != finger ==> a[f, i] == old(a[f, i])
        {
          a[finger, ix] := x;
        }
        return true, 0;
      }
      sum := 0;
      for ix := 0 to FilterSize - 1
        invariant forall i :: 0 <= i < ix ==> a[finger, i] == w[i + 1]
        invariant forall i :: ix <= i < FilterSize ==> a[finger, i] == w[i]
        invariant sum == ShiftedSum(w, ix)
        invariant forall f, i :: 0 <= f < a.Length0 && 0 <= i < FilterSize && f != finger ==> a[f, i] == old(a[f, i])
      {
        a[finger, ix] := a[finger, ix + 1];
        sum := sum + a[finger, ix];
      }
      a[finger, FilterSize - 1] := x;
      assert Refilled(w, x) == [w[1], w[2], w[3], w[4], x];
      assert sum == w[1] + w[2] + w[3] + w[4] by {
        assert ShiftedSum(w, 2) == w[1] + w[2];
        assert ShiftedSum(w, 3) == w[1] + w[2] + w[3];
      }
      sum := sum + x;
      return false, sum;
    }

    /** `filterSensorValue(finger, reading)`. */
    method FilterSensorValue(finger: nat, x: int) returns (r: int)
      requires Valid() && finger < AnalogFingers
      modifies filterSensorValues
      ensures r == SensorFiltered(old(SensorRow(finger)), x)
      ensures SensorRow(finger) == Refilled(old(SensorRow(finger)), x)
      ensures forall f :: 0 <= f < AnalogFingers && f != finger ==> SensorRow(f) == old(SensorRow(f))
    {
      ghost var rows := seq(AnalogFingers, f requires 0 <= f < AnalogFingers reads this, filterSensorValues => SensorRow(f));
      var filled, sum := ShiftIn(filterSensorValues, finger, x);
      if filled {
        r := x;
      } else {
        r := CDiv(sum, FilterSize);
      }
      assert SensorRow(finger) == Refilled(rows[finger], x);
      forall f | 0 <= f < AnalogFingers && f != finger ensures SensorRow(f) == rows[f] {
      }
    }

    /** `filterDigitalValue(finger, reading)`. */
    method FilterDigitalValue(finger: nat, x: int) returns (r: int)
      requires Valid() && finger < DigitalFingers
      modifies filterDigitalValues
      ensures r == DigitalFiltered(old(DigitalRow(finger)), x)
      ensures DigitalRow(finger) == Refilled(old(DigitalRow(finger)), x)
      ensures forall f, i :: 0 <= f < DigitalFingers && 0 <= i < FilterSize && f != finger ==> filterDigitalValues[f, i] == old(filterDigitalValues[f, i])
    {
      ghost var rows := seq(DigitalFingers, f requires 0 <= f < DigitalFingers reads this, filterDigitalValues => DigitalRow(f));
      var filled, sum := ShiftIn(filterDigitalValues, finger, x);
      if filled {
        r := x;
      } else if sum > (FilterSize + 1) / 2 {
        r := 1;
      } else {
        r := 0;
      }
      assert DigitalRow(finger) == Refilled(rows[finger], x);
    }

    /** One finger of the `checkAllOk` loop: filter the reading, then update the bounds and the scaled value. */
    method UpdateFinger(finger: nat, reading: int)
      requires Valid() && finger < AnalogFingers
      modifies filterSensorValues, sensorValueMax, sensorValueMin, sensorValue
      ensures SensorRow(finger) == Refilled(old(SensorRow(finger)), reading)
      ensures forall f :: 0 <= f < AnalogFingers && f != finger ==> SensorRow(f) == old(SensorRow(f))
      ensures var r := FingerStep(old(FingerOf(finger)), numReads, SensorFiltered(old(SensorRow(finger)), reading));
        sensorValueMax[..] == old(sensorValueMax[..])[finger := r.max] &&
        sensorValueMin[..] == old(sensorValueMin[..])[finger := r.min] &&
        sensorValue[..] == old(sensorValue[..])[finger := r.value]
    {
      var tmp := FilterSensorValue(finger, reading);
      var max := sensorValueMax[finger];
      var min := sensorValueMin[finger];
      var value := sensorValue[finger];
      if max == -1 || tmp > max {
        max := tmp + 1;
      }
      if numReads < TotReads {
        min := tmp;
      } else if tmp < min {
        min := tmp;
      }
      if value < 0 {
        value := 0;
      }
      if max != min {
        value := CDiv((tmp - min) * FullScale, max - min);
      } else {
        value := 0;
      }
      sensorValueMax[finger] := max;
      sensorValueMin[finger] := min;
      sensorValue[finger] := value;
    }

    /** The loop over the analog fingers in `checkAllOk()`. */
    method UpdateFingers(analog: seq<int>)
      requires Valid() && |analog| == AnalogFingers
      modifies filterSensorValues, sensorValueMax, sensorValueMin, sensorValue
      ensures ValuesInRange()
      ensures forall f :: 0 <= f < AnalogFingers ==>
        SensorRow(f) == Refilled(old(SensorRow(f)), analog[f]) &&
        FingerOf(f) == FingerStep(old(FingerOf(f)), numReads, SensorFiltered(old(SensorRow(f)), analog[f]))
    {
      ghost var rows := seq(AnalogFingers, f requires 0 <= f < AnalogFingers reads this, filterSensorValues => SensorRow(f));
      ghost var fingers := seq(AnalogFingers, f requires 0 <= f < AnalogFingers reads this, sensorValueMax, sensorValueMin, sensorValue => FingerOf(f));
      for finger := 0 to AnalogFingers
        invariant forall f :: 0 <= f < finger ==>
          SensorRow(f) == Refilled(rows[f], analog[f]) &&
          FingerOf(f) == FingerStep(fingers[f], numReads, SensorFiltered(rows[f], analog[f]))
        invariant forall f :: finger <= f < AnalogFingers ==> SensorRow(f) == rows[f] && FingerOf(f) == fingers[f]
      {
        UpdateFinger(finger, analog[finger]);
      }
      forall f | 0 <= f < AnalogFingers ensures 0 <= sensorValue[f] <= FullScale {
        assert sensorValue[f] == FingerOf(f).value;
      }
    }

    /** The four unrolled digital filter calls of `checkAllOk()`. */
    method UpdateDigital(digital: seq<int>)
      requires Valid() && |digital| == DigitalFingers
      modifies filterDigitalValues, digitalValue
      ensures forall f :: 0 <= f < DigitalFingers ==> DigitalRow(f) == Refilled(old(DigitalRow(f)), digital[f])
      ensures forall f :: 0 <= f < DigitalFingers ==> digitalValue[f] == DigitalFiltered(old(DigitalRow(f)), digital[f])
    {
      ghost var w0, w1, w2, w3 := DigitalRow(0), DigitalRow(1), DigitalRow(2), DigitalRow(3);
      var d0 := FilterDigitalValue(0, digital[0]);
      ghost var n0 := DigitalRow(0);
      var d1 := FilterDigitalValue(1, digital[1]);
      ghost var n1 := DigitalRow(1);
      assert DigitalRow(0) == n0;
      var d2 := FilterDigitalValue(2, digital[2]);
      ghost var n2 := DigitalRow(2);
      assert DigitalRow(0) == n0 && DigitalRow(1) == n1;
      var d3 := FilterDigitalValue(3, digital[3]);
      assert DigitalRow(0) == n0 && DigitalRow(1) == n1 && DigitalRow(2) == n2;
      StoreDigital(d0, d1, d2, d3);
    }

    method StoreDigital(d0: int, d1: int, d2: int, d3: int)
      requires Valid()
      modifies digitalValue
      ensures digitalValue[..] == [d0, d1, d2, d3]
    {
      digitalValue[0] := d0;
      digitalValue[1] := d1;
      digitalValue[2] := d2;
      digitalValue[3] := d3;
    }

    /**
     * `checkAllOk()`: every analog finger is filtered and rescaled, the read
     * counter saturates at 20, and the four digital fingers are filtered.
     */
    method CheckAllOk(analog: seq<int>, digital: seq<int>) returns (ok: bool)
      requires Valid() && |analog| == AnalogFingers && |digital| == DigitalFingers
      modifies this, filterSensorValues, filterDigitalValues, sensorValueMax, sensorValueMin, sensorValue, digitalValue
      ensures Valid() && ok && enabled == old(enabled) && ValuesInRange()
      ensures numReads == if old(numReads) < TotReads then old(numReads) + 1 else old(numReads)
      ensures forall f :: 0 <= f < AnalogFingers ==>
        SensorRow(f) == Refilled(old(SensorRow(f)), analog[f]) &&
        FingerOf(f) == FingerStep(old(FingerOf(f)), old(numReads), SensorFiltered(old(SensorRow(f)), analog[f]))
      ensures forall f :: 0 <= f < DigitalFingers ==>
        DigitalRow(f) == Refilled(old(DigitalRow(f)), digital[f]) &&
        digitalValue[f] == DigitalFiltered(old(DigitalRow(f)), digital[f])
    {
      UpdateFingers(analog);
      if numReads < TotReads {
        numReads := numReads + 1;
      }
      UpdateDigital(digital);
      ok := true;
    }

    /** `getData(values)`: the five scaled analog values, then the four digital values. */
    method GetData(values: array<int>)
      requires Valid() && values.Length >= 9
      requires values != sensorValue && values != digitalValue
      modifies values
      ensures values[..9] == sensorValue[..] + digitalValue[..]
      ensures values[9..] == old(values[9..])
    {
      values[0] := sensorValue[0];
      values[1] := sensorValue[1];
      values[2] := sensorValue[2];
      values[3] := sensorValue[3];
      values[4] := sensorValue[4];
      values[5] := digitalValue[0];
      values[6] := digitalValue[1];
      values[7] := digitalValue[2];
      values[8] := digitalValue[3];
      assert values[..9] == sensorValue[..] + digitalValue[..];
    }

    /** `getType()`: the glove tag its data are sent under. */
    function GetType(): (t: string)
      ensures t == Datatypes.GloveTag
    {
      Datatypes.GloveTag
    }

    method SetEnable(enableStatus: bool)
      modifies this
      ensures enabled == enableStatus && numReads == old(numReads)
    {
      enabled := enableStatus;
    }

    predicate IsEnabled()
      reads this
    {
      enabled
    }
  }
}
