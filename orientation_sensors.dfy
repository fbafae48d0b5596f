/**
 * Reconnect and read gating of the absolute-orientation sensors: the BNO055
 * sensor object of the BLE node and the WiFi node's `sensor.cpp`. Times are
 * `millis()` values passed in; whether `begin()` succeeds and what the chip
 * reports are parameters.
 */
module OrientationSensors {
  import opened Common
  import opened AxisRealign
  import opened Datatypes

  /** Milliseconds between two reconnection attempts. */
  const ReconnectIntervalMs: u32 := 5000

  /** `SENSOR_READ_INTERVAL_MS` of the BLE node. */
  const SensorReadIntervalMs: u32 := 30

  /** `BIG_QUAT_DIFF`. */
  const BigQuatDiff: real := 0.002

  datatype SensorStatus = NotAccessible | Calibrating | Working

  /** `StatusSensorLED`: the LED state and when it last changed. */
  datatype StatusLed = StatusLed(on: bool, lastToggle: u32)

  /** Every component is exactly 0. */
  predicate AllZero(v: seq<real>)
    requires |v| == 4
  {
    v[0] == 0.0 && v[1] == 0.0 && v[2] == 0.0 && v[3] == 0.0
  }

  /** The LED after `setStatus(status)`; CALIBRATING blinks with a 500 ms half-period. */
  function LedAfter(led: StatusLed, status: SensorStatus, now: u32): (r: StatusLed)
    ensures status == NotAccessible ==> r == StatusLed(true, now)
    ensures status == Working ==> r == StatusLed(false, now)
    ensures status == Calibrating && Elapsed(now, led.lastToggle) > 500 ==> r == StatusLed(!led.on, now)
    ensures status == Calibrating && Elapsed(now, led.lastToggle) <= 500 ==> r == led
  {
    match status
    case NotAccessible => StatusLed(true, now)
    case Working => StatusLed(false, now)
    case Calibrating => if Elapsed(now, led.lastToggle) > 500 then StatusLed(!led.on, now) else led
  }

  class Bno055Sensor {
    var enabled: bool
    var sensorInit: bool
    var firstZeros: bool
    var lastReadTime: u32
    var reconnectionTime: u32
    var led: StatusLed
    /** `s_values[4]`: the last accepted, realigned reading. */
    const values: array<real>
    const cfg: AxisConfig

    ghost predicate Valid()
      reads this
    {
      values.Length == 4 && ValidConfig(cfg)
    }

    constructor (cfg: AxisConfig)
      requires ValidConfig(cfg)
      ensures Valid() && this.cfg == cfg && fresh(values)
      ensures !sensorInit && !enabled
    {
      this.cfg := cfg;
      values := new real[4](_ => 0.0);
      enabled := false;
      sensorInit := false;
      firstZeros := false;
      lastReadTime := 0;
      reconnectionTime := 0;
      led := StatusLed(false, 0);
    }

    /** `setStatus(sensor_status)`: NOT_ACCESSIBLE clears and WORKING sets the init flag; CALIBRATING only blinks. */
    method SetStatus(status: SensorStatus, now: u32)
      modifies this
      ensures status == NotAccessible ==> !sensorInit
      ensures status == Working ==> sensorInit
      ensures status == Calibrating ==> sensorInit == old(sensorInit)
      ensures led == LedAfter(old(led), status, now)
      ensures firstZeros == old(firstZeros) && enabled == old(enabled)
      ensures lastReadTime == old(lastReadTime) && reconnectionTime == old(reconnectionTime)
    {
      if status == NotAccessible {
        sensorInit := false;
        led := StatusLed(true, now);
      } else if status == Calibrating {
        if Elapsed(now, led.lastToggle) > 500 {
          led := StatusLed(!led.on, now);
        }
      } else {
        sensorInit := true;
        led := StatusLed(false, now);
      }
    }

    /** `init()`: both timers start now; a successful `begin()` arms the first-zeros tolerance. */
    method Init(now: u32, beginOk: bool)
      modifies this
      ensures enabled && lastReadTime == now && reconnectionTime == now
      ensures sensorInit == beginOk && led == StatusLed(!beginOk, now)
      ensures beginOk ==> firstZeros
      ensures !beginOk ==> firstZeros == old(firstZeros)
    {
      enabled := true;
      led := StatusLed(false, now);
      sensorInit := false;
      lastReadTime := now;
      reconnectionTime := now;
      if beginOk {
        firstZeros := true;
        SetStatus(Working, now);
      } else {
        SetStatus(NotAccessible, now);
      }
    }

    /**
     * `checkAllOk()`. `beginOk` is what a reconnection attempt would return and
     * `reading` the chip's quaternion (w, x, y, z) if a read happens.
     */
    method CheckAllOk(now: u32, beginOk: bool, reading: seq<real>) returns (ok: bool)
      requires Valid() && |reading| == 4
      modifies this, values
      ensures Valid() && enabled == old(enabled) && lastReadTime == old(lastReadTime)
      // Not initialised: no attempt within 5000 ms of the last one.
      ensures !old(sensorInit) && Elapsed(now, old(reconnectionTime)) < ReconnectIntervalMs ==>
        !ok && !sensorInit && reconnectionTime == old(reconnectionTime) && firstZeros == old(firstZeros) &&
        led == old(led)
      // Not initialised: an attempt restarts the reconnect timer and reports its outcome.
      ensures !old(sensorInit) && Elapsed(now, old(reconnectionTime)) >= ReconnectIntervalMs ==>
        ok == beginOk && sensorInit == beginOk && reconnectionTime == now && led == StatusLed(!beginOk, now) &&
        (beginOk ==> firstZeros) && (!beginOk ==> firstZeros == old(firstZeros))
      // Initialised but inside the read interval: nothing is read.
      ensures old(sensorInit) && Elapsed(now, old(lastReadTime)) < SensorReadIntervalMs ==>
        !ok && sensorInit && firstZeros == old(firstZeros) && led == old(led)
      // A read: a nonzero reading clears firstZeros; zeros after a nonzero reading mean a lost sensor.
      ensures old(sensorInit) && Elapsed(now, old(lastReadTime)) >= SensorReadIntervalMs ==>
        var t := Realigned(cfg, reading);
        reconnectionTime == old(reconnectionTime) &&
        firstZeros == (old(firstZeros) && AllZero(t)) &&
        ok == (!AllZero(t) || old(firstZeros)) &&
        sensorInit == ok &&
        led == (if ok then old(led) else StatusLed(true, now)) &&
        (ok ==> values[..] == t)
      ensures !ok ==> values[..] == old(values[..])
    {
      if !sensorInit {
        if Elapsed(now, reconnectionTime) < ReconnectIntervalMs {
          return false;
        }
        reconnectionTime := now;
        if beginOk {
          SetStatus(Working, now);
          firstZeros := true;
          return true;
        } else {
          SetStatus(NotAccessible, now);
          return false;
        }
      }
      if Elapsed(now, lastReadTime) < SensorReadIntervalMs {
        return false;
      }
      var t := Realigned(cfg, reading);
      if !AllZero(t) {
        firstZeros := false;
      }
      if AllZero(t) && !firstZeros {
        SetStatus(NotAccessible, now);
        return false;
      }
      values[0] := t[0];
      values[1] := t[1];
      values[2] := t[2];
      values[3] := t[3];
      assert values[..] == t;
      return true;
    }

    /** `getData()`: stamps the read time and returns the stored values tagged orientation_abs. */
    method GetData(now: u32) returns (d: BnSensorData)
      requires Valid()
      modifies this
      ensures fresh(d) && fresh(d.valuesFloat) && d.Valid()
      ensures lastReadTime == now && sensorInit == old(sensorInit) && firstZeros == old(firstZeros)
      ensures d.sensorType == OrientationAbsTag && d.numValues == 4
      ensures d.valuesFloat[..4] == values[..]
    {
      lastReadTime := now;
      d := new BnSensorData();
      d.SetValuesFloat(values, OrientationAbsTag);
    }

    /**
     * `isCalibrated()`: the chip's system calibration level `sys` (0 to 3)
     * must be at least 2; below that the LED blinks as CALIBRATING, otherwise
     * the sensor is set WORKING.
     */
    method IsCalibrated(sys: byte, now: u32) returns (calibrated: bool)
      modifies this
      ensures calibrated <==> sys >= 2
      ensures led == LedAfter(old(led), if calibrated then Working else Calibrating, now)
      ensures sensorInit == (calibrated || old(sensorInit))
      ensures firstZeros == old(firstZeros) && enabled == old(enabled)
      ensures lastReadTime == old(lastReadTime) && reconnectionTime == old(reconnectionTime)
    {
      if sys < 2 {
        SetStatus(Calibrating, now);
        return false;
      }
      SetStatus(Working, now);
      return true;
    }

    /** `getType()`: the absolute-orientation tag its data are sent under. */
    function GetType(): (t: string)
      ensures t == OrientationAbsTag
    {
      OrientationAbsTag
    }

    method SetEnable(enableStatus: bool)
      modifies this
      ensures enabled == enableStatus && sensorInit == old(sensorInit) && firstZeros == old(firstZeros)
      ensures lastReadTime == old(lastReadTime) && reconnectionTime == old(reconnectionTime) && led == old(led)
    {
      enabled := enableStatus;
    }

    predicate IsEnabled()
      reads this
    {
      enabled
    }
  }

  /** A sensor reporting calibration is WORKING: `checkAllOk()` then reads it rather than trying to reconnect. */
  method CalibratedIsInitialised(s: Bno055Sensor, sys: byte, now: u32) returns (calibrated: bool)
    requires sys >= 2
    modifies s
    ensures calibrated && s.sensorInit && s.led == StatusLed(false, now)
  {
    calibrated := s.IsCalibrated(sys, now);
  }

  /*** sensor.cpp of the WiFi node ***/

  /** Component `i` lies strictly outside `last ± diff`. */
  predicate Outside(q: seq<real>, last: seq<real>, i: nat, diff: real)
    requires |q| == 4 && |last| == 4 && i < 4
  {
    q[i] < last[i] - diff || last[i] + diff < q[i]
  }

  /** Some component moved by more than `diff`: the four tests of `noBigChangeQuat` in turn. */
  function BigChange(q: seq<real>, last: seq<real>, diff: real): (b: bool)
    requires |q| == 4 && |last| == 4
    ensures b <==> exists i :: 0 <= i < 4 && Outside(q, last, i, diff)
  {
    Outside(q, last, 0, diff) || Outside(q, last, 1, diff) || Outside(q, last, 2, diff) || Outside(q, last, 3, diff)
  }

  class WifiNodeSensor {
    var sensorInit: bool
    var firstZeros: bool
    var lastQuat: seq<real>
    var readQuat: seq<real>
    var lastReadTime: u32
    var reconnectionTime: u32
    var led: StatusLed
    /** `SENSOR_READ_INTERVAL_MS`, from a header that is not part of this model. */
    const readIntervalMs: u32

    ghost predicate Valid()
      reads this
    {
      |lastQuat| == 4 && |readQuat| == 4
    }

    constructor (readIntervalMs: u32)
      ensures Valid() && this.readIntervalMs == readIntervalMs && !sensorInit
    {
      this.readIntervalMs := readIntervalMs;
      sensorInit := false;
      firstZeros := false;
      lastQuat := [0.0, 0.0, 0.0, 0.0];
      readQuat := [0.0, 0.0, 0.0, 0.0];
      lastReadTime := 0;
      reconnectionTime := 0;
      led := StatusLed(false, 0);
    }

    /**
     * `initSensor()`: the last quaternion starts at (-1, -1, -1, -1); the HMI
     * LED goes off (steady) on success and on after a failure, stamped now.
     */
    method InitSensor(now: u32, beginOk: bool)
      modifies this
      ensures Valid() && lastQuat == [-1.0, -1.0, -1.0, -1.0] && readQuat == old(readQuat)
      ensures lastReadTime == now && reconnectionTime == now && sensorInit == beginOk
      ensures led == StatusLed(!beginOk, now)
      ensures beginOk ==> firstZeros
      ensures !beginOk ==> firstZeros == old(firstZeros)
      requires Valid()
    {
      lastQuat := [-1.0, -1.0, -1.0, -1.0];
      sensorInit := false;
      lastReadTime := now;
      reconnectionTime := now;
      if beginOk {
        firstZeros := true;
        sensorInit := true;
        led := StatusLed(false, now);
      } else {
        sensorInit := false;
        led := StatusLed(true, now);
      }
    }

    /** `checkSensorInit()`: attempts are at least 5000 ms apart. */
    method CheckSensorInit(now: u32, beginOk: bool) returns (ok: bool)
      requires Valid()
      modifies this
      ensures Valid() && lastQuat == old(lastQuat) && readQuat == old(readQuat) && lastReadTime == old(lastReadTime)
      ensures old(sensorInit) ==>
        ok && sensorInit && reconnectionTime == old(reconnectionTime) && firstZeros == old(firstZeros) && led == old(led)
      ensures !old(sensorInit) && Elapsed(now, old(reconnectionTime)) < ReconnectIntervalMs ==>
        !ok && !sensorInit && reconnectionTime == old(reconnectionTime) && firstZeros == old(firstZeros) &&
        led == old(led)
      ensures !old(sensorInit) && Elapsed(now, old(reconnectionTime)) >= ReconnectIntervalMs ==>
        ok == beginOk && sensorInit == beginOk && reconnectionTime == now && led == StatusLed(!beginOk, now) &&
        (beginOk ==> firstZeros) && (!beginOk ==> firstZeros == old(firstZeros))
    {
      if !sensorInit {
        if Elapsed(now, reconnectionTime) < ReconnectIntervalMs {
          return false;
        }
        reconnectionTime := now;
        if beginOk {
          sensorInit := true;
          led := StatusLed(false, now);
          firstZeros := true;
          return true;
        } else {
          sensorInit := false;
          led := StatusLed(true, now);
          return false;
        }
      }
      return true;
    }

    /** `checkConnectionSensorQuat(quat)`: the first-zeros heuristic. */
    method CheckConnectionSensorQuat(quat: seq<real>, now: u32)
      requires Valid() && |quat| == 4
      modifies this
      ensures Valid() && lastQuat == old(lastQuat) && readQuat == old(readQuat)
      ensures lastReadTime == old(lastReadTime) && reconnectionTime == old(reconnectionTime)
      ensures firstZeros == (old(firstZeros) && AllZero(quat))
      ensures AllZero(quat) && !firstZeros ==> !sensorInit && led == StatusLed(true, now)
      ensures !(AllZero(quat) && !firstZeros) ==> sensorInit == old(sensorInit) && led == old(led)
    {
      if !AllZero(quat) {
        firstZeros := false;
      }
      if AllZero(quat) && !firstZeros {
        sensorInit := false;
        led := StatusLed(true, now);
      }
    }

    /**
     * `noBigChangeQuat(quat)`: true iff every component is within
     * `BIG_QUAT_DIFF` of the last quaternion; on a big change the last
     * quaternion becomes `quat`.
     */
    method NoBigChangeQuat(quat: seq<real>) returns (nothingChanged: bool)
      requires Valid() && |quat| == 4
      modifies this
      ensures Valid() && readQuat == old(readQuat) && sensorInit == old(sensorInit) && firstZeros == old(firstZeros)
      ensures lastReadTime == old(lastReadTime) && reconnectionTime == old(reconnectionTime) && led == old(led)
      ensures nothingChanged == !BigChange(quat, old(lastQuat), BigQuatDiff)
      ensures nothingChanged ==> lastQuat == old(lastQuat)
      ensures !nothingChanged ==> lastQuat == quat
    {
      nothingChanged := true;
      if Outside(quat, lastQuat, 0, BigQuatDiff) {
        lastQuat := quat;
        nothingChanged := false;
      }
      if Outside(quat, lastQuat, 1, BigQuatDiff) {
        lastQuat := quat;
        nothingChanged := false;
      }
      if Outside(quat, lastQuat, 2, BigQuatDiff) {
        lastQuat := quat;
        nothingChanged := false;
      }
      if Outside(quat, lastQuat, 3, BigQuatDiff) {
        lastQuat := quat;
        nothingChanged := false;
      }
    }

    /** `checkReadFromSensor()`: inside the interval nothing happens; otherwise the read quaternion is kept only on a big change. */
    method CheckReadFromSensor(now: u32, quat: seq<real>) returns (changed: bool)
      requires Valid() && |quat| == 4
      modifies this
      ensures Valid() && reconnectionTime == old(reconnectionTime)
      ensures Elapsed(now, old(lastReadTime)) < readIntervalMs ==>
        !changed && lastReadTime == old(lastReadTime) && lastQuat == old(lastQuat) && readQuat == old(readQuat)
        && sensorInit == old(sensorInit) && firstZeros == old(firstZeros) && led == old(led)
      ensures Elapsed(now, old(lastReadTime)) >= readIntervalMs ==>
        lastReadTime == now && changed == BigChange(quat, old(lastQuat), BigQuatDiff) &&
        firstZeros == (old(firstZeros) && AllZero(quat)) &&
        (AllZero(quat) && !old(firstZeros) ==> !sensorInit && led == StatusLed(true, now)) &&
        (!(AllZero(quat) && !old(firstZeros)) ==> sensorInit == old(sensorInit) && led == old(led)) &&
        (changed ==> readQuat == quat && lastQuat == quat) &&
        (!changed ==> readQuat == old(readQuat) && lastQuat == old(lastQuat))
    {
      if Elapsed(now, lastReadTime) < readIntervalMs {
        return false;
      }
      lastReadTime := now;
      CheckConnectionSensorQuat(quat, now);
      var nothing := NoBigChangeQuat(quat);
      if nothing {
        return false;
      }
      readQuat := quat;
      return true;
    }

    /**
     * `isCalibrationOK()` on the system calibration level the chip reports:
     * below 2 the LED blinks slowly; otherwise the LED goes off (steady), which also
     * marks the sensor initialised.
     */
    method IsCalibrationOK(sys: byte, now: u32) returns (ok: bool)
      requires Valid()
      modifies this
      ensures Valid() && (ok <==> sys >= 2)
      ensures ok ==> sensorInit && led == StatusLed(false, now)
      ensures !ok ==> sensorInit == old(sensorInit) && led == LedAfter(old(led), Calibrating, now)
      ensures firstZeros == old(firstZeros) && lastQuat == old(lastQuat) && readQuat == old(readQuat)
      ensures lastReadTime == old(lastReadTime) && reconnectionTime == old(reconnectionTime)
    {
      if sys < 2 {
        if Elapsed(now, led.lastToggle) > 500 {
          led := StatusLed(!led.on, now);
        }
        return false;
      }
      sensorInit := true;
      led := StatusLed(false, now);
      return true;
    }
  }

  /** The starting quaternion (-1, -1, -1, -1) differs from every unit-range reading with w >= 0, so the first read is always a change. */
  lemma FirstReadChanges(q: seq<real>)
    requires |q| == 4 && q[0] >= 0.0
    ensures BigChange(q, [-1.0, -1.0, -1.0, -1.0], BigQuatDiff)
  {
    assert Outside(q, [-1.0, -1.0, -1.0, -1.0], 0, BigQuatDiff);
  }

  /** A reading equal to the last one is never a change: once `mLastQuat` has become `quat`, later components of the same call cannot trigger. */
  lemma NoChangeAgainstItself(q: seq<real>)
    requires |q| == 4
    ensures !BigChange(q, q, BigQuatDiff)
  {
  }
}
