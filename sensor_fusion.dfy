/**
 * The state of `BnSensorFusionMadgwickAHRS`: the sample period, the time of
 * the last update and the internal quaternion. The numeric body of the
 * Madgwick step (gradient, normalisation) is not modelled: the quaternion
 * it produces is a parameter of the update methods.
 */
module SensorFusion {
  import opened Common
  import opened Matrices
  import opened Quaternions

  /** `static_cast<uint32_t>(now - last)` with `now`, `last` of type `uint64_t`. */
  function PeriodBetween(now: u64, last: u64): (p: u32)
    ensures last <= now && now - last < TWO32 ==> p == now - last
    ensures (p - (now - last)) % TWO32 == 0
  {
    (now - last) % TWO32
  }

  class MadgwickFilter {
    var samplePeriodMs: u32
    const gain: real
    const rescaleGyro: real
    const axisSigns: Mat
    var internalQuat: BnQuat
    var timeNow: u64

    /** The constructor: the quaternion starts empty and no time has been seen. */
    constructor (samplePeriodMs: u32, gain: real, rescaleGyro: real, axisSigns: Mat)
      ensures this.samplePeriodMs == samplePeriodMs && this.gain == gain
      ensures this.rescaleGyro == rescaleGyro && this.axisSigns == axisSigns
      ensures internalQuat == EmptyQuat && timeNow == 0
    {
      this.samplePeriodMs := samplePeriodMs;
      this.gain := gain;
      this.rescaleGyro := rescaleGyro;
      this.axisSigns := axisSigns;
      internalQuat := EmptyQuat;
      timeNow := 0;
    }

    /** `init(initialQuat)`: the internal quaternion becomes a copy of the argument. */
    method Init(initialQuat: BnQuat)
      modifies this
      ensures internalQuat == initialQuat
      ensures samplePeriodMs == old(samplePeriodMs) && timeNow == old(timeNow)
    {
      internalQuat := initialQuat;
    }

    /** `updateSamplePeriod_ms`: the period is measured only once a previous time exists; the time is always stored. */
    method UpdateSamplePeriod(now: u64)
      modifies this
      ensures timeNow == now && internalQuat == old(internalQuat)
      ensures old(timeNow) == 0 ==> samplePeriodMs == old(samplePeriodMs)
      ensures old(timeNow) != 0 ==> samplePeriodMs == PeriodBetween(now, old(timeNow))
    {
      if timeNow != 0 {
        samplePeriodMs := PeriodBetween(now, timeNow);
      }
      timeNow := now;
    }

    /**
     * `updateIMU(gyro, accel, time_now)`: before `init` (empty quaternion) nothing
     * changes; otherwise the period is updated and `next`, the result of the
     * numeric step, becomes the internal quaternion.
     */
    method UpdateIMU(gyro: Mat, accel: Mat, now: u64, next: Quat)
      modifies this
      ensures old(internalQuat).isEmpty ==>
        internalQuat == old(internalQuat) && timeNow == old(timeNow) && samplePeriodMs == old(samplePeriodMs)
      ensures !old(internalQuat).isEmpty ==> internalQuat == BnQuat(next, false) && timeNow == now
      ensures !old(internalQuat).isEmpty && old(timeNow) != 0 ==> samplePeriodMs == PeriodBetween(now, old(timeNow))
      ensures !old(internalQuat).isEmpty && old(timeNow) == 0 ==> samplePeriodMs == old(samplePeriodMs)
    {
      if internalQuat.isEmpty {
        return;
      }
      UpdateSamplePeriod(now);
      internalQuat := BnQuat(next, false);
    }

    /** `updateMAGR(gyro, accel, magn, time_now)`: the same guard and period update as `updateIMU`. */
    method UpdateMAGR(gyro: Mat, accel: Mat, magn: Mat, now: u64, next: Quat)
      modifies this
      ensures old(internalQuat).isEmpty ==>
        internalQuat == old(internalQuat) && timeNow == old(timeNow) && samplePeriodMs == old(samplePeriodMs)
      ensures !old(internalQuat).isEmpty ==> internalQuat == BnQuat(next, false) && timeNow == now
      ensures !old(internalQuat).isEmpty && old(timeNow) != 0 ==> samplePeriodMs == PeriodBetween(now, old(timeNow))
      ensures !old(internalQuat).isEmpty && old(timeNow) == 0 ==> samplePeriodMs == old(samplePeriodMs)
    {
      if internalQuat.isEmpty {
        return;
      }
      UpdateSamplePeriod(now);
      internalQuat := BnQuat(next, false);
    }

    /** `getQuaternion(out)`: copies w, x, y, z into `out` unless the internal quaternion is empty. */
    method GetQuaternion(out: BnMatrix)
      requires IsQuatObject(out)
      modifies out, out.values
      ensures IsQuatObject(out) && out.values == old(out.values)
      ensures internalQuat.isEmpty ==> out.Value() == old(out.Value())
      ensures !internalQuat.isEmpty ==> !out.isEmpty && QuatOf(out.Value()) == internalQuat.q
    {
      if internalQuat.isEmpty {
        return;
      }
      SetAxis(out, 0, internalQuat.q.w);
      SetAxis(out, 1, internalQuat.q.x);
      SetAxis(out, 2, internalQuat.q.y);
      SetAxis(out, 3, internalQuat.q.z);
    }
  }

  /** The node's filter: period SENSOR_READ_INTERVAL_MS, gain 0.8, gyro rescale 0.02, axis signs (1, -1, 1). */
  method NewNodeFilter(readIntervalMs: u32) returns (f: MadgwickFilter)
    ensures fresh(f) && f.samplePeriodMs == readIntervalMs && f.gain == 0.8 && f.rescaleGyro == 0.02
    ensures f.axisSigns == Mat(3, 1, [1.0, -1.0, 1.0], false)
    ensures f.internalQuat == EmptyQuat && f.timeNow == 0
  {
    f := new MadgwickFilter(readIntervalMs, 0.8, 0.02, Mat(3, 1, [1.0, -1.0, 1.0], false));
  }


  /** A 64-bit time that wrapped (`now` smaller than the stored time) still gives the 32-bit difference. */
  lemma PeriodAcrossWrap(now: u64, last: u64)
    requires now < last && last - now < TWO32
    ensures PeriodBetween(now, last) == TWO32 - (last - now)
  {
  }
}
