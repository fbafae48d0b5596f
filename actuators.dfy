/**
 * The single haptic actuator of the ESP-12E sensor node: one vibration
 * record that the newest haptic action overwrites, and a periodic step that
 * drives the motor pin while the vibration's window is open.
 *
 * `millis()` is the parameter `now`, an `unsigned long` of 32 bits; the pin
 * writes are the Boolean a step returns.
 */
module Actuators {
  import opened Common

  const ActionNope: int := 0
  const ActionHaptic: int := 1

  /** `struct Action` of the sensor node (its bodypart and message fields play no part here). */
  datatype Action = Action(actionType: int, strength: int, durationMs: int)

  /** An `int` stored into an `unsigned long`: its value modulo 2^32. */
  function ToU32(x: int): (r: u32)
    ensures 0 <= x < TWO32 ==> r == x
    ensures (r - x) % TWO32 == 0
  {
    x % TWO32
  }

  /** The motor test of `makeActions()`: the unsigned difference `now - start` is below the duration. */
  predicate MotorOn(now: u32, start: u32, duration: u32)
  {
    Elapsed(now, start) < duration
  }

  /**
   * A vibration started at `start` keeps the motor on for exactly the first
   * `duration` milliseconds after it, including across the wrap of the
   * 32-bit millisecond counter.
   */
  lemma OnForDuration(start: u32, duration: u32, t: int)
    requires 0 <= t < TWO32
    ensures MotorOn(ToU32(start + t), start, duration) <==> t < duration
  {
    var now := ToU32(start + t);
    if start + t < TWO32 {
      assert now == start + t;
      assert Elapsed(now, start) == t;
    } else {
      assert now == start + t - TWO32;
      assert Elapsed(now, start) == t;
    }
  }

  /** A zero duration never turns the motor on, whatever the clock says. */
  lemma ZeroDurationOff(now: u32, start: u32)
    ensures !MotorOn(now, start, 0)
  {
  }

  /** The global `Vibration` record; a C global starts zeroed. */
  class Vibration {
    var startTime: u32
    var duration: u32
    var strength: byte

    constructor ()
      ensures startTime == 0 && duration == 0 && strength == 0
    {
      startTime := 0;
      duration := 0;
      strength := 0;
    }

    /** `initActuators()`: start and duration cleared (the strength is left as it was), so the motor is off. */
    method InitActuators()
      modifies this
      ensures startTime == 0 && duration == 0 && strength == old(strength)
      ensures forall now: u32 :: !MotorOn(now, startTime, duration)
    {
      startTime := 0;
      duration := 0;
    }

    /**
     * `setAction(action)`: a haptic action replaces the whole record, starting
     * now; any other action type leaves it as it was.
     */
    method SetAction(action: Action, now: u32)
      modifies this
      ensures action.actionType == ActionHaptic ==>
        startTime == now && duration == ToU32(action.durationMs) && strength == ToU8(action.strength)
      ensures action.actionType != ActionHaptic ==>
        startTime == old(startTime) && duration == old(duration) && strength == old(strength)
    {
      if action.actionType == ActionHaptic {
        startTime := now;
        duration := ToU32(action.durationMs);
        strength := ToU8(action.strength);
      }
    }

    /** `makeActions()`: the level written to the motor pin; the record is not changed. */
    method MakeActions(now: u32) returns (motorOn: bool)
      ensures motorOn <==> MotorOn(now, startTime, duration)
    {
      motorOn := Elapsed(now, startTime) < duration;
    }
  }

  /**
   * Since there is one actuator, the newer haptic action wins: after two
   * haptic actions the record is exactly what the second one set, and the
   * motor runs for its duration from its start.
   */
  method SecondActionWins(v: Vibration, first: Action, second: Action, t1: u32, t2: u32, t: int)
    returns (motorOn: bool)
    requires first.actionType == ActionHaptic && second.actionType == ActionHaptic
    requires 0 <= second.durationMs < TWO32 && 0 <= t < TWO32
    modifies v
    ensures v.startTime == t2 && v.duration == second.durationMs && v.strength == ToU8(second.strength)
    ensures motorOn <==> t < second.durationMs
  {
    v.SetAction(first, t1);
    v.SetAction(second, t2);
    motorOn := v.MakeActions(ToU32(t2 + t));
    OnForDuration(t2, v.duration, t);
  }
}
