/**
 * The JSON messages of the Android sensor app: the data message it sends
 * for a reading, and the check it makes on an action received from the host.
 * A JSON object is a map; floats are reals.
 */
module BodynodesProtocol {

  datatype JsonValue = JStr(s: string) | JInt(i: int) | JReal(r: real) | JArray(items: seq<JsonValue>)

  type JsonObject = map<string, JsonValue>

  const PlayerTag := "player"
  const BodypartTag := "bodypart"
  const SensorTypeTag := "sensortype"
  const ValueTag := "value"

  const OrientationAbsTag := "orientation_abs"
  const AccelerationRelTag := "acceleration_rel"
  const GloveTag := "glove"

  const ActionTypeTag := "type"
  const ActionHapticTag := "haptic"
  const ActionDurationTag := "duration_ms"
  const ActionStrengthTag := "strength"
  const ActionCodeHaptic: int := 0

  /**
   * `JSONObject.accumulate(key, v)`: a new key holds `v` itself, a second
   * value turns it into an array of both, and later values are appended.
   */
  function Accumulate(obj: JsonObject, key: string, v: JsonValue): (r: JsonObject)
    ensures r.Keys == obj.Keys + {key}
    ensures forall k :: k in obj && k != key ==> r[k] == obj[k]
    ensures key !in obj ==> r[key] == v
    ensures key in obj ==> r[key].JArray? && |r[key].items| >= 1 && r[key].items[|r[key].items| - 1] == v
    ensures key in obj && obj[key].JArray? ==> r[key].items == obj[key].items + [v]
    ensures key in obj && !obj[key].JArray? ==> r[key].items == [obj[key], v]
  {
    if key !in obj then obj[key := v]
    else match obj[key]
      case JArray(items) => obj[key := JArray(items + [v])]
      case _ => obj[key := JArray([obj[key], v])]
  }

  /** One `accumulate` call per value, in order. */
  function AccumulateAll(obj: JsonObject, key: string, vs: seq<JsonValue>): JsonObject
    decreases |vs|
  {
    if |vs| == 0 then obj else AccumulateAll(Accumulate(obj, key, vs[0]), key, vs[1..])
  }

  /**
   * Two or more values, none of them an array, accumulated under a new key
   * form an array of them, and nothing else changes.
   */
  lemma AccumulateArray(obj: JsonObject, key: string, vs: seq<JsonValue>)
    requires key !in obj && |vs| >= 2 && !vs[0].JArray?
    ensures AccumulateAll(obj, key, vs) == obj[key := JArray(vs)]
  {
    var one := Accumulate(obj, key, vs[0]);
    assert one == obj[key := vs[0]];
    assert vs[..2] == [vs[0], vs[1]];
    assert Accumulate(one, key, vs[1]) == obj[key := JArray(vs[..2])];
    AppendAll(obj, key, vs[..2], vs[2..]);
    assert vs[..2] + vs[2..] == vs;
  }

  /** Values accumulated onto an array are appended to it. */
  lemma {:induction false} AppendAll(obj: JsonObject, key: string, items: seq<JsonValue>, vs: seq<JsonValue>)
    ensures AccumulateAll(obj[key := JArray(items)], key, vs) == obj[key := JArray(items + vs)]
    decreases |vs|
  {
    if |vs| == 0 {
      assert items + vs == items;
    } else {
      assert Accumulate(obj[key := JArray(items)], key, vs[0]) == obj[key := JArray(items + [vs[0]])];
      AppendAll(obj, key, items + [vs[0]], vs[1..]);
      assert items + [vs[0]] + vs[1..] == items + vs;
    }
  }

  function Ints(values: seq<int>): (vs: seq<JsonValue>)
    ensures |vs| == |values| && forall j :: 0 <= j < |values| ==> vs[j] == JInt(values[j])
  {
    seq(|values|, j requires 0 <= j < |values| => JInt(values[j]))
  }

  function Reals(values: seq<real>): (vs: seq<JsonValue>)
    ensures |vs| == |values| && forall j :: 0 <= j < |values| ==> vs[j] == JReal(values[j])
  {
    seq(|values|, j requires 0 <= j < |values| => JReal(values[j]))
  }

  /** The three tags every message carries. */
  function Header(player: string, bodypart: string, sensortype: string): JsonObject
  {
    map[PlayerTag := JStr(player), BodypartTag := JStr(bodypart), SensorTypeTag := JStr(sensortype)]
  }

  /**
   * `makeMessageWifi(player, bodypart, sensortype, int[] values)`: the
   * header, and for a glove the first nine values, one `accumulate` each.
   * Java throws on a glove array shorter than nine.
   */
  function MakeMessageInts(player: string, bodypart: string, sensortype: string, values: seq<int>): (m: JsonObject)
    requires sensortype == GloveTag ==> |values| >= 9
    ensures m.Keys == Header(player, bodypart, sensortype).Keys + (if sensortype == GloveTag then {ValueTag} else {})
    ensures m[PlayerTag] == JStr(player) && m[BodypartTag] == JStr(bodypart) && m[SensorTypeTag] == JStr(sensortype)
    ensures sensortype == GloveTag ==> m[ValueTag] == JArray(Ints(values[..9]))
  {
    var header := Header(player, bodypart, sensortype);
    if sensortype == GloveTag then
      AccumulateArray(header, ValueTag, Ints(values[..9]));
      AccumulateAll(header, ValueTag, Ints(values[..9]))
    else header
  }

  /**
   * `makeMessageWifi(player, bodypart, sensortype, float[] values)`: four
   * values for an absolute orientation, three for a relative acceleration,
   * none for any other type.
   */
  function MakeMessageReals(player: string, bodypart: string, sensortype: string, values: seq<real>): (m: JsonObject)
    requires sensortype == OrientationAbsTag ==> |values| >= 4
    requires sensortype == AccelerationRelTag ==> |values| >= 3
    ensures m.Keys == Header(player, bodypart, sensortype).Keys +
      (if sensortype == OrientationAbsTag || sensortype == AccelerationRelTag then {ValueTag} else {})
    ensures m[PlayerTag] == JStr(player) && m[BodypartTag] == JStr(bodypart) && m[SensorTypeTag] == JStr(sensortype)
    ensures sensortype == OrientationAbsTag ==> m[ValueTag] == JArray(Reals(values[..4]))
    ensures sensortype == AccelerationRelTag ==> m[ValueTag] == JArray(Reals(values[..3]))
  {
    var header := Header(player, bodypart, sensortype);
    if sensortype == OrientationAbsTag then
      AccumulateArray(header, ValueTag, Reals(values[..4]));
      AccumulateAll(header, ValueTag, Reals(values[..4]))
    else if sensortype == AccelerationRelTag then
      AccumulateArray(header, ValueTag, Reals(values[..3]));
      AccumulateAll(header, ValueTag, Reals(values[..3]))
    else header
  }

  /**
   * `parseActionWifi`: the haptic code when the action's type is the string
   * "haptic" and it has both a strength and a duration, -1 otherwise.
   * (`getString` turns a number into its digits, which never read "haptic".)
   */
  function ParseActionWifi(action: JsonObject): (code: int)
    ensures code == ActionCodeHaptic <==>
      (ActionTypeTag in action && action[ActionTypeTag] == JStr(ActionHapticTag) &&
       ActionStrengthTag in action && ActionDurationTag in action)
    ensures code != ActionCodeHaptic ==> code == -1
  {
    if ActionTypeTag in action && action[ActionTypeTag] == JStr(ActionHapticTag) then
      if ActionStrengthTag in action && ActionDurationTag in action then ActionCodeHaptic else -1
    else -1
  }

  /** The haptic action a host sends. */
  function HapticAction(strength: int, durationMs: int): JsonObject
  {
    map[ActionTypeTag := JStr(ActionHapticTag), ActionStrengthTag := JInt(strength), ActionDurationTag := JInt(durationMs)]
  }

  /** Every haptic action the host sends is recognised, and any one of its fields missing makes it rejected. */
  lemma HapticActionRecognised(strength: int, durationMs: int)
    ensures ParseActionWifi(HapticAction(strength, durationMs)) == ActionCodeHaptic
    ensures ParseActionWifi(HapticAction(strength, durationMs) - {ActionStrengthTag}) == -1
    ensures ParseActionWifi(HapticAction(strength, durationMs) - {ActionDurationTag}) == -1
    ensures ParseActionWifi(HapticAction(strength, durationMs) - {ActionTypeTag}) == -1
  {
  }
}
