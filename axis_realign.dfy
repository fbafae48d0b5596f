/**
 * Axis realignment of an orientation quaternion: output axis i takes input
 * axis `source[i]` times a sign `mul[i]`. The C++ sensors read the
 * configuration from OUT_AXIS_* / MUL_AXIS_* defines, the Android app from
 * OA_* constants.
 */
module AxisRealign {

  datatype AxisConfig = AxisConfig(source: seq<nat>, mul: seq<real>)

  /** Four distinct axes out of 0..3, hence each axis exactly once. */
  ghost predicate IsPermutation(s: seq<nat>)
  {
    |s| == 4 && s[0] < 4 && s[1] < 4 && s[2] < 4 && s[3] < 4 &&
    s[0] != s[1] && s[0] != s[2] && s[0] != s[3] && s[1] != s[2] && s[1] != s[3] && s[2] != s[3]
  }

  ghost predicate IsSign(m: real)
  {
    m == 1.0 || m == -1.0
  }

  /** A usable configuration: the sources are a permutation of 0..3 and every factor is +1 or -1. */
  ghost predicate ValidConfig(cfg: AxisConfig)
  {
    IsPermutation(cfg.source) && |cfg.mul| == 4 &&
    IsSign(cfg.mul[0]) && IsSign(cfg.mul[1]) && IsSign(cfg.mul[2]) && IsSign(cfg.mul[3])
  }

  /** `revalues[i] = MUL_AXIS_i * values[OUT_AXIS_i]` for the four axes. */
  function Realigned(cfg: AxisConfig, v: seq<real>): (out: seq<real>)
    requires ValidConfig(cfg) && |v| == 4
    ensures |out| == 4
    ensures forall i :: 0 <= i < 4 ==> out[i] == Signed(cfg.mul[i], v[cfg.source[i]])
  {
    [Signed(cfg.mul[0], v[cfg.source[0]]), Signed(cfg.mul[1], v[cfg.source[1]]),
     Signed(cfg.mul[2], v[cfg.source[2]]), Signed(cfg.mul[3], v[cfg.source[3]])]
  }

  /** One axis value times its factor. */
  function Signed(m: real, x: real): real
  {
    m * x
  }

  /** The BNO055 node: OUT_AXIS (2, 0, 3, 1), MUL_AXIS (1, -1, -1, -1). */
  const Bno055Config: AxisConfig := AxisConfig([2, 0, 3, 1], [1.0, -1.0, -1.0, -1.0])

  /** The Android app: OA_SENSOR_AXIS (0, 3, 2, 1) into outputs (0, 1, 2, 3), OA_MUL_AXIS (-1, 1, 1, -1). */
  const AndroidConfig: AxisConfig := AxisConfig([0, 3, 2, 1], [-1.0, 1.0, 1.0, -1.0])

  lemma ConfigsValid()
    ensures ValidConfig(Bno055Config) && ValidConfig(AndroidConfig)
  {
  }

  /** The BNO055 node maps q to (q2, -q0, -q3, -q1). */
  lemma Bno055Mapping(v: seq<real>)
    requires |v| == 4
    ensures ValidConfig(Bno055Config)
    ensures Realigned(Bno055Config, v) == [v[2], -v[0], -v[3], -v[1]]
  {
    ConfigsValid();
    var out := Realigned(Bno055Config, v);
    assert out[0] == v[2] && out[1] == -v[0] && out[2] == -v[3] && out[3] == -v[1];
  }

  /** The Android app maps q to (-q0, q3, q2, -q1). */
  lemma AndroidMapping(v: seq<real>)
    requires |v| == 4
    ensures ValidConfig(AndroidConfig)
    ensures Realigned(AndroidConfig, v) == [-v[0], v[3], v[2], -v[1]]
  {
    ConfigsValid();
    var out := Realigned(AndroidConfig, v);
    assert out[0] == -v[0] && out[1] == v[3] && out[2] == v[2] && out[3] == -v[1];
  }

  /** The position of axis a among the sources. */
  function SourceIndex(cfg: AxisConfig, a: nat): (i: nat)
    requires ValidConfig(cfg) && a < 4
    ensures i < 4 && cfg.source[i] == a
  {
    if cfg.source[0] == a then 0 else if cfg.source[1] == a then 1 else if cfg.source[2] == a then 2 else 3
  }

  /** The configuration that undoes `cfg`: axis a is read back from where `cfg` sent it, with the same sign. */
  function Inverse(cfg: AxisConfig): (inv: AxisConfig)
    requires ValidConfig(cfg)
    ensures ValidConfig(inv)
    ensures forall a :: 0 <= a < 4 ==> inv.source[a] < 4 && cfg.source[inv.source[a]] == a
    ensures forall a :: 0 <= a < 4 ==> inv.mul[a] == cfg.mul[inv.source[a]]
  {
    var s := [SourceIndex(cfg, 0), SourceIndex(cfg, 1), SourceIndex(cfg, 2), SourceIndex(cfg, 3)];
    AxisConfig(s, [cfg.mul[s[0]], cfg.mul[s[1]], cfg.mul[s[2]], cfg.mul[s[3]]])
  }

  /** Realignment loses nothing: the inverse configuration restores the sensor's quaternion. */
  lemma RealignInvertible(cfg: AxisConfig, v: seq<real>)
    requires ValidConfig(cfg) && |v| == 4
    ensures Realigned(Inverse(cfg), Realigned(cfg, v)) == v
  {
    var back := Realigned(Inverse(cfg), Realigned(cfg, v));
    AxisRestored(cfg, v, 0);
    AxisRestored(cfg, v, 1);
    AxisRestored(cfg, v, 2);
    AxisRestored(cfg, v, 3);
    assert back[0] == v[0] && back[1] == v[1] && back[2] == v[2] && back[3] == v[3];
  }

  lemma AxisRestored(cfg: AxisConfig, v: seq<real>, a: nat)
    requires ValidConfig(cfg) && |v| == 4 && a < 4
    ensures Realigned(Inverse(cfg), Realigned(cfg, v))[a] == v[a]
  {
    var inv := Inverse(cfg);
    var i := inv.source[a];
    var m := cfg.mul[i];
    assert Realigned(cfg, v)[i] == Signed(m, v[a]);
    SignSquared(m, v[a]);
  }

  lemma SignSquared(m: real, x: real)
    requires IsSign(m)
    ensures Signed(m, Signed(m, x)) == x
  {
  }

  /** `realignAxis(values, revalues)`: fills the caller's output array. */
  method RealignAxis(cfg: AxisConfig, values: array<real>, revalues: array<real>)
    requires ValidConfig(cfg) && values.Length == 4 && revalues.Length == 4 && values != revalues
    modifies revalues
    ensures revalues[..] == Realigned(cfg, values[..])
  {
    revalues[0] := Signed(cfg.mul[0], values[cfg.source[0]]);
    revalues[1] := Signed(cfg.mul[1], values[cfg.source[1]]);
    revalues[2] := Signed(cfg.mul[2], values[cfg.source[2]]);
    revalues[3] := Signed(cfg.mul[3], values[cfg.source[3]]);
    var out := Realigned(cfg, values[..]);
    assert revalues[0] == out[0] && revalues[1] == out[1] && revalues[2] == out[2] && revalues[3] == out[3];
  }
}
