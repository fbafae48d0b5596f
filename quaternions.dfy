/**
 * `BnQuaternion`: a 4×1 `BnMatrix` whose rows 0..3 are w, x, y, z, its
 * accessors, `conjugate` and the two `productHamilton` overloads.
 */
module Quaternions {
  import opened Matrices

  datatype Quat = Quat(w: real, x: real, y: real, z: real)

  /** The identity rotation (1, 0, 0, 0), the filter's initial quaternion. */
  const One: Quat := Quat(1.0, 0.0, 0.0, 0.0)

  const Zero: Quat := Quat(0.0, 0.0, 0.0, 0.0)

  /** A quaternion object as its four cells and its empty flag. */
  datatype BnQuat = BnQuat(q: Quat, isEmpty: bool)

  /** `BnQuaternion()`: four cells nobody has written (read as 0 here), empty. */
  const EmptyQuat: BnQuat := BnQuat(Zero, true)

  /** The shape every `BnQuaternion` object has: 4 rows, 1 column. */
  ghost predicate QuatShaped(m: Mat)
  {
    WF(m) && m.rows == 4 && m.columns == 1
  }

  /** The getters `w()`, `x()`, `y()`, `z()`: `val(0, 0)` .. `val(3, 0)`. */
  function QuatOf(m: Mat): (q: Quat)
    requires QuatShaped(m)
    ensures q.w == Get(m, 0, 0) && q.x == Get(m, 1, 0) && q.y == Get(m, 2, 0) && q.z == Get(m, 3, 0)
  {
    Quat(m.values[0], m.values[1], m.values[2], m.values[3])
  }

  /** The quaternion object seen as the `BnMatrix` it is. */
  function AsMatrix(b: BnQuat): (m: Mat)
    ensures QuatShaped(m) && m.isEmpty == b.isEmpty && QuatOf(m) == b.q
  {
    Mat(4, 1, [b.q.w, b.q.x, b.q.y, b.q.z], b.isEmpty)
  }

  /** `BnQuaternion(const BnMatrix&)`: a 4×1 matrix is copied with its flag, any other shape gives an empty quaternion. */
  function FromMatrix(m: Mat): (b: BnQuat)
    requires WF(m)
    ensures !(m.rows == 4 && m.columns == 1) ==> b.isEmpty
    ensures m.rows == 4 && m.columns == 1 ==> AsMatrix(b) == m
  {
    if m.rows != 4 || m.columns != 1 then EmptyQuat
    else BnQuat(QuatOf(m), m.isEmpty)
  }

  /** Converting to a matrix and back gives the same quaternion object. */
  lemma FromAsMatrix(b: BnQuat)
    ensures FromMatrix(AsMatrix(b)) == b
  {
  }

  /*** Hamilton product ***/

  /** A quaternion with no vector part. */
  predicate IsReal(q: Quat)
  {
    q.x == 0.0 && q.y == 0.0 && q.z == 0.0
  }

  /** Every component times a. */
  function Scale(a: real, q: Quat): Quat
  {
    Quat(a * q.w, a * q.x, a * q.y, a * q.z)
  }

  /**
   * The Hamilton product, as the value overload of `productHamilton` computes
   * it.
   */
  function Hamilton(l: Quat, r: Quat): Quat
  {
    Quat(l.w * r.w - l.x * r.x - l.y * r.y - l.z * r.z,
         l.w * r.x + l.x * r.w + l.y * r.z - l.z * r.y,
         l.w * r.y - l.x * r.z + l.y * r.w + l.z * r.x,
         l.w * r.z + l.x * r.y - l.y * r.x + l.z * r.w)
  }

  /** A quaternion with no vector part multiplies like a real number, on either side. */
  lemma HamiltonReal(l: Quat, r: Quat)
    ensures IsReal(l) ==> Hamilton(l, r) == Scale(l.w, r)
    ensures IsReal(r) ==> Hamilton(l, r) == Scale(r.w, l)
  {
  }

  /** Standard conjugate (w, -x, -y, -z). */
  function Conj(q: Quat): (c: Quat)
    ensures c.w == q.w && c.x == -q.x && c.y == -q.y && c.z == -q.z
  {
    Quat(q.w, -q.x, -q.y, -q.z)
  }

  function Norm2(q: Quat): (n: real)
    ensures n >= 0.0
  {
    q.w * q.w + q.x * q.x + q.y * q.y + q.z * q.z
  }

  /** (1, 0, 0, 0) is a left and a right unit of the product. */
  lemma HamiltonUnit(q: Quat)
    ensures Hamilton(One, q) == q && Hamilton(q, One) == q
  {
  }

  /** q times its conjugate is the real number |q|². */
  lemma HamiltonConj(q: Quat)
    ensures Hamilton(q, Conj(q)) == Quat(Norm2(q), 0.0, 0.0, 0.0)
    ensures Hamilton(Conj(q), q) == Quat(Norm2(q), 0.0, 0.0, 0.0)
  {
  }

  /** The conjugate reverses the order of a product. */
  lemma ConjOfProduct(a: Quat, b: Quat)
    ensures Conj(Hamilton(a, b)) == Hamilton(Conj(b), Conj(a))
  {
    var p, c := Hamilton(a, b), Hamilton(Conj(b), Conj(a));
    SwapProduct(a.w, b.w); SwapProduct(a.x, b.x); SwapProduct(a.y, b.y); SwapProduct(a.z, b.z);
    assert c.w == p.w;
    SwapProduct(a.w, b.x); SwapProduct(a.x, b.w); SwapProduct(a.y, b.z); SwapProduct(a.z, b.y);
    assert c.x == -p.x;
    SwapProduct(a.w, b.y); SwapProduct(a.x, b.z); SwapProduct(a.y, b.w); SwapProduct(a.z, b.x);
    assert c.y == -p.y;
    SwapProduct(a.w, b.z); SwapProduct(a.x, b.y); SwapProduct(a.y, b.x); SwapProduct(a.z, b.w);
    assert c.z == -p.z;
  }

  /** Products of the factors and of their negations, taken either way round. */
  lemma SwapProduct(u: real, v: real)
    ensures v * u == u * v && (-v) * u == -(u * v) && v * (-u) == -(u * v) && (-v) * (-u) == u * v
  {
  }

  /** Conjugating twice is the identity. */
  lemma ConjInvolution(q: Quat)
    ensures Conj(Conj(q)) == q
  {
  }

  /** `productHamilton(quatL, quatR)` returning a fresh quaternion: empty on an empty operand. */
  function ProductHamilton(L: BnQuat, R: BnQuat): (P: BnQuat)
    ensures L.isEmpty || R.isEmpty ==> P == EmptyQuat
    ensures !L.isEmpty && !R.isEmpty ==> !P.isEmpty && P.q == Hamilton(L.q, R.q)
  {
    if L.isEmpty || R.isEmpty then EmptyQuat
    else BnQuat(Hamilton(L.q, R.q), false)
  }

  /**
   * The result-parameter overload as written.
   */
  function HamiltonAsWritten(l: Quat, r: Quat): Quat
  {
    Quat(l.w * r.w - l.x * r.x - l.y * r.y - l.z * r.z,
         l.w * r.x - l.x * r.w - l.y * r.z - l.z * r.y,
         l.w * r.y - l.x * r.z - l.y * r.w - l.z * r.x,
         l.w * r.z - l.x * r.y - l.y * r.x - l.z * r.w)
  }

  /**
   * With those signs a real left factor still scales the right one, but a
   * real right factor scales the conjugate of the left one.
   */
  lemma HamiltonAsWrittenReal(l: Quat, r: Quat)
    ensures IsReal(l) ==> HamiltonAsWritten(l, r) == Scale(l.w, r)
    ensures IsReal(r) ==> HamiltonAsWritten(l, r) == Scale(r.w, Conj(l))
  {
  }

  /** Against the value overload, w agrees while x, y and z each lose twice two of their terms. */
  lemma HamiltonAsWrittenDiff(l: Quat, r: Quat)
    ensures HamiltonAsWritten(l, r).w == Hamilton(l, r).w
    ensures HamiltonAsWritten(l, r).x == Hamilton(l, r).x - 2.0 * (l.x * r.w + l.y * r.z)
    ensures HamiltonAsWritten(l, r).y == Hamilton(l, r).y - 2.0 * (l.y * r.w + l.z * r.x)
    ensures HamiltonAsWritten(l, r).z == Hamilton(l, r).z - 2.0 * (l.x * r.y + l.z * r.w)
  {
  }

  /** With those signs (1, 0, 0, 0) is no right unit: the product with it is the conjugate. */
  lemma HamiltonAsWrittenRightOne(q: Quat)
    ensures HamiltonAsWritten(q, One) == Conj(q)
    ensures q.x != 0.0 ==> HamiltonAsWritten(q, One) != q
  {
  }

  /** The two overloads disagree, e.g. on (0, 1, 0, 0) times (1, 0, 0, 0). */
  lemma OverloadsDisagree()
    ensures HamiltonAsWritten(Quat(0.0, 1.0, 0.0, 0.0), One) != Hamilton(Quat(0.0, 1.0, 0.0, 0.0), One)
  {
    HamiltonAsWrittenRightOne(Quat(0.0, 1.0, 0.0, 0.0));
    HamiltonUnit(Quat(0.0, 1.0, 0.0, 0.0));
  }

  /*** Conjugate ***/

  /** `conjugate()` as written: three calls to the x setter, so x ends as -z and y, z stay. */
  function ConjugateAsWritten(q: Quat): (c: Quat)
    ensures c.w == q.w && c.y == q.y && c.z == q.z
  {
    var afterFirst := q.(x := -q.x);
    var afterSecond := afterFirst.(x := -afterFirst.y);
    afterSecond.(x := -afterSecond.z)
  }

  /** What `conjugate()` as written does: only x changes, and it becomes -z. */
  lemma ConjugateAsWrittenEffect(q: Quat)
    ensures ConjugateAsWritten(q) == Quat(q.w, -q.z, q.y, q.z)
    ensures ConjugateAsWritten(Quat(0.0, 1.0, 0.0, 0.0)) != Conj(Quat(0.0, 1.0, 0.0, 0.0))
  {
  }

  /*** The quaternion object in place ***/

  ghost predicate IsQuatObject(m: BnMatrix)
    reads m, m.values
  {
    m.Valid() && m.rows == 4 && m.columns == 1
  }

  /** The setters `w(v)`, `x(v)`, `y(v)`, `z(v)`: row `axis` of the single column. */
  method SetAxis(m: BnMatrix, axis: nat, v: real)
    requires IsQuatObject(m) && axis < 4
    modifies m, m.values
    ensures IsQuatObject(m) && m.values == old(m.values) && !m.isEmpty
    ensures QuatOf(m.Value()) == WithAxis(QuatOf(old(m.Value())), axis, v)
  {
    m.SetVal(axis, 0, v);
  }

  /** q with component `axis` (0 = w .. 3 = z) replaced by v. */
  function WithAxis(q: Quat, axis: nat, v: real): (r: Quat)
    requires axis < 4
    ensures Component(r, axis) == v
    ensures forall other :: 0 <= other < 4 && other != axis ==> Component(r, other) == Component(q, other)
  {
    if axis == 0 then q.(w := v) else if axis == 1 then q.(x := v) else if axis == 2 then q.(y := v) else q.(z := v)
  }

  function Component(q: Quat, axis: nat): real
    requires axis < 4
  {
    if axis == 0 then q.w else if axis == 1 then q.x else if axis == 2 then q.y else q.z
  }

  /** `conjugate()` with the setters the comment `[w, -x, -y, -z]` asks for (the corrected form). */
  method Conjugate(m: BnMatrix)
    requires IsQuatObject(m)
    modifies m, m.values
    ensures IsQuatObject(m) && m.values == old(m.values) && !m.isEmpty
    ensures QuatOf(m.Value()) == Conj(QuatOf(old(m.Value())))
  {
    var q := QuatOf(m.Value());
    SetAxis(m, 1, -q.x);
    SetAxis(m, 2, -q.y);
    SetAxis(m, 3, -q.z);
  }

  /** `productHamilton(result, quatL, quatR)` with the product of the value overload (the corrected form). */
  method ProductHamiltonInto(result: BnMatrix, L: BnQuat, R: BnQuat)
    requires result.Valid()
    modifies result, result.values
    ensures result.Valid() && result.values == old(result.values)
    ensures result.rows == old(result.rows) && result.columns == old(result.columns)
    ensures L.isEmpty || R.isEmpty || result.rows != 4 || result.columns != 1 ==>
      result.Value() == old(result.Value())
    ensures !(L.isEmpty || R.isEmpty || result.rows != 4 || result.columns != 1) ==>
      !result.isEmpty && QuatOf(result.Value()) == Hamilton(L.q, R.q)
  {
    if L.isEmpty || R.isEmpty || result.rows != 4 || result.columns != 1 {
      return;
    }
    var p := Hamilton(L.q, R.q);
    SetAxis(result, 0, p.w);
    SetAxis(result, 1, p.x);
    SetAxis(result, 2, p.y);
    SetAxis(result, 3, p.z);
  }
}
