/**
 * `BnMatrix::determinant` and the LU elimination of `determinantArray`: partial
 * pivoting on the largest absolute value, a sign flip per row swap, an early
 * 0 on a zero pivot, and the row updates of Gaussian elimination, all done in
 * place on a copy of the buffer.
 */
module Determinants {
  import opened Matrices

  /** A square matrix as its list of rows, the view the elimination works on. */
  type Grid = seq<seq<real>>

  ghost predicate Square(s: Grid)
  {
    forall i :: 0 <= i < |s| ==> |s[i]| == |s|
  }

  function Abs(x: real): real
  {
    if x < 0.0 then -x else x
  }

  /** The rows of an n×n row-major buffer. */
  function ToGrid(vals: seq<real>, n: nat): (s: Grid)
    requires |vals| == n * n
    ensures |s| == n && Square(s)
  {
    seq(n, r requires 0 <= r < n => seq(n, c requires 0 <= c < n => Get(Mat(n, n, vals, false), r, c)))
  }

  /** The rows of a 2-D array. */
  function Rows(m: array2<real>): (s: Grid)
    reads m
    ensures |s| == m.Length0 && forall r :: 0 <= r < |s| ==> |s[r]| == m.Length1
  {
    seq(m.Length0, r requires 0 <= r < m.Length0 reads m =>
      seq(m.Length1, c requires 0 <= c < m.Length1 reads m => m[r, c]))
  }

  lemma RowsAre(m: array2<real>, g: Grid)
    requires |g| == m.Length0 && forall r :: 0 <= r < |g| ==> |g[r]| == m.Length1
    requires forall r, c :: 0 <= r < m.Length0 && 0 <= c < m.Length1 ==> m[r, c] == g[r][c]
    ensures Rows(m) == g
  {
    forall r | 0 <= r < |g| ensures Rows(m)[r] == g[r] {
      assert forall c :: 0 <= c < m.Length1 ==> Rows(m)[r][c] == g[r][c];
    }
  }

  /*** One step of the elimination, as functions on the rows ***/

  /** Cell (r, c), or 0 outside the rows; keeps the step functions total. */
  function At(s: Grid, r: nat, c: nat): real
  {
    if r < |s| && c < |s[r]| then s[r][c] else 0.0
  }

  /** The pivot search from row k on: a later row wins only with a strictly larger |value|. */
  function PivotFrom(s: Grid, i: nat, k: nat, best: nat): (p: nat)
    requires best < |s|
    ensures p < |s| && (p == best || k <= p)
    decreases |s| - k
  {
    if k >= |s| then best
    else PivotFrom(s, i, k + 1, if Abs(At(s, k, i)) > Abs(At(s, best, i)) then k else best)
  }

  /** `maxRow` for column i. */
  function Pivot(s: Grid, i: nat): (p: nat)
    requires i < |s|
    ensures i <= p < |s|
  {
    PivotFrom(s, i, i + 1, i)
  }

  /** The three `memcpy` calls that exchange rows i and p. */
  function SwapRows(s: Grid, i: nat, p: nat): (t: Grid)
    requires i < |s| && p < |s|
    ensures |t| == |s|
  {
    s[i := s[p]][p := s[i]]
  }

  /** Swapping a row with itself changes nothing (the `i != maxRow` test skips it). */
  lemma SwapSame(s: Grid, i: nat)
    requires i < |s|
    ensures SwapRows(s, i, i) == s
  {
  }

  /** A row divided by the pivot right of column i. */
  function NormalizeRow(row: seq<real>, i: nat, pivot: real): (r: seq<real>)
    requires pivot != 0.0
    ensures |r| == |row|
  {
    seq(|row|, k requires 0 <= k < |row| => if k > i then row[k] / pivot else row[k])
  }

  /** One cell of a row operation: `x -= factor * y`. */
  function Reduced(x: real, factor: real, y: real): real
  {
    x - factor * y
  }

  /** Every row below i loses s[j][i] times row i, right of column i. */
  function Eliminate(s: Grid, i: nat): (t: Grid)
    ensures |t| == |s|
  {
    seq(|s|, j requires 0 <= j < |s| =>
      if j > i then seq(|s[j]|, k requires 0 <= k < |s[j]| => if k > i then Reduced(s[j][k], At(s, j, i), At(s, i, k)) else s[j][k])
      else s[j])
  }

  /** The running determinant after a step: negated on a row swap, then multiplied by the pivot. */
  function Accumulate(det: real, swapped: bool, pivot: real): real
  {
    (if swapped then -det else det) * pivot
  }

  /** What the loop still computes from row i on, with `det` accumulated so far. */
  function DetFrom(s: Grid, i: nat, det: real): real
    requires i <= |s|
    decreases |s| - i
  {
    if i == |s| then det
    else
      var p := Pivot(s, i);
      var t := SwapRows(s, i, p);
      var pivot := At(t, i, i);
      if pivot == 0.0 then 0.0
      else DetFrom(Eliminate(t[i := NormalizeRow(t[i], i, pivot)], i), i + 1, Accumulate(det, i != p, pivot))
  }

  /** The value `determinantArray` returns, starting from det = 1. */
  function DetLU(s: Grid): real
  {
    DetFrom(s, 0, 1.0)
  }

  /** One step of DetFrom, with the swapped rows and the pivot named by the caller. */
  lemma DetStep(s: Grid, i: nat, det: real, p: nat, t: Grid, pivot: real)
    requires i < |s| && p == Pivot(s, i) && t == SwapRows(s, i, p) && pivot == At(t, i, i)
    ensures pivot == 0.0 ==> DetFrom(s, i, det) == 0.0
    ensures pivot != 0.0 ==> (DetFrom(s, i, det) ==
      DetFrom(Eliminate(t[i := NormalizeRow(t[i], i, pivot)], i), i + 1, Accumulate(det, i != p, pivot)))
  {
  }

  /*** The in-place algorithm ***/

  method FindPivot(m: array2<real>, i: nat) returns (p: nat)
    requires m.Length0 == m.Length1 && i < m.Length0
    ensures p == Pivot(Rows(m), i)
  {
    ghost var s := Rows(m);
    p := i;
    var k := i + 1;
    while k < m.Length0
      invariant i + 1 <= k <= m.Length0 || k == i + 1
      invariant i <= p < m.Length0
      invariant PivotFrom(s, i, k, p) == Pivot(s, i)
      decreases m.Length0 - k
    {
      if Abs(m[k, i]) > Abs(m[p, i]) {
        p := k;
      }
      k := k + 1;
    }
  }

  method SwapRowsInPlace(m: array2<real>, i: nat, p: nat)
    requires m.Length0 == m.Length1 && i < m.Length0 && p < m.Length0 && i != p
    modifies m
    ensures Rows(m) == SwapRows(old(Rows(m)), i, p)
  {
    ghost var s := Rows(m);
    var c := 0;
    while c < m.Length1
      invariant c <= m.Length1
      invariant forall r, k :: 0 <= r < m.Length0 && 0 <= k < m.Length1 ==>
        m[r, k] == if k < c && r == i then s[p][k] else if k < c && r == p then s[i][k] else s[r][k]
    {
      var tmp := m[i, c];
      m[i, c] := m[p, c];
      m[p, c] := tmp;
      c := c + 1;
    }
    RowsAre(m, SwapRows(s, i, p));
  }

  method NormalizeRowInPlace(m: array2<real>, i: nat)
    requires m.Length0 == m.Length1 && i < m.Length0 && m[i, i] != 0.0
    modifies m
    ensures Rows(m) == old(Rows(m))[i := NormalizeRow(old(Rows(m))[i], i, old(Rows(m))[i][i])]
  {
    ghost var s := Rows(m);
    var k := i + 1;
    while k < m.Length1
      invariant i + 1 <= k <= m.Length1 || k == i + 1
      invariant m[i, i] == s[i][i]
      invariant forall r, c :: 0 <= r < m.Length0 && 0 <= c < m.Length1 ==>
        m[r, c] == if r == i && i < c < k then s[i][c] / s[i][i] else s[r][c]
      decreases m.Length1 - k
    {
      m[i, k] := m[i, k] / m[i, i];
      k := k + 1;
    }
    RowsAre(m, s[i := NormalizeRow(s[i], i, s[i][i])]);
  }

  /** The inner `k` loop: row j loses m[j][i] times row i, right of column i. */
  method EliminateRowInPlace(m: array2<real>, i: nat, j: nat)
    requires m.Length0 == m.Length1 && i < j < m.Length0
    modifies m
    ensures forall r, c :: 0 <= r < m.Length0 && 0 <= c < m.Length1 ==>
      m[r, c] == if r == j && c > i then Reduced(old(m[j, c]), old(m[j, i]), old(m[i, c])) else old(m[r, c])
  {
    var k := i + 1;
    while k < m.Length1
      invariant i + 1 <= k <= m.Length1 || k == i + 1
      invariant forall r, c :: 0 <= r < m.Length0 && 0 <= c < m.Length1 ==>
        m[r, c] == if r == j && i < c < k then Reduced(old(m[j, c]), old(m[j, i]), old(m[i, c])) else old(m[r, c])
      decreases m.Length1 - k
    {
      m[j, k] := m[j, k] - m[j, i] * m[i, k];
      k := k + 1;
    }
  }

  method EliminateInPlace(m: array2<real>, i: nat)
    requires m.Length0 == m.Length1 && i < m.Length0
    modifies m
    ensures Rows(m) == Eliminate(old(Rows(m)), i)
  {
    ghost var s := Rows(m);
    var j := i + 1;
    while j < m.Length0
      invariant i + 1 <= j <= m.Length0 || j == i + 1
      invariant forall r, c :: 0 <= r < m.Length0 && 0 <= c < m.Length1 ==>
        m[r, c] == if i < r < j && c > i then Reduced(s[r][c], s[r][i], s[i][c]) else s[r][c]
      decreases m.Length0 - j
    {
      EliminateRowInPlace(m, i, j);
      j := j + 1;
    }
    forall r, c | 0 <= r < m.Length0 && 0 <= c < m.Length1 ensures m[r, c] == Eliminate(s, i)[r][c] {
      assert At(s, r, i) == s[r][i] && At(s, i, c) == s[i][c];
    }
    RowsAre(m, Eliminate(s, i));
  }

  /** One pass of the loop body: swap in the pivot row, then on a non-zero pivot normalise and eliminate. */
  method EliminationStep(m: array2<real>, i: nat) returns (swapped: bool, pivot: real)
    requires m.Length0 == m.Length1 && i < m.Length0
    modifies m
    ensures var s := old(Rows(m)); var p := Pivot(s, i); var t := SwapRows(s, i, p);
      swapped == (i != p) && pivot == At(t, i, i) &&
      (pivot != 0.0 ==> Rows(m) == Eliminate(t[i := NormalizeRow(t[i], i, pivot)], i))
  {
    ghost var s := Rows(m);
    var p := FindPivot(m, i);
    ghost var t := SwapRows(s, i, p);
    swapped := i != p;
    if swapped {
      SwapRowsInPlace(m, i, p);
    } else {
      assert t == s;
    }
    assert Rows(m) == t;
    pivot := m[i, i];
    assert pivot == At(t, i, i) by { assert Rows(m)[i][i] == m[i, i]; }
    if pivot != 0.0 {
      NormalizeRowInPlace(m, i);
      EliminateInPlace(m, i);
    }
  }

  /** The working copy `m[i][j] = values[i * n + j]`. */
  method LoadGrid(n: nat, vals: seq<real>) returns (m: array2<real>)
    requires |vals| == n * n
    ensures fresh(m) && m.Length0 == n && m.Length1 == n
    ensures Rows(m) == ToGrid(vals, n)
  {
    m := new real[n, n]((r, c) requires 0 <= r < n && 0 <= c < n => Get(Mat(n, n, vals, false), r, c));
    RowsAre(m, ToGrid(vals, n));
  }

  /** `determinantArray(n, n, values)`. */
  method DeterminantArray(n: nat, vals: seq<real>) returns (det: real)
    requires |vals| == n * n
    ensures det == DetLU(ToGrid(vals, n))
  {
    var m := LoadGrid(n, vals);
    det := 1.0;
    var i := 0;
    while i < n
      invariant i <= n && m.Length0 == n && m.Length1 == n
      invariant DetFrom(Rows(m), i, det) == DetLU(ToGrid(vals, n))
    {
      ghost var s := Rows(m);
      var swapped, pivot := EliminationStep(m, i);
      DetStep(s, i, det, Pivot(s, i), SwapRows(s, i, Pivot(s, i)), pivot);
      if pivot == 0.0 {
        return 0.0;
      }
      det := Accumulate(det, swapped, pivot);
      i := i + 1;
    }
  }

  /** `determinant()`: -1 for an empty matrix, 0 when not square, closed forms for 1×1 and 2×2. */
  method Determinant(m: Mat) returns (d: real)
    requires WF(m)
    ensures m.isEmpty ==> d == -1.0
    ensures !m.isEmpty && m.rows != m.columns ==> d == 0.0
    ensures !m.isEmpty && m.rows == m.columns ==> d == DetLU(ToGrid(m.values, m.rows))
  {
    if m.isEmpty {
      return -1.0;
    }
    if m.columns != m.rows {
      return 0.0;
    }
    if m.columns == 1 {
      OneByOne(ToGrid(m.values, 1));
      return m.values[0];
    }
    if m.columns == 2 {
      var s := ToGrid(m.values, 2);
      TwoByTwo(s);
      assert s[0][0] == m.values[0] && s[0][1] == m.values[1];
      assert s[1][0] == m.values[2] && s[1][1] == m.values[3];
      return m.values[0] * m.values[3] - m.values[1] * m.values[2];
    }
    d := DeterminantArray(m.rows, m.values);
  }

  /*** What the elimination computes ***/

  /** The 1×1 branch returns what the elimination would. */
  lemma OneByOne(s: Grid)
    requires |s| == 1 && Square(s)
    ensures DetLU(s) == s[0][0]
  {
    assert Pivot(s, 0) == 0;
    SwapSame(s, 0);
    DetStep(s, 0, 1.0, 0, s, s[0][0]);
  }

  /** The 2×2 branch `ad - bc` returns what the elimination would, swap or not. */
  lemma TwoByTwo(s: Grid)
    requires |s| == 2 && Square(s)
    ensures DetLU(s) == s[0][0] * s[1][1] - s[0][1] * s[1][0]
  {
    var a, c := s[0][0], s[1][0];
    var p := if Abs(c) > Abs(a) then 1 else 0;
    assert Pivot(s, 0) == PivotFrom(s, 0, 2, p) == p;
    var t := SwapRows(s, 0, p);
    var pivot := At(t, 0, 0);
    DetStep(s, 0, 1.0, p, t, pivot);
    if pivot == 0.0 {
      assert a == 0.0 && c == 0.0;
    } else {
      LastStep(t, pivot, Accumulate(1.0, p != 0, pivot));
      if p == 0 {
        assert t == s;
        CrossProduct(s[0][0], s[0][1], s[1][0], s[1][1]);
      } else {
        assert t[0] == s[1] && t[1] == s[0];
        CrossProduct(s[1][0], s[1][1], s[0][0], s[0][1]);
      }
    }
  }

  /** The second and last step on two rows: the reduced corner times the accumulated value. */
  lemma LastStep(t: Grid, pivot: real, det: real)
    requires |t| == 2 && Square(t) && pivot == t[0][0] && pivot != 0.0
    ensures DetFrom(Eliminate(t[0 := NormalizeRow(t[0], 0, pivot)], 0), 1, det) ==
      det * Reduced(t[1][1], t[1][0], t[0][1] / pivot)
  {
    var u := Eliminate(t[0 := NormalizeRow(t[0], 0, pivot)], 0);
    var e := u[1][1];
    assert e == Reduced(t[1][1], t[1][0], t[0][1] / pivot);
    assert Pivot(u, 1) == 1;
    SwapSame(u, 1);
    DetStep(u, 1, det, 1, u, e);
  }

  /** Elimination on two rows with pivot x: x (w - z (y / x)) is x w - y z. */
  lemma CrossProduct(x: real, y: real, z: real, w: real)
    requires x != 0.0
    ensures x * Reduced(w, z, y / x) == x * w - y * z
    ensures -x * Reduced(w, z, y / x) == y * z - x * w
  {
  }

  /** `acc` times the diagonal from row i down. */
  function DiagProd(s: Grid, i: nat, acc: real): real
    requires Square(s)
    decreases |s| - i
  {
    if i >= |s| then acc else DiagProd(s, i + 1, Accumulate(acc, false, s[i][i]))
  }

  lemma {:induction false} DiagProdFrame(s: Grid, t: Grid, i: nat, acc: real)
    requires Square(s) && Square(t) && |s| == |t|
    requires forall j :: i <= j < |s| ==> s[j] == t[j]
    ensures DiagProd(s, i, acc) == DiagProd(t, i, acc)
    decreases |s| - i
  {
    if i < |s| {
      DiagProdFrame(s, t, i + 1, Accumulate(acc, false, s[i][i]));
    }
  }

  /** Zero below the diagonal in column i from row k on, so no later row wins the pivot search. */
  lemma {:induction false} PivotOfZeros(s: Grid, i: nat, k: nat, best: nat)
    requires best < |s|
    requires forall j :: k <= j < |s| ==> At(s, j, i) == 0.0
    ensures PivotFrom(s, i, k, best) == best
    decreases |s| - k
  {
    if k < |s| {
      PivotOfZeros(s, i, k + 1, best);
    }
  }

  /** A zero pivot column below the diagonal ends the computation with 0. */
  lemma ZeroColumn(s: Grid, i: nat, det: real)
    requires i < |s|
    requires forall j :: i <= j < |s| ==> At(s, j, i) == 0.0
    ensures DetFrom(s, i, det) == 0.0
  {
    PivotOfZeros(s, i, i + 1, i);
    SwapSame(s, i);
    DetStep(s, i, det, i, s, At(s, i, i));
  }

  /** With column i already zero below row i, elimination leaves the rows below i alone. */
  lemma EliminateBelowZeros(s: Grid, i: nat, pivot: real)
    requires Square(s) && i < |s| && pivot != 0.0
    requires forall r :: i < r < |s| ==> s[r][i] == 0.0
    ensures var u := Eliminate(s[i := NormalizeRow(s[i], i, pivot)], i);
      Square(u) && forall j :: i < j < |s| ==> u[j] == s[j]
  {
    var n := s[i := NormalizeRow(s[i], i, pivot)];
    var u := Eliminate(n, i);
    forall j | i < j < |s| ensures u[j] == s[j] {
      assert At(n, j, i) == 0.0;
      assert forall k :: 0 <= k < |s| ==> u[j][k] == s[j][k];
    }
  }

  /** On a matrix that is upper triangular from row i on, the elimination multiplies the diagonal. */
  lemma {:induction false} TriangularFrom(s: Grid, i: nat, det: real)
    requires Square(s) && i <= |s|
    requires forall r, c :: i <= c < r < |s| ==> s[r][c] == 0.0
    ensures DetFrom(s, i, det) == DiagProd(s, i, det)
    decreases |s| - i
  {
    if i < |s| {
      PivotOfZeros(s, i, i + 1, i);
      SwapSame(s, i);
      var pivot := s[i][i];
      DetStep(s, i, det, i, s, pivot);
      if pivot != 0.0 {
        var u := Eliminate(s[i := NormalizeRow(s[i], i, pivot)], i);
        EliminateBelowZeros(s, i, pivot);
        TriangularFrom(u, i + 1, Accumulate(det, false, pivot));
        DiagProdFrame(u, s, i + 1, Accumulate(det, false, pivot));
      } else {
        DiagProdOfZero(s, i + 1, Accumulate(det, false, pivot));
      }
    }
  }

  /** A zero factor on the diagonal makes the whole product zero. */
  lemma {:induction false} DiagProdOfZero(s: Grid, i: nat, acc: real)
    requires Square(s) && acc == 0.0
    ensures DiagProd(s, i, acc) == 0.0
    decreases |s| - i
  {
    if i < |s| {
      DiagProdOfZero(s, i + 1, Accumulate(acc, false, s[i][i]));
    }
  }

  /** The determinant of an upper-triangular matrix is the product of its diagonal. */
  lemma UpperTriangular(s: Grid)
    requires Square(s)
    requires forall r, c :: 0 <= c < r < |s| ==> s[r][c] == 0.0
    ensures DetLU(s) == DiagProd(s, 0, 1.0)
  {
    TriangularFrom(s, 0, 1.0);
  }

  lemma {:induction false} DiagProdOfOnes(s: Grid, i: nat, acc: real)
    requires Square(s)
    requires forall j :: i <= j < |s| ==> s[j][j] == 1.0
    ensures DiagProd(s, i, acc) == acc
    decreases |s| - i
  {
    if i < |s| {
      DiagProdOfOnes(s, i + 1, acc);
    }
  }

  /** determinant(identity(n)) is 1. */
  lemma IdentityDeterminant(I: Mat, n: nat)
    requires IsIdentity(I, n)
    ensures DetLU(ToGrid(I.values, n)) == 1.0
  {
    var s := ToGrid(I.values, n);
    assert forall r, c :: 0 <= r < n && 0 <= c < n ==> s[r][c] == Get(I, r, c);
    UpperTriangular(s);
    DiagProdOfOnes(s, 0, 1.0);
  }

  /** The pivot search ends on a row whose |value| no row from i on exceeds. */
  lemma {:induction false} PivotIsMax(s: Grid, i: nat, k: nat, best: nat)
    requires i <= best < |s| && i < k
    requires forall j :: i <= j < k && j < |s| ==> Abs(At(s, j, i)) <= Abs(At(s, best, i))
    ensures forall j :: i <= j < |s| ==> Abs(At(s, j, i)) <= Abs(At(s, PivotFrom(s, i, k, best), i))
    decreases |s| - k
  {
    if k < |s| {
      var next := if Abs(At(s, k, i)) > Abs(At(s, best, i)) then k else best;
      PivotIsMax(s, i, k + 1, next);
    }
  }

  /** Once the largest row sits at i, the search keeps it there. */
  lemma {:induction false} PivotStays(s: Grid, i: nat, k: nat)
    requires i < k && i < |s|
    requires forall j :: i <= j < |s| ==> Abs(At(s, j, i)) <= Abs(At(s, i, i))
    ensures PivotFrom(s, i, k, i) == i
    decreases |s| - k
  {
    if k < |s| {
      PivotStays(s, i, k + 1);
    }
  }

  /** A row swap is the only change of sign: computing on the swapped rows with -det agrees. */
  lemma SwapFlipsSign(s: Grid, i: nat, det: real)
    requires i < |s| && Pivot(s, i) != i
    ensures DetFrom(s, i, det) == DetFrom(SwapRows(s, i, Pivot(s, i)), i, -det)
  {
    var p := Pivot(s, i);
    var t := SwapRows(s, i, p);
    PivotIsMax(s, i, i + 1, i);
    forall j | i <= j < |t| ensures Abs(At(t, j, i)) <= Abs(At(t, i, i)) {
      assert At(t, i, i) == At(s, p, i);
      if j == p {
        assert At(t, j, i) == At(s, i, i);
      } else if j != i {
        assert At(t, j, i) == At(s, j, i);
      }
    }
    PivotStays(t, i, i + 1);
    SwapSame(t, i);
    DetStep(s, i, det, p, t, At(t, i, i));
    DetStep(t, i, -det, i, t, At(t, i, i));
  }
}
