/**
 * Dense matrices and vectors of the sensor-fusion library. A `BnMatrix` holds
 * `rows*columns` cells in a row-major buffer (cell (r, c) at offset
 * `c + r*columns`) and an `isEmpty` flag that every operation checks first.
 * Cells are modelled as `real`: float rounding is not part of the model.
 */
module Matrices {

  /** The value held by a `BnMatrix`: its shape, its buffer and its empty flag. */
  datatype Mat = Mat(rows: nat, columns: nat, values: seq<real>, isEmpty: bool)

  /** The buffer has exactly one cell per row and column. */
  ghost predicate WF(m: Mat)
  {
    |m.values| == m.rows * m.columns
  }

  /** `BnMatrix(0,0)`, returned by the value operations on an error. */
  const NoMatrix: Mat := Mat(0, 0, [], true)

  /** Offset of cell (r, c) in a row-major buffer whose rows are `stride` cells long. */
  function Idx(r: nat, c: nat, stride: nat): nat
  {
    c + r * stride
  }

  lemma MulMono(a: nat, b: nat, k: nat)
    requires a <= b
    ensures a * k <= b * k
  {
  }

  lemma IdxBound(r: nat, c: nat, rows: nat, cols: nat)
    requires r < rows && c < cols
    ensures Idx(r, c, cols) < rows * cols
  {
    MulMono(r + 1, rows, cols);
  }

  lemma IdxBounds(rows: nat, cols: nat)
    ensures forall r: nat, c: nat :: r < rows && c < cols ==> Idx(r, c, cols) < rows * cols
  {
    forall r: nat, c: nat | r < rows && c < cols
      ensures Idx(r, c, cols) < rows * cols
    {
      IdxBound(r, c, rows, cols);
    }
  }

  /** Distinct cells of a buffer never share an offset. */
  lemma IdxInjective(r1: nat, c1: nat, r2: nat, c2: nat, stride: nat)
    requires c1 < stride && c2 < stride
    requires Idx(r1, c1, stride) == Idx(r2, c2, stride)
    ensures r1 == r2 && c1 == c2
  {
    if r1 < r2 {
      MulMono(r1 + 1, r2, stride);
    } else if r2 < r1 {
      MulMono(r2 + 1, r1, stride);
    }
  }

  lemma IdxDistinct(row: nat, col: nat, stride: nat)
    requires col < stride
    ensures forall r: nat, c: nat :: c < stride && (r != row || c != col) ==>
      Idx(r, c, stride) != Idx(row, col, stride)
  {
    forall r: nat, c: nat | c < stride && (r != row || c != col)
      ensures Idx(r, c, stride) != Idx(row, col, stride)
    {
      if Idx(r, c, stride) == Idx(row, col, stride) {
        IdxInjective(r, c, row, col, stride);
      }
    }
  }

  /** `val(r, c)`: the cell at offset `c + r*columns`. */
  function Get(m: Mat, r: nat, c: nat): real
    requires WF(m) && r < m.rows && c < m.columns
  {
    IdxBound(r, c, m.rows, m.columns);
    m.values[Idx(r, c, m.columns)]
  }

  /** Two matrices of one shape whose cells all agree have the same buffer. */
  lemma CellsDetermine(a: Mat, b: Mat)
    requires WF(a) && WF(b) && a.rows == b.rows && a.columns == b.columns
    requires forall r: nat, c: nat :: r < a.rows && c < a.columns ==> Get(a, r, c) == Get(b, r, c)
    ensures a.values == b.values
  {
    forall k | 0 <= k < |a.values|
      ensures a.values[k] == b.values[k]
    {
      assert a.columns > 0;
      var r, c := k / a.columns, k % a.columns;
      assert k == Idx(r, c, a.columns);
      if r >= a.rows {
        MulMono(a.rows, r, a.columns);
      }
      assert Get(a, r, c) == Get(b, r, c);
    }
  }

  /** `val(r, c, v)`: the buffer with cell (r, c) replaced, no longer empty. */
  function SetCell(m: Mat, r: nat, c: nat, v: real): (m': Mat)
    requires WF(m) && r < m.rows && c < m.columns
    ensures WF(m') && m'.rows == m.rows && m'.columns == m.columns && !m'.isEmpty
  {
    IdxBound(r, c, m.rows, m.columns);
    Mat(m.rows, m.columns, m.values[Idx(r, c, m.columns) := v], false)
  }

  /** Reading a cell after `val(r, c, v)` gives `v` at (r, c) and the old value elsewhere. */
  lemma GetSetCell(m: Mat, r: nat, c: nat, v: real, r2: nat, c2: nat)
    requires WF(m) && r < m.rows && c < m.columns && r2 < m.rows && c2 < m.columns
    ensures Get(SetCell(m, r, c, v), r2, c2) == if r2 == r && c2 == c then v else Get(m, r2, c2)
  {
    IdxBound(r2, c2, m.rows, m.columns);
    if r2 != r || c2 != c {
      IdxDistinct(r, c, m.columns);
    }
  }

  /** `multiply(mult)`: every cell scaled, nothing done on an empty matrix. */
  function Scaled(m: Mat, k: real): (s: Mat)
    requires WF(m)
    ensures WF(s) && s.rows == m.rows && s.columns == m.columns && s.isEmpty == m.isEmpty
  {
    if m.isEmpty then m
    else m.(values := seq(|m.values|, i requires 0 <= i < |m.values| => m.values[i] * k))
  }

  /** Scaling twice is scaling once by the product of the factors. */
  lemma ScaledTwice(m: Mat, a: real, b: real)
    requires WF(m)
    ensures Scaled(Scaled(m, a), b) == Scaled(m, a * b)
  {
    if !m.isEmpty {
      var lhs, rhs := Scaled(Scaled(m, a), b).values, Scaled(m, a * b).values;
      forall i | 0 <= i < |m.values| ensures lhs[i] == rhs[i] {
        assert lhs[i] == (m.values[i] * a) * b;
      }
      assert lhs == rhs;
    }
  }

  /** Scaling by 1 changes nothing. */
  lemma ScaledByOne(m: Mat)
    requires WF(m)
    ensures Scaled(m, 1.0) == m
  {
    if !m.isEmpty {
      assert Scaled(m, 1.0).values == m.values;
    }
  }

  /*** Transpose ***/

  /** `t` is the transpose of the non-empty matrix `m`: columns×rows, out[c][r] = in[r][c]. */
  ghost predicate IsTransposeOf(t: Mat, m: Mat)
  {
    WF(t) && WF(m) && t.rows == m.columns && t.columns == m.rows && !t.isEmpty &&
    forall r: nat, c: nat :: r < m.rows && c < m.columns ==> Get(t, c, r) == Get(m, r, c)
  }

  /** `transposed()` together with `transposeArray`, which writes offset `r + c*rows`. */
  method Transposed(m: Mat) returns (t: Mat)
    requires WF(m)
    ensures m.isEmpty ==> t == NoMatrix
    ensures !m.isEmpty ==> IsTransposeOf(t, m)
  {
    if m.isEmpty {
      return NoMatrix;
    }
    var a := new real[m.columns * m.rows];
    IdxBounds(m.columns, m.rows);
    var row := 0;
    while row < m.rows
      invariant row <= m.rows
      invariant forall r: nat, c: nat :: r < row && c < m.columns ==> a[Idx(c, r, m.rows)] == Get(m, r, c)
    {
      var col := 0;
      while col < m.columns
        invariant col <= m.columns
        invariant forall r: nat, c: nat :: (r < row && c < m.columns) || (r == row && c < col) ==>
          a[Idx(c, r, m.rows)] == Get(m, r, c)
      {
        IdxDistinct(col, row, m.rows);
        a[Idx(col, row, m.rows)] := Get(m, row, col);
        col := col + 1;
      }
      row := row + 1;
    }
    t := Mat(m.columns, m.rows, a[..], false);
  }

  /** Transposing twice gives the matrix back. */
  lemma TransposeTwice(m: Mat, t: Mat, tt: Mat)
    requires !m.isEmpty && IsTransposeOf(t, m) && IsTransposeOf(tt, t)
    ensures tt == m
  {
    CellsDetermine(tt, m);
  }

  /*** Products, sums and differences ***/

  /** Sum over k < n of L[r][k] * R[k][c], accumulated in the order of the loop. */
  function Dot(L: Mat, R: Mat, r: nat, c: nat, n: nat): real
    requires WF(L) && WF(R) && L.columns == R.rows && r < L.rows && c < R.columns && n <= L.columns
  {
    if n == 0 then 0.0 else Dot(L, R, r, c, n - 1) + Get(L, r, n - 1) * Get(R, n - 1, c)
  }

  /** The innermost loop of both multiply overloads: row r of L times column c of R. */
  method DotProduct(L: Mat, R: Mat, r: nat, c: nat) returns (sum: real)
    requires WF(L) && WF(R) && L.columns == R.rows && r < L.rows && c < R.columns
    ensures sum == Dot(L, R, r, c, L.columns)
  {
    sum := 0.0;
    var k := 0;
    while k < L.columns
      invariant k <= L.columns
      invariant sum == Dot(L, R, r, c, k)
    {
      sum := sum + Get(L, r, k) * Get(R, k, c);
      k := k + 1;
    }
  }

  ghost predicate CanMultiply(L: Mat, R: Mat)
  {
    !L.isEmpty && !R.isEmpty && L.columns == R.rows
  }

  /** `P` has L.rows × R.columns cells, each the dot product of a row of L and a column of R. */
  ghost predicate IsProduct(P: Mat, L: Mat, R: Mat)
  {
    WF(P) && WF(L) && WF(R) && L.columns == R.rows && P.rows == L.rows && P.columns == R.columns &&
    forall r: nat, c: nat :: r < P.rows && c < P.columns ==> Get(P, r, c) == Dot(L, R, r, c, L.columns)
  }

  /** The first `rows` rows of the product, laid out row-major in `vals`. */
  ghost predicate RowsDone(vals: seq<real>, L: Mat, R: Mat, rows: nat)
    requires WF(L) && WF(R) && L.columns == R.rows && rows <= L.rows
  {
    forall r: nat, c: nat :: r < rows && c < R.columns ==>
      Idx(r, c, R.columns) < |vals| && vals[Idx(r, c, R.columns)] == Dot(L, R, r, c, L.columns)
  }

  /** The column loop of `multiply(L, R)`: row `row` of the product. */
  method ProductRow(L: Mat, R: Mat, row: nat) returns (line: seq<real>)
    requires WF(L) && WF(R) && L.columns == R.rows && row < L.rows
    ensures |line| == R.columns
    ensures forall c :: 0 <= c < R.columns ==> line[c] == Dot(L, R, row, c, L.columns)
  {
    line := [];
    var col := 0;
    while col < R.columns
      invariant col == |line| <= R.columns
      invariant forall c :: 0 <= c < col ==> line[c] == Dot(L, R, row, c, L.columns)
    {
      var sum := DotProduct(L, R, row, col);
      line := line + [sum];
      col := col + 1;
    }
  }

  /** Appending row `row` of the product to its first `row` rows gives its first `row + 1`. */
  lemma AppendRow(vals: seq<real>, line: seq<real>, L: Mat, R: Mat, row: nat)
    requires WF(L) && WF(R) && L.columns == R.rows && row < L.rows
    requires |vals| == row * R.columns && RowsDone(vals, L, R, row)
    requires |line| == R.columns
    requires forall c :: 0 <= c < R.columns ==> line[c] == Dot(L, R, row, c, L.columns)
    ensures RowsDone(vals + line, L, R, row + 1)
  {
    forall r: nat, c: nat | r <= row && c < R.columns
      ensures Idx(r, c, R.columns) < |vals + line| && (vals + line)[Idx(r, c, R.columns)] == Dot(L, R, r, c, L.columns)
    {
      if r < row {
        assert (vals + line)[Idx(r, c, R.columns)] == vals[Idx(r, c, R.columns)];
      } else {
        assert Idx(r, c, R.columns) == |vals| + c;
      }
    }
  }

  /** Value `multiply(L, R)`: `BnMatrix(0,0)` on an empty operand or a shape mismatch. */
  method Multiply(L: Mat, R: Mat) returns (P: Mat)
    requires WF(L) && WF(R)
    ensures !CanMultiply(L, R) ==> P == NoMatrix
    ensures CanMultiply(L, R) ==> IsProduct(P, L, R) && P.isEmpty == (L.rows == 0 || R.columns == 0)
  {
    if L.isEmpty || R.isEmpty || L.columns != R.rows {
      return NoMatrix;
    }
    var vals: seq<real> := [];
    var empty := true;
    var row := 0;
    while row < L.rows
      invariant row <= L.rows
      invariant |vals| == row * R.columns
      invariant empty == (|vals| == 0)
      invariant RowsDone(vals, L, R, row)
    {
      var line := ProductRow(L, R, row);
      AppendRow(vals, line, L, R, row);
      vals := vals + line;
      empty := empty && line == [];
      row := row + 1;
    }
    P := Mat(L.rows, R.columns, vals, empty);
  }

  /** An n×n matrix with 1 on the diagonal and 0 elsewhere, not empty. */
  ghost predicate IsIdentity(I: Mat, n: nat)
  {
    WF(I) && I.rows == n && I.columns == n && !I.isEmpty &&
    forall r: nat, c: nat :: r < n && c < n ==> Get(I, r, c) == if r == c then 1.0 else 0.0
  }

  /** `identity(size)`, which writes offset `r + c*size`. */
  method Identity(size: nat) returns (I: Mat)
    ensures IsIdentity(I, size)
  {
    var a := new real[size * size];
    IdxBounds(size, size);
    var row := 0;
    while row < size
      invariant row <= size
      invariant forall r: nat, c: nat :: r < row && c < size ==>
        a[Idx(c, r, size)] == if r == c then 1.0 else 0.0
    {
      var col := 0;
      while col < size
        invariant col <= size
        invariant forall r: nat, c: nat :: (r < row && c < size) || (r == row && c < col) ==>
          a[Idx(c, r, size)] == if r == c then 1.0 else 0.0
      {
        IdxDistinct(col, row, size);
        if row == col {
          a[Idx(col, row, size)] := 1.0;
        } else {
          a[Idx(col, row, size)] := 0.0;
        }
        col := col + 1;
      }
      row := row + 1;
    }
    I := Mat(size, size, a[..], false);
    forall r: nat, c: nat | r < size && c < size
      ensures Get(I, r, c) == if r == c then 1.0 else 0.0
    {
      assert Get(I, r, c) == a[Idx(r, c, size)];
      assert Idx(r, c, size) == Idx(c, r, size) || r != c;
      if r != c {
        assert a[Idx(r, c, size)] == 0.0;
      }
    }
  }

  lemma {:induction false} DotIdentityLeft(I: Mat, M: Mat, r: nat, c: nat, n: nat)
    requires IsIdentity(I, M.rows) && WF(M) && r < M.rows && c < M.columns && n <= M.rows
    ensures Dot(I, M, r, c, n) == if r < n then Get(M, r, c) else 0.0
  {
    if n > 0 {
      DotIdentityLeft(I, M, r, c, n - 1);
    }
  }

  lemma {:induction false} DotIdentityRight(M: Mat, I: Mat, r: nat, c: nat, n: nat)
    requires IsIdentity(I, M.columns) && WF(M) && r < M.rows && c < M.columns && n <= M.columns
    ensures Dot(M, I, r, c, n) == if c < n then Get(M, r, c) else 0.0
  {
    if n > 0 {
      DotIdentityRight(M, I, r, c, n - 1);
    }
  }

  /** identity(M.rows) times M has exactly the cells of M. */
  lemma IdentityLeftUnit(I: Mat, M: Mat, P: Mat)
    requires IsIdentity(I, M.rows) && IsProduct(P, I, M)
    ensures P.rows == M.rows && P.columns == M.columns && P.values == M.values
  {
    forall r: nat, c: nat | r < M.rows && c < M.columns
      ensures Get(P, r, c) == Get(M, r, c)
    {
      DotIdentityLeft(I, M, r, c, M.rows);
    }
    CellsDetermine(P, M);
  }

  /** M times identity(M.columns) has exactly the cells of M. */
  lemma IdentityRightUnit(M: Mat, I: Mat, P: Mat)
    requires IsIdentity(I, M.columns) && IsProduct(P, M, I)
    ensures P.rows == M.rows && P.columns == M.columns && P.values == M.values
  {
    forall r: nat, c: nat | r < M.rows && c < M.columns
      ensures Get(P, r, c) == Get(M, r, c)
    {
      DotIdentityRight(M, I, r, c, M.columns);
    }
    CellsDetermine(P, M);
  }

  ghost predicate SameShape(a: Mat, b: Mat)
  {
    a.rows == b.rows && a.columns == b.columns
  }

  /** Both operands are non-empty and of one shape, as sum, subtract and equal demand. */
  ghost predicate Compatible(L: Mat, R: Mat)
  {
    !L.isEmpty && !R.isEmpty && SameShape(L, R)
  }

  /** `S` has the shape of L and R, and each cell is L[r][c] + R[r][c]. */
  ghost predicate IsSum(S: Mat, L: Mat, R: Mat)
  {
    WF(S) && WF(L) && WF(R) && SameShape(S, L) && SameShape(L, R) &&
    forall r: nat, c: nat :: r < S.rows && c < S.columns ==> Get(S, r, c) == Get(L, r, c) + Get(R, r, c)
  }

  /** `D` has the shape of L and R, and each cell is L[r][c] - R[r][c]. */
  ghost predicate IsDifference(D: Mat, L: Mat, R: Mat)
  {
    WF(D) && WF(L) && WF(R) && SameShape(D, L) && SameShape(L, R) &&
    forall r: nat, c: nat :: r < D.rows && c < D.columns ==> Get(D, r, c) == Get(L, r, c) - Get(R, r, c)
  }

  /** Value `sum(L, R)`: `BnMatrix(0,0)` on an empty operand or a shape mismatch. */
  method Sum(L: Mat, R: Mat) returns (S: Mat)
    requires WF(L) && WF(R)
    ensures !Compatible(L, R) ==> S == NoMatrix
    ensures Compatible(L, R) ==> IsSum(S, L, R) && S.isEmpty == (L.rows == 0 || L.columns == 0)
  {
    if L.isEmpty || R.isEmpty || L.columns != R.columns || L.rows != R.rows {
      return NoMatrix;
    }
    var vals: seq<real> := [];
    var empty := true;
    var row := 0;
    while row < L.rows
      invariant row <= L.rows
      invariant |vals| == row * L.columns
      invariant empty == (|vals| == 0)
      invariant forall r: nat, c: nat :: r < row && c < L.columns ==>
        Idx(r, c, L.columns) < |vals| && vals[Idx(r, c, L.columns)] == Get(L, r, c) + Get(R, r, c)
    {
      var col := 0;
      while col < L.columns
        invariant col <= L.columns
        invariant |vals| == Idx(row, col, L.columns)
        invariant empty == (|vals| == 0)
        invariant forall r: nat, c: nat :: (r < row && c < L.columns) || (r == row && c < col) ==>
          Idx(r, c, L.columns) < |vals| && vals[Idx(r, c, L.columns)] == Get(L, r, c) + Get(R, r, c)
      {
        vals := vals + [Get(L, row, col) + Get(R, row, col)];
        empty := false;
        col := col + 1;
      }
      row := row + 1;
    }
    S := Mat(L.rows, L.columns, vals, empty);
  }

  /** Value `subtract(L, R)`: `BnMatrix(0,0)` on an empty operand or a shape mismatch. */
  method Subtract(L: Mat, R: Mat) returns (D: Mat)
    requires WF(L) && WF(R)
    ensures !Compatible(L, R) ==> D == NoMatrix
    ensures Compatible(L, R) ==> IsDifference(D, L, R) && D.isEmpty == (L.rows == 0 || L.columns == 0)
  {
    if L.isEmpty || R.isEmpty || L.columns != R.columns || L.rows != R.rows {
      return NoMatrix;
    }
    var vals: seq<real> := [];
    var empty := true;
    var row := 0;
    while row < L.rows
      invariant row <= L.rows
      invariant |vals| == row * L.columns
      invariant empty == (|vals| == 0)
      invariant forall r: nat, c: nat :: r < row && c < L.columns ==>
        Idx(r, c, L.columns) < |vals| && vals[Idx(r, c, L.columns)] == Get(L, r, c) - Get(R, r, c)
    {
      var col := 0;
      while col < L.columns
        invariant col <= L.columns
        invariant |vals| == Idx(row, col, L.columns)
        invariant empty == (|vals| == 0)
        invariant forall r: nat, c: nat :: (r < row && c < L.columns) || (r == row && c < col) ==>
          Idx(r, c, L.columns) < |vals| && vals[Idx(r, c, L.columns)] == Get(L, r, c) - Get(R, r, c)
      {
        vals := vals + [Get(L, row, col) - Get(R, row, col)];
        empty := false;
        col := col + 1;
      }
      row := row + 1;
    }
    D := Mat(L.rows, L.columns, vals, empty);
  }

  /** Subtracting R from L + R gives back the cells of L. */
  lemma SubtractUndoesSum(L: Mat, R: Mat, S: Mat, D: Mat)
    requires IsSum(S, L, R) && IsDifference(D, S, R)
    ensures SameShape(D, L) && D.values == L.values
  {
    CellsDetermine(D, L);
  }

  /** The cell-wise sum does not depend on the order of the operands. */
  lemma SumCommutes(L: Mat, R: Mat, S1: Mat, S2: Mat)
    requires IsSum(S1, L, R) && IsSum(S2, R, L)
    ensures S1.values == S2.values
  {
    CellsDetermine(S1, S2);
  }

  lemma CellDiffers(L: Mat, R: Mat, r: nat, c: nat)
    requires WF(L) && WF(R) && SameShape(L, R) && r < L.rows && c < L.columns
    requires Get(L, r, c) != Get(R, r, c)
    ensures L.values != R.values
  {
  }

  /** `equal(L, R)`: false on an empty operand or a shape mismatch, else exact cell equality. */
  method Equal(L: Mat, R: Mat) returns (b: bool)
    requires WF(L) && WF(R)
    ensures b <==> Compatible(L, R) && L.values == R.values
  {
    if L.isEmpty || R.isEmpty || L.columns != R.columns || L.rows != R.rows {
      return false;
    }
    var row := 0;
    while row < L.rows
      invariant row <= L.rows
      invariant forall r: nat, c: nat :: r < row && c < L.columns ==> Get(L, r, c) == Get(R, r, c)
    {
      var col := 0;
      while col < L.columns
        invariant col <= L.columns
        invariant forall r: nat, c: nat :: (r < row && c < L.columns) || (r == row && c < col) ==>
          Get(L, r, c) == Get(R, r, c)
      {
        if Get(L, row, col) != Get(R, row, col) {
          CellDiffers(L, R, row, col);
          return false;
        }
        col := col + 1;
      }
      row := row + 1;
    }
    CellsDetermine(L, R);
    return true;
  }

  /*** Vectors: BnMatrix objects with one column ***/

  /** A `BnVector` value: one column, except the 0×0 empty vector a bad conversion leaves. */
  ghost predicate IsVector(v: Mat)
  {
    WF(v) && (v.columns == 1 || v.isEmpty)
  }

  ghost predicate CanPairUp(L: Mat, R: Mat)
  {
    !L.isEmpty && !R.isEmpty && L.rows == R.rows
  }

  /** `P` is a vector of L.rows entries, entry i being L[i] * R[i]. */
  ghost predicate IsElementwiseProduct(P: Mat, L: Mat, R: Mat)
  {
    IsVector(L) && IsVector(R) && !L.isEmpty && !R.isEmpty && WF(P) &&
    P.rows == L.rows == R.rows && P.columns == 1 &&
    forall i: nat :: i < P.rows ==> Get(P, i, 0) == Get(L, i, 0) * Get(R, i, 0)
  }

  /** `BnVector(0)`, returned by the value elementwise product on an error. */
  const NoVector: Mat := Mat(0, 1, [], true)

  /** Value `BnVector::productElementwise(L, R)`. */
  method ProductElementwise(L: Mat, R: Mat) returns (P: Mat)
    requires IsVector(L) && IsVector(R)
    ensures !CanPairUp(L, R) ==> P == NoVector
    ensures CanPairUp(L, R) ==> IsElementwiseProduct(P, L, R) && P.isEmpty == (L.rows == 0)
  {
    if L.isEmpty || R.isEmpty || L.rows != R.rows {
      return NoVector;
    }
    var vals: seq<real> := [];
    var empty := true;
    var i := 0;
    while i < L.rows
      invariant i <= L.rows && |vals| == i
      invariant empty == (i == 0)
      invariant forall j: nat :: j < i ==> vals[j] == Get(L, j, 0) * Get(R, j, 0)
    {
      vals := vals + [Get(L, i, 0) * Get(R, i, 0)];
      empty := false;
      i := i + 1;
    }
    P := Mat(L.rows, 1, vals, empty);
    forall j: nat | j < P.rows ensures Get(P, j, 0) == Get(L, j, 0) * Get(R, j, 0) {
      assert Get(P, j, 0) == vals[j];
    }
  }

  /*** BnMatrix objects, for the operations that update a matrix in place ***/

  class BnMatrix {
    var rows: nat
    var columns: nat
    var values: array<real>
    var isEmpty: bool

    ghost predicate Valid()
      reads this
    {
      values.Length == rows * columns
    }

    /** The matrix value this object currently holds. */
    function Value(): (m: Mat)
      reads this, values
      requires Valid()
      ensures WF(m) && m.rows == rows && m.columns == columns && m.isEmpty == isEmpty
    {
      Mat(rows, columns, values[..], isEmpty)
    }

    /** `BnMatrix(rows, columns)`: an empty matrix; its cells are not meaningful. */
    constructor Empty(rows: nat, columns: nat)
      ensures Valid() && fresh(values)
      ensures this.rows == rows && this.columns == columns && isEmpty
    {
      this.rows := rows;
      this.columns := columns;
      values := new real[rows * columns];
      isEmpty := true;
    }

    /** `BnMatrix(rows, columns, values)`: a copy of the given cells, not empty. */
    constructor FromValues(rows: nat, columns: nat, vals: seq<real>)
      requires |vals| == rows * columns
      ensures Valid() && fresh(values) && Value() == Mat(rows, columns, vals, false)
    {
      this.rows := rows;
      this.columns := columns;
      values := new real[|vals|](i requires 0 <= i < |vals| => vals[i]);
      isEmpty := false;
    }

    /** The getter `val(r, c)`. */
    function Val(r: nat, c: nat): (v: real)
      reads this, values
      requires Valid() && r < rows && c < columns
      ensures v == Get(Value(), r, c)
    {
      IdxBound(r, c, rows, columns);
      values[Idx(r, c, columns)]
    }

    /** The setter `val(r, c, v)`. */
    method SetVal(r: nat, c: nat, v: real)
      requires Valid() && r < rows && c < columns
      modifies this, values
      ensures Valid() && values == old(values)
      ensures Value() == SetCell(old(Value()), r, c, v)
    {
      IdxBound(r, c, rows, columns);
      isEmpty := false;
      values[Idx(r, c, columns)] := v;
    }

    /** `multiply(mult)`: scales every cell in place; nothing happens on an empty matrix. */
    method Scale(mult: real)
      requires Valid()
      modifies values
      ensures Valid() && Value() == Scaled(old(Value()), mult)
    {
      if isEmpty {
        return;
      }
      ghost var before := values[..];
      var counter := 0;
      while counter < rows * columns
        invariant counter <= rows * columns
        invariant forall i :: 0 <= i < counter ==> values[i] == before[i] * mult
        invariant forall i :: counter <= i < values.Length ==> values[i] == before[i]
      {
        values[counter] := values[counter] * mult;
        counter := counter + 1;
      }
      ghost var expected := Scaled(Mat(rows, columns, before, false), mult).values;
      forall i | 0 <= i < values.Length ensures values[..][i] == expected[i] {
        assert values[i] == before[i] * mult;
      }
      assert values[..] == expected;
    }

    /** The result-parameter `multiply(result, L, R)` with this object as `result`. */
    method MultiplyInto(L: Mat, R: Mat)
      requires Valid() && WF(L) && WF(R)
      modifies this, values
      ensures Valid() && values == old(values) && rows == old(rows) && columns == old(columns)
      ensures !(CanMultiply(L, R) && L.rows == rows && R.columns == columns) ==> Value() == old(Value())
      ensures CanMultiply(L, R) && L.rows == rows && R.columns == columns ==>
        IsProduct(Value(), L, R) && isEmpty == (old(isEmpty) && (rows == 0 || columns == 0))
    {
      if L.isEmpty || R.isEmpty || L.columns != R.rows || L.rows != rows || R.columns != columns {
        return;
      }
      IdxBounds(rows, columns);
      // `val(r, c, v)` clears the empty flag on the first write
      if rows > 0 && columns > 0 {
        isEmpty := false;
      }
      var row := 0;
      while row < rows
        invariant row <= rows
        modifies values
        invariant forall r: nat, c: nat :: r < row && c < columns ==>
          values[Idx(r, c, columns)] == Dot(L, R, r, c, L.columns)
      {
        var col := 0;
        while col < columns
          invariant col <= columns
          modifies values
          invariant forall r: nat, c: nat :: (r < row && c < columns) || (r == row && c < col) ==>
            values[Idx(r, c, columns)] == Dot(L, R, r, c, L.columns)
        {
          var sum := DotProduct(L, R, row, col);
          IdxDistinct(row, col, columns);
          values[Idx(row, col, columns)] := sum;
          col := col + 1;
        }
        row := row + 1;
      }
      forall r: nat, c: nat | r < rows && c < columns
        ensures Get(Value(), r, c) == Dot(L, R, r, c, L.columns)
      {
        assert Get(Value(), r, c) == values[Idx(r, c, columns)];
      }
    }

    /** The result-parameter `sum(result, L, R)` with this object as `result`. */
    method SumInto(L: Mat, R: Mat)
      requires Valid() && WF(L) && WF(R)
      modifies this, values
      ensures Valid() && values == old(values) && rows == old(rows) && columns == old(columns)
      ensures !(Compatible(L, R) && SameShape(L, old(Value()))) ==> Value() == old(Value())
      ensures Compatible(L, R) && SameShape(L, old(Value())) ==>
        IsSum(Value(), L, R) && isEmpty == (old(isEmpty) && (rows == 0 || columns == 0))
    {
      if L.isEmpty || R.isEmpty || L.columns != R.columns || L.rows != R.rows
        || L.rows != rows || R.columns != columns {
        return;
      }
      IdxBounds(rows, columns);
      // `val(r, c, v)` clears the empty flag on the first write
      if rows > 0 && columns > 0 {
        isEmpty := false;
      }
      var row := 0;
      while row < rows
        invariant row <= rows
        modifies values
        invariant forall r: nat, c: nat :: r < row && c < columns ==>
          values[Idx(r, c, columns)] == Get(L, r, c) + Get(R, r, c)
      {
        var col := 0;
        while col < columns
          invariant col <= columns
          modifies values
          invariant forall r: nat, c: nat :: (r < row && c < columns) || (r == row && c < col) ==>
            values[Idx(r, c, columns)] == Get(L, r, c) + Get(R, r, c)
        {
          IdxDistinct(row, col, columns);
          values[Idx(row, col, columns)] := Get(L, row, col) + Get(R, row, col);
          col := col + 1;
        }
        row := row + 1;
      }
      forall r: nat, c: nat | r < rows && c < columns
        ensures Get(Value(), r, c) == Get(L, r, c) + Get(R, r, c)
      {
        assert Get(Value(), r, c) == values[Idx(r, c, columns)];
      }
    }

    /** The result-parameter `subtract(result, L, R)` with this object as `result`. */
    method SubtractInto(L: Mat, R: Mat)
      requires Valid() && WF(L) && WF(R)
      modifies this, values
      ensures Valid() && values == old(values) && rows == old(rows) && columns == old(columns)
      ensures !(Compatible(L, R) && SameShape(L, old(Value()))) ==> Value() == old(Value())
      ensures Compatible(L, R) && SameShape(L, old(Value())) ==>
        IsDifference(Value(), L, R) && isEmpty == (old(isEmpty) && (rows == 0 || columns == 0))
    {
      if L.isEmpty || R.isEmpty || L.columns != R.columns || L.rows != R.rows
        || L.rows != rows || R.columns != columns {
        return;
      }
      IdxBounds(rows, columns);
      // `val(r, c, v)` clears the empty flag on the first write
      if rows > 0 && columns > 0 {
        isEmpty := false;
      }
      var row := 0;
      while row < rows
        invariant row <= rows
        modifies values
        invariant forall r: nat, c: nat :: r < row && c < columns ==>
          values[Idx(r, c, columns)] == Get(L, r, c) - Get(R, r, c)
      {
        var col := 0;
        while col < columns
          invariant col <= columns
          modifies values
          invariant forall r: nat, c: nat :: (r < row && c < columns) || (r == row && c < col) ==>
            values[Idx(r, c, columns)] == Get(L, r, c) - Get(R, r, c)
        {
          IdxDistinct(row, col, columns);
          values[Idx(row, col, columns)] := Get(L, row, col) - Get(R, row, col);
          col := col + 1;
        }
        row := row + 1;
      }
      forall r: nat, c: nat | r < rows && c < columns
        ensures Get(Value(), r, c) == Get(L, r, c) - Get(R, r, c)
      {
        assert Get(Value(), r, c) == values[Idx(r, c, columns)];
      }
    }

    /** The result-parameter `BnVector::productElementwise(result, L, R)` with this object as `result`. */
    method ProductElementwiseInto(L: Mat, R: Mat)
      requires Valid() && columns == 1 && IsVector(L) && IsVector(R)
      modifies this, values
      ensures Valid() && values == old(values) && rows == old(rows) && columns == old(columns)
      ensures !(CanPairUp(L, R) && L.rows == rows) ==> Value() == old(Value())
      ensures CanPairUp(L, R) && L.rows == rows ==>
        IsElementwiseProduct(Value(), L, R) && isEmpty == (old(isEmpty) && rows == 0)
    {
      if L.isEmpty || R.isEmpty || L.rows != R.rows || L.rows != rows || R.rows != rows {
        return;
      }
      if rows > 0 {
        isEmpty := false;
      }
      var i := 0;
      while i < rows
        invariant i <= rows
        invariant forall j :: 0 <= j < i ==> values[j] == Get(L, j, 0) * Get(R, j, 0)
        modifies values
      {
        values[i] := Get(L, i, 0) * Get(R, i, 0);
        i := i + 1;
      }
      forall j: nat | j < rows ensures Get(Value(), j, 0) == Get(L, j, 0) * Get(R, j, 0) {
        assert Get(Value(), j, 0) == values[j];
      }
    }
  }
}
