/** Dense matrices as values: the contents that a `*mat.Dense` (or any `mat.Matrix`) shows
    through `Dims` and `At`. The imperative model of matrix.go relates its arrays to these
    values; every property the library promises is stated and proved on them. */
module Grid {

  /** A `rows` × `cols` matrix; `cells[i][j]` is element (i, j). */
  datatype Mat = Mat(rows: nat, cols: nat, cells: seq<seq<real>>) {

    /** The cells form a rectangle of the declared size. */
    predicate Valid() {
      |cells| == rows && forall i :: 0 <= i < rows ==> |cells[i]| == cols
    }

    /** A matrix with no row or no column: `BlockDiag` skips these. */
    predicate ZeroSized() {
      rows == 0 || cols == 0
    }
  }

  /** Element (i, j) of `m`, and zero at any position outside its cells. */
  function Get(m: Mat, i: int, j: int): (x: real)
  {
    if 0 <= i < |m.cells| && 0 <= j < |m.cells[i]| then m.cells[i][j] else 0.0
  }

  /** A rectangle reads zero at any position outside it. */
  lemma GetOutside(m: Mat, i: int, j: int)
    requires m.Valid() && !(0 <= i < m.rows && 0 <= j < m.cols)
    ensures Get(m, i, j) == 0.0
  {
  }

  /** The empty 0×0 matrix, `&mat.Dense{}`. */
  function Empty(): (e: Mat)
    ensures e.Valid() && e.ZeroSized()
  {
    Mat(0, 0, [])
  }

  /** Column `j` of `m`, top to bottom (`m.ColView(j)`). */
  function Col(m: Mat, j: nat): (c: seq<real>)
    requires m.Valid() && j < m.cols
    ensures |c| == m.rows
    ensures forall i :: 0 <= i < m.rows ==> c[i] == m.cells[i][j]
  {
    seq(m.rows, i requires 0 <= i < m.rows => m.cells[i][j])
  }

  /** `m.T()`: element (j, i) of the result is element (i, j) of `m`. */
  function Transpose(m: Mat): (t: Mat)
    requires m.Valid()
    ensures t.Valid() && t.rows == m.cols && t.cols == m.rows
    ensures forall i, j :: 0 <= i < m.rows && 0 <= j < m.cols ==> t.cells[j][i] == m.cells[i][j]
  {
    Mat(m.cols, m.rows, seq(m.cols, j requires 0 <= j < m.cols => Col(m, j)))
  }

  /** A square matrix equal to its transpose. */
  predicate IsSymmetric(m: Mat)
    requires m.Valid()
  {
    m.rows == m.cols &&
    forall i, j :: 0 <= i < m.rows && 0 <= j < m.rows ==> m.cells[i][j] == m.cells[j][i]
  }

  /** The `rows` × `cols` matrix whose every element is `v`. */
  function Constant(rows: nat, cols: nat, v: real): (m: Mat)
    ensures m.Valid() && m.rows == rows && m.cols == cols
  {
    Mat(rows, cols, seq(rows, _ => seq(cols, _ => v)))
  }

  /** The `n` × `n` matrix with `v` on the diagonal and zero elsewhere. */
  function ScaledIdentity(n: nat, v: real): (m: Mat)
    ensures m.Valid() && m.rows == n && m.cols == n
  {
    Mat(n, n, seq(n, i => seq(n, j => if i == j then v else 0.0)))
  }

  /** `m` with `v` added to every element. */
  function AddConst(m: Mat, v: real): (r: Mat)
    requires m.Valid()
    ensures r.Valid() && r.rows == m.rows && r.cols == m.cols
  {
    Mat(m.rows, m.cols, seq(m.rows, i requires 0 <= i < m.rows => seq(m.cols, j requires 0 <= j < m.cols => m.cells[i][j] + v)))
  }

  /** Two rectangles of one size that agree on every element are the same matrix. */
  lemma Ext(a: Mat, b: Mat)
    requires a.Valid() && b.Valid() && a.rows == b.rows && a.cols == b.cols
    requires forall i, j :: 0 <= i < a.rows && 0 <= j < a.cols ==> a.cells[i][j] == b.cells[i][j]
    ensures a == b
  {
    forall i | 0 <= i < a.rows
      ensures a.cells[i] == b.cells[i]
    {
      assert forall j :: 0 <= j < a.cols ==> a.cells[i][j] == b.cells[i][j];
    }
  }

  /** A matrix is symmetric exactly when it is square and equal to its transpose. */
  lemma SymmetricIffTransposeFixed(m: Mat)
    requires m.Valid()
    ensures IsSymmetric(m) <==> m.rows == m.cols && Transpose(m) == m
  {
    if IsSymmetric(m) {
      Ext(Transpose(m), m);
    }
    if m.rows == m.cols && Transpose(m) == m {
      forall i, j | 0 <= i < m.rows && 0 <= j < m.rows
        ensures m.cells[i][j] == m.cells[j][i]
      {
        assert Transpose(m).cells[j][i] == m.cells[i][j];
      }
    }
  }

  /** Every scaled identity is symmetric. */
  lemma ScaledIdentitySymmetric(n: nat, v: real)
    ensures IsSymmetric(ScaledIdentity(n, v))
  {
  }

  /** Adding to a constant matrix gives the constant matrix of the sum. */
  lemma AddConstOfConstant(rows: nat, cols: nat, v: real, w: real)
    ensures AddConst(Constant(rows, cols, v), w) == Constant(rows, cols, v + w)
  {
    Ext(AddConst(Constant(rows, cols, v), w), Constant(rows, cols, v + w));
  }
}
