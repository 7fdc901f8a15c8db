/** The vector layouts of `Unroll` and `SetVals`: row by row, element (i, j) of a
    rows×cols matrix goes to index i·cols + j; column by column, to index j·rows + i. */
module Layout {
  import opened Grid

  // ---------------------------------------------------------------------------
  // Index arithmetic

  /** The product a·b, defined by repeated addition so that the index arithmetic below stays
      linear for the solver; `MulIsProduct` ties it to `*`. */
  function Mul(a: nat, b: nat): (p: nat)
  {
    if a == 0 then 0 else Mul(a - 1, b) + b
  }

  lemma {:induction false} MulIsProduct(a: nat, b: nat)
    ensures Mul(a, b) == a * b
  {
    if a > 0 {
      MulIsProduct(a - 1, b);
      assert (a - 1) * b + b == a * b;
    }
  }

  lemma {:induction false} MulLe(a: nat, b: nat, c: nat)
    requires a <= b
    ensures Mul(a, c) <= Mul(b, c)
  {
    if a < b {
      MulLe(a, b - 1, c);
    }
  }

  lemma {:induction false} MulZeroRight(a: nat)
    ensures Mul(a, 0) == 0
  {
    if a > 0 {
      MulZeroRight(a - 1);
    }
  }

  lemma {:induction false} MulSuccRight(a: nat, b: nat)
    ensures Mul(a, b + 1) == Mul(a, b) + a
  {
    if a > 0 {
      MulSuccRight(a - 1, b);
    }
  }

  lemma {:induction false} MulComm(a: nat, b: nat)
    ensures Mul(a, b) == Mul(b, a)
  {
    if a > 0 {
      MulComm(a - 1, b);
      MulSuccRight(b, a - 1);
    } else {
      MulZeroRight(b);
    }
  }

  /** Row i of a row-major rows×cols layout ends inside the vector. */
  lemma RowEnd(i: nat, rows: nat, cols: nat)
    requires i < rows
    ensures Mul(i, cols) + cols <= Mul(rows, cols)
  {
    MulLe(i + 1, rows, cols);
  }

  /** Index of element (i, j) of a `rows` × `cols` matrix in its unrolled vector; every such
      index lies inside the vector of rows·cols elements. */
  function Offset(byRow: bool, rows: nat, cols: nat, i: nat, j: nat): (k: nat)
    requires i < rows && j < cols
    ensures k < Mul(rows, cols)
  {
    if byRow then
      RowEnd(i, rows, cols);
      Mul(i, cols) + j
    else
      RowEnd(j, cols, rows);
      MulComm(cols, rows);
      Mul(j, rows) + i
  }

  // ---------------------------------------------------------------------------
  // The two layouts as functions of a matrix value

  /** The rows of `cells` one after another. */
  function Concat(cells: seq<seq<real>>): (v: seq<real>)
  {
    if cells == [] then [] else cells[0] + Concat(cells[1..])
  }

  /** The vector `Unroll(m, byRow)` returns: the rows of `m` one after another, or its columns. */
  function Vectorize(m: Mat, byRow: bool): (v: seq<real>)
    requires m.Valid()
  {
    if byRow then Concat(m.cells) else Concat(Transpose(m).cells)
  }

  /** The `len` elements of `v` from index `start` on. */
  function Segment(v: seq<real>, start: nat, len: nat): (r: seq<real>)
    requires start + len <= |v|
    ensures |r| == len
    ensures forall k :: 0 <= k < len ==> r[k] == v[start + k]
  {
    v[start .. start + len]
  }

  /** The `rows` × `cols` matrix cut row by row out of `v`: row i is the `cols` elements
      from index i·cols on. */
  function CutRows(rows: nat, cols: nat, v: seq<real>): (m: Mat)
    requires |v| == Mul(rows, cols)
    ensures m.Valid() && m.rows == rows && m.cols == cols
  {
    Mat(rows, cols, seq(rows, i requires 0 <= i < rows => (RowEnd(i, rows, cols); Segment(v, Mul(i, cols), cols))))
  }

  /** The matrix `SetVals(m, v, byRow)` leaves in a `rows` × `cols` matrix `m`. */
  function Fill(rows: nat, cols: nat, v: seq<real>, byRow: bool): (m: Mat)
    requires |v| == Mul(rows, cols)
    ensures m.Valid() && m.rows == rows && m.cols == cols
  {
    if byRow then CutRows(rows, cols, v)
    else
      MulComm(rows, cols);
      Transpose(CutRows(cols, rows, v))
  }

  // ---------------------------------------------------------------------------
  // Concat: where each element lands, and that this determines the vector

  /** The rows of `cells` all have `cols` elements. */
  predicate Rect(cells: seq<seq<real>>, cols: nat)
  {
    forall i :: 0 <= i < |cells| ==> |cells[i]| == cols
  }

  lemma {:induction false} ConcatLength(cells: seq<seq<real>>, cols: nat)
    requires Rect(cells, cols)
    ensures |Concat(cells)| == Mul(|cells|, cols)
  {
    if cells != [] {
      ConcatLength(cells[1..], cols);
    }
  }

  /** Appending a row to `cells` appends its elements to the concatenation. */
  lemma {:induction false} ConcatSnoc(cells: seq<seq<real>>, row: seq<real>)
    ensures Concat(cells + [row]) == Concat(cells) + row
  {
    if cells == [] {
      assert [row][1..] == [];
    } else {
      assert (cells + [row])[1..] == cells[1..] + [row];
      ConcatSnoc(cells[1..], row);
    }
  }

  /** Element j of row i is at index i·cols + j of the concatenation. */
  lemma {:induction false} ConcatAt(cells: seq<seq<real>>, cols: nat, i: nat, j: nat)
    requires Rect(cells, cols) && i < |cells| && j < cols
    ensures |Concat(cells)| == Mul(|cells|, cols)
    ensures Concat(cells)[Offset(true, |cells|, cols, i, j)] == cells[i][j]
  {
    ConcatLength(cells, cols);
    if i > 0 {
      ConcatAt(cells[1..], cols, i - 1, j);
    }
  }

  /** A vector of the right length holding element (i, j) at i·cols + j is the concatenation. */
  lemma {:induction false} ConcatUnique(cells: seq<seq<real>>, cols: nat, v: seq<real>)
    requires Rect(cells, cols) && |v| == Mul(|cells|, cols)
    requires forall i, j :: 0 <= i < |cells| && 0 <= j < cols ==> v[Offset(true, |cells|, cols, i, j)] == cells[i][j]
    ensures v == Concat(cells)
  {
    if cells != [] {
      var n := |cells|;
      var rest := v[cols..];
      forall i, j | 0 <= i < n - 1 && 0 <= j < cols
        ensures rest[Offset(true, n - 1, cols, i, j)] == cells[1..][i][j]
      {
        RowEnd(i, n - 1, cols);
        assert v[Offset(true, n, cols, i + 1, j)] == cells[i + 1][j];
      }
      ConcatUnique(cells[1..], cols, rest);
      forall j | 0 <= j < cols
        ensures v[..cols][j] == cells[0][j]
      {
        assert v[Offset(true, n, cols, 0, j)] == cells[0][j];
      }
      assert v[..cols] == cells[0];
      assert v == v[..cols] + rest;
    }
  }

  // ---------------------------------------------------------------------------
  // The layouts of Unroll and SetVals

  /** `Vectorize` has rows·cols elements, element (i, j) at `Offset(byRow, rows, cols, i, j)`. */
  lemma VectorizeAt(m: Mat, byRow: bool, i: nat, j: nat)
    requires m.Valid() && i < m.rows && j < m.cols
    ensures |Vectorize(m, byRow)| == Mul(m.rows, m.cols)
    ensures Vectorize(m, byRow)[Offset(byRow, m.rows, m.cols, i, j)] == m.cells[i][j]
  {
    if byRow {
      ConcatAt(m.cells, m.cols, i, j);
    } else {
      var t := Transpose(m);
      ConcatAt(t.cells, t.cols, j, i);
      MulComm(m.cols, m.rows);
    }
  }

  /** `Vectorize` always has rows·cols elements. */
  lemma VectorizeLength(m: Mat, byRow: bool)
    requires m.Valid()
    ensures |Vectorize(m, byRow)| == Mul(m.rows, m.cols)
  {
    if byRow {
      ConcatLength(m.cells, m.cols);
    } else {
      ConcatLength(Transpose(m).cells, m.rows);
      MulComm(m.cols, m.rows);
    }
  }

  /** The layout determines the vector: one of length rows·cols that holds every element (i, j)
      at `Offset(byRow, rows, cols, i, j)` is `Vectorize(m, byRow)`. */
  lemma VectorizeUnique(m: Mat, byRow: bool, v: seq<real>)
    requires m.Valid() && |v| == Mul(m.rows, m.cols)
    requires forall i, j :: 0 <= i < m.rows && 0 <= j < m.cols ==> v[Offset(byRow, m.rows, m.cols, i, j)] == m.cells[i][j]
    ensures v == Vectorize(m, byRow)
  {
    if byRow {
      forall i, j | 0 <= i < m.rows && 0 <= j < m.cols
        ensures v[Offset(true, m.rows, m.cols, i, j)] == m.cells[i][j]
      {
        assert v[Offset(byRow, m.rows, m.cols, i, j)] == m.cells[i][j];
      }
      ConcatUnique(m.cells, m.cols, v);
    } else {
      var t := Transpose(m);
      MulComm(m.cols, m.rows);
      forall j, i | 0 <= j < t.rows && 0 <= i < t.cols
        ensures v[Offset(true, t.rows, t.cols, j, i)] == t.cells[j][i]
      {
        assert v[Offset(byRow, m.rows, m.cols, i, j)] == m.cells[i][j];
      }
      ConcatUnique(t.cells, t.cols, v);
    }
  }

  /** `Fill` puts element `Offset(byRow, rows, cols, i, j)` of `v` at (i, j). */
  lemma FillAt(rows: nat, cols: nat, v: seq<real>, byRow: bool, i: nat, j: nat)
    requires |v| == Mul(rows, cols) && i < rows && j < cols
    ensures Fill(rows, cols, v, byRow).cells[i][j] == v[Offset(byRow, rows, cols, i, j)]
  {
    if byRow {
      CutRowsAt(rows, cols, v, i, j);
    } else {
      FillAtByCol(rows, cols, v, i, j);
    }
  }

  /** Column by column, element (i, j) is element (j, i) of the matrix cut row by row. */
  lemma FillAtByCol(rows: nat, cols: nat, v: seq<real>, i: nat, j: nat)
    requires |v| == Mul(rows, cols) && i < rows && j < cols
    ensures Fill(rows, cols, v, false).cells[i][j] == v[Offset(false, rows, cols, i, j)]
  {
    MulComm(rows, cols);
    var c := CutRows(cols, rows, v);
    CutRowsAt(cols, rows, v, j, i);
    assert Fill(rows, cols, v, false) == Transpose(c);
    assert Transpose(c).cells[i][j] == c.cells[j][i];
    assert Offset(false, rows, cols, i, j) == Offset(true, cols, rows, j, i);
  }

  /** `CutRows` puts element i·cols + j of `v` at (i, j). */
  lemma CutRowsAt(rows: nat, cols: nat, v: seq<real>, i: nat, j: nat)
    requires |v| == Mul(rows, cols) && i < rows && j < cols
    ensures CutRows(rows, cols, v).cells[i][j] == v[Offset(true, rows, cols, i, j)]
  {
    RowEnd(i, rows, cols);
  }

  /** Refilling a matrix from its own unrolled vector, in the same order, reproduces it. */
  lemma FillVectorize(m: Mat, byRow: bool)
    requires m.Valid()
    ensures |Vectorize(m, byRow)| == Mul(m.rows, m.cols)
    ensures Fill(m.rows, m.cols, Vectorize(m, byRow), byRow) == m
  {
    var v := Vectorize(m, byRow);
    VectorizeLength(m, byRow);
    var f := Fill(m.rows, m.cols, v, byRow);
    forall i, j | 0 <= i < m.rows && 0 <= j < m.cols
      ensures f.cells[i][j] == m.cells[i][j]
    {
      VectorizeAt(m, byRow, i, j);
      FillAt(m.rows, m.cols, v, byRow, i, j);
    }
    Ext(f, m);
  }

  /** Unrolling a matrix filled from `v`, in the same order, gives `v` back. */
  lemma VectorizeFill(rows: nat, cols: nat, v: seq<real>, byRow: bool)
    requires |v| == Mul(rows, cols)
    ensures Vectorize(Fill(rows, cols, v, byRow), byRow) == v
  {
    var f := Fill(rows, cols, v, byRow);
    forall i, j | 0 <= i < rows && 0 <= j < cols
      ensures v[Offset(byRow, rows, cols, i, j)] == f.cells[i][j]
    {
      FillAt(rows, cols, v, byRow, i, j);
    }
    VectorizeUnique(f, byRow, v);
  }
}
