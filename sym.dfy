/** Symmetric matrices as gonum's `SymDense` holds them, and the specification of
    `ToSymDense`: a square matrix whose off-diagonal pairs all pass the closeness test,
    scanned row by row, becomes a `SymDense` over a copy of its values. */
module Sym {
  import opened Errors
  import opened Grid
  import opened Layout
  import Blocks

  /** An n×n symmetric matrix over n·n values stored row by row, of which only the upper
      triangle (i <= j) is ever read, as in gonum's `NewSymDense(n, data)`. */
  datatype SymDense = SymDense(n: nat, data: seq<real>) {
    predicate Valid() {
      |data| == Mul(n, n)
    }
  }

  /** Element (i, j): read from the upper triangle whatever the order of i and j. */
  function At(s: SymDense, i: nat, j: nat): (x: real)
    requires s.Valid() && i < s.n && j < s.n
  {
    if i <= j then s.data[Offset(true, s.n, s.n, i, j)] else s.data[Offset(true, s.n, s.n, j, i)]
  }

  /** The dense matrix `s` shows through `At`; it is always symmetric. */
  function Dense(s: SymDense): (d: Mat)
    requires s.Valid()
    ensures d.Valid() && d.rows == s.n && d.cols == s.n
    ensures forall i, j :: 0 <= i < s.n && 0 <= j < s.n ==> d.cells[i][j] == At(s, i, j)
    ensures IsSymmetric(d)
  {
    Mat(s.n, s.n, seq(s.n, i requires 0 <= i < s.n => seq(s.n, j requires 0 <= j < s.n => At(s, i, j))))
  }

  /** The dense views of a sequence of symmetric matrices; one is zero-sized exactly when
      its size is zero (`mx[i].Symmetric() == 0`). */
  function Denses(ss: seq<SymDense>): (ms: seq<Mat>)
    requires forall k :: 0 <= k < |ss| ==> ss[k].Valid()
    ensures |ms| == |ss| && Blocks.AllValid(ms)
    ensures forall k :: 0 <= k < |ss| ==> ms[k] == Dense(ss[k])
    ensures forall k :: 0 <= k < |ss| ==> (ms[k].ZeroSized() <==> ss[k].n == 0)
  {
    seq(|ss|, k requires 0 <= k < |ss| => Dense(ss[k]))
  }

  /** The block-diagonal matrix of symmetric blocks is square and symmetric. */
  lemma BlockSymDiagSymmetric(ss: seq<SymDense>)
    requires forall k :: 0 <= k < |ss| ==> ss[k].Valid()
    ensures IsSymmetric(Blocks.BlockDiag(Denses(ss)))
  {
    Blocks.BlockDiagSymmetric(Denses(ss));
  }

  // ---------------------------------------------------------------------------
  // ToSymDense

  /** Position (i0, j0) comes strictly before (i, j) in row-major order. */
  predicate Before(i0: nat, j0: nat, i: nat, j: nat)
  {
    i0 < i || (i0 == i && j0 < j)
  }

  /** The off-diagonal pair (i, j) fails the closeness test: element (i, j) of the transpose,
      m[j][i], is not close to m[i][j]. */
  predicate Asym(m: Mat, close: (real, real) -> bool, i: nat, j: nat)
    requires m.Valid() && m.rows == m.cols && i < m.rows && j < m.rows
  {
    i != j && !close(m.cells[j][i], m.cells[i][j])
  }

  /** The first failing pair at or after (i, j) in row-major order, if there is one. */
  function FirstAsym(m: Mat, close: (real, real) -> bool, i: nat, j: nat): (r: Option<(nat, nat)>)
    requires m.Valid() && m.rows == m.cols && i <= m.rows && j <= m.rows
    ensures r.Some? ==> r.value.0 < m.rows && r.value.1 < m.rows
    ensures r.Some? ==> Asym(m, close, r.value.0, r.value.1) && !Before(r.value.0, r.value.1, i, j)
    decreases m.rows - i, m.rows - j
  {
    if i == m.rows then None
    else if j == m.rows then FirstAsym(m, close, i + 1, 0)
    else if Asym(m, close, i, j) then Some((i, j))
    else FirstAsym(m, close, i, j + 1)
  }

  /** Every pair from (i, j) up to the one `FirstAsym` returns (or to the end) passes. */
  lemma {:induction false} FirstAsymPasses(m: Mat, close: (real, real) -> bool, i: nat, j: nat)
    requires m.Valid() && m.rows == m.cols && i <= m.rows && j <= m.rows
    ensures forall a, b ::
              (0 <= a < m.rows && 0 <= b < m.rows && !Before(a, b, i, j) &&
               (FirstAsym(m, close, i, j).None? || Before(a, b, FirstAsym(m, close, i, j).value.0, FirstAsym(m, close, i, j).value.1)))
              ==> !Asym(m, close, a, b)
    decreases m.rows - i, m.rows - j
  {
    if i == m.rows {
    } else if j == m.rows {
      FirstAsymPasses(m, close, i + 1, 0);
    } else if !Asym(m, close, i, j) {
      FirstAsymPasses(m, close, i, j + 1);
    }
  }

  /** What `ToSymDense(m)` returns, with the closeness test `close` given: a non-square matrix
      is refused; otherwise the first failing pair in row-major order is reported together
      with both of its values; otherwise the result holds every value of m, row by row. */
  function Symmetrize(m: Mat, close: (real, real) -> bool): (r: Result<SymDense>)
    requires m.Valid()
    ensures r.Success? ==> r.value.Valid() && r.value.n == m.rows
  {
    if m.rows != m.cols then Failure(NotSquare)
    else
      var first := FirstAsym(m, close, 0, 0);
      if first.Some? then
        var i, j := first.value.0, first.value.1;
        Failure(NotSymmetric(i, j, m.cells[j][i], m.cells[i][j]))
      else
        VectorizeLength(m, true);
        Success(SymDense(m.rows, Vectorize(m, true)))
  }

  /** `ToSymDense` fails exactly when m is not square or some off-diagonal pair fails the
      closeness test; a non-symmetry error names a failing pair, with m[j][i] and m[i][j], and
      every pair before it in row-major order passes. */
  lemma SymmetrizeFailure(m: Mat, close: (real, real) -> bool)
    requires m.Valid()
    ensures Symmetrize(m, close).Failure? <==>
              m.rows != m.cols ||
              exists i, j :: 0 <= i < m.rows && 0 <= j < m.rows && Asym(m, close, i, j)
    ensures Symmetrize(m, close) == Failure(NotSquare) <==> m.rows != m.cols
    ensures Symmetrize(m, close).Failure? && Symmetrize(m, close).error.NotSymmetric? ==>
              var e := Symmetrize(m, close).error;
              m.rows == m.cols && e.i < m.rows && e.j < m.rows && Asym(m, close, e.i, e.j) &&
              e.transposed == m.cells[e.j][e.i] && e.original == m.cells[e.i][e.j] &&
              forall a, b :: 0 <= a < m.rows && 0 <= b < m.rows && Before(a, b, e.i, e.j) ==> !Asym(m, close, a, b)
  {
    if m.rows == m.cols {
      FirstAsymPasses(m, close, 0, 0);
      var first := FirstAsym(m, close, 0, 0);
      if first.Some? {
        assert Asym(m, close, first.value.0, first.value.1);
      }
    }
  }

  /** On success the result is n×n where m is, its upper triangle is m's upper triangle, its
      lower triangle mirrors it, and every off-diagonal pair of m passed the closeness test. */
  lemma SymmetrizeSuccess(m: Mat, close: (real, real) -> bool, i: nat, j: nat)
    requires m.Valid() && Symmetrize(m, close).Success?
    requires i < m.rows && j < m.cols
    ensures m.rows == m.cols && Symmetrize(m, close).value.n == m.rows
    ensures At(Symmetrize(m, close).value, i, j) == if i <= j then m.cells[i][j] else m.cells[j][i]
    ensures i != j ==> close(m.cells[j][i], m.cells[i][j])
  {
    var s := Symmetrize(m, close).value;
    FirstAsymPasses(m, close, 0, 0);
    assert !Asym(m, close, i, j);
    if i <= j {
      VectorizeAt(m, true, i, j);
    } else {
      VectorizeAt(m, true, j, i);
    }
  }

  /** An exactly symmetric matrix is accepted by any closeness test that accepts equal
      values, and the result shows exactly m. */
  lemma SymmetrizeSymmetric(m: Mat, close: (real, real) -> bool)
    requires m.Valid() && IsSymmetric(m)
    requires forall x :: close(x, x)
    ensures Symmetrize(m, close).Success?
    ensures Dense(Symmetrize(m, close).value) == m
  {
    var first := FirstAsym(m, close, 0, 0);
    if first.Some? {
      assert false;
    }
    var s := Symmetrize(m, close).value;
    var d := Dense(s);
    forall i, j | 0 <= i < m.rows && 0 <= j < m.cols
      ensures d.cells[i][j] == m.cells[i][j]
    {
      SymmetrizeSuccess(m, close, i, j);
    }
    Ext(d, m);
  }
}
