/** Block-diagonal assembly of `BlockDiag` and `BlockSymDiag`, as values. The library starts
    from the empty matrix and, for every input that has at least one row and one column,
    grows the accumulator by that many rows and columns and copies the input into the new
    bottom-right corner; cells outside the blocks are zero. */
module Blocks {
  import opened Grid

  /** One step of the assembly: `acc` grown by `b.rows` rows and `b.cols` columns
      (`Grow`, new cells zero) with `b` copied into the new bottom-right corner. */
  function Place(acc: Mat, b: Mat): (r: Mat)
    requires acc.Valid() && b.Valid()
    ensures r.Valid() && r.rows == acc.rows + b.rows && r.cols == acc.cols + b.cols
  {
    Mat(acc.rows + b.rows, acc.cols + b.cols,
        seq(acc.rows + b.rows, i => seq(acc.cols + b.cols, j => PlacedAt(acc, b, i, j))))
  }

  /** Element (i, j) after one step: the old element in the top-left corner, the new block's
      element in the bottom-right corner, and zero elsewhere. */
  function PlacedAt(acc: Mat, b: Mat, i: int, j: int): (x: real)
  {
    if i < acc.rows && j < acc.cols then Get(acc, i, j)
    else Get(b, i - acc.rows, j - acc.cols)
  }

  predicate AllValid(ms: seq<Mat>)
  {
    forall k :: 0 <= k < |ms| ==> ms[k].Valid()
  }

  /** The total number of rows of the first n inputs that are not zero-sized. */
  function RowsOf(ms: seq<Mat>, n: nat): (rows: nat)
    requires n <= |ms|
  {
    if n == 0 then 0
    else RowsOf(ms, n - 1) + (if ms[n - 1].ZeroSized() then 0 else ms[n - 1].rows)
  }

  /** The total number of columns of the first n inputs that are not zero-sized. */
  function ColsOf(ms: seq<Mat>, n: nat): (cols: nat)
    requires n <= |ms|
  {
    if n == 0 then 0
    else ColsOf(ms, n - 1) + (if ms[n - 1].ZeroSized() then 0 else ms[n - 1].cols)
  }

  /** Element (i, j) once the first n inputs are assembled: what `Place` leaves there when it
      adds input n - 1, unless that input is zero-sized and skipped. */
  function CellOf(ms: seq<Mat>, n: nat, i: int, j: int): (x: real)
    requires n <= |ms|
  {
    if n == 0 then 0.0
    else if ms[n - 1].ZeroSized() then CellOf(ms, n - 1, i, j)
    else if i < RowsOf(ms, n - 1) && j < ColsOf(ms, n - 1) then CellOf(ms, n - 1, i, j)
    else Get(ms[n - 1], i - RowsOf(ms, n - 1), j - ColsOf(ms, n - 1))
  }

  /** The first n inputs assembled in order, zero-sized ones skipped: the accumulator after
      n iterations of the library's loop. */
  function BlockDiagOf(ms: seq<Mat>, n: nat): (r: Mat)
    requires n <= |ms|
    ensures r.Valid() && r.rows == RowsOf(ms, n) && r.cols == ColsOf(ms, n)
  {
    Mat(RowsOf(ms, n), ColsOf(ms, n),
        seq(RowsOf(ms, n), i => seq(ColsOf(ms, n), j => CellOf(ms, n, i, j))))
  }

  /** The block-diagonal matrix of all of `ms`. */
  function BlockDiag(ms: seq<Mat>): (r: Mat)
    ensures r.Valid() && r.rows == RowsOf(ms, |ms|) && r.cols == ColsOf(ms, |ms|)
  {
    BlockDiagOf(ms, |ms|)
  }

  /** Cell (i, j) of the result lies in the rectangle of input k: rows from the sum of the rows
      of the inputs before k, columns likewise. */
  predicate InBlock(ms: seq<Mat>, k: nat, i: nat, j: nat)
    requires k < |ms|
  {
    RowsOf(ms, k) <= i < RowsOf(ms, k) + ms[k].rows &&
    ColsOf(ms, k) <= j < ColsOf(ms, k) + ms[k].cols
  }

  // ---------------------------------------------------------------------------
  // The loop

  /** The assembly of no input is the empty matrix. */
  lemma BlockDiagOfNone(ms: seq<Mat>)
    ensures BlockDiagOf(ms, 0) == Empty()
  {
    Ext(BlockDiagOf(ms, 0), Empty());
  }

  /** The first input placed on the empty accumulator is that input itself. */
  lemma PlaceEmpty(b: Mat)
    requires b.Valid()
    ensures Place(Empty(), b) == b
  {
    var p := Place(Empty(), b);
    forall i, j | 0 <= i < b.rows && 0 <= j < b.cols
      ensures p.cells[i][j] == b.cells[i][j]
    {
      assert p.cells[i][j] == PlacedAt(Empty(), b, i, j);
    }
    Ext(p, b);
  }

  /** One iteration of the library's loop: input n is skipped when zero-sized, and placed on
      the accumulator otherwise. */
  lemma BlockDiagOfStep(ms: seq<Mat>, n: nat)
    requires AllValid(ms) && n < |ms|
    ensures BlockDiagOf(ms, n + 1) ==
            if ms[n].ZeroSized() then BlockDiagOf(ms, n) else Place(BlockDiagOf(ms, n), ms[n])
  {
    var acc, r := BlockDiagOf(ms, n), BlockDiagOf(ms, n + 1);
    var s := if ms[n].ZeroSized() then acc else Place(acc, ms[n]);
    forall i, j | 0 <= i < r.rows && 0 <= j < r.cols
      ensures r.cells[i][j] == s.cells[i][j]
    {
      assert r.cells[i][j] == CellOf(ms, n + 1, i, j);
      if ms[n].ZeroSized() {
        assert s.cells[i][j] == CellOf(ms, n, i, j);
      } else {
        assert s.cells[i][j] == PlacedAt(acc, ms[n], i, j);
        if i < acc.rows && j < acc.cols {
          assert Get(acc, i, j) == CellOf(ms, n, i, j);
        }
      }
    }
    Ext(r, s);
  }

  // ---------------------------------------------------------------------------
  // Shape and contents

  /** Input k, when not zero-sized, appears unchanged at rows RowsOf(ms, k).. and
      columns ColsOf(ms, k).. of the result. */
  lemma BlockDiagBlock(ms: seq<Mat>, k: nat, i: nat, j: nat)
    requires AllValid(ms) && k < |ms| && !ms[k].ZeroSized()
    requires i < ms[k].rows && j < ms[k].cols
    ensures RowsOf(ms, k) + i < BlockDiag(ms).rows
    ensures ColsOf(ms, k) + j < BlockDiag(ms).cols
    ensures BlockDiag(ms).cells[RowsOf(ms, k) + i][ColsOf(ms, k) + j] == ms[k].cells[i][j]
  {
    CellOfBlock(ms, |ms|, k, i, j);
  }

  /** Input k keeps its place once the first n inputs are assembled, for every n past k. */
  lemma {:induction false} CellOfBlock(ms: seq<Mat>, n: nat, k: nat, i: nat, j: nat)
    requires AllValid(ms) && k < n <= |ms| && !ms[k].ZeroSized()
    requires i < ms[k].rows && j < ms[k].cols
    ensures RowsOf(ms, k) + i < RowsOf(ms, n) && ColsOf(ms, k) + j < ColsOf(ms, n)
    ensures CellOf(ms, n, RowsOf(ms, k) + i, ColsOf(ms, k) + j) == ms[k].cells[i][j]
  {
    if n > k + 1 {
      CellOfBlock(ms, n - 1, k, i, j);
    }
  }

  /** Every cell of the result that lies in no input's rectangle is zero. */
  lemma BlockDiagZero(ms: seq<Mat>, i: nat, j: nat)
    requires AllValid(ms)
    requires i < BlockDiag(ms).rows && j < BlockDiag(ms).cols
    requires forall k :: 0 <= k < |ms| && !ms[k].ZeroSized() ==> !InBlock(ms, k, i, j)
    ensures BlockDiag(ms).cells[i][j] == 0.0
  {
    CellOfZero(ms, |ms|, i, j);
  }

  /** A cell in no rectangle of the first n inputs is zero once they are assembled. */
  lemma {:induction false} CellOfZero(ms: seq<Mat>, n: nat, i: nat, j: nat)
    requires AllValid(ms) && n <= |ms|
    requires forall k :: 0 <= k < n && !ms[k].ZeroSized() ==> !InBlock(ms, k, i, j)
    ensures CellOf(ms, n, i, j) == 0.0
  {
    if n > 0 {
      var b, r0, c0 := ms[n - 1], RowsOf(ms, n - 1), ColsOf(ms, n - 1);
      if b.ZeroSized() || (i < r0 && j < c0) {
        CellOfZero(ms, n - 1, i, j);
        assert CellOf(ms, n - 1, i, j) == 0.0;
      } else {
        assert !InBlock(ms, n - 1, i, j);
        GetOutside(b, i - r0, j - c0);
      }
    }
  }

  /** The first m inputs of two sequences that agree on them assemble alike. */
  lemma {:induction false} PrefixAgree(l: seq<Mat>, r: seq<Mat>, m: nat)
    requires m <= |l| && m <= |r|
    requires forall k :: 0 <= k < m ==> l[k] == r[k]
    ensures RowsOf(l, m) == RowsOf(r, m) && ColsOf(l, m) == ColsOf(r, m)
    ensures forall i, j :: CellOf(l, m, i, j) == CellOf(r, m, i, j)
  {
    if m > 0 {
      PrefixAgree(l, r, m - 1);
    }
  }

  /** Past a zero-sized input at position m of `l`, the assembly of `l` runs one input behind
      that of `r`, which lacks it: the first nl = nr + 1 inputs of `l` assemble like the first
      nr of `r`. */
  lemma {:induction false} SkipAgree(l: seq<Mat>, r: seq<Mat>, m: nat, nl: nat, nr: nat)
    requires m <= nr && nl == nr + 1 && nl <= |l| && nr <= |r| && l[m].ZeroSized()
    requires RowsOf(l, m) == RowsOf(r, m) && ColsOf(l, m) == ColsOf(r, m)
    requires forall i, j :: CellOf(l, m, i, j) == CellOf(r, m, i, j)
    requires forall q :: m < q < nl ==> l[q] == r[q - 1]
    ensures RowsOf(l, nl) == RowsOf(r, nr) && ColsOf(l, nl) == ColsOf(r, nr)
    ensures forall i, j :: CellOf(l, nl, i, j) == CellOf(r, nr, i, j)
  {
    if nr > m {
      SkipAgree(l, r, m, nl - 1, nr - 1);
      assert l[nl - 1] == r[nr - 1];
    }
  }

  /** A zero-sized input changes nothing, wherever it stands. */
  lemma BlockDiagSkip(a: seq<Mat>, e: Mat, b: seq<Mat>)
    requires e.ZeroSized()
    ensures BlockDiag(a + [e] + b) == BlockDiag(a + b)
  {
    var l, r := a + [e] + b, a + b;
    forall k | 0 <= k < |a|
      ensures l[k] == r[k]
    {
      assert l[k] == a[k] && r[k] == a[k];
    }
    PrefixAgree(l, r, |a|);
    forall q | |a| < q < |l|
      ensures l[q] == r[q - 1]
    {
      assert l[q] == b[q - |a| - 1] && r[q - 1] == b[q - |a| - 1];
    }
    assert l[|a|] == e;
    SkipAgree(l, r, |a|, |l|, |r|);
    var x, y := BlockDiag(l), BlockDiag(r);
    forall i, j | 0 <= i < x.rows && 0 <= j < x.cols
      ensures x.cells[i][j] == y.cells[i][j]
    {
      assert x.cells[i][j] == CellOf(l, |l|, i, j);
      assert y.cells[i][j] == CellOf(r, |r|, i, j);
    }
    Ext(x, y);
  }

  // ---------------------------------------------------------------------------
  // The symmetric variant

  /** One step keeps the accumulator symmetric when the new block is symmetric. */
  lemma PlaceSymmetric(acc: Mat, b: Mat)
    requires acc.Valid() && b.Valid() && IsSymmetric(acc) && IsSymmetric(b)
    ensures IsSymmetric(Place(acc, b))
  {
  }

  /** Square symmetric inputs give a symmetric result: zero padding is symmetric. */
  lemma BlockDiagSymmetric(ms: seq<Mat>)
    requires AllValid(ms)
    requires forall k :: 0 <= k < |ms| ==> IsSymmetric(ms[k])
    ensures IsSymmetric(BlockDiag(ms))
  {
    var d := BlockDiag(ms);
    CellOfSymmetric(ms, |ms|, 0, 0);
    forall i, j | 0 <= i < d.rows && 0 <= j < d.rows
      ensures d.cells[i][j] == d.cells[j][i]
    {
      CellOfSymmetric(ms, |ms|, i, j);
    }
  }

  /** Over square symmetric inputs the assembly is square and its cells mirror each other. */
  lemma {:induction false} CellOfSymmetric(ms: seq<Mat>, n: nat, i: int, j: int)
    requires AllValid(ms) && n <= |ms|
    requires forall k :: 0 <= k < |ms| ==> IsSymmetric(ms[k])
    ensures RowsOf(ms, n) == ColsOf(ms, n)
    ensures CellOf(ms, n, i, j) == CellOf(ms, n, j, i)
  {
    if n > 0 {
      CellOfSymmetric(ms, n - 1, i, j);
      assert IsSymmetric(ms[n - 1]);
    }
  }
}
