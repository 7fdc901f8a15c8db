/** Concrete cases of matrix_test.go, stated on the model. */
module Cases {
  import opened Errors
  import opened Grid
  import opened Stats
  import opened Layout
  import opened Sym
  import Blocks
  import Matrix

  /** `NewDenseVal(2, 2, 1.0)` is the 2×2 matrix of ones, `NewDenseValIdentity(2, 1.0)` the
      2×2 identity, and negative dimensions are refused by the guard. */
  lemma ConstructorSamples()
    ensures Constant(2, 2, 1.0) == Mat(2, 2, [[1.0, 1.0], [1.0, 1.0]])
    ensures ScaledIdentity(2, 1.0) == Mat(2, 2, [[1.0, 0.0], [0.0, 1.0]])
    ensures Matrix.CheckDims(3, -6) == Some(InvalidCols(-6))
    ensures Matrix.CheckDims(-3, 10) == Some(InvalidRows(-3))
    ensures Matrix.CheckDims(-6, -6) == Some(InvalidRows(-6))
  {
    Ext(Constant(2, 2, 1.0), Mat(2, 2, [[1.0, 1.0], [1.0, 1.0]]));
    Ext(ScaledIdentity(2, 1.0), Mat(2, 2, [[1.0, 0.0], [0.0, 1.0]]));
  }

  /** Adding 0.5 to [[1, 2], [2.5, 2.5]] gives [[1.5, 2.5], [3, 3]]. */
  lemma AddValSample()
    ensures AddConst(Mat(2, 2, [[1.0, 2.0], [2.5, 2.5]]), 0.5) == Mat(2, 2, [[1.5, 2.5], [3.0, 3.0]])
  {
    Ext(AddConst(Mat(2, 2, [[1.0, 2.0], [2.5, 2.5]]), 0.5), Mat(2, 2, [[1.5, 2.5], [3.0, 3.0]]));
  }

  /** The 3×2 matrix the reduction and vectoriser cases use, filled row by row. */
  function Sample(): (m: Mat)
    ensures m.Valid() && m.rows == 3 && m.cols == 2
  {
    Mat(3, 2, [[1.2, 3.4], [4.5, 6.7], [8.9, 10.0]])
  }

  /** Unrolling by row gives the data back; by column it reads down each column. */
  lemma UnrollSample()
    ensures Vectorize(Sample(), true) == [1.2, 3.4, 4.5, 6.7, 8.9, 10.0]
    ensures Vectorize(Sample(), false) == [1.2, 4.5, 8.9, 3.4, 6.7, 10.0]
  {
    var t := Transpose(Sample());
    assert t.cells[0] == Col(Sample(), 0) == [1.2, 4.5, 8.9];
    assert t.cells[1] == Col(Sample(), 1) == [3.4, 6.7, 10.0];
    assert t.cells == [t.cells[0], t.cells[1]];
  }

  /** Filling a 3×2 matrix from the data column by column. */
  lemma SetValsByColSample()
    ensures Mul(3, 2) == 6
    ensures Fill(3, 2, [1.2, 3.4, 4.5, 6.7, 8.9, 10.0], false) == Mat(3, 2, [[1.2, 6.7], [3.4, 8.9], [4.5, 10.0]])
  {
    var v := [1.2, 3.4, 4.5, 6.7, 8.9, 10.0];
    var f := Fill(3, 2, v, false);
    var e := Mat(3, 2, [[1.2, 6.7], [3.4, 8.9], [4.5, 10.0]]);
    forall i, j | 0 <= i < 3 && 0 <= j < 2
      ensures f.cells[i][j] == e.cells[i][j]
    {
      FillAt(3, 2, v, false, i, j);
    }
    Ext(f, e);
  }

  /** Maxima and minima of the rows and columns of the sample. */
  lemma ReduceSample()
    ensures MaxOf(Sample().cells[0]) == 3.4 && MaxOf(Sample().cells[1]) == 6.7 && MaxOf(Sample().cells[2]) == 10.0
    ensures MaxOf(Col(Sample(), 0)) == 8.9 && MaxOf(Col(Sample(), 1)) == 10.0
    ensures MinOf(Sample().cells[0]) == 1.2 && MinOf(Sample().cells[1]) == 4.5 && MinOf(Sample().cells[2]) == 8.9
    ensures MinOf(Col(Sample(), 0)) == 1.2 && MinOf(Col(Sample(), 1)) == 3.4
  {
    SampleRowSums();
    SampleColSums();
  }

  /** Row sums, column sums, row means and column means of the sample. The test compares the
      column means with 4.8667 and 6.7 to within 0.01; the first is exactly 14.6 / 3. */
  lemma SumMeanSample()
    ensures SumOf(Sample().cells[0]) == 4.6 && SumOf(Sample().cells[1]) == 11.2 && SumOf(Sample().cells[2]) == 18.9
    ensures SumOf(Col(Sample(), 0)) == 14.6 && SumOf(Col(Sample(), 1)) == 20.1
    ensures MeanOf(Sample().cells[0]) == 2.3 && MeanOf(Sample().cells[1]) == 5.6 && MeanOf(Sample().cells[2]) == 9.45
    ensures MeanOf(Col(Sample(), 0)) == 14.6 / 3.0 && MeanOf(Col(Sample(), 1)) == 6.7
    ensures 4.8667 - 0.01 <= MeanOf(Col(Sample(), 0)) <= 4.8667 + 0.01
  {
    SampleRowSums();
    SampleColSums();
  }

  /** The row sums of the sample. */
  lemma SampleRowSums()
    ensures SumOf(Sample().cells[0]) == 4.6 && SumOf(Sample().cells[1]) == 11.2 && SumOf(Sample().cells[2]) == 18.9
  {
    assert SumOf([1.2, 3.4]) == 4.6 by { assert [1.2, 3.4][1..] == [3.4]; }
    assert SumOf([4.5, 6.7]) == 11.2 by { assert [4.5, 6.7][1..] == [6.7]; }
    assert SumOf([8.9, 10.0]) == 18.9 by { assert [8.9, 10.0][1..] == [10.0]; }
  }

  /** The columns of the sample and their sums. */
  lemma SampleColSums()
    ensures Col(Sample(), 0) == [1.2, 4.5, 8.9] && Col(Sample(), 1) == [3.4, 6.7, 10.0]
    ensures SumOf(Col(Sample(), 0)) == 14.6 && SumOf(Col(Sample(), 1)) == 20.1
  {
    assert Col(Sample(), 0) == [1.2, 4.5, 8.9];
    assert Col(Sample(), 1) == [3.4, 6.7, 10.0];
    assert SumOf([1.2, 4.5, 8.9]) == 14.6 by {
      assert [1.2, 4.5, 8.9][1..] == [4.5, 8.9];
      assert [4.5, 8.9][1..] == [8.9];
    }
    assert SumOf([3.4, 6.7, 10.0]) == 20.1 by {
      assert [3.4, 6.7, 10.0][1..] == [6.7, 10.0];
      assert [6.7, 10.0][1..] == [10.0];
    }
  }

  /** A count beyond the sample's rows or columns is refused with the axis's error, and a nil
      matrix is refused, whatever the count. */
  lemma ReduceErrorSamples(m: array2<real>)
    requires m.Length0 == 3 && m.Length1 == 2
    ensures Matrix.Reduces(Cols, 3, m, Max, Failure(ColCountExceeded(3)))
    ensures Matrix.Reduces(Rows, 4, m, Max, Failure(RowCountExceeded(4)))
    ensures Matrix.Reduces(Cols, 3, m, Min, Failure(ColCountExceeded(3)))
    ensures Matrix.Reduces(Rows, 4, m, Min, Failure(RowCountExceeded(4)))
    ensures Matrix.Reduces(Cols, 2, null, Max, Failure(InvalidMatrix))
    ensures Matrix.Reduces(Rows, 3, null, Min, Failure(InvalidMatrix))
  {
  }

  /** Filling a 3×2 matrix from the data row by row gives the sample. */
  lemma SetValsByRowSample()
    ensures Mul(3, 2) == 6
    ensures Fill(3, 2, [1.2, 3.4, 4.5, 6.7, 8.9, 10.0], true) == Sample()
  {
    var v := [1.2, 3.4, 4.5, 6.7, 8.9, 10.0];
    var f := Fill(3, 2, v, true);
    forall i, j | 0 <= i < 3 && 0 <= j < 2
      ensures f.cells[i][j] == Sample().cells[i][j]
    {
      FillAt(3, 2, v, true, i, j);
    }
    Ext(f, Sample());
  }

  /** Two non-empty inputs around a zero-sized one: the first is placed on the empty
      accumulator, the second skipped, the third placed on the first. */
  lemma AssembleThree(x: Mat, e: Mat, y: Mat)
    requires x.Valid() && e.Valid() && y.Valid()
    requires !x.ZeroSized() && e.ZeroSized() && !y.ZeroSized()
    ensures Blocks.BlockDiag([x, e, y]) == Blocks.Place(x, y)
  {
    var ms := [x, e, y];
    Blocks.PlaceEmpty(x);
    Blocks.BlockDiagOfNone(ms);
    Blocks.BlockDiagOfStep(ms, 0);
    Blocks.BlockDiagOfStep(ms, 1);
    Blocks.BlockDiagOfStep(ms, 2);
  }

  /** A 3-vector, an empty matrix and a 2×2 matrix assemble into the 5×3 block matrix. */
  lemma BlockDiagSample()
    ensures Blocks.BlockDiag([Mat(3, 1, [[1.0], [2.0], [3.0]]), Empty(), Mat(2, 2, [[4.0, 5.0], [6.0, 7.0]])]) ==
            Mat(5, 3, [[1.0, 0.0, 0.0], [2.0, 0.0, 0.0], [3.0, 0.0, 0.0], [0.0, 4.0, 5.0], [0.0, 6.0, 7.0]])
  {
    var x, y := Mat(3, 1, [[1.0], [2.0], [3.0]]), Mat(2, 2, [[4.0, 5.0], [6.0, 7.0]]);
    AssembleThree(x, Empty(), y);
    var r := Blocks.Place(x, y);
    var e := Mat(5, 3, [[1.0, 0.0, 0.0], [2.0, 0.0, 0.0], [3.0, 0.0, 0.0], [0.0, 4.0, 5.0], [0.0, 6.0, 7.0]]);
    forall i, j | 0 <= i < 5 && 0 <= j < 3
      ensures r.cells[i][j] == e.cells[i][j]
    {
      assert r.cells[i][j] == Blocks.PlacedAt(x, y, i, j);
    }
    Ext(r, e);
  }

  /** With exact comparison: a 2×1 matrix is not square, [[0.5, 1], [2, 2]] fails at (0, 1),
      and [[0.5, 1], [1, 2]] is accepted. */
  lemma ToSymDenseSamples()
    ensures Symmetrize(Mat(2, 1, [[0.5], [1.0]]), (a, b) => a == b) == Failure(NotSquare)
    ensures Symmetrize(Mat(2, 2, [[0.5, 1.0], [2.0, 2.0]]), (a, b) => a == b) == Failure(NotSymmetric(0, 1, 2.0, 1.0))
    ensures Symmetrize(Mat(2, 2, [[0.5, 1.0], [1.0, 2.0]]), (a, b) => a == b).Success?
  {
    var eq := (a: real, b: real) => a == b;
    var bad := Mat(2, 2, [[0.5, 1.0], [2.0, 2.0]]);
    assert Asym(bad, eq, 0, 1);
    assert FirstAsym(bad, eq, 0, 0) == FirstAsym(bad, eq, 0, 1);
    SymmetrizeSymmetric(Mat(2, 2, [[0.5, 1.0], [1.0, 2.0]]), eq);
  }

  /** The dense views of the three symmetric inputs of the block-diagonal case. */
  lemma SymSampleViews()
    ensures Mul(2, 2) == 4 && Mul(1, 1) == 1 && Mul(0, 0) == 0
    ensures Denses([SymDense(2, [1.0, 2.0, 2.0, 1.0]), SymDense(0, []), SymDense(1, [4.0])]) ==
            [Mat(2, 2, [[1.0, 2.0], [2.0, 1.0]]), Mat(0, 0, []), Mat(1, 1, [[4.0]])]
  {
    var sx, se, sy := SymDense(2, [1.0, 2.0, 2.0, 1.0]), SymDense(0, []), SymDense(1, [4.0]);
    var x, y := Mat(2, 2, [[1.0, 2.0], [2.0, 1.0]]), Mat(1, 1, [[4.0]]);
    forall i, j | 0 <= i < 2 && 0 <= j < 2
      ensures Dense(sx).cells[i][j] == x.cells[i][j]
    {
      assert Offset(true, 2, 2, 0, 1) == 1;
      assert Offset(true, 2, 2, 1, 1) == 3;
    }
    Ext(Dense(sx), x);
    Ext(Dense(sy), y);
    assert Dense(se) == Mat(0, 0, []);
  }

  /** The 2×2 symmetric [[1, 2], [2, 1]], an empty symmetric matrix and the 1×1 [[4]]
      assemble into the 3×3 block matrix. */
  lemma BlockSymDiagSample()
    ensures Mul(2, 2) == 4 && Mul(1, 1) == 1 && Mul(0, 0) == 0
    ensures Blocks.BlockDiag(Denses([SymDense(2, [1.0, 2.0, 2.0, 1.0]), SymDense(0, []), SymDense(1, [4.0])])) ==
            Mat(3, 3, [[1.0, 2.0, 0.0], [2.0, 1.0, 0.0], [0.0, 0.0, 4.0]])
  {
    SymSampleViews();
    var x, y := Mat(2, 2, [[1.0, 2.0], [2.0, 1.0]]), Mat(1, 1, [[4.0]]);
    AssembleThree(x, Empty(), y);
    var r := Blocks.Place(x, y);
    var e := Mat(3, 3, [[1.0, 2.0, 0.0], [2.0, 1.0, 0.0], [0.0, 0.0, 4.0]]);
    forall i, j | 0 <= i < 3 && 0 <= j < 3
      ensures r.cells[i][j] == e.cells[i][j]
    {
      assert r.cells[i][j] == Blocks.PlacedAt(x, y, i, j);
    }
    Ext(r, e);
  }
}
