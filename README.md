# matrix helpers over gonum dense matrices, modelled in Dafny

This project models the core of the Go package `matrix` (`matrix.go`). The package is a set of
small helpers around gonum's `mat.Dense` and `mat.SymDense`:

- a dimension guard and two constructors, one for constant matrices and one for scaled
  identities;
- an in-place "add a constant";
- prefix row and column reductions (sum, max, min, mean);
- a conversion of a dense matrix into a symmetric one;
- assembly of block-diagonal matrices;
- flattening a matrix into a vector and refilling a matrix from a vector.

The model has two layers.

- **Values.** Matrices as values:
  - `Grid.Mat` is a rectangle of `real`s.
  - `Sym.SymDense` is n·n values, row by row, of which only the upper triangle is read, as in
    gonum.

  Each operation is specified as a pure function on values:
  - `Grid` has constants, scaled identities, `AddConst` and transposition.
  - `Stats` has the aggregates of a row or column view.
  - `Layout` has the two vector layouts.
  - `Blocks` has the block-diagonal assembly.
  - `Sym` has the `ToSymDense` specification.

  The properties the library promises are proved there as lemmas: round trips, shapes, where
  each block lands, zeros elsewhere, symmetry, and how the aggregates shift.
- **Imperative.** Module `Matrix` follows `matrix.go` function by function.
  - A `*mat.Dense` is an `array2<real>`. Where the library accepts a nil matrix (`AddVal`, the
    reductions), the parameter is an `array2?<real>`, and `null` is nil.
  - The loops of the source are `while` loops with invariants, and `AddVal` and `SetVals`
    update the caller's array in place.
  - A method's `ensures` clause ties its result, or the new contents of its array, to the
    value-level specification, mostly through `ValueOf`, the value an array holds. The helpers
    that stand for gonum's in-place calls (`Grow`, `CopyBlock`, `SetRow`, `SetCol`) state their
    effect element by element instead.
  - Errors are values of `Errors.Error`, returned in a `Result` or an `Option`.
  - `Cases` restates most concrete cases of `matrix_test.go` on the model:
    - the constructors and their refused dimensions;
    - `AddVal`;
    - the maxima, minima, sums and means of the 3×2 sample;
    - the count-exceeds and nil cases of the reductions;
    - `Unroll`, and `SetVals` by row and by column;
    - `ToSymDense`, `BlockDiag` and `BlockSymDiag`.

    `AddVal(nil, …)` and the short-vector case of `SetVals` are covered directly by those
    methods' contracts. The tests of the left-out `NewDenseRand`, `ColsStdev` and `Cov` are not
    restated.

Where the library's doc comments and its code disagree, the model follows the code:

- **Reductions.** The comments say the `Rows*`/`Cols*` reductions fail for a zero-sized
  matrix. The code performs no such check: the empty matrix with a count of 0 yields an empty
  result.
- **`SetVals`.** The comment says it fails when the matrix has more elements than the vector.
  The code fails on any length mismatch.

## Model

| member | source | states |
|---|---|---|
| `Matrix.CheckDims` | matrix.go:197-206 | accepted exactly when rows > 0 and cols > 0; a non-positive row count is reported first, then a non-positive column count |
| `Matrix.NewDenseVal` | matrix.go:38-49 | invalid dimensions give the guard's error and no matrix; otherwise a fresh rows×cols matrix every element of which is val |
| `Matrix.NewDenseValIdentity` | matrix.go:53-66 | invalid size gives the guard's error and no matrix; otherwise a fresh n×n matrix with val on the diagonal and 0 elsewhere |
| `Matrix.AddVal` | matrix.go:71-85 | nil gives the invalid-matrix error; a zero-sized matrix fails the guard and is left unchanged; otherwise val is added to every element in place, the shape is kept and the same matrix is returned |
| `Matrix.DimFn` | matrix.go:156-169 | result of length count whose k-th entry is the aggregate of row (column) k |
| `Matrix.WithValidDim` | matrix.go:175-193 | nil is refused before the count is checked; a count beyond the rows (columns) gives the count-exceeds error; otherwise one aggregate per row (column) |
| `Matrix.ColsSum` | matrix.go:90-92 | `Reduces` for columns and the sum |
| `Matrix.ColsMax` | matrix.go:97-99 | `Reduces` for columns and the maximum |
| `Matrix.ColsMin` | matrix.go:104-106 | `Reduces` for columns and the minimum |
| `Matrix.ColsMean` | matrix.go:111-113 | `Reduces` for columns and the mean |
| `Matrix.RowsMax` | matrix.go:125-127 | `Reduces` for rows and the maximum |
| `Matrix.RowsSum` | matrix.go:132-134 | `Reduces` for rows and the sum |
| `Matrix.RowsMin` | matrix.go:139-141 | `Reduces` for rows and the minimum |
| `Matrix.RowsMean` | matrix.go:146-148 | `Reduces` for rows and the mean |
| `Stats.MaxOf` | matrix.go:166 | the maximum (`mat.Max` of a view) is an element of the view and no element exceeds it |
| `Stats.MinOf` | matrix.go:166 | the minimum (`mat.Min` of a view) is an element of the view and no element is below it |
| `Stats.MeanOf` | matrix.go:209-212 | the mean, sum over element count, lies between the minimum and the maximum |
| `Stats.SumBounds` | matrix.go:209-212 | the sum of n elements lies between n·min and n·max |
| `Stats.SumAtMost` | matrix.go:209-212 | elements all at most hi sum to at most n·hi |
| `Stats.SumAtLeast` | matrix.go:209-212 | elements all at least lo sum to at least n·lo |
| `Stats.SumShift` | matrix.go:71-85 | adding v to each of n elements adds n·v to the sum |
| `Stats.MaxShift` | matrix.go:71-85 | adding v to every element adds v to the maximum |
| `Stats.MinShift` | matrix.go:71-85 | adding v to every element adds v to the minimum |
| `Stats.MeanShift` | matrix.go:71-85 | adding v to every element adds v to the mean |
| `Stats.AggregateAddConst` | matrix.go:175-193 | after `AddVal(m, v)` each reduction of a row (column) shifts: the sum by (view length)·v, max, min and mean by v |
| `Stats.SumConstant` | matrix.go:38-49 | n copies of v sum to n·v |
| `Stats.AggregateConstant` | matrix.go:38-49 | in `NewDenseVal(r, c, v)` every row (column) has max, min and mean v and sum (length)·v |
| `Grid.SymmetricIffTransposeFixed` | matrix.go:261-282 | a matrix is symmetric exactly when it is square and equal to its transpose |
| `Grid.ScaledIdentitySymmetric` | matrix.go:53-66 | every scaled identity is symmetric |
| `Grid.AddConstOfConstant` | matrix.go:38-85 | adding w to the constant-v matrix gives the constant v + w matrix |
| `Matrix.ToSymDense` | matrix.go:261-282 | returns exactly `Symmetrize` of the matrix: non-square refused; the first failing pair in row-major order reported with m[j][i] and m[i][j]; otherwise a copy of every value, row by row |
| `Matrix.ScanRow` | matrix.go:271-278 | one row of the scan: the first failing column of row i is returned as soon as it is met, and is the first failing pair at or after row i; if none fails, row i has been written at the running index after the rows before it, and the search goes on at row i + 1 |
| `Sym.FirstAsym` | matrix.go:270-275 | the pair found fails the closeness test, lies off the diagonal and comes at or after the scan's start |
| `Sym.FirstAsymPasses` | matrix.go:270-275 | every pair scanned before the one found (or, if none, every pair) passes the test |
| `Sym.SymmetrizeFailure` | matrix.go:261-282 | fails exactly when m is not square or some off-diagonal pair fails; NotSquare exactly when not square; a non-symmetry error names a failing pair with both values and every earlier pair passes |
| `Sym.SymmetrizeSuccess` | matrix.go:268-281 | on success the result is n×n, `At(i, j)` is m[i][j] on and above the diagonal and m[j][i] below it, and every off-diagonal pair passed the test |
| `Sym.SymmetrizeSymmetric` | matrix.go:261-282 | an exactly symmetric matrix is accepted by any test that accepts equal values, and the result shows exactly m |
| `Sym.Dense` | matrix.go:281 | a `SymDense` shows a symmetric n×n matrix |
| `Sym.Denses` | matrix.go:308-309 | a symmetric input is zero-sized exactly when its size is 0 |
| `Sym.BlockSymDiagSymmetric` | matrix.go:304-318 | the block-diagonal matrix of symmetric blocks is symmetric |
| `Matrix.Grow` | matrix.go:295 | growing keeps the old elements in the top-left corner and makes every new element 0 |
| `Matrix.CopyBlock` | matrix.go:296 | the block at (r0, c0) becomes b; nothing else changes |
| `Matrix.PlaceBlock` | matrix.go:294-296 | one iteration leaves `Place(old, b)` |
| `Matrix.BlockDiag` | matrix.go:286-300 | the result is exactly `Blocks.BlockDiag` of the inputs |
| `Matrix.BlockSymDiag` | matrix.go:304-318 | the result is `Blocks.BlockDiag` of the inputs' dense views, and symmetric |
| `Blocks.Place` | matrix.go:294-296 | one step grows the accumulator by exactly the block's rows and columns |
| `Blocks.BlockDiag` | matrix.go:286-300 | the result has as many rows and columns as the non-skipped inputs together |
| `Blocks.BlockDiagOfNone` | matrix.go:287 | before the loop the accumulator is the empty matrix |
| `Blocks.BlockDiagOfStep` | matrix.go:289-297 | one iteration skips a zero-sized input and otherwise places it after the accumulator |
| `Blocks.PlaceEmpty` | matrix.go:294-296 | placing a block on the empty accumulator gives the block itself |
| `Blocks.BlockDiagBlock` | matrix.go:286-300 | each non-skipped input k appears unchanged at rows and columns offset by the sizes of the inputs before it |
| `Blocks.BlockDiagZero` | matrix.go:286-300 | every element in no input's rectangle is 0 |
| `Blocks.BlockDiagSkip` | matrix.go:290-293 | a zero-sized input anywhere in the sequence changes nothing |
| `Blocks.PlaceSymmetric` | matrix.go:313-314 | placing a symmetric block on a symmetric accumulator keeps it symmetric |
| `Blocks.BlockDiagSymmetric` | matrix.go:304-318 | symmetric inputs give a symmetric result |
| `Matrix.Unroll` | matrix.go:322-327 | for a non-empty m, returns rows·cols elements, `Vectorize(m, byRow)`; m is not changed |
| `Matrix.ToVecByRow` | matrix.go:330-341 | for a non-empty m, returns its rows·cols elements, the rows one after another |
| `Matrix.ToVecByCol` | matrix.go:344-355 | for a non-empty m, returns its rows·cols elements, the columns one after another |
| `Matrix.CopyRow` | matrix.go:334-337 | the inner loop of `toVecByRow`: after it, the vector's first i·cols + cols elements are rows 0 to i one after another |
| `Matrix.CopyCol` | matrix.go:348-351 | the inner loop of `toVecByCol`: after it, the vector's first i·rows + rows elements are columns 0 to i one after another |
| `Matrix.SetVals` | matrix.go:360-372 | a vector whose length is not rows·cols gives the mismatch error and leaves m unchanged; otherwise m becomes `Fill(rows, cols, vals, byRow)` |
| `Matrix.SetRow` | matrix.go:379 | row i becomes the slice; nothing else changes |
| `Matrix.SetCol` | matrix.go:389 | column j becomes the slice; nothing else changes |
| `Matrix.SetByRow` | matrix.go:375-382 | m becomes the vector cut row by row |
| `Matrix.SetByCol` | matrix.go:385-392 | m becomes the vector cut column by column |
| `Layout.Offset` | matrix.go:336 | the index of element (i, j), i·cols + j or j·rows + i, lies inside the rows·cols vector |
| `Layout.ConcatSnoc` | matrix.go:333-338 | appending a row appends its elements to the vector |
| `Layout.ConcatLength` | matrix.go:332 | rows of cols elements concatenate to rows·cols elements |
| `Layout.ConcatAt` | matrix.go:336 | element j of row i is at index i·cols + j |
| `Layout.ConcatUnique` | matrix.go:330-341 | a vector of the right length holding every (i, j) at i·cols + j is the concatenation |
| `Layout.VectorizeAt` | matrix.go:322-355 | `Unroll` has rows·cols elements, element (i, j) at i·cols + j by row and at j·rows + i by column |
| `Layout.VectorizeLength` | matrix.go:332 | the unrolled vector always has rows·cols elements |
| `Layout.VectorizeUnique` | matrix.go:322-355 | the layout determines the vector: one holding every element at its offset is the unrolled vector |
| `Layout.FillAt` | matrix.go:375-392 | `SetVals` puts the vector's element at offset (i, j) at (i, j) |
| `Layout.FillVectorize` | matrix.go:322-392 | `SetVals(t, Unroll(m, b), b)` on a matrix t of m's shape reproduces m |
| `Layout.VectorizeFill` | matrix.go:322-392 | `Unroll` after `SetVals(m, v, b)` in the same order gives v back |
| `Layout.MulIsProduct` | matrix.go:362 | the repeated-addition product used for `r*c` is the product |
| `Cases.UnrollSample` | matrix_test.go:376-392 | the 3×2 sample unrolls by row to its data and by column to 1.2, 4.5, 8.9, 3.4, 6.7, 10.0 |
| `Cases.SetValsByColSample` | matrix_test.go:410-416 | filling the 3×2 matrix by column from the data gives rows (1.2, 6.7), (3.4, 8.9), (4.5, 10.0) |
| `Cases.ConstructorSamples` | matrix_test.go:61-97 | the 2×2 constant-one matrix, the 2×2 identity, and the guard's errors for (3, -6), (-3, 10) and (-6, -6) |
| `Cases.AddValSample` | matrix_test.go:102-110 | adding 0.5 to [[1, 2], [2.5, 2.5]] gives [[1.5, 2.5], [3, 3]] |
| `Cases.ReduceSample` | matrix_test.go:118-199 | column maxima 8.9, 10.0, row maxima 3.4, 6.7, 10.0, column minima 1.2, 3.4 and row minima 1.2, 4.5, 8.9 of the sample |
| `Cases.SumMeanSample` | matrix_test.go:202-248 | row sums 4.6, 11.2, 18.9, column sums 14.6, 20.1, row means 2.3, 5.6, 9.45 and column means 14.6/3, 6.7 of the sample; the first column mean is within 0.01 of the test's 4.8667 |
| `Cases.SampleRowSums` | matrix_test.go:205-206 | the rows of the sample sum to 4.6, 11.2 and 18.9 |
| `Cases.SampleColSums` | matrix_test.go:205-207 | the columns of the sample are 1.2, 4.5, 8.9 and 3.4, 6.7, 10.0, and they sum to 14.6 and 20.1 |
| `Cases.ReduceErrorSamples` | matrix_test.go:140-157 | a 3×2 matrix refuses 3 columns and 4 rows with the axis's count-exceeds error; nil is refused with the invalid-matrix error |
| `Cases.SetValsByRowSample` | matrix_test.go:403-408 | filling the 3×2 matrix by row from the data gives the sample |
| `Cases.SymSampleViews` | matrix_test.go:350-359 | the symmetric inputs of the case show as [[1, 2], [2, 1]], the empty matrix and [[4]] |
| `Cases.BlockSymDiagSample` | matrix_test.go:347-369 | the 2×2 symmetric, the empty and the 1×1 input assemble into [[1, 2, 0], [2, 1, 0], [0, 0, 4]] |
| `Cases.BlockDiagSample` | matrix_test.go:323-344 | a 3-vector, an empty matrix and a 2×2 matrix assemble into the expected 5×3 matrix |
| `Cases.ToSymDenseSamples` | matrix_test.go:303-317 | with exact comparison: 2×1 is not square, [[0.5, 1], [2, 2]] fails at (0, 1), [[0.5, 1], [1, 2]] is accepted |

## Left out

- `NewDenseRand` (matrix.go:22-34): it draws from the global random generator, reseeded on
  every call. Apart from the shared dimension guard there is nothing to state about it.
- `Format` (matrix.go:15-17): pretty-printing through gonum's formatter.
- `ColsStdev` and `stdev` (matrix.go:118-120, 215-220): a square root through gonum's `stat`
  package.
- `Cov` (matrix.go:224-257): floating-point numerics through gonum's `Mul` and `Scale`. It
  also ignores reduction errors, and it indexes the mean vectors by the other axis.
- Floating point: every element is an exact `real`, so the rounding of sums and means is not
  modelled.
- Integer width: row and column counts are unbounded, and `r*c` is the exact product
  (`Layout.Mul`). Overflow of Go's `int` is not modelled.
- The closeness test of `ToSymDense`: `floats.EqualWithinAbsOrRel(a, b, 1e-6, 1e-2)` belongs
  to gonum and is a parameter `close` here. The lemmas assume of it only what each one states,
  for instance that it accepts equal values.
- The dimension argument of the reductions is a two-constructor datatype, so an unknown
  dimension string cannot be written. In the source it leaves the view function nil.
- A negative count in the reductions is excluded by precondition, because `make` panics on
  it.
- The reductions also require gonum's shape invariant: a `mat.Dense` has zero rows exactly
  when it has zero columns.
- `Matrix.ToSymDense` requires a non-empty matrix, because gonum's `NewSymDense` panics for
  size zero.
- `Matrix.Unroll`, `Matrix.ToVecByRow`, `Matrix.ToVecByCol` require a non-empty matrix,
  because both layouts end in gonum's `NewVecDense(rows*cols, vec)`, which panics for length
  zero (matrix.go:340, 354). The panic on the empty matrix is not modelled.
- A nil matrix passed to `ToSymDense`, `Unroll` or `SetVals` panics in the source.
  Their parameters are therefore non-null arrays.
- `Matrix.SetVals`: `vals` is a value (`seq<real>`), not a slice. In Go, a `vals` slice
  that shares storage with `m` is read while `setByCol` overwrites `m` column by column
  (matrix.go:389), so later columns could see values already written. That aliasing is not
  modelled.
- The inputs of `BlockDiag` and `BlockSymDiag` are only read. They are taken as values
  (`Grid.Mat`, `Sym.SymDense`), not as arrays, so any aliasing between an input and the
  result is not modelled.
- `Matrix.BlockSymDiag` returns the symmetric result as a square dense array, not as gonum's
  packed `SymDense`. gonum's `Grow`, `GrowSquare`, `Slice`, `Copy`, `CopySym`, `SetRow`,
  `SetCol`, `RowView` and `ColView` are modelled only by their observable effect: old
  elements kept, new elements zero, a sub-block or a row or column overwritten.
- `Unroll` returns the vector's elements as a sequence instead of a `*mat.VecDense`.
- `Matrix.NewDenseValIdentity` writes the diagonal into a zero matrix directly, in place of
  gonum's `NewDiagDense` followed by `Clone`.
- Error messages: each error is a datatype constructor carrying the values the message
  prints. The formatting of the message, including the matrix dump of the non-symmetry
  error, is not modelled.
