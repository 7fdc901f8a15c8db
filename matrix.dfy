/** The helpers of matrix.go over gonum dense matrices. A `*mat.Dense` is a two-dimensional
    array of reals; where the library accepts a nil matrix the parameter is nullable. Every
    method is specified by the value functions of the modules it imports: what it returns, or
    the new contents of the matrix it changes, as a function of its inputs. */
module Matrix {
  import opened Errors
  import opened Grid
  import opened Stats
  import opened Layout
  import opened Sym
  import Blocks

  /** The contents of a dense matrix, as `Dims` and `At` show them. */
  function ValueOf(a: array2<real>): (v: Mat)
    reads a
    ensures v.Valid() && v.rows == a.Length0 && v.cols == a.Length1
    ensures forall i, j :: 0 <= i < a.Length0 && 0 <= j < a.Length1 ==> v.cells[i][j] == a[i, j]
  {
    Mat(a.Length0, a.Length1,
        seq(a.Length0, i requires 0 <= i < a.Length0 reads a =>
          seq(a.Length1, j requires 0 <= j < a.Length1 reads a => a[i, j])))
  }

  /** The shape every `mat.Dense` has: it has no rows exactly when it has no columns
      (only the empty `&mat.Dense{}` is zero-sized). */
  predicate DenseShape(m: array2<real>)
  {
    m.Length0 == 0 <==> m.Length1 == 0
  }

  // ---------------------------------------------------------------------------
  // withValidDims and the constructors

  /** `withValidDims`: a non-positive row count is reported first, then a non-positive column
      count; both positive lets the builder run. */
  function CheckDims(rows: int, cols: int): (e: Option<Error>)
    ensures e == None <==> rows > 0 && cols > 0
    ensures rows <= 0 ==> e == Some(InvalidRows(rows))
    ensures rows > 0 && cols <= 0 ==> e == Some(InvalidCols(cols))
  {
    if rows <= 0 then Some(InvalidRows(rows))
    else if cols <= 0 then Some(InvalidCols(cols))
    else None
  }

  /** A rows × cols matrix every element of which is `val`; invalid dimensions give the
      guard's error and no matrix. */
  method NewDenseVal(rows: int, cols: int, val: real) returns (r: Result<array2<real>>)
    ensures CheckDims(rows, cols).Some? ==> r == Failure(CheckDims(rows, cols).value)
    ensures CheckDims(rows, cols).None? ==>
              r.Success? && fresh(r.value) && ValueOf(r.value) == Constant(rows, cols, val)
  {
    var e := CheckDims(rows, cols);
    if e.Some? {
      return Failure(e.value);
    }
    var m := new real[rows, cols]((_, _) => 0.0);
    var i := 0;
    while i < rows
      invariant 0 <= i <= rows
      invariant forall a, b :: 0 <= a < rows && 0 <= b < cols ==> m[a, b] == if a < i then val else 0.0
    {
      var j := 0;
      while j < cols
        invariant 0 <= j <= cols
        invariant forall a, b :: 0 <= a < rows && 0 <= b < cols ==>
                    m[a, b] == if a < i || (a == i && b < j) then val else 0.0
      {
        m[i, j] := val;
        j := j + 1;
      }
      i := i + 1;
    }
    Ext(ValueOf(m), Constant(rows, cols, val));
    return Success(m);
  }

  /** An n × n matrix with `val` on the diagonal and zero elsewhere; an invalid size gives the
      guard's error and no matrix. */
  method NewDenseValIdentity(n: int, val: real) returns (r: Result<array2<real>>)
    ensures CheckDims(n, n).Some? ==> r == Failure(CheckDims(n, n).value)
    ensures CheckDims(n, n).None? ==>
              r.Success? && fresh(r.value) && ValueOf(r.value) == ScaledIdentity(n, val)
  {
    var e := CheckDims(n, n);
    if e.Some? {
      return Failure(e.value);
    }
    var data := new real[n];
    var k := 0;
    while k < n
      invariant 0 <= k <= n
      invariant forall d :: 0 <= d < k ==> data[d] == val
    {
      data[k] := val;
      k := k + 1;
    }
    // The diagonal matrix over `data`, cloned into a dense one.
    var m := new real[n, n]((_, _) => 0.0);
    k := 0;
    while k < n
      invariant 0 <= k <= n
      invariant forall d :: 0 <= d < n ==> data[d] == val
      invariant forall a, b :: 0 <= a < n && 0 <= b < n ==> m[a, b] == if a == b && a < k then val else 0.0
    {
      m[k, k] := data[k];
      k := k + 1;
    }
    Ext(ValueOf(m), ScaledIdentity(n, val));
    return Success(m);
  }

  /** `AddVal`: a nil matrix is refused; a zero-sized one fails the guard and is left as it
      was; otherwise `val` is added to every element in place and the same matrix is
      returned. */
  method AddVal(m: array2?<real>, val: real) returns (r: Result<array2<real>>)
    modifies m
    ensures m == null ==> r == Failure(InvalidMatrix)
    ensures m != null && CheckDims(m.Length0, m.Length1).Some? ==>
              r == Failure(CheckDims(m.Length0, m.Length1).value) && ValueOf(m) == old(ValueOf(m))
    ensures m != null && CheckDims(m.Length0, m.Length1).None? ==>
              r.Success? && r.value == m && ValueOf(m) == AddConst(old(ValueOf(m)), val)
  {
    if m == null {
      return Failure(InvalidMatrix);
    }
    var rows, cols := m.Length0, m.Length1;
    var e := CheckDims(rows, cols);
    if e.Some? {
      return Failure(e.value);
    }
    var i := 0;
    while i < rows
      invariant 0 <= i <= rows
      invariant forall a, b :: 0 <= a < rows && 0 <= b < cols ==>
                  m[a, b] == if a < i then old(m[a, b]) + val else old(m[a, b])
    {
      var j := 0;
      while j < cols
        invariant 0 <= j <= cols
        invariant forall a, b :: 0 <= a < rows && 0 <= b < cols ==>
                    m[a, b] == if a < i || (a == i && b < j) then old(m[a, b]) + val else old(m[a, b])
      {
        m[i, j] := m[i, j] + val;
        j := j + 1;
      }
      i := i + 1;
    }
    Ext(ValueOf(m), AddConst(old(ValueOf(m)), val));
    return Success(m);
  }

  // ---------------------------------------------------------------------------
  // The row and column reductions: withValidDim, dimFn and the wrappers

  /** What a reduction of the first `count` rows (or columns) of `m` returns: nil is refused
      before the count is looked at; a count beyond the matrix is refused; otherwise the
      result holds, for each of the first `count` rows (columns), its aggregate. */
  predicate Reduces(dim: Dim, count: int, m: array2?<real>, agg: Agg, r: Result<seq<real>>)
    reads m
    requires m != null ==> 0 <= count && DenseShape(m)
  {
    if m == null then r == Failure(InvalidMatrix)
    else
      var v := ValueOf(m);
      if count > Extent(v, dim) then
        r == Failure(if dim == Rows then RowCountExceeded(count) else ColCountExceeded(count))
      else
        r.Success? && |r.value| == count &&
        forall k :: 0 <= k < count ==> r.value[k] == Aggregate(agg, View(v, dim, k))
  }

  /** `dimFn`: the aggregate of each of the first `count` rows (columns), in order. */
  method DimFn(dim: Dim, count: nat, m: array2<real>, agg: Agg) returns (res: seq<real>)
    requires DenseShape(m) && count <= Extent(ValueOf(m), dim)
    ensures |res| == count
    ensures forall k :: 0 <= k < count ==> res[k] == Aggregate(agg, View(ValueOf(m), dim, k))
  {
    var out := new real[count];
    var i := 0;
    while i < count
      invariant 0 <= i <= count
      invariant forall k :: 0 <= k < i ==> out[k] == Aggregate(agg, View(ValueOf(m), dim, k))
    {
      out[i] := Aggregate(agg, View(ValueOf(m), dim, i));
      i := i + 1;
    }
    res := out[..];
  }

  /** `withValidDim`. */
  method WithValidDim(dim: Dim, count: int, m: array2?<real>, agg: Agg) returns (r: Result<seq<real>>)
    requires m != null ==> 0 <= count && DenseShape(m)
    ensures Reduces(dim, count, m, agg, r)
  {
    if m == null {
      return Failure(InvalidMatrix);
    }
    var rows, cols := m.Length0, m.Length1;
    match dim {
      case Rows =>
        if count > rows {
          return Failure(RowCountExceeded(count));
        }
      case Cols =>
        if count > cols {
          return Failure(ColCountExceeded(count));
        }
    }
    var res := DimFn(dim, count, m, agg);
    return Success(res);
  }

  method ColsSum(cols: int, m: array2?<real>) returns (r: Result<seq<real>>)
    requires m != null ==> 0 <= cols && DenseShape(m)
    ensures Reduces(Cols, cols, m, Sum, r)
  {
    r := WithValidDim(Cols, cols, m, Sum);
  }

  method ColsMax(cols: int, m: array2?<real>) returns (r: Result<seq<real>>)
    requires m != null ==> 0 <= cols && DenseShape(m)
    ensures Reduces(Cols, cols, m, Max, r)
  {
    r := WithValidDim(Cols, cols, m, Max);
  }

  method ColsMin(cols: int, m: array2?<real>) returns (r: Result<seq<real>>)
    requires m != null ==> 0 <= cols && DenseShape(m)
    ensures Reduces(Cols, cols, m, Min, r)
  {
    r := WithValidDim(Cols, cols, m, Min);
  }

  method ColsMean(cols: int, m: array2?<real>) returns (r: Result<seq<real>>)
    requires m != null ==> 0 <= cols && DenseShape(m)
    ensures Reduces(Cols, cols, m, Mean, r)
  {
    r := WithValidDim(Cols, cols, m, Mean);
  }

  method RowsMax(rows: int, m: array2?<real>) returns (r: Result<seq<real>>)
    requires m != null ==> 0 <= rows && DenseShape(m)
    ensures Reduces(Rows, rows, m, Max, r)
  {
    r := WithValidDim(Rows, rows, m, Max);
  }

  method RowsSum(rows: int, m: array2?<real>) returns (r: Result<seq<real>>)
    requires m != null ==> 0 <= rows && DenseShape(m)
    ensures Reduces(Rows, rows, m, Sum, r)
  {
    r := WithValidDim(Rows, rows, m, Sum);
  }

  method RowsMin(rows: int, m: array2?<real>) returns (r: Result<seq<real>>)
    requires m != null ==> 0 <= rows && DenseShape(m)
    ensures Reduces(Rows, rows, m, Min, r)
  {
    r := WithValidDim(Rows, rows, m, Min);
  }

  method RowsMean(rows: int, m: array2?<real>) returns (r: Result<seq<real>>)
    requires m != null ==> 0 <= rows && DenseShape(m)
    ensures Reduces(Rows, rows, m, Mean, r)
  {
    r := WithValidDim(Rows, rows, m, Mean);
  }

  // ---------------------------------------------------------------------------
  // ToSymDense

  /** `ToSymDense`, with the closeness test `close` given: it returns what `Symmetrize`
      specifies, scanning row by row, stopping at the first failing pair, and otherwise
      copying every value into the result's backing vector with a running index. The empty
      matrix is excluded: gonum's `NewSymDense` panics for size zero. */
  method ToSymDense(m: array2<real>, close: (real, real) -> bool) returns (r: Result<SymDense>)
    requires m.Length0 > 0 && m.Length1 > 0
    ensures r == Symmetrize(ValueOf(m), close)
  {
    var rows, cols := m.Length0, m.Length1;
    if rows != cols {
      return Failure(NotSquare);
    }
    ghost var v := ValueOf(m);
    ghost var first := FirstAsym(v, close, 0, 0);
    var vals := new real[Mul(rows, cols)];
    var idx := 0;
    var i := 0;
    while i < rows
      invariant 0 <= i <= rows
      invariant idx == Mul(i, cols) <= Mul(rows, cols)
      invariant vals[..idx] == Concat(v.cells[..i])
      invariant first == FirstAsym(v, close, i, 0)
    {
      RowEnd(i, rows, cols);
      var failAt;
      failAt, idx := ScanRow(m, close, vals, i, idx);
      if failAt.Some? {
        var j := failAt.value;
        SymmetrizeFirst(v, close, i, j);
        return Failure(NotSymmetric(i, j, m[j, i], m[i, j]));
      }
      i := i + 1;
    }
    assert v.cells[..rows] == v.cells;
    assert vals[..] == vals[..idx];
    SymmetrizeAll(v, close);
    return Success(SymDense(rows, vals[..]));
  }

  /** Row i of the scan of `ToSymDense`: the pairs (i, 0), (i, 1), … are checked in turn and
      each element is written at the running index once its pair has passed; the column of
      the first failing pair is returned, and otherwise the whole row has been written. */
  method ScanRow(m: array2<real>, close: (real, real) -> bool, vals: array<real>, i: nat, idx0: nat)
    returns (failAt: Option<nat>, idx: nat)
    requires m.Length0 == m.Length1 && i < m.Length0
    requires idx0 == Mul(i, m.Length1) && idx0 + m.Length1 <= vals.Length
    requires vals[..idx0] == Concat(ValueOf(m).cells[..i])
    modifies vals
    ensures failAt.Some? ==> failAt.value < m.Length1 && FirstAsym(ValueOf(m), close, i, 0) == Some((i, failAt.value))
    ensures failAt.None? ==>
              idx == idx0 + m.Length1 && vals[..idx] == Concat(ValueOf(m).cells[..i + 1]) &&
              FirstAsym(ValueOf(m), close, i, 0) == FirstAsym(ValueOf(m), close, i + 1, 0)
  {
    var cols := m.Length1;
    ghost var v := ValueOf(m);
    idx := idx0;
    var j := 0;
    while j < cols
      invariant 0 <= j <= cols
      invariant idx == idx0 + j
      invariant vals[..idx] == Concat(v.cells[..i]) + v.cells[i][..j]
      invariant FirstAsym(v, close, i, 0) == FirstAsym(v, close, i, j)
    {
      if i != j && !close(m[j, i], m[i, j]) {
        return Some(j), idx;
      }
      FirstAsymNext(v, close, i, j);
      vals[idx] := m[i, j];
      PrefixStep(vals[..idx + 1], Concat(v.cells[..i]), v.cells[i], j);
      idx := idx + 1;
      j := j + 1;
    }
    FirstAsymNextRow(v, close, i);
    RowStep(v.cells, i, cols);
    return None, idx;
  }

  // Proof steps of ToSymDense and the unrolling loops, one fact each.

  /** A failure found at (i, j) while every pair before it passed is what `Symmetrize` reports. */
  lemma SymmetrizeFirst(v: Mat, close: (real, real) -> bool, i: nat, j: nat)
    requires v.Valid() && v.rows == v.cols && i < v.rows && j < v.rows
    requires FirstAsym(v, close, 0, 0) == Some((i, j))
    ensures Symmetrize(v, close) == Failure(NotSymmetric(i, j, v.cells[j][i], v.cells[i][j]))
  {
  }

  /** A passing pair (i, j) does not change the first failing pair. */
  lemma FirstAsymNext(v: Mat, close: (real, real) -> bool, i: nat, j: nat)
    requires v.Valid() && v.rows == v.cols && i < v.rows && j < v.rows && !Asym(v, close, i, j)
    ensures FirstAsym(v, close, i, j) == FirstAsym(v, close, i, j + 1)
  {
  }

  /** Running off the end of row i moves on to row i + 1. */
  lemma FirstAsymNextRow(v: Mat, close: (real, real) -> bool, i: nat)
    requires v.Valid() && v.rows == v.cols && i < v.rows
    ensures FirstAsym(v, close, i, v.rows) == FirstAsym(v, close, i + 1, 0)
  {
  }

  /** A scan that met no failing pair yields the values of v, row by row. */
  lemma SymmetrizeAll(v: Mat, close: (real, real) -> bool)
    requires v.Valid() && v.rows == v.cols && FirstAsym(v, close, 0, 0) == None
    ensures Symmetrize(v, close) == Success(SymDense(v.rows, Concat(v.cells)))
  {
  }

  /** Writing element j of `row` extends the written prefix by one. */
  lemma PrefixStep(written: seq<real>, done: seq<real>, row: seq<real>, j: nat)
    requires j < |row| && |written| == |done| + j + 1
    requires written[..|done| + j] == done + row[..j] && written[|done| + j] == row[j]
    ensures written == done + row[..j + 1]
  {
    assert row[..j + 1] == row[..j] + [row[j]];
    assert written == written[..|done| + j] + [written[|done| + j]];
  }

  /** Finishing row i extends the concatenation of the rows before it by that row. */
  lemma RowStep(cells: seq<seq<real>>, i: nat, cols: nat)
    requires i < |cells| && |cells[i]| == cols
    ensures Concat(cells[..i]) + cells[i][..cols] == Concat(cells[..i + 1])
  {
    assert cells[..i + 1] == cells[..i] + [cells[i]];
    assert cells[i][..cols] == cells[i];
    ConcatSnoc(cells[..i], cells[i]);
  }

  /** Row i of `toVecByRow`: element (i, j) is written at idx0 + j, after the rows before
      it. */
  method CopyRow(m: array2<real>, out: array<real>, i: nat, idx0: nat)
    requires i < m.Length0 && idx0 + m.Length1 <= out.Length
    requires out[..idx0] == Concat(ValueOf(m).cells[..i])
    modifies out
    ensures out[..idx0 + m.Length1] == Concat(ValueOf(m).cells[..i + 1])
  {
    ghost var v := ValueOf(m);
    var j := 0;
    while j < m.Length1
      invariant 0 <= j <= m.Length1
      invariant out[..idx0 + j] == Concat(v.cells[..i]) + v.cells[i][..j]
    {
      out[idx0 + j] := m[i, j];
      PrefixStep(out[..idx0 + j + 1], Concat(v.cells[..i]), v.cells[i], j);
      j := j + 1;
    }
    RowStep(v.cells, i, m.Length1);
  }

  /** Column i of `toVecByCol`: element (j, i) is written at idx0 + j, after the columns
      before it. */
  method CopyCol(m: array2<real>, out: array<real>, i: nat, idx0: nat)
    requires i < m.Length1 && idx0 + m.Length0 <= out.Length
    requires out[..idx0] == Concat(Transpose(ValueOf(m)).cells[..i])
    modifies out
    ensures out[..idx0 + m.Length0] == Concat(Transpose(ValueOf(m)).cells[..i + 1])
  {
    ghost var t := Transpose(ValueOf(m));
    var j := 0;
    while j < m.Length0
      invariant 0 <= j <= m.Length0
      invariant out[..idx0 + j] == Concat(t.cells[..i]) + t.cells[i][..j]
    {
      out[idx0 + j] := m[j, i];
      PrefixStep(out[..idx0 + j + 1], Concat(t.cells[..i]), t.cells[i], j);
      j := j + 1;
    }
    RowStep(t.cells, i, m.Length0);
  }

  // ---------------------------------------------------------------------------
  // BlockDiag and BlockSymDiag

  /** `Grow(r, c)`: a matrix r rows and c columns larger, holding `a` in its top-left corner
      and zeros everywhere else. */
  method Grow(a: array2<real>, r: nat, c: nat) returns (g: array2<real>)
    ensures fresh(g) && g.Length0 == a.Length0 + r && g.Length1 == a.Length1 + c
    ensures forall i, j :: 0 <= i < g.Length0 && 0 <= j < g.Length1 ==>
              g[i, j] == if i < a.Length0 && j < a.Length1 then a[i, j] else 0.0
  {
    g := new real[a.Length0 + r, a.Length1 + c]((i, j) reads a =>
           if 0 <= i < a.Length0 && 0 <= j < a.Length1 then a[i, j] else 0.0);
  }

  /** `Slice(r0, r0 + b.rows, c0, c0 + b.cols).Copy(b)`: `b` is written into the block at
      (r0, c0); nothing else changes. */
  method CopyBlock(a: array2<real>, r0: nat, c0: nat, b: Mat)
    requires b.Valid() && r0 + b.rows <= a.Length0 && c0 + b.cols <= a.Length1
    modifies a
    ensures forall i, j :: 0 <= i < a.Length0 && 0 <= j < a.Length1 ==>
              a[i, j] == if r0 <= i < r0 + b.rows && c0 <= j < c0 + b.cols
                         then b.cells[i - r0][j - c0] else old(a[i, j])
  {
    forall i, j | r0 <= i < r0 + b.rows && c0 <= j < c0 + b.cols {
      a[i, j] := b.cells[i - r0][j - c0];
    }
  }

  /** One iteration of the assembly loop: grow the accumulator by `b` and copy `b` into the
      new bottom-right corner. */
  method PlaceBlock(acc: array2<real>, b: Mat) returns (g: array2<real>)
    requires b.Valid()
    ensures fresh(g) && ValueOf(g) == Blocks.Place(old(ValueOf(acc)), b)
  {
    ghost var before := ValueOf(acc);
    var dR, dC := acc.Length0, acc.Length1;
    g := Grow(acc, b.rows, b.cols);
    CopyBlock(g, dR, dC, b);
    ghost var placed := Blocks.Place(before, b);
    forall i, j | 0 <= i < g.Length0 && 0 <= j < g.Length1
      ensures ValueOf(g).cells[i][j] == placed.cells[i][j]
    {
      assert placed.cells[i][j] == Blocks.PlacedAt(before, b, i, j);
    }
    Ext(ValueOf(g), placed);
  }

  /** `BlockDiag`: the inputs, zero-sized ones skipped, along the diagonal of a matrix that
      is zero elsewhere. */
  method BlockDiag(mx: seq<Mat>) returns (m: array2<real>)
    requires Blocks.AllValid(mx)
    ensures fresh(m) && ValueOf(m) == Blocks.BlockDiag(mx)
  {
    m := new real[0, 0];
    Ext(ValueOf(m), Empty());
    Blocks.BlockDiagOfNone(mx);
    var i := 0;
    while i < |mx|
      invariant 0 <= i <= |mx|
      invariant fresh(m)
      invariant ValueOf(m) == Blocks.BlockDiagOf(mx, i)
    {
      Blocks.BlockDiagOfStep(mx, i);
      var r, c := mx[i].rows, mx[i].cols;
      if !(r == 0 || c == 0) {
        m := PlaceBlock(m, mx[i]);
      }
      i := i + 1;
    }
  }

  /** `BlockSymDiag`: the symmetric inputs, size-zero ones skipped, along the diagonal of a
      square matrix that is zero elsewhere; the result is symmetric. */
  method BlockSymDiag(mx: seq<SymDense>) returns (m: array2<real>)
    requires forall k :: 0 <= k < |mx| ==> mx[k].Valid()
    ensures fresh(m) && ValueOf(m) == Blocks.BlockDiag(Denses(mx))
    ensures IsSymmetric(ValueOf(m))
  {
    ghost var ms := Denses(mx);
    m := new real[0, 0];
    Ext(ValueOf(m), Empty());
    Blocks.BlockDiagOfNone(ms);
    var i := 0;
    while i < |mx|
      invariant 0 <= i <= |mx|
      invariant fresh(m)
      invariant ValueOf(m) == Blocks.BlockDiagOf(ms, i)
      invariant IsSymmetric(ValueOf(m))
    {
      Blocks.BlockDiagOfStep(ms, i);
      var n := mx[i].n;
      if n != 0 {
        Blocks.PlaceSymmetric(ValueOf(m), Dense(mx[i]));
        m := PlaceBlock(m, Dense(mx[i]));
      }
      i := i + 1;
    }
  }

  // ---------------------------------------------------------------------------
  // Unroll and SetVals

  /** `Unroll`: the rows·cols elements of `m` row by row or column by column; `m` is not
      changed. gonum's `NewVecDense` panics for length 0, so `m` is not empty. */
  method Unroll(m: array2<real>, byRow: bool) returns (vec: seq<real>)
    requires m.Length0 > 0 && m.Length1 > 0
    ensures |vec| == m.Length0 * m.Length1
    ensures vec == Vectorize(ValueOf(m), byRow)
  {
    if byRow {
      vec := ToVecByRow(m);
    } else {
      vec := ToVecByCol(m);
    }
  }

  /** `toVecByRow`: element (i, j) is written at i·cols + j. */
  method ToVecByRow(m: array2<real>) returns (vec: seq<real>)
    requires m.Length0 > 0 && m.Length1 > 0
    ensures |vec| == m.Length0 * m.Length1
    ensures vec == Vectorize(ValueOf(m), true)
  {
    var rows, cols := m.Length0, m.Length1;
    MulIsProduct(rows, cols);
    ghost var v := ValueOf(m);
    var out := new real[Mul(rows, cols)];
    var i := 0;
    while i < rows
      invariant 0 <= i <= rows
      invariant Mul(i, cols) <= Mul(rows, cols)
      invariant out[..Mul(i, cols)] == Concat(v.cells[..i])
    {
      RowEnd(i, rows, cols);
      CopyRow(m, out, i, Mul(i, cols));
      i := i + 1;
    }
    assert v.cells[..rows] == v.cells;
    assert out[..] == out[..Mul(rows, cols)];
    vec := out[..];
  }

  /** `toVecByCol`: element (j, i) of column i is written at i·rows + j. */
  method ToVecByCol(m: array2<real>) returns (vec: seq<real>)
    requires m.Length0 > 0 && m.Length1 > 0
    ensures |vec| == m.Length0 * m.Length1
    ensures vec == Vectorize(ValueOf(m), false)
  {
    var rows, cols := m.Length0, m.Length1;
    MulIsProduct(rows, cols);
    ghost var t := Transpose(ValueOf(m));
    MulComm(cols, rows);
    var out := new real[Mul(rows, cols)];
    var i := 0;
    while i < cols
      invariant 0 <= i <= cols
      invariant Mul(i, rows) <= Mul(cols, rows)
      invariant out[..Mul(i, rows)] == Concat(t.cells[..i])
    {
      RowEnd(i, cols, rows);
      CopyCol(m, out, i, Mul(i, rows));
      i := i + 1;
    }
    assert t.cells[..cols] == t.cells;
    assert out[..] == out[..Mul(cols, rows)];
    vec := out[..];
  }

  /** `SetVals`: a vector whose length is not rows·cols is refused and `m` is left as it was;
      otherwise `m` holds the vector laid out row by row or column by column. */
  method SetVals(m: array2<real>, vals: seq<real>, byRow: bool) returns (err: Option<Error>)
    modifies m
    ensures |vals| != m.Length0 * m.Length1 ==>
              err == Some(CountMismatch(|vals|, m.Length0 * m.Length1)) && ValueOf(m) == old(ValueOf(m))
    ensures |vals| == m.Length0 * m.Length1 ==>
              err == None &&
              (MulIsProduct(m.Length0, m.Length1); ValueOf(m) == Fill(m.Length0, m.Length1, vals, byRow))
  {
    var r, c := m.Length0, m.Length1;
    MulIsProduct(r, c);
    if Mul(r, c) != |vals| {
      return Some(CountMismatch(|vals|, Mul(r, c)));
    }
    if byRow {
      SetByRow(m, vals);
      return None;
    }
    SetByCol(m, vals);
    return None;
  }

  /** `m.SetRow(i, src)`: row i becomes `src`; nothing else changes. */
  method SetRow(m: array2<real>, i: nat, src: seq<real>)
    requires i < m.Length0 && |src| == m.Length1
    modifies m
    ensures forall a, b :: 0 <= a < m.Length0 && 0 <= b < m.Length1 ==>
              m[a, b] == if a == i then src[b] else old(m[a, b])
  {
    forall j | 0 <= j < m.Length1 {
      m[i, j] := src[j];
    }
  }

  /** `m.SetCol(j, src)`: column j becomes `src`; nothing else changes. */
  method SetCol(m: array2<real>, j: nat, src: seq<real>)
    requires j < m.Length1 && |src| == m.Length0
    modifies m
    ensures forall a, b :: 0 <= a < m.Length0 && 0 <= b < m.Length1 ==>
              m[a, b] == if b == j then src[a] else old(m[a, b])
  {
    forall i | 0 <= i < m.Length0 {
      m[i, j] := src[i];
    }
  }

  /** `setByRow`: row i is set from the `cols` elements at the running offset i·cols. */
  method SetByRow(m: array2<real>, vec: seq<real>)
    requires |vec| == Mul(m.Length0, m.Length1)
    modifies m
    ensures ValueOf(m) == Fill(m.Length0, m.Length1, vec, true)
  {
    var rows, cols := m.Length0, m.Length1;
    var acc := 0;
    var i := 0;
    while i < rows
      invariant 0 <= i <= rows && acc == Mul(i, cols)
      invariant forall a, b :: 0 <= a < i && 0 <= b < cols ==> m[a, b] == vec[Offset(true, rows, cols, a, b)]
    {
      RowEnd(i, rows, cols);
      SetRow(m, i, vec[acc..acc + cols]);
      acc := acc + cols;
      i := i + 1;
    }
    ghost var f := Fill(rows, cols, vec, true);
    forall a, b | 0 <= a < rows && 0 <= b < cols
      ensures ValueOf(m).cells[a][b] == f.cells[a][b]
    {
      FillAt(rows, cols, vec, true, a, b);
    }
    Ext(ValueOf(m), f);
  }

  /** `setByCol`: column i is set from the `rows` elements at the running offset i·rows. */
  method SetByCol(m: array2<real>, vec: seq<real>)
    requires |vec| == Mul(m.Length0, m.Length1)
    modifies m
    ensures ValueOf(m) == Fill(m.Length0, m.Length1, vec, false)
  {
    var rows, cols := m.Length0, m.Length1;
    MulComm(rows, cols);
    var acc := 0;
    var i := 0;
    while i < cols
      invariant 0 <= i <= cols && acc == Mul(i, rows)
      invariant forall a, b :: 0 <= a < rows && 0 <= b < i ==> m[a, b] == vec[Offset(false, rows, cols, a, b)]
    {
      RowEnd(i, cols, rows);
      SetCol(m, i, vec[acc..acc + rows]);
      acc := acc + rows;
      i := i + 1;
    }
    ghost var f := Fill(rows, cols, vec, false);
    forall a, b | 0 <= a < rows && 0 <= b < cols
      ensures ValueOf(m).cells[a][b] == f.cells[a][b]
    {
      FillAt(rows, cols, vec, false, a, b);
    }
    Ext(ValueOf(m), f);
  }
}
