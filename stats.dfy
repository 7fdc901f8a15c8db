/** The aggregates the reductions apply to one row or column view: gonum's `mat.Sum`,
    `mat.Max`, `mat.Min`, and the library's own `mean`. Values are exact reals. */
module Stats {
  import opened Grid

  /** Which axis a reduction walks: the library's "rows" / "cols" argument. */
  datatype Dim = Rows | Cols

  /** Which aggregate a reduction applies to each view. */
  datatype Agg = Sum | Max | Min | Mean

  /** The sum of the elements of `s`. */
  function SumOf(s: seq<real>): (r: real)
  {
    if s == [] then 0.0 else s[0] + SumOf(s[1..])
  }

  /** The largest element of `s`: one of its elements, and no element exceeds it. */
  function MaxOf(s: seq<real>): (r: real)
    requires |s| > 0
    ensures r in s
    ensures forall x :: x in s ==> x <= r
  {
    if |s| == 1 then s[0]
    else
      assert forall x :: x in s ==> x == s[0] || x in s[1..];
      var t := MaxOf(s[1..]);
      if s[0] >= t then s[0] else t
  }

  /** The smallest element of `s`: one of its elements, and no element is below it. */
  function MinOf(s: seq<real>): (r: real)
    requires |s| > 0
    ensures r in s
    ensures forall x :: x in s ==> r <= x
  {
    if |s| == 1 then s[0]
    else
      assert forall x :: x in s ==> x == s[0] || x in s[1..];
      var t := MinOf(s[1..]);
      if s[0] <= t then s[0] else t
  }

  /** `mean` of matrix.go: the sum divided by the number of elements; it lies between
      the smallest and the largest element. */
  function MeanOf(s: seq<real>): (r: real)
    requires |s| > 0
    ensures MinOf(s) <= r <= MaxOf(s)
  {
    SumBounds(s);
    DivBounds(SumOf(s), |s|, MinOf(s), MaxOf(s));
    SumOf(s) / (|s| as real)
  }

  /** The aggregate `agg` of the (non-empty) view `s`. */
  function Aggregate(agg: Agg, s: seq<real>): (r: real)
    requires |s| > 0
  {
    match agg
    case Sum => SumOf(s)
    case Max => MaxOf(s)
    case Min => MinOf(s)
    case Mean => MeanOf(s)
  }

  /** How many rows (or columns) `m` has. */
  function Extent(m: Mat, dim: Dim): (n: nat)
  {
    match dim
    case Rows => m.rows
    case Cols => m.cols
  }

  /** The other axis. */
  function Other(dim: Dim): (o: Dim)
  {
    if dim == Rows then Cols else Rows
  }

  /** Row `k` or column `k` of `m` (`m.RowView(k)` / `m.ColView(k)`). */
  function View(m: Mat, dim: Dim, k: nat): (v: seq<real>)
    requires m.Valid() && k < Extent(m, dim)
    ensures |v| == Extent(m, Other(dim))
  {
    match dim
    case Rows => m.cells[k]
    case Cols => Col(m, k)
  }

  // ---------------------------------------------------------------------------
  // Bounds of the sum and the mean

  /** `n` copies of `x` added up, n·x. Kept as a function of its own so that the solver
      does not reason about products of unknowns except where a proof unfolds it. */
  function Times(n: nat, x: real): (r: real)
  {
    (n as real) * x
  }

  /** A sum of elements that are all at most `hi` is at most (count)·hi. */
  lemma {:induction false} SumAtMost(s: seq<real>, hi: real)
    requires forall k :: 0 <= k < |s| ==> s[k] <= hi
    ensures SumOf(s) <= Times(|s|, hi)
  {
    if s != [] {
      SumAtMost(s[1..], hi);
      assert Times(|s|, hi) == Times(|s| - 1, hi) + hi;
    }
  }

  /** A sum of elements that are all at least `lo` is at least (count)·lo. */
  lemma {:induction false} SumAtLeast(s: seq<real>, lo: real)
    requires forall k :: 0 <= k < |s| ==> lo <= s[k]
    ensures Times(|s|, lo) <= SumOf(s)
  {
    if s != [] {
      SumAtLeast(s[1..], lo);
      assert Times(|s|, lo) == Times(|s| - 1, lo) + lo;
    }
  }

  /** The sum of n elements lies between n times the minimum and n times the maximum. */
  lemma SumBounds(s: seq<real>)
    requires |s| > 0
    ensures Times(|s|, MinOf(s)) <= SumOf(s) <= Times(|s|, MaxOf(s))
  {
    var hi, lo := MaxOf(s), MinOf(s);
    forall k | 0 <= k < |s|
      ensures lo <= s[k] <= hi
    {
      assert s[k] in s;
    }
    SumAtMost(s, hi);
    SumAtLeast(s, lo);
  }

  lemma MulMonoRev(n: real, a: real, b: real)
    requires 0.0 < n && n * a <= n * b
    ensures a <= b
  {
  }

  lemma DivMul(x: real, n: real)
    requires n != 0.0
    ensures n * (x / n) == x
  {
  }

  lemma DivBounds(x: real, n: nat, lo: real, hi: real)
    requires n > 0 && Times(n, lo) <= x <= Times(n, hi)
    ensures lo <= x / (n as real) <= hi
  {
    var d := n as real;
    var q := x / d;
    DivMul(x, d);
    MulMonoRev(d, lo, q);
    MulMonoRev(d, q, hi);
  }

  lemma DivShift(x: real, n: nat, v: real)
    requires n > 0
    ensures (x + Times(n, v)) / (n as real) == x / (n as real) + v
  {
    var d := n as real;
    assert (x + d * v) / d == x / d + v;
  }

  lemma DivCancel(n: nat, v: real)
    requires n > 0
    ensures Times(n, v) / (n as real) == v
  {
    var d := n as real;
    assert (d * v) / d == v;
  }

  // ---------------------------------------------------------------------------
  // Aggregates of shifted and constant views: the partners of AddVal and NewDenseVal

  /** `s` with `v` added to every element. */
  function Shift(s: seq<real>, v: real): (r: seq<real>)
    ensures |r| == |s|
    ensures forall k :: 0 <= k < |s| ==> r[k] == s[k] + v
  {
    seq(|s|, k requires 0 <= k < |s| => s[k] + v)
  }

  /** Adding `v` to each of n elements adds n·v to the sum. */
  lemma {:induction false} SumShift(s: seq<real>, v: real)
    ensures SumOf(Shift(s, v)) == SumOf(s) + Times(|s|, v)
  {
    if s != [] {
      assert Shift(s, v)[1..] == Shift(s[1..], v);
      SumShift(s[1..], v);
      assert Times(|s|, v) == Times(|s| - 1, v) + v;
    }
  }

  /** Adding `v` to every element adds `v` to the maximum. */
  lemma {:induction false} MaxShift(s: seq<real>, v: real)
    requires |s| > 0
    ensures MaxOf(Shift(s, v)) == MaxOf(s) + v
  {
    if |s| > 1 {
      assert Shift(s, v)[1..] == Shift(s[1..], v);
      MaxShift(s[1..], v);
    }
  }

  /** Adding `v` to every element adds `v` to the minimum. */
  lemma {:induction false} MinShift(s: seq<real>, v: real)
    requires |s| > 0
    ensures MinOf(Shift(s, v)) == MinOf(s) + v
  {
    if |s| > 1 {
      assert Shift(s, v)[1..] == Shift(s[1..], v);
      MinShift(s[1..], v);
    }
  }

  /** Adding `v` to every element adds `v` to the mean. */
  lemma MeanShift(s: seq<real>, v: real)
    requires |s| > 0
    ensures MeanOf(Shift(s, v)) == MeanOf(s) + v
  {
    SumShift(s, v);
    DivShift(SumOf(s), |s|, v);
  }

  /** Every aggregate of a view of `AddConst(m, v)` is that of the same view of `m`,
      shifted: the sum by (view length)·v, the others by v. */
  lemma AggregateAddConst(m: Mat, v: real, dim: Dim, agg: Agg, k: nat)
    requires m.Valid() && k < Extent(m, dim) && Extent(m, Other(dim)) > 0
    ensures View(AddConst(m, v), dim, k) == Shift(View(m, dim, k), v)
    ensures Aggregate(agg, View(AddConst(m, v), dim, k)) ==
            if agg == Sum then Aggregate(agg, View(m, dim, k)) + Times(Extent(m, Other(dim)), v)
            else Aggregate(agg, View(m, dim, k)) + v
  {
    var s := View(m, dim, k);
    assert View(AddConst(m, v), dim, k) == Shift(s, v);
    match agg
    case Sum => SumShift(s, v);
    case Max => MaxShift(s, v);
    case Min => MinShift(s, v);
    case Mean => MeanShift(s, v);
  }

  /** The sum of n copies of `v` is n·v. */
  lemma {:induction false} SumConstant(n: nat, v: real)
    ensures SumOf(seq(n, _ => v)) == Times(n, v)
  {
    if n > 0 {
      assert seq(n, _ => v)[1..] == seq(n - 1, _ => v);
      SumConstant(n - 1, v);
      assert Times(n, v) == Times(n - 1, v) + v;
    }
  }

  /** In a constant matrix every view has maximum, minimum and mean `v` and sum (length)·v. */
  lemma AggregateConstant(rows: nat, cols: nat, v: real, dim: Dim, agg: Agg, k: nat)
    requires k < Extent(Constant(rows, cols, v), dim)
    requires Extent(Constant(rows, cols, v), Other(dim)) > 0
    ensures Aggregate(agg, View(Constant(rows, cols, v), dim, k)) ==
            if agg == Sum then Times(Extent(Constant(rows, cols, v), Other(dim)), v) else v
  {
    var m := Constant(rows, cols, v);
    var n := Extent(m, Other(dim));
    var s := View(m, dim, k);
    assert s == seq(n, _ => v);
    SumConstant(n, v);
    assert s[0] == v;
    if agg == Mean {
      DivCancel(n, v);
    }
  }
}
