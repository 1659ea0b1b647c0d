/** Finite sums over real vectors and matrices, accumulated left to right in the same
    order as the C++ loops that compute them. A matrix is a sequence of rows. */
module Sums {

  /** Sum of the first n entries of s. */
  function Sum(s: seq<real>, n: nat): real
    requires n <= |s|
  {
    if n == 0 then 0.0 else Sum(s, n - 1) + s[n - 1]
  }

  /** Sum over i < n of u[i] * v[i]. */
  function Dot(u: seq<real>, v: seq<real>, n: nat): real
    requires n <= |u| && n <= |v|
  {
    if n == 0 then 0.0 else Dot(u, v, n - 1) + u[n - 1] * v[n - 1]
  }

  /** The first numRows rows of a exist and each has at least numCols entries. */
  predicate Shaped(a: seq<seq<real>>, numRows: nat, numCols: nat)
  {
    numRows <= |a| && forall m :: 0 <= m < numRows ==> numCols <= |a[m]|
  }

  /** Sum over the first numRows rows of column b. */
  function ColumnSum(a: seq<seq<real>>, b: nat, numRows: nat): real
    requires Shaped(a, numRows, b + 1)
  {
    if numRows == 0 then 0.0 else ColumnSum(a, b, numRows - 1) + a[numRows - 1][b]
  }

  /** Column b of the transpose-product: sum over m < numRows of a[m][b] * w[m]. */
  function ColumnDot(a: seq<seq<real>>, w: seq<real>, b: nat, numRows: nat): real
    requires Shaped(a, numRows, b + 1) && numRows <= |w|
  {
    if numRows == 0 then 0.0 else ColumnDot(a, w, b, numRows - 1) + a[numRows - 1][b] * w[numRows - 1]
  }

  /** Sum of all entries of the first numRows x numCols block, row by row. */
  function RowMajorTotal(a: seq<seq<real>>, numRows: nat, numCols: nat): real
    requires Shaped(a, numRows, numCols)
  {
    if numRows == 0 then 0.0 else RowMajorTotal(a, numRows - 1, numCols) + Sum(a[numRows - 1], numCols)
  }

  /** Sum of all entries of the first numRows x numCols block, column by column. */
  function ColumnMajorTotal(a: seq<seq<real>>, numRows: nat, numCols: nat): real
    requires Shaped(a, numRows, numCols)
  {
    if numCols == 0 then 0.0 else ColumnMajorTotal(a, numRows, numCols - 1) + ColumnSum(a, numCols - 1, numRows)
  }

  lemma {:induction false} SumNonNegative(s: seq<real>, n: nat)
    requires n <= |s|
    requires forall i :: 0 <= i < n ==> s[i] >= 0.0
    ensures Sum(s, n) >= 0.0
  {
    if n > 0 {
      SumNonNegative(s, n - 1);
    }
  }

  lemma {:induction false} DotNonNegative(u: seq<real>, v: seq<real>, n: nat)
    requires n <= |u| && n <= |v|
    requires forall i :: 0 <= i < n ==> u[i] >= 0.0 && v[i] >= 0.0
    ensures Dot(u, v, n) >= 0.0
  {
    if n > 0 {
      DotNonNegative(u, v, n - 1);
      assert u[n - 1] * v[n - 1] >= 0.0;
    }
  }

  /** If every weight lies in [lo, hi] and the values are non-negative, the weighted sum
      lies between lo and hi times the plain sum of the values. */
  lemma {:induction false} DotBetween(w: seq<real>, s: seq<real>, n: nat, lo: real, hi: real)
    requires n <= |w| && n <= |s|
    requires forall i :: 0 <= i < n ==> lo <= w[i] <= hi && s[i] >= 0.0
    ensures lo * Sum(s, n) <= Dot(w, s, n) <= hi * Sum(s, n)
  {
    if n > 0 {
      DotBetween(w, s, n - 1, lo, hi);
      var x, y := w[n - 1], s[n - 1];
      assert lo * y <= x * y <= hi * y by {
        assert (x - lo) * y >= 0.0;
        assert (hi - x) * y >= 0.0;
      }
      assert lo * Sum(s, n) == lo * Sum(s, n - 1) + lo * y;
      assert hi * Sum(s, n) == hi * Sum(s, n - 1) + hi * y;
    }
  }

  /** With every weight equal to 1 the weighted column sum is the plain column sum. */
  lemma {:induction false} ColumnDotOfOnes(a: seq<seq<real>>, w: seq<real>, b: nat, numRows: nat)
    requires Shaped(a, numRows, b + 1) && numRows <= |w|
    requires forall m :: 0 <= m < numRows ==> w[m] == 1.0
    ensures ColumnDot(a, w, b, numRows) == ColumnSum(a, b, numRows)
  {
    if numRows > 0 {
      ColumnDotOfOnes(a, w, b, numRows - 1);
    }
  }

  /** A column of non-negative coefficients has a non-negative sum. */
  lemma {:induction false} ColumnSumNonNegative(a: seq<seq<real>>, b: nat, numRows: nat)
    requires Shaped(a, numRows, b + 1)
    requires forall m :: 0 <= m < numRows ==> a[m][b] >= 0.0
    ensures ColumnSum(a, b, numRows) >= 0.0
  {
    if numRows > 0 {
      ColumnSumNonNegative(a, b, numRows - 1);
    }
  }

  lemma {:induction false} ColumnDotNonNegative(a: seq<seq<real>>, w: seq<real>, b: nat, numRows: nat)
    requires Shaped(a, numRows, b + 1) && numRows <= |w|
    requires forall m :: 0 <= m < numRows ==> a[m][b] >= 0.0 && w[m] >= 0.0
    ensures ColumnDot(a, w, b, numRows) >= 0.0
  {
    if numRows > 0 {
      ColumnDotNonNegative(a, w, b, numRows - 1);
      assert a[numRows - 1][b] * w[numRows - 1] >= 0.0;
    }
  }

  /** Sum over j < n of (f[j] + g[j]) splits into the two sums. */
  lemma {:induction false} SumOfPointwiseSum(f: seq<real>, g: seq<real>, h: seq<real>, n: nat)
    requires n <= |f| && n <= |g| && n <= |h|
    requires forall j :: 0 <= j < n ==> h[j] == f[j] + g[j]
    ensures Sum(h, n) == Sum(f, n) + Sum(g, n)
  {
    if n > 0 {
      SumOfPointwiseSum(f, g, h, n - 1);
    }
  }

  /** The column sums of a block, one per column, as a vector. */
  function ColumnSums(a: seq<seq<real>>, numRows: nat, numCols: nat): (c: seq<real>)
    requires Shaped(a, numRows, numCols)
    ensures |c| == numCols
  {
    seq(numCols, b requires 0 <= b < numCols => ColumnSum(a, b, numRows))
  }

  lemma {:induction false} ColumnMajorTotalIsSumOfColumnSums(a: seq<seq<real>>, numRows: nat, numCols: nat, k: nat)
    requires Shaped(a, numRows, numCols) && k <= numCols
    ensures ColumnMajorTotal(a, numRows, k) == Sum(ColumnSums(a, numRows, numCols), k)
  {
    if k > 0 {
      ColumnMajorTotalIsSumOfColumnSums(a, numRows, numCols, k - 1);
    }
  }

  lemma {:induction false} NoRowsNoTotal(a: seq<seq<real>>, numCols: nat)
    ensures ColumnMajorTotal(a, 0, numCols) == 0.0
  {
    if numCols > 0 {
      NoRowsNoTotal(a, numCols - 1);
    }
  }

  /** Adding the entries of a block row by row or column by column gives the same total. */
  lemma {:induction false} TotalsAgree(a: seq<seq<real>>, numRows: nat, numCols: nat)
    requires Shaped(a, numRows, numCols)
    ensures RowMajorTotal(a, numRows, numCols) == ColumnMajorTotal(a, numRows, numCols)
  {
    if numRows > 0 {
      TotalsAgree(a, numRows - 1, numCols);
      var before := ColumnSums(a, numRows - 1, numCols);
      var after := ColumnSums(a, numRows, numCols);
      var last := a[numRows - 1];
      forall j | 0 <= j < numCols ensures after[j] == before[j] + last[j] {
      }
      SumOfPointwiseSum(before, last, after, numCols);
      ColumnMajorTotalIsSumOfColumnSums(a, numRows - 1, numCols, numCols);
      ColumnMajorTotalIsSumOfColumnSums(a, numRows, numCols, numCols);
    } else {
      NoRowsNoTotal(a, numCols);
    }
  }
}
