/** Products of matrices and vectors given as functions of their indices. */
module Matrices {
  import opened RealSum

  type Vec = int -> real
  type Mat = (int, int) -> real

  /** k |-> m(i,k).v(k), whose sum is coordinate i of m.v */
  function RowTimes(m: Mat, v: Vec, i: int): Vec
  {
    k => m(i, k) * v(k)
  }

  /** i |-> m(i,k).v(i), whose sum is coordinate k of transpose(m).v */
  function ColumnTimes(m: Mat, v: Vec, k: int): Vec
  {
    i => m(i, k) * v(i)
  }

  function Times(m: Mat, v: Vec, n: int, i: int): real
  {
    Sum(RowTimes(m, v, i), 0, n)
  }

  function TransposeTimes(m: Mat, v: Vec, n: int, k: int): real
  {
    Sum(ColumnTimes(m, v, k), 0, n)
  }

  /** k |-> l(i,k).d(k).l(j,k), whose sum is entry (i,j) of l.d.transpose(l) */
  function LdltTerms(l: Mat, d: Vec, i: int, j: int): Vec
  {
    k => l(i, k) * d(k) * l(j, k)
  }

  function TripleProduct(l: Mat, d: Vec, n: int): Mat
  {
    (i, j) => Sum(LdltTerms(l, d, i, j), 0, n)
  }

  lemma CellSplit(l: Mat, d: Vec, v: Vec, i: int, j: int, k: int)
    ensures v(j) * LdltTerms(l, d, i, j)(k) == (l(i, k) * d(k)) * ColumnTimes(l, v, k)(j)
  {
    var x, y, z := l(i, k) * d(k), l(j, k), v(j);
    assert z * (x * y) == x * (y * z);
  }

  lemma CellRow(l: Mat, d: Vec, v: Vec, n: int, i: int, j: int)
    ensures Sum(k => v(j) * LdltTerms(l, d, i, j)(k), 0, n) == v(j) * TripleProduct(l, d, n)(i, j)
  {
    var f := LdltTerms(l, d, i, j);
    SumScale(v(j), f, k => v(j) * f(k), 0, n);
    SumCong(k => v(j) * LdltTerms(l, d, i, j)(k), k => v(j) * f(k), 0, n);
  }

  lemma CellColumn(l: Mat, d: Vec, v: Vec, n: int, i: int, k: int)
    ensures Sum(j => v(j) * LdltTerms(l, d, i, j)(k), 0, n) == (l(i, k) * d(k)) * TransposeTimes(l, v, n, k)
  {
    var f, x := ColumnTimes(l, v, k), l(i, k) * d(k);
    forall j
      ensures v(j) * LdltTerms(l, d, i, j)(k) == x * f(j)
    {
      CellSplit(l, d, v, i, j, k);
    }
    SumScale(x, f, j => v(j) * LdltTerms(l, d, i, j)(k), 0, n);
  }

  lemma ColumnSum(l: Mat, d: Vec, v: Vec, w: Vec, n: int, i: int, k: int)
    requires w(k) == d(k) * TransposeTimes(l, v, n, k)
    ensures Sum(j => v(j) * LdltTerms(l, d, i, j)(k), 0, n) == RowTimes(l, w, i)(k)
  {
    CellColumn(l, d, v, n, i, k);
    var x, y, z := l(i, k), d(k), TransposeTimes(l, v, n, k);
    assert (x * y) * z == x * (y * z);
  }

  /** The product with l.d.transpose(l) is the product with transpose(l), then d, then l. */
  lemma LdltTimes(l: Mat, d: Vec, v: Vec, w: Vec, n: int, i: int)
    requires forall k :: 0 <= k < n ==> w(k) == d(k) * TransposeTimes(l, v, n, k)
    ensures Times(TripleProduct(l, d, n), v, n, i) == Times(l, w, n, i)
  {
    var f := (j: int, k: int) => v(j) * LdltTerms(l, d, i, j)(k);
    forall j | 0 <= j < n
      ensures Sum(k => f(j, k), 0, n) == RowTimes(TripleProduct(l, d, n), v, i)(j)
    {
      CellRow(l, d, v, n, i, j);
      SumCong(k => f(j, k), k => v(j) * LdltTerms(l, d, i, j)(k), 0, n);
    }
    forall k | 0 <= k < n
      ensures Sum(j => f(j, k), 0, n) == RowTimes(l, w, i)(k)
    {
      ColumnSum(l, d, v, w, n, i, k);
      SumCong(j => f(j, k), j => v(j) * LdltTerms(l, d, i, j)(k), 0, n);
    }
    SumBothWays(f, RowTimes(TripleProduct(l, d, n), v, i), RowTimes(l, w, i), n);
  }
}
