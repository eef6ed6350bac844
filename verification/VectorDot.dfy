/** Vector and matrix products of matrix.c. */
module VectorDot {
  import opened RealSum
  import opened Matrices
  import opened Skyline
  import opened Ldlt
  import opened Solve

  lemma SumRest(f: int -> real, m: int, n: int)
    requires m <= n < m + 4
    ensures Sum(f, m, n) == (if n - m >= 1 then f(m) else 0.0)
                            + (if n - m >= 2 then f(m + 1) else 0.0)
                            + (if n - m == 3 then f(m + 2) else 0.0)
  {
    assert Sum(f, m, m) == 0.0;
    assert Sum(f, m, m + 1) == f(m);
    assert Sum(f, m, m + 2) == Sum(f, m, m + 1) + f(m + 1);
    assert Sum(f, m, m + 3) == Sum(f, m, m + 2) + f(m + 2);
  }

  lemma SumFour(f: int -> real, n: nat)
    ensures Sum(f, n, n + 4) == f(n) + f(n + 1) + f(n + 2) + f(n + 3)
  {
    assert Sum(f, n, n + 3) == Sum(f, n, n + 2) + f(n + 2);
    assert Sum(f, n, n + 2) == Sum(f, n, n + 1) + f(n + 1);
  }

  lemma Fours(n: nat)
    ensures 0 <= n / 4 * 4 <= n < n / 4 * 4 + 4 && n / 4 * 4 % 4 == 0
  {
  }

  /** __fem_vector_dot_n: four accumulators and an unrolled loop compute the plain scalar product. */
  method VectorDotN(a: seq<real>, b: seq<real>) returns (res: real)
    requires |a| == |b|
    ensures res == Dot(a, b)
  {
    var n := |a|;
    var n4 := n / 4 * 4;
    Fours(n);
    var res1, res2, res3, res4 := 0.0, 0.0, 0.0, 0.0;
    ghost var f := Products(a, b);
    var i := 0;
    while i < n4
      invariant 0 <= i <= n4 && i % 4 == 0
      invariant (res1 + res2) + (res3 + res4) == Sum(f, 0, i)
    {
      res1, res2, res3, res4 := FourProducts(a, b, i, res1, res2, res3, res4);
      SumSplit(f, 0, i, i + 4);
      i := i + 4;
    }
    var r1, r2, r3 := Residue(a, b, n4);
    res1, res2, res3 := res1 + r1, res2 + r2, res3 + r3;
    SumSplit(f, 0, n4, n);
    res := (res1 + res2) + (res3 + res4);
  }

  /** One turn of the unrolled loop. */
  method FourProducts(a: seq<real>, b: seq<real>, i: nat, r1: real, r2: real, r3: real, r4: real)
    returns (s1: real, s2: real, s3: real, s4: real)
    requires i + 4 <= |a| == |b|
    ensures (s1 + s2) + (s3 + s4) == (r1 + r2) + (r3 + r4) + Sum(Products(a, b), i, i + 4)
  {
    var p1, p2 := a[i] * b[i], a[i + 1] * b[i + 1];
    var p3, p4 := a[i + 2] * b[i + 2], a[i + 3] * b[i + 3];
    ghost var f := Products(a, b);
    assert p1 == f(i) && p2 == f(i + 1) && p3 == f(i + 2) && p4 == f(i + 3);
    SumFour(f, i);
    s1, s2, s3, s4 := r1 + p1, r2 + p2, r3 + p3, r4 + p4;
  }

  /** The fall-through switch after the unrolled loop. */
  method Residue(a: seq<real>, b: seq<real>, m: nat) returns (r1: real, r2: real, r3: real)
    requires |a| == |b| && m <= |a| < m + 4
    ensures r1 + r2 + r3 == Sum(Products(a, b), m, |a|)
  {
    ghost var f := Products(a, b);
    r1, r2, r3 := 0.0, 0.0, 0.0;
    if |a| - m == 3 {
      r3 := a[m + 2] * b[m + 2];
      assert r3 == f(m + 2);
    }
    if |a| - m >= 2 {
      r2 := a[m + 1] * b[m + 1];
      assert r2 == f(m + 1);
    }
    if |a| - m >= 1 {
      r1 := a[m] * b[m];
      assert r1 == f(m);
    }
    SumRest(f, m, |a|);
  }

  /** The symmetric matrix stored in c. */
  function SymOf(diag: seq<nat>, c: seq<real>): Mat
  {
    (i, j) => Sym(diag, c, i, j)
  }

  /** The part of coordinate i of A.v from columns before k. */
  function SymPart(diag: seq<nat>, c: seq<real>, v: seq<real>, i: int, k: int): real
  {
    Sum(RowTimes(SymOf(diag, c), VecOf(v), i), 0, k)
  }

  lemma SymPartNext(diag: seq<nat>, c: seq<real>, v: seq<real>, i: int, k: int)
    requires 0 <= k
    ensures SymPart(diag, c, v, i, k + 1) == SymPart(diag, c, v, i, k) + Sym(diag, c, i, k) * Coord(v, k)
  {
    assert RowTimes(SymOf(diag, c), VecOf(v), i)(k) == Sym(diag, c, i, k) * Coord(v, k);
  }

  lemma SymPartZero(diag: seq<nat>, c: seq<real>, v: seq<real>, i: int)
    requires 0 <= First(diag, i) <= i
    ensures SymPart(diag, c, v, i, First(diag, i)) == 0.0
  {
    SumZero(RowTimes(SymOf(diag, c), VecOf(v), i), 0, First(diag, i));
  }

  /** Rows before i are complete as far as columns before i are concerned. */
  ghost predicate RowsBefore(diag: seq<nat>, c: seq<real>, v: seq<real>, i: int, res: seq<real>)
  {
    |res| == |v| == |diag| && forall r :: 0 <= r < i && r < |res| ==> res[r] == SymPart(diag, c, v, r, i)
  }

  /** __fem_matrix_vector. */
  method MatrixVector(diag: seq<nat>, coef: array<real>, v: array<real>, res: array<real>)
    requires IsLayout(diag) && coef.Length == Stored(diag) && v.Length == res.Length == |diag|
    requires res != v && res != coef
    modifies res
    ensures forall i :: 0 <= i < |diag| ==> res[i] == Times(SymOf(diag, coef[..]), VecOf(v[..]), |diag|, i)
  {
    ghost var c, vs := coef[..], v[..];
    ReadEntry(0.0, diag, c, 0, 0);
    SymPartNext(diag, c, vs, 0, 0);
    res[0] := v[0] * coef[diag[0]];
    var i := 1;
    while i < |diag|
      invariant 1 <= i <= |diag| && coef[..] == c && v[..] == vs
      invariant RowsBefore(diag, c, vs, i, res[..])
    {
      MatrixVectorRow(diag, coef, v, res, i);
      i := i + 1;
    }
  }

  lemma RowsBeforeStep(diag: seq<nat>, c: seq<real>, v: seq<real>, i: int, before: seq<real>, res: seq<real>)
    requires 1 <= i < |diag| && RowsBefore(diag, c, v, i, before)
    requires |res| == |diag| && res[i] == SymPart(diag, c, v, i, i + 1)
    requires RowAdded(diag, c, i, i, v[i], before, res[i := before[i]])
    ensures RowsBefore(diag, c, v, i + 1, res)
  {
    forall r | 0 <= r < i
      ensures res[r] == SymPart(diag, c, v, r, i + 1)
    {
      SymPartNext(diag, c, v, r, i);
      assert res[r] == res[i := before[i]][r];
    }
  }

  /** One turn of the outer loop of __fem_matrix_vector. */
  method MatrixVectorRow(diag: seq<nat>, coef: array<real>, v: array<real>, res: array<real>, i: nat)
    requires IsLayout(diag) && coef.Length == Stored(diag) && v.Length == res.Length == |diag|
    requires res != v && res != coef && 1 <= i < |diag|
    requires RowsBefore(diag, coef[..], v[..], i, res[..])
    modifies res
    ensures RowsBefore(diag, coef[..], v[..], i + 1, res[..])
  {
    ghost var c, vs, before := coef[..], v[..], res[..];
    var resi := RowAndColumn(diag, coef, v, res, i);
    assert coef[..] == c && v[..] == vs;
    ghost var added := res[..];
    res[i] := resi;
    assert res[..][i := before[i]] == added;
    RowsBeforeStep(diag, c, vs, i, before, res[..]);
  }

  lemma SameProduct(a: real, b: real, x: real, y: real)
    requires a == x && b == y
    ensures a * b == x * y
  {
  }

  lemma RowAddedStep(diag: seq<nat>, c: seq<real>, i: int, j: int, amount: real,
                     v: seq<real>, v1: seq<real>, v2: seq<real>, more: real)
    requires RowAdded(diag, c, i, j, amount, v, v1) && 0 <= j < |v|
    requires v2 == v1[j := v1[j] + more] && more == At(0.0, diag, c, i, j) * amount
    ensures RowAdded(diag, c, i, j + 1, amount, v, v2)
  {
  }

  /** The inner loop of __fem_matrix_vector: row i times v, and column i times v(i) added to the result. */
  method RowAndColumn(diag: seq<nat>, coef: array<real>, v: array<real>, res: array<real>, i: nat) returns (resi: real)
    requires IsLayout(diag) && coef.Length == Stored(diag) && v.Length == res.Length == |diag|
    requires res != v && res != coef && 1 <= i < |diag|
    modifies res
    ensures resi == SymPart(diag, coef[..], v[..], i, i + 1)
    ensures RowAdded(diag, coef[..], i, i, v[i], old(res[..]), res[..])
  {
    ghost var c, vs, before := coef[..], v[..], res[..];
    ReadEntry(0.0, diag, c, i, i);
    SymPartZero(diag, c, vs, i);
    var vi := v[i];
    resi := vi * coef[diag[i]];
    ghost var own := resi;
    var j := First(diag, i);
    while j < i
      invariant First(diag, i) <= j <= i && coef[..] == c && v[..] == vs
      invariant resi == own + SymPart(diag, c, vs, i, j)
      invariant RowAdded(diag, c, i, j, vi, before, res[..])
    {
      ReadEntry(0.0, diag, c, i, j);
      SymPartNext(diag, c, vs, i, j);
      var aij := coef[Position(diag, i, j)];
      var term := aij * v[j];
      SameProduct(aij, v[j], Sym(diag, c, i, j), Coord(vs, j));
      resi := resi + term;
      assert aij == At(0.0, diag, c, i, j);
      ghost var v1 := res[..];
      var more := aij * vi;
      res[j] := res[j] + more;
      RowAddedStep(diag, c, i, j, vi, before, v1, res[..], more);
      j := j + 1;
    }
    SymPartNext(diag, c, vs, i, i);
  }
}
