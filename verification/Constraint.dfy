/** Boundary conditions by Lagrange multipliers: bc_gsm_compute and bc_loading_compute of bc.c. */
module Constraint {
  import opened RealSum
  import opened Matrices
  import opened Skyline
  import opened ElementMatrices
  import opened SystemMatrix

  /** Storing into one cell of the symmetric matrix. */
  method SetEntry(diag: seq<nat>, coef: array<real>, i: nat, j: nat, value: real)
    requires IsLayout(diag) && coef.Length == Stored(diag) && InProfile(diag, i, j)
    modifies coef
    ensures forall r, k :: Sym(diag, coef[..], r, k)
                        == if Same(i, j, r, k) then value else Sym(diag, old(coef[..]), r, k)
  {
    ghost var c := coef[..];
    PositionInRow(diag, i, j);
    coef[diag[i] + j - i] := value;
    forall r, k | k <= r
      ensures At(0.0, diag, coef[..], r, k) == if r == i && k == j then value else At(0.0, diag, c, r, k)
    {
      if InProfile(diag, r, k) {
        PositionInRow(diag, r, k);
        if Position(diag, r, k) == Position(diag, i, j) {
          PositionInjective(diag, r, k, i, j);
        }
      } else {
        assert r != i || k != j;
      }
    }
  }

  /** A condition as the matrix sees it: the rows it ties, their coefficients, and its two multipliers. */
  datatype Tie = Tie(rows: seq<nat>, coefs: seq<real>, l1: nat, l2: nat) {
    ghost predicate Ok(size: nat)
    {
      && |rows| == |coefs| && l1 < l2 < size
      && forall i :: 0 <= i < |rows| ==> l1 < rows[i] < l2
    }

    ghost predicate HasPlaces(diag: seq<nat>)
    {
      && InProfile(diag, l1, l1) && InProfile(diag, l2, l2) && InProfile(diag, l2, l1)
      && forall i :: 0 <= i < |rows| ==> InProfile(diag, rows[i], l1) && InProfile(diag, l2, rows[i])
    }

    /** The left-hand side as it is written. */
    function Written(x: Vec): real
      requires |rows| == |coefs|
    {
      Weighted(coefs, rows, x)
    }

    /** The left-hand side with the last coefficient of each unknown only. */
    function Imposed(x: Vec): real
      requires |rows| == |coefs|
    {
      Weighted(Kept(coefs, rows), rows, x)
    }

    /** The terms of parts whose unknown is named again later. */
    function Overwritten(x: Vec): real
      requires |rows| == |coefs|
    {
      Weighted(Lost(coefs, rows), rows, x)
    }
  }

  /** Nothing is stored in row i. */
  ghost predicate Blank(diag: seq<nat>, c: seq<real>, i: int)
  {
    forall j :: Sym(diag, c, i, j) == 0.0
  }

  /** The coefficients of a condition as they are stored. */
  function Scaled(beta: real, coefs: seq<real>): (v: seq<real>)
    ensures |v| == |coefs|
  {
    seq(|coefs|, i requires 0 <= i < |coefs| => Product(beta, coefs[i]))
  }

  function Product(x: real, y: real): real { x * y }

  /** No part behind part i, among the first n, is on the same row. */
  predicate Last(rows: seq<nat>, i: nat, n: nat)
    requires n <= |rows|
  {
    i < n && forall j :: i < j < n ==> rows[j] != rows[i]
  }

  /** What the rows of the multipliers hold once the first n of the coefficients v are written: a coefficient replaces
      one that an earlier part left on the same row. */
  ghost predicate PartsSet(diag: seq<nat>, c: seq<real>, tie: Tie, v: seq<real>, n: nat)
    requires n <= |tie.rows| == |v|
  {
    && (forall i :: 0 <= i < n && Last(tie.rows, i, n) ==>
          Sym(diag, c, tie.l1, tie.rows[i]) == v[i] == Sym(diag, c, tie.l2, tie.rows[i]))
    && (forall j :: j !in tie.rows[..n] ==> Sym(diag, c, tie.l1, j) == 0.0 == Sym(diag, c, tie.l2, j))
  }

  /** The rows of the multipliers: the last coefficient of each unknown in both, and the multipliers against each
      other. */
  ghost predicate MultiplierRows(diag: seq<nat>, c: seq<real>, tie: Tie, alpha: real, v: seq<real>)
    requires |tie.rows| == |v|
  {
    && (forall i :: 0 <= i < |v| && Last(tie.rows, i, |tie.rows|) ==>
          Sym(diag, c, tie.l1, tie.rows[i]) == v[i] == Sym(diag, c, tie.l2, tie.rows[i]))
    && Sym(diag, c, tie.l1, tie.l1) == -alpha && Sym(diag, c, tie.l2, tie.l2) == -alpha
    && Sym(diag, c, tie.l1, tie.l2) == alpha && Sym(diag, c, tie.l2, tie.l1) == alpha
    && (forall j :: j !in tie.rows && j != tie.l1 && j != tie.l2 ==>
          Sym(diag, c, tie.l1, j) == 0.0 == Sym(diag, c, tie.l2, j))
  }

  /** Only entries of the two multipliers change. */
  ghost predicate OnlyTie(diag: seq<nat>, c: seq<real>, c': seq<real>, tie: Tie)
  {
    && |c| == |c'|
    && forall r, k :: r != tie.l1 && r != tie.l2 && k != tie.l1 && k != tie.l2 ==>
         Sym(diag, c', r, k) == Sym(diag, c, r, k)
  }

  /** Nor do entries between a multiplier of the condition and anything it does not tie. */
  ghost predicate OnlyTied(diag: seq<nat>, c: seq<real>, c': seq<real>, tie: Tie)
  {
    && OnlyTie(diag, c, c', tie)
    && forall r :: r !in tie.rows && r != tie.l1 && r != tie.l2 ==>
         forall k :: Sym(diag, c', r, k) == Sym(diag, c, r, k)
  }

  /** Two entries of part i are written. */
  ghost predicate PartWritten(diag: seq<nat>, c: seq<real>, c': seq<real>, tie: Tie, i: nat, value: real)
    requires i < |tie.rows|
  {
    && |c'| == |c|
    && forall r, k ::
         Sym(diag, c', r, k) == if Same(tie.rows[i], tie.l1, r, k) || Same(tie.l2, tie.rows[i], r, k) then value
                                           else Sym(diag, c, r, k)
  }

  lemma PartStep(diag: seq<nat>, c: seq<real>, c': seq<real>, tie: Tie, v: seq<real>, i: nat)
    requires tie.Ok(|diag|) && i < |tie.rows| == |v| && PartsSet(diag, c, tie, v, i)
    requires PartWritten(diag, c, c', tie, i, v[i])
    ensures PartsSet(diag, c', tie, v, i + 1)
  {
    var row := tie.rows[i];
    forall q | 0 <= q < i + 1 && Last(tie.rows, q, i + 1)
      ensures Sym(diag, c', tie.l1, tie.rows[q]) == v[q] == Sym(diag, c', tie.l2, tie.rows[q])
    {
      assert q < i ==> tie.rows[q] != row && Last(tie.rows, q, i);
    }
    forall j | j !in tie.rows[..i + 1]
      ensures Sym(diag, c', tie.l1, j) == 0.0 == Sym(diag, c', tie.l2, j)
    {
      NotYet(tie.rows, i, j);
    }
  }

  lemma NotYet(rows: seq<nat>, i: nat, j: int)
    requires i < |rows| && j !in rows[..i + 1]
    ensures j !in rows[..i] && j != rows[i]
  {
    assert rows[..i + 1] == rows[..i] + [rows[i]];
  }

  lemma PartOnly(diag: seq<nat>, c0: seq<real>, c: seq<real>, c': seq<real>, tie: Tie, i: nat, value: real)
    requires tie.Ok(|diag|) && i < |tie.rows| && OnlyTied(diag, c0, c, tie) && PartWritten(diag, c, c', tie, i, value)
    ensures OnlyTied(diag, c0, c', tie)
  {
    assert tie.rows[i] in tie.rows;
  }

  /** One turn of the loop over the parts. */
  method WritePart(diag: seq<nat>, coef: array<real>, tie: Tie, i: nat, value: real)
    requires IsLayout(diag) && coef.Length == Stored(diag) && tie.Ok(|diag|) && tie.HasPlaces(diag) && i < |tie.rows|
    modifies coef
    ensures PartWritten(diag, old(coef[..]), coef[..], tie, i, value)
  {
    SetEntry(diag, coef, tie.rows[i], tie.l1, value);
    SetEntry(diag, coef, tie.l2, tie.rows[i], value);
  }

  /** The entries between the multipliers are written. */
  ghost predicate CornerWritten(diag: seq<nat>, c: seq<real>, c': seq<real>, tie: Tie, alpha: real)
  {
    && |c'| == |c|
    && forall r, k :: Sym(diag, c', r, k) ==
         if Same(tie.l1, tie.l1, r, k) || Same(tie.l2, tie.l2, r, k) then -alpha
         else if Same(tie.l2, tie.l1, r, k) then alpha
         else Sym(diag, c, r, k)
  }

  method WriteCorner(diag: seq<nat>, coef: array<real>, tie: Tie, alpha: real)
    requires IsLayout(diag) && coef.Length == Stored(diag) && tie.Ok(|diag|) && tie.HasPlaces(diag)
    modifies coef
    ensures CornerWritten(diag, old(coef[..]), coef[..], tie, alpha)
  {
    SetEntry(diag, coef, tie.l1, tie.l1, -alpha);
    SetEntry(diag, coef, tie.l2, tie.l1, alpha);
    SetEntry(diag, coef, tie.l2, tie.l2, -alpha);
  }

  lemma CornerStep(diag: seq<nat>, c0: seq<real>, c: seq<real>, c': seq<real>, tie: Tie, alpha: real, v: seq<real>)
    requires tie.Ok(|diag|) && |v| == |tie.rows| && PartsSet(diag, c, tie, v, |tie.rows|) && OnlyTied(diag, c0, c, tie)
    requires CornerWritten(diag, c, c', tie, alpha)
    ensures MultiplierRows(diag, c', tie, alpha, v) && OnlyTied(diag, c0, c', tie)
  {
    assert tie.rows[..|tie.rows|] == tie.rows;
  }

  /** bc_gsm_compute. */
  method ConditionMatrix(diag: seq<nat>, coef: array<real>, tie: Tie, alpha: real, beta: real)
    requires IsLayout(diag) && coef.Length == Stored(diag) && tie.Ok(|diag|) && tie.HasPlaces(diag)
    requires Blank(diag, coef[..], tie.l1) && Blank(diag, coef[..], tie.l2)
    modifies coef
    ensures MultiplierRows(diag, coef[..], tie, alpha, Scaled(beta, tie.coefs))
            && OnlyTied(diag, old(coef[..]), coef[..], tie)
  {
    ghost var c, v := coef[..], Scaled(beta, tie.coefs);
    var i := 0;
    while i < |tie.rows|
      invariant 0 <= i <= |tie.rows| && PartsSet(diag, coef[..], tie, v, i) && OnlyTied(diag, c, coef[..], tie)
    {
      ghost var before := coef[..];
      var value := beta * tie.coefs[i];
      WritePart(diag, coef, tie, i, value);
      PartStep(diag, before, coef[..], tie, v, i);
      PartOnly(diag, c, before, coef[..], tie, i, value);
      i := i + 1;
    }
    ghost var before := coef[..];
    WriteCorner(diag, coef, tie, alpha);
    CornerStep(diag, c, before, coef[..], tie, alpha, v);
  }

  /** The sum of f over a list of indices, each taken once. */
  function SumOver(f: Vec, ks: seq<nat>): real
  {
    if ks == [] then 0.0 else (if ks[0] in ks[1..] then 0.0 else f(ks[0])) + SumOver(f, ks[1..])
  }

  lemma {:induction false} SumOverCong(f: Vec, g: Vec, ks: seq<nat>)
    requires forall k :: k in ks ==> f(k) == g(k)
    ensures SumOver(f, ks) == SumOver(g, ks)
  {
    if ks != [] {
      SumOverCong(f, g, ks[1..]);
    }
  }

  /** A sum with terms at the indices ks only. */
  lemma {:induction false} SparseSum(f: Vec, ks: seq<nat>, n: nat)
    requires forall i :: 0 <= i < |ks| ==> ks[i] < n
    requires forall j :: 0 <= j < n && j !in ks ==> f(j) == 0.0
    ensures Sum(f, 0, n) == SumOver(f, ks)
    decreases |ks|
  {
    if ks == [] {
      SumZero(f, 0, n);
    } else if ks[0] in ks[1..] {
      SparseSum(f, ks[1..], n);
    } else {
      var first, more := ks[0], ks[1..];
      var g: Vec := j => if j == first then 0.0 else f(j);
      var h: Vec := j => if j == first then f(j) else 0.0;
      SumAdd(g, h, f, 0, n);
      SumSingle(h, first, 0, n);
      forall j | 0 <= j < n && j !in more
        ensures g(j) == 0.0
      {
        assert ks == [first] + more;
      }
      SparseSum(g, more, n);
      SumOverCong(g, f, more);
    }
  }

  /** The left-hand side of a condition. */
  function Weighted(v: seq<real>, rows: seq<nat>, x: Vec): real
    requires |v| == |rows|
  {
    if v == [] then 0.0 else Product(v[0], x(rows[0])) + Weighted(v[1..], rows[1..], x)
  }

  /** The coefficients that stay in the matrix, zero where a later part is on the same row. */
  function Kept(v: seq<real>, rows: seq<nat>): (r: seq<real>)
    requires |v| == |rows|
    ensures |r| == |v|
  {
    seq(|v|, i requires 0 <= i < |v| => if Last(rows, i, |rows|) then v[i] else 0.0)
  }

  /** The coefficients that are overwritten, zero at the other parts. */
  function Lost(v: seq<real>, rows: seq<nat>): (r: seq<real>)
    requires |v| == |rows|
    ensures |r| == |v|
  {
    seq(|v|, i requires 0 <= i < |v| => if Last(rows, i, |rows|) then 0.0 else v[i])
  }

  lemma {:induction false} WeightedSum(u: seq<real>, v: seq<real>, w: seq<real>, rows: seq<nat>, x: Vec)
    requires |u| == |v| == |w| == |rows| && forall i :: 0 <= i < |w| ==> w[i] == u[i] + v[i]
    ensures Weighted(w, rows, x) == Weighted(u, rows, x) + Weighted(v, rows, x)
  {
    if w != [] {
      WeightedSum(u[1..], v[1..], w[1..], rows[1..], x);
      Distribute(u[0], v[0], x(rows[0]));
    }
  }

  lemma Distribute(u: real, v: real, y: real)
    ensures Product(u + v, y) == Product(u, y) + Product(v, y)
  {
  }

  /** A condition is what stays in the matrix and what is lost. */
  lemma KeptAndLost(v: seq<real>, rows: seq<nat>, x: Vec)
    requires |v| == |rows|
    ensures Weighted(v, rows, x) == Weighted(Kept(v, rows), rows, x) + Weighted(Lost(v, rows), rows, x)
  {
    WeightedSum(Kept(v, rows), Lost(v, rows), v, rows, x);
  }

  /** Nothing is lost when every unknown is named once. */
  lemma {:induction false} ZerosWeighNothing(v: seq<real>, rows: seq<nat>, x: Vec)
    requires |v| == |rows| && forall i :: 0 <= i < |v| ==> v[i] == 0.0
    ensures Weighted(v, rows, x) == 0.0
  {
    if v != [] {
      ZerosWeighNothing(v[1..], rows[1..], x);
      ZeroTimes(v[0], x(rows[0]));
    }
  }

  lemma NothingLost(v: seq<real>, rows: seq<nat>, x: Vec)
    requires |v| == |rows| && forall i, j :: 0 <= i < j < |rows| ==> rows[i] != rows[j]
    ensures Weighted(Lost(v, rows), rows, x) == 0.0
  {
    ZerosWeighNothing(Lost(v, rows), rows, x);
  }

  lemma LastOfRest(rows: seq<nat>, i: nat)
    requires i + 1 < |rows|
    ensures Last(rows, i + 1, |rows|) <==> Last(rows[1..], i, |rows| - 1)
  {
    if Last(rows, i + 1, |rows|) {
      assert forall j :: i < j < |rows| - 1 ==> rows[1..][j] == rows[j + 1];
    } else {
      var j :| i + 1 < j < |rows| && rows[j] == rows[i + 1];
      assert rows[1..][j - 1] == rows[1..][i];
    }
  }

  lemma KeptOfRest(v: seq<real>, rows: seq<nat>)
    requires |v| == |rows| > 0
    ensures Kept(v, rows)[1..] == Kept(v[1..], rows[1..])
  {
    forall i | 0 <= i < |rows| - 1
      ensures Kept(v, rows)[1..][i] == Kept(v[1..], rows[1..])[i]
    {
      LastOfRest(rows, i);
    }
  }

  lemma LastIsFirst(rows: seq<nat>)
    requires rows != []
    ensures Last(rows, 0, |rows|) <==> rows[0] !in rows[1..]
  {
    if rows[0] in rows[1..] {
      var k :| 0 <= k < |rows| - 1 && rows[1..][k] == rows[0];
      assert rows[k + 1] == rows[0];
    } else {
      assert forall j :: 0 < j < |rows| ==> rows[j] == rows[1..][j - 1];
    }
  }

  lemma {:induction false} WeightedIsSum(f: Vec, v: seq<real>, rows: seq<nat>, x: Vec)
    requires |v| == |rows|
    requires forall i :: 0 <= i < |v| && Last(rows, i, |rows|) ==> f(rows[i]) == Product(v[i], x(rows[i]))
    ensures SumOver(f, rows) == Weighted(Kept(v, rows), rows, x)
  {
    if v != [] {
      forall i | 0 <= i < |v| - 1 && Last(rows[1..], i, |rows| - 1)
        ensures f(rows[1..][i]) == Product(v[1..][i], x(rows[1..][i]))
      {
        LastOfRest(rows, i);
      }
      WeightedIsSum(f, v[1..], rows[1..], x);
      KeptOfRest(v, rows);
      LastIsFirst(rows);
      ZeroTimes(0.0, x(rows[0]));
    }
  }

  lemma {:induction false} WeightedScaled(beta: real, coefs: seq<real>, v: seq<real>, rows: seq<nat>, x: Vec)
    requires |coefs| == |rows| == |v| && forall i :: 0 <= i < |v| ==> v[i] == Product(beta, coefs[i])
    ensures Weighted(v, rows, x) == Product(beta, Weighted(coefs, rows, x))
  {
    if coefs != [] {
      WeightedScaled(beta, coefs[1..], v[1..], rows[1..], x);
      Spread(beta, Weighted(coefs[1..], rows[1..], x), coefs[0], x(rows[0]));
    }
  }

  lemma Spread(b: real, w: real, c: real, y: real)
    ensures Product(b, w) + Product(Product(b, c), y) == Product(b, w + Product(c, y))
  {
    assert b * (w + c * y) == b * w + b * (c * y);
  }

  lemma {:induction false} SumOverPair(f: Vec, rows: seq<nat>, p: nat, q: nat)
    requires p !in rows && q !in rows && p != q
    ensures SumOver(f, rows + [p, q]) == SumOver(f, rows) + f(p) + f(q)
  {
    var all := rows + [p, q];
    if rows == [] {
      assert all[1..] == [q] && [q][1..] == [];
    } else {
      assert all[1..] == rows[1..] + [p, q];
      assert rows[0] in all[1..] <==> rows[0] in rows[1..];
      SumOverPair(f, rows[1..], p, q);
    }
  }

  /** Row `row` of m holds the last coefficients of v at the tied rows, p and q at the multipliers, and nothing else. */
  ghost predicate RowHolds(m: Mat, tie: Tie, v: seq<real>, n: nat, row: int, p: real, q: real)
    requires |v| == |tie.rows|
  {
    && (forall i :: 0 <= i < |v| && Last(tie.rows, i, |tie.rows|) ==> m(row, tie.rows[i]) == v[i])
    && m(row, tie.l1) == p && m(row, tie.l2) == q
    && (forall j :: 0 <= j < n && j !in tie.rows && j != tie.l1 && j != tie.l2 ==> m(row, j) == 0.0)
  }

  lemma TermsElsewhere(m: Mat, x: Vec, tie: Tie, v: seq<real>, n: nat, row: int, p: real, q: real, j: int)
    requires |v| == |tie.rows| && RowHolds(m, tie, v, n, row, p, q)
    requires 0 <= j < n && j !in tie.rows + [tie.l1, tie.l2]
    ensures RowTimes(m, x, row)(j) == 0.0
  {
    var ks := tie.rows + [tie.l1, tie.l2];
    assert ks[|tie.rows|] == tie.l1 && ks[|tie.rows| + 1] == tie.l2;
    ZeroTimes(m(row, j), x(j));
  }

  lemma ZeroTimes(a: real, b: real)
    requires a == 0.0
    ensures a * b == 0.0
  {
  }

  lemma TieIndices(tie: Tie, n: nat)
    requires tie.Ok(n)
    ensures var ks := tie.rows + [tie.l1, tie.l2];
            forall i :: 0 <= i < |ks| ==> ks[i] < n
  {
  }

  lemma RowSupport(m: Mat, x: Vec, tie: Tie, v: seq<real>, n: nat, row: int, p: real, q: real)
    requires tie.Ok(n) && |v| == |tie.rows| && RowHolds(m, tie, v, n, row, p, q)
    ensures Times(m, x, n, row) == SumOver(RowTimes(m, x, row), tie.rows + [tie.l1, tie.l2])
  {
    var f, ks := RowTimes(m, x, row), tie.rows + [tie.l1, tie.l2];
    forall j | 0 <= j < n && j !in ks
      ensures f(j) == 0.0
    {
      TermsElsewhere(m, x, tie, v, n, row, p, q, j);
    }
    TieIndices(tie, n);
    SparseSum(f, ks, n);
  }

  lemma RowTerm(m: Mat, x: Vec, row: int, k: int, a: real)
    requires m(row, k) == a
    ensures RowTimes(m, x, row)(k) == Product(a, x(k))
  {
  }

  /** That row of the product. */
  lemma RowProduct(m: Mat, x: Vec, tie: Tie, v: seq<real>, n: nat, row: int, p: real, q: real)
    requires tie.Ok(n) && |v| == |tie.rows| && RowHolds(m, tie, v, n, row, p, q)
    ensures Times(m, x, n, row)
            == Weighted(Kept(v, tie.rows), tie.rows, x) + Product(p, x(tie.l1)) + Product(q, x(tie.l2))
  {
    var f := RowTimes(m, x, row);
    RowSupport(m, x, tie, v, n, row, p, q);
    SumOverPair(f, tie.rows, tie.l1, tie.l2);
    forall i | 0 <= i < |v| && Last(tie.rows, i, |tie.rows|)
      ensures f(tie.rows[i]) == Product(v[i], x(tie.rows[i]))
    {
      RowTerm(m, x, row, tie.rows[i], v[i]);
    }
    WeightedIsSum(f, v, tie.rows, x);
    RowTerm(m, x, row, tie.l1, p);
    RowTerm(m, x, row, tie.l2, q);
  }

  lemma Cancel(a: real, x: real, y: real)
    requires a != 0.0 && Product(a, x) == Product(a, y)
    ensures x == y
  {
    assert x == Product(a, x) / a && y == Product(a, y) / a;
  }

  /** What is kept of the scaled coefficients is what is kept of the coefficients, scaled. */
  lemma KeptScaled(beta: real, tie: Tie, x: Vec)
    requires |tie.rows| == |tie.coefs|
    ensures Weighted(Kept(Scaled(beta, tie.coefs), tie.rows), tie.rows, x) == Product(beta, tie.Imposed(x))
  {
    var u, v := Kept(tie.coefs, tie.rows), Kept(Scaled(beta, tie.coefs), tie.rows);
    forall i | 0 <= i < |v|
      ensures v[i] == Product(beta, u[i])
    {
      ZeroTimes(0.0, beta);
    }
    WeightedScaled(beta, u, v, tie.rows, x);
  }

  /** The two multiplier rows of the product. */
  lemma ConditionRows(m: Mat, x: Vec, tie: Tie, v: seq<real>, n: nat, alpha: real, beta: real)
    requires tie.Ok(n) && v == Scaled(beta, tie.coefs)
    requires RowHolds(m, tie, v, n, tie.l1, -alpha, alpha) && RowHolds(m, tie, v, n, tie.l2, alpha, -alpha)
    ensures Times(m, x, n, tie.l1)
            == Product(beta, tie.Imposed(x)) + Product(-alpha, x(tie.l1)) + Product(alpha, x(tie.l2))
    ensures Times(m, x, n, tie.l2)
            == Product(beta, tie.Imposed(x)) + Product(alpha, x(tie.l1)) + Product(-alpha, x(tie.l2))
  {
    RowProduct(m, x, tie, v, n, tie.l1, -alpha, alpha);
    RowProduct(m, x, tie, v, n, tie.l2, alpha, -alpha);
    KeptScaled(beta, tie, x);
  }

  /** A solution of the two multiplier rows satisfies what is kept of the condition, and its two multipliers are
      equal. */
  lemma ConditionHolds(m: Mat, x: Vec, tie: Tie, v: seq<real>, n: nat, alpha: real, beta: real, value: real)
    requires tie.Ok(n) && alpha != 0.0 && beta != 0.0 && v == Scaled(beta, tie.coefs)
    requires RowHolds(m, tie, v, n, tie.l1, -alpha, alpha) && RowHolds(m, tie, v, n, tie.l2, alpha, -alpha)
    requires Times(m, x, n, tie.l1) == Product(beta, value) == Times(m, x, n, tie.l2)
    ensures tie.Imposed(x) == value
    ensures x(tie.l1) == x(tie.l2)
  {
    ConditionRows(m, x, tie, v, n, alpha, beta);
    Balance(alpha, x(tie.l1), x(tie.l2), Product(beta, tie.Imposed(x)), Product(beta, value));
    Cancel(alpha, x(tie.l1), x(tie.l2));
    Cancel(beta, tie.Imposed(x), value);
  }

  /** Both multiplier rows together: the multipliers cancel. */
  lemma ConditionSum(m: Mat, x: Vec, tie: Tie, v: seq<real>, n: nat, alpha: real, beta: real, r1: real, r2: real)
    requires tie.Ok(n) && v == Scaled(beta, tie.coefs)
    requires RowHolds(m, tie, v, n, tie.l1, -alpha, alpha) && RowHolds(m, tie, v, n, tie.l2, alpha, -alpha)
    requires Times(m, x, n, tie.l1) == r1 && Times(m, x, n, tie.l2) == r2
    ensures r1 + r2 == 2.0 * Product(beta, tie.Imposed(x))
  {
    ConditionRows(m, x, tie, v, n, alpha, beta);
    Opposite(alpha, x(tie.l1));
    Opposite(alpha, x(tie.l2));
  }

  lemma Opposite(a: real, y: real)
    ensures Product(-a, y) == -Product(a, y)
  {
    assert (-a) * y == -(a * y);
  }

  lemma Balance(a: real, y: real, z: real, u: real, r: real)
    requires u + Product(-a, y) + Product(a, z) == r && u + Product(a, y) + Product(-a, z) == r
    ensures u == r && Product(a, y) == Product(a, z)
  {
    assert (-a) * y == -(a * y) && (-a) * z == -(a * z);
  }

  function Unit(r: int): Vec
  {
    k => if k == r then 1.0 else 0.0
  }

  /** The terms of a left-hand side, sorted by rows: the coefficients on row j together, times x(j). */
  function ByRows(v: seq<real>, rows: seq<nat>, x: Vec): Vec
    requires |v| == |rows|
  {
    j => x(j) * Weighted(v, rows, Unit(j))
  }

  lemma {:induction false} WeightedByRows(v: seq<real>, rows: seq<nat>, x: Vec, n: nat)
    requires |v| == |rows| && forall i :: 0 <= i < |rows| ==> rows[i] < n
    ensures Weighted(v, rows, x) == Sum(ByRows(v, rows, x), 0, n)
    decreases |v|
  {
    var f := ByRows(v, rows, x);
    if v == [] {
      forall j | 0 <= j < n
        ensures f(j) == 0.0
      {
        assert Weighted(v, rows, Unit(j)) == 0.0;
      }
      SumZero(f, 0, n);
    } else {
      var r, g := rows[0], ByRows(v[1..], rows[1..], x);
      var e: Vec := j => if j == r then Product(v[0], x(r)) else 0.0;
      forall j | 0 <= j < n
        ensures f(j) == e(j) + g(j)
      {
        RowOfTerm(v[0], Unit(j)(r), x(j), Weighted(v[1..], rows[1..], Unit(j)));
      }
      SumAdd(e, g, f, 0, n);
      SumSingle(e, r, 0, n);
      WeightedByRows(v[1..], rows[1..], x, n);
    }
  }

  lemma RowOfTerm(a: real, u: real, y: real, w: real)
    requires u == 0.0 || u == 1.0
    ensures y * (Product(a, u) + w) == (if u == 1.0 then Product(a, y) else 0.0) + y * w
  {
    if u == 0.0 {
      assert a * u == 0.0;
    } else {
      assert a * u == a;
      assert y * (a + w) == a * y + y * w;
    }
  }

  /** The matrix imposes a condition as it is written, on every vector, if and only if the coefficients overwritten on
      each row add up to zero. */
  lemma NothingOverwrittenIff(tie: Tie, n: nat)
    requires tie.Ok(n)
    ensures (forall x: Vec :: tie.Written(x) == tie.Imposed(x))
       <==> (forall r: nat :: r < n ==> tie.Overwritten(Unit(r)) == 0.0)
  {
    forall x: Vec
      ensures tie.Written(x) == tie.Imposed(x) + tie.Overwritten(x)
    {
      KeptAndLost(tie.coefs, tie.rows, x);
    }
    if forall r: nat :: r < n ==> tie.Overwritten(Unit(r)) == 0.0 {
      forall x: Vec
        ensures tie.Overwritten(x) == 0.0
      {
        var f := ByRows(Lost(tie.coefs, tie.rows), tie.rows, x);
        forall j | 0 <= j < n
          ensures f(j) == 0.0
        {
          assert tie.Overwritten(Unit(j)) == 0.0;
        }
        WeightedByRows(Lost(tie.coefs, tie.rows), tie.rows, x, n);
        SumZero(f, 0, n);
      }
    } else {
      var r: nat :| r < n && tie.Overwritten(Unit(r)) != 0.0;
      assert tie.Written(Unit(r)) != tie.Imposed(Unit(r));
    }
  }
}
