/** Real arithmetic: what the factors left in the profile multiply back to. */
module Ldlt {
  import opened RealSum
  import opened Matrices
  import opened Skyline
  import opened Factor

  function Abs(x: real): real { if x < 0.0 then -x else x }

  /** The products summed by a scalar product. */
  function Products(x: seq<real>, y: seq<real>): int -> real
  {
    k => if 0 <= k < |x| && k < |y| then x[k] * y[k] else 0.0
  }

  function Dot(x: seq<real>, y: seq<real>): real
  {
    Sum(Products(x, y), 0, |x|)
  }

  lemma DotPadded(x: seq<real>, y: seq<real>, g: int -> real, off: nat)
    requires forall k :: 0 <= k < off ==> g(k) == 0.0
    requires forall k :: 0 <= k < |x| ==> Products(x, y)(k) == g(off + k)
    ensures Dot(x, y) == Sum(g, 0, off + |x|)
  {
    SumPadded(Products(x, y), g, off, |x|);
  }

  /** Division, made total; the theorems below only divide by pivots they prove non-zero. */
  function Div(x: real, y: real): real { if y == 0.0 then 0.0 else x / y }

  /** The arithmetic of solver.c on exact reals, for the singularity threshold eps. */
  function Exact(eps: real): Arith<real>
  {
    Arith(0.0, Dot, (x: real, y: real) => x - y, (x: real, y: real) => x * y, Div, (x: real) => Abs(x) < eps,
          Div(1.0, eps * eps))
  }

  lemma ExactStep(eps: real, a: real, x: real, y: real)
    ensures Exact(eps).sub(a, Exact(eps).mul(x, y)) == a - x * y
  {
  }

  /** A factorisation on exact reals in which no pivot is zero. */
  ghost predicate Regular(p: Job<real>, eps: real)
  {
    && p.Ok()
    && p.ar == Exact(eps)
    && forall i :: 0 <= i < |p.diag| ==> p.D(i) != 0.0
  }

  lemma FirstPivot(p: Job<real>, eps: real)
    requires p.Ok() && p.ar == Exact(eps)
    ensures p.D(0) == p.a[0] == p.Orig(0, 0)
  {
    assert p.RawTo(0, 0) == p.a[0];
  }

  /** With a positive threshold, blocking makes every pivot non-zero, except that row 0 is never tested. */
  lemma RegularIff(p: Job<real>, eps: real)
    requires p.Ok() && p.ar == Exact(eps) && eps > 0.0
    ensures Regular(p, eps) <==> p.a[0] != 0.0
  {
    FirstPivot(p, eps);
    assert eps * eps > 0.0;
    if p.a[0] != 0.0 {
      forall i | 0 <= i < |p.diag|
        ensures p.D(i) != 0.0
      {
        assert 0 < i && p.D(i) != p.ar.block ==> Abs(p.D(i)) >= eps;
      }
    }
  }

  /** W and L with zeros outside the profile. */
  ghost function WAt(p: Job<real>, i: int, k: int): real
    requires p.Ok()
  {
    if 0 <= First(p.diag, i) <= k < i < |p.diag| then p.W(i, k) else 0.0
  }

  ghost function LAt(p: Job<real>, i: int, k: int): real
    requires p.Ok()
  {
    if 0 <= First(p.diag, i) <= k < i < |p.diag| then p.L(i, k) else 0.0
  }

  /** k |-> W(i,k).L(j,k) */
  ghost function WL(p: Job<real>, i: int, j: int): int -> real
    requires p.Ok()
  {
    k => WAt(p, i, k) * LAt(p, j, k)
  }

  lemma LTimesD(p: Job<real>, eps: real, i: int, k: int)
    requires Regular(p, eps) && 0 <= k < |p.diag|
    ensures LAt(p, i, k) * p.D(k) == WAt(p, i, k)
  {
  }

  lemma WLBefore(p: Job<real>, i: int, j: int)
    requires p.Ok()
    ensures forall k :: 0 <= k < p.Common(i, j) ==> WL(p, i, j)(k) == 0.0
  {
    forall k | 0 <= k < p.Common(i, j)
      ensures WAt(p, i, k) * LAt(p, j, k) == 0.0
    {
      if k < First(p.diag, i) {
        assert WAt(p, i, k) == 0.0;
      } else {
        assert LAt(p, j, k) == 0.0;
      }
    }
  }

  lemma WLFrom(p: Job<real>, i: int, j: int, lo: int)
    requires p.Ok() && 0 <= First(p.diag, i) < j < i < |p.diag| && lo == p.Common(i, j)
    ensures forall k :: 0 <= k < j - lo ==> Products(p.WRow(i, lo, j), p.LRow(j, lo, j))(k) == WL(p, i, j)(lo + k)
  {
    forall k | 0 <= k < j - lo
      ensures p.WRow(i, lo, j)[k] == WAt(p, i, lo + k) && p.LRow(j, lo, j)[k] == LAt(p, j, lo + k)
    {
    }
  }

  /** The scalar product of the code, on the common part of two rows, is the one over all columns. */
  lemma DotOfRows(p: Job<real>, i: int, j: int)
    requires p.Ok() && 0 <= First(p.diag, i) < j < i < |p.diag|
    ensures Dot(p.WRow(i, p.Common(i, j), j), p.LRow(j, p.Common(i, j), j)) == Sum(WL(p, i, j), 0, j)
  {
    var lo := p.Common(i, j);
    WLBefore(p, i, j);
    WLFrom(p, i, j, lo);
    DotPadded(p.WRow(i, lo, j), p.LRow(j, lo, j), WL(p, i, j), lo);
  }

  /** The update skipped at (i,j), if any. */
  ghost function Skipped(p: Job<real>, i: int, j: int): real
    requires p.Ok()
  {
    if j == 1 && i >= p.skip then Sum(WL(p, i, 1), 0, 1) else 0.0
  }

  lemma RowEquation(p: Job<real>, eps: real, i: int, j: int)
    requires Regular(p, eps) && 0 <= j < i < |p.diag|
    ensures WAt(p, i, j) + Sum(WL(p, i, j), 0, j) == p.Orig(i, j) + Skipped(p, i, j)
  {
    if j <= First(p.diag, i) {
      SumZero(WL(p, i, j), 0, j);
    } else {
      DotOfRows(p, i, j);
    }
  }

  /** k |-> L(i,k).W(i,k) */
  ghost function LW(p: Job<real>, i: int): int -> real
    requires p.Ok()
  {
    k => LAt(p, i, k) * WAt(p, i, k)
  }

  lemma RawStep(p: Job<real>, eps: real, i: int, k: int)
    requires Regular(p, eps) && 0 <= First(p.diag, i) < k <= i < |p.diag|
    ensures p.RawTo(i, k) == p.RawTo(i, k - 1) - LW(p, i)(k - 1)
  {
    ExactStep(eps, p.RawTo(i, k - 1), p.L(i, k - 1), p.W(i, k - 1));
  }

  lemma {:induction false} DiagonalEquation(p: Job<real>, eps: real, i: int, k: int)
    requires Regular(p, eps) && 0 <= First(p.diag, i) <= k <= i < |p.diag|
    ensures p.RawTo(i, k) + Sum(LW(p, i), 0, k) == p.Orig(i, i)
    decreases k
  {
    if k == First(p.diag, i) {
      SumZero(LW(p, i), 0, k);
    } else {
      DiagonalEquation(p, eps, i, k - 1);
      RawStep(p, eps, i, k);
    }
  }

  /** Entry (i,k) of the unit lower triangular factor stored in c. */
  function Lower(diag: seq<nat>, c: seq<real>, i: int, k: int): real
  {
    if k == i then 1.0 else if k < i then At(0.0, diag, c, i, k) else 0.0
  }

  /** The factors stored in c, as a matrix and the diagonal of another. */
  function LowerOf(diag: seq<nat>, c: seq<real>): Mat
  {
    (i, k) => Lower(diag, c, i, k)
  }

  function PivotsOf(diag: seq<nat>, c: seq<real>): Vec
  {
    k => At(0.0, diag, c, k, k)
  }

  function Terms(diag: seq<nat>, c: seq<real>, i: int, j: int): Vec
  {
    LdltTerms(LowerOf(diag, c), PivotsOf(diag, c), i, j)
  }

  /** Entry (i,j) of L.D.transpose(L), for the factors stored in c. */
  function Product(diag: seq<nat>, c: seq<real>, i: int, j: int): real
  {
    TripleProduct(LowerOf(diag, c), PivotsOf(diag, c), |diag|)(i, j)
  }

  lemma ProductSymmetric(diag: seq<nat>, c: seq<real>, i: int, j: int)
    ensures Product(diag, c, i, j) == Product(diag, c, j, i)
  {
    SumCong(Terms(diag, c, i, j), Terms(diag, c, j, i), 0, |diag|);
  }

  lemma TermBeyond(diag: seq<nat>, c: seq<real>, i: int, j: int, k: int)
    requires j < k
    ensures Terms(diag, c, i, j)(k) == 0.0
  {
    var x := Lower(diag, c, i, k) * At(0.0, diag, c, k, k);
    assert Lower(diag, c, j, k) == 0.0;
    assert x * 0.0 == 0.0;
  }

  lemma TermAtDiagonal(diag: seq<nat>, c: seq<real>, i: int, j: int)
    ensures Terms(diag, c, i, j)(j) == Lower(diag, c, i, j) * At(0.0, diag, c, j, j)
  {
    var x := Lower(diag, c, i, j) * At(0.0, diag, c, j, j);
    assert x * 1.0 == x;
  }

  /** A product entry only involves columns up to the smaller index. */
  lemma ProductCut(diag: seq<nat>, c: seq<real>, i: int, j: int)
    requires 0 <= j <= i < |diag|
    ensures Product(diag, c, i, j)
            == Sum(Terms(diag, c, i, j), 0, j) + Lower(diag, c, i, j) * At(0.0, diag, c, j, j)
  {
    var f := Terms(diag, c, i, j);
    SumSplit(f, 0, j + 1, |diag|);
    forall k | j + 1 <= k < |diag|
      ensures f(k) == 0.0
    {
      TermBeyond(diag, c, i, j, k);
    }
    SumZero(f, j + 1, |diag|);
    assert Sum(f, 0, j + 1) == Sum(f, 0, j) + f(j);
    TermAtDiagonal(diag, c, i, j);
  }

  lemma FactoredEntry(p: Job<real>, eps: real, c: seq<real>, i: int, k: int)
    requires Regular(p, eps) && p.Factored(c) && 0 <= k <= i < |p.diag|
    ensures At(0.0, p.diag, c, i, k) == if k == i then p.D(i) else LAt(p, i, k)
  {
    assert p.RowDone(c, i);
  }

  lemma TermIsWL(p: Job<real>, eps: real, c: seq<real>, i: int, j: int, k: int)
    requires Regular(p, eps) && p.Factored(c) && 0 <= k < j <= i < |p.diag|
    ensures Terms(p.diag, c, i, j)(k) == WL(p, i, j)(k)
  {
    FactoredEntry(p, eps, c, i, k);
    FactoredEntry(p, eps, c, j, k);
    FactoredEntry(p, eps, c, k, k);
    LTimesD(p, eps, i, k);
    var l, d := LowerOf(p.diag, c), PivotsOf(p.diag, c);
    TermIs(l, d, i, j, k, LAt(p, i, k), p.D(k), LAt(p, j, k), WAt(p, i, k));
  }

  lemma TermIs(l: Mat, d: Vec, i: int, j: int, k: int, x: real, y: real, z: real, w: real)
    requires l(i, k) == x && d(k) == y && l(j, k) == z && x * y == w
    ensures LdltTerms(l, d, i, j)(k) == w * z
  {
  }

  lemma TermsSum(p: Job<real>, eps: real, c: seq<real>, i: int, j: int)
    requires Regular(p, eps) && p.Factored(c) && 0 <= j <= i < |p.diag|
    ensures Sum(Terms(p.diag, c, i, j), 0, j) == Sum(WL(p, i, j), 0, j)
  {
    forall k | 0 <= k < j
      ensures Terms(p.diag, c, i, j)(k) == WL(p, i, j)(k)
    {
      TermIsWL(p, eps, c, i, j, k);
    }
    SumCong(Terms(p.diag, c, i, j), WL(p, i, j), 0, j);
  }

  lemma LastTerm(p: Job<real>, eps: real, c: seq<real>, i: int, j: int)
    requires Regular(p, eps) && p.Factored(c) && 0 <= j < i < |p.diag|
    ensures Lower(p.diag, c, i, j) * At(0.0, p.diag, c, j, j) == WAt(p, i, j)
  {
    FactoredEntry(p, eps, c, i, j);
    FactoredEntry(p, eps, c, j, j);
    LTimesD(p, eps, i, j);
  }

  lemma ProductOffDiagonal(p: Job<real>, eps: real, c: seq<real>, i: int, j: int)
    requires Regular(p, eps) && p.Factored(c) && 0 <= j < i < |p.diag|
    ensures Product(p.diag, c, i, j) == p.Orig(i, j) + Skipped(p, i, j)
  {
    ProductCut(p.diag, c, i, j);
    TermsSum(p, eps, c, i, j);
    LastTerm(p, eps, c, i, j);
    RowEquation(p, eps, i, j);
  }

  /** What blocking adds to the diagonal. */
  ghost function Shift(p: Job<real>, i: int): real
    requires p.Ok() && 0 <= i < |p.diag|
  {
    if p.Blocked(i) then p.ar.block - p.Raw(i) else 0.0
  }

  lemma ProductDiagonal(p: Job<real>, eps: real, c: seq<real>, i: int)
    requires Regular(p, eps) && p.Factored(c) && 0 <= i < |p.diag|
    ensures Product(p.diag, c, i, i) == p.Orig(i, i) + Shift(p, i)
  {
    ProductCut(p.diag, c, i, i);
    forall k | 0 <= k < i
      ensures Terms(p.diag, c, i, i)(k) == LW(p, i)(k)
    {
      TermIsWL(p, eps, c, i, i, k);
    }
    SumCong(Terms(p.diag, c, i, i), LW(p, i), 0, i);
    FactoredEntry(p, eps, c, i, i);
    DiagonalEquation(p, eps, i, i);
  }

  /** The update of column 1 that rows from `skip` on never receive, at entry (i,j) and its mirror. */
  ghost function Dropped(p: Job<real>, i: int, j: int): real
    requires p.Ok()
  {
    var hi, lo := if i < j then j else i, if i < j then i else j;
    if lo == 1 && p.skip <= hi < |p.diag| then Div(p.Orig(hi, 0) * p.Orig(1, 0), p.a[0]) else 0.0
  }

  lemma SkippedIsDropped(p: Job<real>, eps: real, i: int)
    requires Regular(p, eps) && p.skip <= i < |p.diag|
    ensures Skipped(p, i, 1) == Dropped(p, i, 1)
  {
    var f := WL(p, i, 1);
    assert Sum(f, 0, 1) == Sum(f, 0, 0) + f(0);
    FirstPivot(p, eps);
    assert WAt(p, i, 0) == p.Orig(i, 0);
    assert WAt(p, 1, 0) == p.Orig(1, 0);
    LTimesD(p, eps, 1, 0);
    var x, y, l := p.Orig(i, 0), p.Orig(1, 0), LAt(p, 1, 0);
    assert x * y == x * l * p.a[0];
  }

  /** Main result: the factors left in place multiply back to the matrix, up to the updates skipped in column 1 and to
      the diagonal of rows where what the factors leave is negligible. */
  lemma FactorsMultiplyBack(p: Job<real>, eps: real, c: seq<real>, i: int, j: int)
    requires Regular(p, eps) && p.Factored(c) && 0 <= i < |p.diag| && 0 <= j < |p.diag|
    ensures Product(p.diag, c, i, j)
            == Sym(p.diag, p.a, i, j) + Dropped(p, i, j) + if i == j then Shift(p, i) else 0.0
    ensures i == j && (i == 0 || !Negligible(p.diag, p.a, c, eps, i)) ==>
              Product(p.diag, c, i, i) == Sym(p.diag, p.a, i, i)
    ensures i >= 1 ==> PivotFollows(p.diag, p.a, c, eps, i)
  {
    ProductIs(p, eps, c, i, j);
    if i >= 1 {
      OnePivot(p, eps, c, i);
    }
    if i == j && (i == 0 || !Negligible(p.diag, p.a, c, eps, i)) {
      DiagonalExact(p, eps, c, i);
    }
  }

  lemma ProductIs(p: Job<real>, eps: real, c: seq<real>, i: int, j: int)
    requires Regular(p, eps) && p.Factored(c) && 0 <= i < |p.diag| && 0 <= j < |p.diag|
    ensures Product(p.diag, c, i, j)
            == Sym(p.diag, p.a, i, j) + Dropped(p, i, j) + if i == j then Shift(p, i) else 0.0
  {
    if i == j {
      ProductDiagonal(p, eps, c, i);
    } else {
      var hi, lo := if i < j then j else i, if i < j then i else j;
      ProductSymmetric(p.diag, c, i, j);
      ProductOffDiagonal(p, eps, c, hi, lo);
      if lo == 1 && p.skip <= hi {
        SkippedIsDropped(p, eps, hi);
      }
    }
  }

  /** What the factors leave for the diagonal of row i: the value that is compared with the threshold. */
  function Remainder(diag: seq<nat>, a: seq<real>, c: seq<real>, i: int): real
  {
    Sym(diag, a, i, i) - Sum(Terms(diag, c, i, i), 0, i)
  }

  /** The remainder lies strictly between -eps and eps. */
  predicate Negligible(diag: seq<nat>, a: seq<real>, c: seq<real>, eps: real, i: int)
  {
    -eps < Remainder(diag, a, c, i) < eps
  }

  /** The pivot is what the factors leave, or 1/eps^2 where that is negligible. */
  predicate PivotFollows(diag: seq<nat>, a: seq<real>, c: seq<real>, eps: real, i: int)
  {
    if Negligible(diag, a, c, eps, i) then Reciprocal(At(0.0, diag, c, i, i), eps)
    else At(0.0, diag, c, i, i) == Remainder(diag, a, c, i)
  }

  predicate Reciprocal(d: real, eps: real)
  {
    d * (eps * eps) == 1.0
  }

  /** So is every pivot behind the first one, which is never compared. */
  ghost predicate PivotsFollow(diag: seq<nat>, a: seq<real>, c: seq<real>, eps: real)
  {
    && At(0.0, diag, c, 0, 0) == Sym(diag, a, 0, 0)
    && forall i :: 1 <= i < |diag| ==> PivotFollows(diag, a, c, eps, i)
  }

  lemma RawIsRemainder(p: Job<real>, eps: real, c: seq<real>, i: int)
    requires Regular(p, eps) && p.Factored(c) && 0 <= i < |p.diag|
    ensures p.Raw(i) == Remainder(p.diag, p.a, c, i)
  {
    forall k | 0 <= k < i
      ensures Terms(p.diag, c, i, i)(k) == LW(p, i)(k)
    {
      TermIsWL(p, eps, c, i, i, k);
    }
    SumCong(Terms(p.diag, c, i, i), LW(p, i), 0, i);
    DiagonalEquation(p, eps, i, i);
  }

  lemma BlockValue(eps: real, d: real)
    requires eps > 0.0 && d == Exact(eps).block
    ensures Reciprocal(d, eps)
  {
    assert eps * eps > 0.0;
  }

  lemma OnePivot(p: Job<real>, eps: real, c: seq<real>, i: int)
    requires Regular(p, eps) && p.Factored(c) && 1 <= i < |p.diag|
    ensures PivotFollows(p.diag, p.a, c, eps, i)
  {
    RawIsRemainder(p, eps, c, i);
    FactoredEntry(p, eps, c, i, i);
    if Negligible(p.diag, p.a, c, eps, i) {
      BlockValue(eps, p.D(i));
    }
  }

  /** The singularity test, told from the factors themselves. */
  lemma PivotRule(p: Job<real>, eps: real, c: seq<real>)
    requires Regular(p, eps) && p.Factored(c)
    ensures PivotsFollow(p.diag, p.a, c, eps)
  {
    forall i | 1 <= i < |p.diag|
      ensures PivotFollows(p.diag, p.a, c, eps, i)
    {
      OnePivot(p, eps, c, i);
    }
    FirstPivot(p, eps);
    FactoredEntry(p, eps, c, 0, 0);
  }

  /** The number kept is that of the last row with a negligible remainder, counted from 1, or what it was before. */
  ghost predicate NumbersLast(diag: seq<nat>, a: seq<real>, c: seq<real>, eps: real, n: int, before: nat, s: nat)
  {
    || (s == before && forall i :: 1 <= i < n ==> !Negligible(diag, a, c, eps, i))
    || (2 <= s <= n && Negligible(diag, a, c, eps, s - 1)
        && forall i :: s <= i < n ==> !Negligible(diag, a, c, eps, i))
  }

  lemma {:induction false} SingularityRule(p: Job<real>, eps: real, c: seq<real>, n: int, before: nat)
    requires Regular(p, eps) && p.Factored(c) && n <= |p.diag|
    ensures NumbersLast(p.diag, p.a, c, eps, n, before, p.LastBlocked(n, before))
    decreases n
  {
    if n > 1 {
      SingularityRule(p, eps, c, n - 1, before);
      RawIsRemainder(p, eps, c, n - 1);
    }
  }

  /** Hence the diagonal is exact where the remainder is not negligible. */
  lemma DiagonalExact(p: Job<real>, eps: real, c: seq<real>, i: int)
    requires Regular(p, eps) && p.Factored(c) && 0 <= i < |p.diag|
    requires i == 0 || !Negligible(p.diag, p.a, c, eps, i)
    ensures Product(p.diag, c, i, i) == Sym(p.diag, p.a, i, i)
  {
    ProductCut(p.diag, c, i, i);
    PivotRule(p, eps, c);
    assert i > 0 ==> PivotFollows(p.diag, p.a, c, eps, i);
  }

  /** What blocking adds to the diagonal is how much the pivot exceeds the remainder. */
  lemma ShiftIsReplacement(p: Job<real>, eps: real, c: seq<real>, i: int)
    requires Regular(p, eps) && p.Factored(c) && 0 <= i < |p.diag|
    ensures Shift(p, i) == At(0.0, p.diag, c, i, i) - Remainder(p.diag, p.a, c, i)
  {
    RawIsRemainder(p, eps, c, i);
    FactoredEntry(p, eps, c, i, i);
  }

  /** Every pivot left in place can be divided by. */
  lemma FactoredPivots(p: Job<real>, eps: real, c: seq<real>)
    requires Regular(p, eps) && p.Factored(c)
    ensures forall k :: 0 <= k < |p.diag| ==> At(0.0, p.diag, c, k, k) != 0.0
  {
    forall k | 0 <= k < |p.diag|
      ensures At(0.0, p.diag, c, k, k) != 0.0
    {
      FactoredEntry(p, eps, c, k, k);
      }
  }

  lemma DroppedIsZeroIff(p: Job<real>, i: int)
    requires p.Ok() && p.a[0] != 0.0 && p.skip <= i < |p.diag|
    ensures Dropped(p, i, 1) == 0.0 <==> p.Orig(i, 0) == 0.0 || p.Orig(1, 0) == 0.0
  {
    var x, y := p.Orig(i, 0), p.Orig(1, 0);
    assert x * y / p.a[0] * p.a[0] == x * y;
    if x != 0.0 && y != 0.0 {
      assert x * y != 0.0;
    }
  }

  /** The off-diagonal part is exact if and only if no row that skips column 1 couples with unknown 0
      while unknown 1 does. */
  lemma OffDiagonalExactIff(p: Job<real>, eps: real, c: seq<real>)
    requires Regular(p, eps) && p.Factored(c)
    ensures (forall i, j :: 0 <= j < i < |p.diag| ==> Product(p.diag, c, i, j) == Sym(p.diag, p.a, i, j))
       <==> (forall i :: p.skip <= i < |p.diag| ==> p.Orig(i, 0) == 0.0 || p.Orig(1, 0) == 0.0)
  {
    forall i, j | 0 <= j < i < |p.diag|
      ensures Product(p.diag, c, i, j) == Sym(p.diag, p.a, i, j) + Dropped(p, i, j)
    {
      FactorsMultiplyBack(p, eps, c, i, j);
    }
    FirstPivot(p, eps);
    forall i | p.skip <= i < |p.diag|
      ensures Dropped(p, i, 1) == 0.0 <==> p.Orig(i, 0) == 0.0 || p.Orig(1, 0) == 0.0
    {
      DroppedIsZeroIff(p, i);
    }
  }

  lemma VoidWhenZero(p: Job<real>, eps: real, i: int)
    requires Regular(p, eps) && 1 < i < |p.diag|
    requires p.Orig(i, 0) == 0.0 || p.Orig(1, 0) == 0.0
    ensures VoidUpdate(p, i)
  {
    var x, y := p.Orig(i, 0), p.ar.div(p.Orig(1, 0), p.Orig(0, 0));
    assert x * y == 0.0;
    var f := Products([x], [y]);
    assert Dot([x], [y]) == Sum(f, 0, 0) + f(0);
    assert Dot([], []) == 0.0;
  }

  /** Two factorisations of one matrix agree if and only if the rows where only one of them skips column 1
      have nothing to lose there. */
  lemma SameFactorsIff(p: Job<real>, q: Job<real>, eps: real, c: seq<real>, c': seq<real>)
    requires Regular(p, eps) && Regular(q, eps) && Variants(p, q) && p.skip <= q.skip
    requires p.Factored(c) && q.Factored(c')
    ensures c == c' <==> forall i :: p.skip <= i < q.skip && i < |p.diag| ==> p.Orig(i, 0) == 0.0 || p.Orig(1, 0) == 0.0
  {
    if forall i :: p.skip <= i < q.skip && i < |p.diag| ==> p.Orig(i, 0) == 0.0 || p.Orig(1, 0) == 0.0 {
      forall r | 0 <= r < |p.diag|
        ensures Alike(p, q, r)
      {
        if p.skip <= r < q.skip {
          VoidWhenZero(p, eps, r);
        }
      }
      SameFactors(p, q, c, c', 0);
    }
    if c == c' {
      FirstPivot(p, eps);
      forall i | p.skip <= i < q.skip && i < |p.diag|
        ensures p.Orig(i, 0) == 0.0 || p.Orig(1, 0) == 0.0
      {
        FactorsMultiplyBack(p, eps, c, i, 1);
        FactorsMultiplyBack(q, eps, c', i, 1);
        DroppedIsZeroIff(p, i);
      }
    }
  }
}
