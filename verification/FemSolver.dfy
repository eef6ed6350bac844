/** The solver end to end: factorise if needed, solve, leave the right-hand side alone. */
module FemSolver {
  import opened Options
  import opened RealSum
  import opened Matrices
  import opened Skyline
  import opened Factor
  import opened Ldlt
  import opened Solver
  import opened Solve
  import opened VectorDot

  /** The matrix that is really solved: the one given, with skipped updates added, and on the diagonal what the pivots
      left in c exceed the values they stand for. */
  ghost function Perturbed(p: Job<real>, c: seq<real>): Mat
    requires p.Ok()
  {
    (i: int, j: int) => Sym(p.diag, p.a, i, j) + Dropped(p, i, j) + Replaced(p, c, i, j)
  }

  ghost function Replaced(p: Job<real>, c: seq<real>, i: int, j: int): real
  {
    if i == j then At(0.0, p.diag, c, i, i) - Remainder(p.diag, p.a, c, i) else 0.0
  }

  ghost predicate Solves(m: Mat, x: seq<real>, b: seq<real>)
  {
    |x| == |b| && forall i :: 0 <= i < |b| ==> Times(m, VecOf(x), |b|, i) == b[i]
  }

  /** What solves with the factors solves the perturbed matrix. */
  lemma FactorsSolvePerturbed(p: Job<real>, eps: real, c: seq<real>, x: seq<real>, b: seq<real>)
    requires Regular(p, eps) && p.Factored(c) && |x| == |b| == |p.diag|
    requires forall i :: 0 <= i < |b| ==> ProductTimes(p.diag, c, x, i) == b[i]
    ensures Solves(Perturbed(p, c), x, b)
  {
    forall i | 0 <= i < |b|
      ensures Times(Perturbed(p, c), VecOf(x), |b|, i) == b[i]
    {
      PerturbedRow(p, eps, c, x, i);
    }
  }

  lemma PerturbedRow(p: Job<real>, eps: real, c: seq<real>, x: seq<real>, i: int)
    requires Regular(p, eps) && p.Factored(c) && |x| == |p.diag| && 0 <= i < |p.diag|
    ensures Times(Perturbed(p, c), VecOf(x), |p.diag|, i) == ProductTimes(p.diag, c, x, i)
  {
    var m := TripleProduct(LowerOf(p.diag, c), PivotsOf(p.diag, c), |p.diag|);
    forall j | 0 <= j < |p.diag|
      ensures Perturbed(p, c)(i, j) == m(i, j)
    {
      FactorsMultiplyBack(p, eps, c, i, j);
      ShiftIsReplacement(p, eps, c, i);
    }
    SameRowSameProduct(Perturbed(p, c), m, VecOf(x), |p.diag|, i);
  }

  lemma SameRowSameProduct(m: Mat, m': Mat, v: Vec, n: int, i: int)
    requires forall j :: 0 <= j < n ==> m(i, j) == m'(i, j)
    ensures Times(m, v, n, i) == Times(m', v, n, i)
  {
    SumCong(RowTimes(m, v, i), RowTimes(m', v, i), 0, n);
  }

  /** The row from which the factorisation skips column 1, by number of threads. */
  function SkipFor(nbThreads: nat): nat
  {
    if nbThreads > 1 then 1 + 2 * nbThreads else 2
  }

  /** The factorisation `solver` starts on a matrix that is not factorised yet. */
  ghost function JobFor(mat: Matrix<real>, epsilon: real, nbThreads: nat): Job<real>
    reads mat, mat.coef
  {
    mat.Task(Exact(epsilon), SkipFor(nbThreads))
  }

  /** solver: factorise unless that was done before, then solve in place. */
  method SolveInPlace(mat: Matrix<real>, vec: array<real>, epsilon: real, nbThreads: nat)
    requires mat.Valid() && mat.state != Init && vec.Length == |mat.diag| && vec != mat.coef
    requires mat.state == Allocated ==>
               (epsilon > 0.0 && mat.coef[0] != 0.0) || Regular(JobFor(mat, epsilon, nbThreads), epsilon)
    requires mat.state == Allocated && nbThreads > 1 ==> BlocksFit(|mat.diag|, nbThreads)
    requires mat.state == Factorised ==> FactorsStored(mat.diag, mat.coef[..])
    modifies mat, mat.coef, vec
    ensures mat.Valid() && mat.state == Factorised && FactorsStored(mat.diag, mat.coef[..])
    ensures old(mat.state) == Factorised ==> mat.coef[..] == old(mat.coef[..])
    ensures old(mat.state) == Allocated ==>
              var p := old(JobFor(mat, epsilon, nbThreads));
              Regular(p, epsilon) && p.Factored(mat.coef[..])
              && mat.singularity == p.LastBlocked(|mat.diag|, old(mat.singularity))
    ensures old(mat.state) == Allocated ==>
              && PivotsFollow(mat.diag, old(mat.coef[..]), mat.coef[..], epsilon)
              && NumbersLast(mat.diag, old(mat.coef[..]), mat.coef[..], epsilon, |mat.diag|, old(mat.singularity),
                             mat.singularity)
    ensures forall i :: 0 <= i < |mat.diag| ==> ProductTimes(mat.diag, mat.coef[..], vec[..], i) == old(vec[i])
  {
    if mat.state == Allocated {
      ghost var p := JobFor(mat, epsilon, nbThreads);
      if epsilon > 0.0 {
        RegularIff(p, epsilon);
      }
      if nbThreads > 1 {
        mat.FactorizeThreaded(Exact(epsilon), nbThreads);
      } else {
        mat.FactorizeSequential(Exact(epsilon));
      }
      FactoredPivots(p, epsilon, mat.coef[..]);
      PivotRule(p, epsilon, mat.coef[..]);
      SingularityRule(p, epsilon, mat.coef[..], |mat.diag|, old(mat.singularity));
    }
    Invert(mat.diag, mat.coef, vec);
  }

  function Squares(v: seq<real>): Vec
  {
    k => Coord(v, k) * Coord(v, k)
  }

  function SumOfSquares(v: seq<real>): (s: real)
  {
    Sum(Squares(v), 0, |v|)
  }

  lemma SameSignProduct(x: real, y: real, p: real)
    requires p == x * y && ((x > 0.0 && y > 0.0) || (x < 0.0 && y < 0.0))
    ensures p > 0.0
  {
    if x < 0.0 {
      var u, v := -x, -y;
      assert u * v > 0.0 && u * v == x * y;
    }
  }

  lemma {:induction false} SquaresPositive(v: seq<real>, n: int, k: int)
    ensures Sum(Squares(v), 0, n) >= 0.0
    ensures 0 <= k < n && Coord(v, k) != 0.0 ==> Sum(Squares(v), 0, n) > 0.0
    decreases n
  {
    if n > 0 {
      SquaresPositive(v, n - 1, k);
      var x, before := Coord(v, n - 1), Sum(Squares(v), 0, n - 1);
      var sq := Squares(v)(n - 1);
      if x != 0.0 {
        SameSignProduct(x, x, sq);
      }
      assert Sum(Squares(v), 0, n) == before + sq;
    }
  }

  /** The diagonal, as __fem_matrix_epsilon reads it. */
  ghost function Diagonal(diag: seq<nat>, c: seq<real>): seq<real>
    requires IsLayout(diag) && |c| == Stored(diag)
  {
    seq(|diag|, k requires 0 <= k < |diag| => At(0.0, diag, c, k, k))
  }

  method DiagonalSquares(diag: seq<nat>, coef: array<real>) returns (s: real)
    requires IsLayout(diag) && coef.Length == Stored(diag)
    ensures s == SumOfSquares(Diagonal(diag, coef[..]))
  {
    ghost var d := Diagonal(diag, coef[..]);
    s := 0.0;
    var i := 0;
    while i < |diag|
      invariant 0 <= i <= |diag| && s == Sum(Squares(d), 0, i)
    {
      ReadEntry(0.0, diag, coef[..], i, i);
      var x := coef[diag[i]];
      assert Squares(d)(i) == x * x;
      s := s + x * x;
      i := i + 1;
    }
  }

  method VectorSquares(b: array<real>) returns (t: real)
    ensures t == SumOfSquares(b[..])
  {
    t := 0.0;
    var i := 0;
    while i < b.Length
      invariant 0 <= i <= b.Length && t == Sum(Squares(b[..]), 0, i)
    {
      var x := b[i];
      assert Squares(b[..])(i) == x * x;
      t := t + x * x;
      i := i + 1;
    }
  }

  /** The threshold fem_solver_threaded uses: __fem_matrix_epsilon(A) * __fem_vector_norm(b). */
  method Threshold(diag: seq<nat>, coef: array<real>, b: array<real>, sqrt: real -> real, dblEpsilon: real)
    returns (epsilon: real)
    requires IsLayout(diag) && coef.Length == Stored(diag)
    requires forall x :: x > 0.0 ==> sqrt(x) > 0.0
    requires sqrt(0.0) == 0.0 && dblEpsilon > 0.0
    ensures (forall k :: 0 <= k < b.Length ==> b[k] == 0.0) ==> epsilon == 0.0
    ensures epsilon == sqrt(SumOfSquares(Diagonal(diag, coef[..]))) * dblEpsilon * sqrt(SumOfSquares(b[..]))
    ensures coef[0] != 0.0 && (exists k :: 0 <= k < b.Length && b[k] != 0.0) ==> epsilon > 0.0
  {
    var t := VectorSquares(b);
    var rs := MatrixEpsilon(diag, coef, sqrt, dblEpsilon);
    var rt := sqrt(t);
    epsilon := rs * rt;
    NormSign(b[..], sqrt);
    ProductSign(rs, rt);
  }

  /** A norm is positive, or zero for a vector of zeros. */
  lemma NormSign(v: seq<real>, sqrt: real -> real)
    requires (forall x :: x > 0.0 ==> sqrt(x) > 0.0) && sqrt(0.0) == 0.0
    ensures (forall k :: 0 <= k < |v| ==> v[k] == 0.0) ==> sqrt(SumOfSquares(v)) == 0.0
    ensures (exists k :: 0 <= k < |v| && v[k] != 0.0) ==> sqrt(SumOfSquares(v)) > 0.0
  {
    if k :| 0 <= k < |v| && v[k] != 0.0 {
      SquaresPositive(v, |v|, k);
    } else {
      SquaresOfZeros(v);
    }
  }

  lemma ProductSign(x: real, y: real)
    ensures y == 0.0 ==> x * y == 0.0
    ensures x > 0.0 && y > 0.0 ==> x * y > 0.0
  {
  }

  lemma SquaresOfZeros(v: seq<real>)
    requires forall k :: 0 <= k < |v| ==> v[k] == 0.0
    ensures SumOfSquares(v) == 0.0
  {
    forall k | 0 <= k < |v|
      ensures Squares(v)(k) == 0.0
    {
      ZeroFactor(v[k], v[k]);
    }
    SumZero(Squares(v), 0, |v|);
  }

  lemma ZeroFactor(x: real, y: real)
    requires y == 0.0
    ensures x * y == 0.0
  {
  }

  /** __fem_matrix_epsilon. */
  method MatrixEpsilon(diag: seq<nat>, coef: array<real>, sqrt: real -> real, dblEpsilon: real) returns (epsilon: real)
    requires IsLayout(diag) && coef.Length == Stored(diag)
    requires (forall x :: x > 0.0 ==> sqrt(x) > 0.0) && dblEpsilon > 0.0
    ensures epsilon == sqrt(SumOfSquares(Diagonal(diag, coef[..]))) * dblEpsilon
    ensures coef[0] != 0.0 ==> epsilon > 0.0
  {
    var s := DiagonalSquares(diag, coef);
    var rs := sqrt(s);
    epsilon := rs * dblEpsilon;
    if coef[0] != 0.0 {
      ghost var d := Diagonal(diag, coef[..]);
      SquaresPositive(d, |d|, 0);
      PositivePair(rs, dblEpsilon);
    }
  }

  lemma PositivePair(x: real, y: real)
    requires x > 0.0 && y > 0.0
    ensures x * y > 0.0
  {
  }

  /** __fem_solver_factorize: with two threads, unless it was done before. */
  method SolverFactorize(mat: Matrix<real>, sqrt: real -> real, dblEpsilon: real) returns (ghost epsilon: real)
    requires mat.Valid() && mat.state != Init
    requires (forall x :: x > 0.0 ==> sqrt(x) > 0.0) && dblEpsilon > 0.0
    requires mat.state == Allocated ==> mat.coef[0] != 0.0 && BlocksFit(|mat.diag|, 2)
    requires mat.state == Factorised ==> FactorsStored(mat.diag, mat.coef[..])
    modifies mat, mat.coef
    ensures mat.Valid() && mat.state == Factorised && FactorsStored(mat.diag, mat.coef[..])
    ensures old(mat.state) == Factorised ==> mat.coef[..] == old(mat.coef[..])
    ensures old(mat.state) == Allocated ==>
              Regular(old(JobFor(mat, epsilon, 2)), epsilon) && old(JobFor(mat, epsilon, 2)).Factored(mat.coef[..])
              && PivotsFollow(mat.diag, old(mat.coef[..]), mat.coef[..], epsilon)
  {
    epsilon := 0.0;
    if mat.state == Allocated {
      var e := MatrixEpsilon(mat.diag, mat.coef, sqrt, dblEpsilon);
      ghost var p := JobFor(mat, e, 2);
      RegularIff(p, e);
      mat.FactorizeThreaded(Exact(e), 2);
      FactoredPivots(p, e, mat.coef[..]);
      PivotRule(p, e, mat.coef[..]);
      epsilon := e;
    }
  }

  /** x solves every matrix whose factors c stores. */
  ghost predicate SolvesAny(diag: seq<nat>, c: seq<real>, x: seq<real>, b: seq<real>)
  {
    forall p, eps :: Regular(p, eps) && p.diag == diag && p.Factored(c) ==> Solves(Perturbed(p, c), x, b)
  }

  lemma FactorsSolveAny(diag: seq<nat>, c: seq<real>, x: seq<real>, b: seq<real>)
    requires |x| == |b| == |diag|
    requires forall i :: 0 <= i < |b| ==> ProductTimes(diag, c, x, i) == b[i]
    ensures SolvesAny(diag, c, x, b)
  {
    forall p, eps | Regular(p, eps) && p.diag == diag && p.Factored(c)
      ensures Solves(Perturbed(p, c), x, b)
    {
      FactorsSolvePerturbed(p, eps, c, x, b);
    }
  }

  /** No pivot was replaced, and no skipped update has anything to skip. */
  ghost predicate NothingLost(p: Job<real>, c: seq<real>, eps: real)
    requires p.Ok()
  {
    && (forall i :: 1 <= i < |p.diag| ==> !Negligible(p.diag, p.a, c, eps, i))
    && (forall i :: p.skip <= i < |p.diag| ==> Sym(p.diag, p.a, i, 0) == 0.0 || Sym(p.diag, p.a, 1, 0) == 0.0)
  }

  /** Then the matrix given is solved exactly. */
  lemma SolvesExactly(p: Job<real>, eps: real, c: seq<real>, x: seq<real>, b: seq<real>)
    requires Regular(p, eps) && p.Factored(c) && Solves(Perturbed(p, c), x, b) && |b| == |p.diag|
    requires NothingLost(p, c, eps)
    ensures Solves(SymOf(p.diag, p.a), x, b)
  {
    PivotRule(p, eps, c);
    forall i | 0 <= i < |b|
      ensures Times(SymOf(p.diag, p.a), VecOf(x), |b|, i) == b[i]
    {
      forall j | 0 <= j < |b|
        ensures Perturbed(p, c)(i, j) == SymOf(p.diag, p.a)(i, j)
      {
        NothingAdded(p, eps, c, i, j);
      }
      SameRowSameProduct(Perturbed(p, c), SymOf(p.diag, p.a), VecOf(x), |b|, i);
    }
  }

  lemma NothingAdded(p: Job<real>, eps: real, c: seq<real>, i: int, j: int)
    requires Regular(p, eps) && PivotsFollow(p.diag, p.a, c, eps) && NothingLost(p, c, eps)
    requires 0 <= i < |p.diag| && 0 <= j < |p.diag|
    ensures Dropped(p, i, j) == 0.0 == Replaced(p, c, i, j)
  {
    if i == j && i > 0 {
      assert PivotFollows(p.diag, p.a, c, eps, i);
    }
    var hi, lo := if i < j then j else i, if i < j then i else j;
    if lo == 1 && p.skip <= hi {
      FirstPivot(p, eps);
      assert p.D(0) != 0.0 && p.Orig(hi, 0) == Sym(p.diag, p.a, hi, 0) && p.Orig(1, 0) == Sym(p.diag, p.a, 1, 0);
      DroppedIsZeroIff(p, hi);
      assert Dropped(p, i, j) == Dropped(p, hi, 1);
    }
    if i == j == 0 {
      assert Sum(Terms(p.diag, c, 0, 0), 0, 0) == 0.0;
    }
  }

  method Copy(b: array<real>) returns (v: array<real>)
    ensures fresh(v) && v.Length == b.Length && v[..] == b[..]
  {
    v := new real[b.Length];
    var i := 0;
    while i < b.Length
      invariant 0 <= i <= b.Length
      invariant forall k :: 0 <= k < i ==> v[k] == b[k]
    {
      v[i] := b[i];
      i := i + 1;
    }
  }

  lemma SolvedAsGiven(p: Job<real>, eps: real, c: seq<real>, x: seq<real>, b: seq<real>)
    requires Regular(p, eps) && p.Factored(c) && SolvesAny(p.diag, c, x, b) && |b| == |p.diag|
    ensures PivotsFollow(p.diag, p.a, c, eps)
    ensures NothingLost(p, c, eps) ==> Solves(SymOf(p.diag, p.a), x, b)
  {
    PivotRule(p, eps, c);
    if NothingLost(p, c, eps) {
      SolvesExactly(p, eps, c, x, b);
    }
  }

  /** fem_solver_threaded. `epsilon` tells which threshold was used; it is zero for a right-hand side of zeros, and then
      no pivot is ever replaced, so that none may be zero. */
  method FemSolverThreaded(A: Matrix<real>, b: array<real>, nbThreads: nat, sqrt: real -> real, dblEpsilon: real)
    returns (x: Option<array<real>>, ghost epsilon: real)
    requires A.Valid() && A.state != Init && b != A.coef
    requires forall x :: x > 0.0 ==> sqrt(x) > 0.0
    requires sqrt(0.0) == 0.0 && dblEpsilon > 0.0
    requires A.state == Allocated && b.Length == |A.diag| ==>
               if forall k :: 0 <= k < b.Length ==> b[k] == 0.0 then Regular(JobFor(A, 0.0, nbThreads), 0.0)
               else A.coef[0] != 0.0
    requires A.state == Allocated && nbThreads > 1 ==> BlocksFit(|A.diag|, nbThreads)
    requires A.state == Factorised ==> FactorsStored(A.diag, A.coef[..])
    modifies A, A.coef
    ensures b[..] == old(b[..])
    ensures x.Some? <==> b.Length == |A.diag|
    ensures x.None? ==> A.coef[..] == old(A.coef[..]) && A.state == old(A.state)
    ensures x.Some? ==> A.Valid() && A.state == Factorised && FactorsStored(A.diag, A.coef[..])
    ensures x.Some? ==> SolvesAny(A.diag, A.coef[..], x.value[..], b[..])
    ensures x.Some? && old(A.state) == Factorised ==> A.coef[..] == old(A.coef[..])
    ensures x.Some? && old(A.state) == Allocated ==>
              var p := old(JobFor(A, epsilon, nbThreads));
              && Regular(p, epsilon) && p.Factored(A.coef[..])
              && PivotsFollow(A.diag, old(A.coef[..]), A.coef[..], epsilon)
              && (NothingLost(p, A.coef[..], epsilon) ==>
                    Solves(SymOf(A.diag, old(A.coef[..])), x.value[..], b[..]))
  {
    if b.Length != |A.diag| {
      x, epsilon := None, 0.0;
      return;
    }
    var v := Copy(b);
    var e := Threshold(A.diag, A.coef, v, sqrt, dblEpsilon);
    SolveInPlace(A, v, e, nbThreads);
    FactorsSolveAny(A.diag, A.coef[..], v[..], b[..]);
    if old(A.state) == Allocated {
      ghost var p := old(JobFor(A, e, nbThreads));
      SolvedAsGiven(p, e, A.coef[..], v[..], b[..]);
    }
    x, epsilon := Some(v), e;
  }
}
