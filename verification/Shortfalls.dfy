/** Where solver.c does less than its comments say: concrete inputs, and exactly when the difference shows. */
module Shortfalls {
  import opened RealSum
  import opened Skyline
  import opened Factor
  import opened Ldlt
  import opened Solver

  /** The matrix ((1 1 1) (1 3 1) (1 1 4)), all of it in the profile. */
  function Example(eps: real): Job<real>
  {
    Job(Exact(eps), [0, 2, 5], [1.0, 1.0, 3.0, 1.0, 1.0, 4.0], 2)
  }

  /** Entry (2,1) of L.D.transpose(L) is not entry (2,1) of the matrix, although no pivot is blocked. */
  lemma SkippedColumnShows(eps: real, c: seq<real>)
    requires 0.0 < eps < 1.0 && Example(eps).Factored(c)
    ensures var p := Example(eps);
            p.Ok() && Product(p.diag, c, 2, 1) != Sym(p.diag, p.a, 2, 1)
  {
    var p := Example(eps);
    RegularIff(p, eps);
    FactorsMultiplyBack(p, eps, c, 2, 1);
    assert p.Orig(2, 0) == p.a[3] && p.Orig(1, 0) == p.a[1];
  }

  /** A profile in which the skipped column never matters. */
  predicate ProfileAvoidsSkip(diag: seq<nat>)
  {
    |diag| > 1 ==> First(diag, 1) == 1 || forall i :: 2 <= i < |diag| ==> First(diag, i) >= 1
  }

  /** For such a profile the factors are exact off the diagonal whatever the coefficients; for every other
      profile there are coefficients for which they are not. */
  lemma ProfileAvoidsSkipIff(p: Job<real>, eps: real, c: seq<real>)
    requires Regular(p, eps) && p.Factored(c) && p.skip == 2
    requires forall q :: 0 <= q < |p.a| ==> p.a[q] != 0.0
    ensures ProfileAvoidsSkip(p.diag)
       <==> forall i, j :: 0 <= j < i < |p.diag| ==> Product(p.diag, c, i, j) == Sym(p.diag, p.a, i, j)
  {
    OffDiagonalExactIff(p, eps, c);
    forall i | 1 <= i < |p.diag|
      ensures p.Orig(i, 0) != 0.0 <==> First(p.diag, i) == 0
    {
      if First(p.diag, i) == 0 {
        PositionInRow(p.diag, i, 0);
      }
    }
  }

  lemma AvoidingProfileIsExact(p: Job<real>, eps: real, c: seq<real>)
    requires Regular(p, eps) && p.Factored(c) && p.skip == 2 && ProfileAvoidsSkip(p.diag)
    ensures forall i, j :: 0 <= j < i < |p.diag| ==> Product(p.diag, c, i, j) == Sym(p.diag, p.a, i, j)
  {
    OffDiagonalExactIff(p, eps, c);
  }

  /** Four rows and two threads: the only block has four jobs for three rows. */
  lemma BlockOverrun()
    ensures !Inside(4, 2, 1) && !BlocksFit(4, 2)
  {
    BlocksStayInside(4, 2, 1);
  }

  /** With more than one thread the sizes that fit are half of all sizes. */
  lemma OverrunIsPeriodic(size: nat, nbThreads: nat)
    requires nbThreads >= 1 && size >= 1
    ensures BlocksFit(size, nbThreads) <==> !BlocksFit(size + nbThreads, nbThreads)
  {
    var m := 2 * nbThreads;
    var q, r := (size - 1) / m, (size - 1) % m;
    if r < nbThreads {
      DivisionUnique(size - 1 + nbThreads, m, q, r + nbThreads);
    } else {
      assert size - 1 + nbThreads == m * (q + 1) + (r - nbThreads);
      DivisionUnique(size - 1 + nbThreads, m, q + 1, r - nbThreads);
    }
  }

  /** What matrix.h announces for the field `singularity`: the first blocked row, plus one. */
  ghost function FirstBlocked<F(!new)>(p: Job<F>, n: int, before: nat): nat
    requires p.Ok() && n <= |p.diag|
    decreases n
  {
    if n <= 1 then before
    else
      var earlier := FirstBlocked(p, n - 1, 0);
      if earlier != 0 then earlier else if p.Blocked(n - 1) then n else before
  }

  ghost predicate Unblocked<F(!new)>(p: Job<F>, from: int, to: int)
    requires p.Ok() && 0 <= from && to <= |p.diag|
  {
    forall i :: from <= i < to ==> !p.Blocked(i)
  }

  ghost predicate IsBlocked<F(!new)>(p: Job<F>, n: int, f: int)
    requires p.Ok() && n <= |p.diag|
  {
    1 < f <= n && p.Blocked(f - 1)
  }

  lemma {:induction false} FirstRange<F(!new)>(p: Job<F>, n: int, before: nat)
    requires p.Ok() && n <= |p.diag|
    ensures || (FirstBlocked(p, n, before) == before && Unblocked(p, 1, n))
            || (IsBlocked(p, n, FirstBlocked(p, n, before)) && Unblocked(p, 1, FirstBlocked(p, n, before) - 1))
    ensures FirstBlocked(p, n, 0) == 0 ==> Unblocked(p, 1, n)
    ensures FirstBlocked(p, n, 0) != 0 ==> FirstBlocked(p, n, before) == FirstBlocked(p, n, 0) > 1
    decreases n
  {
    if n > 1 {
      FirstRange(p, n - 1, 0);
      var earlier := FirstBlocked(p, n - 1, 0);
      if earlier == 0 && !p.Blocked(n - 1) {
        assert Unblocked(p, 1, n);
      }
    }
  }

  lemma {:induction false} LastRange<F(!new)>(p: Job<F>, n: int, before: nat)
    requires p.Ok() && n <= |p.diag|
    ensures || (p.LastBlocked(n, before) == before && Unblocked(p, 1, n))
            || (IsBlocked(p, n, p.LastBlocked(n, before)) && Unblocked(p, p.LastBlocked(n, before), n))
    decreases n
  {
    if n > 1 {
      LastRange(p, n - 1, before);
    }
  }

  ghost predicate BothBlocked<F(!new)>(p: Job<F>, i: int, j: int)
    requires p.Ok()
  {
    1 <= i < j < |p.diag| && p.Blocked(i) && p.Blocked(j)
  }

  lemma TwoDiffer<F(!new)>(p: Job<F>, i: int, j: int)
    requires p.Ok() && BothBlocked(p, i, j)
    ensures p.LastBlocked(|p.diag|, 0) != FirstBlocked(p, |p.diag|, 0)
  {
    FirstRange(p, |p.diag|, 0);
    LastRange(p, |p.diag|, 0);
    assert FirstBlocked(p, |p.diag|, 0) <= i + 1;
  }

  /** The field holds the first singularity exactly when there is at most one. */
  lemma SingularityIsFirstIff<F(!new)>(p: Job<F>)
    requires p.Ok()
    ensures p.LastBlocked(|p.diag|, 0) == FirstBlocked(p, |p.diag|, 0) <==> forall i, j :: !BothBlocked(p, i, j)
  {
    var f, l := FirstBlocked(p, |p.diag|, 0), p.LastBlocked(|p.diag|, 0);
    if f != l {
      FirstRange(p, |p.diag|, 0);
      LastRange(p, |p.diag|, 0);
      assert BothBlocked(p, f - 1, l - 1);
    } else {
      forall i, j
        ensures !BothBlocked(p, i, j)
      {
        if BothBlocked(p, i, j) {
          TwoDiffer(p, i, j);
        }
      }
    }
  }

  /** The diagonal matrix 1, 0, 0: both later pivots are blocked, and row 3 is kept instead of row 2. */
  lemma SecondSingularityKept(eps: real)
    requires eps > 0.0
    ensures var p := Job(Exact(eps), [0, 1, 2], [1.0, 0.0, 0.0], 2);
            p.Ok() && p.LastBlocked(3, 0) == 3 && FirstBlocked(p, 3, 0) == 2
  {
    var p := Job(Exact(eps), [0, 1, 2], [1.0, 0.0, 0.0], 2);
    assert p.RawTo(1, 1) == p.a[1] && p.RawTo(2, 2) == p.a[2];
    assert p.Blocked(1) && p.Blocked(2);
    assert FirstBlocked(p, 2, 0) == 2;
  }

  /** fem_matrix_copy: the copy of a factorised matrix holds the factors, but as a matrix still to be factorised. */
  method MatrixCopy(A: Matrix<real>) returns (B: Matrix<real>)
    requires A.Valid() && A.state != Init
    ensures fresh(B) && B.Valid() && B.diag == A.diag && B.coef[..] == A.coef[..]
    ensures B.singularity == A.singularity && B.state == Allocated
  {
    B := new Matrix<real>(0.0, A.diag);
    var i := 0;
    while i <= A.diag[|A.diag| - 1]
      invariant 0 <= i <= B.coef.Length && forall k :: 0 <= k < i ==> B.coef[k] == A.coef[k]
      modifies B.coef
    {
      B.coef[i] := A.coef[i];
      i := i + 1;
    }
    B.singularity := A.singularity;
  }

  /** Row i of the factors is that of a diagonal matrix. */
  predicate BareRow(diag: seq<nat>, c: seq<real>, i: int)
  {
    forall j :: 0 <= j < i ==> At(0.0, diag, c, i, j) == 0.0
  }

  /** The factors, multiplied back, and the factors, read as a matrix, agree in row i. */
  ghost predicate SameRow(diag: seq<nat>, c: seq<real>, i: int)
  {
    forall j :: 0 <= j <= i ==> Product(diag, c, i, j) == Sym(diag, c, i, j)
  }

  /** Behind rows without entries, an entry of row i appears in the product times its pivot. */
  lemma ProductBesideBare(diag: seq<nat>, c: seq<real>, i: int, j: int)
    requires 0 <= j < i < |diag| && BareRow(diag, c, j)
    ensures Product(diag, c, i, j) == At(0.0, diag, c, i, j) * At(0.0, diag, c, j, j)
  {
    var f := Terms(diag, c, i, j);
    forall k | 0 <= k < j
      ensures f(k) == 0.0
    {
      assert Lower(diag, c, j, k) == 0.0;
      TimesZero(Lower(diag, c, i, k) * At(0.0, diag, c, k, k), Lower(diag, c, j, k));
    }
    SumZero(f, 0, j);
    ProductCut(diag, c, i, j);
  }

  lemma TimesZero(x: real, y: real)
    requires y == 0.0
    ensures x * y == 0.0
  {
  }

  lemma {:induction false} SquaresVanish(f: int -> real, n: nat)
    requires (forall k :: 0 <= k < n ==> f(k) >= 0.0) && Sum(f, 0, n) <= 0.0
    ensures forall k :: 0 <= k < n ==> f(k) == 0.0
    decreases n
  {
    if n > 0 {
      SumNotNegative(f, n - 1);
      SquaresVanish(f, n - 1);
    }
  }

  lemma {:induction false} SumNotNegative(f: int -> real, n: nat)
    requires forall k :: 0 <= k < n ==> f(k) >= 0.0
    ensures Sum(f, 0, n) >= 0.0
    decreases n
  {
    if n > 0 {
      SumNotNegative(f, n - 1);
    }
  }

  lemma SquareIsPositive(x: real, y: real)
    requires y == x
    ensures y * x >= 0.0 && (x != 0.0 ==> y * x > 0.0)
  {
  }

  /** An entry that its pivot does not change gives a square. */
  lemma SquareOfEntry(x: real, y: real, term: real)
    requires y == x && term == y * x
    ensures term >= 0.0 && (x != 0.0 ==> term > 0.0)
  {
    SquareIsPositive(x, y);
  }

  lemma RowBecomesBare(diag: seq<nat>, c: seq<real>, i: int)
    requires 0 <= i < |diag| && SameRow(diag, c, i) && forall r :: 0 <= r < i ==> BareRow(diag, c, r)
    ensures BareRow(diag, c, i)
  {
    var f := Terms(diag, c, i, i);
    forall j | 0 <= j < i
      ensures f(j) >= 0.0 && (At(0.0, diag, c, i, j) != 0.0 ==> f(j) > 0.0)
    {
      var x, d := At(0.0, diag, c, i, j), At(0.0, diag, c, j, j);
      ProductBesideBare(diag, c, i, j);
      assert Product(diag, c, i, j) == Sym(diag, c, i, j);
      assert f(j) == (x * d) * x;
      SquareOfEntry(x, x * d, f(j));
    }
    ProductCut(diag, c, i, i);
    SquaresVanish(f, i);
  }

  lemma BareRowIsSame(diag: seq<nat>, c: seq<real>, i: int)
    requires 0 <= i < |diag| && forall r :: 0 <= r <= i ==> BareRow(diag, c, r)
    ensures SameRow(diag, c, i)
  {
    assert BareRow(diag, c, i);
    forall j | 0 <= j <= i
      ensures Product(diag, c, i, j) == Sym(diag, c, i, j)
    {
      if j < i {
        ProductBesideBare(diag, c, i, j);
        TimesZero(At(0.0, diag, c, j, j), At(0.0, diag, c, i, j));
      } else {
        var f := Terms(diag, c, i, i);
        forall k | 0 <= k < i
          ensures f(k) == 0.0
        {
          TimesZero(Lower(diag, c, i, k) * At(0.0, diag, c, k, k), Lower(diag, c, i, k));
        }
        SumZero(f, 0, i);
        ProductCut(diag, c, i, i);
      }
    }
  }

  lemma {:induction false} SameRowsAreBare(diag: seq<nat>, c: seq<real>, n: nat)
    requires n <= |diag| && forall i :: 0 <= i < n ==> SameRow(diag, c, i)
    ensures forall i :: 0 <= i < n ==> BareRow(diag, c, i)
    decreases n
  {
    if n > 0 {
      SameRowsAreBare(diag, c, n - 1);
      RowBecomesBare(diag, c, n - 1);
    }
  }

  /** The copy of a factorised matrix stands for the same matrix if and only if no factor lies off the diagonal. */
  lemma CopyStandsForSameIff(diag: seq<nat>, c: seq<real>)
    ensures (forall i :: 0 <= i < |diag| ==> SameRow(diag, c, i))
       <==> (forall i :: 0 <= i < |diag| ==> BareRow(diag, c, i))
  {
    if forall i :: 0 <= i < |diag| ==> SameRow(diag, c, i) {
      SameRowsAreBare(diag, c, |diag|);
    } else if forall i :: 0 <= i < |diag| ==> BareRow(diag, c, i) {
      forall i | 0 <= i < |diag|
        ensures SameRow(diag, c, i)
      {
        BareRowIsSame(diag, c, i);
      }
    }
  }

  /** Reading factors as a matrix gives another system: here ((2 1) (1 2)) instead of ((2 2) (2 4)). */
  lemma CopyOfFactorsDiffers()
    ensures var diag, c := [0, 2], [2.0, 1.0, 2.0];
            && Product(diag, c, 0, 0) == 2.0 && Product(diag, c, 1, 0) == 2.0 && Product(diag, c, 1, 1) == 4.0
            && Sym(diag, c, 0, 0) == 2.0 && Sym(diag, c, 1, 0) == 1.0 && Sym(diag, c, 1, 1) == 2.0
  {
    var diag, c := [0, 2], [2.0, 1.0, 2.0];
    ProductCut(diag, c, 0, 0);
    ProductCut(diag, c, 1, 0);
    ProductCut(diag, c, 1, 1);
    var f := Terms(diag, c, 1, 1);
    assert Sum(f, 0, 1) == Sum(f, 0, 0) + f(0);
  }
}
