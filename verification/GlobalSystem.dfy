/** fem_problem_gsm and fem_problem_vector of problem.c: the system that is solved enforces the boundary conditions. */
module GlobalSystem {
  import opened RealSum
  import opened Matrices
  import opened Skyline
  import opened Numbering
  import opened NumberingFinish
  import opened Assembly
  import opened SystemProfile
  import opened ElementMatrices
  import opened SystemMatrix
  import opened Constraint
  import opened VectorDot

  /** One call of element_matrix_update: an element, its matrix and the weight of an integration point. */
  datatype Update = Update(e: nat, lower: seq<real>, weight: real)

  ghost predicate UpdateFits(es: seq<Element>, u: Update)
  {
    u.e < |es| && |u.lower| == Triangle(CountBelow(es[u.e].dofs, DOF_MAX) * |es[u.e].nodes|)
  }

  /** x is the matrix of the update in the rows of the system. */
  ghost predicate Located(t: Tables, es: seq<Element>, u: Update, x: ElementMatrix)
    requires u.e < |es|
  {
    && x.lower == u.lower && x.weight == u.weight && IsElementMatrix(x)
    && |x.g| == CountBelow(es[u.e].dofs, DOF_MAX) * |es[u.e].nodes|
    && forall i :: 0 <= i < |x.g| ==> RowBelongs(t, es[u.e], i, x.g[i]) && x.g[i] in Members(t, es[u.e])
  }

  /** What all element matrices together add to entry (r,k). */
  function Total(xs: seq<ElementMatrix>, r: int, k: int): real
    requires forall i :: 0 <= i < |xs| ==> IsElementMatrix(xs[i])
  {
    if xs == [] then 0.0
    else Total(xs[..|xs| - 1], r, k) + Scatter(xs[|xs| - 1], |xs[|xs| - 1].g|, 0, r, k)
  }

  ghost predicate Assembled(diag: seq<nat>, c: seq<real>, c': seq<real>, xs: seq<ElementMatrix>)
  {
    && (forall i :: 0 <= i < |xs| ==> IsElementMatrix(xs[i]))
    && |c'| == |c| && forall r, k :: Sym(diag, c', r, k) == Sym(diag, c, r, k) + Total(xs, r, k)
  }

  lemma AssembledNext(diag: seq<nat>, c: seq<real>, c': seq<real>, c'': seq<real>, xs: seq<ElementMatrix>,
                      x: ElementMatrix)
    requires Assembled(diag, c, c', xs) && IsElementMatrix(x) && Scattered(diag, c', c'', x, |x.g|, 0)
    ensures Assembled(diag, c, c'', xs + [x])
  {
    var all := xs + [x];
    assert all[..|all| - 1] == xs;
    forall r, k
      ensures Sym(diag, c'', r, k) == Sym(diag, c, r, k) + Total(all, r, k)
    {
      assert Sym(diag, c', r, k) == Sym(diag, c, r, k) + Total(xs, r, k);
    }
  }

  /** The buffers hold the symmetric matrices ms, row by row. */
  ghost predicate AllRepresented(ms: seq<Mat>, xs: seq<ElementMatrix>)
  {
    |ms| == |xs| && forall i :: 0 <= i < |xs| ==> Represents(ms[i], xs[i])
  }

  /** i |-> what matrix i gives entry (r,k) */
  function FromElements(ms: seq<Mat>, xs: seq<ElementMatrix>, r: int, k: int): Vec
  {
    i => if 0 <= i < |xs| && i < |ms| then Gathered(ms[i], xs[i].g, r, k) * xs[i].weight else 0.0
  }

  /** Each entry receives the sum over the element matrices of their entries between the rows and columns it stands
      for, times the weights. */
  ghost predicate Summed(diag: seq<nat>, c: seq<real>, c': seq<real>, ms: seq<Mat>, xs: seq<ElementMatrix>)
  {
    |c'| == |c|
    && forall r, k :: Sym(diag, c', r, k) == Sym(diag, c, r, k) + Sum(FromElements(ms, xs, r, k), 0, |xs|)
  }

  lemma {:induction false} TotalIsSum(ms: seq<Mat>, xs: seq<ElementMatrix>, r: int, k: int)
    requires AllRepresented(ms, xs) && forall i :: 0 <= i < |xs| ==> IsElementMatrix(xs[i])
    ensures Total(xs, r, k) == Sum(FromElements(ms, xs, r, k), 0, |xs|)
  {
    if xs != [] {
      var n := |xs| - 1;
      assert Represents(ms[n], xs[n]);
      TotalIsSum(ms[..n], xs[..n], r, k);
      ScatterIsGathered(xs[n], ms[n], r, k);
      FewerElements(ms, xs, n, r, k);
    }
  }

  lemma FewerElements(ms: seq<Mat>, xs: seq<ElementMatrix>, n: nat, r: int, k: int)
    requires n <= |ms| && n <= |xs|
    ensures Sum(FromElements(ms[..n], xs[..n], r, k), 0, n) == Sum(FromElements(ms, xs, r, k), 0, n)
  {
    SumCong(FromElements(ms[..n], xs[..n], r, k), FromElements(ms, xs, r, k), 0, n);
  }

  lemma AssembledSums(diag: seq<nat>, c: seq<real>, c': seq<real>, ms: seq<Mat>, xs: seq<ElementMatrix>)
    requires Assembled(diag, c, c', xs) && AllRepresented(ms, xs)
    ensures Summed(diag, c, c', ms, xs)
  {
    forall r, k
      ensures Sym(diag, c', r, k) == Sym(diag, c, r, k) + Sum(FromElements(ms, xs, r, k), 0, |xs|)
    {
      TotalIsSum(ms, xs, r, k);
      assert Sym(diag, c', r, k) == Sym(diag, c, r, k) + Total(xs, r, k);
    }
  }

  /** The updates of __fem_element_matrix_compute: each entry of the system is the sum of what the elements give it. */
  method AssembleElements(diag: seq<nat>, coef: array<real>, t: Tables, es: seq<Element>, ups: seq<Update>,
                          ghost bcs: seq<seq<Part>>) returns (xs: seq<ElementMatrix>)
    requires IsLayout(diag) && coef.Length == Stored(diag) && AllPlaced(t, es, bcs, diag)
    requires forall e :: 0 <= e < |es| ==> Inside(Members(t, es[e]), |diag|)
    requires forall k :: 0 <= k < |ups| ==> UpdateFits(es, ups[k])
    modifies coef
    ensures |xs| == |ups| && forall k :: 0 <= k < |ups| ==> ups[k].e < |es| && Located(t, es, ups[k], xs[k])
    ensures Assembled(diag, old(coef[..]), coef[..], xs)
    ensures forall ms :: AllRepresented(ms, xs) ==> Summed(diag, old(coef[..]), coef[..], ms, xs)
  {
    ghost var c := coef[..];
    xs := [];
    var k := 0;
    while k < |ups|
      invariant 0 <= k <= |ups| && |xs| == k
      invariant forall i :: 0 <= i < k ==> ups[i].e < |es| && Located(t, es, ups[i], xs[i])
      invariant Assembled(diag, c, coef[..], xs)
    {
      ghost var before := coef[..];
      assert UpdateFits(es, ups[k]);
      var x := AddElement(diag, coef, t, es, ups[k].e, ups[k].lower, ups[k].weight, bcs);
      AssembledNext(diag, c, before, coef[..], xs, x);
      xs := xs + [x];
      k := k + 1;
    }
    forall ms | AllRepresented(ms, xs)
      ensures Summed(diag, c, coef[..], ms, xs)
    {
      AssembledSums(diag, c, coef[..], ms, xs);
    }
  }

  /** Rows that belong to no element stay as they are. */
  lemma {:induction false} NothingElsewhere(t: Tables, es: seq<Element>, ups: seq<Update>, xs: seq<ElementMatrix>,
                                            r: int, k: int)
    requires |xs| == |ups| && forall i :: 0 <= i < |ups| ==> ups[i].e < |es| && Located(t, es, ups[i], xs[i])
    requires forall i :: 0 <= i < |xs| ==> IsElementMatrix(xs[i])
    requires forall e :: 0 <= e < |es| ==> r !in Members(t, es[e])
    ensures Total(xs, r, k) == 0.0 && Total(xs, k, r) == 0.0
  {
    if xs != [] {
      var n := |xs| - 1;
      NothingElsewhere(t, es, ups[..n], xs[..n], r, k);
      assert Located(t, es, ups[n], xs[n]);
      ScatterElsewhere(xs[n], |xs[n].g|, 0, r, k);
    }
  }

  /** No condition uses a multiplier of another one. */
  ghost predicate Apart(a: Tie, b: Tie)
  {
    && a.l1 != b.l1 && a.l1 != b.l2 && a.l2 != b.l1 && a.l2 != b.l2
    && (forall i :: 0 <= i < |b.rows| ==> b.rows[i] != a.l1 && b.rows[i] != a.l2)
    && (forall i :: 0 <= i < |a.rows| ==> a.rows[i] != b.l1 && a.rows[i] != b.l2)
  }

  ghost predicate TiesFit(diag: seq<nat>, ties: seq<Tie>)
  {
    && (forall b :: 0 <= b < |ties| ==> ties[b].Ok(|diag|) && ties[b].HasPlaces(diag))
    && (forall a, b :: 0 <= a < b < |ties| ==> Apart(ties[a], ties[b]))
  }

  lemma OthersKept(diag: seq<nat>, c: seq<real>, c': seq<real>, a: Tie, b: Tie, alpha: real, v: seq<real>)
    requires Apart(a, b) && OnlyTied(diag, c, c', b) && |v| == |a.rows|
    ensures Blank(diag, c, a.l1) && Blank(diag, c, a.l2) ==> Blank(diag, c', a.l1) && Blank(diag, c', a.l2)
    ensures MultiplierRows(diag, c, a, alpha, v) ==> MultiplierRows(diag, c', a, alpha, v)
  {
    assert a.l1 !in b.rows && a.l2 !in b.rows;
  }

  lemma ApartBothWays(a: Tie, b: Tie)
    requires Apart(a, b)
    ensures Apart(b, a)
  {
  }

  /** __fem_bc_gsm_compute, alpha and beta given. */
  method ConditionsMatrix(diag: seq<nat>, coef: array<real>, ties: seq<Tie>, alpha: real, beta: real)
    requires IsLayout(diag) && coef.Length == Stored(diag) && TiesFit(diag, ties)
    requires forall b :: 0 <= b < |ties| ==> Blank(diag, coef[..], ties[b].l1) && Blank(diag, coef[..], ties[b].l2)
    modifies coef
    ensures forall b :: 0 <= b < |ties| ==>
              ties[b].Ok(|diag|) && MultiplierRows(diag, coef[..], ties[b], alpha, Scaled(beta, ties[b].coefs))
    ensures forall r, k :: (forall b :: 0 <= b < |ties| ==> r != ties[b].l1 && r != ties[b].l2)
                           && (forall b :: 0 <= b < |ties| ==> k != ties[b].l1 && k != ties[b].l2)
                           ==> Sym(diag, coef[..], r, k) == Sym(diag, old(coef[..]), r, k)
  {
    var b := 0;
    while b < |ties|
      invariant 0 <= b <= |ties|
      invariant forall a :: 0 <= a < b ==>
                  ties[a].Ok(|diag|) && MultiplierRows(diag, coef[..], ties[a], alpha, Scaled(beta, ties[a].coefs))
      invariant forall a :: b <= a < |ties| ==> Blank(diag, coef[..], ties[a].l1) && Blank(diag, coef[..], ties[a].l2)
      invariant forall r, k :: (forall a :: 0 <= a < |ties| ==> r != ties[a].l1 && r != ties[a].l2)
                               && (forall a :: 0 <= a < |ties| ==> k != ties[a].l1 && k != ties[a].l2)
                               ==> Sym(diag, coef[..], r, k) == Sym(diag, old(coef[..]), r, k)
    {
      ghost var c := coef[..];
      ConditionMatrix(diag, coef, ties[b], alpha, beta);
      forall a | 0 <= a < |ties| && a != b
        ensures Blank(diag, c, ties[a].l1) && Blank(diag, c, ties[a].l2) ==>
                  Blank(diag, coef[..], ties[a].l1) && Blank(diag, coef[..], ties[a].l2)
        ensures ties[a].Ok(|diag|)
        ensures MultiplierRows(diag, c, ties[a], alpha, Scaled(beta, ties[a].coefs)) ==>
                  MultiplierRows(diag, coef[..], ties[a], alpha, Scaled(beta, ties[a].coefs))
      {
        if b < a {
          ApartBothWays(ties[b], ties[a]);
        }
        OthersKept(diag, c, coef[..], ties[a], ties[b], alpha, Scaled(beta, ties[a].coefs));
      }
      b := b + 1;
    }
  }

  /** A diagonal coefficient that bc_gsm_alpha looks at. */
  predicate Counts(x: real, dblEpsilon: real)
  {
    (if x < 0.0 then -x else x) > dblEpsilon
  }

  /** x is one of the first n diagonal coefficients that count. */
  ghost predicate IsCounted(diag: seq<nat>, c: seq<real>, n: int, x: real, dblEpsilon: real)
  {
    exists i :: 0 <= i < n && Counts(Sym(diag, c, i, i), dblEpsilon) && Sym(diag, c, i, i) == x
  }

  /** bc_gsm_alpha: half way between the largest and the smallest diagonal coefficient that counts. */
  method Alpha(diag: seq<nat>, coef: array<real>, dblEpsilon: real) returns (alpha: real, max: real, min: real)
    requires IsLayout(diag) && coef.Length == Stored(diag)
    ensures alpha == (max + min) / 2.0
    ensures (forall i :: 0 <= i < |diag| ==> !Counts(Sym(diag, coef[..], i, i), dblEpsilon)) ==> max == min == 1.0
    ensures (exists i :: 0 <= i < |diag| && Counts(Sym(diag, coef[..], i, i), dblEpsilon)) ==>
              && IsCounted(diag, coef[..], |diag|, max, dblEpsilon)
              && IsCounted(diag, coef[..], |diag|, min, dblEpsilon)
              && forall i :: 0 <= i < |diag| && Counts(Sym(diag, coef[..], i, i), dblEpsilon) ==>
                   min <= Sym(diag, coef[..], i, i) <= max
    ensures dblEpsilon >= 0.0 && (forall i :: 0 <= i < |diag| ==> Sym(diag, coef[..], i, i) >= 0.0) ==> alpha > 0.0
  {
    max, min := 1.0, 1.0;
    var set_ := false;
    var i := 0;
    while i < |diag|
      invariant 0 <= i <= |diag|
      invariant !set_ ==> max == min == 1.0 && forall k :: 0 <= k < i ==> !Counts(Sym(diag, coef[..], k, k), dblEpsilon)
      invariant set_ ==>
                  && IsCounted(diag, coef[..], i, max, dblEpsilon)
                  && IsCounted(diag, coef[..], i, min, dblEpsilon)
                  && forall k :: 0 <= k < i && Counts(Sym(diag, coef[..], k, k), dblEpsilon) ==>
                       min <= Sym(diag, coef[..], k, k) <= max
    {
      ReadEntry(0.0, diag, coef[..], i, i);
      var kii := coef[diag[i]];
      assert kii == Sym(diag, coef[..], i, i);
      if Counts(kii, dblEpsilon) {
        if set_ {
          if kii > max {
            max := kii;
          }
          if kii < min {
            min := kii;
          }
        } else {
          max, min, set_ := kii, kii, true;
        }
      }
      i := i + 1;
    }
    alpha := (max + min) / 2.0;
  }

  /** The diagonal 1, -1: alpha is zero. */
  method AlphaCancels() returns (alpha: real)
    ensures alpha == 0.0
  {
    var diag := [0, 1];
    var coef := new real[2](k => if k == 0 then 1.0 else -1.0);
    assert Sym(diag, coef[..], 0, 0) == 1.0 && Sym(diag, coef[..], 1, 1) == -1.0;
    assert Counts(Sym(diag, coef[..], 0, 0), 0.5) && Counts(Sym(diag, coef[..], 1, 1), 0.5);
    var max, min;
    alpha, max, min := Alpha(diag, coef, 0.5);
    assert min <= Sym(diag, coef[..], 0, 0) <= max && min <= Sym(diag, coef[..], 1, 1) <= max;
  }

  /** bc_loading_compute. */
  method ConditionLoad(b: array<real>, tie: Tie, load: real)
    requires tie.Ok(b.Length)
    modifies b
    ensures forall i :: 0 <= i < b.Length ==> b[i] == old(b[i]) + if i == tie.l1 || i == tie.l2 then load else 0.0
  {
    b[tie.l1] := b[tie.l1] + load;
    b[tie.l2] := b[tie.l2] + load;
  }

  /** __fem_bc_vector, on a vector of zeros. */
  method ConditionsVector(b: array<real>, diag: seq<nat>, ties: seq<Tie>, values: seq<real>, beta: real)
    requires b.Length == |diag| && TiesFit(diag, ties) && |values| == |ties|
    requires forall i :: 0 <= i < b.Length ==> b[i] == 0.0
    modifies b
    ensures forall k :: 0 <= k < |ties| ==>
              ties[k].Ok(b.Length) && b[ties[k].l1] == b[ties[k].l2] == Product(beta, values[k])
    ensures forall i :: 0 <= i < b.Length && (forall k :: 0 <= k < |ties| ==> i != ties[k].l1 && i != ties[k].l2) ==>
              b[i] == 0.0
  {
    var n := 0;
    while n < |ties|
      invariant 0 <= n <= |ties|
      invariant forall k :: 0 <= k < n ==>
                  ties[k].Ok(b.Length) && b[ties[k].l1] == b[ties[k].l2] == Product(beta, values[k])
      invariant forall k :: n <= k < |ties| ==> ties[k].Ok(b.Length) && b[ties[k].l1] == b[ties[k].l2] == 0.0
      invariant forall i ::
                  0 <= i < b.Length && (forall k :: 0 <= k < |ties| ==> i != ties[k].l1 && i != ties[k].l2) ==>
                    b[i] == 0.0
    {
      forall k | 0 <= k < |ties| && k != n
        ensures ties[k].l1 != ties[n].l1 && ties[k].l1 != ties[n].l2 && ties[k].l2 != ties[n].l1
                && ties[k].l2 != ties[n].l2
      {
        if k < n {
          assert Apart(ties[k], ties[n]);
        } else {
          assert Apart(ties[n], ties[k]);
        }
      }
      ConditionLoad(b, ties[n], Product(beta, values[n]));
      n := n + 1;
    }
  }

  /** Whatever the elements, the coefficients and the loads on other unknowns, the right-hand sides of the multipliers
      of a condition say what a solution of the system does to what is kept of it, provided bc_gsm_alpha is not zero;
      to the condition as it is written they do so up to the terms overwritten. */
  lemma SolutionMeetsConditionIff(diag: seq<nat>, c: seq<real>, tie: Tie, alpha: real, beta: real, x: Vec, r1: real,
                                  r2: real, value: real)
    requires tie.Ok(|diag|) && alpha != 0.0 && beta != 0.0
    requires MultiplierRows(diag, c, tie, alpha, Scaled(beta, tie.coefs))
    requires Times(SymOf(diag, c), x, |diag|, tie.l1) == r1 && Times(SymOf(diag, c), x, |diag|, tie.l2) == r2
    ensures tie.Imposed(x) == value <==> r1 + r2 == 2.0 * Product(beta, value)
    ensures tie.Written(x) == value <==> r1 + r2 + 2.0 * Product(beta, tie.Overwritten(x)) == 2.0 * Product(beta, value)
  {
    ConditionSum(SymOf(diag, c), x, tie, Scaled(beta, tie.coefs), |diag|, alpha, beta, r1, r2);
    KeptAndLost(tie.coefs, tie.rows, x);
    SameProducts(beta, tie.Imposed(x), value);
    SameProducts(beta, tie.Written(x), value);
    ProductOfSum(beta, tie.Imposed(x), tie.Overwritten(x), tie.Written(x));
  }

  lemma SameProducts(b: real, u: real, v: real)
    requires b != 0.0
    ensures Product(b, u) == Product(b, v) <==> u == v
  {
    if Product(b, u) == Product(b, v) {
      Cancel(b, u, v);
    }
  }

  lemma ProductOfSum(b: real, u: real, v: real, w: real)
    requires w == u + v
    ensures Product(b, w) == Product(b, u) + Product(b, v)
  {
  }

  /** With alpha zero, hence beta zero, the rows of the multipliers are empty: no condition is imposed. */
  lemma NoAlphaNoCondition(diag: seq<nat>, c: seq<real>, tie: Tie, x: Vec)
    requires tie.Ok(|diag|) && MultiplierRows(diag, c, tie, 0.0, Scaled(0.0, tie.coefs))
    ensures Times(SymOf(diag, c), x, |diag|, tie.l1) == 0.0 == Times(SymOf(diag, c), x, |diag|, tie.l2)
  {
    var m := SymOf(diag, c);
    forall j
      ensures m(tie.l1, j) == 0.0 == m(tie.l2, j)
    {
      if j in tie.rows {
        var i := LastPart(tie.rows, j);
        assert Scaled(0.0, tie.coefs)[i] == 0.0;
      }
    }
    ZeroRow(m, x, |diag|, tie.l1);
    ZeroRow(m, x, |diag|, tie.l2);
  }

  /** The last part on a row. */
  lemma {:induction false} LastPart(rows: seq<nat>, row: int) returns (i: nat)
    requires row in rows
    ensures i < |rows| && rows[i] == row && Last(rows, i, |rows|)
  {
    i := |rows| - 1;
    if rows[i] != row {
      var most := rows[..i];
      assert rows == most + [rows[i]];
      i := LastPart(most, row);
    }
  }

  lemma ZeroRow(m: Mat, x: Vec, n: nat, i: int)
    requires forall j :: 0 <= j < n ==> m(i, j) == 0.0
    ensures Times(m, x, n, i) == 0.0
  {
    forall j | 0 <= j < n
      ensures RowTimes(m, x, i)(j) == 0.0
    {
      ZeroTimes(m(i, j), x(j));
    }
    SumZero(RowTimes(m, x, i), 0, n);
  }
}
