/** The eigen base of eigen.c: inverse iteration with deflation. Convergence is left aside; whatever the number
    of turns and whatever they converge to, the vectors returned are orthonormal for the mass matrix. */
module Eigen {
  import opened Options
  import opened RealSum
  import opened Matrices
  import opened Skyline
  import opened Ldlt
  import opened Solver
  import opened Solve
  import opened VectorDot
  import opened FemSolver

  function FormTerms(m: Mat, u: Vec, v: Vec, n: int): Vec
  {
    i => u(i) * Times(m, v, n, i)
  }

  /** u . m.v */
  function Form(m: Mat, u: Vec, v: Vec, n: int): real
  {
    Sum(FormTerms(m, u, v, n), 0, n)
  }

  ghost predicate Symmetric(m: Mat, n: int)
  {
    forall i, j :: 0 <= i < n && 0 <= j < n ==> m(i, j) == m(j, i)
  }

  /** w is u minus c times v. */
  ghost predicate Minus(w: Vec, u: Vec, c: real, v: Vec, n: int)
  {
    forall k :: 0 <= k < n ==> w(k) == u(k) - c * v(k)
  }

  lemma {:induction false} SumMinus(f: Vec, g: Vec, c: real, h: Vec, n: int)
    requires forall k :: 0 <= k < n ==> h(k) == f(k) - c * g(k)
    ensures Sum(h, 0, n) == Sum(f, 0, n) - c * Sum(g, 0, n)
    decreases n
  {
    if n > 0 {
      SumMinus(f, g, c, h, n - 1);
    }
  }

  lemma TimesMinus(m: Mat, w: Vec, u: Vec, c: real, v: Vec, n: int, i: int)
    requires Minus(w, u, c, v, n)
    ensures Times(m, w, n, i) == Times(m, u, n, i) - c * Times(m, v, n, i)
  {
    forall k | 0 <= k < n
      ensures RowTimes(m, w, i)(k) == RowTimes(m, u, i)(k) - c * RowTimes(m, v, i)(k)
    {
      Distribute(m(i, k), u(k), c, v(k), w(k));
    }
    SumMinus(RowTimes(m, u, i), RowTimes(m, v, i), c, RowTimes(m, w, i), n);
  }

  lemma Distribute(x: real, u: real, c: real, v: real, w: real)
    requires w == u - c * v
    ensures x * w == x * u - c * (x * v)
  {
    assert x * (c * v) == c * (x * v);
  }

  /** The form is linear in its second argument. */
  lemma FormMinus(m: Mat, x: Vec, w: Vec, u: Vec, c: real, v: Vec, n: int)
    requires Minus(w, u, c, v, n)
    ensures Form(m, x, w, n) == Form(m, x, u, n) - c * Form(m, x, v, n)
  {
    forall i | 0 <= i < n
      ensures FormTerms(m, x, w, n)(i) == FormTerms(m, x, u, n)(i) - c * FormTerms(m, x, v, n)(i)
    {
      TimesMinus(m, w, u, c, v, n, i);
      Distribute(x(i), Times(m, u, n, i), c, Times(m, v, n, i), Times(m, w, n, i));
    }
    SumMinus(FormTerms(m, x, u, n), FormTerms(m, x, v, n), c, FormTerms(m, x, w, n), n);
  }

  lemma PullIn(u: Vec, m: Mat, v: Vec, n: int, i: int)
    ensures Sum(j => u(i) * RowTimes(m, v, i)(j), 0, n) == FormTerms(m, u, v, n)(i)
  {
    SumScale(u(i), RowTimes(m, v, i), j => u(i) * RowTimes(m, v, i)(j), 0, n);
  }

  lemma PullInTransposed(u: Vec, m: Mat, v: Vec, n: int, j: int)
    requires Symmetric(m, n) && 0 <= j < n
    ensures Sum(i => u(i) * RowTimes(m, v, i)(j), 0, n) == FormTerms(m, v, u, n)(j)
  {
    forall i | 0 <= i < n
      ensures u(i) * RowTimes(m, v, i)(j) == v(j) * RowTimes(m, u, j)(i)
    {
      var x, y, z := u(i), m(i, j), v(j);
      assert m(j, i) == y;
      assert x * (y * z) == z * (y * x);
    }
    SumCong(i => u(i) * RowTimes(m, v, i)(j), i => v(j) * RowTimes(m, u, j)(i), 0, n);
    PullIn(v, m, u, n, j);
  }

  /** The form of a symmetric matrix is symmetric. */
  lemma FormSymmetric(m: Mat, u: Vec, v: Vec, n: int)
    requires Symmetric(m, n)
    ensures Form(m, u, v, n) == Form(m, v, u, n)
  {
    var f := (i: int, j: int) => u(i) * RowTimes(m, v, i)(j);
    forall i | 0 <= i < n
      ensures Sum(j => f(i, j), 0, n) == FormTerms(m, u, v, n)(i)
    {
      PullIn(u, m, v, n, i);
      SumCong(j => f(i, j), j => u(i) * RowTimes(m, v, i)(j), 0, n);
    }
    forall j | 0 <= j < n
      ensures Sum(i => f(i, j), 0, n) == FormTerms(m, v, u, n)(j)
    {
      PullInTransposed(u, m, v, n, j);
      SumCong(i => f(i, j), i => u(i) * RowTimes(m, v, i)(j), 0, n);
    }
    SumBothWays(f, FormTerms(m, u, v, n), FormTerms(m, v, u, n), n);
  }

  /** The vectors are orthonormal for m. */
  ghost predicate Orthonormal(m: Mat, vs: seq<seq<real>>, n: int)
  {
    forall i, j :: 0 <= i < |vs| && 0 <= j < |vs| ==>
      Form(m, VecOf(vs[i]), VecOf(vs[j]), n) == if i == j then 1.0 else 0.0
  }

  /** u has lost its components along the first i vectors and kept the others. */
  ghost predicate Deflated(m: Mat, vs: seq<seq<real>>, i: int, u0: seq<real>, u: seq<real>, n: int)
  {
    forall j :: 0 <= j < |vs| ==>
      Form(m, VecOf(vs[j]), VecOf(u), n) == if j < i then 0.0 else Form(m, VecOf(vs[j]), VecOf(u0), n)
  }

  lemma DeflateStep(m: Mat, vs: seq<seq<real>>, i: int, u0: seq<real>, u: seq<real>, w: seq<real>, c: real, n: int)
    requires Orthonormal(m, vs, n) && 0 <= i < |vs|
    requires Deflated(m, vs, i, u0, u, n)
    requires c == Form(m, VecOf(vs[i]), VecOf(u0), n)
    requires Minus(VecOf(w), VecOf(u), c, VecOf(vs[i]), n)
    ensures Deflated(m, vs, i + 1, u0, w, n)
  {
    forall j | 0 <= j < |vs|
      ensures Form(m, VecOf(vs[j]), VecOf(w), n)
              == if j < i + 1 then 0.0 else Form(m, VecOf(vs[j]), VecOf(u0), n)
    {
      FormMinus(m, VecOf(vs[j]), VecOf(w), VecOf(u), c, VecOf(vs[i]), n);
      assert Form(m, VecOf(vs[j]), VecOf(vs[i]), n) == if i == j then 1.0 else 0.0;
    }
  }

  /** k-th coordinate of the components of u0 along the first i vectors. */
  function Components(m: Mat, vs: seq<seq<real>>, i: nat, u0: seq<real>, n: int, k: int): real
    requires i <= |vs|
  {
    if i == 0 then 0.0
    else Components(m, vs, i - 1, u0, n, k) + Form(m, VecOf(vs[i - 1]), VecOf(u0), n) * Coord(vs[i - 1], k)
  }

  /** u is u0 without its components along the first i vectors. */
  ghost predicate Projected(m: Mat, vs: seq<seq<real>>, i: nat, u0: seq<real>, u: seq<real>, n: int)
    requires i <= |vs|
  {
    forall k :: 0 <= k < n ==> Coord(u, k) == Coord(u0, k) - Components(m, vs, i, u0, n, k)
  }

  lemma ProjectStep(m: Mat, vs: seq<seq<real>>, i: nat, u0: seq<real>, u: seq<real>, w: seq<real>, c: real, n: int)
    requires i < |vs| && Projected(m, vs, i, u0, u, n) && c == Form(m, VecOf(vs[i]), VecOf(u0), n)
    requires Minus(VecOf(w), VecOf(u), c, VecOf(vs[i]), n)
    ensures Projected(m, vs, i + 1, u0, w, n)
  {
    forall k | 0 <= k < n
      ensures Coord(w, k) == Coord(u0, k) - Components(m, vs, i + 1, u0, n, k)
    {
      assert VecOf(w)(k) == VecOf(u)(k) - c * VecOf(vs[i])(k);
    }
  }

  /** A scalar product with m.u is a value of the form. */
  lemma DotIsForm(m: Mat, mu: seq<real>, u: seq<real>, v: seq<real>)
    requires |mu| == |v| && forall i :: 0 <= i < |mu| ==> mu[i] == Times(m, VecOf(u), |mu|, i)
    ensures Dot(mu, v) == Form(m, VecOf(v), VecOf(u), |mu|)
    ensures Dot(v, mu) == Form(m, VecOf(v), VecOf(u), |mu|)
  {
    SumCong(Products(mu, v), FormTerms(m, VecOf(v), VecOf(u), |mu|), 0, |mu|);
    SumCong(Products(v, mu), FormTerms(m, VecOf(v), VecOf(u), |mu|), 0, |mu|);
  }

  /** eigen_ortho_sub. */
  method OrthoSub(u: array<real>, a: real, v: seq<real>)
    requires u.Length == |v|
    modifies u
    ensures Minus(VecOf(u[..]), VecOf(old(u[..])), a, VecOf(v), |v|)
  {
    var i := 0;
    while i < u.Length
      invariant 0 <= i <= u.Length
      invariant forall k :: 0 <= k < i ==> u[k] == old(u[k]) - a * v[k]
      invariant forall k :: i <= k < u.Length ==> u[k] == old(u[k])
    {
      u[i] := u[i] - a * v[i];
      i := i + 1;
    }
  }

  /** eigen_ortho: u loses its components along the vectors found so far. */
  method Ortho(vs: seq<seq<real>>, u: array<real>, mu: array<real>, ghost m: Mat)
    requires u != mu && u.Length == mu.Length
    requires forall i :: 0 <= i < |vs| ==> |vs[i]| == u.Length
    requires Orthonormal(m, vs, u.Length)
    requires forall i :: 0 <= i < mu.Length ==> mu[i] == Times(m, VecOf(u[..]), u.Length, i)
    modifies u
    ensures forall j :: 0 <= j < |vs| ==> Form(m, VecOf(vs[j]), VecOf(u[..]), u.Length) == 0.0
    ensures Projected(m, vs, |vs|, old(u[..]), u[..], u.Length)
  {
    ghost var u0, mus := u[..], mu[..];
    var i := 0;
    while i < |vs|
      invariant 0 <= i <= |vs| && mu[..] == mus
      invariant Deflated(m, vs, i, u0, u[..], u.Length) && Projected(m, vs, i, u0, u[..], u.Length)
    {
      ghost var before := u[..];
      DotIsForm(m, mus, u0, vs[i]);
      var c := VectorDotN(mu[..], vs[i]);
      OrthoSub(u, c, vs[i]);
      DeflateStep(m, vs, i, u0, before, u[..], c, u.Length);
      ProjectStep(m, vs, i, u0, before, u[..], c, u.Length);
      i := i + 1;
    }
  }

  /** __fem_vector_div. */
  method VectorDiv(v: array<real>, alpha: real)
    requires alpha != 0.0
    modifies v
    ensures forall k :: 0 <= k < v.Length ==> v[k] * alpha == old(v[k])
  {
    var i := 0;
    while i < v.Length
      invariant 0 <= i <= v.Length
      invariant forall k :: 0 <= k < i ==> v[k] * alpha == old(v[k])
      invariant forall k :: i <= k < v.Length ==> v[k] == old(v[k])
    {
      v[i] := v[i] / alpha;
      i := i + 1;
    }
  }

  lemma FormScaled(m: Mat, x: Vec, u: Vec, alpha: real, w: Vec, n: int)
    requires forall k :: 0 <= k < n ==> w(k) * alpha == u(k)
    ensures Form(m, x, u, n) == alpha * Form(m, x, w, n)
  {
    forall i | 0 <= i < n
      ensures FormTerms(m, x, u, n)(i) == alpha * FormTerms(m, x, w, n)(i)
    {
      TimesScaled(m, u, alpha, w, n, i);
      Swap(x(i), alpha, Times(m, w, n, i), Times(m, u, n, i));
    }
    SumScale(alpha, FormTerms(m, x, w, n), FormTerms(m, x, u, n), 0, n);
  }

  lemma TimesScaled(m: Mat, u: Vec, alpha: real, w: Vec, n: int, i: int)
    requires forall k :: 0 <= k < n ==> w(k) * alpha == u(k)
    ensures Times(m, u, n, i) == alpha * Times(m, w, n, i)
  {
    forall k | 0 <= k < n
      ensures RowTimes(m, u, i)(k) == alpha * RowTimes(m, w, i)(k)
    {
      Swap(m(i, k), alpha, w(k), u(k));
    }
    SumScale(alpha, RowTimes(m, w, i), RowTimes(m, u, i), 0, n);
  }

  lemma Swap(x: real, alpha: real, y: real, z: real)
    requires z == y * alpha || z == alpha * y
    ensures x * z == alpha * (x * y)
  {
    assert x * (alpha * y) == alpha * (x * y);
  }

  /** u is orthogonal to every vector found so far, and u . m.u is a. */
  ghost predicate Deflation(m: Mat, vs: seq<seq<real>>, u: seq<real>, a: real, n: int)
  {
    && (forall j :: 0 <= j < |vs| ==> Form(m, VecOf(vs[j]), VecOf(u), n) == 0.0)
    && Form(m, VecOf(u), VecOf(u), n) == a
  }

  /** Dividing by the square root of a completes the base. */
  lemma NormalisedExtends(m: Mat, vs: seq<seq<real>>, u: seq<real>, w: seq<real>, a: real, root: real, n: int)
    requires Symmetric(m, n) && Orthonormal(m, vs, n) && Deflation(m, vs, u, a, n)
    requires a > 0.0 && root > 0.0 && root * root == a
    requires forall k :: 0 <= k < n ==> Coord(w, k) * root == Coord(u, k)
    ensures Orthonormal(m, vs + [w], n)
  {
    var all := vs + [w];
    forall j | 0 <= j < |vs|
      ensures Form(m, VecOf(vs[j]), VecOf(w), n) == 0.0 && Form(m, VecOf(w), VecOf(vs[j]), n) == 0.0
    {
      FormScaled(m, VecOf(vs[j]), VecOf(u), root, VecOf(w), n);
      FormSymmetric(m, VecOf(vs[j]), VecOf(w), n);
    }
    NormIsOne(m, u, w, a, root, n);
    forall i, j | 0 <= i < |all| && 0 <= j < |all|
      ensures Form(m, VecOf(all[i]), VecOf(all[j]), n) == if i == j then 1.0 else 0.0
    {
    }
  }

  lemma NormIsOne(m: Mat, u: seq<real>, w: seq<real>, a: real, root: real, n: int)
    requires Symmetric(m, n) && Form(m, VecOf(u), VecOf(u), n) == a
    requires a > 0.0 && root > 0.0 && root * root == a
    requires forall k :: 0 <= k < n ==> Coord(w, k) * root == Coord(u, k)
    ensures Form(m, VecOf(w), VecOf(w), n) == 1.0
  {
    FormScaled(m, VecOf(u), VecOf(u), root, VecOf(w), n);
    FormSymmetric(m, VecOf(u), VecOf(w), n);
    FormScaled(m, VecOf(w), VecOf(u), root, VecOf(w), n);
    UnitSquare(root, a, Form(m, VecOf(w), VecOf(w), n));
  }

  lemma UnitSquare(root: real, a: real, x: real)
    requires a > 0.0 && root * root == a && a == root * (root * x)
    ensures x == 1.0
  {
    assert root * (root * x) == a * x;
    assert a * (x - 1.0) == 0.0;
  }

  /** The operands of one call: the factorised stiffness, the mass matrix, and the work vectors. */
  ghost predicate Operands(K: Matrix<real>, diagM: seq<nat>, coefM: array<real>,
                           u: array<real>, f: array<real>, mu: array<real>)
    reads K, K.coef, coefM, u, f, mu
  {
    && K.Valid() && FactorsStored(K.diag, K.coef[..])
    && IsLayout(diagM) && coefM.Length == Stored(diagM) && |diagM| == |K.diag|
    && u.Length == f.Length == mu.Length == |diagM|
    && u != f && u != mu && f != mu
    && coefM != u && coefM != f && coefM != mu && K.coef != u && K.coef != f && K.coef != mu
  }

  /** The stiffness, as its factors represent it. */
  function Stiffness(diag: seq<nat>, c: seq<real>): Mat
  {
    TripleProduct(LowerOf(diag, c), PivotsOf(diag, c), |diag|)
  }

  /** One inverse iteration from g: w solves the system for g, u is w without its components along the vectors found so
      far, and rate is u . g. */
  ghost predicate Iterate(k: Mat, m: Mat, vs: seq<seq<real>>, g: seq<real>, w: seq<real>, u: seq<real>, rate: real,
                          n: int)
  {
    && |g| == |w| == |u| == n
    && (forall i :: 0 <= i < n ==> Times(k, VecOf(w), n, i) == g[i])
    && Projected(m, vs, |vs|, w, u, n)
    && rate == Dot(u, g)
  }

  /** One turn: its right-hand side, the solution, the deflated solution u, their rate, and the root of u . M.u. */
  datatype Pass = Pass(g: seq<real>, w: seq<real>, u: seq<real>, rate: real, root: real)

  /** g times c is m.u. */
  ghost predicate Quotients(m: Mat, u: seq<real>, c: real, g: seq<real>, n: int)
  {
    |g| == n && forall i :: 0 <= i < n ==> g[i] * c == Times(m, VecOf(u), n, i)
  }

  ghost predicate IsRoot(m: Mat, p: Pass, n: int)
  {
    p.root > 0.0 && p.root * p.root == Form(m, VecOf(p.u), VecOf(p.u), n)
  }

  ghost predicate IsPass(k: Mat, m: Mat, vs: seq<seq<real>>, p: Pass, n: int)
  {
    Iterate(k, m, vs, p.g, p.w, p.u, p.rate, n)
  }

  /** Inverse iteration from `initial`: the first right-hand side is m.initial, every other one is m.u for the u of the
      turn before, divided by the root of u . m.u. */
  ghost predicate Chain(k: Mat, m: Mat, vs: seq<seq<real>>, initial: seq<real>, ps: seq<Pass>, n: int)
  {
    && |ps| > 0 && Quotients(m, initial, 1.0, ps[0].g, n)
    && (forall t :: 0 <= t < |ps| ==> IsPass(k, m, vs, ps[t], n))
    && (forall t :: 0 <= t < |ps| - 1 ==> IsRoot(m, ps[t], n))
    && (forall t :: 1 <= t < |ps| ==> Quotients(m, ps[t - 1].u, ps[t - 1].root, ps[t].g, n))
  }

  lemma ChainGrows(k: Mat, m: Mat, vs: seq<seq<real>>, initial: seq<real>, ps: seq<Pass>, root: real, p: Pass, n: int)
    requires Chain(k, m, vs, initial, ps, n) && IsPass(k, m, vs, p, n)
    requires IsRoot(m, ps[|ps| - 1].(root := root), n) && Quotients(m, ps[|ps| - 1].u, root, p.g, n)
    ensures Chain(k, m, vs, initial, Rooted(ps, root) + [p], n)
  {
  }

  /** ps with its last root. */
  ghost function Rooted(ps: seq<Pass>, root: real): seq<Pass>
    requires |ps| > 0
  {
    ps[|ps| - 1 := ps[|ps| - 1].(root := root)]
  }

  /** One turn of the loop of eigen_solve_one, without the final scaling of f. */
  method Turn(vs: seq<seq<real>>, K: Matrix<real>, diagM: seq<nat>, coefM: array<real>,
              u: array<real>, f: array<real>, mu: array<real>) returns (a: real, l1: real, ghost w: seq<real>)
    requires Operands(K, diagM, coefM, u, f, mu)
    requires forall i :: 0 <= i < |vs| ==> |vs[i]| == |diagM|
    requires Orthonormal(SymOf(diagM, coefM[..]), vs, |diagM|)
    modifies u, f, mu
    ensures Operands(K, diagM, coefM, u, f, mu) && coefM[..] == old(coefM[..])
    ensures Deflation(SymOf(diagM, coefM[..]), vs, u[..], a, |diagM|)
    ensures Iterate(Stiffness(K.diag, K.coef[..]), SymOf(diagM, coefM[..]), vs, old(f[..]), w, u[..], l1, |diagM|)
    ensures forall i :: 0 <= i < f.Length ==> f[i] == Times(SymOf(diagM, coefM[..]), VecOf(u[..]), |diagM|, i)
  {
    ghost var m := SymOf(diagM, coefM[..]);
    CopyInto(u, f);
    Invert(K.diag, K.coef, u);
    w := u[..];
    MatrixVector(diagM, coefM, u, mu);
    Ortho(vs, u, mu, m);
    l1 := VectorDotN(u[..], f[..]);
    MatrixVector(diagM, coefM, u, f);
    DotIsForm(m, f[..], u[..], u[..]);
    a := VectorDotN(u[..], f[..]);
  }

  /** __fem_vector_copy. */
  method CopyInto(v: array<real>, u: array<real>)
    requires u != v && u.Length == v.Length
    modifies v
    ensures v[..] == u[..]
  {
    var i := 0;
    while i < v.Length
      invariant 0 <= i <= v.Length
      invariant forall k :: 0 <= k < i ==> v[k] == u[k]
    {
      v[i] := u[i];
      i := i + 1;
    }
  }

  lemma SymIsSymmetric(diag: seq<nat>, c: seq<real>)
    ensures Symmetric(SymOf(diag, c), |diag|)
  {
  }

  /** u . g for g the product of a matrix with u. */
  lemma DotIsSelfForm(k: Mat, g: seq<real>, u: seq<real>, n: int)
    requires |g| == |u| == n && forall i :: 0 <= i < n ==> Times(k, VecOf(u), n, i) == g[i]
    ensures Dot(u, g) == Form(k, VecOf(u), VecOf(u), n)
  {
    SumCong(Products(u, g), FormTerms(k, VecOf(u), VecOf(u), n), 0, n);
  }

  /** Without vectors to project out, the value computed is the Rayleigh quotient of the vector. */
  lemma RateIsRayleigh(k: Mat, m: Mat, g: seq<real>, w: seq<real>, u: seq<real>, rate: real, n: int)
    requires Iterate(k, m, [], g, w, u, rate, n)
    ensures rate == Form(k, VecOf(u), VecOf(u), n)
  {
    assert forall i :: 0 <= i < n ==> u[i] == Coord(u, i) == Coord(w, i) == w[i];
    assert u == w;
    DotIsSelfForm(k, g, u, n);
  }

  /** No vector found so far has a component in g. */
  ghost predicate Perpendicular(vs: seq<seq<real>>, g: seq<real>)
  {
    forall j :: 0 <= j < |vs| ==> Dot(vs[j], g) == 0.0
  }

  /** The right-hand side of every turn but the first is the mass matrix times a deflated vector. */
  lemma NextIsPerpendicular(m: Mat, vs: seq<seq<real>>, u: seq<real>, a: real, f: seq<real>, g: seq<real>,
                            root: real, n: int)
    requires Deflation(m, vs, u, a, n) && root != 0.0 && |f| == |g| == n && forall j :: 0 <= j < |vs| ==> |vs[j]| == n
    requires forall i :: 0 <= i < n ==> f[i] == Times(m, VecOf(u), n, i)
    requires forall i :: 0 <= i < n ==> g[i] * root == f[i]
    ensures Perpendicular(vs, g)
  {
    forall j | 0 <= j < |vs|
      ensures Dot(vs[j], g) == 0.0
    {
      DotIsForm(m, f, u, vs[j]);
      DotScaled(vs[j], f, g, root);
      NoFactorOfZero(root, Dot(vs[j], g));
    }
  }

  lemma DotScaled(v: seq<real>, f: seq<real>, g: seq<real>, root: real)
    requires |v| == |f| == |g| && forall i :: 0 <= i < |g| ==> g[i] * root == f[i]
    ensures Dot(v, f) == root * Dot(v, g)
  {
    forall k | 0 <= k < |v|
      ensures Products(v, f)(k) == root * Products(v, g)(k)
    {
      Swap(v[k], root, g[k], f[k]);
    }
    SumScale(root, Products(v, g), Products(v, f), 0, |v|);
  }

  lemma NoFactorOfZero(x: real, y: real)
    requires x != 0.0 && x * y == 0.0
    ensures y == 0.0
  {
  }

  /** k |-> coordinate k of u0 without its first i components, times g(k) */
  function Reduced(m: Mat, vs: seq<seq<real>>, i: nat, u0: seq<real>, g: seq<real>, n: int): Vec
    requires i <= |vs|
  {
    k => (Coord(u0, k) - Components(m, vs, i, u0, n, k)) * Coord(g, k)
  }

  /** Taking components out does not change the product with g. */
  lemma {:induction false} ComponentsVanish(m: Mat, vs: seq<seq<real>>, i: nat, u0: seq<real>, g: seq<real>, n: int)
    requires i <= |vs| && |g| == n && Perpendicular(vs, g) && forall j :: 0 <= j < |vs| ==> |vs[j]| == n
    ensures Sum(Reduced(m, vs, i, u0, g, n), 0, n) == Sum(Reduced(m, vs, 0, u0, g, n), 0, n)
  {
    if i > 0 {
      var v, c := vs[i - 1], Form(m, VecOf(vs[i - 1]), VecOf(u0), n);
      var f, h := Reduced(m, vs, i - 1, u0, g, n), Reduced(m, vs, i, u0, g, n);
      ComponentsVanish(m, vs, i - 1, u0, g, n);
      forall k | 0 <= k < n
        ensures h(k) == f(k) - c * Products(v, g)(k)
      {
        OneTermLess(Coord(u0, k) - Components(m, vs, i - 1, u0, n, k), c, Coord(v, k), Coord(g, k));
      }
      SumMinus(f, Products(v, g), c, h, n);
      assert Dot(v, g) == 0.0;
    }
  }

  lemma OneTermLess(x: real, c: real, y: real, z: real)
    ensures (x - c * y) * z == x * z - c * (y * z)
  {
    assert (c * y) * z == c * (y * z);
  }

  /** Then rate is w . K.w, for the solution w before the deflation. */
  lemma RateIsEnergy(k: Mat, m: Mat, vs: seq<seq<real>>, g: seq<real>, w: seq<real>, u: seq<real>, rate: real, n: int)
    requires Iterate(k, m, vs, g, w, u, rate, n) && Perpendicular(vs, g) && forall j :: 0 <= j < |vs| ==> |vs[j]| == n
    ensures rate == Form(k, VecOf(w), VecOf(w), n)
  {
    SumCong(Products(u, g), Reduced(m, vs, |vs|, w, g, n), 0, n);
    ComponentsVanish(m, vs, |vs|, w, g, n);
    SumCong(Products(w, g), Reduced(m, vs, 0, w, g, n), 0, n);
    DotIsSelfForm(k, g, w, n);
  }

  /** eigen_solve_one, for the number of turns the convergence test allows. No vector is returned when some
      computed a is not positive, in which case the program divides by the root of a non-positive number. */
  method SolveOne(vs: seq<seq<real>>, K: Matrix<real>, diagM: seq<nat>, coefM: array<real>,
                  initial: seq<real>, turns: nat, sqrt: real -> real)
    returns (v: Option<seq<real>>, value: real, ghost ps: seq<Pass>)
    requires K.Valid() && FactorsStored(K.diag, K.coef[..])
    requires IsLayout(diagM) && coefM.Length == Stored(diagM) && |diagM| == |K.diag| == |initial|
    requires forall i :: 0 <= i < |vs| ==> |vs[i]| == |diagM|
    requires Orthonormal(SymOf(diagM, coefM[..]), vs, |diagM|)
    requires turns >= 1
    requires forall x :: x > 0.0 ==> sqrt(x) > 0.0 && sqrt(x) * sqrt(x) == x
    ensures coefM[..] == old(coefM[..]) && K.coef[..] == old(K.coef[..])
    ensures Chain(Stiffness(K.diag, K.coef[..]), SymOf(diagM, coefM[..]), vs, initial, ps, |diagM|)
    ensures v.Some? ==> |v.value| == |diagM| && Orthonormal(SymOf(diagM, coefM[..]), vs + [v.value], |diagM|)
    ensures v.Some? ==> |ps| == turns && Ends(Stiffness(K.diag, K.coef[..]), SymOf(diagM, coefM[..]), vs, ps, v.value,
                                              value, |diagM|)
    ensures v.Some? && turns >= 2 ==> Perpendicular(vs, ps[|ps| - 1].g)
    ensures v.None? ==> |ps| <= turns && Vanishes(SymOf(diagM, coefM[..]), ps, |diagM|)
  {
    var x, f, mu := WorkVectors(K, diagM, coefM, initial);
    var found;
    found, value, ps := Improve(vs, K, diagM, coefM, x, f, mu, initial, turns, sqrt);
    v := if found then Some(x[..]) else None;
  }

  /** The last turn gives v and its value. */
  ghost predicate Ends(k: Mat, m: Mat, vs: seq<seq<real>>, ps: seq<Pass>, v: seq<real>, value: real, n: int)
  {
    |ps| > 0 && var p := ps[|ps| - 1]; Found(k, m, vs, v, value, p.g, p.w, p.u, p.root, n)
  }

  /** The last turn has no root to divide by. */
  ghost predicate Vanishes(m: Mat, ps: seq<Pass>, n: int)
  {
    |ps| > 0 && var u := ps[|ps| - 1].u; Form(m, VecOf(u), VecOf(u), n) <= 0.0
  }

  /** eigen_solve_one on its three vectors. */
  method Improve(vs: seq<seq<real>>, K: Matrix<real>, diagM: seq<nat>, coefM: array<real>,
                 x: array<real>, f: array<real>, mu: array<real>, ghost initial: seq<real>, turns: nat,
                 sqrt: real -> real)
    returns (found: bool, value: real, ghost ps: seq<Pass>)
    requires Operands(K, diagM, coefM, x, f, mu) && turns >= 1
    requires Quotients(SymOf(diagM, coefM[..]), initial, 1.0, f[..], |diagM|)
    requires forall i :: 0 <= i < |vs| ==> |vs[i]| == |diagM|
    requires Orthonormal(SymOf(diagM, coefM[..]), vs, |diagM|)
    requires forall x :: x > 0.0 ==> sqrt(x) > 0.0 && sqrt(x) * sqrt(x) == x
    modifies x, f, mu
    ensures coefM[..] == old(coefM[..]) && K.coef[..] == old(K.coef[..])
    ensures Chain(Stiffness(K.diag, K.coef[..]), SymOf(diagM, coefM[..]), vs, initial, ps, |diagM|)
    ensures found ==> Orthonormal(SymOf(diagM, coefM[..]), vs + [x[..]], |diagM|)
    ensures found ==> |ps| == turns && Ends(Stiffness(K.diag, K.coef[..]), SymOf(diagM, coefM[..]), vs, ps, x[..],
                                            value, |diagM|)
    ensures found && turns >= 2 ==> Perpendicular(vs, ps[|ps| - 1].g)
    ensures !found ==> |ps| <= turns && Vanishes(SymOf(diagM, coefM[..]), ps, |diagM|)
  {
    ghost var k, m := Stiffness(K.diag, K.coef[..]), SymOf(diagM, coefM[..]);
    SymIsSymmetric(diagM, coefM[..]);
    var a;
    a, value, ps := Iterations(vs, K, diagM, coefM, x, f, mu, initial, turns, sqrt);
    found := a > 0.0;
    if found {
      ghost var p := ps[|ps| - 1];
      var root := Root(a, sqrt);
      value := Conclude(vs, x, a, root, value, k, m, p.g, p.w);
      ps := Rooted(ps, root);
    }
  }

  /** The vector and value found: v is u divided by the root of a = u . M.u, and value is rate divided by a. */
  ghost predicate Found(k: Mat, m: Mat, vs: seq<seq<real>>, v: seq<real>, value: real, g: seq<real>, w: seq<real>,
                        u: seq<real>, root: real, n: int)
  {
    var a := Form(m, VecOf(u), VecOf(u), n);
    && a > 0.0 && root * root == a && root > 0.0 && IsScaled(v, u, root)
    && Iterate(k, m, vs, g, w, u, value * a, n)
  }

  /** The two last divisions of eigen_solve_one. */
  method Conclude(vs: seq<seq<real>>, x: array<real>, a: real, root: real, l1: real, ghost k: Mat, ghost m: Mat,
                  ghost g: seq<real>, ghost w: seq<real>) returns (value: real)
    requires a > 0.0 && root > 0.0 && root * root == a
    requires Symmetric(m, x.Length) && Orthonormal(m, vs, x.Length) && Deflation(m, vs, x[..], a, x.Length)
    requires Iterate(k, m, vs, g, w, x[..], l1, x.Length)
    modifies x
    ensures Orthonormal(m, vs + [x[..]], x.Length)
    ensures Found(k, m, vs, x[..], value, g, w, old(x[..]), root, x.Length)
  {
    value := Quotient(l1, a);
    Normalise(vs, x, a, root, m);
  }

  /** The vectors of eigen_solve_one: the start, its product with the mass matrix, and room for another product. */
  method WorkVectors(K: Matrix<real>, diagM: seq<nat>, coefM: array<real>, initial: seq<real>)
    returns (x: array<real>, f: array<real>, mu: array<real>)
    requires K.Valid() && FactorsStored(K.diag, K.coef[..])
    requires IsLayout(diagM) && coefM.Length == Stored(diagM) && |diagM| == |K.diag| == |initial|
    ensures fresh(x) && fresh(f) && fresh(mu) && Operands(K, diagM, coefM, x, f, mu)
    ensures x[..] == initial
    ensures forall i :: 0 <= i < f.Length ==> f[i] == Times(SymOf(diagM, coefM[..]), VecOf(initial), |diagM|, i)
  {
    var n := |diagM|;
    x, f, mu := new real[n](k requires 0 <= k < n => initial[k]), new real[n], new real[n];
    assert x[..] == initial;
    MatrixVector(diagM, coefM, x, f);
  }

  /** After the turns ps: x is the last vector, f its product with the mass matrix, a and l1 the numbers computed. */
  ghost predicate Reached(k: Mat, m: Mat, vs: seq<seq<real>>, initial: seq<real>, ps: seq<Pass>, x: seq<real>,
                          f: seq<real>, a: real, l1: real, n: int)
  {
    && Chain(k, m, vs, initial, ps, n) && Deflation(m, vs, x, a, n) && Quotients(m, x, 1.0, f, n)
    && ps[|ps| - 1].u == x && ps[|ps| - 1].rate == l1 && (|ps| > 1 ==> Perpendicular(vs, ps[|ps| - 1].g))
  }

  /** The loop of eigen_solve_one: as many turns as the convergence test allows, unless some a is not positive. */
  method Iterations(vs: seq<seq<real>>, K: Matrix<real>, diagM: seq<nat>, coefM: array<real>,
                    x: array<real>, f: array<real>, mu: array<real>, ghost initial: seq<real>, turns: nat,
                    sqrt: real -> real)
    returns (a: real, l1: real, ghost ps: seq<Pass>)
    requires Operands(K, diagM, coefM, x, f, mu) && turns >= 1
    requires Quotients(SymOf(diagM, coefM[..]), initial, 1.0, f[..], |diagM|)
    requires forall i :: 0 <= i < |vs| ==> |vs[i]| == |diagM|
    requires Orthonormal(SymOf(diagM, coefM[..]), vs, |diagM|)
    requires forall x :: x > 0.0 ==> sqrt(x) > 0.0 && sqrt(x) * sqrt(x) == x
    modifies x, f, mu
    ensures coefM[..] == old(coefM[..]) && K.coef[..] == old(K.coef[..])
    ensures Reached(Stiffness(K.diag, K.coef[..]), SymOf(diagM, coefM[..]), vs, initial, ps, x[..], f[..], a, l1,
                    |diagM|)
    ensures |ps| <= turns && (a > 0.0 ==> |ps| == turns)
  {
    ghost var m, k := SymOf(diagM, coefM[..]), Stiffness(K.diag, K.coef[..]);
    ghost var g, w := f[..], [];
    a, l1, w := Turn(vs, K, diagM, coefM, x, f, mu);
    ps := [Pass(g, w, x[..], l1, 0.0)];
    var t := 1;
    while t < turns && a > 0.0
      invariant 1 <= t == |ps| <= turns
      invariant coefM[..] == old(coefM[..]) && K.coef[..] == old(K.coef[..])
      invariant Reached(k, m, vs, initial, ps, x[..], f[..], a, l1, |diagM|)
    {
      a, l1, ps := NextTurn(vs, K, diagM, coefM, x, f, mu, initial, ps, a, l1, sqrt);
      t := t + 1;
    }
  }

  /** A turn of that loop after another one. */
  method NextTurn(vs: seq<seq<real>>, K: Matrix<real>, diagM: seq<nat>, coefM: array<real>,
                  x: array<real>, f: array<real>, mu: array<real>, ghost initial: seq<real>, ghost ps: seq<Pass>,
                  a: real, ghost l1: real, sqrt: real -> real)
    returns (a': real, l1': real, ghost ps': seq<Pass>)
    requires Operands(K, diagM, coefM, x, f, mu) && a > 0.0
    requires Reached(Stiffness(K.diag, K.coef[..]), SymOf(diagM, coefM[..]), vs, initial, ps, x[..], f[..], a, l1,
                     |diagM|)
    requires forall i :: 0 <= i < |vs| ==> |vs[i]| == |diagM|
    requires Orthonormal(SymOf(diagM, coefM[..]), vs, |diagM|)
    requires forall x :: x > 0.0 ==> sqrt(x) > 0.0 && sqrt(x) * sqrt(x) == x
    modifies x, f, mu
    ensures coefM[..] == old(coefM[..]) && K.coef[..] == old(K.coef[..])
    ensures Reached(Stiffness(K.diag, K.coef[..]), SymOf(diagM, coefM[..]), vs, initial, ps', x[..], f[..], a', l1',
                    |diagM|)
    ensures |ps'| == |ps| + 1
  {
    ghost var m, k := SymOf(diagM, coefM[..]), Stiffness(K.diag, K.coef[..]);
    ghost var u := x[..];
    ghost var root := Rescale(vs, x, f, a, sqrt, m);
    ghost var g, w := f[..], [];
    a', l1', w := Turn(vs, K, diagM, coefM, x, f, mu);
    ghost var p := Pass(g, w, x[..], l1', 0.0);
    ReachedNext(k, m, vs, initial, ps, u, a, root, p, x[..], f[..], a', |diagM|);
    ps' := Rooted(ps, root) + [p];
  }

  lemma ReachedNext(k: Mat, m: Mat, vs: seq<seq<real>>, initial: seq<real>, ps: seq<Pass>, u: seq<real>, a: real,
                    root: real, p: Pass, x: seq<real>, f: seq<real>, a': real, n: int)
    requires Chain(k, m, vs, initial, ps, n) && ps[|ps| - 1].u == u && Deflation(m, vs, u, a, n)
    requires root > 0.0 && root * root == a && Quotients(m, u, root, p.g, n) && Perpendicular(vs, p.g)
    requires IsPass(k, m, vs, p, n) && p.u == x && Deflation(m, vs, x, a', n) && Quotients(m, x, 1.0, f, n)
    ensures Reached(k, m, vs, initial, Rooted(ps, root) + [p], x, f, a', p.rate, n)
  {
    ChainGrows(k, m, vs, initial, ps, root, p, n);
  }

  /** The right-hand side of the next turn. */
  method Rescale(vs: seq<seq<real>>, x: array<real>, f: array<real>, a: real, sqrt: real -> real, ghost m: Mat)
    returns (ghost root: real)
    requires x != f && x.Length == f.Length && a > 0.0 && Deflation(m, vs, x[..], a, x.Length)
    requires forall j :: 0 <= j < |vs| ==> |vs[j]| == x.Length
    requires forall i :: 0 <= i < f.Length ==> f[i] == Times(m, VecOf(x[..]), x.Length, i)
    requires forall x :: x > 0.0 ==> sqrt(x) > 0.0 && sqrt(x) * sqrt(x) == x
    modifies f
    ensures Perpendicular(vs, f[..])
    ensures root > 0.0 && root * root == a && Quotients(m, x[..], root, f[..], x.Length)
  {
    var r := Root(a, sqrt);
    root := r;
    ghost var before := f[..];
    VectorDiv(f, r);
    NextIsPerpendicular(m, vs, x[..], a, before, f[..], root, x.Length);
  }

  method Root(a: real, sqrt: real -> real) returns (root: real)
    requires a > 0.0 && forall x :: x > 0.0 ==> sqrt(x) > 0.0 && sqrt(x) * sqrt(x) == x
    ensures root > 0.0 && root * root == a
  {
    root := sqrt(a);
  }

  method Quotient(x: real, a: real) returns (q: real)
    requires a != 0.0
    ensures q * a == x
  {
    q := x / a;
  }

  /** v is u divided by root. */
  ghost predicate IsScaled(v: seq<real>, u: seq<real>, root: real)
  {
    |v| == |u| && forall k :: 0 <= k < |v| ==> v[k] * root == u[k]
  }

  /** The last division of eigen_solve_one. */
  method Normalise(vs: seq<seq<real>>, u: array<real>, a: real, root: real, ghost m: Mat)
    requires Symmetric(m, u.Length) && Orthonormal(m, vs, u.Length) && Deflation(m, vs, u[..], a, u.Length)
    requires a > 0.0 && root > 0.0 && root * root == a
    modifies u
    ensures Orthonormal(m, vs + [u[..]], u.Length) && IsScaled(u[..], old(u[..]), root)
  {
    ghost var before := u[..];
    VectorDiv(u, root);
    NormalisedExtends(m, vs, before, u[..], a, root, u.Length);
  }

  /** The value that belongs to the first vector is its Rayleigh quotient. */
  lemma FirstValue(k: Mat, m: Mat, v: seq<real>, value: real, g: seq<real>, w: seq<real>, u: seq<real>, root: real,
                   n: int)
    requires |v| == n && Symmetric(k, n) && Found(k, m, [], v, value, g, w, u, root, n)
    ensures value == Form(k, VecOf(v), VecOf(v), n)
  {
    var a := Form(m, VecOf(u), VecOf(u), n);
    RateIsRayleigh(k, m, g, w, u, value * a, n);
    FormScaled(k, VecOf(u), VecOf(u), root, VecOf(v), n);
    FormSymmetric(k, VecOf(u), VecOf(v), n);
    FormScaled(k, VecOf(v), VecOf(u), root, VecOf(v), n);
    SquareOut(root, a, Form(k, VecOf(v), VecOf(v), n), Form(k, VecOf(v), VecOf(u), n), value, value * a);
  }

  /** The value of v: v is u over the root of u . M.u, u is w without its components along the vectors before, and the
      value is w . K.w divided by u . M.u. */
  ghost predicate ValueFrom(k: Mat, m: Mat, vs: seq<seq<real>>, v: seq<real>, value: real, w: seq<real>, u: seq<real>,
                            root: real, n: int)
  {
    && root > 0.0 && root * root == Form(m, VecOf(u), VecOf(u), n) && IsScaled(v, u, root)
    && Projected(m, vs, |vs|, w, u, n)
    && value * Form(m, VecOf(u), VecOf(u), n) == Form(k, VecOf(w), VecOf(w), n)
  }

  ghost predicate IsValue(k: Mat, m: Mat, vs: seq<seq<real>>, v: seq<real>, value: real, n: int)
  {
    exists w, u, root :: ValueFrom(k, m, vs, v, value, w, u, root, n)
  }

  lemma EveryValue(k: Mat, m: Mat, vs: seq<seq<real>>, v: seq<real>, value: real, g: seq<real>, w: seq<real>,
                   u: seq<real>, root: real, n: int)
    requires Found(k, m, vs, v, value, g, w, u, root, n) && Perpendicular(vs, g)
    requires forall j :: 0 <= j < |vs| ==> |vs[j]| == n
    ensures IsValue(k, m, vs, v, value, n)
  {
    RateIsEnergy(k, m, vs, g, w, u, value * Form(m, VecOf(u), VecOf(u), n), n);
    assert ValueFrom(k, m, vs, v, value, w, u, root, n);
  }

  lemma SquareOut(root: real, a: real, x: real, q: real, y: real, p: real)
    requires a > 0.0 && root * root == a && p == y * a && p == root * q && q == root * x
    ensures x == y
  {
    assert root * (root * x) == a * x;
    assert a * (x - y) == 0.0;
  }

  lemma StiffnessSymmetric(diag: seq<nat>, c: seq<real>)
    ensures Symmetric(Stiffness(diag, c), |diag|)
  {
    forall i, j | 0 <= i < |diag| && 0 <= j < |diag|
      ensures Stiffness(diag, c)(i, j) == Stiffness(diag, c)(j, i)
    {
      ProductSymmetric(diag, c, i, j);
    }
  }

  /** (v, value) is what inverse iteration from `initial` arrives at after exactly `turns` turns. */
  ghost predicate After(k: Mat, m: Mat, vs: seq<seq<real>>, initial: seq<real>, turns: nat, v: seq<real>, value: real,
                        n: int)
  {
    exists ps: seq<Pass> :: |ps| == turns && Chain(k, m, vs, initial, ps, n) && Ends(k, m, vs, ps, v, value, n)
                 && (turns >= 2 ==> Perpendicular(vs, ps[|ps| - 1].g))
  }

  /** Every vector is found from its own start with its own number of turns. */
  ghost predicate Iterated(k: Mat, m: Mat, base: seq<seq<real>>, values: seq<real>, initial: seq<seq<real>>,
                           turns: seq<nat>, n: int)
  {
    && |base| == |values| <= |initial| && |base| <= |turns|
    && forall q :: 0 <= q < |base| ==> After(k, m, base[..q], initial[q], turns[q], base[q], values[q], n)
  }

  /** After the vectors of `base`, the next start leads within its number of turns to a u with u . m.u not positive. */
  ghost predicate BreaksDown(k: Mat, m: Mat, base: seq<seq<real>>, initial: seq<seq<real>>, turns: seq<nat>, n: int)
  {
    && |base| < |initial| && |base| < |turns| && Orthonormal(m, base, n)
    && exists ps :: |ps| <= turns[|base|] && Chain(k, m, base, initial[|base|], ps, n) && Vanishes(m, ps, n)
  }

  lemma IteratedGrows(k: Mat, m: Mat, base: seq<seq<real>>, values: seq<real>, initial: seq<seq<real>>,
                      turns: seq<nat>, v: seq<real>, value: real, ps: seq<Pass>, n: int)
    requires Iterated(k, m, base, values, initial, turns, n) && |base| < |initial| && |base| < |turns|
    requires |ps| == turns[|base|] && Chain(k, m, base, initial[|base|], ps, n) && Ends(k, m, base, ps, v, value, n)
    requires |ps| >= 2 ==> Perpendicular(base, ps[|ps| - 1].g)
    ensures Iterated(k, m, base + [v], values + [value], initial, turns, n)
  {
    var all := base + [v];
    assert forall q :: 0 <= q <= |base| ==> all[..q] == base[..q];
    assert base[..|base|] == base;
  }

  /** eigen_solve: `initial` and `turns` stand for the random start and the convergence of each vector. */
  method EigenSolve(K: Matrix<real>, diagM: seq<nat>, coefM: array<real>, req: nat,
                    initial: seq<seq<real>>, turns: seq<nat>, sqrt: real -> real)
    returns (vs: Option<seq<seq<real>>>, values: seq<real>)
    requires K.Valid() && FactorsStored(K.diag, K.coef[..])
    requires IsLayout(diagM) && coefM.Length == Stored(diagM) && |diagM| == |K.diag|
    requires |initial| == |turns| == req
    requires forall i :: 0 <= i < req ==> |initial[i]| == |diagM| && turns[i] >= 1
    requires forall x :: x > 0.0 ==> sqrt(x) > 0.0 && sqrt(x) * sqrt(x) == x
    ensures vs.Some? ==> |vs.value| == |values| == req && Orthonormal(SymOf(diagM, coefM[..]), vs.value, |diagM|)
    ensures vs.Some? && req > 0 ==>
              values[0] == Form(Stiffness(K.diag, K.coef[..]), VecOf(vs.value[0]), VecOf(vs.value[0]), |diagM|)
    ensures vs.Some? ==> forall i :: 0 <= i < req && (i == 0 || turns[i] >= 2) ==>
              IsValue(Stiffness(K.diag, K.coef[..]), SymOf(diagM, coefM[..]), vs.value[..i], vs.value[i], values[i],
                      |diagM|)
    ensures vs.Some? ==>
              Iterated(Stiffness(K.diag, K.coef[..]), SymOf(diagM, coefM[..]), vs.value, values, initial, turns,
                       |diagM|)
    ensures vs.None? ==> exists base :: BreaksDown(Stiffness(K.diag, K.coef[..]), SymOf(diagM, coefM[..]), base,
                                                   initial, turns, |diagM|)
  {
    ghost var k, m := Stiffness(K.diag, K.coef[..]), SymOf(diagM, coefM[..]);
    var base: seq<seq<real>> := [];
    values := [];
    var i := 0;
    while i < req
      invariant 0 <= i <= req && |base| == |values| == i
      invariant K.coef[..] == old(K.coef[..]) && coefM[..] == old(coefM[..])
      invariant forall k :: 0 <= k < i ==> |base[k]| == |diagM|
      invariant Orthonormal(SymOf(diagM, coefM[..]), base, |diagM|)
      invariant Iterated(k, m, base, values, initial, turns, |diagM|)
    {
      var v, value;
      ghost var ps;
      v, value, ps := SolveOne(base, K, diagM, coefM, initial[i], turns[i], sqrt);
      if v.None? {
        assert BreaksDown(k, m, base, initial, turns, |diagM|);
        return None, [];
      }
      IteratedGrows(k, m, base, values, initial, turns, v.value, value, ps, |diagM|);
      base := base + [v.value];
      values := values + [value];
      i := i + 1;
    }
    StiffnessSymmetric(K.diag, K.coef[..]);
    IteratedValues(k, m, base, values, initial, turns, |diagM|);
    vs := Some(base);
  }

  /** The values of vectors that are iterated. */
  lemma IteratedValues(k: Mat, m: Mat, base: seq<seq<real>>, values: seq<real>, initial: seq<seq<real>>,
                       turns: seq<nat>, n: int)
    requires Iterated(k, m, base, values, initial, turns, n) && Symmetric(k, n)
    requires forall q :: 0 <= q < |base| ==> |base[q]| == n
    ensures forall q :: 0 <= q < |base| && (q == 0 || turns[q] >= 2) ==>
              IsValue(k, m, base[..q], base[q], values[q], n)
    ensures |base| > 0 ==> values[0] == Form(k, VecOf(base[0]), VecOf(base[0]), n)
  {
    forall q | 0 <= q < |base| && (q == 0 || turns[q] >= 2)
      ensures IsValue(k, m, base[..q], base[q], values[q], n)
      ensures q == 0 ==> values[0] == Form(k, VecOf(base[0]), VecOf(base[0]), n)
    {
      ValueAfter(k, m, base[..q], initial[q], turns[q], base[q], values[q], n);
    }
  }

  lemma ValueAfter(k: Mat, m: Mat, vs: seq<seq<real>>, initial: seq<real>, turns: nat, v: seq<real>, value: real,
                   n: int)
    requires After(k, m, vs, initial, turns, v, value, n) && (|vs| == 0 || turns >= 2) && Symmetric(k, n) && |v| == n
    requires forall q :: 0 <= q < |vs| ==> |vs[q]| == n
    ensures IsValue(k, m, vs, v, value, n)
    ensures vs == [] ==> value == Form(k, VecOf(v), VecOf(v), n)
  {
    var ps: seq<Pass> :| |ps| == turns && Chain(k, m, vs, initial, ps, n) && Ends(k, m, vs, ps, v, value, n)
              && (turns >= 2 ==> Perpendicular(vs, ps[|ps| - 1].g));
    var p := ps[|ps| - 1];
    EveryValue(k, m, vs, v, value, p.g, p.w, p.u, p.root, n);
    if vs == [] {
      FirstValue(k, m, v, value, p.g, p.w, p.u, p.root, n);
    }
  }

  /** The number of vectors asked for, brought between 1 and size. */
  function Requested(req: nat, size: nat): (r: nat)
    ensures size >= 1 ==> 1 <= r <= size
    ensures 1 <= req <= size ==> r == req
    ensures size >= 1 && r < req ==> r == size
  {
    var atLeastOne := if req == 0 then 1 else req;
    if atLeastOne > size then size else atLeastOne
  }

  /** fem_eigen_new: the number of vectors is put within bounds, and the stiffness is factorised at most once, with two
      threads. */
  method FemEigenNew(K: Matrix<real>, diagM: seq<nat>, coefM: array<real>, req: nat, initial: seq<seq<real>>,
                     turns: seq<nat>, sqrt: real -> real, dblEpsilon: real)
    returns (vs: Option<seq<seq<real>>>, values: seq<real>, ghost epsilon: real)
    requires K.Valid() && K.state != Init && coefM != K.coef && IsLayout(diagM) && coefM.Length == Stored(diagM)
    requires forall x :: x > 0.0 ==> sqrt(x) > 0.0 && sqrt(x) * sqrt(x) == x
    requires dblEpsilon > 0.0
    requires K.state == Allocated ==> K.coef[0] != 0.0 && BlocksFit(|K.diag|, 2)
    requires K.state == Factorised ==> FactorsStored(K.diag, K.coef[..])
    requires |initial| == |turns| == Requested(req, |K.diag|)
    requires forall i :: 0 <= i < |turns| ==> |initial[i]| == |diagM| && turns[i] >= 1
    modifies K, K.coef
    ensures |diagM| != |K.diag| ==> vs == None && K.coef[..] == old(K.coef[..]) && K.state == old(K.state)
    ensures vs.Some? ==> 1 <= |vs.value| == |values| == Requested(req, |K.diag|) <= |K.diag|
    ensures vs.Some? ==> Orthonormal(SymOf(diagM, coefM[..]), vs.value, |diagM|)
    ensures |diagM| == |K.diag| ==> K.state == Factorised && FactorsStored(K.diag, K.coef[..])
    ensures |diagM| == |K.diag| && old(K.state) == Factorised ==> K.coef[..] == old(K.coef[..])
    ensures |diagM| == |K.diag| && old(K.state) == Allocated ==>
              Regular(old(JobFor(K, epsilon, 2)), epsilon) && old(JobFor(K, epsilon, 2)).Factored(K.coef[..])
    ensures vs.Some? ==>
              values[0] == Form(Stiffness(K.diag, K.coef[..]), VecOf(vs.value[0]), VecOf(vs.value[0]), |diagM|)
    ensures vs.Some? ==> forall i :: 0 <= i < |values| && (i == 0 || turns[i] >= 2) ==>
              IsValue(Stiffness(K.diag, K.coef[..]), SymOf(diagM, coefM[..]), vs.value[..i], vs.value[i], values[i],
                      |diagM|)
    ensures vs.Some? ==>
              Iterated(Stiffness(K.diag, K.coef[..]), SymOf(diagM, coefM[..]), vs.value, values, initial, turns,
                       |diagM|)
  {
    vs, values, epsilon := None, [], 0.0;
    if |diagM| == |K.diag| {
      epsilon := SolverFactorize(K, sqrt, dblEpsilon);
      vs, values := EigenSolve(K, diagM, coefM, Requested(req, |K.diag|), initial, turns, sqrt);
    }
  }
}
