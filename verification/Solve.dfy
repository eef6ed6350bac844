/** Solving with the factors: __fem_solver_invert of solver.c, and the matrix-vector products of matrix.c. */
module Solve {
  import opened RealSum
  import opened Matrices
  import opened Skyline
  import opened Ldlt

  function Coord(v: seq<real>, k: int): real
  {
    if 0 <= k < |v| then v[k] else 0.0
  }

  function VecOf(v: seq<real>): Vec
  {
    k => Coord(v, k)
  }

  /** Coordinate i of L.D.transpose(L).v, for the factors stored in c. */
  function ProductTimes(diag: seq<nat>, c: seq<real>, v: seq<real>, i: int): real
  {
    Times(TripleProduct(LowerOf(diag, c), PivotsOf(diag, c), |diag|), VecOf(v), |diag|, i)
  }

  /** The part of coordinate i of L.v that comes from columns before k. */
  function RowPart(diag: seq<nat>, c: seq<real>, v: seq<real>, i: int, k: int): real
  {
    Sum(RowTimes(LowerOf(diag, c), VecOf(v), i), 0, k)
  }

  /** The part of coordinate k of transpose(L).v that comes from rows lo..hi-1. */
  function ColumnPart(diag: seq<nat>, c: seq<real>, v: seq<real>, k: int, lo: int, hi: int): real
  {
    Sum(ColumnTimes(LowerOf(diag, c), VecOf(v), k), lo, hi)
  }

  /** Row i of L stops at its unit diagonal. */
  lemma RowPartWhole(diag: seq<nat>, c: seq<real>, v: seq<real>, i: int)
    requires 0 <= i < |diag| == |v|
    ensures RowPart(diag, c, v, i, |diag|) == RowPart(diag, c, v, i, i) + v[i]
  {
    var f := RowTimes(LowerOf(diag, c), VecOf(v), i);
    SumSplit(f, 0, i + 1, |diag|);
    SumZero(f, i + 1, |diag|);
    assert f(i) == v[i];
  }

  /** Column k of L starts at its unit diagonal. */
  lemma ColumnPartWhole(diag: seq<nat>, c: seq<real>, v: seq<real>, k: int, hi: int)
    requires 0 <= k < hi <= |diag| == |v|
    ensures ColumnPart(diag, c, v, k, 0, hi) == v[k] + ColumnPart(diag, c, v, k, k + 1, hi)
  {
    var f := ColumnTimes(LowerOf(diag, c), VecOf(v), k);
    SumSplit(f, 0, k, hi);
    SumZero(f, 0, k);
    SumFirst(f, k, hi);
    assert f(k) == v[k];
  }

  /** Row i of L starts at its first stored column. */
  lemma RowPartZero(diag: seq<nat>, c: seq<real>, v: seq<real>, i: int)
    requires 0 <= i < |diag| && 0 <= First(diag, i) <= i
    ensures RowPart(diag, c, v, i, First(diag, i)) == 0.0
  {
    SumZero(RowTimes(LowerOf(diag, c), VecOf(v), i), 0, First(diag, i));
  }

  lemma RowPartNext(diag: seq<nat>, c: seq<real>, v: seq<real>, i: int, k: int)
    requires 0 <= k < i
    ensures RowPart(diag, c, v, i, k + 1) == RowPart(diag, c, v, i, k) + At(0.0, diag, c, i, k) * Coord(v, k)
  {
    assert RowTimes(LowerOf(diag, c), VecOf(v), i)(k) == At(0.0, diag, c, i, k) * Coord(v, k);
  }

  /** Only coordinates before k matter to RowPart, only rows lo..hi-1 to ColumnPart. */
  lemma RowPartFrame(diag: seq<nat>, c: seq<real>, v: seq<real>, v': seq<real>, i: int, k: int)
    requires forall q :: 0 <= q < k ==> Coord(v, q) == Coord(v', q)
    ensures RowPart(diag, c, v, i, k) == RowPart(diag, c, v', i, k)
  {
    SumCong(RowTimes(LowerOf(diag, c), VecOf(v), i), RowTimes(LowerOf(diag, c), VecOf(v'), i), 0, k);
  }

  lemma ColumnPartFrame(diag: seq<nat>, c: seq<real>, v: seq<real>, v': seq<real>, k: int, lo: int, hi: int)
    requires forall q :: lo <= q < hi ==> Coord(v, q) == Coord(v', q)
    ensures ColumnPart(diag, c, v, k, lo, hi) == ColumnPart(diag, c, v', k, lo, hi)
  {
    SumCong(ColumnTimes(LowerOf(diag, c), VecOf(v), k), ColumnTimes(LowerOf(diag, c), VecOf(v'), k), lo, hi);
  }

  lemma ColumnPartFirst(diag: seq<nat>, c: seq<real>, v: seq<real>, k: int, lo: int, hi: int)
    requires k < lo < hi
    ensures ColumnPart(diag, c, v, k, lo, hi)
            == At(0.0, diag, c, lo, k) * Coord(v, lo) + ColumnPart(diag, c, v, k, lo + 1, hi)
  {
    var f := ColumnTimes(LowerOf(diag, c), VecOf(v), k);
    SumFirst(f, lo, hi);
    assert f(lo) == At(0.0, diag, c, lo, k) * Coord(v, lo);
  }

  lemma ColumnPartLast(diag: seq<nat>, c: seq<real>, v: seq<real>, k: int, hi: int)
    requires 0 <= k < hi
    ensures ColumnPart(diag, c, v, k, 0, hi + 1)
            == ColumnPart(diag, c, v, k, 0, hi) + At(0.0, diag, c, hi, k) * Coord(v, hi)
  {
    var f := ColumnTimes(LowerOf(diag, c), VecOf(v), k);
    assert f(hi) == At(0.0, diag, c, hi, k) * Coord(v, hi);
  }

  /** The triple product, once its three stages are known. */
  lemma ThreeStages(diag: seq<nat>, c: seq<real>, v: seq<real>, w: seq<real>, i: int)
    requires |v| == |w| == |diag| && 0 <= i < |diag|
    requires forall k :: 0 <= k < |diag| ==> w[k] == At(0.0, diag, c, k, k) * ColumnPart(diag, c, v, k, 0, |diag|)
    ensures ProductTimes(diag, c, v, i) == RowPart(diag, c, w, i, |diag|)
  {
    LdltTimes(LowerOf(diag, c), PivotsOf(diag, c), VecOf(v), VecOf(w), |diag|, i);
  }

  ghost predicate FactorsStored(diag: seq<nat>, c: seq<real>)
  {
    && IsLayout(diag)
    && |c| == Stored(diag)
    && forall k :: 0 <= k < |diag| ==> At(0.0, diag, c, k, k) != 0.0
  }

  /** Rows before i of L.y = b are solved. */
  ghost predicate Descending(diag: seq<nat>, c: seq<real>, b: seq<real>, v: seq<real>, i: int)
  {
    && |v| == |b| == |diag|
    && (forall r :: 0 <= r < i && r < |diag| ==> RowPart(diag, c, v, r, r) + v[r] == b[r])
    && (forall r :: i <= r < |diag| && 0 <= r ==> v[r] == b[r])
  }

  lemma DescendStep(diag: seq<nat>, c: seq<real>, b: seq<real>, v: seq<real>, i: int, s: real)
    requires Descending(diag, c, b, v, i) && 0 <= i < |diag| && s == RowPart(diag, c, v, i, i)
    ensures Descending(diag, c, b, v[i := v[i] - s], i + 1)
  {
    var v' := v[i := v[i] - s];
    forall r | 0 <= r <= i
      ensures RowPart(diag, c, v', r, r) + v'[r] == b[r]
    {
      RowPartFrame(diag, c, v', v, r, r);
    }
  }

  /** First loop of __fem_solver_invert: vec becomes y with L.y = b. */
  method Descend(diag: seq<nat>, coef: array<real>, vec: array<real>)
    requires IsLayout(diag) && coef.Length == Stored(diag) && vec.Length == |diag| && coef != vec
    modifies vec
    ensures forall r :: 0 <= r < |diag| ==> RowPart(diag, coef[..], vec[..], r, |diag|) == old(vec[r])
  {
    ghost var c, b := coef[..], vec[..];
    var i := 1;
    assert RowPart(diag, c, b, 0, 0) == 0.0;
    while i < |diag|
      invariant 1 <= i <= |diag| && coef[..] == c
      invariant Descending(diag, c, b, vec[..], i)
    {
      var s := RowSum(diag, coef, vec, i);
      DescendStep(diag, c, b, vec[..], i, s);
      ghost var v := vec[..];
      vec[i] := vec[i] - s;
      assert vec[..] == v[i := v[i] - s];
      i := i + 1;
    }
    forall r | 0 <= r < |diag|
      ensures RowPart(diag, c, vec[..], r, |diag|) == b[r]
    {
      RowPartWhole(diag, c, vec[..], r);
    }
  }

  /** The inner loop of the descent. */
  method RowSum(diag: seq<nat>, coef: array<real>, vec: array<real>, i: nat) returns (s: real)
    requires IsLayout(diag) && coef.Length == Stored(diag) && vec.Length == |diag| && 1 <= i < |diag|
    ensures s == RowPart(diag, coef[..], vec[..], i, i)
  {
    s := 0.0;
    var j := First(diag, i);
    RowPartZero(diag, coef[..], vec[..], i);
    while j < i
      invariant First(diag, i) <= j <= i
      invariant s == RowPart(diag, coef[..], vec[..], i, j)
    {
      ReadEntry(0.0, diag, coef[..], i, j);
      RowPartNext(diag, coef[..], vec[..], i, j);
      s := s + coef[Position(diag, i, j)] * vec[j];
      j := j + 1;
    }
  }

  /** Second loop of __fem_solver_invert. */
  method Scale(diag: seq<nat>, coef: array<real>, vec: array<real>)
    requires FactorsStored(diag, coef[..]) && vec.Length == |diag| && coef != vec
    modifies vec
    ensures forall r :: 0 <= r < |diag| ==> At(0.0, diag, coef[..], r, r) * vec[r] == old(vec[r])
  {
    ghost var c := coef[..];
    var i := 0;
    while i < |diag|
      invariant 0 <= i <= |diag|
      invariant forall r :: 0 <= r < i ==> At(0.0, diag, c, r, r) * vec[r] == old(vec[r])
      invariant forall r :: i <= r < |diag| ==> vec[r] == old(vec[r])
    {
      ReadEntry(0.0, diag, c, i, i);
      vec[i] := vec[i] / coef[diag[i]];
      i := i + 1;
    }
  }

  /** The columns of rows after i have been subtracted. */
  ghost predicate Ascending(diag: seq<nat>, c: seq<real>, z: seq<real>, v: seq<real>, i: int)
  {
    && |v| == |z| == |diag|
    && forall r :: 0 <= r < |diag| ==>
         v[r] + ColumnPart(diag, c, v, r, (if r < i then i else r) + 1, |diag|) == z[r]
  }

  /** v' is v plus a multiple of row i of L, in columns before j. */
  ghost predicate RowAdded(diag: seq<nat>, c: seq<real>, i: int, j: int, amount: real, v: seq<real>, v': seq<real>)
  {
    && |v| == |v'|
    && forall q :: 0 <= q < |v| ==> v'[q] == if q < j then v[q] + At(0.0, diag, c, i, q) * amount else v[q]
  }

  lemma AscendStep(diag: seq<nat>, c: seq<real>, z: seq<real>, v: seq<real>, v': seq<real>, i: int)
    requires Ascending(diag, c, z, v, i) && 1 <= i < |diag| && RowAdded(diag, c, i, i, -v[i], v, v')
    ensures Ascending(diag, c, z, v', i - 1)
  {
    forall r | 0 <= r < |diag|
      ensures v'[r] + ColumnPart(diag, c, v', r, (if r < i - 1 then i - 1 else r) + 1, |diag|) == z[r]
    {
      ColumnPartFrame(diag, c, v', v, r, (if r < i then i else r) + 1, |diag|);
      if r < i {
        ColumnPartFirst(diag, c, v', r, i, |diag|);
      }
    }
  }

  /** Third loop of __fem_solver_invert: vec becomes x with transpose(L).x = z. */
  method Ascend(diag: seq<nat>, coef: array<real>, vec: array<real>)
    requires IsLayout(diag) && coef.Length == Stored(diag) && vec.Length == |diag| && coef != vec
    modifies vec
    ensures forall r :: 0 <= r < |diag| ==> ColumnPart(diag, coef[..], vec[..], r, 0, |diag|) == old(vec[r])
  {
    ghost var c, z := coef[..], vec[..];
    var i := |diag| - 1;
    while i >= 1
      invariant 0 <= i < |diag| && coef[..] == c
      invariant Ascending(diag, c, z, vec[..], i)
    {
      ghost var v := vec[..];
      AddRow(diag, coef, vec, i, -vec[i]);
      AscendStep(diag, c, z, v, vec[..], i);
      i := i - 1;
    }
    forall r | 0 <= r < |diag|
      ensures ColumnPart(diag, c, vec[..], r, 0, |diag|) == z[r]
    {
      ColumnPartWhole(diag, c, vec[..], r, |diag|);
    }
  }

  /** The inner loop of the ascent, and of the first pass of matrix_ldlt_vector. */
  method AddRow(diag: seq<nat>, coef: array<real>, vec: array<real>, i: nat, amount: real)
    requires IsLayout(diag) && coef.Length == Stored(diag) && vec.Length == |diag| && coef != vec && 1 <= i < |diag|
    modifies vec
    ensures RowAdded(diag, coef[..], i, i, amount, old(vec[..]), vec[..])
  {
    var j := First(diag, i);
    while j < i
      invariant First(diag, i) <= j <= i
      invariant RowAdded(diag, coef[..], i, j, amount, old(vec[..]), vec[..])
    {
      ReadEntry(0.0, diag, coef[..], i, j);
      vec[j] := vec[j] + coef[Position(diag, i, j)] * amount;
      j := j + 1;
    }
  }

  /** __fem_solver_invert: vec becomes x with L.D.transpose(L).x = b. */
  method Invert(diag: seq<nat>, coef: array<real>, vec: array<real>)
    requires FactorsStored(diag, coef[..]) && vec.Length == |diag| && coef != vec
    modifies vec
    ensures forall r :: 0 <= r < |diag| ==> ProductTimes(diag, coef[..], vec[..], r) == old(vec[r])
  {
    Descend(diag, coef, vec);
    ghost var y := vec[..];
    Scale(diag, coef, vec);
    Ascend(diag, coef, vec);
    forall r | 0 <= r < |diag|
      ensures ProductTimes(diag, coef[..], vec[..], r) == old(vec[r])
    {
      ThreeStages(diag, coef[..], vec[..], y, r);
    }
  }

  /** matrix_ldlt_vector: the product with a factorised matrix. */
  method LdltVector(diag: seq<nat>, coef: array<real>, x: array<real>) returns (b: array<real>)
    requires IsLayout(diag) && coef.Length == Stored(diag) && x.Length == |diag|
    ensures fresh(b) && b.Length == |diag|
    ensures forall r :: 0 <= r < |diag| ==> b[r] == ProductTimes(diag, coef[..], x[..], r)
  {
    ghost var c := coef[..];
    var n := |diag|;
    b := new real[n];
    var i := 0;
    while i < n
      invariant 0 <= i <= n
      invariant forall r :: 0 <= r < i ==> b[r] == x[r]
    {
      b[i] := x[i];
      i := i + 1;
    }
    assert b[..] == x[..];
    ghost var xs := x[..];
    TransposePass(diag, coef, x, b);
    ghost var u := b[..];
    assert coef[..] == c && x[..] == xs;
    ScaleUp(diag, coef, b);
    ghost var w := b[..];
    assert coef[..] == c && x[..] == xs;
    LowerPass(diag, coef, b);
    assert coef[..] == c && x[..] == xs;
    StagesGiveProduct(diag, c, xs, u, w);
  }

  lemma StagesGiveProduct(diag: seq<nat>, c: seq<real>, v: seq<real>, u: seq<real>, w: seq<real>)
    requires |v| == |u| == |w| == |diag|
    requires forall k :: 0 <= k < |diag| ==> u[k] == ColumnPart(diag, c, v, k, 0, |diag|)
    requires Scaled(diag, c, u, w)
    ensures forall r :: 0 <= r < |diag| ==> ProductTimes(diag, c, v, r) == RowPart(diag, c, w, r, |diag|)
  {
    forall r | 0 <= r < |diag|
      ensures ProductTimes(diag, c, v, r) == RowPart(diag, c, w, r, |diag|)
    {
      ThreeStages(diag, c, v, w, r);
    }
  }

  /** w is u multiplied by the pivots. */
  ghost predicate Scaled(diag: seq<nat>, c: seq<real>, u: seq<real>, w: seq<real>)
  {
    |u| == |w| == |diag| && forall k :: 0 <= k < |diag| ==> w[k] == PivotTimes(diag, c, u, k)
  }

  ghost function PivotTimes(diag: seq<nat>, c: seq<real>, u: seq<real>, k: nat): real
    requires k < |u|
  {
    At(0.0, diag, c, k, k) * u[k]
  }

  method ScaleUp(diag: seq<nat>, coef: array<real>, b: array<real>)
    requires IsLayout(diag) && coef.Length == Stored(diag) && b.Length == |diag| && coef != b
    modifies b
    ensures Scaled(diag, coef[..], old(b[..]), b[..])
  {
    ghost var c, u := coef[..], b[..];
    var i := 0;
    while i < |diag|
      invariant 0 <= i <= |diag| && coef[..] == c
      invariant forall r :: 0 <= r < i ==> b[r] == PivotTimes(diag, c, u, r)
      invariant forall r :: i <= r < |diag| ==> b[r] == u[r]
    {
      ReadEntry(0.0, diag, c, i, i);
      b[i] := b[i] * coef[diag[i]];
      assert b[i] == PivotTimes(diag, c, u, i) by {
        Commute(u[i], At(0.0, diag, c, i, i));
      }
      i := i + 1;
    }
  }

  lemma Commute(x: real, y: real)
    ensures x * y == y * x
  {
  }

  /** Rows before i of L have been added. */
  ghost predicate Transposing(diag: seq<nat>, c: seq<real>, x: seq<real>, v: seq<real>, i: int)
  {
    && |v| == |x| == |diag|
    && forall r :: 0 <= r < |diag| ==> v[r] == ColumnPart(diag, c, x, r, 0, if r < i then i else r + 1)
  }

  lemma TransposeStep(diag: seq<nat>, c: seq<real>, x: seq<real>, v: seq<real>, v': seq<real>, i: int)
    requires Transposing(diag, c, x, v, i) && 1 <= i < |diag| && RowAdded(diag, c, i, i, x[i], v, v')
    ensures Transposing(diag, c, x, v', i + 1)
  {
    forall r | 0 <= r < |diag|
      ensures v'[r] == ColumnPart(diag, c, x, r, 0, if r < i + 1 then i + 1 else r + 1)
    {
      TransposeCell(diag, c, x, v, v', i, r);
    }
  }

  lemma TransposeCell(diag: seq<nat>, c: seq<real>, x: seq<real>, v: seq<real>, v': seq<real>, i: int, r: int)
    requires Transposing(diag, c, x, v, i) && 1 <= i < |diag| && 0 <= r < |diag|
    requires |v'| == |v| && v'[r] == if r < i then v[r] + At(0.0, diag, c, i, r) * x[i] else v[r]
    ensures v'[r] == ColumnPart(diag, c, x, r, 0, if r < i + 1 then i + 1 else r + 1)
  {
    if r < i {
      ColumnPartLast(diag, c, x, r, i);
    }
  }

  /** First pass of matrix_ldlt_vector: b = transpose(L).x. */
  method TransposePass(diag: seq<nat>, coef: array<real>, x: array<real>, b: array<real>)
    requires IsLayout(diag) && coef.Length == Stored(diag) && x.Length == b.Length == |diag| && b != x && b != coef
    requires b[..] == x[..]
    modifies b
    ensures forall r :: 0 <= r < |diag| ==> b[r] == ColumnPart(diag, coef[..], x[..], r, 0, |diag|)
  {
    ghost var c, xs := coef[..], x[..];
    forall r | 0 <= r < |diag|
      ensures b[r] == ColumnPart(diag, c, xs, r, 0, if r < 1 then 1 else r + 1)
    {
      ColumnPartWhole(diag, c, xs, r, r + 1);
    }
    var i := 1;
    while i < |diag|
      invariant 1 <= i <= |diag| && coef[..] == c && x[..] == xs
      invariant Transposing(diag, c, xs, b[..], i)
    {
      ghost var v := b[..];
      AddRow(diag, coef, b, i, x[i]);
      TransposeStep(diag, c, xs, v, b[..], i);
      i := i + 1;
    }
  }

  /** Last pass of matrix_ldlt_vector: b = L.b. */
  method LowerPass(diag: seq<nat>, coef: array<real>, b: array<real>)
    requires IsLayout(diag) && coef.Length == Stored(diag) && b.Length == |diag| && b != coef
    modifies b
    ensures forall r :: 0 <= r < |diag| ==> b[r] == RowPart(diag, coef[..], old(b[..]), r, |diag|)
  {
    ghost var c, w := coef[..], b[..];
    ghost var n := |diag|;
    var i := |diag| - 1;
    while i >= 1
      invariant 0 <= i < n
      invariant forall r :: 0 <= r <= i ==> b[r] == w[r]
      invariant forall r :: i < r < n ==> b[r] == RowPart(diag, c, w, r, n)
    {
      RowPartZero(diag, c, w, i);
      var j := First(diag, i);
      while j < i
        invariant First(diag, i) <= j <= i
        invariant b[i] == w[i] + RowPart(diag, c, w, i, j)
        invariant forall r :: 0 <= r < i ==> b[r] == w[r]
        invariant forall r :: i < r < n ==> b[r] == RowPart(diag, c, w, r, n)
      {
        ReadEntry(0.0, diag, c, i, j);
        RowPartNext(diag, c, w, i, j);
        b[i] := b[i] + coef[Position(diag, i, j)] * b[j];
        j := j + 1;
      }
      RowPartWhole(diag, c, w, i);
      i := i - 1;
    }
    RowPartWhole(diag, c, w, 0);
  }

  /** Multiplying the solution by the factors gives the right-hand side back. */
  method SolveThenMultiply(diag: seq<nat>, coef: array<real>, vec: array<real>) returns (b: array<real>)
    requires FactorsStored(diag, coef[..]) && vec.Length == |diag| && coef != vec
    modifies vec
    ensures b.Length == |diag| && b[..] == old(vec[..])
  {
    Invert(diag, coef, vec);
    b := LdltVector(diag, coef, vec);
  }
}
