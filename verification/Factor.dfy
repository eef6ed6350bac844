/** The values solver_line_factorize and solver_line_finish compute, as functions of the matrix before
    factorisation. The arithmetic is a parameter: nothing here depends on how operations round. */
module Factor {
  import opened Skyline

  /** The operations solver.c uses on coefficients. `tiny` is the singularity test and `block` the value
      put in place of a tiny pivot. */
  datatype Arith<!F(!new)> = Arith(
    zero: F,
    dot: (seq<F>, seq<F>) -> F,
    sub: (F, F) -> F,
    mul: (F, F) -> F,
    div: (F, F) -> F,
    tiny: F -> bool,
    block: F)

  /** One factorisation: arithmetic, layout, coefficients on entry, and the first row in which the update
      of column 1 is skipped when that row starts at column 0. */
  datatype Job<!F(!new)> = Job(ar: Arith<F>, diag: seq<nat>, a: seq<F>, skip: nat) {

    ghost predicate Ok()
    {
      IsLayout(diag) && |a| == Stored(diag) && skip >= 2
    }

    /** No scalar product is subtracted from entry (i,j). */
    predicate Untouched(i: int, j: int)
    {
      j == First(diag, i) || (j == 1 && i >= skip)
    }

    ghost function Orig(i: int, j: int): F
    {
      At(ar.zero, diag, a, i, j)
    }

    /** First column two rows have in common. */
    function Common(i: int, j: int): int
    {
      if First(diag, i) > First(diag, j) then First(diag, i) else First(diag, j)
    }

    /** L(i,j) before its division by D(j). */
    ghost function W(i: int, j: int): F
      requires Ok() && 0 <= First(diag, i) <= j < i < |diag|
      decreases i, j, 1
    {
      if Untouched(i, j) then Orig(i, j)
      else ar.sub(Orig(i, j), ar.dot(WRow(i, Common(i, j), j), LRow(j, Common(i, j), j)))
    }

    ghost function WRow(i: int, lo: int, j: int): seq<F>
      requires Ok() && 0 <= First(diag, i) <= lo <= j < i < |diag|
      decreases i, j, 0
    {
      seq(j - lo, k requires 0 <= k < j - lo => W(i, lo + k))
    }

    ghost function LRow(i: int, lo: int, j: int): seq<F>
      requires Ok() && 0 <= First(diag, i) <= lo <= j <= i < |diag|
      decreases i, j, 0
    {
      seq(j - lo, k requires 0 <= k < j - lo => L(i, lo + k))
    }

    ghost function L(i: int, j: int): F
      requires Ok() && 0 <= First(diag, i) <= j < i < |diag|
      decreases i, j, 2
    {
      ar.div(W(i, j), D(j))
    }

    /** The diagonal of row i once columns before k are accounted for. */
    ghost function RawTo(i: int, k: int): F
      requires Ok() && 0 <= First(diag, i) <= k <= i < |diag|
      decreases i, k, 0
    {
      if k == First(diag, i) then Orig(i, i) else ar.sub(RawTo(i, k - 1), ar.mul(L(i, k - 1), W(i, k - 1)))
    }

    /** The diagonal value on which singularity is tested. */
    ghost function Raw(i: int): F
      requires Ok() && 0 <= i < |diag|
      decreases i, i, 2
    {
      RawTo(i, i)
    }

    ghost predicate Blocked(i: int)
      requires Ok() && 0 <= i < |diag|
      decreases i, i, 3
    {
      i > 0 && ar.tiny(Raw(i))
    }

    ghost function D(i: int): F
      requires Ok() && 0 <= i < |diag|
      decreases i, i, 4
    {
      if Blocked(i) then ar.block else Raw(i)
    }

    /** Row i holds its final content. */
    ghost predicate RowDone(c: seq<F>, i: int)
      requires Ok() && 0 <= i < |diag|
    {
      && (forall j :: First(diag, i) <= j < i ==> At(ar.zero, diag, c, i, j) == L(i, j))
      && At(ar.zero, diag, c, i, i) == D(i)
    }

    /** Row i has been updated in its columns before m and is untouched from column m on. */
    ghost predicate RowAt(c: seq<F>, i: int, m: int)
      requires Ok() && 0 <= i < |diag|
    {
      && (forall j :: First(diag, i) <= j < i ==>
            At(ar.zero, diag, c, i, j) == if j < m then W(i, j) else Orig(i, j))
      && At(ar.zero, diag, c, i, i) == Orig(i, i)
    }

    /** The whole matrix has been overwritten by its factors. */
    ghost predicate Factored(c: seq<F>)
      requires Ok()
    {
      && |c| == |a|
      && forall i :: 0 <= i < |diag| ==> RowDone(c, i)
    }

    /** The number kept in `singularity` once rows 1..n-1 are finished: the last blocked row, plus one. */
    ghost function LastBlocked(n: int, before: nat): nat
      requires Ok() && n <= |diag|
      decreases n
    {
      if n <= 1 then before
      else if Blocked(n - 1) then n
      else LastBlocked(n - 1, before)
    }
  }

  lemma OtherRowsKept<F(!new)>(p: Job<F>, c: seq<F>, c': seq<F>, i: int)
    requires p.Ok() && 1 <= i < |p.diag| && |c| == |p.a|
    requires OnlyRow(p.diag, c, c', i)
    ensures forall r :: 0 <= r < |p.diag| && r != i && p.RowDone(c, r) ==> p.RowDone(c', r)
    ensures forall r, m :: 0 <= r < |p.diag| && r != i && p.RowAt(c, r, m) ==> p.RowAt(c', r, m)
  {
    forall r, k | 0 <= r < |p.diag| && r != i
      ensures At(p.ar.zero, p.diag, c', r, k) == At(p.ar.zero, p.diag, c, r, k)
    {
      OtherRow(p.ar.zero, p.diag, c, c', i, r, k);
    }
  }

  /** Nothing is subtracted up to the first stored column, nor from a skipped column 1. */
  lemma AdvanceFree<F(!new)>(p: Job<F>, c: seq<F>, i: int, m: int, m': int)
    requires p.Ok() && 1 <= i < |p.diag| && p.RowAt(c, i, m)
    requires forall j :: m <= j < m' && j < i ==> j <= First(p.diag, i) || p.Untouched(i, j)
    requires m <= m'
    ensures p.RowAt(c, i, m')
  {
  }

  /** The cells a scalar product reads in the current row hold the values it is specified on. */
  lemma SliceOfCurrentRow<F(!new)>(p: Job<F>, c: seq<F>, i: int, lo: int, j: int)
    requires p.Ok() && |c| == |p.a| && 0 <= First(p.diag, i) <= lo <= j < i < |p.diag|
    requires p.RowAt(c, i, j)
    ensures var x := Position(p.diag, i, lo);
            0 <= x && x + (j - lo) <= |c| && c[x..x + (j - lo)] == p.WRow(i, lo, j)
  {
    PositionInRow(p.diag, i, lo);
    PositionInRow(p.diag, i, j);
    var x := Position(p.diag, i, lo);
    var s, r := c[x..x + (j - lo)], p.WRow(i, lo, j);
    forall k | 0 <= k < |r|
      ensures s[k] == r[k]
    {
      ReadEntry(p.ar.zero, p.diag, c, i, lo + k);
    }
  }

  /** The same in an earlier, finished row. */
  lemma SliceOfDoneRow<F(!new)>(p: Job<F>, c: seq<F>, i: int, lo: int, j: int)
    requires p.Ok() && |c| == |p.a| && 0 <= First(p.diag, i) <= lo <= j <= i < |p.diag|
    requires p.RowDone(c, i)
    ensures var x := Position(p.diag, i, lo);
            0 <= x && x + (j - lo) <= |c| && c[x..x + (j - lo)] == p.LRow(i, lo, j)
  {
    PositionInRow(p.diag, i, lo);
    PositionInRow(p.diag, i, j);
    var x := Position(p.diag, i, lo);
    var s, r := c[x..x + (j - lo)], p.LRow(i, lo, j);
    forall k | 0 <= k < |r|
      ensures s[k] == r[k]
    {
      ReadEntry(p.ar.zero, p.diag, c, i, lo + k);
    }
  }

  /** The lengths and positions a turn of the loop of solver_line_factorize relies on. */
  ghost predicate CanUpdate<F>(diag: seq<nat>, c: seq<F>, i: int, j: int)
  {
    IsLayout(diag) && |c| == Stored(diag) && First(diag, i) < j < i < |diag|
  }

  /** Entry (i,j) loses its scalar product: one turn of the loop of solver_line_factorize. */
  ghost function ColumnUpdate<F(!new)>(ar: Arith<F>, diag: seq<nat>, c: seq<F>, i: int, j: int): (c': seq<F>)
    requires CanUpdate(diag, c, i, j)
    ensures |c'| == |c|
  {
    var lo := if First(diag, i) > First(diag, j) then First(diag, i) else First(diag, j);
    PositionInRow(diag, i, lo);
    PositionInRow(diag, i, j);
    PositionInRow(diag, j, lo);
    PositionInRow(diag, j, j);
    var x, y := Position(diag, i, lo), Position(diag, j, lo);
    c[Position(diag, i, j) := ar.sub(c[Position(diag, i, j)], ar.dot(c[x..x + (j - lo)], c[y..y + (j - lo)]))]
  }

  /** That turn of the loop computes W(i,j), whatever the other rows hold. */
  lemma ColumnUpdateCorrect<F(!new)>(p: Job<F>, c: seq<F>, i: int, j: int)
    requires p.Ok() && |c| == |p.a| && First(p.diag, i) < j < i < |p.diag| && !p.Untouched(i, j)
    requires p.RowDone(c, j) && p.RowAt(c, i, j)
    ensures OnlyRow(p.diag, c, ColumnUpdate(p.ar, p.diag, c, i, j), i)
    ensures p.RowAt(ColumnUpdate(p.ar, p.diag, c, i, j), i, j + 1)
  {
    var lo := p.Common(i, j);
    SliceOfCurrentRow(p, c, i, lo, j);
    SliceOfDoneRow(p, c, j, lo, j);
    ReadEntry(p.ar.zero, p.diag, c, i, j);
    StoreEntry(p.ar.zero, p.diag, c, i, j, p.W(i, j));
  }

  /** The factors of a matrix are unique: two arrays holding them are equal. */
  lemma FactorsUnique<F(!new)>(p: Job<F>, c: seq<F>, c': seq<F>)
    requires p.Ok() && p.Factored(c) && p.Factored(c')
    ensures c == c'
  {
    forall i, j | InProfile(p.diag, i, j)
      ensures At(p.ar.zero, p.diag, c, i, j) == At(p.ar.zero, p.diag, c', i, j)
    {
      assert p.RowDone(c, i) && p.RowDone(c', i);
    }
    EqualOnProfile(p.ar.zero, p.diag, c, c');
  }

  /** So are two arrays that hold the finished rows before row I and the matrix from there on. */
  lemma PartialFactorsUnique<F(!new)>(p: Job<F>, c: seq<F>, c': seq<F>, I: int)
    requires p.Ok() && |c| == |c'| == |p.a| && I <= |p.diag|
    requires forall r :: 0 <= r < I ==> p.RowDone(c, r) && p.RowDone(c', r)
    requires forall r :: 0 <= r < |p.diag| && I <= r ==> p.RowAt(c, r, 0) && p.RowAt(c', r, 0)
    ensures c == c'
  {
    forall i, j | InProfile(p.diag, i, j)
      ensures At(p.ar.zero, p.diag, c, i, j) == At(p.ar.zero, p.diag, c', i, j)
    {
      if i < I {
        assert p.RowDone(c, i) && p.RowDone(c', i);
      } else {
        assert p.RowAt(c, i, 0) && p.RowAt(c', i, 0);
      }
    }
    EqualOnProfile(p.ar.zero, p.diag, c, c');
  }

  /** Two factorisations of the same matrix that differ in the rows whose column 1 is skipped. */
  ghost predicate Variants<F(!new)>(p: Job<F>, q: Job<F>)
  {
    p.Ok() && q.Ok() && p.ar == q.ar && p.diag == q.diag && p.a == q.a
  }

  /** The update of column 1 would leave entry (i,1) as it is: a condition on the matrix before factorisation. */
  ghost predicate VoidUpdate<F(!new)>(p: Job<F>, i: int)
  {
    var empty := First(p.diag, 1) == 1;
    var x := if empty then [] else [p.Orig(i, 0)];
    var y := if empty then [] else [p.ar.div(p.Orig(1, 0), p.Orig(0, 0))];
    p.ar.sub(p.Orig(i, 1), p.ar.dot(x, y)) == p.Orig(i, 1)
  }

  /** Row i ends up the same: both skip or none does, or there is nothing to skip. */
  ghost predicate Alike<F(!new)>(p: Job<F>, q: Job<F>, i: int)
    requires Variants(p, q)
  {
    (i >= p.skip <==> i >= q.skip) || First(p.diag, i) >= 1 || VoidUpdate(p, i)
  }

  /** The scalar product of column 1, in a row that starts at column 0, involves the input only. */
  lemma ColumnOne<F(!new)>(p: Job<F>, i: int)
    requires p.Ok() && 1 < i < |p.diag| && First(p.diag, i) == 0
    ensures var lo := p.Common(i, 1);
            0 <= lo <= 1
            && p.WRow(i, lo, 1) == (if First(p.diag, 1) == 1 then [] else [p.Orig(i, 0)])
            && p.LRow(1, lo, 1)
               == (if First(p.diag, 1) == 1 then [] else [p.ar.div(p.Orig(1, 0), p.Orig(0, 0))])
  {
    assert 0 <= First(p.diag, 1) <= 1;
    if First(p.diag, 1) == 0 {
      assert p.D(0) == p.RawTo(0, 0) == p.Orig(0, 0);
      assert p.WRow(i, 0, 1)[0] == p.W(i, 0) == p.Orig(i, 0);
      assert p.LRow(1, 0, 1)[0] == p.L(1, 0);
      assert p.W(1, 0) == p.Orig(1, 0);
    }
  }

  /** What W(i,j) is when no row skips anything. */
  ghost function Updated<F(!new)>(p: Job<F>, i: int, j: int): F
    requires p.Ok() && 0 <= First(p.diag, i) <= j < i < |p.diag|
  {
    if j == First(p.diag, i) then p.Orig(i, j)
    else p.ar.sub(p.Orig(i, j), p.ar.dot(p.WRow(i, p.Common(i, j), j), p.LRow(j, p.Common(i, j), j)))
  }

  lemma UpdatedAlike<F(!new)>(p: Job<F>, q: Job<F>, i: int, j: int)
    requires Variants(p, q) && Alike(p, q, i)
    requires 0 <= First(p.diag, i) <= j < i < |p.diag|
    requires Updated(p, i, j) == Updated(q, i, j)
    ensures p.W(i, j) == q.W(i, j)
  {
    if j == 1 && First(p.diag, i) == 0 {
      ColumnOne(p, i);
      ColumnOne(q, i);
    }
  }

  lemma {:induction false} AlikeW<F(!new)>(p: Job<F>, q: Job<F>, i: int, j: int)
    requires Variants(p, q) && (forall r :: 0 <= r < |p.diag| ==> Alike(p, q, r))
    requires 0 <= First(p.diag, i) <= j < i < |p.diag|
    ensures p.W(i, j) == q.W(i, j) && p.L(i, j) == q.L(i, j)
    decreases i, j, 2
  {
    AlikeD(p, q, j);
    if j > First(p.diag, i) {
      AlikeRows(p, q, i, p.Common(i, j), j);
      AlikeLRow(p, q, j, p.Common(i, j), j);
    }
    UpdatedAlike(p, q, i, j);
  }

  lemma {:induction false} AlikeRows<F(!new)>(p: Job<F>, q: Job<F>, i: int, lo: int, j: int)
    requires Variants(p, q) && (forall r :: 0 <= r < |p.diag| ==> Alike(p, q, r))
    requires 0 <= First(p.diag, i) <= lo <= j < i < |p.diag|
    ensures p.WRow(i, lo, j) == q.WRow(i, lo, j)
    decreases i, j, 1
  {
    forall k | 0 <= k < j - lo
      ensures p.WRow(i, lo, j)[k] == q.WRow(i, lo, j)[k]
    {
      AlikeW(p, q, i, lo + k);
    }
  }

  lemma {:induction false} AlikeLRow<F(!new)>(p: Job<F>, q: Job<F>, i: int, lo: int, j: int)
    requires Variants(p, q) && (forall r :: 0 <= r < |p.diag| ==> Alike(p, q, r))
    requires 0 <= First(p.diag, i) <= lo <= j <= i < |p.diag|
    ensures p.LRow(i, lo, j) == q.LRow(i, lo, j)
    decreases i, j, 1
  {
    forall k | 0 <= k < j - lo
      ensures p.LRow(i, lo, j)[k] == q.LRow(i, lo, j)[k]
    {
      AlikeW(p, q, i, lo + k);
    }
  }

  lemma {:induction false} AlikeRaw<F(!new)>(p: Job<F>, q: Job<F>, i: int, k: int)
    requires Variants(p, q) && (forall r :: 0 <= r < |p.diag| ==> Alike(p, q, r))
    requires 0 <= First(p.diag, i) <= k <= i < |p.diag|
    ensures p.RawTo(i, k) == q.RawTo(i, k)
    decreases i, k, 1
  {
    if k > First(p.diag, i) {
      AlikeRaw(p, q, i, k - 1);
      AlikeW(p, q, i, k - 1);
    }
  }

  lemma {:induction false} AlikeD<F(!new)>(p: Job<F>, q: Job<F>, i: int)
    requires Variants(p, q) && (forall r :: 0 <= r < |p.diag| ==> Alike(p, q, r))
    requires 0 <= i < |p.diag|
    ensures p.D(i) == q.D(i) && p.Blocked(i) == q.Blocked(i)
    decreases i, i, 3
  {
    AlikeRaw(p, q, i, i);
    assert p.Raw(i) == q.Raw(i);
  }

  lemma {:induction false} AlikeLastBlocked<F(!new)>(p: Job<F>, q: Job<F>, n: int, before: nat)
    requires Variants(p, q) && (forall r :: 0 <= r < |p.diag| ==> Alike(p, q, r))
    requires n <= |p.diag|
    ensures p.LastBlocked(n, before) == q.LastBlocked(n, before)
    decreases n
  {
    if n > 1 {
      AlikeD(p, q, n - 1);
      AlikeLastBlocked(p, q, n - 1, before);
    }
  }

  /** Threaded and sequential factorisation leave the same coefficients and the same singularity, in any
      arithmetic, when the update of column 1 is void in the rows where only one of them skips it. */
  lemma SameFactors<F(!new)>(p: Job<F>, q: Job<F>, c: seq<F>, c': seq<F>, before: nat)
    requires Variants(p, q) && (forall r :: 0 <= r < |p.diag| ==> Alike(p, q, r))
    requires p.Factored(c) && q.Factored(c')
    ensures c == c'
    ensures p.LastBlocked(|p.diag|, before) == q.LastBlocked(|p.diag|, before)
  {
    forall i | 0 <= i < |p.diag|
      ensures p.RowDone(c', i)
    {
      assert q.RowDone(c', i);
      AlikeD(p, q, i);
      forall j | First(p.diag, i) <= j < i
        ensures p.L(i, j) == q.L(i, j)
      {
        AlikeW(p, q, i, j);
      }
    }
    FactorsUnique(p, c, c');
    AlikeLastBlocked(p, q, |p.diag|, before);
  }
}
