/** The factorisation of solver.c, on the matrix object it overwrites. */
module Solver {
  import opened Skyline
  import opened Factor

  datatype MatrixState = Init | Allocated | Factorised

  /** The column before which the loop of solver_line_factorize starts. */
  function From(diag: seq<nat>, i: int, jMin: nat): int
  {
    if First(diag, i) > jMin then First(diag, i) else jMin
  }

  class Matrix<F(!new)> {
    const diag: seq<nat>
    const coef: array<F>
    var singularity: nat
    var state: MatrixState

    ghost predicate Valid()
      reads this, coef
    {
      IsLayout(diag) && coef.Length == Stored(diag)
    }

    /** fem_matrix_new followed by fem_matrix_alloc, once the profile is known. */
    constructor (zero: F, diag: seq<nat>)
      requires IsLayout(diag)
      ensures Valid() && fresh(coef) && this.diag == diag
      ensures state == Allocated && singularity == 0
      ensures forall k :: 0 <= k < coef.Length ==> coef[k] == zero
    {
      this.diag := diag;
      coef := new F[Stored(diag)](_ => zero);
      singularity := 0;
      state := Allocated;
    }

    /** The factorisation this matrix is about to undergo. */
    ghost function Task(ar: Arith<F>, skip: nat): Job<F>
      reads this, coef
    {
      Job(ar, diag, coef[..], skip)
    }

    /** p describes a factorisation under way in this matrix. */
    ghost predicate Runs(ar: Arith<F>, p: Job<F>)
      reads this, coef
    {
      Valid() && p.Ok() && p.ar == ar && p.diag == diag && |p.a| == coef.Length
    }

    /** The body of the loop of solver_line_factorize: entry (i,j) loses its scalar product. */
    method UpdateColumn(ar: Arith<F>, i: nat, j: nat)
      requires Valid() && First(diag, i) < j < i < |diag|
      modifies coef
      ensures coef[..] == ColumnUpdate(ar, diag, old(coef[..]), i, j)
    {
      var lo := if First(diag, i) > First(diag, j) then First(diag, i) else First(diag, j);
      PositionInRow(diag, i, lo);
      PositionInRow(diag, i, j);
      PositionInRow(diag, j, lo);
      PositionInRow(diag, j, j);
      var x, y := Position(diag, i, lo), Position(diag, j, lo);
      coef[Position(diag, i, j)] := ar.sub(coef[Position(diag, i, j)],
                                           ar.dot(coef[..][x..x + (j - lo)], coef[..][y..y + (j - lo)]));
    }

    /** solver_line_factorize: rows before jMax are final, row i is brought from its current column to jMax. */
    method LineFactorize(ar: Arith<F>, i: nat, jMin: nat, jMax: nat, ghost p: Job<F>)
      requires Runs(ar, p)
      requires 1 <= i < |diag| && jMax <= i
      requires forall j :: 0 <= j < jMax ==> p.RowDone(coef[..], j)
      requires From(diag, i, jMin) + 1 < jMax ==> p.RowAt(coef[..], i, From(diag, i, jMin) + 1)
      requires forall j :: From(diag, i, jMin) + 1 <= j < jMax ==> !p.Untouched(i, j)
      modifies coef
      ensures OnlyRow(diag, old(coef[..]), coef[..], i)
      ensures if From(diag, i, jMin) + 1 < jMax then p.RowAt(coef[..], i, jMax) else coef[..] == old(coef[..])
    {
      var from := jMin;
      if First(diag, i) > from {
        from := First(diag, i);
      }
      var j := from + 1;
      while j < jMax
        invariant from + 1 <= j && (j <= jMax || j == from + 1)
        invariant OnlyRow(diag, old(coef[..]), coef[..], i)
        invariant j == from + 1 ==> coef[..] == old(coef[..])
        invariant from + 1 < jMax ==> p.RowAt(coef[..], i, j)
      {
        OtherRowsKept(p, old(coef[..]), coef[..], i);
        ColumnUpdateCorrect(p, coef[..], i, j);
        UpdateColumn(ar, i, j);
        j := j + 1;
      }
    }

    /** solver_line_finish. */
    method LineFinish(ar: Arith<F>, i: nat, ghost p: Job<F>)
      requires Runs(ar, p)
      requires 1 <= i < |diag|
      requires forall j :: 0 <= j < i ==> p.RowDone(coef[..], j)
      requires p.RowAt(coef[..], i, i)
      modifies coef, `singularity
      ensures OnlyRow(diag, old(coef[..]), coef[..], i)
      ensures p.RowDone(coef[..], i)
      ensures singularity == if p.Blocked(i) then i + 1 else old(singularity)
    {
      var firstI := First(diag, i);
      ReadEntry(ar.zero, diag, coef[..], i, i);
      var aii := coef[diag[i]];
      var j := firstI;
      while j < i
        invariant firstI <= j <= i
        invariant OnlyRow(diag, old(coef[..]), coef[..], i)
        invariant aii == p.RawTo(i, j)
        invariant forall k :: firstI <= k < i ==>
                    At(ar.zero, diag, coef[..], i, k) == if k < j then p.L(i, k) else p.W(i, k)
        invariant singularity == old(singularity)
      {
        OtherRowsKept(p, old(coef[..]), coef[..], i);
        assert p.RowDone(coef[..], j);
        ReadEntry(ar.zero, diag, coef[..], i, j);
        ReadEntry(ar.zero, diag, coef[..], j, j);
        StoreEntry(ar.zero, diag, coef[..], i, j, p.L(i, j));
        var aij := coef[Position(diag, i, j)];
        var s := ar.div(aij, coef[diag[j]]);
        aii := ar.sub(aii, ar.mul(s, aij));
        ghost var before := coef[..];
        coef[Position(diag, i, j)] := s;
        assert coef[..] == before[Position(diag, i, j) := p.L(i, j)];
        j := j + 1;
      }
      if ar.tiny(aii) {
        aii := ar.block;
        singularity := i + 1;
      }
      StoreEntry(ar.zero, diag, coef[..], i, i, aii);
      ghost var before := coef[..];
      coef[diag[i]] := aii;
      assert coef[..] == before[Position(diag, i, i) := aii];
    }

    /** solver_factorize_sequential. */
    method FactorizeSequential(ar: Arith<F>)
      requires Valid()
      modifies this, coef
      ensures Valid() && state == Factorised
      ensures old(Task(ar, 2)).Ok() && old(Task(ar, 2)).Factored(coef[..])
      ensures singularity == old(Task(ar, 2)).LastBlocked(|diag|, old(singularity))
    {
      ghost var p := Task(ar, 2);
      var i := 1;
      while i < |diag|
        invariant 1 <= i <= |diag| && Runs(ar, p)
        invariant forall r :: 0 <= r < i ==> p.RowDone(coef[..], r)
        invariant forall r :: i <= r < |diag| ==> p.RowAt(coef[..], r, 0)
        invariant singularity == p.LastBlocked(i, old(singularity))
      {
        ghost var c0 := coef[..];
        AdvanceFree(p, c0, i, 0, From(diag, i, 1) + 1);
        LineFactorize(ar, i, 1, i, p);
        ghost var c1 := coef[..];
        OtherRowsKept(p, c0, c1, i);
        LineFinish(ar, i, p);
        OtherRowsKept(p, c1, coef[..], i);
        i := i + 1;
      }
      state := Factorised;
    }

    /** solver_factorize_threaded. */
    method FactorizeThreaded(ar: Arith<F>, nbThreads: nat)
      requires Valid() && nbThreads >= 1
      requires BlocksFit(|diag|, nbThreads)
      modifies this, coef
      ensures Valid() && state == Factorised
      ensures old(Task(ar, 1 + 2 * nbThreads)).Ok() && old(Task(ar, 1 + 2 * nbThreads)).Factored(coef[..])
      ensures singularity == old(Task(ar, 1 + 2 * nbThreads)).LastBlocked(|diag|, old(singularity))
    {
      ghost var p := Task(ar, 1 + 2 * nbThreads);
      var nbJobs := nbThreads * 2;
      var I := 1;
      BlocksStayInside(|diag|, nbThreads, 1);
      while I < |diag|
        invariant 1 <= I <= |diag| && Runs(ar, p)
        invariant I < |diag| ==> nbJobs == 2 * nbThreads && (I == 1 || I >= p.skip)
        invariant Inside(|diag|, nbThreads, I)
        invariant forall r :: 0 <= r < I ==> p.RowDone(coef[..], r)
        invariant forall r :: I <= r < |diag| ==> p.RowAt(coef[..], r, 0)
        invariant singularity == p.LastBlocked(I, old(singularity))
        decreases |diag| - I
      {
        if I + nbThreads > |diag| {
          nbJobs := |diag| - I;
        }
        RunTasks(ar, I, nbJobs, p);
        FinishBlock(ar, I, nbJobs, p, old(singularity));
        I := I + nbJobs;
      }
      state := Factorised;
    }

    /** The parallel part of a block: solver_factorize_threaded_task on rows I..I+nbJobs-1, whose column
        updates interleave in any order. `next` holds the column each task is about to update. */
    method RunTasks(ar: Arith<F>, I: nat, nbJobs: nat, ghost p: Job<F>)
      requires Runs(ar, p)
      requires 1 <= I && I + nbJobs <= |diag| && (I == 1 || I >= p.skip)
      requires forall r :: 0 <= r < I ==> p.RowDone(coef[..], r)
      requires forall r :: I <= r < |diag| ==> p.RowAt(coef[..], r, 0)
      modifies coef
      ensures forall r :: 0 <= r < I ==> p.RowDone(coef[..], r)
      ensures forall r :: I <= r < I + nbJobs ==> p.RowAt(coef[..], r, I)
      ensures forall r :: I + nbJobs <= r < |diag| ==> p.RowAt(coef[..], r, 0)
    {
      var next := Starts(diag, I, nbJobs);
      BlockStart(p, coef[..], I, nbJobs);
      while exists id :: 0 <= id < nbJobs && next[id] < I
        invariant |next| == nbJobs && InBlock(p, coef[..], I, next)
        decreases Remaining(next, I)
      {
        var id :| 0 <= id < nbJobs && next[id] < I;
        RemainingDrops(next, I, id);
        next := TaskStep(ar, I, next, id, p);
      }
      BlockEnd(p, coef[..], I, next);
    }

    /** One task of the block updates its next column. */
    method TaskStep(ar: Arith<F>, I: nat, next: seq<int>, id: nat, ghost p: Job<F>) returns (next': seq<int>)
      requires Runs(ar, p)
      requires 1 <= I && I + |next| <= |diag| && (I == 1 || I >= p.skip)
      requires InBlock(p, coef[..], I, next)
      requires id < |next| && next[id] < I
      modifies coef
      ensures next' == next[id := next[id] + 1]
      ensures InBlock(p, coef[..], I, next')
    {
      ColumnUpdateCorrect(p, coef[..], I + id, next[id]);
      UpdateColumn(ar, I + id, next[id]);
      BlockStep(p, old(coef[..]), coef[..], I, next, id);
      next' := next[id := next[id] + 1];
    }

    /** One row of the sequential part of a block: columns I..i-1, then the scaling and the pivot. */
    method FinishRow(ar: Arith<F>, i: nat, I: nat, ghost p: Job<F>)
      requires Runs(ar, p)
      requires 1 <= I < i < |diag| && (I == 1 ==> i < p.skip)
      requires forall r :: 0 <= r < i ==> p.RowDone(coef[..], r)
      requires p.RowAt(coef[..], i, I)
      modifies coef, `singularity
      ensures OnlyRow(diag, old(coef[..]), coef[..], i)
      ensures p.RowDone(coef[..], i)
      ensures singularity == if p.Blocked(i) then i + 1 else old(singularity)
    {
      AdvanceFree(p, coef[..], i, I, From(diag, i, I - 1) + 1);
      LineFactorize(ar, i, I - 1, i, p);
      OtherRowsKept(p, old(coef[..]), coef[..], i);
      LineFinish(ar, i, p);
    }

    /** The sequential part of a block. */
    method FinishBlock(ar: Arith<F>, I: nat, nbJobs: nat, ghost p: Job<F>, ghost before: nat)
      requires Runs(ar, p)
      requires 1 <= I && nbJobs >= 1 && I + nbJobs <= |diag|
      requires I == 1 ==> I + nbJobs <= p.skip
      requires forall r :: 0 <= r < I ==> p.RowDone(coef[..], r)
      requires forall r :: I <= r < I + nbJobs ==> p.RowAt(coef[..], r, I)
      requires forall r :: I + nbJobs <= r < |diag| ==> p.RowAt(coef[..], r, 0)
      requires singularity == p.LastBlocked(I, before)
      modifies coef, `singularity
      ensures forall r :: 0 <= r < I + nbJobs ==> p.RowDone(coef[..], r)
      ensures forall r :: I + nbJobs <= r < |diag| ==> p.RowAt(coef[..], r, 0)
      ensures singularity == p.LastBlocked(I + nbJobs, before)
    {
      ghost var c0 := coef[..];
      LineFinish(ar, I, p);
      OtherRowsKept(p, c0, coef[..], I);
      var id := 1;
      while id < nbJobs
        invariant 1 <= id <= nbJobs
        invariant forall r :: 0 <= r < I + id ==> p.RowDone(coef[..], r)
        invariant forall r :: I + id <= r < I + nbJobs ==> p.RowAt(coef[..], r, I)
        invariant forall r :: I + nbJobs <= r < |diag| ==> p.RowAt(coef[..], r, 0)
        invariant singularity == p.LastBlocked(I + id, before)
      {
        c0 := coef[..];
        FinishRow(ar, I + id, I, p);
        OtherRowsKept(p, c0, coef[..], I + id);
        id := id + 1;
      }
    }
  }

  /** The matrix while the tasks of the block starting at row I run. */
  ghost predicate InBlock<F(!new)>(p: Job<F>, c: seq<F>, I: int, next: seq<int>)
  {
    && p.Ok() && 1 <= I && I + |next| <= |p.diag|
    && |c| == |p.a|
    && (forall r :: 0 <= r < I ==> p.RowDone(c, r))
    && (forall id :: 0 <= id < |next| ==>
          From(p.diag, I + id, 1) < next[id] && p.RowAt(c, I + id, Reached(next[id], I)))
    && (forall r :: I + |next| <= r < |p.diag| ==> p.RowAt(c, r, 0))
  }

  /** The column each task of a block updates first. */
  function Starts(diag: seq<nat>, I: int, nbJobs: nat): seq<int>
  {
    seq(nbJobs, id => From(diag, I + id, 1) + 1)
  }

  lemma BlockStart<F(!new)>(p: Job<F>, c: seq<F>, I: int, nbJobs: nat)
    requires p.Ok() && 1 <= I && I + nbJobs <= |p.diag| && |c| == |p.a| && (I == 1 || I >= p.skip)
    requires forall r :: 0 <= r < I ==> p.RowDone(c, r)
    requires forall r :: I <= r < |p.diag| ==> p.RowAt(c, r, 0)
    ensures InBlock(p, c, I, Starts(p.diag, I, nbJobs))
  {
    var next := Starts(p.diag, I, nbJobs);
    forall id | 0 <= id < nbJobs
      ensures p.RowAt(c, I + id, Reached(next[id], I))
    {
      assert next[id] == From(p.diag, I + id, 1) + 1;
      AdvanceFree(p, c, I + id, 0, Reached(next[id], I));
    }
  }

  lemma BlockEnd<F(!new)>(p: Job<F>, c: seq<F>, I: int, next: seq<int>)
    requires InBlock(p, c, I, next)
    requires forall id :: 0 <= id < |next| ==> next[id] >= I
    ensures forall r :: I <= r < I + |next| ==> p.RowAt(c, r, I)
  {
    forall r | I <= r < I + |next|
      ensures p.RowAt(c, r, I)
    {
      assert next[r - I] >= I;
    }
  }

  /** A column update of one task leaves every other task, and the finished rows, as they were. */
  lemma BlockStep<F(!new)>(p: Job<F>, c: seq<F>, c': seq<F>, I: int, next: seq<int>, id: int)
    requires InBlock(p, c, I, next)
    requires 0 <= id < |next| && next[id] < I
    requires OnlyRow(p.diag, c, c', I + id) && p.RowAt(c', I + id, next[id] + 1)
    ensures InBlock(p, c', I, next[id := next[id] + 1])
  {
    OtherRowsKept(p, c, c', I + id);
  }

  /** How far a task about to update column n has brought its row, in a block starting at I. */
  function Reached(n: int, I: int): int
  {
    if n < I then n else I
  }

  /** Column updates the tasks of a block still have to do. */
  function Remaining(next: seq<int>, I: int): nat
  {
    if next == [] then 0 else (if next[0] < I then I - next[0] else 0) + Remaining(next[1..], I)
  }

  lemma {:induction false} RemainingDrops(next: seq<int>, I: int, id: int)
    requires 0 <= id < |next| && next[id] < I
    ensures Remaining(next[id := next[id] + 1], I) < Remaining(next, I)
  {
    var after := next[id := next[id] + 1];
    if id == 0 {
      assert after[1..] == next[1..];
    } else {
      RemainingDrops(next[1..], I, id - 1);
      assert after[1..] == next[1..][id - 1 := next[id] + 1];
    }
  }

  /** No block that solver_factorize_threaded forms from row I on reaches beyond the last row. */
  predicate Inside(size: nat, nbThreads: nat, I: nat)
    requires nbThreads >= 1
    decreases size - I
  {
    I >= size ||
    (var nbJobs := if I + nbThreads > size then size - I else 2 * nbThreads;
     I + nbJobs <= size && Inside(size, nbThreads, I + nbJobs))
  }

  /** The same, told from the sizes alone. */
  predicate BlocksFit(size: nat, nbThreads: nat)
    requires nbThreads >= 1
  {
    size == 0 || (size - 1) % (2 * nbThreads) < nbThreads
  }

  lemma DivisionUnique(x: int, m: int, q: int, r: int)
    requires 0 <= r < m && x == m * q + r
    ensures x % m == r
  {
    var d := x / m - q;
    assert m * d == r - x % m;
    if d >= 1 {
      ProductAtLeast(m, d);
    } else if d <= -1 {
      ProductAtLeast(m, -d);
    }
  }

  lemma ProductAtLeast(m: int, d: int)
    requires m >= 0 && d >= 1
    ensures m * d >= m && m * -d <= -m
  {
  }

  lemma ModuloStep(x: int, m: int)
    requires m > 0
    ensures (x - m) % m == x % m
  {
    assert x - m == m * (x / m - 1) + x % m;
    DivisionUnique(x - m, m, x / m - 1, x % m);
  }

  /** The clamp on the last block keeps every row in range if and only if the size modulo 2.nbThreads allows it. */
  lemma {:induction false} BlocksStayInside(size: nat, nbThreads: nat, I: nat)
    requires nbThreads >= 1 && 1 <= I
    ensures I <= size ==> (Inside(size, nbThreads, I) <==> (size - I) % (2 * nbThreads) < nbThreads)
    decreases size - I
  {
    var m := 2 * nbThreads;
    if I < size {
      var nbJobs := if I + nbThreads > size then size - I else m;
      if I + nbJobs <= size {
        BlocksStayInside(size, nbThreads, I + nbJobs);
        if nbJobs == m {
          ModuloStep(size - I, m);
        } else {
          DivisionUnique(size - I, m, 0, size - I);
        }
      } else {
        DivisionUnique(size - I, m, 0, size - I);
      }
    } else if I == size {
      DivisionUnique(0, m, 0, 0);
    }
  }
}
