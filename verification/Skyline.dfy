/** The packed profile ("skyline") storage of a symmetric matrix: fem/matrix.h and the macros of solver.c. */
module Skyline {

  /** FIRST(i): the column of the first stored entry of row i. Row 0 stores its diagonal only. */
  function First(diag: seq<nat>, i: int): int
  {
    if 1 <= i < |diag| then i + diag[i - 1] + 1 - diag[i] else 0
  }

  /** What the solver expects of `diag`: positions of the diagonal entries, rows stored one after the other. */
  ghost predicate IsLayout(diag: seq<nat>)
  {
    && |diag| > 0
    && diag[0] == 0
    && (forall i, j :: 0 <= i < j < |diag| ==> diag[i] < diag[j])
    && (forall i :: 1 <= i < |diag| ==> 0 <= First(diag, i) <= i)
  }

  ghost predicate InProfile(diag: seq<nat>, i: int, j: int)
  {
    0 <= i < |diag| && First(diag, i) <= j <= i
  }

  /** The storage index of entry (i,j): the macros L and D of solver.c. */
  function Position(diag: seq<nat>, i: int, j: int): int
    requires 0 <= i < |diag|
  {
    j + diag[i] - i
  }

  /** How many coefficients the layout stores. */
  function Stored(diag: seq<nat>): nat
    requires |diag| > 0
  {
    diag[|diag| - 1] + 1
  }

  /** Entry (i,j), j <= i, of the lower triangle; zero outside the profile. */
  function At<F>(zero: F, diag: seq<nat>, c: seq<F>, i: int, j: int): F
  {
    if 0 <= i < |diag| && First(diag, i) <= j <= i && 0 <= Position(diag, i, j) < |c|
    then c[Position(diag, i, j)]
    else zero
  }

  /** Entry (i,j) of the symmetric matrix whose lower triangle c stores. */
  function Sym(diag: seq<nat>, c: seq<real>, i: int, j: int): real
  {
    if j <= i then At(0.0, diag, c, i, j) else At(0.0, diag, c, j, i)
  }

  lemma PositionInRow(diag: seq<nat>, i: int, j: int)
    requires IsLayout(diag) && InProfile(diag, i, j)
    ensures i == 0 ==> Position(diag, i, j) == 0
    ensures 0 < i ==> diag[i - 1] < Position(diag, i, j) <= diag[i]
    ensures 0 <= Position(diag, i, j) < Stored(diag)
  {
    if i < |diag| - 1 {
      assert diag[i] < diag[|diag| - 1];
    }
  }

  /** Rows are stored one after the other. */
  lemma RowsInOrder(diag: seq<nat>, i: int, j: int, i': int, j': int)
    requires IsLayout(diag) && InProfile(diag, i, j) && InProfile(diag, i', j') && i < i'
    ensures Position(diag, i, j) < Position(diag, i', j')
  {
    PositionInRow(diag, i, j);
    PositionInRow(diag, i', j');
    assert i == i' - 1 || diag[i] < diag[i' - 1];
  }

  /** Two stored entries never share a storage cell. */
  lemma PositionInjective(diag: seq<nat>, i: int, j: int, i': int, j': int)
    requires IsLayout(diag) && InProfile(diag, i, j) && InProfile(diag, i', j')
    requires Position(diag, i, j) == Position(diag, i', j')
    ensures i == i' && j == j'
  {
    if i < i' {
      RowsInOrder(diag, i, j, i', j');
    } else if i' < i {
      RowsInOrder(diag, i', j', i, j);
    }
  }

  /** Every storage cell belongs to some entry of the profile. */
  lemma {:induction false} PositionSurjective(diag: seq<nat>, n: nat, p: nat) returns (i: int, j: int)
    requires IsLayout(diag) && n < |diag| && p <= diag[n]
    ensures InProfile(diag, i, j) && i <= n && Position(diag, i, j) == p
    decreases n
  {
    if n == 0 {
      i, j := 0, 0;
    } else if p <= diag[n - 1] {
      i, j := PositionSurjective(diag, n - 1, p);
    } else {
      i, j := n, p + n - diag[n];
    }
  }

  /** Row i's cells, and no other, may differ between c and c'. */
  ghost predicate OnlyRow<F>(diag: seq<nat>, c: seq<F>, c': seq<F>, i: int)
    requires 1 <= i < |diag|
  {
    && |c| == |c'|
    && forall q :: 0 <= q < |c| && !(diag[i - 1] < q <= diag[i]) ==> c'[q] == c[q]
  }

  lemma OtherRow<F>(zero: F, diag: seq<nat>, c: seq<F>, c': seq<F>, i: int, r: int, k: int)
    requires IsLayout(diag) && 1 <= i < |diag| && |c| == Stored(diag)
    requires OnlyRow(diag, c, c', i)
    requires 0 <= r < |diag| && r != i
    ensures At(zero, diag, c', r, k) == At(zero, diag, c, r, k)
  {
    if InProfile(diag, r, k) {
      PositionInRow(diag, r, k);
      assert r < i - 1 ==> diag[r] < diag[i - 1];
      assert i < r - 1 ==> diag[i] < diag[r - 1];
    }
  }

  /** Storing into cell (i,j) changes that entry only. */
  lemma StoreEntry<F>(zero: F, diag: seq<nat>, c: seq<F>, i: int, j: int, x: F)
    requires IsLayout(diag) && 1 <= i < |diag| && |c| == Stored(diag) && InProfile(diag, i, j)
    ensures 0 <= Position(diag, i, j) < |c|
    ensures var c' := c[Position(diag, i, j) := x];
            && OnlyRow(diag, c, c', i)
            && At(zero, diag, c', i, j) == x
            && forall k :: k != j ==> At(zero, diag, c', i, k) == At(zero, diag, c, i, k)
  {
    PositionInRow(diag, i, j);
  }

  lemma ReadEntry<F>(zero: F, diag: seq<nat>, c: seq<F>, i: int, j: int)
    requires IsLayout(diag) && |c| == Stored(diag) && InProfile(diag, i, j)
    ensures 0 <= Position(diag, i, j) < |c|
    ensures c[Position(diag, i, j)] == At(zero, diag, c, i, j)
  {
    PositionInRow(diag, i, j);
  }

  /** Two arrays of coefficients are equal as soon as they agree on the profile. */
  lemma EqualOnProfile<F>(zero: F, diag: seq<nat>, c: seq<F>, c': seq<F>)
    requires IsLayout(diag) && |c| == |c'| == Stored(diag)
    requires forall i, j :: InProfile(diag, i, j) ==> At(zero, diag, c, i, j) == At(zero, diag, c', i, j)
    ensures c == c'
  {
    forall q | 0 <= q < |c|
      ensures c[q] == c'[q]
    {
      var i, j := PositionSurjective(diag, |diag| - 1, q);
      assert At(zero, diag, c, i, j) == At(zero, diag, c', i, j);
    }
  }
}
