/** From half-bandwidths to storage offsets: problem_matrix of problem.c. */
module Profile {
  import opened Skyline

  /** What the profile loops leave in diag[i]: how far row i reaches left of its diagonal. */
  ghost predicate IsProfile(w: seq<nat>)
  {
    forall i :: 0 <= i < |w| ==> w[i] <= i
  }

  /** The rows before i have their offsets, the others their widths. */
  ghost predicate Summed(w: seq<nat>, diag: seq<nat>, i: nat)
  {
    && 1 <= i <= |diag| == |w| && diag[0] == 0
    && (forall k, m :: 0 <= k < m < i ==> diag[k] < diag[m])
    && (forall k :: 1 <= k < i ==> First(diag, k) == k - w[k])
    && (forall k :: i <= k < |diag| ==> diag[k] == w[k])
  }

  lemma ProfileStep(w: seq<nat>, before: seq<nat>, diag: seq<nat>, i: nat)
    requires Summed(w, before, i) && i < |w| && diag == before[i := before[i] + before[i - 1] + 1]
    ensures Summed(w, diag, i + 1)
  {
    forall k | 1 <= k <= i
      ensures First(diag, k) == k - w[k]
    {
      assert k < i ==> First(diag, k) == First(before, k);
    }
    forall k | 0 <= k < i
      ensures diag[k] < diag[i]
    {
      assert k < i - 1 ==> before[k] < before[i - 1];
    }
  }

  /** The prefix sums of problem_matrix, in place. */
  method FinishProfile(diag: array<nat>)
    requires diag.Length > 0 && IsProfile(diag[..])
    modifies diag
    ensures IsLayout(diag[..])
    ensures forall i :: 0 <= i < diag.Length ==> First(diag[..], i) == i - old(diag[i])
  {
    ghost var w := diag[..];
    var i := 1;
    while i < diag.Length
      invariant 1 <= i <= diag.Length
      invariant Summed(w, diag[..], i)
    {
      ghost var before := diag[..];
      diag[i] := diag[i] + diag[i - 1] + 1;
      ProfileStep(w, before, diag[..], i);
      i := i + 1;
    }
  }

  /** Cell q holds entry (i,j). */
  ghost predicate Stores(diag: seq<nat>, i: int, j: int, q: int)
  {
    InProfile(diag, i, j) && Position(diag, i, j) == q
  }

  /** The offsets number the entries of the profile without gap or repetition: every cell belongs to exactly
      one entry, and every entry has a cell. */
  lemma PackedExactly(diag: seq<nat>, q: nat)
    requires IsLayout(diag) && q < Stored(diag)
    ensures exists i, j :: Stores(diag, i, j, q)
    ensures forall i, j, i', j' :: Stores(diag, i, j, q) && Stores(diag, i', j', q) ==> i == i' && j == j'
    ensures forall i, j :: InProfile(diag, i, j) ==> 0 <= Position(diag, i, j) < Stored(diag)
  {
    var i, j := PositionSurjective(diag, |diag| - 1, q);
    assert Stores(diag, i, j, q);
    forall i, j, i', j' | Stores(diag, i, j, q) && Stores(diag, i', j', q)
      ensures i == i' && j == j'
    {
      PositionInjective(diag, i, j, i', j');
    }
    forall i, j | InProfile(diag, i, j)
      ensures 0 <= Position(diag, i, j) < Stored(diag)
    {
      PositionInRow(diag, i, j);
    }
  }
}
