/** Finite sums of reals, the algebra behind every matrix product of the model. */
module RealSum {

  // f(lo) + ... + f(hi - 1)
  function Sum(f: int -> real, lo: int, hi: int): real
    decreases hi - lo
  {
    if hi <= lo then 0.0 else Sum(f, lo, hi - 1) + f(hi - 1)
  }

  lemma {:induction false} SumCong(f: int -> real, g: int -> real, lo: int, hi: int)
    requires forall k :: lo <= k < hi ==> f(k) == g(k)
    ensures Sum(f, lo, hi) == Sum(g, lo, hi)
    decreases hi - lo
  {
    if lo < hi {
      SumCong(f, g, lo, hi - 1);
    }
  }

  lemma {:induction false} SumZero(f: int -> real, lo: int, hi: int)
    requires forall k :: lo <= k < hi ==> f(k) == 0.0
    ensures Sum(f, lo, hi) == 0.0
    decreases hi - lo
  {
    if lo < hi {
      SumZero(f, lo, hi - 1);
    }
  }

  lemma {:induction false} SumSplit(f: int -> real, lo: int, mid: int, hi: int)
    requires lo <= mid <= hi
    ensures Sum(f, lo, hi) == Sum(f, lo, mid) + Sum(f, mid, hi)
    decreases hi - mid
  {
    if mid < hi {
      SumSplit(f, lo, mid, hi - 1);
    }
  }

  lemma {:induction false} SumAdd(f: int -> real, g: int -> real, h: int -> real, lo: int, hi: int)
    requires forall k :: lo <= k < hi ==> h(k) == f(k) + g(k)
    ensures Sum(h, lo, hi) == Sum(f, lo, hi) + Sum(g, lo, hi)
    decreases hi - lo
  {
    if lo < hi {
      SumAdd(f, g, h, lo, hi - 1);
    }
  }

  lemma {:induction false} SumScale(c: real, f: int -> real, h: int -> real, lo: int, hi: int)
    requires forall k :: lo <= k < hi ==> h(k) == c * f(k)
    ensures Sum(h, lo, hi) == c * Sum(f, lo, hi)
    decreases hi - lo
  {
    if lo < hi {
      SumScale(c, f, h, lo, hi - 1);
    }
  }

  lemma {:induction false} SumShift(f: int -> real, g: int -> real, off: int, n: nat)
    requires forall k :: 0 <= k < n ==> f(k) == g(off + k)
    ensures Sum(f, 0, n) == Sum(g, off, off + n)
    decreases n
  {
    if n > 0 {
      SumShift(f, g, off, n - 1);
    }
  }

  // A sum taken from its first term.
  lemma SumFirst(f: int -> real, lo: int, hi: int)
    requires lo < hi
    ensures Sum(f, lo, hi) == f(lo) + Sum(f, lo + 1, hi)
  {
    SumSplit(f, lo, lo + 1, hi);
    assert Sum(f, lo, lo + 1) == Sum(f, lo, lo) + f(lo);
  }

  // Leading zeros do not change a sum.
  lemma SumPadded(f: int -> real, g: int -> real, off: nat, n: nat)
    requires forall k :: 0 <= k < off ==> g(k) == 0.0
    requires forall k :: 0 <= k < n ==> f(k) == g(off + k)
    ensures Sum(f, 0, n) == Sum(g, 0, off + n)
  {
    SumSplit(g, 0, off, off + n);
    SumZero(g, 0, off);
    SumShift(f, g, off, n);
  }

  // A sum with at most one non-zero term is that term.
  lemma SumSingle(f: int -> real, at: int, lo: int, hi: int)
    requires lo <= at < hi
    requires forall k :: lo <= k < hi && k != at ==> f(k) == 0.0
    ensures Sum(f, lo, hi) == f(at)
  {
    SumSplit(f, lo, at, hi);
    SumSplit(f, at, at + 1, hi);
    SumZero(f, lo, at);
    SumZero(f, at + 1, hi);
    assert Sum(f, at, at + 1) == Sum(f, at, at) + f(at);
  }

  // The order of summation does not matter.
  lemma {:induction false} SumSwap(f: (int, int) -> real, m: int, n: int)
    ensures Sum(i => Sum(j => f(i, j), 0, n), 0, m) == Sum(j => Sum(i => f(i, j), 0, m), 0, n)
    decreases m
  {
    var rows := i => Sum(j => f(i, j), 0, n);
    var cols := j => Sum(i => f(i, j), 0, m);
    if m <= 0 {
      SumZero(cols, 0, n);
    } else {
      var before := j => Sum(i => f(i, j), 0, m - 1);
      SumSwap(f, m - 1, n);
      SumAdd(before, j => f(m - 1, j), cols, 0, n);
    }
  }

  // A double sum taken by rows and by columns.
  lemma SumBothWays(f: (int, int) -> real, rows: int -> real, cols: int -> real, n: int)
    requires forall i :: 0 <= i < n ==> Sum(j => f(i, j), 0, n) == rows(i)
    requires forall j :: 0 <= j < n ==> Sum(i => f(i, j), 0, n) == cols(j)
    ensures Sum(rows, 0, n) == Sum(cols, 0, n)
  {
    SumSwap(f, n, n);
    SumCong(i => Sum(j => f(i, j), 0, n), rows, 0, n);
    SumCong(j => Sum(i => f(i, j), 0, n), cols, 0, n);
  }
}
