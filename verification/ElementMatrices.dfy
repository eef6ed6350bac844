/** Element matrices: how element_matrix_update of element.c reads the buffer of an element. */
module ElementMatrices {
  import opened RealSum
  import opened Matrices

  function Same(i: int, j: int, r: int, k: int): bool
  {
    (i == r && j == k) || (i == k && j == r)
  }

  /** An element matrix: the rows of the system its rows belong to, its lower triangle row by row, and the weight
      it is added with. */
  datatype ElementMatrix = ElementMatrix(g: seq<nat>, lower: seq<real>, weight: real)

  /** The number of entries in the first p rows of a lower triangle. */
  function Triangle(p: nat): nat
  {
    if p == 0 then 0 else Triangle(p - 1) + p
  }

  ghost predicate IsElementMatrix(x: ElementMatrix)
  {
    |x.lower| == Triangle(|x.g|)
  }

  lemma {:induction false} TriangleGrows(p: nat, q: nat)
    requires p <= q
    ensures Triangle(p) <= Triangle(q)
  {
    if p < q {
      TriangleGrows(p, q - 1);
    }
  }

  function Low(x: ElementMatrix, p: nat, q: nat): real
    requires IsElementMatrix(x) && q <= p < |x.g|
  {
    TriangleGrows(p + 1, |x.g|);
    x.lower[Triangle(p) + q]
  }

  /** What entry (r,k) has received once the entries of x before (p,q) are added. */
  function Scatter(x: ElementMatrix, p: nat, q: nat, r: int, k: int): real
    requires IsElementMatrix(x) && (p < |x.g| || q == 0) && q <= p + 1 && p <= |x.g|
    decreases p, q
  {
    if q > 0 then
      Scatter(x, p, q - 1, r, k) + if Same(x.g[p], x.g[q - 1], r, k) then Low(x, p, q - 1) * x.weight else 0.0
    else if p > 0 then Scatter(x, p - 1, p, r, k)
    else 0.0
  }

  /** When the unknowns of an element differ, each entry of its matrix is added to one entry of the system, once. */
  lemma {:induction false} ScatterOnce(x: ElementMatrix, p: nat, q: nat, a: nat, b: nat)
    requires IsElementMatrix(x) && (p < |x.g| || q == 0) && q <= p + 1 && p <= |x.g|
    requires forall i, j :: 0 <= i < j < |x.g| ==> x.g[i] != x.g[j]
    requires b <= a < |x.g|
    ensures Scatter(x, p, q, x.g[a], x.g[b]) == if a < p || (a == p && b < q) then Low(x, a, b) * x.weight else 0.0
    decreases p, q
  {
    if q > 0 {
      ScatterOnce(x, p, q - 1, a, b);
    } else if p > 0 {
      ScatterOnce(x, p - 1, p, a, b);
    }
  }

  /** Entries between unknowns that do not both belong to the element are left alone. */
  lemma {:induction false} ScatterElsewhere(x: ElementMatrix, p: nat, q: nat, r: int, k: int)
    requires IsElementMatrix(x) && (p < |x.g| || q == 0) && q <= p + 1 && p <= |x.g|
    requires forall i :: 0 <= i < |x.g| ==> x.g[i] != r
    ensures Scatter(x, p, q, r, k) == 0.0 && Scatter(x, p, q, k, r) == 0.0
    decreases p, q
  {
    if q > 0 {
      ScatterElsewhere(x, p, q - 1, r, k);
    } else if p > 0 {
      ScatterElsewhere(x, p - 1, p, r, k);
    }
  }

  /** The first q entries of row p. */
  function RowPart(m: Mat, p: nat, q: nat): seq<real>
  {
    if q == 0 then [] else RowPart(m, p, q - 1) + [m(p, q - 1)]
  }

  /** m(0,0), m(1,0), m(1,1), m(2,0), .. : the lower triangle of m, row by row. */
  function Packed(m: Mat, n: nat): seq<real>
  {
    if n == 0 then [] else Packed(m, n - 1) + RowPart(m, n - 1, n)
  }

  lemma {:induction false} RowPartAt(m: Mat, p: nat, q: nat)
    ensures |RowPart(m, p, q)| == q && forall j :: 0 <= j < q ==> RowPart(m, p, q)[j] == m(p, j)
  {
    if q > 0 {
      RowPartAt(m, p, q - 1);
    }
  }

  /** Entry (p,q) is at its place in the buffer. */
  lemma {:induction false} PackedAt(m: Mat, n: nat, p: nat, q: nat)
    ensures |Packed(m, n)| == Triangle(n)
    ensures q <= p < n ==> Triangle(p) + q < Triangle(n) && Packed(m, n)[Triangle(p) + q] == m(p, q)
  {
    if n > 0 {
      PackedAt(m, n - 1, p, q);
      RowPartAt(m, n - 1, n);
    }
  }

  /** The buffer holds the lower triangle of the symmetric matrix m. */
  ghost predicate Represents(m: Mat, x: ElementMatrix)
  {
    && x.lower == Packed(m, |x.g|)
    && forall a, b :: 0 <= a < |x.g| && 0 <= b < |x.g| ==> m(a, b) == m(b, a)
  }

  /** The buffer, read as a symmetric matrix. */
  function Entries(x: ElementMatrix): Mat
    requires IsElementMatrix(x)
  {
    (a, b) => if 0 <= b <= a < |x.g| then Low(x, a, b) else if 0 <= a < b < |x.g| then Low(x, b, a) else 0.0
  }

  /** Every buffer of the right size represents a matrix. */
  lemma EntriesRepresent(x: ElementMatrix)
    requires IsElementMatrix(x)
    ensures Represents(Entries(x), x)
  {
    forall p: nat | p < |x.g|
      ensures RowAgrees(Entries(x), x.lower, p)
    {
      EntriesRow(x, p);
    }
    RowsPacked(Entries(x), x.lower, |x.g|);
    assert x.lower[..|x.lower|] == x.lower;
  }

  /** Row p of m is where the buffer has it. */
  ghost predicate RowAgrees(m: Mat, lower: seq<real>, p: nat)
  {
    && Triangle(p) <= Triangle(p + 1) <= |lower|
    && RowPart(m, p, p + 1) == lower[Triangle(p)..Triangle(p + 1)]
  }

  lemma EntriesRow(x: ElementMatrix, p: nat)
    requires IsElementMatrix(x) && p < |x.g|
    ensures RowAgrees(Entries(x), x.lower, p)
  {
    TriangleGrows(p + 1, |x.g|);
    RowPartAt(Entries(x), p, p + 1);
    var row := x.lower[Triangle(p)..Triangle(p + 1)];
    forall j | 0 <= j < p + 1
      ensures RowPart(Entries(x), p, p + 1)[j] == row[j]
    {
      assert Entries(x)(p, j) == Low(x, p, j);
    }
  }

  lemma {:induction false} RowsPacked(m: Mat, lower: seq<real>, n: nat)
    requires forall p: nat :: p < n ==> RowAgrees(m, lower, p)
    ensures Triangle(n) <= |lower| && Packed(m, n) == lower[..Triangle(n)]
  {
    if n > 0 {
      RowsPacked(m, lower, n - 1);
      OneRowPacked(m, lower, n - 1);
    }
  }

  lemma OneRowPacked(m: Mat, lower: seq<real>, p: nat)
    requires RowAgrees(m, lower, p) && Packed(m, p) == lower[..Triangle(p)]
    ensures Triangle(p + 1) <= |lower| && Packed(m, p + 1) == lower[..Triangle(p + 1)]
  {
    var i, j := Triangle(p), Triangle(p + 1);
    assert lower[..i] + lower[i..j] == lower[..j];
  }

  /** Which entry of the matrix each place of the buffer is. */
  lemma LowIsEntry(x: ElementMatrix, m: Mat, p: nat, q: nat)
    requires Represents(m, x) && q <= p < |x.g|
    ensures IsElementMatrix(x) && Low(x, p, q) == m(p, q)
  {
    PackedAt(m, |x.g|, p, q);
  }

  function Across(f: Mat, a: int): Vec
  {
    b => f(a, b)
  }

  function Down(f: Mat, b: int): Vec
  {
    a => f(a, b)
  }

  function RowSums(f: Mat, n: int): Vec
  {
    a => Sum(Across(f, a), 0, n)
  }

  /** a |-> the entries of row a up to the diagonal, with or without it */
  function LowerSums(f: Mat, more: int): Vec
  {
    a => Sum(Across(f, a), 0, a + more)
  }

  /** The sum of all entries. */
  function Square(f: Mat, n: int): real
  {
    Sum(RowSums(f, n), 0, n)
  }

  lemma SquareStep(f: Mat, p: nat)
    ensures Square(f, p + 1) == Square(f, p) + Sum(Across(f, p), 0, p + 1) + Sum(Down(f, p), 0, p)
  {
    SumAdd(RowSums(f, p), Down(f, p), RowSums(f, p + 1), 0, p);
  }

  /** The entries of m between the rows of the element that are row r of the system and those that are row k. */
  function Chosen(m: Mat, g: seq<nat>, r: int, k: int): Mat
  {
    (a, b) => if 0 <= a < |g| && 0 <= b < |g| && g[a] == r && g[b] == k then m(a, b) else 0.0
  }

  /** What element_matrix_update gives entry (r,k), before the weight: all entries of m between rows that are r and rows
      that are k; on the diagonal, those of the lower triangle. */
  function Gathered(m: Mat, g: seq<nat>, r: int, k: int): real
  {
    var f := Chosen(m, g, r, k);
    if r == k then Sum(LowerSums(f, 1), 0, |g|) else Square(f, |g|)
  }

  /** The buffer loop gives every entry of the system what the entries of m say. */
  lemma ScatterIsGathered(x: ElementMatrix, m: Mat, r: int, k: int)
    requires Represents(m, x)
    ensures IsElementMatrix(x) && Scatter(x, |x.g|, 0, r, k) == Gathered(m, x.g, r, k) * x.weight
  {
    PackedAt(m, |x.g|, 0, 0);
    var f := Chosen(m, x.g, r, k);
    var h := if r == k then f else Folded(f);
    SharesAre(x, m, r, k, h);
    ScatterSums(x, Multiple(x.weight, h), |x.g|, 0, r, k);
    LowerSumsScale(x.weight, h, |x.g|);
    SquareFolds(f, |x.g|);
  }

  /** What entry (r,k) receives from the buffer for (p,q). */
  function Share(x: ElementMatrix, p: nat, q: nat, r: int, k: int): real
    requires IsElementMatrix(x) && q <= p < |x.g|
  {
    if Same(x.g[p], x.g[q], r, k) then Low(x, p, q) * x.weight else 0.0
  }

  function Multiple(c: real, f: Mat): Mat
  {
    (a, b) => c * f(a, b)
  }

  lemma SharesAre(x: ElementMatrix, m: Mat, r: int, k: int, h: Mat)
    requires Represents(m, x) && IsElementMatrix(x)
    requires h == if r == k then Chosen(m, x.g, r, k) else Folded(Chosen(m, x.g, r, k))
    ensures forall p: nat, q: nat :: q <= p < |x.g| ==> Share(x, p, q, r, k) == Multiple(x.weight, h)(p, q)
  {
    forall p: nat, q: nat | q <= p < |x.g|
      ensures Share(x, p, q, r, k) == Multiple(x.weight, h)(p, q)
    {
      LowIsEntry(x, m, p, q);
    }
  }

  lemma LowerSumsScale(c: real, h: Mat, n: int)
    ensures Sum(LowerSums(Multiple(c, h), 1), 0, n) == c * Sum(LowerSums(h, 1), 0, n)
  {
    forall a
      ensures LowerSums(Multiple(c, h), 1)(a) == c * LowerSums(h, 1)(a)
    {
      SumScale(c, Across(h, a), Across(Multiple(c, h), a), 0, a + 1);
    }
    SumScale(c, LowerSums(h, 1), LowerSums(Multiple(c, h), 1), 0, n);
  }

  lemma {:induction false} ScatterSums(x: ElementMatrix, h: Mat, p: nat, q: nat, r: int, k: int)
    requires IsElementMatrix(x) && (p < |x.g| || q == 0) && q <= p + 1 && p <= |x.g|
    requires forall a: nat, b: nat :: b <= a < |x.g| ==> Share(x, a, b, r, k) == h(a, b)
    ensures Scatter(x, p, q, r, k) == Sum(LowerSums(h, 1), 0, p) + Sum(Across(h, p), 0, q)
    decreases p, q
  {
    if q > 0 {
      ScatterSums(x, h, p, q - 1, r, k);
      assert Share(x, p, q - 1, r, k) == h(p, q - 1);
    } else if p > 0 {
      ScatterSums(x, h, p - 1, p, r, k);
    }
  }

  /** The entries of the lower triangle together with those across the diagonal. */
  function Folded(f: Mat): Mat
  {
    (a, b) => f(a, b) + if b < a then f(b, a) else 0.0
  }

  lemma {:induction false} SquareFolds(f: Mat, n: nat)
    ensures Square(f, n) == Sum(LowerSums(Folded(f), 1), 0, n)
  {
    if n > 0 {
      SquareFolds(f, n - 1);
      SquareStep(f, n - 1);
      SumAdd(Across(f, n - 1), Down(f, n - 1), Across(Folded(f), n - 1), 0, n - 1);
    }
  }

  /** When the rows of an element differ, each entry of its matrix is given to one entry of the system, once. */
  lemma GatheredOnce(x: ElementMatrix, m: Mat, a: nat, b: nat)
    requires Represents(m, x) && b <= a < |x.g| && forall i, j :: 0 <= i < j < |x.g| ==> x.g[i] != x.g[j]
    ensures Gathered(m, x.g, x.g[a], x.g[b]) * x.weight == m(a, b) * x.weight
  {
    ScatterIsGathered(x, m, x.g[a], x.g[b]);
    ScatterOnce(x, |x.g|, 0, a, b);
    LowIsEntry(x, m, a, b);
  }

  lemma {:induction false} SquareHalves(f: Mat, n: nat)
    requires forall a, b :: 0 <= a < n && 0 <= b < n ==> f(a, b) == f(b, a)
    ensures Square(f, n) == Sum(LowerSums(f, 1), 0, n) + Sum(LowerSums(f, 0), 0, n)
  {
    if n > 0 {
      SquareHalves(f, n - 1);
      SquareStep(f, n - 1);
      SumCong(Down(f, n - 1), Across(f, n - 1), 0, n - 1);
    }
  }

  /** On the diagonal the code gives what the products with the rows of the element give exactly when the entries
      between different rows of the element that are the same row of the system cancel. */
  lemma DiagonalIff(m: Mat, g: seq<nat>, r: int)
    requires forall a, b :: 0 <= a < |g| && 0 <= b < |g| ==> m(a, b) == m(b, a)
    ensures var f := Chosen(m, g, r, r);
            Gathered(m, g, r, r) == Square(f, |g|) <==> Sum(LowerSums(f, 0), 0, |g|) == 0.0
  {
    SquareHalves(Chosen(m, g, r, r), |g|);
  }

  /** An element with the same node twice: rows 0 and 1 are one row, and ((1 1)(1 1)) adds 3 to it and not 4. */
  lemma RepeatedRow(m: Mat)
    requires m(0, 0) == m(1, 0) == m(0, 1) == m(1, 1) == 1.0
    ensures Gathered(m, [0, 0], 0, 0) == 3.0 && Square(Chosen(m, [0, 0], 0, 0), 2) == 4.0
  {
    var f := Chosen(m, [0, 0], 0, 0);
    assert f(0, 0) == f(1, 0) == f(0, 1) == f(1, 1) == 1.0;
    assert Sum(Across(f, 0), 0, 1) == 1.0 && Sum(Across(f, 1), 0, 1) == 1.0;
    assert Sum(Across(f, 0), 0, 2) == 2.0 && Sum(Across(f, 1), 0, 2) == 2.0;
    assert Sum(LowerSums(f, 1), 0, 1) == 1.0 && Sum(RowSums(f, 2), 0, 1) == 2.0;
  }
}
