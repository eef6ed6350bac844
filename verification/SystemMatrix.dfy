/** Assembly of element matrices into the packed system matrix: element_matrix_update of element.c. */
module SystemMatrix {
  import opened RealSum
  import opened Matrices
  import opened Skyline
  import opened Numbering
  import opened NumberingFinish
  import opened Assembly
  import opened SystemProfile
  import opened ElementMatrices

  /** element_matrix_update_do: both halves of the matrix are one cell. */
  method UpdateEntry(diag: seq<nat>, coef: array<real>, i: nat, j: nat, value: real)
    requires IsLayout(diag) && coef.Length == Stored(diag) && HasPlace(diag, i, j)
    modifies coef
    ensures forall r, k :: Sym(diag, coef[..], r, k)
                        == Sym(diag, old(coef[..]), r, k) + if Same(i, j, r, k) then value else 0.0
  {
    ghost var c := coef[..];
    if i < j {
      PositionInRow(diag, j, i);
      coef[diag[j] + i - j] := coef[diag[j] + i - j] + value;
      OneCell(diag, c, coef[..], j, i, value);
    } else {
      PositionInRow(diag, i, j);
      coef[diag[i] + j - i] := coef[diag[i] + j - i] + value;
      OneCell(diag, c, coef[..], i, j, value);
    }
  }

  lemma OneCell(diag: seq<nat>, c: seq<real>, c': seq<real>, i: int, j: int, value: real)
    requires IsLayout(diag) && |c| == Stored(diag) && InProfile(diag, i, j)
    requires 0 <= Position(diag, i, j) < |c| && c' == c[Position(diag, i, j) := c[Position(diag, i, j)] + value]
    ensures forall r, k :: Sym(diag, c', r, k) == Sym(diag, c, r, k) + if Same(i, j, r, k) then value else 0.0
  {
    forall r, k | k <= r
      ensures At(0.0, diag, c', r, k) == At(0.0, diag, c, r, k) + if r == i && k == j then value else 0.0
    {
      if InProfile(diag, r, k) {
        PositionInRow(diag, r, k);
        if Position(diag, r, k) == Position(diag, i, j) {
          PositionInjective(diag, r, k, i, j);
        }
      } else {
        assert r != i || k != j;
      }
    }
  }

  ghost predicate Scattered(diag: seq<nat>, c: seq<real>, c': seq<real>, x: ElementMatrix, p: nat, q: nat)
    requires IsElementMatrix(x) && (p < |x.g| || q == 0) && q <= p + 1 && p <= |x.g|
  {
    |c'| == |c| && forall r, k :: Sym(diag, c', r, k) == Sym(diag, c, r, k) + Scatter(x, p, q, r, k)
  }

  lemma ScatterNext(diag: seq<nat>, c: seq<real>, c': seq<real>, c'': seq<real>, x: ElementMatrix, p: nat, q: nat)
    requires IsElementMatrix(x) && q <= p < |x.g| && Scattered(diag, c, c', x, p, q) && |c''| == |c'|
    requires forall r, k ::
               Sym(diag, c'', r, k) == Sym(diag, c', r, k)
                                       + if Same(x.g[p], x.g[q], r, k) then Low(x, p, q) * x.weight else 0.0
    ensures Scattered(diag, c, c'', x, p, q + 1)
  {
    forall r, k
      ensures Sym(diag, c'', r, k) == Sym(diag, c, r, k) + Scatter(x, p, q + 1, r, k)
    {
      assert Sym(diag, c', r, k) == Sym(diag, c, r, k) + Scatter(x, p, q, r, k);
    }
  }

  /** element_matrix_update, for rows already translated to rows of the system. */
  method UpdateMatrix(diag: seq<nat>, coef: array<real>, x: ElementMatrix)
    requires IsLayout(diag) && coef.Length == Stored(diag) && IsElementMatrix(x)
    requires forall a, b :: 0 <= b <= a < |x.g| ==> HasPlace(diag, x.g[a], x.g[b])
    modifies coef
    ensures Scattered(diag, old(coef[..]), coef[..], x, |x.g|, 0)
    ensures forall m: Mat :: Represents(m, x) ==> Gives(diag, old(coef[..]), coef[..], m, x.g, x.weight)
  {
    ghost var c := coef[..];
    var offset, p := 0, 0;
    while p < |x.g|
      invariant 0 <= p <= |x.g| && offset == Triangle(p) && Scattered(diag, c, coef[..], x, p, 0)
    {
      TriangleGrows(p + 1, |x.g|);
      var q := 0;
      while q <= p
        invariant 0 <= q <= p + 1 && Scattered(diag, c, coef[..], x, p, q)
      {
        ghost var before := coef[..];
        UpdateEntry(diag, coef, x.g[p], x.g[q], x.lower[offset + q] * x.weight);
        ScatterNext(diag, c, before, coef[..], x, p, q);
        q := q + 1;
      }
      NextRow(diag, c, coef[..], x, p);
      offset := offset + p + 1;
      p := p + 1;
    }
    forall m: Mat | Represents(m, x)
      ensures Gives(diag, c, coef[..], m, x.g, x.weight)
    {
      ScatteredGives(diag, c, coef[..], x, m);
    }
  }

  /** What the entries receive, from the entries of the element matrix. */
  ghost predicate Gives(diag: seq<nat>, c: seq<real>, c': seq<real>, m: Mat, g: seq<nat>, weight: real)
  {
    |c'| == |c| && forall r, k :: Sym(diag, c', r, k) == Sym(diag, c, r, k) + Gathered(m, g, r, k) * weight
  }

  lemma ScatteredGives(diag: seq<nat>, c: seq<real>, c': seq<real>, x: ElementMatrix, m: Mat)
    requires IsElementMatrix(x) && Represents(m, x) && Scattered(diag, c, c', x, |x.g|, 0)
    ensures Gives(diag, c, c', m, x.g, x.weight)
  {
    forall r, k
      ensures Sym(diag, c', r, k) == Sym(diag, c, r, k) + Gathered(m, x.g, r, k) * x.weight
    {
      ScatterIsGathered(x, m, r, k);
      assert Sym(diag, c', r, k) == Sym(diag, c, r, k) + Scatter(x, |x.g|, 0, r, k);
    }
  }

  lemma NextRow(diag: seq<nat>, c: seq<real>, c': seq<real>, x: ElementMatrix, p: nat)
    requires IsElementMatrix(x) && p < |x.g| && Scattered(diag, c, c', x, p, p + 1)
    ensures Scattered(diag, c, c', x, p + 1, 0)
  {
    forall r, k
      ensures Sym(diag, c', r, k) == Sym(diag, c, r, k) + Scatter(x, p + 1, 0, r, k)
    {
      assert Scatter(x, p + 1, 0, r, k) == Scatter(x, p, p + 1, r, k);
    }
  }

  /** How many degrees of freedom below d an element has. */
  function CountBelow(dofs: set<nat>, d: nat): nat
  {
    if d == 0 then 0 else CountBelow(dofs, d - 1) + if d - 1 in dofs then 1 else 0
  }

  /** element_matrix_compute_dof: the n-th degree of freedom, from 0. */
  method NthDof(dofs: set<nat>, n: nat) returns (d: nat)
    requires n < CountBelow(dofs, DOF_MAX)
    ensures d < DOF_MAX && d in dofs && CountBelow(dofs, d) == n
  {
    var left := n;
    d := 0;
    while d < DOF_MAX
      invariant 0 <= d <= DOF_MAX && left >= 0 && left + CountBelow(dofs, d) == n
    {
      if d in dofs {
        if left == 0 {
          break;
        }
        left := left - 1;
      }
      d := d + 1;
    }
  }

  lemma {:induction false} SameRankSameDof(dofs: set<nat>, c: nat, d: nat)
    requires c < d && c in dofs
    ensures CountBelow(dofs, c) < CountBelow(dofs, d)
    decreases d
  {
    if c < d - 1 {
      SameRankSameDof(dofs, c, d - 1);
    }
  }

  lemma {:induction false} CountIsRank(dofs: set<nat>, d: nat)
    ensures CountBelow(dofs, d) == |set c | c in dofs && c < d|
  {
    if d > 0 {
      CountIsRank(dofs, d - 1);
      var less := set c | c in dofs && c < d - 1;
      assert (set c | c in dofs && c < d) == if d - 1 in dofs then less + {d - 1} else less;
    }
  }

  lemma Quotient(i: nat, m: nat, n: nat)
    requires m > 0 && i < m * n
    ensures i / m < n && i % m < m && i == m * (i / m) + i % m
  {
    if i / m >= n {
      Larger(m, n, i / m);
    }
  }

  lemma Larger(m: nat, a: nat, b: nat)
    requires a <= b
    ensures m * a <= m * b
  {
  }

  /** Row i of an element matrix belongs to degree of freedom i modulo nb_dof at node i divided by nb_dof. */
  ghost predicate RowBelongs(t: Tables, e: Element, i: nat, row: int)
  {
    var m := CountBelow(e.dofs, DOF_MAX);
    && m > 0 && i / m < |e.nodes|
    && exists d: nat :: d < DOF_MAX && d in e.dofs && CountBelow(e.dofs, d) == i % m
                        && row == RowOf(t, Part(e.nodes[i / m], d))
  }

  /** The rows of an element matrix go node by node, and at a node by degree of freedom. */
  lemma RowAtNode(t: Tables, e: Element, k: nat, d: nat, row: int)
    requires k < |e.nodes| && d < DOF_MAX && d in e.dofs
    requires RowBelongs(t, e, CountBelow(e.dofs, DOF_MAX) * k + CountBelow(e.dofs, d), row)
    ensures row == t.Value(Dof(e.nodes[k], d)) - 1
  {
    var m, r := CountBelow(e.dofs, DOF_MAX), CountBelow(e.dofs, d);
    SameRankSameDof(e.dofs, d, DOF_MAX);
    DivideBack(m, k, r);
    forall c: nat | c in e.dofs && CountBelow(e.dofs, c) == r
      ensures c == d
    {
      if c < d {
        SameRankSameDof(e.dofs, c, d);
      } else if d < c {
        SameRankSameDof(e.dofs, d, c);
      }
    }
  }

  lemma DivideBack(m: nat, k: nat, r: nat)
    requires r < m
    ensures (m * k + r) / m == k && (m * k + r) % m == r
  {
    var i := m * k + r;
    assert i == m * (i / m) + i % m;
    if i / m < k {
      Larger(m, i / m + 1, k);
    } else if k < i / m {
      Larger(m, k + 1, i / m);
    }
  }

  /** The rows of the system for the rows of an element matrix, as element_matrix_update looks them up. */
  method ElementRows(t: Tables, e: Element, size: nat) returns (g: seq<nat>)
    requires Inside(Members(t, e), size)
    ensures |g| == CountBelow(e.dofs, DOF_MAX) * |e.nodes|
    ensures forall i :: 0 <= i < |g| ==> RowBelongs(t, e, i, g[i]) && g[i] in Members(t, e)
  {
    g := [];
    var m, d := 0, 0;
    while d < DOF_MAX
      invariant 0 <= d <= DOF_MAX && m == CountBelow(e.dofs, d)
    {
      if d in e.dofs {
        m := m + 1;
      }
      d := d + 1;
    }
    var i := 0;
    while i < m * |e.nodes|
      invariant |g| == i <= m * |e.nodes|
      invariant forall k :: 0 <= k < i ==> RowBelongs(t, e, k, g[k]) && g[k] in Members(t, e)
    {
      Quotient(i, m, |e.nodes|);
      var dof := NthDof(e.dofs, i % m);
      var node := e.nodes[i / m];
      var row := t.Value(Dof(node, dof)) - 1;
      RowIsMember(t, e, size, i / m, dof);
      assert RowBelongs(t, e, i, row);
      g := g + [row];
      i := i + 1;
    }
  }

  lemma RowIsMember(t: Tables, e: Element, size: nat, k: nat, d: nat)
    requires Inside(Members(t, e), size) && k < |e.nodes| && d < DOF_MAX && d in e.dofs
    ensures RowOf(t, Part(e.nodes[k], d)) in Members(t, e) && 0 <= RowOf(t, Part(e.nodes[k], d)) < size
  {
    assert RowOf(t, Part(e.nodes[k], d)) in AtNode(t, e, e.nodes[k]);
  }

  /** element_matrix_update: nothing is ever written outside the storage, whatever the element. */
  method AddElement(diag: seq<nat>, coef: array<real>, t: Tables, es: seq<Element>, e: nat,
                    lower: seq<real>, weight: real, ghost bcs: seq<seq<Part>>) returns (x: ElementMatrix)
    requires IsLayout(diag) && coef.Length == Stored(diag) && e < |es|
    requires Inside(Members(t, es[e]), |diag|) && AllPlaced(t, es, bcs, diag)
    requires |lower| == Triangle(CountBelow(es[e].dofs, DOF_MAX) * |es[e].nodes|)
    modifies coef
    ensures x.lower == lower && x.weight == weight && IsElementMatrix(x)
    ensures |x.g| == CountBelow(es[e].dofs, DOF_MAX) * |es[e].nodes|
    ensures forall i :: 0 <= i < |x.g| ==> RowBelongs(t, es[e], i, x.g[i]) && x.g[i] in Members(t, es[e])
    ensures Scattered(diag, old(coef[..]), coef[..], x, |x.g|, 0)
  {
    var g := ElementRows(t, es[e], |diag|);
    x := ElementMatrix(g, lower, weight);
    forall a, b | 0 <= b <= a < |g|
      ensures HasPlace(diag, g[a], g[b])
    {
      assert Coupled(t, es, g[a], g[b]);
    }
    UpdateMatrix(diag, coef, x);
  }
}
