/** fem_problem_vector of problem.c, and what a solution of the whole system means. */
module ProblemSolution {
  import opened Matrices
  import opened Numbering
  import opened NumberingFinish
  import opened NumberingLookup
  import opened ElementMatrices
  import opened SystemMatrix
  import opened Constraint
  import opened GlobalSystem
  import opened ProblemSystem
  import opened VectorDot
  import opened Loads

  /** The right-hand side: beta times its value at both multipliers of a condition, and the loads everywhere. */
  ghost predicate IsVector(m: Model, t: Tables, b: seq<real>, ties: seq<Tie>, values: seq<real>, beta: real,
                           loads: seq<Load>)
    requires m.Ok() && |values| == |ties|
  {
    && (forall k :: 0 <= k < |ties| ==>
          && ties[k].Ok(|b|)
          && b[ties[k].l1] == Product(beta, values[k]) + Added(m, t, loads, ties[k].l1)
          && b[ties[k].l2] == Product(beta, values[k]) + Added(m, t, loads, ties[k].l2))
    && forall i :: 0 <= i < |b| && (forall k :: 0 <= k < |ties| ==> i != ties[k].l1 && i != ties[k].l2) ==>
         b[i] == Added(m, t, loads, i)
  }

  lemma LoadsInRange(m: Model, t: Tables, order: seq<Unknown>, loads: seq<Load>)
    requires Numbered(m, t, order) && |order| > 0 && forall k :: 0 <= k < |loads| ==> loads[k].n <= m.nodes
    ensures InRange(m, t, loads, |order|)
  {
    forall k | 0 <= k < |loads| && Taken(m, t, loads[k])
      ensures t.Value(Dof(loads[k].n, loads[k].d)) <= |order|
    {
      ActiveIsTaken(m, t, order, loads[k]);
      assert loads[k].n == m.nodes ==> !m.Active(m.nodes, loads[k].d);
    }
  }

  /** fem_problem_vector. */
  method ProblemVector(m: Model, t: Tables, size: nat, diag: seq<nat>, ties: seq<Tie>, values: seq<real>, beta: real,
                       loads: seq<Load>, ghost order: seq<Unknown>) returns (b: array<real>)
    requires Numbered(m, t, order) && size == |order| == |diag| > 0 && TiesFit(diag, ties) && |values| == |ties|
    requires forall k :: 0 <= k < |loads| ==> loads[k].n <= m.nodes
    ensures fresh(b) && b.Length == size && IsVector(m, t, b[..], ties, values, beta, loads)
  {
    b := new real[size](_ => 0.0);
    ConditionsVector(b, diag, ties, values, beta);
    ghost var conditions := b[..];
    LoadsInRange(m, t, order, loads);
    LoadVector(b, loads, m, t);
    assert forall i :: 0 <= i < size ==> b[i] == conditions[i] + Added(m, t, loads, i);
  }

  /** x solves the system for the right-hand side b. */
  ghost predicate Solves(diag: seq<nat>, c: seq<real>, x: Vec, b: seq<real>)
  {
    |b| == |diag| && forall i :: 0 <= i < |diag| ==> Times(SymOf(diag, c), x, |diag|, i) == b[i]
  }

  /** Main result: a solution of the assembled system meets what is kept of a condition if and only if the loads that
      went to its two multipliers cancel, and the condition as it is written if and only if they cancel the terms that
      were overwritten. */
  lemma SolutionMeetsIff(m: Model, t: Tables, diag: seq<nat>, c: seq<real>, ties: seq<Tie>, xs: seq<ElementMatrix>,
                         alpha: real, b: seq<real>, values: seq<real>, loads: seq<Load>, x: Vec, k: nat)
    requires m.Ok() && IsSystem(diag, c, ties, xs, alpha) && alpha != 0.0 && k < |ties| == |values|
    requires IsVector(m, t, b, ties, values, alpha, loads) && Solves(diag, c, x, b)
    ensures ties[k].Ok(|diag|)
    ensures var added := Added(m, t, loads, ties[k].l1) + Added(m, t, loads, ties[k].l2);
            && (ties[k].Imposed(x) == values[k] <==> added == 0.0)
            && (ties[k].Written(x) == values[k] <==> added + 2.0 * Product(alpha, ties[k].Overwritten(x)) == 0.0)
  {
    var tie := ties[k];
    assert tie.Ok(|diag|);
    SolutionMeetsConditionIff(diag, c, tie, alpha, alpha, x, b[tie.l1], b[tie.l2], values[k]);
  }

  lemma TiesUnloaded(nodes: nat, es: seq<Element>, bcs: seq<seq<Part>>, coefs: seq<seq<real>>, t: Tables,
                     order: seq<Unknown>, tie: Tie, loads: seq<Load>, k: nat)
    requires Ready(nodes, es, bcs, coefs, t, order) && k < |bcs| && Ties(t, bcs[k], coefs[k], k, tie)
    requires forall i :: 0 <= i < |loads| ==> loads[i].n < nodes
    ensures Added(ModelOf(nodes, es, bcs), t, loads, tie.l1) == 0.0 == Added(ModelOf(nodes, es, bcs), t, loads, tie.l2)
  {
    AllNumbered(nodes, es, bcs, coefs, t, order, k);
    MultipliersUnloaded(ModelOf(nodes, es, bcs), t, order, loads, tie.l1);
    MultipliersUnloaded(ModelOf(nodes, es, bcs), t, order, loads, tie.l2);
  }

  /** With loads on existing nodes only, every solution meets what is kept of every condition, and a condition as it is
      written if and only if the terms overwritten add up to zero. */
  lemma SolutionMeetsConditions(nodes: nat, es: seq<Element>, bcs: seq<seq<Part>>, coefs: seq<seq<real>>, t: Tables,
                                order: seq<Unknown>, diag: seq<nat>, c: seq<real>, ties: seq<Tie>,
                                xs: seq<ElementMatrix>, alpha: real, b: seq<real>, values: seq<real>, loads: seq<Load>,
                                x: Vec, k: nat)
    requires Ready(nodes, es, bcs, coefs, t, order) && IsSystem(diag, c, ties, xs, alpha) && alpha != 0.0
    requires k < |ties| == |bcs| == |values| && Ties(t, bcs[k], coefs[k], k, ties[k])
    requires forall i :: 0 <= i < |loads| ==> loads[i].n < nodes
    requires IsVector(ModelOf(nodes, es, bcs), t, b, ties, values, alpha, loads) && Solves(diag, c, x, b)
    ensures ties[k].Imposed(x) == values[k]
    ensures ties[k].Written(x) == values[k] <==> ties[k].Overwritten(x) == 0.0
  {
    TiesUnloaded(nodes, es, bcs, coefs, t, order, ties[k], loads, k);
    SolutionMeetsIff(ModelOf(nodes, es, bcs), t, diag, c, ties, xs, alpha, b, values, loads, x, k);
    SameProducts(alpha, ties[k].Overwritten(x), 0.0);
  }

  /** Parts on different unknowns have different rows, and nothing is overwritten. */
  lemma DistinctPartsKept(nodes: nat, es: seq<Element>, bcs: seq<seq<Part>>, coefs: seq<seq<real>>, t: Tables,
                          order: seq<Unknown>, tie: Tie, x: Vec, k: nat)
    requires Ready(nodes, es, bcs, coefs, t, order) && k < |bcs| && Ties(t, bcs[k], coefs[k], k, tie)
    requires forall i, j :: 0 <= i < j < |bcs[k]| ==> bcs[k][i] != bcs[k][j]
    ensures tie.Overwritten(x) == 0.0
  {
    AllNumbered(nodes, es, bcs, coefs, t, order, k);
    forall i, j | 0 <= i < j < |tie.rows|
      ensures tie.rows[i] != tie.rows[j]
    {
      var p, q := bcs[k][i], bcs[k][j];
      assert p != q && t.Placed(order, Dof(p.n, p.d)) && t.Placed(order, Dof(q.n, q.d));
    }
    NothingLost(tie.coefs, tie.rows, x);
  }

  /** DX5 - DX5 = 0, which holds whatever DX5 is, fixes it at zero; DX5 + DX5 = 2 fixes it at two and not at one. */
  lemma RepeatedUnknown(r: nat, l1: nat, l2: nat, x: Vec)
    ensures var tie := Tie([r, r], [1.0, -1.0], l1, l2);
            && tie.Written(x) == 0.0
            && (tie.Imposed(x) == 0.0 <==> x(r) == 0.0)
    ensures var tie := Tie([r, r], [1.0, 1.0], l1, l2);
            && (tie.Written(x) == 2.0 <==> x(r) == 1.0)
            && (tie.Imposed(x) == 2.0 <==> x(r) == 2.0)
  {
    TwoParts([1.0, -1.0], r, x);
    TwoParts([1.0, 1.0], r, x);
  }

  lemma TwoParts(v: seq<real>, r: nat, x: Vec)
    requires |v| == 2
    ensures Weighted(v, [r, r], x) == Product(v[0], x(r)) + Product(v[1], x(r))
    ensures Weighted(Kept(v, [r, r]), [r, r], x) == Product(v[1], x(r))
  {
    var rows := [r, r];
    WeightedPair(v, rows, x);
    WeightedPair(Kept(v, rows), rows, x);
    assert rows[1] == rows[0];
    assert !Last(rows, 0, 2) && Last(rows, 1, 2);
    ZeroTimes(0.0, x(r));
  }

  lemma WeightedPair(v: seq<real>, rows: seq<nat>, x: Vec)
    requires |v| == |rows| == 2
    ensures Weighted(v, rows, x) == Product(v[0], x(rows[0])) + Product(v[1], x(rows[1]))
  {
    assert Weighted(v[1..], rows[1..], x) == Product(v[1], x(rows[1])) + Weighted(v[1..][1..], rows[1..][1..], x);
  }

  /** A load on a node that does not exist breaks the condition whose first multiplier has number 1, whatever the
      solution. */
  lemma MissingNodeBreaks(nodes: nat, es: seq<Element>, bcs: seq<seq<Part>>, coefs: seq<seq<real>>, t: Tables,
                          order: seq<Unknown>, diag: seq<nat>, c: seq<real>, ties: seq<Tie>, xs: seq<ElementMatrix>,
                          alpha: real, b: seq<real>, values: seq<real>, load: Load, x: Vec, k: nat)
    requires Ready(nodes, es, bcs, coefs, t, order) && IsSystem(diag, c, ties, xs, alpha) && alpha != 0.0
    requires k < |ties| == |bcs| == |values| && Ties(t, bcs[k], coefs[k], k, ties[k])
    requires t.Value(Lambda1(k)) == 1
    requires load.n == nodes && load.d < DOF_MAX && ModelOf(nodes, es, bcs).has[load.d] && load.value != 0.0
    requires IsVector(ModelOf(nodes, es, bcs), t, b, ties, values, alpha, [load]) && Solves(diag, c, x, b)
    ensures ties[k].Imposed(x) != values[k]
    ensures ties[k].Written(x) == values[k] <==> load.value + 2.0 * Product(alpha, ties[k].Overwritten(x)) == 0.0
  {
    TieLoaded(nodes, es, bcs, coefs, t, order, |diag|, ties[k], load, k);
    SolutionMeetsIff(ModelOf(nodes, es, bcs), t, diag, c, ties, xs, alpha, b, values, [load], x, k);
  }

  lemma TieLoaded(nodes: nat, es: seq<Element>, bcs: seq<seq<Part>>, coefs: seq<seq<real>>, t: Tables,
                  order: seq<Unknown>, size: nat, tie: Tie, load: Load, k: nat)
    requires Ready(nodes, es, bcs, coefs, t, order) && k < |bcs| && Ties(t, bcs[k], coefs[k], k, tie) && tie.Ok(size)
    requires t.Value(Lambda1(k)) == 1
    requires load.n == nodes && load.d < DOF_MAX && ModelOf(nodes, es, bcs).has[load.d]
    ensures Added(ModelOf(nodes, es, bcs), t, [load], tie.l1) == load.value
    ensures Added(ModelOf(nodes, es, bcs), t, [load], tie.l2) == 0.0
  {
    AllNumbered(nodes, es, bcs, coefs, t, order, k);
    MissingNodeLoadsFirst(ModelOf(nodes, es, bcs), t, order, load, tie.l1);
    MissingNodeLoadsFirst(ModelOf(nodes, es, bcs), t, order, load, tie.l2);
  }
}
