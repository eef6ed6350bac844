/** From the numbering to the system of equations: fem_problem_gsm of problem.c as a whole. */
module ProblemSystem {
  import opened RealSum
  import opened Matrices
  import opened Skyline
  import opened Numbering
  import opened NumberingOrder
  import opened NumberingFinish
  import opened NumberingCreate
  import opened NumberingLookup
  import opened Assembly
  import opened SystemProfile
  import opened ElementMatrices
  import opened SystemMatrix
  import opened Constraint
  import opened GlobalSystem

  /** The condition b in the rows of the system. */
  function TieOf(t: Tables, bc: seq<Part>, coefs: seq<real>, b: nat): Tie
    requires 1 <= t.Value(Lambda1(b)) && 1 <= t.Value(Lambda2(b))
    requires forall i :: 0 <= i < |bc| ==> 1 <= t.Value(Dof(bc[i].n, bc[i].d))
  {
    Tie(seq(|bc|, i requires 0 <= i < |bc| => t.Value(Dof(bc[i].n, bc[i].d)) - 1), coefs,
        t.Value(Lambda1(b)) - 1, t.Value(Lambda2(b)) - 1)
  }

  /** A finished numbering without error, for conditions on unknowns that exist. */
  ghost predicate Ready(nodes: nat, es: seq<Element>, bcs: seq<seq<Part>>, coefs: seq<seq<real>>, t: Tables,
                        order: seq<Unknown>)
  {
    && InMesh(nodes, es) && Numbered(ModelOf(nodes, es, bcs), t, order)
    && Proper(ModelOf(nodes, es, bcs)) && Enclosed(ModelOf(nodes, es, bcs), t)
    && |coefs| == |bcs| && forall b :: 0 <= b < |bcs| ==> |coefs[b]| == |bcs[b]|
  }

  lemma AllNumbered(nodes: nat, es: seq<Element>, bcs: seq<seq<Part>>, coefs: seq<seq<real>>, t: Tables,
                    order: seq<Unknown>, b: nat)
    requires Ready(nodes, es, bcs, coefs, t, order) && b < |bcs|
    ensures t.Placed(order, Lambda1(b)) && t.Placed(order, Lambda2(b))
    ensures forall i :: 0 <= i < |bcs[b]| ==> t.Placed(order, Dof(bcs[b][i].n, bcs[b][i].d))
  {
    var m := ModelOf(nodes, es, bcs);
    assert m.Genuine(Lambda1(b)) && m.Genuine(Lambda2(b));
    forall i | 0 <= i < |bcs[b]|
      ensures t.Placed(order, Dof(bcs[b][i].n, bcs[b][i].d))
    {
      assert m.Genuine(Dof(bcs[b][i].n, bcs[b][i].d));
    }
  }

  /** All conditions in the rows of the system. */
  method MakeTies(t: Tables, bcs: seq<seq<Part>>, coefs: seq<seq<real>>, ghost nodes: nat, ghost es: seq<Element>,
                  ghost order: seq<Unknown>) returns (ties: seq<Tie>)
    requires Ready(nodes, es, bcs, coefs, t, order)
    ensures |ties| == |bcs|
    ensures forall b :: 0 <= b < |bcs| ==> Ties(t, bcs[b], coefs[b], b, ties[b])
  {
    ties := [];
    var b := 0;
    while b < |bcs|
      invariant 0 <= b <= |bcs| && |ties| == b
      invariant forall c :: 0 <= c < b ==> Ties(t, bcs[c], coefs[c], c, ties[c])
    {
      AllNumbered(nodes, es, bcs, coefs, t, order, b);
      ties := ties + [TieOf(t, bcs[b], coefs[b], b)];
      b := b + 1;
    }
  }

  /** tie says the same as the condition. */
  ghost predicate Ties(t: Tables, bc: seq<Part>, coefs: seq<real>, b: nat, tie: Tie)
  {
    && tie.coefs == coefs && |tie.rows| == |bc|
    && tie.l1 == FirstRow(t, b) && tie.l2 == SecondRow(t, b)
    && forall i :: 0 <= i < |bc| ==> tie.rows[i] == RowOf(t, bc[i])
  }

  /** The rows of a condition are those of its unknowns and of its two multipliers. */
  lemma TieUnknowns(nodes: nat, es: seq<Element>, bcs: seq<seq<Part>>, coefs: seq<seq<real>>, t: Tables,
                    order: seq<Unknown>, b: nat, tie: Tie)
    requires Ready(nodes, es, bcs, coefs, t, order) && b < |bcs| && Ties(t, bcs[b], coefs[b], b, tie)
    ensures tie.l1 < |order| && order[tie.l1] == Lambda1(b) && tie.l2 < |order| && order[tie.l2] == Lambda2(b)
    ensures forall i :: 0 <= i < |bcs[b]| ==>
              tie.rows[i] < |order| && order[tie.rows[i]] == Dof(bcs[b][i].n, bcs[b][i].d)
  {
    AllNumbered(nodes, es, bcs, coefs, t, order, b);
  }

  /** Row i of the matrix of e is row nb_dof.k + r, for a degree of freedom d with r smaller ones. */
  ghost predicate IsRowOf(e: Element, k: nat, d: nat, i: nat)
  {
    && k < |e.nodes| && d < DOF_MAX && d in e.dofs
    && i == CountBelow(e.dofs, DOF_MAX) * k + |set c | c in e.dofs && c < d|
  }

  /** It is the row of the unknown of node k and d. */
  lemma ElementUnknown(nodes: nat, es: seq<Element>, bcs: seq<seq<Part>>, t: Tables, order: seq<Unknown>, u: Update,
                       x: ElementMatrix, k: nat, d: nat, i: nat)
    requires InMesh(nodes, es) && Numbered(ModelOf(nodes, es, bcs), t, order)
    requires u.e < |es| && Located(t, es, u, x) && IsRowOf(es[u.e], k, d, i)
    ensures i < |x.g| && x.g[i] < |order| && order[x.g[i]] == Dof(es[u.e].nodes[k], d)
  {
    IndexFits(es[u.e], k, d, i);
    assert RowBelongs(t, es[u.e], i, x.g[i]);
    RowAtNode(t, es[u.e], k, d, x.g[i]);
    ElementDofPlaced(nodes, es, bcs, t, order, u.e, k, d);
  }

  lemma IndexFits(e: Element, k: nat, d: nat, i: nat)
    requires IsRowOf(e, k, d, i)
    ensures i == CountBelow(e.dofs, DOF_MAX) * k + CountBelow(e.dofs, d) < CountBelow(e.dofs, DOF_MAX) * |e.nodes|
  {
    CountIsRank(e.dofs, d);
    SameRankSameDof(e.dofs, d, DOF_MAX);
    Larger(CountBelow(e.dofs, DOF_MAX), k + 1, |e.nodes|);
  }

  lemma TieFits(nodes: nat, es: seq<Element>, bcs: seq<seq<Part>>, coefs: seq<seq<real>>, t: Tables,
                order: seq<Unknown>, diag: seq<nat>, b: nat, tie: Tie)
    requires Ready(nodes, es, bcs, coefs, t, order) && b < |bcs| && Ties(t, bcs[b], coefs[b], b, tie)
    requires |diag| == |order| && IsLayout(diag) && AllPlaced(t, es, bcs, diag)
    ensures tie.Ok(|diag|) && tie.HasPlaces(diag)
  {
    OneConditionFits(nodes, es, bcs, t, order, b);
    TieOk(t, es, bcs, coefs, b, tie, |diag|);
    TiePlaced(t, es, bcs, coefs, diag, b, tie);
  }

  lemma TieOk(t: Tables, es: seq<Element>, bcs: seq<seq<Part>>, coefs: seq<seq<real>>, b: nat, tie: Tie, size: nat)
    requires b < |bcs| == |coefs| && |coefs[b]| == |bcs[b]| && Ties(t, bcs[b], coefs[b], b, tie)
    requires ConditionFits(t, es, bcs, b, size)
    ensures tie.Ok(size)
  {
  }

  lemma TiePlaced(t: Tables, es: seq<Element>, bcs: seq<seq<Part>>, coefs: seq<seq<real>>, diag: seq<nat>, b: nat,
                  tie: Tie)
    requires b < |bcs| == |coefs| && Ties(t, bcs[b], coefs[b], b, tie) && ConditionFits(t, es, bcs, b, |diag|)
    requires IsLayout(diag) && AllPlaced(t, es, bcs, diag)
    ensures tie.HasPlaces(diag)
  {
    forall i | 0 <= i < |tie.rows|
      ensures InProfile(diag, tie.rows[i], tie.l1) && InProfile(diag, tie.l2, tie.rows[i])
    {
      assert HasPlace(diag, RowOf(t, bcs[b][i]), FirstRow(t, b))
        && HasPlace(diag, SecondRow(t, b), RowOf(t, bcs[b][i]));
    }
  }

  lemma TiesApart(nodes: nat, es: seq<Element>, bcs: seq<seq<Part>>, coefs: seq<seq<real>>, t: Tables,
                  order: seq<Unknown>, a: nat, b: nat, ta: Tie, tb: Tie)
    requires Ready(nodes, es, bcs, coefs, t, order) && a < |bcs| && b < |bcs| && a != b
    requires Ties(t, bcs[a], coefs[a], a, ta) && Ties(t, bcs[b], coefs[b], b, tb)
    ensures Apart(ta, tb)
  {
    AllNumbered(nodes, es, bcs, coefs, t, order, a);
    AllNumbered(nodes, es, bcs, coefs, t, order, b);
    RowsAreNoMultipliers(nodes, es, bcs, coefs, t, order, a, b);
    RowsAreNoMultipliers(nodes, es, bcs, coefs, t, order, b, a);
    assert Lambda1(a) != Lambda1(b) && Lambda2(a) != Lambda2(b);
  }

  lemma RowsAreNoMultipliers(nodes: nat, es: seq<Element>, bcs: seq<seq<Part>>, coefs: seq<seq<real>>, t: Tables,
                             order: seq<Unknown>, a: nat, b: nat)
    requires Ready(nodes, es, bcs, coefs, t, order) && a < |bcs| && b < |bcs|
    ensures forall i :: 0 <= i < |bcs[b]| ==>
              RowOf(t, bcs[b][i]) != FirstRow(t, a) && RowOf(t, bcs[b][i]) != SecondRow(t, a)
  {
    AllNumbered(nodes, es, bcs, coefs, t, order, a);
    AllNumbered(nodes, es, bcs, coefs, t, order, b);
    forall i | 0 <= i < |bcs[b]|
      ensures RowOf(t, bcs[b][i]) != FirstRow(t, a) && RowOf(t, bcs[b][i]) != SecondRow(t, a)
    {
      assert t.Placed(order, Dof(bcs[b][i].n, bcs[b][i].d));
    }
  }

  lemma TieIsForeign(nodes: nat, es: seq<Element>, bcs: seq<seq<Part>>, coefs: seq<seq<real>>, t: Tables,
                     order: seq<Unknown>, b: nat)
    requires Ready(nodes, es, bcs, coefs, t, order) && b < |bcs|
    ensures forall e :: 0 <= e < |es| ==> FirstRow(t, b) !in Members(t, es[e]) && SecondRow(t, b) !in Members(t, es[e])
  {
    AllNumbered(nodes, es, bcs, coefs, t, order, b);
    forall e | 0 <= e < |es|
      ensures FirstRow(t, b) !in Members(t, es[e]) && SecondRow(t, b) !in Members(t, es[e])
    {
      MembersAreDofs(nodes, es, bcs, t, order, e);
    }
  }

  /** The system: conditions in the rows of the multipliers, the sum of the element matrices everywhere else. */
  ghost predicate IsSystem(diag: seq<nat>, c: seq<real>, ties: seq<Tie>, xs: seq<ElementMatrix>, alpha: real)
  {
    && IsLayout(diag) && |c| == Stored(diag) && TiesFit(diag, ties)
    && (forall i :: 0 <= i < |xs| ==> IsElementMatrix(xs[i]))
    && (forall b :: 0 <= b < |ties| ==>
          ties[b].Ok(|diag|) && MultiplierRows(diag, c, ties[b], alpha, Scaled(alpha, ties[b].coefs)))
    && forall r, k :: (forall b :: 0 <= b < |ties| ==> r != ties[b].l1 && r != ties[b].l2)
                      && (forall b :: 0 <= b < |ties| ==> k != ties[b].l1 && k != ties[b].l2)
                      ==> Sym(diag, c, r, k) == Total(xs, r, k)
  }

  /** Between rows that are no multipliers, the matrix is the sum of the element matrices ms. */
  ghost predicate SumsElements(diag: seq<nat>, c: seq<real>, ties: seq<Tie>, xs: seq<ElementMatrix>, ms: seq<Mat>)
  {
    forall r, k :: (forall b :: 0 <= b < |ties| ==> r != ties[b].l1 && r != ties[b].l2)
                   && (forall b :: 0 <= b < |ties| ==> k != ties[b].l1 && k != ties[b].l2)
                   ==> Sym(diag, c, r, k) == Sum(FromElements(ms, xs, r, k), 0, |xs|)
  }

  lemma SystemSums(diag: seq<nat>, c: seq<real>, ties: seq<Tie>, xs: seq<ElementMatrix>, alpha: real, ms: seq<Mat>)
    requires IsSystem(diag, c, ties, xs, alpha) && AllRepresented(ms, xs)
    ensures SumsElements(diag, c, ties, xs, ms)
  {
    forall r, k | (forall b :: 0 <= b < |ties| ==> r != ties[b].l1 && r != ties[b].l2)
                  && (forall b :: 0 <= b < |ties| ==> k != ties[b].l1 && k != ties[b].l2)
      ensures Sym(diag, c, r, k) == Sum(FromElements(ms, xs, r, k), 0, |xs|)
    {
      TotalIsSum(ms, xs, r, k);
    }
  }

  lemma AllSystemSums(diag: seq<nat>, c: seq<real>, ties: seq<Tie>, xs: seq<ElementMatrix>, alpha: real)
    requires IsSystem(diag, c, ties, xs, alpha)
    ensures forall ms :: AllRepresented(ms, xs) ==> SumsElements(diag, c, ties, xs, ms)
  {
    forall ms | AllRepresented(ms, xs)
      ensures SumsElements(diag, c, ties, xs, ms)
    {
      SystemSums(diag, c, ties, xs, alpha, ms);
    }
  }

  lemma ZerosAreBlank(diag: seq<nat>, c: seq<real>)
    requires forall q :: 0 <= q < |c| ==> c[q] == 0.0
    ensures forall r, k :: Sym(diag, c, r, k) == 0.0
  {
  }

  /** fem_matrix_alloc. */
  method AllocZeros(diag: seq<nat>) returns (coef: array<real>)
    requires IsLayout(diag)
    ensures fresh(coef) && coef.Length == Stored(diag) && forall r, k :: Sym(diag, coef[..], r, k) == 0.0
  {
    coef := new real[Stored(diag)](_ => 0.0);
    ZerosAreBlank(diag, coef[..]);
  }

  /** fem_problem_gsm; beta is alpha. */
  method ProblemGsm(nodes: nat, es: seq<Element>, bcs: seq<seq<Part>>, coefs: seq<seq<real>>, t: Tables, size: nat,
                    ups: seq<Update>, dblEpsilon: real, ghost order: seq<Unknown>)
    returns (diag: array<nat>, coef: array<real>, ties: seq<Tie>, xs: seq<ElementMatrix>, alpha: real)
    requires Ready(nodes, es, bcs, coefs, t, order) && size == |order| > 0
    requires forall k :: 0 <= k < |ups| ==> UpdateFits(es, ups[k])
    ensures diag.Length == size && IsSystem(diag[..], coef[..], ties, xs, alpha)
    ensures |ties| == |bcs| && forall b :: 0 <= b < |bcs| ==> Ties(t, bcs[b], coefs[b], b, ties[b])
    ensures |xs| == |ups| && forall k :: 0 <= k < |ups| ==> ups[k].e < |es| && Located(t, es, ups[k], xs[k])
    ensures forall ms :: AllRepresented(ms, xs) ==> SumsElements(diag[..], coef[..], ties, xs, ms)
  {
    NumberingFits(nodes, es, bcs, t, order);
    diag := ProblemProfile(t, es, bcs, size);
    coef := AllocZeros(diag[..]);
    xs := AssembleElements(diag[..], coef, t, es, ups, bcs);
    ties := MakeTies(t, bcs, coefs, nodes, es, order);
    TiesAreReady(nodes, es, bcs, coefs, t, order, diag[..], coef[..], ties, ups, xs);
    var max, min;
    alpha, max, min := Alpha(diag[..], coef, dblEpsilon);
    ConditionsMatrix(diag[..], coef, ties, alpha, alpha);
    AllSystemSums(diag[..], coef[..], ties, xs, alpha);
  }

  lemma TiesAreReady(nodes: nat, es: seq<Element>, bcs: seq<seq<Part>>, coefs: seq<seq<real>>, t: Tables,
                     order: seq<Unknown>, diag: seq<nat>, c: seq<real>, ties: seq<Tie>, ups: seq<Update>,
                     xs: seq<ElementMatrix>)
    requires Ready(nodes, es, bcs, coefs, t, order) && |diag| == |order|
    requires IsLayout(diag) && AllPlaced(t, es, bcs, diag)
    requires |ties| == |bcs| && forall b :: 0 <= b < |bcs| ==> Ties(t, bcs[b], coefs[b], b, ties[b])
    requires |xs| == |ups| && forall k :: 0 <= k < |ups| ==> ups[k].e < |es| && Located(t, es, ups[k], xs[k])
    requires forall i :: 0 <= i < |xs| ==> IsElementMatrix(xs[i])
    requires forall r, k :: Sym(diag, c, r, k) == Total(xs, r, k)
    ensures TiesFit(diag, ties)
    ensures forall b :: 0 <= b < |ties| ==> Blank(diag, c, ties[b].l1) && Blank(diag, c, ties[b].l2)
  {
    forall b | 0 <= b < |ties|
      ensures ties[b].Ok(|diag|) && ties[b].HasPlaces(diag)
      ensures Blank(diag, c, ties[b].l1) && Blank(diag, c, ties[b].l2)
    {
      TieFits(nodes, es, bcs, coefs, t, order, diag, b, ties[b]);
      TieIsForeign(nodes, es, bcs, coefs, t, order, b);
      forall k
        ensures Sym(diag, c, ties[b].l1, k) == 0.0 == Sym(diag, c, ties[b].l2, k)
      {
        NothingElsewhere(t, es, ups, xs, ties[b].l1, k);
        NothingElsewhere(t, es, ups, xs, ties[b].l2, k);
      }
    }
    forall a, b | 0 <= a < b < |ties|
      ensures Apart(ties[a], ties[b])
    {
      TiesApart(nodes, es, bcs, coefs, t, order, a, b, ties[a], ties[b]);
    }
  }
}
