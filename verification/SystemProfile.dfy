/** problem_matrix of problem.c: the storage layout covers everything that is written into the matrix. */
module SystemProfile {
  import opened Skyline
  import opened Profile
  import opened Numbering
  import opened NumberingOrder
  import opened NumberingGoal
  import opened NumberingFinish
  import opened NumberingCreate
  import opened NumberingLookup
  import opened Assembly

  /** The numbering keeps elements and conditions within the matrix. */
  ghost predicate SystemFits(t: Tables, es: seq<Element>, bcs: seq<seq<Part>>, size: nat)
  {
    && (forall e :: 0 <= e < |es| ==> Inside(Members(t, es[e]), size))
    && (forall b :: 0 <= b < |bcs| ==> ConditionFits(t, es, bcs, b, size))
  }

  ghost predicate ConditionsCovered(t: Tables, bcs: seq<seq<Part>>, w: seq<nat>, upTo: nat)
  {
    forall b :: 0 <= b < |bcs| && b < upTo ==> ConditionCovered(t, bcs[b], b, w)
  }

  lemma CoverKept(t: Tables, es: seq<Element>, bcs: seq<seq<Part>>, b: nat, w: seq<nat>, w': seq<nat>)
    requires |w| == |w'| && forall k :: 0 <= k < |w| ==> w[k] <= w'[k]
    requires ElementsCovered(t, es, w) && ConditionsCovered(t, bcs, w, b)
    ensures ElementsCovered(t, es, w') && ConditionsCovered(t, bcs, w', b)
  {
    forall e | 0 <= e < |es|
      ensures AllCovered(w', Members(t, es[e]), Members(t, es[e]))
    {
      assert AllCovered(w, Members(t, es[e]), Members(t, es[e]));
    }
    forall c | 0 <= c < |bcs| && c < b
      ensures ConditionCovered(t, bcs[c], c, w')
    {
      assert ConditionCovered(t, bcs[c], c, w);
    }
  }

  /** Row k has no coupling yet. */
  ghost predicate Bare(w: seq<nat>, k: int)
  {
    0 <= k < |w| && w[k] == 0
  }

  /** __fem_bc_matrix_profile. */
  method ConditionsProfile(diag: array<nat>, t: Tables, ghost es: seq<Element>, bcs: seq<seq<Part>>)
    requires SystemFits(t, es, bcs, diag.Length) && ElementsCovered(t, es, diag[..]) && IsProfile(diag[..])
    requires forall b :: 0 <= b < |bcs| ==> Bare(diag[..], SecondRow(t, b))
    modifies diag
    ensures ElementsCovered(t, es, diag[..]) && ConditionsCovered(t, bcs, diag[..], |bcs|) && IsProfile(diag[..])
  {
    var b := 0;
    while b < |bcs|
      invariant 0 <= b <= |bcs|
      invariant ElementsCovered(t, es, diag[..]) && ConditionsCovered(t, bcs, diag[..], b) && IsProfile(diag[..])
      invariant forall c :: b <= c < |bcs| ==> Bare(diag[..], SecondRow(t, c))
    {
      ghost var w := diag[..];
      assert ConditionFits(t, es, bcs, b, diag.Length);
      ConditionProfile(diag, t, es, bcs, b);
      CoverKept(t, es, bcs, b, w, diag[..]);
      forall c | b + 1 <= c < |bcs|
        ensures Bare(diag[..], SecondRow(t, c))
      {
        assert ConditionFits(t, es, bcs, c, diag.Length);
        assert Bare(w, SecondRow(t, c));
      }
      b := b + 1;
    }
  }

  /** Entry (i,j) of the symmetric matrix has a place in the storage. */
  ghost predicate HasPlace(diag: seq<nat>, i: int, j: int)
  {
    if i < j then InProfile(diag, j, i) else InProfile(diag, i, j)
  }

  /** All entries the elements and the conditions contribute to have a place. */
  ghost predicate AllPlaced(t: Tables, es: seq<Element>, bcs: seq<seq<Part>>, diag: seq<nat>)
  {
    && (forall i, j :: Coupled(t, es, i, j) ==> HasPlace(diag, i, j))
    && (forall b :: 0 <= b < |bcs| ==>
          && HasPlace(diag, SecondRow(t, b), FirstRow(t, b))
          && forall i :: 0 <= i < |bcs[b]| ==>
               HasPlace(diag, RowOf(t, bcs[b][i]), FirstRow(t, b))
               && HasPlace(diag, SecondRow(t, b), RowOf(t, bcs[b][i])))
  }

  lemma CoversHasPlace(w: seq<nat>, diag: seq<nat>, i: int, j: int)
    requires |w| == |diag| && (forall k :: 0 <= k < |w| ==> First(diag, k) == k - w[k]) && Covers(w, i, j)
    ensures HasPlace(diag, i, j)
  {
  }

  lemma EverythingPlaced(t: Tables, es: seq<Element>, bcs: seq<seq<Part>>, w: seq<nat>, diag: seq<nat>)
    requires |w| == |diag| && forall k :: 0 <= k < |w| ==> First(diag, k) == k - w[k]
    requires ElementsCovered(t, es, w) && ConditionsCovered(t, bcs, w, |bcs|)
    ensures AllPlaced(t, es, bcs, diag)
  {
    forall i, j | Coupled(t, es, i, j)
      ensures HasPlace(diag, i, j)
    {
      var e :| 0 <= e < |es| && i in Members(t, es[e]) && j in Members(t, es[e]);
      assert AllCovered(w, Members(t, es[e]), Members(t, es[e]));
      CoversHasPlace(w, diag, i, j);
    }
    forall b | 0 <= b < |bcs|
      ensures HasPlace(diag, SecondRow(t, b), FirstRow(t, b))
      ensures forall i :: 0 <= i < |bcs[b]| ==>
                HasPlace(diag, RowOf(t, bcs[b][i]), FirstRow(t, b))
                && HasPlace(diag, SecondRow(t, b), RowOf(t, bcs[b][i]))
    {
      assert ConditionCovered(t, bcs[b], b, w);
      CoversHasPlace(w, diag, SecondRow(t, b), FirstRow(t, b));
      forall i | 0 <= i < |bcs[b]|
        ensures HasPlace(diag, RowOf(t, bcs[b][i]), FirstRow(t, b))
                && HasPlace(diag, SecondRow(t, b), RowOf(t, bcs[b][i]))
      {
        CoversHasPlace(w, diag, RowOf(t, bcs[b][i]), FirstRow(t, b));
        CoversHasPlace(w, diag, SecondRow(t, b), RowOf(t, bcs[b][i]));
      }
    }
  }

  /** The profile part of problem_matrix. */
  method ProblemProfile(t: Tables, es: seq<Element>, bcs: seq<seq<Part>>, size: nat) returns (diag: array<nat>)
    requires size > 0 && SystemFits(t, es, bcs, size)
    ensures fresh(diag) && diag.Length == size && IsLayout(diag[..]) && AllPlaced(t, es, bcs, diag[..])
  {
    diag := new nat[size](_ => 0);
    ElementsProfile(diag, t, es);
    TightIsProfile(t, es, bcs, diag[..]);
    ConditionsProfile(diag, t, es, bcs);
    ghost var w := diag[..];
    FinishProfile(diag);
    EverythingPlaced(t, es, bcs, w, diag[..]);
  }

  /** No element reaches the row of a second multiplier. */
  lemma TightIsProfile(t: Tables, es: seq<Element>, bcs: seq<seq<Part>>, w: seq<nat>)
    requires Tight(t, es, w) && SystemFits(t, es, bcs, |w|)
    ensures IsProfile(w) && forall b :: 0 <= b < |bcs| ==> Bare(w, SecondRow(t, b))
  {
    forall b | 0 <= b < |bcs|
      ensures Bare(w, SecondRow(t, b))
    {
      assert ConditionFits(t, es, bcs, b, |w|);
    }
  }

  /** A numbering without error lets the profile loops run inside the tables and the matrix if and only if every
      condition only ties unknowns that exist. */
  lemma NumberingFitsIff(nodes: nat, es: seq<Element>, bcs: seq<seq<Part>>, t: Tables, order: seq<Unknown>, goal: Goal)
    requires InMesh(nodes, es) && Numbered(ModelOf(nodes, es, bcs), t, order)
    requires Accepted(ModelOf(nodes, es, bcs), goal) && forall b :: 0 <= b < |bcs| ==> bcs[b] != []
    requires Tied(ModelOf(nodes, es, bcs)) ==> Enclosed(ModelOf(nodes, es, bcs), t)
    ensures HasTables(ModelOf(nodes, es, bcs)) && SystemFits(t, es, bcs, |order|) <==> Proper(ModelOf(nodes, es, bcs))
  {
    var m := ModelOf(nodes, es, bcs);
    if Proper(m) {
      ProperIsTied(m);
      NumberingFits(nodes, es, bcs, t, order);
    } else if HasTables(m) {
      assert forall b :: 0 <= b < |m.bcs| ==> NoneMissing(m, m.bcs[b]);
      var b, i :| 0 <= b < |bcs| && 0 <= i < |bcs[b]| && !m.Active(bcs[b][i].n, bcs[b][i].d);
      InactiveHasNoRow(m, t, order, b, i);
      assert !ConditionFits(t, es, bcs, b, |order|);
    }
  }

  /** bc_matrix_profile takes one from zero for such a part. */
  lemma InactiveHasNoRow(m: Model, t: Tables, order: seq<Unknown>, b: nat, i: nat)
    requires Numbered(m, t, order) && Tied(m) && b < |m.bcs| && i < |m.bcs[b]|
    ensures RowOf(t, m.bcs[b][i]) == -1 <==> !m.Active(m.bcs[b][i].n, m.bcs[b][i].d)
  {
    var p := m.bcs[b][i];
    assert InNodes(m, m.bcs[b]) && m.has[p.d];
    if m.Active(p.n, p.d) {
      assert m.Genuine(Dof(p.n, p.d)) && t.Placed(order, Dof(p.n, p.d));
    }
  }

  /** Two nodes, the first one with an unknown, and a condition on the second one: it is numbered without error, by the
      contract of Create, but its row is -1. */
  lemma UnusedPart(t: Tables, order: seq<Unknown>)
    requires Numbered(ModelOf(2, [Element({0}, [0])], [[Part(1, 0)]]), t, order)
    ensures var es, bcs := [Element({0}, [0])], [[Part(1, 0)]];
            && Tied(ModelOf(2, es, bcs)) && !Proper(ModelOf(2, es, bcs))
            && RowOf(t, bcs[0][0]) == -1 && !SystemFits(t, es, bcs, |order|)
  {
    var es, bcs := [Element({0}, [0])], [[Part(1, 0)]];
    var m := ModelOf(2, es, bcs);
    assert 0 in es[0].dofs && m.has[0];
    assert !Uses(es, 1, 0);
    assert m.used[0][1] == false;
    assert bcs[0][0] == Part(1, 0) && !m.Active(1, 0);
    InactiveHasNoRow(m, t, order, 0, 0);
    assert !ConditionFits(t, es, bcs, 0, |order|);
  }

  /** One node that carries degree of freedom 0, and a condition on that and on degree of freedom 3, which has no table:
      numbered without error, and then the table that is not there is read. */
  lemma MissingTable(m: Model, sorted: seq<nat>)
    requires m.Ok() && m.nodes == 1 && m.Active(0, 0) && !m.has[3] && m.bcs == [[Part(0, 0), Part(0, 3)]]
    requires sorted == [0]
    ensures IsSorted(m.bcs, sorted) && Accepted(m, GoalOf(m, sorted)) && !HasTables(m) && !Proper(m)
  {
    var bc := m.bcs[sorted[0]];
    assert bc[0] == Part(0, 0) && bc[1] == Part(0, 3) && !m.Active(0, 3);
    assert NamedAt(m, bc, RankOf(bc[0]));
    var rest := sorted[1..];
    assert rest == [] && Feasible(m, rest, RankOf(bc[0]));
    forall n: nat, d: nat | m.Active(n, d)
      ensures !NotMet(m, sorted, 0, Rank(n, d))
    {
      assert 0 <= RankOf(bc[0]) <= Rank(n, d);
    }
    assert !Leads(m, sorted, 0);
  }

  lemma NumberingFits(nodes: nat, es: seq<Element>, bcs: seq<seq<Part>>, t: Tables, order: seq<Unknown>)
    requires InMesh(nodes, es) && Numbered(ModelOf(nodes, es, bcs), t, order)
    requires Proper(ModelOf(nodes, es, bcs)) && Enclosed(ModelOf(nodes, es, bcs), t)
    ensures SystemFits(t, es, bcs, |order|)
  {
    forall e | 0 <= e < |es|
      ensures Inside(Members(t, es[e]), |order|)
      ensures forall b :: 0 <= b < |bcs| ==> SecondRow(t, b) !in Members(t, es[e])
    {
      MembersFit(nodes, es, bcs, t, order, e);
    }
    forall b | 0 <= b < |bcs|
      ensures ConditionFits(t, es, bcs, b, |order|)
    {
      OneConditionFits(nodes, es, bcs, t, order, b);
    }
  }

  lemma MemberAt(t: Tables, e: Element, i: int) returns (k: nat, d: nat)
    requires i in Members(t, e)
    ensures k < |e.nodes| && d < DOF_MAX && d in e.dofs && i == t.Value(Dof(e.nodes[k], d)) - 1
  {
    k := NodeOf(t, e, i);
    d :| d < DOF_MAX && d in e.dofs && i == t.Value(Dof(e.nodes[k], d)) - 1;
  }

  lemma MembersAreDofs(nodes: nat, es: seq<Element>, bcs: seq<seq<Part>>, t: Tables, order: seq<Unknown>, e: nat)
    requires InMesh(nodes, es) && Numbered(ModelOf(nodes, es, bcs), t, order) && e < |es|
    ensures forall i :: i in Members(t, es[e]) ==> 0 <= i < |order| && order[i].Dof?
  {
    var m := ModelOf(nodes, es, bcs);
    forall i | i in Members(t, es[e])
      ensures 0 <= i < |order| && order[i].Dof?
    {
      var k, d := MemberAt(t, es[e], i);
      ElementDofPlaced(nodes, es, bcs, t, order, e, k, d);
    }
  }

  lemma ElementDofPlaced(nodes: nat, es: seq<Element>, bcs: seq<seq<Part>>, t: Tables, order: seq<Unknown>,
                         e: nat, k: nat, d: nat)
    requires InMesh(nodes, es) && Numbered(ModelOf(nodes, es, bcs), t, order)
    requires e < |es| && k < |es[e].nodes| && d < DOF_MAX && d in es[e].dofs
    ensures t.Placed(order, Dof(es[e].nodes[k], d))
  {
    assert Uses(es, es[e].nodes[k], d) && Carries(es, d);
    assert ModelOf(nodes, es, bcs).Genuine(Dof(es[e].nodes[k], d));
  }

  lemma MembersFit(nodes: nat, es: seq<Element>, bcs: seq<seq<Part>>, t: Tables, order: seq<Unknown>, e: nat)
    requires InMesh(nodes, es) && Numbered(ModelOf(nodes, es, bcs), t, order) && e < |es|
    ensures Inside(Members(t, es[e]), |order|)
    ensures forall b :: 0 <= b < |bcs| ==> SecondRow(t, b) !in Members(t, es[e])
  {
    MembersAreDofs(nodes, es, bcs, t, order, e);
    forall b | 0 <= b < |bcs|
      ensures SecondRow(t, b) !in Members(t, es[e])
    {
      assert ModelOf(nodes, es, bcs).Genuine(Lambda2(b));
      assert t.Placed(order, Lambda2(b));
    }
  }

  lemma OneConditionFits(nodes: nat, es: seq<Element>, bcs: seq<seq<Part>>, t: Tables, order: seq<Unknown>, b: nat)
    requires InMesh(nodes, es) && Numbered(ModelOf(nodes, es, bcs), t, order) && b < |bcs|
    requires Proper(ModelOf(nodes, es, bcs)) && Enclosed(ModelOf(nodes, es, bcs), t)
    ensures ConditionFits(t, es, bcs, b, |order|)
  {
    var m := ModelOf(nodes, es, bcs);
    assert m.Genuine(Lambda1(b)) && m.Genuine(Lambda2(b));
    assert t.Placed(order, Lambda1(b)) && t.Placed(order, Lambda2(b));
    assert SecondAfter(t, bcs[b], b, Rank(nodes, 0)) && FirstBefore(t, bcs[b], b, Rank(nodes, 0));
    forall i | 0 <= i < |bcs[b]|
      ensures FirstRow(t, b) < RowOf(t, bcs[b][i]) < SecondRow(t, b)
    {
      assert m.Genuine(Dof(bcs[b][i].n, bcs[b][i].d));
      assert t.Placed(order, Dof(bcs[b][i].n, bcs[b][i].d));
    }
    forall e | 0 <= e < |es|
      ensures SecondRow(t, b) !in Members(t, es[e])
    {
      MembersFit(nodes, es, bcs, t, order, e);
    }
    forall c | 0 <= c < |bcs| && c != b
      ensures SecondRow(t, c) != SecondRow(t, b)
    {
      assert m.Genuine(Lambda2(c));
      assert t.Placed(order, Lambda2(c));
    }
    forall c, i | 0 <= c < |bcs| && 0 <= i < |bcs[c]|
      ensures RowOf(t, bcs[c][i]) != SecondRow(t, b)
    {
      assert m.Genuine(Dof(bcs[c][i].n, bcs[c][i].d));
      assert t.Placed(order, Dof(bcs[c][i].n, bcs[c][i].d));
    }
  }
}
