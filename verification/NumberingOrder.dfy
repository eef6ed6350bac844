/** Where the multipliers of a condition lie: the first one before, the second one after all its unknowns. */
module NumberingOrder {
  import opened Numbering

  /** Every part of every condition is an unknown of the model, and no condition is empty. */
  ghost predicate Proper(m: Model)
    requires m.Ok()
  {
    forall b :: 0 <= b < |m.bcs| ==>
      |m.bcs[b]| > 0 && forall i :: 0 <= i < |m.bcs[b]| ==> m.Active(m.bcs[b][i].n, m.bcs[b][i].d)
  }

  /** No condition is empty, and every part has a table and sits at a node that exists: it need not be an unknown. */
  predicate Tied(m: Model)
    requires m.Ok()
  {
    HasTables(m) && forall b :: 0 <= b < |m.bcs| ==> InNodes(m, m.bcs[b])
  }

  /** No condition is empty, and every degree of freedom named has a table. */
  predicate HasTables(m: Model)
    requires m.Ok()
  {
    forall b :: 0 <= b < |m.bcs| ==> |m.bcs[b]| > 0 && forall i :: 0 <= i < |m.bcs[b]| ==> m.has[m.bcs[b][i].d]
  }

  predicate InNodes(m: Model, bc: seq<Part>)
  {
    forall i :: 0 <= i < |bc| ==> bc[i].n < m.nodes
  }

  lemma ProperIsTied(m: Model)
    requires m.Ok() && Proper(m)
    ensures Tied(m)
  {
    forall b, i | 0 <= b < |m.bcs| && 0 <= i < |m.bcs[b]|
      ensures m.has[m.bcs[b][i].d] && m.bcs[b][i].n < m.nodes
    {
      assert m.Active(m.bcs[b][i].n, m.bcs[b][i].d);
    }
  }

  function RankOf(p: Part): nat { Rank(p.n, p.d) }

  /** The smallest node of a condition and its smallest degree of freedom there, as bc_compare finds them. */
  function MinRank(bc: seq<Part>): (r: nat)
    requires |bc| > 0
    ensures forall i :: 0 <= i < |bc| ==> r <= RankOf(bc[i])
    ensures exists i :: 0 <= i < |bc| && r == RankOf(bc[i])
  {
    var last := RankOf(bc[|bc| - 1]);
    if |bc| == 1 then last
    else
      var before := MinRank(bc[..|bc| - 1]);
      assert forall i :: 0 <= i < |bc| - 1 ==> bc[..|bc| - 1][i] == bc[i];
      if last < before then last else before
  }

  predicate Involves(bc: seq<Part>, n: nat, d: nat)
  {
    exists i :: 0 <= i < |bc| && bc[i] == Part(n, d)
  }

  /** The part has no number yet, as far as __fem_bc_numbering_l2 can tell. */
  predicate Open(m: Model, t: Tables, p: Part)
    requires m.Ok() && p.d < DOF_MAX
  {
    m.has[p.d] && t.Value(Dof(p.n, p.d)) == 1
  }

  predicate Waiting(m: Model, t: Tables, bc: seq<Part>)
    requires m.Ok() && forall i :: 0 <= i < |bc| ==> bc[i].d < DOF_MAX
  {
    exists i :: 0 <= i < |bc| && Open(m, t, bc[i])
  }

  /** The conditions without multiplier are sorted, and none of their unknowns has been visited. */
  ghost predicate Ahead(m: Model, w: Work)
    requires m.Ok() && w.Ok(|m.bcs|) && Tied(m)
  {
    && (forall i, j :: w.l1 <= i <= j < |w.nb| ==> MinRank(m.bcs[w.nb[i]]) <= MinRank(m.bcs[w.nb[j]]))
    && (forall j :: w.l1 <= j < |w.nb| ==> MinRank(m.bcs[w.nb[j]]) >= w.pos)
  }

  /** A part whose table entry is zero is no unknown, and has no place. */
  ghost predicate FirstBefore(t: Tables, bc: seq<Part>, b: nat, pos: nat)
  {
    forall i :: 0 <= i < |bc| && RankOf(bc[i]) < pos && t.Value(Dof(bc[i].n, bc[i].d)) > 0 ==>
      t.Value(Lambda1(b)) < t.Value(Dof(bc[i].n, bc[i].d))
  }

  ghost predicate SecondAfter(t: Tables, bc: seq<Part>, b: nat, pos: nat)
  {
    && t.Value(Lambda1(b)) < t.Value(Lambda2(b))
    && forall i :: 0 <= i < |bc| && t.Value(Dof(bc[i].n, bc[i].d)) > 0 ==>
         RankOf(bc[i]) < pos && t.Value(Dof(bc[i].n, bc[i].d)) < t.Value(Lambda2(b))
  }

  ghost predicate Around(m: Model, t: Tables, w: Work)
    requires m.Ok() && w.Ok(|m.bcs|)
  {
    && (forall j :: 0 <= j < w.l1 ==> FirstBefore(t, m.bcs[w.nb[j]], w.nb[j], w.pos))
    && (forall j :: 0 <= j < w.l2 ==> SecondAfter(t, m.bcs[w.nb[j]], w.nb[j], w.pos))
  }

  /** Unknowns at nodes are numbered in the order of the loops. */
  ghost predicate DofsRise(order: seq<Unknown>)
  {
    forall k, l :: 0 <= k < l < |order| && order[k].Dof? && order[l].Dof? ==>
      Rank(order[k].n, order[k].d) < Rank(order[l].n, order[l].d)
  }

  lemma DofsGoOn(m: Model, order: seq<Unknown>, u: Unknown, pos: nat)
    requires m.Ok() && DofsRise(order) && forall k :: 0 <= k < |order| ==> Given(m, order[k], pos)
    requires u.Dof? ==> Rank(u.n, u.d) == pos
    ensures DofsRise(order + [u])
  {
  }

  /** No part of the condition is at a node that does not exist, in a table that does. */
  predicate NoneMissing(m: Model, bc: seq<Part>)
    requires m.Ok() && forall i :: 0 <= i < |bc| ==> bc[i].d < DOF_MAX
  {
    forall i :: 0 <= i < |bc| && m.has[bc[i].d] ==> bc[i].n < m.nodes
  }

  /** The multipliers handed out lie around the unknowns they tie. */
  ghost predicate OrderInv(m: Model, t: Tables, order: seq<Unknown>, w: Work)
  {
    Inv(m, t, order, w) && DofsRise(order) && (Tied(m) ==> Ahead(m, w) && Around(m, t, w))
  }

  lemma OrderFirst(m: Model, t: Tables, order: seq<Unknown>, w: Work)
    requires OrderInv(m, t, order, w) && w.l1 < |w.nb|
    ensures var u := Lambda1(w.nb[w.l1]);
            OrderInv(m, t.Set(u, |order| + 1), order + [u], w.(l1 := w.l1 + 1))
  {
    StepFirst(m, t, order, w);
    DofsGoOn(m, order, Lambda1(w.nb[w.l1]), w.pos);
    if Tied(m) {
      AroundFirst(m, t, t.Set(Lambda1(w.nb[w.l1]), |order| + 1), w);
    }
  }

  lemma AroundFirst(m: Model, t: Tables, t': Tables, w: Work)
    requires m.Ok() && w.Ok(|m.bcs|) && Tied(m) && Ahead(m, w) && Around(m, t, w) && w.l1 < |w.nb|
    requires forall u :: u != Lambda1(w.nb[w.l1]) ==> t'.Value(u) == t.Value(u)
    ensures Around(m, t', w.(l1 := w.l1 + 1))
  {
    assert MinRank(m.bcs[w.nb[w.l1]]) >= w.pos;
    forall j | 0 <= j < w.l2
      ensures SecondAfter(t', m.bcs[w.nb[j]], w.nb[j], w.pos)
    {
      assert SecondAfter(t, m.bcs[w.nb[j]], w.nb[j], w.pos);
    }
    forall j | 0 <= j < w.l1
      ensures FirstBefore(t', m.bcs[w.nb[j]], w.nb[j], w.pos)
    {
      assert FirstBefore(t, m.bcs[w.nb[j]], w.nb[j], w.pos);
    }
  }

  /** The next condition does not involve the unknown visited, hence none of the later ones does. */
  lemma AheadMoves(m: Model, w: Work, n: nat, d: nat)
    requires m.Ok() && w.Ok(|m.bcs|) && Tied(m) && Ahead(m, w) && d < DOF_MAX && w.pos == Rank(n, d)
    requires w.l1 < |w.nb| ==> !Involves(m.bcs[w.nb[w.l1]], n, d)
    ensures Ahead(m, w.(pos := w.pos + 1))
  {
    if w.l1 < |w.nb| {
      var bc := m.bcs[w.nb[w.l1]];
      var i :| 0 <= i < |bc| && MinRank(bc) == RankOf(bc[i]);
      assert bc[i] != Part(n, d);
      assert RankOf(bc[i]) != w.pos;
    }
  }

  lemma OrderDof(m: Model, t: Tables, order: seq<Unknown>, w: Work, n: nat, d: nat)
    requires OrderInv(m, t, order, w) && m.Active(n, d) && w.pos == Rank(n, d)
    requires w.l1 < |w.nb| ==> !Involves(m.bcs[w.nb[w.l1]], n, d)
    ensures OrderInv(m, t.Set(Dof(n, d), |order| + 1), order + [Dof(n, d)], w.(pos := w.pos + 1))
  {
    StepDof(m, t, order, w, n, d);
    DofsGoOn(m, order, Dof(n, d), w.pos);
    if Tied(m) {
      var t' := t.Set(Dof(n, d), |order| + 1);
      AheadMoves(m, w, n, d);
      forall j | 0 <= j < w.l1
        ensures FirstBefore(t', m.bcs[w.nb[j]], w.nb[j], w.pos + 1)
      {
        assert FirstBefore(t, m.bcs[w.nb[j]], w.nb[j], w.pos);
        assert t.Placed(order, Lambda1(w.nb[j]));
        SameRank(m, m.bcs[w.nb[j]], n, d);
      }
      forall j | 0 <= j < w.l2
        ensures SecondAfter(t', m.bcs[w.nb[j]], w.nb[j], w.pos + 1)
      {
        assert SecondAfter(t, m.bcs[w.nb[j]], w.nb[j], w.pos);
      }
    }
  }

  lemma SameRank(m: Model, bc: seq<Part>, n: nat, d: nat)
    requires m.Ok() && d < DOF_MAX && forall i :: 0 <= i < |bc| ==> bc[i].d < DOF_MAX
    ensures forall i :: 0 <= i < |bc| ==> (RankOf(bc[i]) == Rank(n, d) <==> bc[i] == Part(n, d))
  {
  }

  lemma OrderOver(m: Model, t: Tables, order: seq<Unknown>, w: Work, n: nat, d: nat)
    requires OrderInv(m, t, order, w) && d < DOF_MAX && n < m.nodes && !m.Active(n, d) && w.pos == Rank(n, d)
    requires m.has[d] && w.l1 < |w.nb| ==> !Involves(m.bcs[w.nb[w.l1]], n, d)
    ensures OrderInv(m, t, order, w.(pos := w.pos + 1))
  {
    StepOver(m, t, order, w, n, d);
    if Tied(m) {
      assert w.l1 < |w.nb| ==> !Involves(m.bcs[w.nb[w.l1]], n, d);
      AheadMoves(m, w, n, d);
      forall j | 0 <= j < w.l1
        ensures FirstBefore(t, m.bcs[w.nb[j]], w.nb[j], w.pos + 1)
      {
        assert FirstBefore(t, m.bcs[w.nb[j]], w.nb[j], w.pos);
        SameRank(m, m.bcs[w.nb[j]], n, d);
      }
      forall j | 0 <= j < w.l2
        ensures SecondAfter(t, m.bcs[w.nb[j]], w.nb[j], w.pos + 1)
      {
        assert SecondAfter(t, m.bcs[w.nb[j]], w.nb[j], w.pos);
      }
    }
  }

  /** A condition with no open part has all its unknowns numbered. */
  lemma ClosedMeansVisited(m: Model, t: Tables, order: seq<Unknown>, w: Work, j: nat)
    requires OrderInv(m, t, order, w) && Tied(m) && j < |w.nb| && !Waiting(m, t, m.bcs[w.nb[j]])
    ensures var bc := m.bcs[w.nb[j]];
            forall i :: 0 <= i < |bc| && t.Value(Dof(bc[i].n, bc[i].d)) > 0 ==>
              RankOf(bc[i]) < w.pos && t.Value(Dof(bc[i].n, bc[i].d)) <= |order|
  {
    var bc := m.bcs[w.nb[j]];
    forall i | 0 <= i < |bc| && t.Value(Dof(bc[i].n, bc[i].d)) > 0
      ensures RankOf(bc[i]) < w.pos && t.Value(Dof(bc[i].n, bc[i].d)) <= |order|
    {
      assert InNodes(m, bc);
      assert !Open(m, t, bc[i]);
      assert m.Active(bc[i].n, bc[i].d);
    }
  }

  lemma AroundSecond(m: Model, t: Tables, t': Tables, w: Work, j: nat)
    requires m.Ok() && w.Ok(|m.bcs|) && Around(m, t, w) && w.l2 <= j < w.l1
    requires forall u :: u != Lambda2(w.nb[j]) ==> t'.Value(u) == t.Value(u)
    requires SecondAfter(t', m.bcs[w.nb[j]], w.nb[j], w.pos)
    ensures Around(m, t', w.(nb := Swap(w.nb, j, w.l2), l2 := w.l2 + 1))
  {
    var w' := w.(nb := Swap(w.nb, j, w.l2), l2 := w.l2 + 1);
    forall k | 0 <= k < w'.l1
      ensures FirstBefore(t', m.bcs[w'.nb[k]], w'.nb[k], w.pos)
    {
      var was := if k == j then w.l2 else if k == w.l2 then j else k;
      assert FirstBefore(t, m.bcs[w.nb[was]], w.nb[was], w.pos);
    }
    forall k | 0 <= k < w'.l2
      ensures SecondAfter(t', m.bcs[w'.nb[k]], w'.nb[k], w.pos)
    {
      if k < w.l2 {
        assert SecondAfter(t, m.bcs[w.nb[k]], w.nb[k], w.pos);
      }
    }
  }

  lemma OrderSecond(m: Model, t: Tables, order: seq<Unknown>, w: Work, j: nat)
    requires OrderInv(m, t, order, w) && w.l2 <= j < w.l1 && !Waiting(m, t, m.bcs[w.nb[j]])
    ensures var u := Lambda2(w.nb[j]);
            OrderInv(m, t.Set(u, |order| + 1), order + [u], w.(nb := Swap(w.nb, j, w.l2), l2 := w.l2 + 1))
  {
    StepSecond(m, t, order, w, j);
    DofsGoOn(m, order, Lambda2(w.nb[j]), w.pos);
    if Tied(m) {
      ClosedMeansVisited(m, t, order, w, j);
      var t' := t.Set(Lambda2(w.nb[j]), |order| + 1);
      assert t.Placed(order, Lambda1(w.nb[j]));
      assert SecondAfter(t', m.bcs[w.nb[j]], w.nb[j], w.pos);
      AroundSecond(m, t, t', w, j);
      AheadSwap(m, w, j);
    }
  }

  lemma AheadSwap(m: Model, w: Work, j: nat)
    requires m.Ok() && w.Ok(|m.bcs|) && Tied(m) && Ahead(m, w) && w.l2 <= j < w.l1
    ensures var w' := w.(nb := Swap(w.nb, j, w.l2), l2 := w.l2 + 1);
            w'.Ok(|m.bcs|) && Ahead(m, w')
  {
    var w' := w.(nb := Swap(w.nb, j, w.l2), l2 := w.l2 + 1);
    SwapPermutes(w, j, w.l2);
    assert forall k :: w.l1 <= k < |w.nb| ==> w'.nb[k] == w.nb[k];
  }

  lemma SwapPermutes(w: Work, i: nat, j: nat)
    requires w.Permutation() && i < |w.nb| && j < |w.nb|
    ensures w.(nb := Swap(w.nb, i, j)).Permutation()
  {
  }

  /** A condition without multiplier still has an unknown to come. */
  lemma AheadUnvisited(m: Model, w: Work)
    requires m.Ok() && w.Ok(|m.bcs|) && Tied(m) && Ahead(m, w) && w.l1 < |w.nb|
    ensures exists i :: 0 <= i < |m.bcs[w.nb[w.l1]]| && RankOf(m.bcs[w.nb[w.l1]][i]) >= w.pos
  {
    var bc := m.bcs[w.nb[w.l1]];
    var i :| 0 <= i < |bc| && MinRank(bc) == RankOf(bc[i]);
    assert RankOf(bc[i]) >= w.pos;
  }

  /** An open part of a condition that has its first multiplier has not been visited: it cannot have number 1. */
  lemma OpenMeansUnvisited(m: Model, t: Tables, order: seq<Unknown>, w: Work, j: nat)
    requires OrderInv(m, t, order, w) && Tied(m) && j < w.l1 && Waiting(m, t, m.bcs[w.nb[j]])
    ensures exists i :: 0 <= i < |m.bcs[w.nb[j]]| && RankOf(m.bcs[w.nb[j]][i]) >= w.pos
  {
    var bc := m.bcs[w.nb[j]];
    assert FirstBefore(t, bc, w.nb[j], w.pos) && t.Placed(order, Lambda1(w.nb[j]));
    var i :| 0 <= i < |bc| && Open(m, t, bc[i]);
    assert InNodes(m, bc) && m.Active(bc[i].n, bc[i].d);
    assert RankOf(bc[i]) >= w.pos;
  }

  /** Once everything is visited every condition has both multipliers. */
  lemma NothingWaits(m: Model, t: Tables, order: seq<Unknown>, w: Work)
    requires OrderInv(m, t, order, w) && Tied(m) && w.pos == Rank(m.nodes, 0)
    requires forall j :: w.l2 <= j < w.l1 ==> Waiting(m, t, m.bcs[w.nb[j]])
    ensures w.l1 == w.l2 == |w.nb|
  {
    forall b, i | 0 <= b < |m.bcs| && 0 <= i < |m.bcs[b]|
      ensures RankOf(m.bcs[b][i]) < w.pos
    {
      assert InNodes(m, m.bcs[b]);
    }
    if w.l1 < |w.nb| {
      AheadUnvisited(m, w);
      assert false;
    }
    if w.l2 < w.l1 {
      OpenMeansUnvisited(m, t, order, w, w.l2);
      assert false;
    }
  }
}
