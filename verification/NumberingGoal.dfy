/** How the numbering will end, told before it begins and kept through its steps. */
module NumberingGoal {
  import opened Numbering
  import opened NumberingOrder

  /** The condition names the degree of freedom visited at rank r: the node exists, and there is a table. */
  predicate NamedAt(m: Model, bc: seq<Part>, r: nat)
    requires m.Ok() && forall i :: 0 <= i < |bc| ==> bc[i].d < DOF_MAX
  {
    exists i :: 0 <= i < |bc| && bc[i].n < m.nodes && m.has[bc[i].d] && RankOf(bc[i]) == r
  }

  ghost predicate AreConditions(m: Model, conds: seq<nat>)
  {
    forall j :: 0 <= j < |conds| ==> conds[j] < |m.bcs|
  }

  /** From rank pos on, the visits meet the conditions one after the other in this order. */
  ghost predicate Feasible(m: Model, conds: seq<nat>, pos: nat)
    requires m.Ok() && AreConditions(m, conds)
    decreases |conds|
  {
    conds == [] || exists r: nat :: r >= pos && NamedAt(m, m.bcs[conds[0]], r) && Feasible(m, conds[1..], r)
  }

  lemma {:induction false} FeasibleBefore(m: Model, conds: seq<nat>, pos: nat, pos': nat)
    requires m.Ok() && AreConditions(m, conds) && pos <= pos' && Feasible(m, conds, pos')
    ensures Feasible(m, conds, pos)
  {
  }

  lemma FeasibleNext(m: Model, conds: seq<nat>, pos: nat)
    requires m.Ok() && AreConditions(m, conds) && conds != [] && NamedAt(m, m.bcs[conds[0]], pos)
    ensures Feasible(m, conds, pos) <==> Feasible(m, conds[1..], pos)
  {
    if Feasible(m, conds, pos) {
      var r: nat :| r >= pos && NamedAt(m, m.bcs[conds[0]], r) && Feasible(m, conds[1..], r);
      FeasibleBefore(m, conds[1..], pos, r);
    }
  }

  lemma FeasibleLater(m: Model, conds: seq<nat>, pos: nat)
    requires m.Ok() && AreConditions(m, conds) && (conds != [] ==> !NamedAt(m, m.bcs[conds[0]], pos))
    ensures Feasible(m, conds, pos) <==> Feasible(m, conds, pos + 1)
  {
    if Feasible(m, conds, pos) && conds != [] {
      var r: nat :| r >= pos && NamedAt(m, m.bcs[conds[0]], r) && Feasible(m, conds[1..], r);
      assert r >= pos + 1;
    }
  }

  /** Two conditions, the first one named late, the second one early only. */
  lemma OutOfOrder(m: Model, conds: seq<nat>, late: nat)
    requires m.Ok() && AreConditions(m, conds) && |conds| == 2
    requires forall r: nat :: NamedAt(m, m.bcs[conds[0]], r) ==> r >= late
    requires forall r: nat :: NamedAt(m, m.bcs[conds[1]], r) ==> r < late
    ensures !Feasible(m, conds, 0)
  {
    forall r: nat | NamedAt(m, m.bcs[conds[0]], r)
      ensures !Feasible(m, conds[1..], r)
    {
      assert conds[1..][0] == conds[1];
    }
  }

  lemma FeasibleAtEnd(m: Model, conds: seq<nat>)
    requires m.Ok() && AreConditions(m, conds)
    ensures Feasible(m, conds, Rank(m.nodes, 0)) <==> conds == []
  {
  }

  /** The first number goes to a degree of freedom: one is visited before the first condition is met. */
  ghost predicate Leads(m: Model, conds: seq<nat>, pos: nat)
    requires m.Ok() && AreConditions(m, conds)
  {
    exists n: nat, d: nat :: m.Active(n, d) && Rank(n, d) >= pos && NotMet(m, conds, pos, Rank(n, d))
  }

  ghost predicate NotMet(m: Model, conds: seq<nat>, pos: nat, upTo: nat)
    requires m.Ok() && AreConditions(m, conds)
  {
    conds == [] || forall r: nat :: pos <= r <= upTo ==> !NamedAt(m, m.bcs[conds[0]], r)
  }

  lemma LeadsLater(m: Model, conds: seq<nat>, n: nat, d: nat)
    requires m.Ok() && AreConditions(m, conds) && d < DOF_MAX && !m.Active(n, d)
    requires conds != [] ==> !NamedAt(m, m.bcs[conds[0]], Rank(n, d))
    ensures Leads(m, conds, Rank(n, d)) <==> Leads(m, conds, Rank(n, d) + 1)
  {
    if Leads(m, conds, Rank(n, d)) {
      var n': nat, d': nat :| m.Active(n', d') && Rank(n', d') >= Rank(n, d)
                              && NotMet(m, conds, Rank(n, d), Rank(n', d'));
      assert Rank(n', d') != Rank(n, d);
      assert NotMet(m, conds, Rank(n, d) + 1, Rank(n', d'));
    }
    if Leads(m, conds, Rank(n, d) + 1) {
      var n': nat, d': nat :| m.Active(n', d') && Rank(n', d') >= Rank(n, d) + 1
                              && NotMet(m, conds, Rank(n, d) + 1, Rank(n', d'));
      assert NotMet(m, conds, Rank(n, d), Rank(n', d'));
    }
  }

  /** All conditions will be met in order; the first number will go to a degree of freedom. */
  datatype Goal = Goal(feasible: bool, leads: bool)

  ghost predicate Prospect(goal: Goal, m: Model, order: seq<Unknown>, w: Work)
    requires m.Ok() && w.Ok(|m.bcs|)
  {
    && AreConditions(m, w.nb[w.l1..])
    && Feasible(m, w.nb[w.l1..], w.pos) == goal.feasible
    && (if order == [] then Leads(m, w.nb[w.l1..], w.pos) else order[0].Dof?) == goal.leads
  }

  /** Conditions with a first multiplier have a part, and those with a second one do not wait. */
  ghost predicate Served(m: Model, t: Tables, w: Work)
    requires m.Ok() && w.Ok(|m.bcs|)
  {
    && (forall j :: 0 <= j < w.l1 ==> m.bcs[w.nb[j]] != [])
    && (forall j :: 0 <= j < w.l2 ==> !Waiting(m, t, m.bcs[w.nb[j]]))
  }

  ghost predicate GoalInv(goal: Goal, m: Model, t: Tables, order: seq<Unknown>, w: Work)
  {
    OrderInv(m, t, order, w) && Served(m, t, w) && Prospect(goal, m, order, w)
  }

  lemma SameWaiting(m: Model, t: Tables, t': Tables, bc: seq<Part>)
    requires m.Ok() && forall i :: 0 <= i < |bc| ==> bc[i].d < DOF_MAX
    requires forall i :: 0 <= i < |bc| ==> t'.Value(Dof(bc[i].n, bc[i].d)) == t.Value(Dof(bc[i].n, bc[i].d))
    ensures Waiting(m, t', bc) <==> Waiting(m, t, bc)
  {
    if i :| 0 <= i < |bc| && Open(m, t, bc[i]) {
      assert Open(m, t', bc[i]);
    }
    if i :| 0 <= i < |bc| && Open(m, t', bc[i]) {
      assert Open(m, t, bc[i]);
    }
  }

  /** The first multiplier of the next condition, when the unknown visited is one of its parts. */
  lemma GoFirst(goal: Goal, m: Model, t: Tables, order: seq<Unknown>, w: Work, n: nat, d: nat)
    requires GoalInv(goal, m, t, order, w) && w.l1 < |w.nb| && w.pos == Rank(n, d)
    requires n < m.nodes && d < DOF_MAX && m.has[d] && Involves(m.bcs[w.nb[w.l1]], n, d)
    ensures var u := Lambda1(w.nb[w.l1]);
            GoalInv(goal, m, t.Set(u, |order| + 1), order + [u], w.(l1 := w.l1 + 1))
  {
    var u := Lambda1(w.nb[w.l1]);
    var t', w', conds := t.Set(u, |order| + 1), w.(l1 := w.l1 + 1), w.nb[w.l1..];
    OrderFirst(m, t, order, w);
    FirstServed(m, t, t', w);
    assert NamedAt(m, m.bcs[conds[0]], w.pos);
    FeasibleNext(m, conds, w.pos);
    assert conds[1..] == w'.nb[w'.l1..];
  }

  lemma FirstServed(m: Model, t: Tables, t': Tables, w: Work)
    requires m.Ok() && w.Ok(|m.bcs|) && Served(m, t, w) && w.l1 < |w.nb| && m.bcs[w.nb[w.l1]] != []
    requires forall u: Unknown :: u.Dof? ==> t'.Value(u) == t.Value(u)
    ensures Served(m, t', w.(l1 := w.l1 + 1))
  {
    forall j | 0 <= j < w.l2
      ensures !Waiting(m, t', m.bcs[w.nb[j]])
    {
      SameWaiting(m, t, t', m.bcs[w.nb[j]]);
    }
  }

  /** The unknown visited. */
  lemma GoDof(goal: Goal, m: Model, t: Tables, order: seq<Unknown>, w: Work, n: nat, d: nat)
    requires GoalInv(goal, m, t, order, w) && m.Active(n, d) && w.pos == Rank(n, d)
    requires w.l1 < |w.nb| ==> !Involves(m.bcs[w.nb[w.l1]], n, d)
    ensures GoalInv(goal, m, t.Set(Dof(n, d), |order| + 1), order + [Dof(n, d)], w.(pos := w.pos + 1))
  {
    OrderDof(m, t, order, w, n, d);
    DofServed(m, t, t.Set(Dof(n, d), |order| + 1), order, w, n, d);
    NotNamed(m, w, n, d);
    FeasibleLater(m, w.nb[w.l1..], w.pos);
    if order == [] {
      assert NotMet(m, w.nb[w.l1..], w.pos, Rank(n, d));
    }
  }

  lemma NotNamed(m: Model, w: Work, n: nat, d: nat)
    requires m.Ok() && w.Ok(|m.bcs|) && d < DOF_MAX
    requires m.has[d] && w.l1 < |w.nb| ==> !Involves(m.bcs[w.nb[w.l1]], n, d)
    ensures w.l1 < |w.nb| ==> !NamedAt(m, m.bcs[w.nb[w.l1]], Rank(n, d))
  {
    if w.l1 < |w.nb| {
      SameRank(m, m.bcs[w.nb[w.l1]], n, d);
    }
  }

  /** The entry overwritten was 1, and belongs to no condition that has its second multiplier. */
  lemma DofServed(m: Model, t: Tables, t': Tables, order: seq<Unknown>, w: Work, n: nat, d: nat)
    requires Inv(m, t, order, w) && Served(m, t, w) && m.Active(n, d) && w.pos == Rank(n, d)
    requires forall u: Unknown :: u != Dof(n, d) ==> t'.Value(u) == t.Value(u)
    ensures Served(m, t', w.(pos := w.pos + 1))
  {
    forall j | 0 <= j < w.l2
      ensures !Waiting(m, t', m.bcs[w.nb[j]])
    {
      var bc := m.bcs[w.nb[j]];
      forall i | 0 <= i < |bc|
        ensures bc[i] != Part(n, d)
      {
        assert !Open(m, t, bc[i]);
      }
      SameWaiting(m, t, t', bc);
    }
  }

  /** A visit that numbers nothing. */
  lemma GoOver(goal: Goal, m: Model, t: Tables, order: seq<Unknown>, w: Work, n: nat, d: nat)
    requires GoalInv(goal, m, t, order, w) && d < DOF_MAX && n < m.nodes && !m.Active(n, d) && w.pos == Rank(n, d)
    requires m.has[d] && w.l1 < |w.nb| ==> !Involves(m.bcs[w.nb[w.l1]], n, d)
    ensures GoalInv(goal, m, t, order, w.(pos := w.pos + 1))
  {
    OrderOver(m, t, order, w, n, d);
    NotNamed(m, w, n, d);
    FeasibleLater(m, w.nb[w.l1..], w.pos);
    LeadsLater(m, w.nb[w.l1..], n, d);
  }

  /** The second multiplier of a condition that does not wait. */
  lemma GoSecond(goal: Goal, m: Model, t: Tables, order: seq<Unknown>, w: Work, j: nat)
    requires GoalInv(goal, m, t, order, w) && w.l2 <= j < w.l1 && !Waiting(m, t, m.bcs[w.nb[j]])
    ensures var u := Lambda2(w.nb[j]);
            GoalInv(goal, m, t.Set(u, |order| + 1), order + [u], w.(nb := Swap(w.nb, j, w.l2), l2 := w.l2 + 1))
  {
    var t', w' := t.Set(Lambda2(w.nb[j]), |order| + 1), w.(nb := Swap(w.nb, j, w.l2), l2 := w.l2 + 1);
    OrderSecond(m, t, order, w, j);
    SecondServed(m, t, t', w, j);
    assert t.Placed(order, Lambda1(w.nb[j]));
    assert w'.nb[w'.l1..] == w.nb[w.l1..];
  }

  lemma SecondServed(m: Model, t: Tables, t': Tables, w: Work, j: nat)
    requires m.Ok() && w.Ok(|m.bcs|) && Served(m, t, w) && w.l2 <= j < w.l1 && !Waiting(m, t, m.bcs[w.nb[j]])
    requires forall u: Unknown :: u.Dof? ==> t'.Value(u) == t.Value(u)
    ensures var w' := w.(nb := Swap(w.nb, j, w.l2), l2 := w.l2 + 1);
            w'.Ok(|m.bcs|) && Served(m, t', w')
  {
    SwapPermutes(w, j, w.l2);
    var w' := w.(nb := Swap(w.nb, j, w.l2), l2 := w.l2 + 1);
    forall k | 0 <= k < w'.l2
      ensures !Waiting(m, t', m.bcs[w'.nb[k]])
    {
      SameWaiting(m, t, t', m.bcs[w'.nb[k]]);
    }
  }

  /** Before the first visit. */
  lemma GoalStarts(m: Model, t: Tables, nb: seq<nat>)
    requires OrderInv(m, t, [], Work(0, nb, 0, 0)) && AreConditions(m, nb)
    ensures GoalInv(Goal(Feasible(m, nb, 0), Leads(m, nb, 0)), m, t, [], Work(0, nb, 0, 0))
  {
    assert nb[0..] == nb;
  }

  /** The condition names the unknown that is visited first of all. */
  ghost predicate NamesFirst(m: Model, bc: seq<Part>)
    requires m.Ok()
  {
    exists i :: 0 <= i < |bc| && IsFirst(m, bc[i])
  }

  ghost predicate IsFirst(m: Model, p: Part)
    requires m.Ok()
  {
    m.Active(p.n, p.d) && forall n: nat, d: nat :: m.Active(n, d) ==> RankOf(p) <= Rank(n, d)
  }

  /** No condition will be left without its second multiplier. */
  ghost predicate AllClose(m: Model, leads: bool)
    requires m.Ok()
  {
    forall b :: 0 <= b < |m.bcs| ==> NoneMissing(m, m.bcs[b]) && !(leads && NamesFirst(m, m.bcs[b]))
  }

  /** Once everything is visited, a condition waits if and only if a part is at a missing node, or has number 1. */
  lemma WaitsIff(goal: Goal, m: Model, t: Tables, order: seq<Unknown>, w: Work, b: nat)
    requires GoalInv(goal, m, t, order, w) && w.pos == Rank(m.nodes, 0) && b < |m.bcs|
    ensures !Waiting(m, t, m.bcs[b]) <==> NoneMissing(m, m.bcs[b]) && !(goal.leads && NamesFirst(m, m.bcs[b]))
  {
    var bc := m.bcs[b];
    forall i | 0 <= i < |bc|
      ensures Open(m, t, bc[i]) <==> (m.has[bc[i].d] && bc[i].n == m.nodes) || (goal.leads && IsFirst(m, bc[i]))
    {
      OpenIff(goal, m, t, order, w, bc[i]);
    }
  }

  lemma OpenIff(goal: Goal, m: Model, t: Tables, order: seq<Unknown>, w: Work, p: Part)
    requires GoalInv(goal, m, t, order, w) && w.pos == Rank(m.nodes, 0) && p.d < DOF_MAX && p.n <= m.nodes
    ensures Open(m, t, p) <==> (m.has[p.d] && p.n == m.nodes) || (goal.leads && IsFirst(m, p))
  {
    if m.Active(p.n, p.d) {
      assert Rank(p.n, p.d) < w.pos && t.Placed(order, Dof(p.n, p.d));
      FirstOfAll(m, t, order, w, p);
    }
  }

  /** Number 1, when a degree of freedom has it, belongs to the one visited first. */
  lemma FirstOfAll(m: Model, t: Tables, order: seq<Unknown>, w: Work, p: Part)
    requires OrderInv(m, t, order, w) && w.pos == Rank(m.nodes, 0) && m.Active(p.n, p.d) && order != []
    requires t.Placed(order, Dof(p.n, p.d))
    ensures t.Value(Dof(p.n, p.d)) == 1 <==> order[0].Dof? && IsFirst(m, p)
  {
    if t.Value(Dof(p.n, p.d)) == 1 {
      forall n: nat, d: nat | m.Active(n, d)
        ensures RankOf(p) <= Rank(n, d)
      {
        assert Rank(n, d) < w.pos && t.Placed(order, Dof(n, d));
      }
    } else if order[0].Dof? {
      assert Given(m, order[0], w.pos);
      assert m.Active(order[0].n, order[0].d) && Rank(order[0].n, order[0].d) < RankOf(p);
    }
  }
}
