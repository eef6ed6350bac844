/** The loops of numbering.c and bc.c that hand out the numbers, in place. */
module NumberingRun {
  import opened Numbering
  import opened NumberingOrder
  import opened NumberingGoal

  class Tabled {
    const nodes: nat
    const has: array<bool>
    const row: array2<nat>
    const lambda1: array<nat>
    const lambda2: array<nat>
    var dof: nat

    constructor (nodes: nat, bc: nat)
      ensures Shape(bc) && fresh(has) && fresh(row) && fresh(lambda1) && fresh(lambda2) && this.nodes == nodes
      ensures has[..] == seq(DOF_MAX, _ => false)
      ensures lambda1[..] == lambda2[..] == seq(bc, _ => 0)
    {
      this.nodes := nodes;
      has := new bool[DOF_MAX](_ => false);
      row := new nat[DOF_MAX, nodes + 1]((_, _) => 0);
      lambda1 := new nat[bc](_ => 0);
      lambda2 := new nat[bc](_ => 0);
      dof := 0;
    }

    ghost predicate Shape(bc: nat)
    {
      && has.Length == DOF_MAX && row.Length0 == DOF_MAX && row.Length1 == nodes + 1
      && lambda1.Length == lambda2.Length == bc && lambda1 != lambda2
    }

    function Table(d: nat): (t: seq<nat>)
      requires d < row.Length0
      reads row
      ensures |t| == row.Length1 && forall n :: 0 <= n < |t| ==> t[n] == row[d, n]
    {
      seq(row.Length1, n requires 0 <= n < row.Length1 reads row => row[d, n])
    }

    /** The tables as a value. */
    function T(): (t: Tables)
      reads row, lambda1, lambda2
      ensures |t.row| == row.Length0 && forall d :: 0 <= d < row.Length0 ==> t.row[d] == Table(d)
      ensures t.lambda1 == lambda1[..] && t.lambda2 == lambda2[..]
    {
      Tables(seq(row.Length0, d requires 0 <= d < row.Length0 reads row => Table(d)), lambda1[..], lambda2[..])
    }

    lemma ReadDof(n: nat, d: nat)
      requires n < row.Length1 && d < row.Length0
      ensures T().Value(Dof(n, d)) == row[d, n]
    {
      assert T().row[d][n] == Table(d)[n];
    }

    method SetDof(n: nat, d: nat, v: nat)
      requires n < row.Length1 && d < row.Length0
      modifies row
      ensures T() == old(T()).Set(Dof(n, d), v)
    {
      row[d, n] := v;
      assert Table(d) == old(Table(d))[n := v];
      assert forall c :: 0 <= c < row.Length0 && c != d ==> Table(c) == old(Table(c));
      assert T().row == old(T()).Set(Dof(n, d), v).row;
    }

    method SetFirst(b: nat, v: nat)
      requires b < lambda1.Length && lambda1 != lambda2
      modifies lambda1
      ensures T() == old(T()).Set(Lambda1(b), v)
    {
      lambda1[b] := v;
    }

    method SetSecond(b: nat, v: nat)
      requires b < lambda2.Length && lambda1 != lambda2
      modifies lambda2
      ensures T() == old(T()).Set(Lambda2(b), v)
    {
      lambda2[b] := v;
    }
  }

  /** What the numbering keeps, under a name of its own: the loops use its steps, not its definition. */
  type Kept = (Model, Tables, seq<Unknown>, Work) -> bool

  ghost predicate Agrees(kept: Kept, goal: Goal, m: Model, t: Tables, order: seq<Unknown>, w: Work)
  {
    kept(m, t, order, w) == GoalInv(goal, m, t, order, w)
  }

  lemma KeptIsGoalInv(goal: Goal) returns (kept: Kept)
    ensures forall m, t, order, w :: Agrees(kept, goal, m, t, order, w)
  {
    kept := (m, t, order, w) => GoalInv(goal, m, t, order, w);
  }

  class Multipliers {
    ghost const kept: Kept
    ghost const goal: Goal
    const num: Tabled
    const bcs: seq<seq<Part>>
    /** The conditions in their current order; conditions before nbL1 and nbL2 have their multipliers. */
    const nb: array<nat>
    var nbL1: nat
    var nbL2: nat

    constructor (num: Tabled, bcs: seq<seq<Part>>, sorted: seq<nat>, ghost goal: Goal)
      ensures this.num == num && this.bcs == bcs && this.goal == goal && fresh(nb) && nb[..] == sorted
      ensures nbL1 == nbL2 == 0
      ensures forall m, t, order, w :: Agrees(kept, goal, m, t, order, w)
    {
      ghost var f := KeptIsGoalInv(goal);
      kept, this.goal, this.num, this.bcs, nbL1, nbL2 := f, goal, num, bcs, 0, 0;
      nb := new nat[|sorted|](j requires 0 <= j < |sorted| => sorted[j]);
    }

    ghost function W(pos: nat): Work
      reads this, nb
    {
      Work(pos, nb[..], nbL1, nbL2)
    }

    ghost predicate State(m: Model, order: seq<Unknown>, pos: nat)
      reads this, nb, num.has, num.row, num.lambda1, num.lambda2
    {
      && num.Shape(|bcs|) && nb != num.lambda1 && nb != num.lambda2
      && m.Ok() && m.bcs == bcs && m.nodes == num.nodes && m.has == num.has[..]
      && W(pos).Ok(|bcs|) && kept(m, num.T(), order, W(pos))
      && forall m', t, order', w :: Agrees(kept, goal, m', t, order', w)
    }

    /** The conditions with a first multiplier only have an unknown to come. */
    ghost predicate AllWaiting(m: Model)
      requires m.Ok() && num.row.Length0 == DOF_MAX && nbL1 <= nb.Length
      requires forall j :: 0 <= j < nb.Length ==> nb[j] < |m.bcs|
      reads this, nb, num.row, num.lambda1, num.lambda2
    {
      forall j :: nbL2 <= j < nbL1 ==> Waiting(m, num.T(), m.bcs[nb[j]])
    }

    /** The loop over the parts in __fem_bc_numbering_l1. */
    static method IsInvolved(bc: seq<Part>, n: nat, d: nat) returns (doit: bool)
      ensures doit <==> Involves(bc, n, d)
    {
      var i := 0;
      while i < |bc|
        invariant 0 <= i <= |bc| && forall k :: 0 <= k < i ==> bc[k] != Part(n, d)
      {
        if bc[i] == Part(n, d) {
          return true;
        }
        i := i + 1;
      }
      doit := false;
    }

    /** __fem_bc_numbering_l1: lambda1 before the first unknown involved. */
    method L1(n: nat, d: nat, current: nat, ghost m: Model, ghost order: seq<Unknown>, ghost pos: nat)
      returns (count: nat, ghost after: seq<Unknown>)
      requires State(m, order, pos) && current == |order| + 1 && pos == Rank(n, d)
      requires n < m.nodes && d < DOF_MAX && num.has[d]
      modifies this`nbL1, num.lambda1
      ensures State(m, after, pos) && |after| == |order| + count && nbL1 == old(nbL1) + count
      ensures nbL1 < nb.Length ==> !Involves(bcs[nb[nbL1]], n, d)
    {
      count, after := 0, order;
      while nbL1 < nb.Length
        invariant State(m, after, pos) && |after| == |order| + count && nbL1 == old(nbL1) + count
        decreases nb.Length - nbL1
      {
        var doit := IsInvolved(bcs[nb[nbL1]], n, d);
        if !doit {
          break;
        }
        after := HandFirst(n, d, current + count, m, after, pos);
        count := count + 1;
      }
    }

    /** The first multiplier of the condition at nbL1. */
    method HandFirst(ghost n: nat, ghost d: nat, number: nat, ghost m: Model, ghost order: seq<Unknown>, ghost pos: nat)
      returns (ghost after: seq<Unknown>)
      requires State(m, order, pos) && number == |order| + 1 && nbL1 < nb.Length && pos == Rank(n, d)
      requires n < m.nodes && d < DOF_MAX && num.has[d] && Involves(bcs[nb[nbL1]], n, d)
      modifies this`nbL1, num.lambda1
      ensures State(m, after, pos) && |after| == |order| + 1 && nbL1 == old(nbL1) + 1
    {
      ghost var t, w, u := num.T(), W(pos), Lambda1(nb[nbL1]);
      assert Agrees(kept, goal, m, t, order, w);
      GoFirst(goal, m, t, order, w, n, d);
      after := order + [u];
      num.SetFirst(nb[nbL1], number);
      nbL1 := nbL1 + 1;
      assert num.T() == t.Set(u, |order| + 1) && W(pos) == w.(l1 := w.l1 + 1);
      assert Agrees(kept, goal, m, num.T(), after, W(pos));
    }

    /** The loop over the parts in __fem_bc_numbering_l2. */
    method IsClosed(bc: seq<Part>, ghost m: Model) returns (doit: bool)
      requires num.Shape(|bcs|) && m.Ok() && m.has == num.has[..] && m.nodes == num.nodes
      requires forall i :: 0 <= i < |bc| ==> bc[i].d < DOF_MAX && bc[i].n <= num.nodes
      ensures doit <==> !Waiting(m, num.T(), bc)
    {
      var i := 0;
      while i < |bc|
        invariant 0 <= i <= |bc| && forall k :: 0 <= k < i ==> !Open(m, num.T(), bc[k])
      {
        if num.has[bc[i].d] && num.row[bc[i].d, bc[i].n] == 1 {
          assert Open(m, num.T(), bc[i]);
          return false;
        }
        i := i + 1;
      }
      doit := true;
    }

    /** __fem_bc_numbering_l2: lambda2 after the last unknown involved. */
    method L2(current: nat, ghost m: Model, ghost order: seq<Unknown>, ghost pos: nat)
      returns (count: nat, ghost after: seq<Unknown>)
      requires State(m, order, pos) && current == |order| + 1
      modifies this`nbL2, nb, num.lambda2
      ensures State(m, after, pos) && |after| == |order| + count && nbL2 == old(nbL2) + count
      ensures AllWaiting(m)
    {
      count, after := 0, order;
      var j := nbL2;
      while j < nbL1
        invariant State(m, after, pos) && |after| == |order| + count && nbL2 == old(nbL2) + count
        invariant nbL2 <= j <= nbL1
        invariant forall k :: nbL2 <= k < j ==> Waiting(m, num.T(), bcs[nb[k]])
      {
        var doit := IsClosed(bcs[nb[j]], m);
        if doit {
          after := Hand(j, current + count, m, after, pos);
          count := count + 1;
        }
        j := j + 1;
      }
    }

    /** The second multiplier of the condition at place j; those before it still wait. */
    method Hand(j: nat, number: nat, ghost m: Model, ghost order: seq<Unknown>, ghost pos: nat)
      returns (ghost after: seq<Unknown>)
      requires State(m, order, pos) && number == |order| + 1 && nbL2 <= j < nbL1
      requires !Waiting(m, num.T(), bcs[nb[j]])
      requires forall k :: nbL2 <= k < j ==> Waiting(m, num.T(), bcs[nb[k]])
      modifies this`nbL2, nb, num.lambda2
      ensures State(m, after, pos) && |after| == |order| + 1 && nbL2 == old(nbL2) + 1
      ensures forall k :: nbL2 <= k < j + 1 ==> Waiting(m, num.T(), bcs[nb[k]])
    {
      ghost var t, w := num.T(), W(pos);
      after := HandSecond(j, number, m, order, pos);
      StillWaiting(m, t, num.T(), w, W(pos), j);
    }

    /** The condition served changes places with the one at nbL2. */
    method HandSecond(j: nat, number: nat, ghost m: Model, ghost order: seq<Unknown>, ghost pos: nat)
      returns (ghost after: seq<Unknown>)
      requires State(m, order, pos) && number == |order| + 1 && nbL2 <= j < nbL1
      requires !Waiting(m, num.T(), bcs[nb[j]])
      modifies this`nbL2, nb, num.lambda2
      ensures State(m, after, pos) && |after| == |order| + 1
      ensures W(pos) == old(W(pos).(nb := Swap(nb[..], j, nbL2), l2 := nbL2 + 1))
      ensures num.T().row == old(num.T().row)
    {
      ghost var t, w, u := num.T(), W(pos), Lambda2(nb[j]);
      assert Agrees(kept, goal, m, t, order, w);
      GoSecond(goal, m, t, order, w, j);
      after := order + [u];
      num.SetSecond(nb[j], number);
      nb[j], nb[nbL2] := nb[nbL2], nb[j];
      nbL2 := nbL2 + 1;
      assert num.T() == t.Set(u, |order| + 1);
      assert W(pos) == w.(nb := Swap(w.nb, j, w.l2), l2 := w.l2 + 1);
      assert Agrees(kept, goal, m, num.T(), after, W(pos));
    }
  }

  /** The conditions already found waiting go on waiting, one of them at the place of the condition served. */
  lemma StillWaiting(m: Model, t: Tables, t': Tables, w: Work, w': Work, j: nat)
    requires m.Ok() && t'.row == t.row && w.Ok(|m.bcs|) && w'.Ok(|m.bcs|) && w.l2 <= j < w.l1
    requires w' == w.(nb := Swap(w.nb, j, w.l2), l2 := w.l2 + 1)
    requires forall k :: w.l2 <= k < j ==> Waiting(m, t, m.bcs[w.nb[k]])
    ensures forall k :: w'.l2 <= k < j + 1 ==> Waiting(m, t', m.bcs[w'.nb[k]])
  {
    forall k | w'.l2 <= k < j + 1
      ensures Waiting(m, t', m.bcs[w'.nb[k]])
    {
      var was := if k == j then w.l2 else k;
      var bc := m.bcs[w.nb[was]];
      var i :| 0 <= i < |bc| && Open(m, t, bc[i]);
      assert Open(m, t', bc[i]);
    }
  }
}
