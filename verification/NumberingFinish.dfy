/** __fem_numbering_create: which unknowns exist, and their numbers. */
module NumberingFinish {
  import opened Numbering
  import opened NumberingOrder
  import opened NumberingGoal
  import opened NumberingRun

  /** An element: the degrees of freedom of its type and the nodes of its mesh. */
  datatype Element = Element(dofs: set<nat>, nodes: seq<nat>)

  predicate Carries(es: seq<Element>, d: nat)
  {
    exists e :: 0 <= e < |es| && d in es[e].dofs
  }

  predicate Uses(es: seq<Element>, n: nat, d: nat)
  {
    exists e :: 0 <= e < |es| && d in es[e].dofs && n in es[e].nodes
  }

  /** The unknowns of a mesh of elements. */
  function ModelOf(nodes: nat, es: seq<Element>, bcs: seq<seq<Part>>): Model
  {
    Model(nodes, seq(DOF_MAX, d requires 0 <= d => Carries(es, d)),
          seq(DOF_MAX, d requires 0 <= d => seq(nodes, n requires 0 <= n => Uses(es, n, d))), bcs)
  }

  ghost predicate InMesh(nodes: nat, es: seq<Element>)
  {
    forall e :: 0 <= e < |es| ==> forall k :: 0 <= k < |es[e].nodes| ==> es[e].nodes[k] < nodes
  }

  /** Table d says which nodes carry d in the elements es. */
  ghost predicate TableOf(num: Tabled, es: seq<Element>, d: nat)
    requires d < num.has.Length && d < num.row.Length0 && num.row.Length1 == num.nodes + 1
    reads num.has, num.row
  {
    && num.has[d] == Carries(es, d)
    && (num.has[d] ==>
          && (forall n: nat :: n < num.nodes ==> num.row[d, n] == if Uses(es, n, d) then 1 else 0)
          && num.row[d, num.nodes] == 1)
  }

  /** numbering_table: one more entry for nodes that do not exist. */
  method NewTable(num: Tabled, d: nat, ghost bc: nat)
    requires num.Shape(bc) && d < DOF_MAX && !num.has[d]
    modifies num.has, num.row
    ensures num.has[..] == old(num.has[..])[d := true]
    ensures forall c, n :: 0 <= c < DOF_MAX && 0 <= n <= num.nodes ==>
              num.row[c, n] == if c != d then old(num.row[c, n]) else if n < num.nodes then 0 else 1
  {
    var i := 0;
    while i < num.nodes
      invariant 0 <= i <= num.nodes
      invariant forall c, n :: 0 <= c < DOF_MAX && 0 <= n <= num.nodes ==>
                  num.row[c, n] == if c == d && n < i then 0 else old(num.row[c, n])
      modifies num.row
    {
      num.row[d, i] := 0;
      i := i + 1;
    }
    num.row[d, num.nodes] := 1;
    num.has[d] := true;
  }

  /** numbering_update_do. */
  method UpdateDo(num: Tabled, d: nat, e: Element, ghost es: seq<Element>, ghost bc: nat)
    requires num.Shape(bc) && d < DOF_MAX && d in e.dofs && TableOf(num, es, d)
    requires forall k :: 0 <= k < |e.nodes| ==> e.nodes[k] < num.nodes
    modifies num.has, num.row
    ensures TableOf(num, es + [e], d)
    ensures forall c :: 0 <= c < DOF_MAX && c != d ==> num.has[c] == old(num.has[c])
    ensures forall c, n :: 0 <= c < DOF_MAX && c != d && 0 <= n <= num.nodes ==> num.row[c, n] == old(num.row[c, n])
  {
    if !num.has[d] {
      NewTable(num, d, bc);
    }
    var k := 0;
    while k < |e.nodes|
      invariant 0 <= k <= |e.nodes|
      invariant forall n: nat :: n < num.nodes ==>
                  num.row[d, n] == if Uses(es, n, d) || n in e.nodes[..k] then 1 else 0
      invariant num.row[d, num.nodes] == 1
      invariant forall c, n :: 0 <= c < DOF_MAX && c != d && 0 <= n <= num.nodes ==> num.row[c, n] == old(num.row[c, n])
      modifies num.row
    {
      num.row[d, e.nodes[k]] := 1;
      k := k + 1;
    }
    MoreUses(es, e, d);
    assert e.nodes[..k] == e.nodes;
  }

  lemma MoreUses(es: seq<Element>, e: Element, d: nat)
    ensures Carries(es + [e], d) <==> Carries(es, d) || d in e.dofs
    ensures forall n: nat :: Uses(es + [e], n, d) <==> Uses(es, n, d) || (d in e.dofs && n in e.nodes)
  {
    var all := es + [e];
    assert all[|es|] == e && forall k :: 0 <= k < |es| ==> all[k] == es[k];
    forall n: nat | Uses(es, n, d)
      ensures Uses(all, n, d)
    {
      var k :| 0 <= k < |es| && d in es[k].dofs && n in es[k].nodes;
      assert all[k] == es[k];
    }
    if Carries(es, d) {
      var k :| 0 <= k < |es| && d in es[k].dofs;
      assert all[k] == es[k];
    }
  }

  lemma NoNewUses(num: Tabled, es: seq<Element>, e: Element, d: nat)
    requires d < num.has.Length && d < num.row.Length0 && num.row.Length1 == num.nodes + 1
    requires TableOf(num, es, d) && d !in e.dofs
    ensures TableOf(num, es + [e], d)
  {
    MoreUses(es, e, d);
  }

  /** numbering_update. */
  method Update(num: Tabled, es: seq<Element>, ghost bc: nat)
    requires num.Shape(bc) && InMesh(num.nodes, es) && num.has[..] == seq(DOF_MAX, _ => false)
    modifies num.has, num.row
    ensures forall d :: 0 <= d < DOF_MAX ==> TableOf(num, es, d)
  {
    var e := 0;
    assert forall d :: 0 <= d < DOF_MAX ==> !num.has[..][d];
    while e < |es|
      invariant 0 <= e <= |es|
      invariant forall d :: 0 <= d < DOF_MAX ==> TableOf(num, es[..e], d)
    {
      UpdateElement(num, es[e], es[..e], bc);
      assert es[..e + 1] == es[..e] + [es[e]];
      e := e + 1;
    }
    assert es[..e] == es;
  }

  /** The loop on degrees of freedom, for one element. */
  method UpdateElement(num: Tabled, e: Element, ghost es: seq<Element>, ghost bc: nat)
    requires num.Shape(bc) && forall k :: 0 <= k < |e.nodes| ==> e.nodes[k] < num.nodes
    requires forall d :: 0 <= d < DOF_MAX ==> TableOf(num, es, d)
    modifies num.has, num.row
    ensures forall d :: 0 <= d < DOF_MAX ==> TableOf(num, es + [e], d)
  {
    var d := 0;
    while d < DOF_MAX
      invariant 0 <= d <= DOF_MAX
      invariant forall c :: 0 <= c < d ==> TableOf(num, es + [e], c)
      invariant forall c :: d <= c < DOF_MAX ==> TableOf(num, es, c)
    {
      label Before:
      if d in e.dofs {
        UpdateDo(num, d, e, es, bc);
      } else {
        NoNewUses(num, es, e, d);
      }
      forall c | 0 <= c < d
        ensures TableOf(num, es + [e], c)
      {
        assert old@Before(TableOf(num, es + [e], c));
      }
      forall c | d < c < DOF_MAX
        ensures TableOf(num, es, c)
      {
        assert old@Before(TableOf(num, es, c));
      }
      d := d + 1;
    }
  }

  /** One turn of the inner loop of numbering_finish: `current` is the last number given apart from the l2 second
      multipliers given behind it. */
  method Visit(mult: Multipliers, n: nat, d: nat, current: nat, l2: nat, ghost m: Model, ghost order: seq<Unknown>)
    returns (current': nat, l2': nat, used: nat, ghost after: seq<Unknown>)
    requires mult.State(m, order, Rank(n, d)) && n < m.nodes && d < DOF_MAX && mult.num.has[d]
    requires |order| == current + l2
    modifies mult`nbL1, mult`nbL2, mult.nb, mult.num.row, mult.num.lambda1, mult.num.lambda2
    ensures mult.State(m, after, Rank(n, d) + 1) && mult.AllWaiting(m)
    ensures |after| == current' + l2'
    ensures |after| == |order| + used + (mult.nbL1 - old(mult.nbL1)) + (mult.nbL2 - old(mult.nbL2))
  {
    var l1, first := mult.L1(n, d, current + l2 + 1, m, order, Rank(n, d));
    var number, second := VisitDof(mult, n, d, current + l1 + l2, m, first);
    used := number - (current + l1 + l2);
    current' := number;
    l2', after := mult.L2(current' + 1, m, second, Rank(n, d) + 1);
  }

  /** The number of the unknown visited, if the node carries it. */
  method VisitDof(mult: Multipliers, n: nat, d: nat, given: nat, ghost m: Model, ghost order: seq<Unknown>)
    returns (number: nat, ghost after: seq<Unknown>)
    requires mult.State(m, order, Rank(n, d)) && n < m.nodes && d < DOF_MAX && mult.num.has[d]
    requires mult.nbL1 < mult.nb.Length ==> !Involves(mult.bcs[mult.nb[mult.nbL1]], n, d)
    requires given == |order|
    modifies mult.num.row
    ensures mult.State(m, after, Rank(n, d) + 1) && |after| == number
    ensures number == given + if m.Active(n, d) then 1 else 0
  {
    var was := mult.num.row[d, n];
    ghost var t, w := mult.num.T(), mult.W(Rank(n, d));
    mult.num.ReadDof(n, d);
    assert Agrees(mult.kept, mult.goal, m, t, order, w);
    ReadsUse(m, t, order, w, n, d, was);
    number := given + was;
    after := order;
    if was > 0 {
      after := NumberDof(mult, n, d, number, m, order);
    } else {
      GoOver(mult.goal, m, t, order, w, n, d);
      assert mult.W(Rank(n, d) + 1) == w.(pos := w.pos + 1);
      assert Agrees(mult.kept, mult.goal, m, t, order, mult.W(Rank(n, d) + 1));
    }
  }

  lemma ReadsUse(m: Model, t: Tables, order: seq<Unknown>, w: Work, n: nat, d: nat, was: nat)
    requires Inv(m, t, order, w) && n < m.nodes && d < DOF_MAX && m.has[d] && w.pos == Rank(n, d)
    requires was == t.Value(Dof(n, d))
    ensures was == if m.Active(n, d) then 1 else 0
  {
  }

  /** The number of the unknown visited. */
  method NumberDof(mult: Multipliers, n: nat, d: nat, number: nat, ghost m: Model, ghost order: seq<Unknown>)
    returns (ghost after: seq<Unknown>)
    requires mult.State(m, order, Rank(n, d)) && d < DOF_MAX && m.Active(n, d) && number == |order| + 1
    requires mult.nbL1 < mult.nb.Length ==> !Involves(mult.bcs[mult.nb[mult.nbL1]], n, d)
    modifies mult.num.row
    ensures mult.State(m, after, Rank(n, d) + 1) && |after| == |order| + 1
  {
    ghost var pos := Rank(n, d);
    ghost var t, w := mult.num.T(), mult.W(pos);
    assert Agrees(mult.kept, mult.goal, m, t, order, w);
    GoDof(mult.goal, m, t, order, w, n, d);
    after := order + [Dof(n, d)];
    mult.num.SetDof(n, d, number);
    assert mult.num.T() == t.Set(Dof(n, d), |order| + 1) && mult.W(pos + 1) == w.(pos := w.pos + 1);
    assert Agrees(mult.kept, mult.goal, m, mult.num.T(), after, mult.W(pos + 1));
  }

  /** The smallest node and the smallest degree of freedom there, as the first half of bc_compare finds them. */
  method MinPart(bc: seq<Part>) returns (node: nat, dof: nat)
    requires |bc| > 0 && forall i :: 0 <= i < |bc| ==> bc[i].d < DOF_MAX
    ensures dof < DOF_MAX && Rank(node, dof) == MinRank(bc)
  {
    node, dof := bc[0].n, bc[0].d;
    var i := 1;
    while i < |bc|
      invariant 1 <= i <= |bc| && dof < DOF_MAX && Rank(node, dof) == MinRank(bc[..i])
    {
      var n, d := bc[i].n, bc[i].d;
      MinRankNext(bc, i);
      if n == node && d < dof {
        dof := d;
      }
      if n < node {
        node, dof := n, d;
      }
      i := i + 1;
    }
    assert bc[..i] == bc;
  }

  lemma MinRankNext(bc: seq<Part>, i: nat)
    requires 1 <= i < |bc|
    ensures MinRank(bc[..i + 1]) == var r := RankOf(bc[i]); if r < MinRank(bc[..i]) then r else MinRank(bc[..i])
  {
    var more := bc[..i + 1];
    assert more[..|more| - 1] == bc[..i];
  }

  function Sign(x: int, y: int): int
  {
    if x < y then -1 else if x > y then 1 else 0
  }

  /** bc_compare; na and nb are the places of the conditions in the list. */
  method BcCompare(a: seq<Part>, na: nat, b: seq<Part>, nb: nat) returns (r: int)
    requires |a| > 0 && forall i :: 0 <= i < |a| ==> a[i].d < DOF_MAX
    requires |b| > 0 && forall i :: 0 <= i < |b| ==> b[i].d < DOF_MAX
    ensures r == if MinRank(a) != MinRank(b) then Sign(MinRank(a), MinRank(b)) else Sign(na, nb)
  {
    var nodeA, dofA := MinPart(a);
    var nodeB, dofB := MinPart(b);
    if nodeA < nodeB {
      return -1;
    }
    if nodeA > nodeB {
      return 1;
    }
    if dofA < dofB {
      return -1;
    }
    if dofA > dofB {
      return 1;
    }
    r := Sign(na, nb);
  }

  /** What qsort leaves: all conditions, none after one that bc_compare puts behind it. */
  ghost predicate IsSorted(bcs: seq<seq<Part>>, nb: seq<nat>)
  {
    && Work(0, nb, 0, 0).Ok(|bcs|)
    && forall i, j :: 0 <= i <= j < |nb| && |bcs[nb[i]]| > 0 && |bcs[nb[j]]| > 0 ==>
         MinRank(bcs[nb[i]]) <= MinRank(bcs[nb[j]])
  }

  /** Nothing numbered yet. */
  lemma Starts(m: Model, t: Tables, nb: seq<nat>)
    requires m.Ok() && t.Sized(m.nodes, |m.bcs|) && IsSorted(m.bcs, nb)
    requires t.lambda1 == t.lambda2 == seq(|m.bcs|, _ => 0)
    requires forall d :: 0 <= d < DOF_MAX && m.has[d] ==>
               t.row[d][m.nodes] == 1 && forall n :: 0 <= n < m.nodes ==> t.row[d][n] == if m.used[d][n] then 1 else 0
    ensures OrderInv(m, t, [], Work(0, nb, 0, 0))
  {
  }

  /** One turn of the inner loop, or nothing when there is no table. */
  method VisitOrSkip(mult: Multipliers, n: nat, d: nat, current: nat, l2: nat, ghost m: Model,
                     ghost order: seq<Unknown>)
    returns (current': nat, l2': nat, used: nat, ghost after: seq<Unknown>)
    requires mult.State(m, order, Rank(n, d)) && mult.AllWaiting(m) && n < m.nodes && d < DOF_MAX
    requires |order| == current + l2
    modifies mult`nbL1, mult`nbL2, mult.nb, mult.num.row, mult.num.lambda1, mult.num.lambda2
    ensures mult.State(m, after, Rank(n, d) + 1) && mult.AllWaiting(m)
    ensures |after| == current' + l2'
    ensures |after| == |order| + used + (mult.nbL1 - old(mult.nbL1)) + (mult.nbL2 - old(mult.nbL2))
  {
    if mult.num.has[d] {
      current', l2', used, after := Visit(mult, n, d, current, l2, m, order);
    } else {
      current', l2', used, after := current, l2, 0, order;
      ghost var t, w := mult.num.T(), mult.W(Rank(n, d));
      assert Agrees(mult.kept, mult.goal, m, t, order, w);
      GoOver(mult.goal, m, t, order, w, n, d);
      assert mult.W(Rank(n, d) + 1) == w.(pos := w.pos + 1);
      assert Agrees(mult.kept, mult.goal, m, t, order, mult.W(Rank(n, d) + 1));
    }
  }

  /** The inner loop of numbering_finish. */
  method VisitNode(mult: Multipliers, n: nat, current: nat, l2: nat, ghost m: Model, ghost order: seq<Unknown>)
    returns (current': nat, l2': nat, used: nat, ghost after: seq<Unknown>)
    requires mult.State(m, order, Rank(n, 0)) && mult.AllWaiting(m) && n < m.nodes && |order| == current + l2
    modifies mult`nbL1, mult`nbL2, mult.nb, mult.num.row, mult.num.lambda1, mult.num.lambda2
    ensures mult.State(m, after, Rank(n, DOF_MAX)) && mult.AllWaiting(m)
    ensures |after| == current' + l2'
    ensures |after| == |order| + used + (mult.nbL1 - old(mult.nbL1)) + (mult.nbL2 - old(mult.nbL2))
  {
    current', l2', used, after := current, l2, 0, order;
    var d := 0;
    while d < DOF_MAX
      invariant 0 <= d <= DOF_MAX && mult.State(m, after, Rank(n, d)) && mult.AllWaiting(m)
      invariant |after| == current' + l2'
      invariant |after| == |order| + used + (mult.nbL1 - old(mult.nbL1)) + (mult.nbL2 - old(mult.nbL2))
    {
      var more;
      current', l2', more, after := VisitOrSkip(mult, n, d, current', l2', m, after);
      used := used + more;
      d := d + 1;
    }
  }

  /** The loops of numbering_finish. */
  method NumberAll(mult: Multipliers, ghost m: Model) returns (total: nat, ghost order: seq<Unknown>)
    requires mult.State(m, [], 0) && mult.nbL1 == mult.nbL2 == 0
    modifies mult`nbL1, mult`nbL2, mult.nb, mult.num.row, mult.num.lambda1, mult.num.lambda2
    ensures mult.State(m, order, Rank(m.nodes, 0)) && mult.AllWaiting(m)
    ensures |order| == total + mult.nbL1 + mult.nbL2
  {
    var current, l2 := 0, 0;
    total, order := 0, [];
    var n := 0;
    while n < mult.num.nodes
      invariant 0 <= n <= m.nodes && mult.State(m, order, Rank(n, 0)) && mult.AllWaiting(m)
      invariant |order| == current + l2 == total + mult.nbL1 + mult.nbL2
    {
      var used;
      current, l2, used, order := VisitNode(mult, n, current, l2, m, order);
      total := total + used;
      assert Rank(n, DOF_MAX) == Rank(n + 1, 0);
      n := n + 1;
    }
  }
}
