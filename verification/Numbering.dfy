/** Numbering of the unknowns: numbering.c, with the two families of Lagrange multipliers handed out by bc.c. */
module Numbering {

  const DOF_MAX: nat := 6

  /** A node, by its internal number, and a degree of freedom. */
  datatype Part = Part(n: nat, d: nat)

  /** What gets a number: a degree of freedom at a node, and two multipliers for each boundary condition. */
  datatype Unknown = Dof(n: nat, d: nat) | Lambda1(b: nat) | Lambda2(b: nat)

  /** The tables row[d], with one entry more than there are nodes, and lambda1, lambda2. */
  datatype Tables = Tables(row: seq<seq<nat>>, lambda1: seq<nat>, lambda2: seq<nat>) {

    predicate Sized(nodes: nat, bc: nat)
    {
      && |row| == DOF_MAX && (forall d :: 0 <= d < DOF_MAX ==> |row[d]| == nodes + 1)
      && |lambda1| == |lambda2| == bc
    }

    /** The number given to u, 0 when there is none. */
    function Value(u: Unknown): nat
    {
      match u
      case Dof(n, d) => if d < |row| && n < |row[d]| then row[d][n] else 0
      case Lambda1(b) => if b < |lambda1| then lambda1[b] else 0
      case Lambda2(b) => if b < |lambda2| then lambda2[b] else 0
    }

    function Set(u: Unknown, v: nat): (t: Tables)
      requires match u
               case Dof(n, d) => d < |row| && n < |row[d]|
               case Lambda1(b) => b < |lambda1|
               case Lambda2(b) => b < |lambda2|
      ensures t.Value(u) == v && forall w :: w != u ==> t.Value(w) == Value(w)
      ensures forall nodes, bc :: Sized(nodes, bc) ==> t.Sized(nodes, bc)
    {
      match u
      case Dof(n, d) =>
        var table: seq<nat> := row[d][n := v];
        this.(row := row[d := table])
      case Lambda1(b) => this.(lambda1 := lambda1[b := v])
      case Lambda2(b) => this.(lambda2 := lambda2[b := v])
    }

    /** u has a number, and it is its rank in the order. */
    ghost predicate Placed(order: seq<Unknown>, u: Unknown)
    {
      1 <= Value(u) <= |order| && order[Value(u) - 1] == u
    }

    ghost predicate Places(order: seq<Unknown>)
    {
      forall k :: 0 <= k < |order| ==> Value(order[k]) == k + 1
    }
  }

  /** What the numbering starts from: row[d] is a table when has[d], with 1 at the nodes that carry the degree of
      freedom; bcs lists the parts of each boundary condition. */
  datatype Model = Model(nodes: nat, has: seq<bool>, used: seq<seq<bool>>, bcs: seq<seq<Part>>) {

    predicate Ok()
    {
      && |has| == |used| == DOF_MAX
      && (forall d :: 0 <= d < DOF_MAX ==> |used[d]| == nodes)
      && forall b :: 0 <= b < |bcs| ==> forall i :: 0 <= i < |bcs[b]| ==> bcs[b][i].d < DOF_MAX && bcs[b][i].n <= nodes
    }

    /** The node carries the degree of freedom. */
    predicate Active(n: nat, d: nat)
      requires Ok()
    {
      d < DOF_MAX && n < nodes && has[d] && used[d][n]
    }

    predicate Genuine(u: Unknown)
      requires Ok()
    {
      match u
      case Dof(n, d) => Active(n, d)
      case Lambda1(b) => b < |bcs|
      case Lambda2(b) => b < |bcs|
    }
  }

  /** Rank of (n,d) in the loops over nodes and degrees of freedom. */
  function Rank(n: nat, d: nat): nat
  {
    DOF_MAX * n + d
  }

  /** How far the numbering is: visits made, conditions in their current order, multipliers handed out. */
  datatype Work = Work(pos: nat, nb: seq<nat>, l1: nat, l2: nat) {

    predicate Ok(bc: nat)
    {
      l2 <= l1 <= |nb| == bc && Permutation()
    }

    predicate Permutation()
    {
      && (forall j :: 0 <= j < |nb| ==> nb[j] < |nb|)
      && (forall i, j :: 0 <= i < j < |nb| ==> nb[i] != nb[j])
    }
  }

  ghost predicate DofsSoFar(m: Model, t: Tables, order: seq<Unknown>, pos: nat)
    requires m.Ok()
  {
    && (forall n: nat, d: nat :: m.Active(n, d) ==>
          if Rank(n, d) < pos then t.Placed(order, Dof(n, d)) else t.Value(Dof(n, d)) == 1)
    && (forall n: nat, d: nat :: d < DOF_MAX && n <= m.nodes && m.has[d] && !m.Active(n, d) ==>
          t.Value(Dof(n, d)) == if n == m.nodes then 1 else 0)
  }

  ghost predicate FirstsSoFar(t: Tables, order: seq<Unknown>, w: Work)
  {
    forall j :: 0 <= j < |w.nb| ==>
      if j < w.l1 then t.Placed(order, Lambda1(w.nb[j])) else t.Value(Lambda1(w.nb[j])) == 0
  }

  ghost predicate SecondsSoFar(t: Tables, order: seq<Unknown>, w: Work)
  {
    forall j :: 0 <= j < |w.nb| ==>
      if j < w.l2 then t.Placed(order, Lambda2(w.nb[j])) else t.Value(Lambda2(w.nb[j])) == 0
  }

  /** u may have a number by now. */
  predicate Given(m: Model, u: Unknown, pos: nat)
    requires m.Ok()
  {
    m.Genuine(u) && (u.Dof? ==> Rank(u.n, u.d) < pos)
  }

  /** `order` lists the unknowns numbered so far: number k belongs to order[k-1] and to nothing else. */
  ghost predicate Inv(m: Model, t: Tables, order: seq<Unknown>, w: Work)
  {
    && m.Ok() && t.Sized(m.nodes, |m.bcs|) && w.Ok(|m.bcs|)
    && t.Places(order)
    && (forall k :: 0 <= k < |order| ==> Given(m, order[k], w.pos))
    && DofsSoFar(m, t, order, w.pos)
    && FirstsSoFar(t, order, w)
    && SecondsSoFar(t, order, w)
  }

  /** One more number handed out, to an unknown that has none yet. */
  lemma PlaceNext(t: Tables, t': Tables, order: seq<Unknown>, u: Unknown)
    requires t.Places(order) && !t.Placed(order, u)
    requires t'.Value(u) == |order| + 1 && forall w :: w != u ==> t'.Value(w) == t.Value(w)
    ensures t'.Places(order + [u]) && t'.Placed(order + [u], u)
    ensures forall w :: t.Placed(order, w) ==> t'.Placed(order + [u], w) && w != u
  {
    forall k | 0 <= k < |order|
      ensures order[k] != u
    {
      assert t.Value(order[k]) == k + 1;
    }
  }

  /** The first multiplier of the next condition. */
  lemma StepFirst(m: Model, t: Tables, order: seq<Unknown>, w: Work)
    requires Inv(m, t, order, w) && w.l1 < |w.nb|
    ensures var u := Lambda1(w.nb[w.l1]);
            Inv(m, t.Set(u, |order| + 1), order + [u], w.(l1 := w.l1 + 1))
  {
    var u := Lambda1(w.nb[w.l1]);
    PlaceNext(t, t.Set(u, |order| + 1), order, u);
  }

  /** The degree of freedom visited, if it is used. */
  lemma StepDof(m: Model, t: Tables, order: seq<Unknown>, w: Work, n: nat, d: nat)
    requires Inv(m, t, order, w) && m.Active(n, d) && w.pos == Rank(n, d)
    ensures Inv(m, t.Set(Dof(n, d), |order| + 1), order + [Dof(n, d)], w.(pos := w.pos + 1))
  {
    PlaceNext(t, t.Set(Dof(n, d), |order| + 1), order, Dof(n, d));
  }

  lemma StepOver(m: Model, t: Tables, order: seq<Unknown>, w: Work, n: nat, d: nat)
    requires Inv(m, t, order, w) && d < DOF_MAX && !m.Active(n, d) && w.pos == Rank(n, d)
    ensures Inv(m, t, order, w.(pos := w.pos + 1))
  {
  }

  function Swap(s: seq<nat>, i: nat, j: nat): seq<nat>
    requires i < |s| && j < |s|
  {
    s[i := s[j]][j := s[i]]
  }

  /** The second multiplier of a condition that has its first one. */
  lemma StepSecond(m: Model, t: Tables, order: seq<Unknown>, w: Work, j: nat)
    requires Inv(m, t, order, w) && w.l2 <= j < w.l1
    ensures var u := Lambda2(w.nb[j]);
            Inv(m, t.Set(u, |order| + 1), order + [u], w.(nb := Swap(w.nb, j, w.l2), l2 := w.l2 + 1))
  {
    var u := Lambda2(w.nb[j]);
    PlaceNext(t, t.Set(u, |order| + 1), order, u);
  }
}
