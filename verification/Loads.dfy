/** Nodal loads: load_node_vector, __fem_load_vector and fem_load_add of load.c. */
module Loads {
  import opened Numbering
  import opened NumberingLookup
  import opened PagedList

  /** A force on a degree of freedom of a node, by its internal number; a node that does not exist has the number
      behind all others. */
  datatype Load = Load(n: nat, d: nat, value: real)

  /** The unknown takes loads: there is a table, and a positive number in it. */
  predicate Taken(m: Model, t: Tables, load: Load)
    requires m.Ok()
  {
    load.d < DOF_MAX && m.has[load.d] && t.Value(Dof(load.n, load.d)) > 0
  }

  /** What the loads add to coefficient i. */
  function Added(m: Model, t: Tables, loads: seq<Load>, i: nat): real
    requires m.Ok()
  {
    if loads == [] then 0.0
    else
      var last := loads[|loads| - 1];
      Added(m, t, loads[..|loads| - 1], i)
      + if Taken(m, t, last) && t.Value(Dof(last.n, last.d)) - 1 == i then last.value else 0.0
  }

  ghost predicate InRange(m: Model, t: Tables, loads: seq<Load>, size: nat)
    requires m.Ok()
  {
    forall k :: 0 <= k < |loads| && Taken(m, t, loads[k]) ==> t.Value(Dof(loads[k].n, loads[k].d)) <= size
  }

  /** __fem_load_vector, for nodal loads. */
  method LoadVector(b: array<real>, loads: seq<Load>, m: Model, t: Tables)
    requires m.Ok() && InRange(m, t, loads, b.Length)
    modifies b
    ensures forall i :: 0 <= i < b.Length ==> b[i] == old(b[i]) + Added(m, t, loads, i)
  {
    var k := 0;
    while k < |loads|
      invariant 0 <= k <= |loads|
      invariant forall i :: 0 <= i < b.Length ==> b[i] == old(b[i]) + Added(m, t, loads[..k], i)
    {
      assert loads[..k + 1][..k] == loads[..k];
      if Taken(m, t, loads[k]) {
        var row := t.Value(Dof(loads[k].n, loads[k].d)) - 1;
        b[row] := b[row] + loads[k].value;
      }
      k := k + 1;
    }
    assert loads[..k] == loads;
  }

  /** Loads add up. */
  lemma {:induction false} AddedTogether(m: Model, t: Tables, loads: seq<Load>, more: seq<Load>, i: nat)
    requires m.Ok()
    ensures Added(m, t, loads + more, i) == Added(m, t, loads, i) + Added(m, t, more, i)
    decreases |more|
  {
    if more == [] {
      assert loads + more == loads;
    } else {
      var all := loads + more;
      assert all[..|all| - 1] == loads + more[..|more| - 1];
      AddedTogether(m, t, loads, more[..|more| - 1], i);
    }
  }

  /** The index of an unknown in the vector, when the load is on an existing unknown. */
  lemma ActiveIsTaken(m: Model, t: Tables, order: seq<Unknown>, load: Load)
    requires Numbered(m, t, order) && load.n <= m.nodes
    ensures Taken(m, t, load) <==>
              m.Active(load.n, load.d) || (load.n == m.nodes && load.d < DOF_MAX && m.has[load.d])
    ensures m.Active(load.n, load.d) ==>
              1 <= t.Value(Dof(load.n, load.d)) <= |order|
              && order[t.Value(Dof(load.n, load.d)) - 1] == Dof(load.n, load.d)
  {
    if m.Active(load.n, load.d) {
      assert m.Genuine(Dof(load.n, load.d));
    }
  }

  /** Loads on existing nodes never reach the row of a multiplier. */
  lemma {:induction false} MultipliersUnloaded(m: Model, t: Tables, order: seq<Unknown>, loads: seq<Load>, i: nat)
    requires Numbered(m, t, order) && (forall k :: 0 <= k < |loads| ==> loads[k].n < m.nodes)
    requires i < |order| && !order[i].Dof?
    ensures Added(m, t, loads, i) == 0.0
  {
    if loads != [] {
      MultipliersUnloaded(m, t, order, loads[..|loads| - 1], i);
      ActiveIsTaken(m, t, order, loads[|loads| - 1]);
    }
  }

  /** A load on a node that does not exist is not ignored: it goes to the first unknown. */
  lemma MissingNodeLoadsFirst(m: Model, t: Tables, order: seq<Unknown>, load: Load, i: nat)
    requires Numbered(m, t, order) && load.n == m.nodes && load.d < DOF_MAX && m.has[load.d]
    ensures Added(m, t, [load], i) == if i == 0 then load.value else 0.0
  {
    assert !m.Active(m.nodes, load.d);
    assert [load][..0] == [];
  }

  /** fem_load_add: a copy of the first list, then the second one behind it. */
  function LoadAdd(load1: List<Load>, load2: List<Load>): (r: List<Load>)
    requires load1.Valid() && load2.Valid()
    ensures r.Valid()
  {
    CopyIsEmpty(load1);
    Merge(Copy(load1), Elements(load2.pages))
  }

  /** The vector of the merged list is the sum of both vectors exactly when the first list adds nothing. */
  lemma MergedIsSumIff(m: Model, t: Tables, load1: List<Load>, load2: List<Load>, i: nat)
    requires m.Ok() && load1.Valid() && load2.Valid()
    ensures Elements(LoadAdd(load1, load2).pages) == Elements(load2.pages)
    ensures Added(m, t, Elements(LoadAdd(load1, load2).pages), i)
            == Added(m, t, Elements(load1.pages), i) + Added(m, t, Elements(load2.pages), i)
       <==> Added(m, t, Elements(load1.pages), i) == 0.0
  {
    CopyIsEmpty(load1);
    assert [] + Elements(load2.pages) == Elements(load2.pages);
  }

  lemma AddedAlone(m: Model, t: Tables, load: Load, i: nat)
    requires m.Ok() && Taken(m, t, load) && t.Value(Dof(load.n, load.d)) - 1 == i
    ensures Added(m, t, [load], i) == load.value && Added(m, t, [], i) == 0.0
  {
    assert [load][..0] == [];
  }

  /** A list with one load. */
  function Single(load: Load): (r: List<Load>)
    ensures r.Valid() && Elements(r.pages) == [load]
  {
    AppendsAtEnd(New(1), load);
    Append(New(1), load)
  }

  /** A load on an unknown, merged with an empty list: it is lost. */
  lemma FirstLoadDropped(m: Model, t: Tables, order: seq<Unknown>, n: nat, d: nat)
    requires Numbered(m, t, order) && m.Active(n, d)
    ensures var i, load1 := t.Value(Dof(n, d)) - 1, Single(Load(n, d, 1.0));
            && 0 <= i < |order|
            && Added(m, t, Elements(load1.pages), i) == 1.0
            && Added(m, t, Elements(LoadAdd(load1, New(1)).pages), i) == 0.0
  {
    ActiveIsTaken(m, t, order, Load(n, d, 1.0));
    AddedAlone(m, t, Load(n, d, 1.0), t.Value(Dof(n, d)) - 1);
    MergedIsSumIff(m, t, Single(Load(n, d, 1.0)), New(1), t.Value(Dof(n, d)) - 1);
  }
}
