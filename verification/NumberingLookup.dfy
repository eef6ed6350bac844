/** From unknowns to numbers and back: __fem_numbering_global and __fem_numbering_local. */
module NumberingLookup {
  import opened Numbering
  import opened NumberingOrder
  import opened NumberingRun
  import opened NumberingCreate

  /** A finished numbering of the model m. */
  ghost predicate Numbered(m: Model, t: Tables, order: seq<Unknown>)
  {
    && m.Ok() && t.Sized(m.nodes, |m.bcs|)
    && Bijection(m, t, order) && OtherEntries(m, t) && DofsRise(order)
  }

  /** __fem_numbering_global, for the internal number of a node, which is `nodes` when there is no such node. */
  method Global(num: Tabled, n: nat, dof: nat, ghost m: Model, ghost order: seq<Unknown>) returns (r: nat)
    requires num.Shape(|m.bcs|) && m.nodes == num.nodes && m.Ok() && m.has == num.has[..] && n <= num.nodes
    requires Numbered(m, num.T(), order)
    ensures m.Active(n, dof) ==> 1 <= r <= |order| && order[r - 1] == Dof(n, dof)
    ensures n < num.nodes && !m.Active(n, dof) ==> r == 0
    ensures n == num.nodes ==> r == if dof < DOF_MAX && m.has[dof] then 1 else 0
  {
    r := 0;
    if dof < DOF_MAX && num.has[dof] {
      r := num.row[dof, n];
      num.ReadDof(n, dof);
      assert m.Active(n, dof) ==> m.Genuine(Dof(n, dof));
    }
  }

  /** How a search ends: with an unknown, without one, or reading behind a table. */
  datatype Lookup = Found(u: Unknown) | NotFound | BehindTable

  /** Table d holds a number above k. */
  ghost predicate Beyond(m: Model, t: Tables, d: nat, k: nat)
    requires m.Ok()
  {
    exists n: nat :: m.Active(n, d) && t.Value(Dof(n, d)) > k
  }

  /** A search of table d that does not find dof stays inside the table, and does not take its last entry for dof. */
  ghost predicate Harmless(m: Model, t: Tables, d: nat, no: nat, dof: nat)
    requires m.Ok()
  {
    no <= m.nodes || Beyond(m, t, d, dof) || (no == m.nodes + 1 && dof != 1)
  }

  /** The search of table d for dof, over `no` nodes, finds nothing. */
  ghost predicate Passes(m: Model, t: Tables, d: nat, no: nat, dof: nat)
    requires m.Ok()
  {
    NotInRow(t, d, if no < m.nodes then no else m.nodes, dof) && Harmless(m, t, d, no, dof)
  }

  /** The search of table d for dof leaves the table. */
  ghost predicate Overruns(m: Model, t: Tables, d: nat, no: nat, dof: nat)
    requires m.Ok()
  {
    NotInRow(t, d, m.nodes, dof) && no > m.nodes + 1 && !Beyond(m, t, d, dof) && dof != 1
  }

  /** The search finds dof at node n of table d: a node that carries it, or the entry behind a table of zeros. */
  ghost predicate Hits(m: Model, t: Tables, d: nat, no: nat, dof: nat, n: nat)
    requires m.Ok()
  {
    && n < no && t.Value(Dof(n, d)) == dof
    && (m.Active(n, d) || (n == m.nodes && forall k: nat :: !m.Active(k, d)))
  }

  ghost predicate PassesBefore(m: Model, t: Tables, d: nat, no: nat, dof: nat)
    requires m.Ok()
  {
    forall c :: 0 <= c < d && c < DOF_MAX && m.has[c] ==> Passes(m, t, c, no, dof)
  }

  /** What a search for dof over `no` nodes reports. */
  ghost predicate IsLocal(m: Model, t: Tables, no: nat, dof: nat, r: Lookup)
    requires m.Ok()
  {
    match r
    case Found(Dof(n, d)) => d < DOF_MAX && m.has[d] && PassesBefore(m, t, d, no, dof) && Hits(m, t, d, no, dof, n)
    case Found(u) => PassesBefore(m, t, DOF_MAX, no, dof) && m.Genuine(u) && t.Value(u) == dof
    case NotFound => PassesBefore(m, t, DOF_MAX, no, dof) && forall u :: m.Genuine(u) && !u.Dof? ==> t.Value(u) != dof
    case BehindTable =>
      exists d :: 0 <= d < DOF_MAX && m.has[d] && PassesBefore(m, t, d, no, dof) && Overruns(m, t, d, no, dof)
  }

  /** Numbers in one table increase with the node. */
  lemma RowsRise(m: Model, t: Tables, order: seq<Unknown>, n: nat, n': nat, d: nat)
    requires Numbered(m, t, order) && n < n' && m.Active(n, d) && m.Active(n', d)
    ensures t.Value(Dof(n, d)) < t.Value(Dof(n', d))
  {
    assert t.Placed(order, Dof(n, d)) && t.Placed(order, Dof(n', d));
  }

  /** Nothing in table d before node `no` has this number. */
  ghost predicate NotInRow(t: Tables, d: nat, no: nat, dof: nat)
  {
    forall n: nat :: n < no ==> t.Value(Dof(n, d)) != dof
  }

  /** Leaving the search at the first larger number misses nothing. */
  lemma BreakIsSound(m: Model, t: Tables, order: seq<Unknown>, n: nat, d: nat, no: nat, dof: nat)
    requires Numbered(m, t, order) && d < DOF_MAX && m.has[d] && n < no <= m.nodes && dof >= 1
    requires t.Value(Dof(n, d)) > dof && NotInRow(t, d, n, dof)
    ensures NotInRow(t, d, no, dof)
  {
    forall k: nat | k < no
      ensures t.Value(Dof(k, d)) != dof
    {
      if k > n && m.Active(k, d) {
        assert m.Active(n, d);
        RowsRise(m, t, order, n, k, d);
      }
    }
  }

  /** The search in one table. */
  method SearchRow(num: Tabled, d: nat, no: nat, dof: nat, ghost m: Model, ghost order: seq<Unknown>)
    returns (r: Lookup)
    requires num.Shape(|m.bcs|) && m.nodes == num.nodes && Numbered(m, num.T(), order) && m.has == num.has[..]
    requires d < DOF_MAX && num.has[d] && dof >= 1
    ensures match r
            case Found(u) => u.Dof? && u.d == d && Hits(m, num.T(), d, no, dof, u.n)
            case NotFound => Passes(m, num.T(), d, no, dof)
            case BehindTable => Overruns(m, num.T(), d, no, dof)
  {
    var n := 0;
    while n < no && n <= num.nodes
      invariant 0 <= n <= num.nodes + 1 && n <= no && UpTo(num.T(), d, n, dof)
    {
      num.ReadDof(n, d);
      if num.row[d, n] == dof {
        FoundThere(m, num.T(), order, d, no, dof, n);
        return Found(Dof(n, d));
      }
      if num.row[d, n] > dof {
        LargerThere(m, num.T(), order, d, no, dof, n);
        return NotFound;
      }
      n := n + 1;
    }
    NoneThere(m, num.T(), order, d, no, dof, n);
    r := if n < no then BehindTable else NotFound;
  }

  /** All entries of table d before node n are smaller than dof. */
  ghost predicate UpTo(t: Tables, d: nat, n: nat, dof: nat)
  {
    forall k: nat :: k < n ==> t.Value(Dof(k, d)) < dof
  }

  lemma FoundThere(m: Model, t: Tables, order: seq<Unknown>, d: nat, no: nat, dof: nat, n: nat)
    requires Numbered(m, t, order) && d < DOF_MAX && m.has[d] && n <= m.nodes && n < no && dof >= 1
    requires t.Value(Dof(n, d)) == dof && UpTo(t, d, n, dof)
    ensures Hits(m, t, d, no, dof, n)
  {
    forall k: nat | m.Active(k, d)
      ensures 1 <= t.Value(Dof(k, d))
    {
      assert m.Genuine(Dof(k, d)) && t.Placed(order, Dof(k, d));
    }
  }

  lemma LargerThere(m: Model, t: Tables, order: seq<Unknown>, d: nat, no: nat, dof: nat, n: nat)
    requires Numbered(m, t, order) && d < DOF_MAX && m.has[d] && n <= m.nodes && n < no && dof >= 1
    requires t.Value(Dof(n, d)) > dof && UpTo(t, d, n, dof)
    ensures Passes(m, t, d, no, dof)
  {
    assert m.Active(n, d);
    BreakIsSound(m, t, order, n, d, m.nodes, dof);
  }

  lemma NoneThere(m: Model, t: Tables, order: seq<Unknown>, d: nat, no: nat, dof: nat, n: nat)
    requires Numbered(m, t, order) && d < DOF_MAX && m.has[d] && n <= no && n <= m.nodes + 1
    requires n == no || n == m.nodes + 1
    requires UpTo(t, d, n, dof)
    ensures n == no ==> Passes(m, t, d, no, dof)
    ensures n < no ==> Overruns(m, t, d, no, dof)
  {
    if n == m.nodes + 1 {
      assert !m.Active(m.nodes, d) && t.Value(Dof(m.nodes, d)) == 1;
    }
  }

  /** __fem_numbering_local, for any count of nodes passed; numbers begin from 1. */
  method Local(num: Tabled, no: nat, dof: nat, ghost m: Model, ghost order: seq<Unknown>) returns (r: Lookup)
    requires num.Shape(|m.bcs|) && m.nodes == num.nodes && Numbered(m, num.T(), order) && m.has == num.has[..]
    requires dof >= 1
    ensures IsLocal(m, num.T(), no, dof, r)
  {
    var d := 0;
    while d < DOF_MAX
      invariant 0 <= d <= DOF_MAX && PassesBefore(m, num.T(), d, no, dof)
    {
      if num.has[d] {
        r := SearchRow(num, d, no, dof, m, order);
        if r != NotFound {
          return;
        }
      }
      d := d + 1;
    }
    r := SearchMultipliers(num, no, dof, m);
  }

  /** The second half of __fem_numbering_local. */
  method SearchMultipliers(num: Tabled, no: nat, dof: nat, ghost m: Model) returns (r: Lookup)
    requires num.Shape(|m.bcs|) && m.nodes == num.nodes && m.Ok() && PassesBefore(m, num.T(), DOF_MAX, no, dof)
    ensures IsLocal(m, num.T(), no, dof, r)
  {
    var b := 0;
    while b < num.lambda1.Length
      invariant 0 <= b <= num.lambda1.Length
      invariant forall k :: 0 <= k < b ==> num.lambda1[k] != dof && num.lambda2[k] != dof
    {
      if num.lambda1[b] == dof {
        return Found(Lambda1(b));
      }
      if num.lambda2[b] == dof {
        return Found(Lambda2(b));
      }
      b := b + 1;
    }
    r := NotFound;
  }

  /** The unknown lies among the nodes searched, and the tables searched before its own are left in time. */
  ghost predicate Reached(m: Model, t: Tables, no: nat, u: Unknown)
    requires m.Ok()
  {
    && (u.Dof? ==> u.n < no)
    && forall c :: 0 <= c < DOF_MAX && m.has[c] && (u.Dof? ==> c < u.d) ==> Harmless(m, t, c, no, t.Value(u))
  }

  /** For any count of nodes, a search finds the unknown that has the number if and only if it is reached. */
  lemma FindsIff(m: Model, t: Tables, order: seq<Unknown>, no: nat, dof: nat, r: Lookup)
    requires Numbered(m, t, order) && 1 <= dof <= |order| && IsLocal(m, t, no, dof, r)
    ensures r == Found(order[dof - 1]) <==> Reached(m, t, no, order[dof - 1])
  {
    var u := order[dof - 1];
    assert m.Genuine(u) && t.Value(u) == dof;
    OnlyThat(m, t, order, u);
    if r == Found(u) && !u.Dof? {
      assert PassesBefore(m, t, DOF_MAX, no, dof);
    }
  }

  /** Local undoes global, and global undoes local. */
  lemma RoundTrip(m: Model, t: Tables, order: seq<Unknown>, no: nat, dof: nat, r: Lookup)
    requires Numbered(m, t, order) && no <= m.nodes && IsLocal(m, t, no, dof, r)
    ensures r.Found? ==> 1 <= dof <= |order| && order[dof - 1] == r.u
    ensures 1 <= dof <= |order| ==>
              r == if order[dof - 1].Dof? && order[dof - 1].n >= no then NotFound else Found(order[dof - 1])
  {
    if r.Found? {
      assert m.Genuine(r.u) && t.Placed(order, r.u);
    }
    if 1 <= dof <= |order| {
      FindsIff(m, t, order, no, dof, r);
    }
  }

  ghost predicate AllReached(m: Model, t: Tables, no: nat)
    requires m.Ok()
  {
    forall u :: m.Genuine(u) ==> Reached(m, t, no, u)
  }

  /** fem_problem_dof_get_local searches as many nodes as there are meshes. With no more meshes than nodes every unknown
      is found if and only if no node with unknowns lies behind. */
  lemma FewMeshesIff(m: Model, t: Tables, meshes: nat)
    requires m.Ok() && meshes <= m.nodes
    ensures AllReached(m, t, meshes) <==> forall n: nat, d: nat :: m.Active(n, d) ==> n < meshes
  {
    if AllReached(m, t, meshes) {
      forall n: nat, d: nat | m.Active(n, d)
        ensures n < meshes
      {
        assert m.Genuine(Dof(n, d));
        assert Reached(m, t, meshes, Dof(n, d));
      }
    }
  }

  /** With at least two meshes more than nodes: if and only if each degree of freedom before that of an unknown is
      carried by a later node, and each table holds a number beyond those of all multipliers. */
  lemma ManyMeshesIff(m: Model, t: Tables, order: seq<Unknown>, meshes: nat)
    requires Numbered(m, t, order) && meshes >= m.nodes + 2
    ensures AllReached(m, t, meshes) <==>
            && (forall n: nat, d: nat, c: nat :: m.Active(n, d) && c < d && m.has[c] ==> LaterNode(m, n, c))
            && (forall b: nat, c: nat :: b < |m.bcs| && c < DOF_MAX && m.has[c] ==> BeyondBoth(m, t, b, c))
  {
    forall n: nat, d: nat, c: nat | m.Active(n, d) && c < d && m.has[c]
      ensures Beyond(m, t, c, t.Value(Dof(n, d))) <==> LaterNode(m, n, c)
    {
      BeyondIsLater(m, t, order, n, d, c);
    }
    if AllReached(m, t, meshes) {
      forall n: nat, d: nat, c: nat | m.Active(n, d) && c < d && m.has[c]
        ensures LaterNode(m, n, c)
      {
        assert m.Genuine(Dof(n, d));
        assert Reached(m, t, meshes, Dof(n, d));
        assert Harmless(m, t, c, meshes, t.Value(Dof(n, d)));
      }
      forall b: nat, c: nat | b < |m.bcs| && c < DOF_MAX && m.has[c]
        ensures BeyondBoth(m, t, b, c)
      {
        assert m.Genuine(Lambda1(b)) && m.Genuine(Lambda2(b));
        assert Reached(m, t, meshes, Lambda1(b)) && Reached(m, t, meshes, Lambda2(b));
        assert Harmless(m, t, c, meshes, t.Value(Lambda1(b))) && Harmless(m, t, c, meshes, t.Value(Lambda2(b)));
      }
    } else {
      var u :| m.Genuine(u) && !Reached(m, t, meshes, u);
      var c: nat :| c < DOF_MAX && m.has[c] && (u.Dof? ==> c < u.d) && !Beyond(m, t, c, t.Value(u));
      if !u.Dof? {
        assert !BeyondBoth(m, t, u.b, c);
      }
    }
  }

  /** Table c holds a number beyond those of both multipliers of condition b. */
  ghost predicate BeyondBoth(m: Model, t: Tables, b: nat, c: nat)
    requires m.Ok()
  {
    Beyond(m, t, c, t.Value(Lambda1(b))) && Beyond(m, t, c, t.Value(Lambda2(b)))
  }

  ghost predicate LaterNode(m: Model, n: nat, c: nat)
    requires m.Ok()
  {
    exists k: nat :: k > n && m.Active(k, c)
  }

  lemma BeyondIsLater(m: Model, t: Tables, order: seq<Unknown>, n: nat, d: nat, c: nat)
    requires Numbered(m, t, order) && m.Active(n, d) && c < d
    ensures Beyond(m, t, c, t.Value(Dof(n, d))) <==> LaterNode(m, n, c)
  {
    assert m.Genuine(Dof(n, d)) && t.Placed(order, Dof(n, d));
    forall k: nat | m.Active(k, c)
      ensures t.Value(Dof(k, c)) > t.Value(Dof(n, d)) <==> k > n
    {
      assert m.Genuine(Dof(k, c)) && t.Placed(order, Dof(k, c));
    }
  }

  /** Three nodes that carry two degrees of freedom, and ten meshes: the search for the last unknown leaves the first
      table. */
  lemma TenMeshesOverrun(t: Tables, order: seq<Unknown>, r: Lookup)
    requires var m := Model(3, [true, true, false, false, false, false], seq(6, _ => [true, true, true]), []);
             Numbered(m, t, order) && IsLocal(m, t, 10, t.Value(Dof(2, 1)), r)
    ensures r == BehindTable
  {
    var m := Model(3, [true, true, false, false, false, false], seq(6, _ => [true, true, true]), []);
    assert m.Active(2, 1) && m.Genuine(Dof(2, 1)) && t.Placed(order, Dof(2, 1));
    BeyondIsLater(m, t, order, 2, 1, 0);
    assert m.Active(0, 0) && m.Genuine(Dof(0, 0)) && t.Placed(order, Dof(0, 0));
    assert m.Genuine(Dof(2, 0)) && t.Placed(order, Dof(2, 0));
    assert !Passes(m, t, 0, 10, t.Value(Dof(2, 1)));
    OnlyThat(m, t, order, Dof(2, 1));
    assert !r.NotFound?;
  }

  lemma OnlyThat(m: Model, t: Tables, order: seq<Unknown>, u: Unknown)
    requires Numbered(m, t, order) && m.Genuine(u)
    ensures forall v :: m.Genuine(v) && t.Value(v) == t.Value(u) ==> v == u
  {
    forall v | m.Genuine(v) && t.Value(v) == t.Value(u)
      ensures v == u
    {
      assert t.Placed(order, v) && t.Placed(order, u);
    }
  }

  /** The number reported for a node that does not exist is always somebody else's. */
  lemma UndefinedNodeIsFirst(m: Model, t: Tables, order: seq<Unknown>, dof: nat)
    requires Numbered(m, t, order) && dof < DOF_MAX && m.has[dof] && |order| > 0
    ensures t.Value(Dof(m.nodes, dof)) == 1 == t.Value(order[0]) && order[0] != Dof(m.nodes, dof)
  {
    assert m.Genuine(order[0]);
    assert !m.Active(m.nodes, dof);
  }
}
