/** Meshings built without numbers of their own: meshing.c numbers nodes and meshes one after the other. */
module MeshRuns {
  import opened Meshing
  import opened MeshMerge

  /** All numbers in use are below the next automatic ones. */
  ghost predicate Below(s: State)
  {
    && (forall u :: u in s.number ==> u < s.maxN)
    && (forall u :: u in s.meshNumber ==> u < s.meshMax)
  }

  /** Then a node without number of its own is one node more, behind the others, with the next number. */
  lemma AutomaticNode(s: State, coords: seq<real>)
    requires s.Valid() && Below(s) && |coords| == s.dim
    ensures var r := WithNode(s, coords, 0);
            && Below(r) && r.maxN == s.maxN + 1 && r.nodes == s.nodes + [Node(|s.nodes|, s.maxN, coords)]
            && r.number == s.number[s.maxN := |s.nodes|]
            && r.meshes == s.meshes && r.meshNumber == s.meshNumber && r.meshMax == s.meshMax
  {
  }

  /** So is a mesh, when its nodes exist; the number is used up in any case. */
  lemma AutomaticMesh(s: State, users: seq<nat>)
    requires s.Valid() && Below(s)
    ensures var r := WithMesh(s, users, 0);
            && Below(r) && r.meshMax == s.meshMax + 1 && r.nodes == s.nodes && r.number == s.number && r.maxN == s.maxN
            && (Known(s, users) ==> r.meshes == s.meshes + [Mesh(|s.meshes|, s.meshMax, Positions(s, users))])
            && (!Known(s, users) ==> r.meshes == s.meshes)
  {
  }

  /** The coordinates of the nodes a run adds, and the nodes of its meshes, in order. */
  function NodeCalls(ops: seq<Op>): seq<seq<real>>
  {
    if ops == [] then [] else (if ops[0].AddNode? then [ops[0].coords] else []) + NodeCalls(ops[1..])
  }

  function MeshCalls(ops: seq<Op>): seq<seq<nat>>
  {
    if ops == [] then [] else (if ops[0].AddMesh? then [ops[0].users] else []) + MeshCalls(ops[1..])
  }

  ghost predicate AllAutomatic(dim: nat, ops: seq<Op>)
  {
    forall i :: 0 <= i < |ops| ==> Fits(dim, ops[i]) && ops[i].user == 0
  }

  /** The k-th node added has the k-th number, and its coordinates. */
  ghost predicate NodesFollow(s: State, r: State, calls: seq<seq<real>>)
  {
    && |r.nodes| == |s.nodes| + |calls| && r.nodes[..|s.nodes|] == s.nodes && r.maxN == s.maxN + |calls|
    && forall k :: 0 <= k < |calls| ==> r.nodes[|s.nodes| + k] == Node(|s.nodes| + k, s.maxN + k, calls[k])
  }

  /** One call. */
  lemma AutomaticStep(s: State, op: Op)
    requires s.Valid() && Below(s) && Fits(s.dim, op) && op.user == 0
    ensures var r := Step(s, op);
            && r.Valid() && r.dim == s.dim && Below(r)
            && (op.AddNode? ==>
                  && NodeNumber(s, 0) !in s.number && r.maxN == s.maxN + 1 && r.meshMax == s.meshMax
                  && r.nodes == s.nodes + [Node(|s.nodes|, s.maxN, op.coords)] && r.meshes == s.meshes)
            && (op.AddMesh? ==>
                  && r.maxN == s.maxN && r.meshMax == s.meshMax + 1 && r.nodes == s.nodes
                  && (Known(s, op.users) ==>
                        r.meshes == s.meshes + [Mesh(|s.meshes|, s.meshMax, Positions(s, op.users))]))
  {
    StepKeepsValid(s, op);
    match op
    case AddNode(coords, _) => AutomaticNode(s, coords);
    case AddMesh(users, _) => AutomaticMesh(s, users);
  }

  lemma RunNext(s: State, ops: seq<Op>)
    requires s.Valid() && ops != [] && forall i :: 0 <= i < |ops| ==> Fits(s.dim, ops[i])
    ensures Step(s, ops[0]).Valid() && Step(s, ops[0]).dim == s.dim
    ensures Run(s, ops) == Run(Step(s, ops[0]), ops[1..])
  {
    StepKeepsValid(s, ops[0]);
  }

  /** A run without numbers of its own never redefines a node. */
  lemma {:induction false} AutomaticNeverRedefines(s: State, ops: seq<Op>)
    requires s.Valid() && Below(s) && AllAutomatic(s.dim, ops)
    ensures NeverRedefines(s, ops)
    decreases |ops|
  {
    if ops != [] {
      AutomaticStep(s, ops[0]);
      AutomaticNeverRedefines(Step(s, ops[0]), ops[1..]);
    }
  }

  /** It numbers its nodes one after the other, and uses up one number for each mesh. */
  lemma {:induction false} AutomaticRun(s: State, ops: seq<Op>)
    requires s.Valid() && Below(s) && AllAutomatic(s.dim, ops)
    ensures Below(Run(s, ops)) && NodesFollow(s, Run(s, ops), NodeCalls(ops))
    ensures Run(s, ops).meshMax == s.meshMax + |MeshCalls(ops)|
    decreases |ops|
  {
    if ops != [] {
      var s1, r := Step(s, ops[0]), Run(s, ops);
      AutomaticStep(s, ops[0]);
      RunNext(s, ops);
      AutomaticRun(s1, ops[1..]);
      if ops[0].AddNode? {
        NodesFollowOn(s, s1, r, ops[0].coords, NodeCalls(ops[1..]));
      } else {
        SameNodesFollow(s, s1, r, NodeCalls(ops[1..]));
      }
      OneCallMore(ops);
    }
  }

  lemma SameNodesFollow(s: State, s1: State, r: State, calls: seq<seq<real>>)
    requires s1.nodes == s.nodes && s1.maxN == s.maxN && NodesFollow(s1, r, calls)
    ensures NodesFollow(s, r, calls)
  {
  }

  lemma OneCallMore(ops: seq<Op>)
    requires ops != []
    ensures NodeCalls(ops) == (if ops[0].AddNode? then [ops[0].coords] else []) + NodeCalls(ops[1..])
    ensures MeshCalls(ops) == (if ops[0].AddMesh? then [ops[0].users] else []) + MeshCalls(ops[1..])
    ensures ops[0].AddMesh? ==> NodeCalls(ops) == NodeCalls(ops[1..])
    ensures ops[0].AddNode? ==> MeshCalls(ops) == MeshCalls(ops[1..])
  {
  }

  lemma NodesFollowOn(s: State, s1: State, r: State, coords: seq<real>, calls: seq<seq<real>>)
    requires s1.nodes == s.nodes + [Node(|s.nodes|, s.maxN, coords)] && s1.maxN == s.maxN + 1
    requires NodesFollow(s1, r, calls)
    ensures NodesFollow(s, r, [coords] + calls)
  {
    var all := [coords] + calls;
    assert r.nodes[..|s.nodes|] == r.nodes[..|s1.nodes|][..|s.nodes|] == s.nodes;
    forall k | 0 <= k < |all|
      ensures r.nodes[|s.nodes| + k] == Node(|s.nodes| + k, s.maxN + k, all[k])
    {
      if k == 0 {
        assert r.nodes[..|s1.nodes|][|s.nodes|] == s1.nodes[|s.nodes|];
      } else {
        assert r.nodes[|s1.nodes| + (k - 1)] == Node(|s1.nodes| + (k - 1), s1.maxN + (k - 1), calls[k - 1]);
      }
    }
  }

  /** All nodes named by a mesh exist when it is added. */
  ghost predicate MeshesKnown(s: State, ops: seq<Op>)
    requires s.Valid() && forall i :: 0 <= i < |ops| ==> Fits(s.dim, ops[i])
    decreases |ops|
  {
    ops == [] ||
    (&& (ops[0].AddMesh? ==> Known(s, ops[0].users))
     && (StepKeepsValid(s, ops[0]); MeshesKnown(Step(s, ops[0]), ops[1..])))
  }

  /** The k-th mesh added has the k-th number, and its nodes are those named. */
  ghost predicate MeshesFollow(s: State, r: State, calls: seq<seq<nat>>)
  {
    && |r.meshes| == |s.meshes| + |calls| && r.meshes[..|s.meshes|] == s.meshes
    && forall k :: 0 <= k < |calls| ==> MeshNames(r, r.meshes[|s.meshes| + k], |s.meshes| + k, s.meshMax + k, calls[k])
  }

  ghost predicate MeshNames(r: State, m: Mesh, n: nat, user: nat, users: seq<nat>)
  {
    && m.n == n && m.user == user && |m.nodes| == |users|
    && forall i :: 0 <= i < |users| ==> m.nodes[i] < |r.nodes| && r.nodes[m.nodes[i]].user == users[i]
  }

  lemma {:induction false} AutomaticMeshes(s: State, ops: seq<Op>)
    requires s.Valid() && Below(s) && AllAutomatic(s.dim, ops) && MeshesKnown(s, ops)
    ensures MeshesFollow(s, Run(s, ops), MeshCalls(ops))
    decreases |ops|
  {
    if ops != [] {
      var s1, r := Step(s, ops[0]), Run(s, ops);
      AutomaticStep(s, ops[0]);
      RunNext(s, ops);
      AutomaticMeshes(s1, ops[1..]);
      AutomaticRun(s1, ops[1..]);
      if ops[0].AddMesh? {
        MeshesFollowOn(s, s1, r, ops[0].users, MeshCalls(ops[1..]));
      }
    }
  }

  lemma MeshesFollowOn(s: State, s1: State, r: State, users: seq<nat>, calls: seq<seq<nat>>)
    requires s.Valid() && Known(s, users) && s1.nodes == s.nodes && s1.meshMax == s.meshMax + 1
    requires s1.meshes == s.meshes + [Mesh(|s.meshes|, s.meshMax, Positions(s, users))]
    requires MeshesFollow(s1, r, calls) && |s.nodes| <= |r.nodes| && r.nodes[..|s.nodes|] == s.nodes
    ensures MeshesFollow(s, r, [users] + calls)
  {
    var all := [users] + calls;
    assert r.meshes[..|s.meshes|] == r.meshes[..|s1.meshes|][..|s.meshes|] == s.meshes;
    forall k | 0 <= k < |all|
      ensures MeshNames(r, r.meshes[|s.meshes| + k], |s.meshes| + k, s.meshMax + k, all[k])
    {
      if k == 0 {
        var m := r.meshes[|s.meshes|];
        assert r.meshes[..|s1.meshes|][|s.meshes|] == s1.meshes[|s.meshes|] == m;
        forall i | 0 <= i < |users|
          ensures m.nodes[i] < |r.nodes| && r.nodes[m.nodes[i]].user == users[i]
        {
          assert r.nodes[..|s.nodes|][m.nodes[i]] == s.nodes[m.nodes[i]];
        }
      } else {
        assert MeshNames(r, r.meshes[|s1.meshes| + (k - 1)], |s1.meshes| + (k - 1), s1.meshMax + (k - 1), calls[k - 1]);
      }
    }
  }

  /** From an empty meshing on, the nodes are numbered from 1. */
  lemma NodesFromEmpty(dim: nat, ops: seq<Op>)
    requires AllAutomatic(dim, ops)
    ensures Empty(dim).Valid() && NeverRedefines(Empty(dim), ops) && Below(Run(Empty(dim), ops))
    ensures var r, calls := Run(Empty(dim), ops), NodeCalls(ops);
            && |r.nodes| == |calls| && r.maxN == |calls| + 1 && r.meshMax == |MeshCalls(ops)| + 1
            && forall k :: 0 <= k < |calls| ==> r.nodes[k] == Node(k, k + 1, calls[k])
  {
    var e, r := Empty(dim), Run(Empty(dim), ops);
    EmptyIsValid(dim);
    AutomaticNeverRedefines(e, ops);
    AutomaticRun(e, ops);
    FollowNothing(e, r, NodeCalls(ops));
  }

  lemma FollowNothing(s: State, r: State, calls: seq<seq<real>>)
    requires s.nodes == [] && s.maxN == 1 && NodesFollow(s, r, calls)
    ensures |r.nodes| == |calls| && forall k :: 0 <= k < |calls| ==> r.nodes[k] == Node(k, k + 1, calls[k])
  {
    forall k | 0 <= k < |calls|
      ensures r.nodes[k] == Node(k, k + 1, calls[k])
    {
      assert r.nodes[|s.nodes| + k] == Node(|s.nodes| + k, s.maxN + k, calls[k]);
    }
  }

  /** So are the meshes, when their nodes exist, and each has the nodes it was given. */
  lemma MeshesFromEmpty(dim: nat, ops: seq<Op>)
    requires AllAutomatic(dim, ops) && Empty(dim).Valid() && MeshesKnown(Empty(dim), ops)
    ensures var r, calls := Run(Empty(dim), ops), MeshCalls(ops);
            && |r.meshes| == |calls|
            && forall k :: 0 <= k < |calls| ==> MeshNames(r, r.meshes[k], k, k + 1, calls[k])
  {
    var e, r := Empty(dim), Run(Empty(dim), ops);
    AutomaticMeshes(e, ops);
    forall k | 0 <= k < |MeshCalls(ops)|
      ensures MeshNames(r, r.meshes[k], k, k + 1, MeshCalls(ops)[k])
    {
      assert MeshNames(r, r.meshes[|e.meshes| + k], |e.meshes| + k, e.meshMax + k, MeshCalls(ops)[k]);
    }
  }

  /** A meshing built without numbers of its own can take any other behind it: nothing is lost. */
  lemma AutomaticMergesAll(ops: seq<Op>, a: State, b: State, first: State, r: State)
    requires AllAutomatic(b.dim, ops) && Empty(b.dim).Valid() && a == Run(Empty(b.dim), ops) && b.Valid()
    requires AllPointInto(a.meshes, a.nodes) && AllPointInto(b.meshes, b.nodes)
    requires first == AddAll(Empty(a.dim), a, 0, 0) && first.Indexed() && r == Merged(a, b)
    ensures r.Valid() && r.Aligned()
    ensures r.nodes == a.nodes + Moved(b.nodes, |a.nodes| + 1, |a.nodes|)
    ensures r.meshes == a.meshes + MovedMeshes(b.meshes, |MeshCalls(ops)| + 1, |a.nodes|, |a.meshes|)
  {
    NodesFromEmpty(b.dim, ops);
    BelowMaxMergesAll(a, b, first, r);
    SameMovedNodes(a);
    SameMovedMeshes(a);
  }

  lemma SameMovedNodes(s: State)
    requires s.Aligned()
    ensures Moved(s.nodes, 0, 0) == s.nodes
  {
  }
}
