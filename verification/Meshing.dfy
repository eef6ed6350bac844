/** Nodes and meshes of a model, and their user numbers: meshing.c. */
module Meshing {

  datatype Node = Node(n: nat, user: nat, coords: seq<real>)

  /** A mesh points to its nodes; a pointer is a position in the list of nodes. */
  datatype Mesh = Mesh(n: nat, user: nat, nodes: seq<nat>)

  /** The lists of a meshing, the indexes from user numbers to positions, the next automatic numbers, and the
      list of node pointers that the meshes share. */
  datatype State = State(dim: nat, nodes: seq<Node>, number: map<nat, nat>, maxN: nat,
                         meshes: seq<Mesh>, meshNumber: map<nat, nat>, meshMax: nat, nodep: seq<nat>) {

    predicate Indexed()
    {
      forall u :: u in number ==> number[u] < |nodes|
    }

    /** Every number of the index leads to the node with that number, and every node is indexed. */
    ghost predicate NodesValid()
    {
      && maxN >= 1 && 0 !in number
      && (forall u :: u in number ==> number[u] < |nodes| && nodes[number[u]].user == u)
      && (forall p :: 0 <= p < |nodes| ==>
            nodes[p].user in number && number[nodes[p].user] == p && |nodes[p].coords| == dim)
    }

    ghost predicate MeshesValid()
    {
      && meshMax >= 1 && 0 !in meshNumber
      && (forall u :: u in meshNumber ==> meshNumber[u] < |meshes| && meshes[meshNumber[u]].user == u)
      && (forall p :: 0 <= p < |meshes| ==> MeshValid(p))
      && nodep == Pointers(meshes)
    }

    ghost predicate MeshValid(p: nat)
      requires p < |meshes|
    {
      && meshes[p].user in meshNumber && meshNumber[meshes[p].user] == p && meshes[p].n == p
      && forall k :: 0 <= k < |meshes[p].nodes| ==> meshes[p].nodes[k] < |nodes|
    }

    ghost predicate Valid()
    {
      NodesValid() && MeshesValid()
    }

    /** Internal numbers are positions. */
    predicate Aligned()
    {
      forall p :: 0 <= p < |nodes| ==> nodes[p].n == p
    }
  }

  function Pointers(meshes: seq<Mesh>): seq<nat>
  {
    if meshes == [] then [] else Pointers(meshes[..|meshes| - 1]) + meshes[|meshes| - 1].nodes
  }

  function Empty(dim: nat): State
  {
    State(dim, [], map[], 1, [], map[], 1, [])
  }

  /** The number node_add really uses, 0 standing for the next automatic one. */
  function NodeNumber(s: State, user: nat): nat
  {
    if user == 0 then s.maxN else user
  }

  /** What node_add does: a node that exists is overwritten where it is, but with the last internal number. */
  function WithNode(s: State, coords: seq<real>, user: nat): (r: State)
    requires s.Indexed()
    ensures r.Indexed()
  {
    var u := NodeNumber(s, user);
    var s' := s.(maxN := if user == 0 then s.maxN + 1 else s.maxN);
    if u in s.number then s'.(nodes := s.nodes[s.number[u] := Node(|s.nodes| - 1, u, coords)])
    else s'.(nodes := s.nodes + [Node(|s.nodes|, u, coords)], number := s.number[u := |s.nodes|])
  }

  predicate Known(s: State, users: seq<nat>)
  {
    forall k :: 0 <= k < |users| ==> users[k] >= 1 && users[k] in s.number
  }

  function Positions(s: State, users: seq<nat>): (p: seq<nat>)
    requires Known(s, users)
    ensures |p| == |users|
  {
    seq(|users|, k requires 0 <= k < |users| => s.number[users[k]])
  }

  function MeshNumber(s: State, user: nat): nat
  {
    if user == 0 then s.meshMax else user
  }

  predicate CanAddMesh(s: State, users: seq<nat>, user: nat)
  {
    MeshNumber(s, user) !in s.meshNumber && Known(s, users)
  }

  /** What mesh_add does: one more mesh, or nothing but a number used up. */
  function WithMesh(s: State, users: seq<nat>, user: nat): State
  {
    var s' := s.(meshMax := if user == 0 then s.meshMax + 1 else s.meshMax);
    if CanAddMesh(s, users, user) then
      var m := Mesh(|s.meshes|, MeshNumber(s, user), Positions(s, users));
      s'.(meshes := s.meshes + [m], meshNumber := s.meshNumber[m.user := m.n], nodep := s.nodep + m.nodes)
    else s'
  }

  /** What node_add changes: the number leads to these coordinates, the other nodes stay where and what they are, and
      only an automatic number is used up. */
  lemma NodeChanges(s: State, coords: seq<real>, user: nat)
    requires s.Valid()
    ensures var u, r := NodeNumber(s, user), WithNode(s, coords, user);
            && u in r.number && r.nodes[r.number[u]].coords == coords && r.nodes[r.number[u]].user == u
            && (forall v :: v != u ==> (v in s.number <==> v in r.number))
            && (forall v :: v in s.number && v != u ==>
                  r.number[v] == s.number[v] && r.nodes[r.number[v]] == s.nodes[s.number[v]])
            && (u in s.number ==> r.number[u] == s.number[u] && |r.nodes| == |s.nodes|)
            && r.maxN == s.maxN + (if user == 0 then 1 else 0)
            && r.meshes == s.meshes && r.meshNumber == s.meshNumber && r.nodep == s.nodep
  {
  }

  /** What mesh_add changes: one mesh more, behind the others, whose pointers lead to the nodes named. */
  lemma MeshChanges(s: State, users: seq<nat>, user: nat)
    requires s.Valid()
    ensures var u, r := MeshNumber(s, user), WithMesh(s, users, user);
            && r.nodes == s.nodes && r.number == s.number && r.maxN == s.maxN
            && r.meshMax == s.meshMax + (if user == 0 then 1 else 0)
            && (!CanAddMesh(s, users, user) ==> r.meshes == s.meshes && r.meshNumber == s.meshNumber)
            && (CanAddMesh(s, users, user) ==>
                  && |r.meshes| == |s.meshes| + 1 && r.meshes[..|s.meshes|] == s.meshes
                  && r.meshes[|s.meshes|].user == u && |r.meshes[|s.meshes|].nodes| == |users|
                  && forall k :: 0 <= k < |users| ==>
                       var p := r.meshes[|s.meshes|].nodes[k]; p < |s.nodes| && s.nodes[p].user == users[k])
  {
  }

  lemma NodeKeepsValid(s: State, coords: seq<real>, user: nat)
    requires s.Valid() && |coords| == s.dim
    ensures WithNode(s, coords, user).Valid()
  {
    var u, s' := NodeNumber(s, user), WithNode(s, coords, user);
    if u in s.number {
      OverwriteKeepsNodes(s, s', s.number[u], s'.nodes[s.number[u]]);
    } else {
      AppendKeepsNodes(s, s', s'.nodes[|s.nodes|]);
    }
    forall p | 0 <= p < |s'.meshes|
      ensures s'.MeshValid(p)
    {
      assert s.MeshValid(p);
    }
  }

  lemma AppendKeepsNodes(s: State, s': State, node: Node)
    requires s.NodesValid() && node.user != 0 && node.user !in s.number && |node.coords| == s.dim == s'.dim
    requires s'.nodes == s.nodes + [node] && s'.number == s.number[node.user := |s.nodes|] && s'.maxN >= 1
    ensures s'.NodesValid()
  {
  }

  lemma OverwriteKeepsNodes(s: State, s': State, p: nat, node: Node)
    requires s.NodesValid() && p < |s.nodes| && node.user == s.nodes[p].user && |node.coords| == s.dim == s'.dim
    requires s'.nodes == s.nodes[p := node] && s'.number == s.number && s'.maxN >= 1
    ensures s'.NodesValid()
  {
  }

  lemma MeshKeepsValid(s: State, users: seq<nat>, user: nat)
    requires s.Valid()
    ensures WithMesh(s, users, user).Valid()
  {
    var s' := WithMesh(s, users, user);
    assert s'.NodesValid();
    if CanAddMesh(s, users, user) {
      assert s'.meshes[..|s'.meshes| - 1] == s.meshes;
    }
    forall p | 0 <= p < |s'.meshes|
      ensures s'.MeshValid(p)
    {
      if p < |s.meshes| {
        assert s.MeshValid(p) && s'.meshes[p] == s.meshes[p];
      }
    }
  }

  /** Redefining a node misnumbers it unless it is the last one. */
  lemma AlignedAfterIff(s: State, coords: seq<real>, user: nat)
    requires s.Valid() && s.Aligned()
    ensures var u := NodeNumber(s, user);
            WithNode(s, coords, user).Aligned() <==> u !in s.number || s.number[u] == |s.nodes| - 1
  {
    var u := NodeNumber(s, user);
    var s' := WithNode(s, coords, user);
    if u in s.number {
      assert s'.nodes[s.number[u]].n == |s.nodes| - 1;
    }
  }

  /** Two nodes, the first one given again: both have the internal number 1 afterwards. */
  lemma RedefinedFirstNode()
    ensures var s := WithNode(WithNode(Empty(1), [0.0], 1), [1.0], 2);
            && s.Valid() && s.Aligned()
            && WithNode(s, [5.0], 1).nodes[0].n == WithNode(s, [5.0], 1).nodes[1].n == 1
            && !WithNode(s, [5.0], 1).Aligned()
  {
    EmptyIsValid(1);
    NodeKeepsValid(Empty(1), [0.0], 1);
    var one := WithNode(Empty(1), [0.0], 1);
    NodeKeepsValid(one, [1.0], 2);
    var two := WithNode(one, [1.0], 2);
    assert |two.nodes| == 2 && two.number[1] == 0 && two.nodes[0].n == 0 && two.nodes[1].n == 1;
    AlignedAfterIff(two, [5.0], 1);
  }

  /** An automatic number is already taken exactly when somebody used it explicitly before. */
  lemma AutomaticCollidesIff(s: State, coords: seq<real>)
    requires s.Valid()
    ensures |WithNode(s, coords, 0).nodes| == |s.nodes| <==> s.maxN in s.number
  {
  }

  /** Node 1 given with its number, then a node without one: there is one node, with the second coordinates. */
  lemma AutomaticOverwrites()
    ensures WithNode(WithNode(Empty(1), [0.0], 1), [1.0], 0).nodes == [Node(0, 1, [1.0])]
  {
    var one := WithNode(Empty(1), [0.0], 1);
    assert one.nodes == [Node(0, 1, [0.0])] && one.number == map[1 := 0];
  }

  /** fem_node_internal. */
  function Internal(s: State, user: nat): nat
    requires s.Indexed()
  {
    if user in s.number then s.nodes[s.number[user]].n else |s.nodes|
  }

  /** fem_node_user: the first node in the list with this internal number, 0 when there is none. */
  function User(s: State, n: nat): nat
  {
    UserFrom(s.nodes, n)
  }

  function UserFrom(nodes: seq<Node>, n: nat): nat
  {
    if nodes == [] then 0 else if nodes[0].n == n then nodes[0].user else UserFrom(nodes[1..], n)
  }

  lemma {:induction false} UserFound(nodes: seq<Node>, n: nat, at: nat)
    requires at < |nodes| && nodes[at].n == n && forall p :: 0 <= p < at ==> nodes[p].n != n
    ensures UserFrom(nodes, n) == nodes[at].user
  {
    if at > 0 {
      UserFound(nodes[1..], n, at - 1);
    }
  }

  lemma {:induction false} UserMissing(nodes: seq<Node>, n: nat)
    requires forall p :: 0 <= p < |nodes| ==> nodes[p].n != n
    ensures UserFrom(nodes, n) == 0
  {
    if nodes != [] {
      UserMissing(nodes[1..], n);
    }
  }

  /** User and internal numbers are inverse as long as internal numbers are positions. */
  lemma NumbersAreInverse(s: State)
    requires s.Valid() && s.Aligned()
    ensures forall n :: 0 <= n < |s.nodes| ==> User(s, n) != 0 && Internal(s, User(s, n)) == n
    ensures forall u :: u in s.number ==> Internal(s, u) < |s.nodes| && User(s, Internal(s, u)) == u
    ensures forall u :: u !in s.number ==> Internal(s, u) == |s.nodes| && User(s, Internal(s, u)) == 0
  {
    forall n | 0 <= n < |s.nodes|
      ensures User(s, n) == s.nodes[n].user
    {
      UserFound(s.nodes, n, n);
    }
    UserMissing(s.nodes, |s.nodes|);
  }

  /** Once two nodes share an internal number they cannot both be found again. */
  lemma SharedNumberLosesUser(s: State, p: nat, q: nat)
    requires s.Valid() && p < q < |s.nodes| && s.nodes[p].n == s.nodes[q].n
    ensures User(s, Internal(s, s.nodes[q].user)) != s.nodes[q].user
  {
    var first := FirstWith(s.nodes, s.nodes[q].n, q);
    UserFound(s.nodes, s.nodes[q].n, first);
  }

  lemma FirstWith(nodes: seq<Node>, n: nat, at: nat) returns (first: nat)
    requires at < |nodes| && exists p :: 0 <= p < at && nodes[p].n == n
    ensures first < at && nodes[first].n == n && forall p :: 0 <= p < first ==> nodes[p].n != n
  {
    first := 0;
    while nodes[first].n != n
      invariant 0 <= first < at && forall p :: 0 <= p < first ==> nodes[p].n != n
      decreases at - first
    {
      first := first + 1;
    }
  }

  /** A call of the public interface. */
  datatype Op = AddNode(coords: seq<real>, user: nat) | AddMesh(users: seq<nat>, user: nat)

  function Step(s: State, op: Op): State
    requires s.Indexed()
  {
    match op
    case AddNode(coords, user) => WithNode(s, coords, user)
    case AddMesh(users, user) => WithMesh(s, users, user)
  }

  ghost predicate Fits(dim: nat, op: Op)
  {
    op.AddNode? ==> |op.coords| == dim
  }

  lemma StepKeepsValid(s: State, op: Op)
    requires s.Valid() && Fits(s.dim, op)
    ensures Step(s, op).Valid() && Step(s, op).dim == s.dim
  {
    match op
    case AddNode(coords, user) => NodeKeepsValid(s, coords, user);
    case AddMesh(users, user) => MeshKeepsValid(s, users, user);
  }

  /** No call gives a new definition to a node that is there. */
  ghost predicate NeverRedefines(s: State, ops: seq<Op>)
    requires s.Valid() && forall i :: 0 <= i < |ops| ==> Fits(s.dim, ops[i])
    decreases |ops|
  {
    ops == [] ||
    (&& (ops[0].AddNode? ==> NodeNumber(s, ops[0].user) !in s.number)
     && (StepKeepsValid(s, ops[0]); NeverRedefines(Step(s, ops[0]), ops[1..])))
  }

  function Run(s: State, ops: seq<Op>): (r: State)
    requires s.Valid() && forall i :: 0 <= i < |ops| ==> Fits(s.dim, ops[i])
    ensures r.Valid() && r.dim == s.dim
    decreases |ops|
  {
    if ops == [] then s
    else
      StepKeepsValid(s, ops[0]);
      Run(Step(s, ops[0]), ops[1..])
  }

  /** Over any run without redefinition internal numbers are positions, hence numbers are inverse. */
  lemma {:induction false} RunKeepsAligned(s: State, ops: seq<Op>)
    requires s.Valid() && s.Aligned() && (forall i :: 0 <= i < |ops| ==> Fits(s.dim, ops[i])) && NeverRedefines(s, ops)
    ensures Run(s, ops).Aligned()
    decreases |ops|
  {
    if ops != [] {
      StepKeepsValid(s, ops[0]);
      if ops[0].AddNode? {
        AlignedAfterIff(s, ops[0].coords, ops[0].user);
      }
      RunKeepsAligned(Step(s, ops[0]), ops[1..]);
    }
  }

  lemma EmptyIsValid(dim: nat)
    ensures Empty(dim).Valid() && Empty(dim).Aligned()
  {
  }

  class Store {
    const dim: nat
    var nodes: seq<Node>
    var number: map<nat, nat>
    var maxN: nat
    var meshes: seq<Mesh>
    var meshNumber: map<nat, nat>
    var meshMax: nat
    var nodep: seq<nat>

    function S(): State
      reads this
    {
      State(dim, nodes, number, maxN, meshes, meshNumber, meshMax, nodep)
    }

    /** meshing_new. */
    constructor (dim: nat)
      ensures S() == Empty(dim)
    {
      this.dim := dim;
      nodes, number, maxN := [], map[], 1;
      meshes, meshNumber, meshMax, nodep := [], map[], 1, [];
    }

    /** node_add. */
    method NodeAdd(coords: seq<real>, user: nat)
      requires S().Indexed()
      modifies this
      ensures S() == WithNode(old(S()), coords, user)
    {
      ghost var after := WithNode(S(), coords, user);
      var u := user;
      if u == 0 {
        u := maxN;
        maxN := maxN + 1;
      }
      var p := |nodes|;
      if u in number {
        p := number[u];
      } else {
        nodes := nodes + [Node(0, u, coords)];
        number := number[u := p];
      }
      nodes := nodes[p := Node(|nodes| - 1, u, coords)];
      assert S() == after;
    }

    /** fem_node_add: a shorter vector is completed with zeros, a longer one refused. */
    method FemNodeAdd(user: nat, coords: seq<real>) returns (error: bool)
      requires S().Indexed()
      modifies this
      ensures error == (|coords| > dim)
      ensures error ==> S() == old(S())
      ensures !error ==> S() == WithNode(old(S()), coords + seq(dim - |coords|, _ => 0.0), user)
    {
      error := |coords| > dim;
      if !error {
        NodeAdd(coords + seq(dim - |coords|, _ => 0.0), user);
      }
    }

    /** mesh_add: appended first, taken back when a node does not exist. */
    method MeshAdd(users: seq<nat>, user: nat) returns (ok: bool)
      modifies this
      ensures S() == WithMesh(old(S()), users, user)
      ensures ok <==> CanAddMesh(old(S()), users, user)
    {
      ghost var before := S();
      ghost var after := WithMesh(before, users, user);
      var u := user;
      if u == 0 {
        u := meshMax;
        meshMax := meshMax + 1;
      }
      ok := false;
      if u !in meshNumber {
        ok := AppendMesh(users, u);
        assert ok == Known(before, users);
        assert ok ==> Positions(S(), users) == Positions(before, users);
      }
      assert S() == after;
    }

    /** mesh_add, once the number is known to be free. */
    method AppendMesh(users: seq<nat>, u: nat) returns (ok: bool)
      modifies this`meshes, this`meshNumber, this`nodep
      ensures ok <==> Known(S(), users)
      ensures !ok ==> S() == old(S())
      ensures ok ==> meshes == old(meshes) + [Mesh(old(|meshes|), u, Positions(S(), users))]
                     && nodep == old(nodep) + Positions(S(), users) && meshNumber == old(meshNumber)[u := old(|meshes|)]
    {
      ghost var m, p := meshes, nodep;
      meshes := meshes + [Mesh(|meshes|, u, [])];
      nodep := nodep + seq(|users|, _ => 0);
      ok := LinkNodes(users);
      assert meshes[..|meshes| - 1] == m && nodep[..|nodep| - |users|] == p;
      if ok {
        meshNumber := meshNumber[u := |meshes| - 1];
      } else {
        meshes := meshes[..|meshes| - 1];
        nodep := nodep[..|nodep| - |users|];
      }
    }

    /** The loop of mesh_add: the pointers of the last mesh. */
    method LinkNodes(users: seq<nat>) returns (ok: bool)
      requires |meshes| > 0 && meshes[|meshes| - 1].nodes == [] && |nodep| >= |users|
      modifies this`meshes, this`nodep
      ensures |meshes| == old(|meshes|) && meshes[..|meshes| - 1] == old(meshes[..|meshes| - 1])
      ensures |nodep| == old(|nodep|) && nodep[..|nodep| - |users|] == old(nodep[..|nodep| - |users|])
      ensures ok <==> Known(S(), users)
      ensures ok ==> meshes[|meshes| - 1] == old(meshes[|meshes| - 1]).(nodes := Positions(S(), users))
                     && nodep[|nodep| - |users|..] == Positions(S(), users)
    {
      var last, base := |meshes| - 1, |nodep| - |users|;
      ghost var before, m := nodep, meshes;
      var i := 0;
      while i < |users|
        invariant 0 <= i <= |users| && Known(S(), users[..i]) && meshes == m
        invariant |nodep| == |before| && nodep[..base] == before[..base]
        invariant nodep[base..base + i] == Positions(S(), users[..i])
      {
        if users[i] < 1 || users[i] !in number {
          return false;
        }
        ghost var p := Positions(S(), users[..i]);
        nodep := nodep[base + i := number[users[i]]];
        assert Positions(S(), users[..i + 1]) == p + [number[users[i]]];
        i := i + 1;
      }
      assert users[..i] == users;
      meshes := meshes[last := meshes[last].(nodes := nodep[base..])];
      ok := true;
    }

    /** fem_node_internal. */
    method FemNodeInternal(user: nat) returns (n: nat)
      requires S().Indexed()
      ensures n == Internal(S(), user)
    {
      if user in number {
        n := nodes[number[user]].n;
      } else {
        n := |nodes|;
      }
    }

    /** fem_node_user: the search goes through the index in the order of insertion, that of the list. */
    method FemNodeUser(n: nat) returns (user: nat)
      ensures user == User(S(), n)
    {
      var p := 0;
      while p < |nodes|
        invariant 0 <= p <= |nodes| && forall q :: 0 <= q < p ==> nodes[q].n != n
      {
        if nodes[p].n == n {
          UserFound(nodes, n, p);
          return nodes[p].user;
        }
        p := p + 1;
      }
      UserMissing(nodes, n);
      user := 0;
    }
  }
}
