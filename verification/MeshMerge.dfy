/** fem_meshing_add of meshing.c: two meshings side by side in a new one. */
module MeshMerge {
  import opened Meshing

  /** The user numbers of a list of nodes, moved by an offset. */
  function Users(nodes: seq<Node>, offset: nat): set<nat>
  {
    if nodes == [] then {} else Users(nodes[..|nodes| - 1], offset) + {nodes[|nodes| - 1].user + offset}
  }

  lemma {:induction false} UsersAre(nodes: seq<Node>, offset: nat, u: nat)
    ensures u in Users(nodes, offset) <==> exists p :: 0 <= p < |nodes| && nodes[p].user + offset == u
  {
    if nodes != [] {
      var most := nodes[..|nodes| - 1];
      UsersAre(most, offset, u);
      assert forall p :: 0 <= p < |most| ==> most[p] == nodes[p];
    }
  }

  /** The nodes of a list as they arrive behind n others. */
  function Moved(nodes: seq<Node>, offset: nat, n: nat): (r: seq<Node>)
    ensures |r| == |nodes|
  {
    seq(|nodes|, p requires 0 <= p < |nodes| => Node(n + p, nodes[p].user + offset, nodes[p].coords))
  }

  predicate NonZero(nodes: seq<Node>)
  {
    forall p :: 0 <= p < |nodes| ==> nodes[p].user != 0
  }

  ghost predicate UsersDiffer(nodes: seq<Node>)
  {
    forall p, q :: 0 <= p < q < |nodes| ==> nodes[p].user != nodes[q].user
  }

  /** The loop of fem_meshing_add over the nodes of a meshing. */
  function AddNodes(s: State, nodes: seq<Node>, offset: nat): (r: State)
    requires s.Indexed()
    ensures r.Indexed()
  {
    if nodes == [] then s
    else
      var node := nodes[|nodes| - 1];
      WithNode(AddNodes(s, nodes[..|nodes| - 1], offset), node.coords, node.user + offset)
  }

  predicate NodesFit(nodes: seq<Node>, dim: nat)
  {
    forall p :: 0 <= p < |nodes| ==> |nodes[p].coords| == dim
  }

  lemma {:induction false} NodesKeepValid(s: State, nodes: seq<Node>, offset: nat, r: State)
    requires s.Valid() && NodesFit(nodes, s.dim) && r == AddNodes(s, nodes, offset)
    ensures r.Valid() && r.dim == s.dim
  {
    if nodes != [] {
      var most, node := nodes[..|nodes| - 1], nodes[|nodes| - 1];
      var before := AddNodes(s, most, offset);
      assert NodesFit(most, s.dim);
      NodesKeepValid(s, most, offset, before);
      OneMoreNode(before, node.coords, node.user + offset, r);
    }
  }

  lemma OneMoreNode(s: State, coords: seq<real>, user: nat, r: State)
    requires s.Valid() && |coords| == s.dim && r == WithNode(s, coords, user)
    ensures r.Valid() && r.dim == s.dim
  {
    NodeKeepsValid(s, coords, user);
  }

  /** The numbers in use after some nodes have been added; nothing else but the list of nodes changes. */
  lemma {:induction false} NumbersAfter(s: State, nodes: seq<Node>, offset: nat)
    requires s.Indexed() && NonZero(nodes)
    ensures var r := AddNodes(s, nodes, offset);
            && r.number.Keys == s.number.Keys + Users(nodes, offset)
            && r == s.(nodes := r.nodes, number := r.number)
            && |r.nodes| <= |s.nodes| + |nodes|
  {
    if nodes != [] {
      NumbersAfter(s, nodes[..|nodes| - 1], offset);
    }
  }

  lemma LastIsNew(nodes: seq<Node>, offset: nat)
    requires nodes != [] && UsersDiffer(nodes)
    ensures nodes[|nodes| - 1].user + offset !in Users(nodes[..|nodes| - 1], offset)
  {
    UsersAre(nodes[..|nodes| - 1], offset, nodes[|nodes| - 1].user + offset);
  }

  /** Nothing is lost when all numbers are free: the nodes stand behind the others, in order. */
  lemma {:induction false} NodesAppended(s: State, nodes: seq<Node>, offset: nat)
    requires s.Indexed() && NonZero(nodes) && UsersDiffer(nodes) && s.number.Keys !! Users(nodes, offset)
    ensures AddNodes(s, nodes, offset).nodes == s.nodes + Moved(nodes, offset, |s.nodes|)
  {
    if nodes != [] {
      var n := |nodes| - 1;
      NodesAppended(s, nodes[..n], offset);
      NumbersAfter(s, nodes[..n], offset);
      LastIsNew(nodes, offset);
      MovedNext(nodes, offset, |s.nodes|);
    }
  }

  lemma MovedNext(nodes: seq<Node>, offset: nat, base: nat)
    requires nodes != []
    ensures var n := |nodes| - 1;
            Moved(nodes, offset, base)
            == Moved(nodes[..n], offset, base) + [Node(base + n, nodes[n].user + offset, nodes[n].coords)]
  {
  }

  /** A node is lost exactly when its number is taken. */
  lemma {:induction false} AllAddedIff(s: State, nodes: seq<Node>, offset: nat)
    requires s.Indexed() && NonZero(nodes) && UsersDiffer(nodes)
    ensures |AddNodes(s, nodes, offset).nodes| == |s.nodes| + |nodes| <==> s.number.Keys !! Users(nodes, offset)
  {
    if nodes != [] {
      var n := |nodes| - 1;
      AllAddedIff(s, nodes[..n], offset);
      NumbersAfter(s, nodes[..n], offset);
      LastIsNew(nodes, offset);
    }
  }

  /** Positions moved behind `base` others. */
  function Shifted(ps: seq<nat>, base: nat): (r: seq<nat>)
    ensures |r| == |ps|
  {
    seq(|ps|, k requires 0 <= k < |ps| => ps[k] + base)
  }

  function MovedMesh(m: Mesh, offset: nat, base: nat, n: nat): Mesh
  {
    Mesh(n, m.user + offset, Shifted(m.nodes, base))
  }

  /** The meshes of a list as they arrive behind n others, their nodes behind `base` others. */
  function MovedMeshes(meshes: seq<Mesh>, offset: nat, base: nat, n: nat): (r: seq<Mesh>)
    ensures |r| == |meshes|
  {
    seq(|meshes|, p requires 0 <= p < |meshes| => MovedMesh(meshes[p], offset, base, n + p))
  }

  predicate PointsInto(m: Mesh, nodes: seq<Node>)
  {
    forall k :: 0 <= k < |m.nodes| ==> m.nodes[k] < |nodes|
  }

  /** The user numbers of the nodes of a mesh, moved. */
  function UsersOf(nodes: seq<Node>, m: Mesh, offset: nat): (u: seq<nat>)
    requires PointsInto(m, nodes)
    ensures |u| == |m.nodes|
  {
    seq(|m.nodes|, k requires 0 <= k < |m.nodes| => nodes[m.nodes[k]].user + offset)
  }

  predicate AllPointInto(meshes: seq<Mesh>, nodes: seq<Node>)
  {
    forall p :: 0 <= p < |meshes| ==> PointsInto(meshes[p], nodes)
  }

  /** The loop of fem_meshing_add over the meshes of a meshing. */
  function AddMeshes(s: State, nodes: seq<Node>, meshes: seq<Mesh>, nodeOffset: nat, meshOffset: nat): State
    requires AllPointInto(meshes, nodes)
  {
    if meshes == [] then s
    else
      var m := meshes[|meshes| - 1];
      WithMesh(AddMeshes(s, nodes, meshes[..|meshes| - 1], nodeOffset, meshOffset),
               UsersOf(nodes, m, nodeOffset), m.user + meshOffset)
  }

  function MeshUsers(meshes: seq<Mesh>, offset: nat): set<nat>
  {
    if meshes == [] then {} else MeshUsers(meshes[..|meshes| - 1], offset) + {meshes[|meshes| - 1].user + offset}
  }

  lemma {:induction false} MeshUsersAre(meshes: seq<Mesh>, offset: nat, u: nat)
    ensures u in MeshUsers(meshes, offset) <==> exists p :: 0 <= p < |meshes| && meshes[p].user + offset == u
  {
    if meshes != [] {
      var most := meshes[..|meshes| - 1];
      MeshUsersAre(most, offset, u);
      assert forall p :: 0 <= p < |most| ==> most[p] == meshes[p];
    }
  }

  ghost predicate MeshUsersDiffer(meshes: seq<Mesh>)
  {
    && (forall p :: 0 <= p < |meshes| ==> meshes[p].user != 0)
    && forall p, q :: 0 <= p < q < |meshes| ==> meshes[p].user != meshes[q].user
  }

  /** The nodes are indexed in s, each `base` positions further than in the list. */
  ghost predicate Carried(number: map<nat, nat>, nodes: seq<Node>, offset: nat, base: nat)
  {
    forall p :: 0 <= p < |nodes| ==>
      nodes[p].user + offset >= 1 && nodes[p].user + offset in number && number[nodes[p].user + offset] == base + p
  }

  lemma PositionsShift(s: State, nodes: seq<Node>, m: Mesh, offset: nat, base: nat)
    requires Carried(s.number, nodes, offset, base) && PointsInto(m, nodes)
    ensures Known(s, UsersOf(nodes, m, offset)) && Positions(s, UsersOf(nodes, m, offset)) == Shifted(m.nodes, base)
  {
  }

  /** All meshes arrive, connected to the nodes they were connected to. */
  lemma {:induction false} MeshesAppended(s: State, nodes: seq<Node>, meshes: seq<Mesh>, nodeOffset: nat,
                                          meshOffset: nat, base: nat)
    requires AllPointInto(meshes, nodes) && Carried(s.number, nodes, nodeOffset, base) && MeshUsersDiffer(meshes)
    requires s.meshNumber.Keys !! MeshUsers(meshes, meshOffset)
    ensures var r := AddMeshes(s, nodes, meshes, nodeOffset, meshOffset);
            && r.meshes == s.meshes + MovedMeshes(meshes, meshOffset, base, |s.meshes|)
            && r.meshNumber.Keys == s.meshNumber.Keys + MeshUsers(meshes, meshOffset)
            && r == s.(meshes := r.meshes, meshNumber := r.meshNumber, nodep := r.nodep)
  {
    if meshes != [] {
      var n := |meshes| - 1;
      MeshesAppended(s, nodes, meshes[..n], nodeOffset, meshOffset, base);
      var before := AddMeshes(s, nodes, meshes[..n], nodeOffset, meshOffset);
      MeshUsersAre(meshes[..n], meshOffset, meshes[n].user + meshOffset);
      OneMoreMesh(before, nodes, meshes[n], nodeOffset, meshOffset, base);
      MovedMeshesNext(meshes, meshOffset, base, |s.meshes|);
    }
  }

  lemma OneMoreMesh(s: State, nodes: seq<Node>, m: Mesh, nodeOffset: nat, meshOffset: nat, base: nat)
    requires PointsInto(m, nodes) && Carried(s.number, nodes, nodeOffset, base)
    requires m.user != 0 && m.user + meshOffset !in s.meshNumber
    ensures var r := WithMesh(s, UsersOf(nodes, m, nodeOffset), m.user + meshOffset);
            && r.meshes == s.meshes + [MovedMesh(m, meshOffset, base, |s.meshes|)]
            && r.meshNumber == s.meshNumber[m.user + meshOffset := |s.meshes|]
            && r == s.(meshes := r.meshes, meshNumber := r.meshNumber, nodep := r.nodep)
  {
    PositionsShift(s, nodes, m, nodeOffset, base);
  }

  lemma MovedMeshesNext(meshes: seq<Mesh>, offset: nat, base: nat, n: nat)
    requires meshes != []
    ensures var k := |meshes| - 1;
            MovedMeshes(meshes, offset, base, n)
            == MovedMeshes(meshes[..k], offset, base, n) + [MovedMesh(meshes[k], offset, base, n + k)]
  {
  }

  lemma {:induction false} MeshesKeepValid(s: State, nodes: seq<Node>, meshes: seq<Mesh>, nodeOffset: nat,
                                           meshOffset: nat, r: State)
    requires s.Valid() && AllPointInto(meshes, nodes) && r == AddMeshes(s, nodes, meshes, nodeOffset, meshOffset)
    ensures r.Valid() && r.nodes == s.nodes && r.number == s.number && r.maxN == s.maxN && r.dim == s.dim
  {
    if meshes != [] {
      var m := meshes[|meshes| - 1];
      var before := AddMeshes(s, nodes, meshes[..|meshes| - 1], nodeOffset, meshOffset);
      MeshesKeepValid(s, nodes, meshes[..|meshes| - 1], nodeOffset, meshOffset, before);
      OneMoreKeepsValid(before, UsersOf(nodes, m, nodeOffset), m.user + meshOffset, r);
    }
  }

  lemma OneMoreKeepsValid(s: State, users: seq<nat>, user: nat, r: State)
    requires s.Valid() && r == WithMesh(s, users, user)
    ensures r.Valid() && r.nodes == s.nodes && r.number == s.number && r.maxN == s.maxN && r.dim == s.dim
  {
    MeshKeepsValid(s, users, user);
  }

  /** What the loops need to know of a valid meshing. */
  lemma Readable(s: State)
    requires s.Valid()
    ensures s.Indexed() && NonZero(s.nodes) && UsersDiffer(s.nodes) && NodesFit(s.nodes, s.dim)
    ensures AllPointInto(s.meshes, s.nodes) && MeshUsersDiffer(s.meshes)
  {
    forall p | 0 <= p < |s.meshes|
      ensures PointsInto(s.meshes[p], s.nodes)
      ensures s.meshes[p].user in s.meshNumber && s.meshNumber[s.meshes[p].user] == p
    {
      assert s.MeshValid(p);
    }
  }

  /** The four loops of fem_meshing_add. */
  function AddAll(s: State, from: State, nodeOffset: nat, meshOffset: nat): State
    requires s.Indexed() && AllPointInto(from.meshes, from.nodes)
  {
    AddMeshes(AddNodes(s, from.nodes, nodeOffset), from.nodes, from.meshes, nodeOffset, meshOffset)
  }

  function Merged(a: State, b: State): State
    requires AllPointInto(a.meshes, a.nodes) && AllPointInto(b.meshes, b.nodes)
    requires AddAll(Empty(a.dim), a, 0, 0).Indexed()
  {
    AddAll(AddAll(Empty(a.dim), a, 0, 0), b, a.maxN, a.meshMax)
  }

  /** r holds s and, behind it, all of `from`. */
  ghost predicate Joined(s: State, from: State, nodeOffset: nat, meshOffset: nat, r: State)
  {
    && r.dim == s.dim && r.maxN == s.maxN
    && r.nodes == s.nodes + Moved(from.nodes, nodeOffset, |s.nodes|)
    && r.meshes == s.meshes + MovedMeshes(from.meshes, meshOffset, |s.nodes|, |s.meshes|)
    && r.number.Keys == s.number.Keys + Users(from.nodes, nodeOffset)
    && r.meshNumber.Keys == s.meshNumber.Keys + MeshUsers(from.meshes, meshOffset)
  }

  /** Adding all of one meshing to another, when no number is taken. */
  lemma AddAllKeeps(s: State, from: State, nodeOffset: nat, meshOffset: nat, r: State)
    requires s.Valid() && from.Valid() && from.dim == s.dim && AllPointInto(from.meshes, from.nodes)
    requires s.number.Keys !! Users(from.nodes, nodeOffset)
    requires s.meshNumber.Keys !! MeshUsers(from.meshes, meshOffset)
    requires r == AddAll(s, from, nodeOffset, meshOffset)
    ensures r.Valid() && Joined(s, from, nodeOffset, meshOffset, r)
  {
    Readable(from);
    var mid := AddNodes(s, from.nodes, nodeOffset);
    NodesKeepValid(s, from.nodes, nodeOffset, mid);
    NumbersAfter(s, from.nodes, nodeOffset);
    NodesAppended(s, from.nodes, nodeOffset);
    CarriedOver(mid, from.nodes, nodeOffset, |s.nodes|);
    MeshesKeepValid(mid, from.nodes, from.meshes, nodeOffset, meshOffset, r);
    MeshesAppended(mid, from.nodes, from.meshes, nodeOffset, meshOffset, |s.nodes|);
  }

  lemma CarriedOver(s: State, nodes: seq<Node>, offset: nat, base: nat)
    requires s.NodesValid() && NonZero(nodes) && |s.nodes| == base + |nodes|
    requires s.nodes[base..] == Moved(nodes, offset, base)
    ensures Carried(s.number, nodes, offset, base)
  {
    forall p | 0 <= p < |nodes|
      ensures nodes[p].user + offset in s.number && s.number[nodes[p].user + offset] == base + p
    {
      assert s.nodes[base + p] == s.nodes[base..][p];
    }
  }

  /** The first meshing alone. */
  lemma FirstAlone(a: State, first: State)
    requires a.Valid() && AllPointInto(a.meshes, a.nodes) && first == AddAll(Empty(a.dim), a, 0, 0)
    ensures first.Valid() && first.dim == a.dim && first.maxN == 1
    ensures first.nodes == Moved(a.nodes, 0, 0) && first.meshes == MovedMeshes(a.meshes, 0, 0, 0)
    ensures first.number.Keys == a.number.Keys && first.meshNumber.Keys == a.meshNumber.Keys
  {
    EmptyTakesAll(a, first);
    JoinedToEmpty(Empty(a.dim), a, first);
    NumbersOf(a);
  }

  lemma EmptyTakesAll(a: State, first: State)
    requires a.Valid() && AllPointInto(a.meshes, a.nodes) && first == AddAll(Empty(a.dim), a, 0, 0)
    ensures first.Valid() && Joined(Empty(a.dim), a, 0, 0, first)
  {
    var e := Empty(a.dim);
    EmptyIsValid(a.dim);
    assert e.number.Keys == {} && e.meshNumber.Keys == {};
    AddAllKeeps(e, a, 0, 0, first);
  }

  lemma JoinedToEmpty(e: State, a: State, first: State)
    requires Joined(e, a, 0, 0, first)
    requires e.nodes == [] && e.meshes == [] && e.number == map[] && e.meshNumber == map[]
    ensures first.nodes == Moved(a.nodes, 0, 0) && first.meshes == MovedMeshes(a.meshes, 0, 0, 0)
    ensures first.number.Keys == Users(a.nodes, 0) && first.meshNumber.Keys == MeshUsers(a.meshes, 0)
  {
    NothingBefore(e.nodes, Moved(a.nodes, 0, 0));
    NothingBefore(e.meshes, MovedMeshes(a.meshes, 0, 0, 0));
  }

  lemma NothingBefore<T>(empty: seq<T>, s: seq<T>)
    requires empty == []
    ensures empty + s == s
  {
  }

  lemma MovedIsAligned(s: State, nodes: seq<Node>, more: seq<Node>, offset: nat)
    requires s.nodes == Moved(nodes, 0, 0) + Moved(more, offset, |nodes|)
    ensures s.Aligned()
  {
  }

  /** Main result: when no moved number of the second meshing is a number of the first, the merge holds both,
      the second behind the first, with every mesh connected as it was. */
  lemma MergeKeepsBoth(a: State, b: State, first: State, r: State)
    requires a.Valid() && b.Valid() && a.dim == b.dim
    requires AllPointInto(a.meshes, a.nodes) && AllPointInto(b.meshes, b.nodes)
    requires a.number.Keys !! Users(b.nodes, a.maxN) && a.meshNumber.Keys !! MeshUsers(b.meshes, a.meshMax)
    requires first == AddAll(Empty(a.dim), a, 0, 0) && first.Indexed() && r == Merged(a, b)
    ensures r.Valid() && r.Aligned()
    ensures r.nodes == Moved(a.nodes, 0, 0) + Moved(b.nodes, a.maxN, |a.nodes|)
    ensures r.meshes == MovedMeshes(a.meshes, 0, 0, 0) + MovedMeshes(b.meshes, a.meshMax, |a.nodes|, |a.meshes|)
  {
    FirstAlone(a, first);
    AddAllKeeps(first, b, a.maxN, a.meshMax, r);
    MovedIsAligned(r, a.nodes, b.nodes, a.maxN);
  }

  /** A merge never raises the next automatic number. */
  lemma MergeRestartsNumbers(a: State, b: State, r: State)
    requires a.Valid() && b.Valid() && a.dim == b.dim
    requires AllPointInto(a.meshes, a.nodes) && AllPointInto(b.meshes, b.nodes)
    requires AddAll(Empty(a.dim), a, 0, 0).Indexed() && r == Merged(a, b)
    ensures r.maxN == 1
    ensures 1 in a.number ==> 1 in r.number
  {
    var first := AddAll(Empty(a.dim), a, 0, 0);
    FirstAlone(a, first);
    Readable(b);
    var mid := AddNodes(first, b.nodes, a.maxN);
    NodesKeepValid(first, b.nodes, a.maxN, mid);
    NumbersAfter(first, b.nodes, a.maxN);
    MeshesKeepValid(mid, b.nodes, b.meshes, a.maxN, a.meshMax, r);
  }

  /** The numbers of a valid meshing. */
  lemma NumbersOf(s: State)
    requires s.Valid()
    ensures s.number.Keys == Users(s.nodes, 0) && s.meshNumber.Keys == MeshUsers(s.meshes, 0)
  {
    forall u: nat
      ensures u in s.number <==> u in Users(s.nodes, 0)
      ensures u in s.meshNumber <==> u in MeshUsers(s.meshes, 0)
    {
      UsersAre(s.nodes, 0, u);
      MeshUsersAre(s.meshes, 0, u);
      if p :| 0 <= p < |s.meshes| && s.meshes[p].user == u {
        assert s.MeshValid(p);
      }
    }
  }

  /** Numbers that were all given automatically, or stay below the next automatic one, never clash. */
  lemma BelowMaxNeverClashes(a: State, b: State)
    requires forall u :: u in a.number ==> u < a.maxN
    requires forall u :: u in a.meshNumber ==> u < a.meshMax
    ensures a.number.Keys !! Users(b.nodes, a.maxN) && a.meshNumber.Keys !! MeshUsers(b.meshes, a.meshMax)
  {
    forall u | u in a.number.Keys
      ensures u !in Users(b.nodes, a.maxN)
    {
      UsersAre(b.nodes, a.maxN, u);
    }
    forall u | u in a.meshNumber.Keys
      ensures u !in MeshUsers(b.meshes, a.meshMax)
    {
      MeshUsersAre(b.meshes, a.meshMax, u);
    }
  }

  /** Merging loses nothing when the numbers of the first meshing are below both next automatic ones. */
  lemma BelowMaxMergesAll(a: State, b: State, first: State, r: State)
    requires a.Valid() && b.Valid() && a.dim == b.dim
    requires AllPointInto(a.meshes, a.nodes) && AllPointInto(b.meshes, b.nodes)
    requires forall u :: u in a.number ==> u < a.maxN
    requires forall u :: u in a.meshNumber ==> u < a.meshMax
    requires first == AddAll(Empty(a.dim), a, 0, 0) && first.Indexed() && r == Merged(a, b)
    ensures r.Valid() && r.Aligned()
    ensures r.nodes == Moved(a.nodes, 0, 0) + Moved(b.nodes, a.maxN, |a.nodes|)
    ensures r.meshes == MovedMeshes(a.meshes, 0, 0, 0) + MovedMeshes(b.meshes, a.meshMax, |a.nodes|, |a.meshes|)
  {
    BelowMaxNeverClashes(a, b);
    MergeKeepsBoth(a, b, first, r);
  }

  lemma SameMovedMeshes(s: State)
    requires s.MeshesValid()
    ensures MovedMeshes(s.meshes, 0, 0, 0) == s.meshes
  {
    forall p | 0 <= p < |s.meshes|
      ensures MovedMeshes(s.meshes, 0, 0, 0)[p] == s.meshes[p]
    {
      assert s.MeshValid(p);
      assert Shifted(s.meshes[p].nodes, 0) == s.meshes[p].nodes;
    }
  }

  /** The numbers of meshes in use after some have been added to nodes that are all known. */
  lemma {:induction false} MeshNumbersAfter(s: State, nodes: seq<Node>, meshes: seq<Mesh>, nodeOffset: nat,
                                            meshOffset: nat)
    requires AllPointInto(meshes, nodes) && MeshUsersDiffer(meshes) && NonZero(nodes)
    requires Users(nodes, nodeOffset) <= s.number.Keys
    ensures var r := AddMeshes(s, nodes, meshes, nodeOffset, meshOffset);
            && r.number == s.number && r.meshNumber.Keys == s.meshNumber.Keys + MeshUsers(meshes, meshOffset)
            && |r.meshes| <= |s.meshes| + |meshes|
            && (|r.meshes| == |s.meshes| + |meshes| <==> s.meshNumber.Keys !! MeshUsers(meshes, meshOffset))
  {
    if meshes != [] {
      var n := |meshes| - 1;
      MeshNumbersAfter(s, nodes, meshes[..n], nodeOffset, meshOffset);
      MeshUsersAre(meshes[..n], meshOffset, meshes[n].user + meshOffset);
      AllKnown(AddMeshes(s, nodes, meshes[..n], nodeOffset, meshOffset), nodes, meshes[n], nodeOffset);
    }
  }

  lemma AllKnown(s: State, nodes: seq<Node>, m: Mesh, offset: nat)
    requires PointsInto(m, nodes) && NonZero(nodes) && Users(nodes, offset) <= s.number.Keys
    ensures Known(s, UsersOf(nodes, m, offset))
  {
    forall k | 0 <= k < |m.nodes|
      ensures UsersOf(nodes, m, offset)[k] >= 1 && UsersOf(nodes, m, offset)[k] in s.number
    {
      UsersAre(nodes, offset, UsersOf(nodes, m, offset)[k]);
    }
  }

  /** The merge keeps all meshes exactly when no moved number is taken. */
  lemma MergeKeepsMeshesIff(a: State, b: State)
    requires a.Valid() && b.Valid() && a.dim == b.dim
    requires AllPointInto(a.meshes, a.nodes) && AllPointInto(b.meshes, b.nodes)
    ensures AddAll(Empty(a.dim), a, 0, 0).Indexed()
    ensures |Merged(a, b).meshes| == |a.meshes| + |b.meshes| <==> a.meshNumber.Keys !! MeshUsers(b.meshes, a.meshMax)
  {
    Readable(b);
    var first := AddAll(Empty(a.dim), a, 0, 0);
    FirstAlone(a, first);
    var mid := AddNodes(first, b.nodes, a.maxN);
    NumbersAfter(first, b.nodes, a.maxN);
    MeshNumbersAfter(mid, b.nodes, b.meshes, a.maxN, a.meshMax);
  }

  /** In general the merge keeps all nodes exactly when no moved number is taken. */
  lemma MergeKeepsNodesIff(a: State, b: State)
    requires a.Valid() && b.Valid() && a.dim == b.dim
    requires AllPointInto(a.meshes, a.nodes) && AllPointInto(b.meshes, b.nodes)
    ensures AddAll(Empty(a.dim), a, 0, 0).Indexed()
    ensures |Merged(a, b).nodes| == |a.nodes| + |b.nodes| <==> a.number.Keys !! Users(b.nodes, a.maxN)
  {
    Readable(b);
    var first := AddAll(Empty(a.dim), a, 0, 0);
    FirstAlone(a, first);
    AllAddedIff(first, b.nodes, a.maxN);
    var mid := AddNodes(first, b.nodes, a.maxN);
    NodesKeepValid(first, b.nodes, a.maxN, mid);
    MeshesKeepValid(mid, b.nodes, b.meshes, a.maxN, a.meshMax, Merged(a, b));
  }

  /** Node 2 of one meshing, node 1 of the other: it moves to number 2, and one node is left. */
  lemma MergeLosesNode()
    ensures var a, b := WithNode(Empty(0), [], 2), WithNode(Empty(0), [], 1);
            && a.Valid() && b.Valid() && AddAll(Empty(0), a, 0, 0).Indexed()
            && |Merged(a, b).nodes| != |a.nodes| + |b.nodes|
  {
    var a, b := WithNode(Empty(0), [], 2), WithNode(Empty(0), [], 1);
    EmptyIsValid(0);
    NodeKeepsValid(Empty(0), [], 2);
    NodeKeepsValid(Empty(0), [], 1);
    MergeKeepsNodesIff(a, b);
    UsersAre(b.nodes, a.maxN, 2);
    assert b.nodes[0].user + a.maxN == 2 && 2 in a.number.Keys;
  }

  /** The size of the buffer of fem_meshing_add and of the loader once a mesh has arrived: it doubles at most once. */
  function Grown(capacity: nat, size: nat): nat
  {
    if capacity < size then 2 * capacity else capacity
  }

  /** Does the buffer hold them all? */
  predicate BufferHolds(sizes: seq<nat>, capacity: nat)
  {
    sizes == [] || (sizes[0] <= Grown(capacity, sizes[0]) && BufferHolds(sizes[1..], Grown(capacity, sizes[0])))
  }

  function CapacityAfter(sizes: seq<nat>, capacity: nat): (c: nat)
    ensures c >= capacity
  {
    if sizes == [] then capacity else CapacityAfter(sizes[1..], Grown(capacity, sizes[0]))
  }

  /** It does when no mesh has more than 16 nodes, and does not when the first one has. */
  lemma {:induction false} SixteenFit(sizes: seq<nat>, capacity: nat)
    requires capacity >= 8 && forall k :: 0 <= k < |sizes| ==> sizes[k] <= 16
    ensures BufferHolds(sizes, capacity)
  {
    if sizes != [] {
      SixteenFit(sizes[1..], Grown(capacity, sizes[0]));
    }
  }

  /** The buffer after j doublings. */
  function Room(j: nat): (r: nat)
    ensures r >= 8
  {
    if j == 0 then 8 else 2 * Room(j - 1)
  }

  /** How many doublings a mesh of this size needs. */
  function Doublings(size: nat): (j: nat)
    ensures size <= Room(j) && (j > 0 ==> Room(j - 1) < size)
  {
    DoublingsFrom(size, 0)
  }

  function DoublingsFrom(size: nat, j: nat): (r: nat)
    requires j > 0 ==> Room(j - 1) < size
    ensures size <= Room(r) && (r > 0 ==> Room(r - 1) < size)
    decreases if size > Room(j) then size - Room(j) else 0
  {
    if size <= Room(j) then j else DoublingsFrom(size, j + 1)
  }

  lemma {:induction false} RoomGrows(i: nat, j: nat)
    requires i <= j
    ensures Room(i) <= Room(j)
    decreases j - i
  {
    if i < j {
      RoomGrows(i, j - 1);
    }
  }

  lemma DoublingsAtMost(size: nat, j: nat)
    ensures size <= Room(j) <==> Doublings(size) <= j
  {
    if Doublings(size) <= j {
      RoomGrows(Doublings(size), j);
    } else {
      RoomGrows(j, Doublings(size) - 1);
    }
  }

  /** The mesh at p needs at most one doubling more than j, or than some mesh before it. */
  ghost predicate OneMore(sizes: seq<nat>, p: nat, j: nat)
    requires p < |sizes|
  {
    Doublings(sizes[p]) <= j + 1 || exists q :: 0 <= q < p && Doublings(sizes[p]) <= Doublings(sizes[q]) + 1
  }

  /** The buffer holds all meshes if and only if none needs two doublings more than all before it. */
  lemma {:induction false} BufferHoldsIff(sizes: seq<nat>, j: nat)
    ensures BufferHolds(sizes, Room(j)) <==> forall p :: 0 <= p < |sizes| ==> OneMore(sizes, p, j)
    decreases |sizes|
  {
    if sizes != [] {
      var rest, d := sizes[1..], Doublings(sizes[0]);
      DoublingsAtMost(sizes[0], j);
      DoublingsAtMost(sizes[0], j + 1);
      var next := if d <= j then j else j + 1;
      assert Grown(Room(j), sizes[0]) == Room(next);
      BufferHoldsIff(rest, next);
      if d <= j + 1 {
        forall p | 1 <= p < |sizes|
          ensures OneMore(sizes, p, j) <==> OneMore(rest, p - 1, next)
        {
          OneMoreBehind(sizes, p, j, next);
        }
        assert forall p :: 0 <= p < |rest| ==> OneMore(sizes, p + 1, j) == OneMore(rest, p, next);
        assert OneMore(sizes, 0, j);
      } else {
        assert !OneMore(sizes, 0, j);
      }
    }
  }

  lemma OneMoreBehind(sizes: seq<nat>, p: nat, j: nat, next: nat)
    requires 1 <= p < |sizes| && Doublings(sizes[0]) <= j + 1 && next == if Doublings(sizes[0]) <= j then j else j + 1
    ensures OneMore(sizes, p, j) <==> OneMore(sizes[1..], p - 1, next)
  {
    var rest := sizes[1..];
    if q :| 0 <= q < p && Doublings(sizes[p]) <= Doublings(sizes[q]) + 1 {
      assert q > 0 ==> rest[q - 1] == sizes[q];
    }
    if q :| 0 <= q < p - 1 && Doublings(rest[p - 1]) <= Doublings(rest[q]) + 1 {
      assert rest[q] == sizes[q + 1];
    }
  }

  lemma SeventeenOverrun(sizes: seq<nat>)
    requires sizes != [] && sizes[0] > 16
    ensures !BufferHolds(sizes, 8)
  {
  }

  function Sizes(meshes: seq<Mesh>): seq<nat>
  {
    seq(|meshes|, p requires 0 <= p < |meshes| => |meshes[p].nodes|)
  }

  /** meshing_add_node in a loop over the nodes of `from`. */
  method CopyNodes(fusion: Store, from: Store, offset: nat)
    requires fusion != from && fusion.S().Indexed()
    modifies fusion
    ensures fusion.S() == AddNodes(old(fusion.S()), from.nodes, offset)
  {
    var p := 0;
    while p < |from.nodes|
      invariant 0 <= p <= |from.nodes| && fusion.S().Indexed()
      invariant fusion.S() == AddNodes(old(fusion.S()), from.nodes[..p], offset)
    {
      assert from.nodes[..p + 1][..p] == from.nodes[..p];
      fusion.NodeAdd(from.nodes[p].coords, from.nodes[p].user + offset);
      p := p + 1;
    }
    assert from.nodes[..p] == from.nodes;
  }

  /** meshing_add_mesh in a loop over the meshes of `from`; buffer is the scratch array of user numbers. A write behind
      the buffer ends the loop: C promises nothing from there on. */
  method CopyMeshes(fusion: Store, from: Store, nodeOffset: nat, meshOffset: nat, buffer: array<nat>)
    returns (buffer': array<nat>, overrun: bool)
    requires fusion != from && AllPointInto(from.meshes, from.nodes)
    modifies fusion, buffer
    ensures overrun <==> !BufferHolds(Sizes(from.meshes), buffer.Length)
    ensures !overrun ==> fusion.S() == AddMeshes(old(fusion.S()), from.nodes, from.meshes, nodeOffset, meshOffset)
    ensures !overrun ==> buffer'.Length == CapacityAfter(Sizes(from.meshes), buffer.Length)
    ensures buffer' == buffer || fresh(buffer')
  {
    buffer', overrun := buffer, false;
    ghost var start, nodes, meshes := fusion.S(), from.nodes, from.meshes;
    var p := 0;
    while p < |from.meshes|
      invariant 0 <= p <= |meshes| && from.nodes == nodes && from.meshes == meshes
      invariant (buffer' == buffer || fresh(buffer')) && GrownTo(meshes, p, buffer.Length, buffer'.Length)
      invariant fusion.S() == AddMeshes(start, nodes, meshes[..p], nodeOffset, meshOffset)
    {
      AddMeshesNext(start, nodes, meshes, p, nodeOffset, meshOffset);
      BufferNext(meshes, p, buffer.Length, buffer'.Length);
      if |from.meshes[p].nodes| > Grown(buffer'.Length, |from.meshes[p].nodes|) {
        return buffer', true;
      }
      buffer' := CopyMesh(fusion, from, from.meshes[p], nodeOffset, meshOffset, buffer');
      p := p + 1;
    }
    assert meshes[..p] == meshes;
  }

  /** After p meshes a buffer that began with `first` has the size `now`. */
  ghost predicate GrownTo(meshes: seq<Mesh>, p: nat, first: nat, now: nat)
    requires p <= |meshes|
  {
    && (BufferHolds(Sizes(meshes), first) <==> BufferHolds(Sizes(meshes)[p..], now))
    && CapacityAfter(Sizes(meshes), first) == CapacityAfter(Sizes(meshes)[p..], now)
  }

  lemma AddMeshesNext(s: State, nodes: seq<Node>, meshes: seq<Mesh>, p: nat, nodeOffset: nat, meshOffset: nat)
    requires AllPointInto(meshes, nodes) && p < |meshes|
    ensures AddMeshes(s, nodes, meshes[..p + 1], nodeOffset, meshOffset)
            == WithMesh(AddMeshes(s, nodes, meshes[..p], nodeOffset, meshOffset),
                        UsersOf(nodes, meshes[p], nodeOffset), meshes[p].user + meshOffset)
  {
    assert meshes[..p + 1][..p] == meshes[..p];
  }

  lemma BufferNext(meshes: seq<Mesh>, p: nat, first: nat, now: nat)
    requires p < |meshes| && GrownTo(meshes, p, first, now)
    ensures var n := |meshes[p].nodes|;
            if n <= Grown(now, n) then GrownTo(meshes, p + 1, first, Grown(now, n))
            else !BufferHolds(Sizes(meshes), first)
  {
    assert Sizes(meshes)[p..][1..] == Sizes(meshes)[p + 1..];
  }

  /** meshing_add_mesh. */
  method CopyMesh(fusion: Store, from: Store, m: Mesh, nodeOffset: nat, meshOffset: nat, buffer: array<nat>)
    returns (buffer': array<nat>)
    requires fusion != from && PointsInto(m, from.nodes) && |m.nodes| <= Grown(buffer.Length, |m.nodes|)
    modifies fusion, buffer
    ensures fusion.S() == WithMesh(old(fusion.S()), UsersOf(from.nodes, m, nodeOffset), m.user + meshOffset)
    ensures buffer' == buffer || fresh(buffer')
    ensures buffer'.Length == Grown(buffer.Length, |m.nodes|)
  {
    buffer' := buffer;
    if buffer.Length < |m.nodes| {
      buffer' := new nat[2 * buffer.Length](_ => 0);
    }
    FillBuffer(buffer', from, m, nodeOffset);
    assert buffer'[..|m.nodes|] == UsersOf(from.nodes, m, nodeOffset);
    var ok := fusion.MeshAdd(buffer'[..|m.nodes|], m.user + meshOffset);
  }

  method FillBuffer(buffer: array<nat>, from: Store, m: Mesh, offset: nat)
    requires PointsInto(m, from.nodes) && |m.nodes| <= buffer.Length
    modifies buffer
    ensures forall k :: 0 <= k < |m.nodes| ==> buffer[k] == from.nodes[m.nodes[k]].user + offset
  {
    var i := 0;
    while i < |m.nodes|
      invariant 0 <= i <= |m.nodes|
      invariant forall k :: 0 <= k < i ==> buffer[k] == from.nodes[m.nodes[k]].user + offset
    {
      buffer[i] := from.nodes[m.nodes[i]].user + offset;
      i := i + 1;
    }
  }

  /** fem_meshing_add; one buffer serves both meshings. */
  method FemMeshingAdd(meshing1: Store, meshing2: Store) returns (fusion: Store?, overrun: bool)
    requires meshing1.S().Valid() && meshing2.S().Valid()
    ensures overrun <==> meshing1.dim == meshing2.dim && !BothFit(meshing1.meshes, meshing2.meshes)
    ensures !overrun ==> (fusion == null <==> meshing1.dim != meshing2.dim)
    ensures !overrun && fusion != null ==>
              && fresh(fusion)
              && AllPointInto(meshing1.meshes, meshing1.nodes) && AllPointInto(meshing2.meshes, meshing2.nodes)
              && AddAll(Empty(meshing1.dim), meshing1.S(), 0, 0).Indexed()
              && fusion.S() == Merged(meshing1.S(), meshing2.S())
  {
    if meshing1.dim != meshing2.dim {
      return null, false;
    }
    var f := new Store(meshing1.dim);
    Readable(meshing1.S());
    Readable(meshing2.S());
    var buffer := new nat[8](_ => 0);
    buffer, overrun := CopyAll(f, meshing1, 0, 0, buffer);
    if !overrun {
      FirstAlone(meshing1.S(), f.S());
      buffer, overrun := CopyAll(f, meshing2, meshing1.maxN, meshing1.meshMax, buffer);
    }
    fusion := f;
  }

  /** The buffer holds all meshes of one meshing, and what it has grown to then all of the other. */
  predicate BothFit(first: seq<Mesh>, second: seq<Mesh>)
  {
    BufferHolds(Sizes(first), 8) && BufferHolds(Sizes(second), CapacityAfter(Sizes(first), 8))
  }

  /** It does for meshes of at most 16 nodes. */
  lemma SixteenFitBoth(first: seq<Mesh>, second: seq<Mesh>)
    requires forall p :: 0 <= p < |first| ==> |first[p].nodes| <= 16
    requires forall p :: 0 <= p < |second| ==> |second[p].nodes| <= 16
    ensures BothFit(first, second)
  {
    SixteenFit(Sizes(first), 8);
    SixteenFit(Sizes(second), CapacityAfter(Sizes(first), 8));
  }

  /** The loops for one of the two meshings. */
  method CopyAll(fusion: Store, from: Store, nodeOffset: nat, meshOffset: nat, buffer: array<nat>)
    returns (buffer': array<nat>, overrun: bool)
    requires fusion != from && fusion.S().Indexed() && AllPointInto(from.meshes, from.nodes)
    modifies fusion, buffer
    ensures overrun <==> !BufferHolds(Sizes(from.meshes), buffer.Length)
    ensures !overrun ==> fusion.S() == AddAll(old(fusion.S()), from.S(), nodeOffset, meshOffset)
    ensures !overrun ==> buffer'.Length == CapacityAfter(Sizes(from.meshes), buffer.Length)
    ensures buffer' == buffer || fresh(buffer')
  {
    CopyNodes(fusion, from, nodeOffset);
    buffer', overrun := CopyMeshes(fusion, from, nodeOffset, meshOffset, buffer);
  }
}
