/** fem_meshing_save of meshing.c, and why the loader gives back what was saved. */
module MeshSave {
  import opened Options
  import opened Meshing
  import opened MeshMerge
  import opened MeshFile
  import opened MeshLoad

  const NL: Item := Ch('\n')
  const SP: Item := Ch(' ')

  function Mark(c: char): seq<Item>
  {
    [Ch('#'), Ch('!'), Ch(c)]
  }

  function CoordsText(coords: seq<real>): seq<Item>
  {
    if coords == [] then [] else [SP, Real(coords[0])] + CoordsText(coords[1..])
  }

  /** node_save. */
  function NodeText(node: Node): seq<Item>
  {
    Mark('N') + [SP, Num(node.user)] + CoordsText(node.coords) + [NL]
  }

  function NodesText(nodes: seq<Node>): seq<Item>
  {
    if nodes == [] then [] else NodeText(nodes[0]) + NodesText(nodes[1..])
  }

  function UsersText(users: seq<nat>): seq<Item>
  {
    if users == [] then [] else [SP, Num(users[0])] + UsersText(users[1..])
  }

  /** mesh_save. */
  function MeshText(nodes: seq<Node>, m: Mesh): seq<Item>
    requires PointsInto(m, nodes)
  {
    Mark('M') + [SP, Num(m.user), SP, Num(|m.nodes|), SP] + UsersText(UsersOf(nodes, m, 0)) + [NL]
  }

  function MeshesText(nodes: seq<Node>, meshes: seq<Mesh>): seq<Item>
    requires AllPointInto(meshes, nodes)
  {
    if meshes == [] then [] else MeshText(nodes, meshes[0]) + MeshesText(nodes, meshes[1..])
  }

  function Comment(words: string): seq<Item>
  {
    [Ch('#')] + Text(words) + [NL]
  }

  function MeshPart(s: State): seq<Item>
    requires AllPointInto(s.meshes, s.nodes)
  {
    [NL] + (Comment(" Meshes") + (MeshesText(s.nodes, s.meshes) + ([NL] + (Mark('X') + [NL]))))
  }

  /** fem_meshing_save. */
  function Saved(s: State): seq<Item>
    requires AllPointInto(s.meshes, s.nodes)
  {
    Comment("") + (Comment(" Saved meshing") + (Comment("") + (Mark('D') + [SP, Num(s.dim), NL]
    + ([NL] + (Comment(" Nodes") + (NodesText(s.nodes) + MeshPart(s)))))))
  }

  /** The lines of node 5 at (1,2), of mesh 4 with the nodes 9 and 5, and of the dimension. */
  lemma SavedLines(n: nat)
    ensures NodeText(Node(n, 5, [1.0, 2.0]))
         == [Ch('#'), Ch('!'), Ch('N'), Ch(' '), Num(5), Ch(' '), Real(1.0), Ch(' '), Real(2.0), Ch('\n')]
    ensures MeshText([Node(0, 5, []), Node(1, 9, [])], Mesh(n, 4, [1, 0]))
         == [Ch('#'), Ch('!'), Ch('M'), Ch(' '), Num(4), Ch(' '), Num(2), Ch(' '),
             Ch(' '), Num(9), Ch(' '), Num(5), Ch('\n')]
  {
    var nodes, m := [Node(0, 5, []), Node(1, 9, [])], Mesh(n, 4, [1, 0]);
    assert [1.0, 2.0][1..] == [2.0] && [2.0][1..] == [];
    assert UsersOf(nodes, m, 0) == [9, 5];
    assert [9, 5][1..] == [5] && [5][1..] == [];
  }

  predicate EndsLine(t: seq<Item>, status: Status)
  {
    if t == [] then false
    else if t[0] == NL then |t| == 1 || EndsLine(t[1..], LineStart)
    else !(t[0] == Ch('!') && status == Hash)
         && EndsLine(t[1..], if t[0] == Ch('#') && status == LineStart then Hash else Within)
  }

  /** Lines without a mark are skipped. */
  lemma {:induction false} SkipsLines(t: seq<Item>, status: Status, rest: seq<Item>)
    requires EndsLine(t, status)
    ensures Scan(t + rest, status) == Scan(rest, LineStart)
    decreases |t|
  {
    var all := t + rest;
    assert all[0] == t[0] && all[1..] == t[1..] + rest;
    if t[0] == NL {
      if |t| > 1 {
        SkipsLines(t[1..], LineStart, rest);
      }
    } else {
      SkipsLines(t[1..], if t[0] == Ch('#') && status == LineStart then Hash else Within, rest);
    }
  }

  lemma ScansMark(c: char, rest: seq<Item>)
    ensures Scan(Mark(c) + rest, LineStart) == (Some(Ch(c)), rest)
  {
    var t := Mark(c) + rest;
    assert t[1..][0] == Ch('!') && t[1..][1] == Ch(c) && t[1..][2..] == rest;
  }

  /** What the loader does depends on the next mark only. */
  lemma SameScan(t: seq<Item>, u: seq<Item>, l: Loading)
    requires l.Ok() && Scan(t, LineStart) == Scan(u, LineStart)
    ensures Load(t, l) == Load(u, l)
  {
  }

  lemma {:induction false} ReadsNumber(n: nat, rest: seq<Item>)
    ensures ScanNat([SP, Num(n)] + rest) == (Some(n), rest)
  {
    var t := [SP, Num(n)] + rest;
    assert t[1..][0] == Num(n) && t[1..][1..] == rest;
    assert Skip(t) == Skip(t[1..]) == t[1..];
  }

  lemma {:induction false} ReadsReal(x: real, rest: seq<Item>)
    ensures ScanReal([SP, Real(x)] + rest) == (Some(x), rest)
  {
    var t := [SP, Real(x)] + rest;
    assert t[1..][0] == Real(x) && t[1..][1..] == rest;
    assert Skip(t) == Skip(t[1..]) == t[1..];
  }

  function Somes(coords: seq<real>): (r: seq<Option<real>>)
    ensures |r| == |coords|
  {
    seq(|coords|, i requires 0 <= i < |coords| => Some(coords[i]))
  }

  lemma {:induction false} ReadsCoords(coords: seq<real>, old_: seq<Option<real>>, i: nat, rest: seq<Item>)
    requires |old_| == |coords| && i <= |coords| && old_[..i] == Somes(coords)[..i]
    ensures ScanCoords(CoordsText(coords[i..]) + rest, old_, i) == (Somes(coords), rest)
    decreases |coords| - i
  {
    if i == |coords| {
      assert CoordsText(coords[i..]) + rest == rest;
      assert old_ == Somes(coords);
    } else {
      var more := CoordsText(coords[i + 1..]) + rest;
      assert coords[i..][1..] == coords[i + 1..];
      assert CoordsText(coords[i..]) + rest == [SP, Real(coords[i])] + more;
      ReadsReal(coords[i], more);
      ReadsCoords(coords, old_[i := Some(coords[i])], i + 1, rest);
    }
  }

  lemma {:induction false} ReadsUsers(users: seq<nat>, rest: seq<Item>)
    ensures ScanNats(UsersText(users) + rest, |users|) == (users, rest)
  {
    if users == [] {
      assert UsersText(users) + rest == rest;
    } else {
      var more := UsersText(users[1..]) + rest;
      assert UsersText(users) + rest == [SP, Num(users[0])] + more;
      ReadsNumber(users[0], more);
      ReadsUsers(users[1..], rest);
      assert [users[0]] + users[1..] == users;
    }
  }

  /** A saved node is read back. */
  lemma LoadsNode(node: Node, rest: seq<Item>, l: Loading)
    requires l.Ok() && l.m.Some? && |node.coords| == l.dim
    ensures Load(NodeText(node) + rest, l)
         == Load(rest, l.(m := Some(WithNode(l.m.value, node.coords, node.user)), coords := Somes(node.coords)))
  {
    var tail := [NL] + rest;
    var body := CoordsText(node.coords) + tail;
    var l' := l.(m := Some(WithNode(l.m.value, node.coords, node.user)), coords := Somes(node.coords));
    assert NodeText(node) + rest == Mark('N') + ([SP, Num(node.user)] + body);
    ScansMark('N', [SP, Num(node.user)] + body);
    ReadsNode(node, tail, l);
    NodeRecord(NodeText(node) + rest, [SP, Num(node.user)] + body, l, l', tail);
    LineEndSkipped(rest);
    SameScan(tail, rest, l');
  }

  lemma ReadsNode(node: Node, tail: seq<Item>, l: Loading)
    requires l.Ok() && l.m.Some? && |node.coords| == l.dim
    ensures ReadNode([SP, Num(node.user)] + (CoordsText(node.coords) + tail), l)
         == (Some(l.(m := Some(WithNode(l.m.value, node.coords, node.user)), coords := Somes(node.coords))), tail)
  {
    ReadsNumber(node.user, CoordsText(node.coords) + tail);
    assert node.coords[0..] == node.coords;
    ReadsCoords(node.coords, l.coords, 0, tail);
    assert Values(Somes(node.coords)) == node.coords;
  }

  lemma NodeRecord(t: seq<Item>, u: seq<Item>, l: Loading, l': Loading, v: seq<Item>)
    requires l.Ok() && l.m.Some? && Scan(t, LineStart) == (Some(Ch('N')), u) && ReadNode(u, l) == (Some(l'), v)
    ensures Load(t, l) == Load(v, l')
  {
  }

  /** What a mesh record leaves: nothing that C promises when the buffer does not hold the mesh. */
  function MeshRead(user: nat, users: seq<nat>, l: Loading): (r: Option<Loading>)
    requires l.Ok() && l.m.Some?
    ensures r.Some? ==> r.value.Ok()
  {
    var capacity := Grown(l.capacity, |users|);
    if |users| <= capacity then Some(l.(m := Some(WithMesh(l.m.value, users, user)), capacity := capacity)) else None
  }

  lemma ReadsMesh(user: nat, users: seq<nat>, tail: seq<Item>, l: Loading)
    requires l.Ok() && l.m.Some? && |users| < 65536
    ensures ReadMesh([SP, Num(user)] + ([SP, Num(|users|)] + ([SP] + (UsersText(users) + tail))), l)
         == (MeshRead(user, users, l), if users == [] then [SP] + tail else tail)
  {
    var body := [SP] + (UsersText(users) + tail);
    ReadsUsersBehindSpace(users, tail);
    ReadsMeshAround(user, users, body, if users == [] then [SP] + tail else tail, l);
  }

  lemma ReadsMeshAround(user: nat, users: seq<nat>, body: seq<Item>, rest: seq<Item>, l: Loading)
    requires l.Ok() && l.m.Some? && |users| < 65536
    requires ScanNats(body, |users|) == (users, rest)
    ensures ReadMesh([SP, Num(user)] + ([SP, Num(|users|)] + body), l) == (MeshRead(user, users, l), rest)
  {
    ReadsNumber(user, [SP, Num(|users|)] + body);
    ReadsNumber(|users|, body);
  }

  lemma MeshTextIs(nodes: seq<Node>, m: Mesh, rest: seq<Item>)
    requires PointsInto(m, nodes)
    ensures MeshText(nodes, m) + rest
         == Mark('M') + ([SP, Num(m.user)] + ([SP, Num(|m.nodes|)]
            + ([SP] + (UsersText(UsersOf(nodes, m, 0)) + ([NL] + rest)))))
  {
  }

  /** A saved mesh is read back, as long as it fits into the buffer; otherwise the loader writes behind it. */
  lemma LoadsMesh(nodes: seq<Node>, m: Mesh, rest: seq<Item>, l: Loading)
    requires l.Ok() && l.m.Some? && l.dim != 0 && PointsInto(m, nodes) && |m.nodes| < 65536
    ensures var l' := MeshRead(m.user, UsersOf(nodes, m, 0), l);
            Load(MeshText(nodes, m) + rest, l) == if l'.None? then Undefined else Load(rest, l'.value)
  {
    var users, tail := UsersOf(nodes, m, 0), [NL] + rest;
    var body := [SP, Num(m.user)] + ([SP, Num(|users|)] + ([SP] + (UsersText(users) + tail)));
    var l' := MeshRead(m.user, users, l);
    var end := if users == [] then [SP] + tail else tail;
    MeshTextIs(nodes, m, rest);
    ScansMark('M', body);
    ReadsMesh(m.user, users, tail, l);
    MeshRecord(MeshText(nodes, m) + rest, body, l, l', end);
    if l'.Some? {
      LineEndSkipped(rest);
      SameScan(end, rest, l'.value);
    }
  }

  lemma MeshRecord(t: seq<Item>, u: seq<Item>, l: Loading, l': Option<Loading>, v: seq<Item>)
    requires l.Ok() && l.m.Some? && l.dim != 0 && Scan(t, LineStart) == (Some(Ch('M')), u) && ReadMesh(u, l) == (l', v)
    ensures Load(t, l) == if l'.None? then Undefined else Load(v, l'.value)
  {
  }

  /** What is left of a line does not matter. */
  lemma LineEndSkipped(rest: seq<Item>)
    ensures Scan([NL] + rest, LineStart) == Scan(rest, LineStart) == Scan([SP] + ([NL] + rest), LineStart)
  {
    SkipsLines([NL], LineStart, rest);
    SkipsLines([SP, NL], LineStart, rest);
    assert [SP] + ([NL] + rest) == [SP, NL] + rest;
  }

  /** The blank that mesh_save writes before the nodes is skipped with the first number. */
  lemma ReadsUsersBehindSpace(users: seq<nat>, tail: seq<Item>)
    ensures ScanNats([SP] + (UsersText(users) + tail), |users|) == (users, if users == [] then [SP] + tail else tail)
  {
    if users == [] {
      assert UsersText(users) + tail == tail;
    } else {
      LeadingSpace(UsersText(users) + tail, |users|);
      ReadsUsers(users, tail);
    }
  }

  lemma LeadingSpace(t: seq<Item>, count: nat)
    requires count > 0
    ensures ScanNats([SP] + t, count) == ScanNats(t, count)
  {
    assert ([SP] + t)[1..] == t;
    assert ScanNat([SP] + t) == ScanNat(t);
  }

  /** The loader when it has read the first p nodes. */
  function AfterNodes(s: State, p: nat): (l: Loading)
    requires p <= |s.nodes| && NodesFit(s.nodes, s.dim)
    ensures l.Ok() && l.m.Some? && l.dim == s.dim && l.capacity == 8
  {
    var m := AddNodes(Empty(s.dim), s.nodes[..p], 0);
    DimKept(Empty(s.dim), s.nodes[..p], 0);
    Loading(Some(m), s.dim, if p == 0 then seq(s.dim, _ => None) else Somes(s.nodes[p - 1].coords), 8)
  }

  lemma {:induction false} DimKept(s: State, nodes: seq<Node>, offset: nat)
    requires s.Indexed()
    ensures AddNodes(s, nodes, offset).dim == s.dim
  {
    if nodes != [] {
      DimKept(s, nodes[..|nodes| - 1], offset);
    }
  }

  /** The loader reads all nodes back, one after the other. */
  lemma {:induction false} LoadsNodes(s: State, p: nat, rest: seq<Item>)
    requires p <= |s.nodes| && NodesFit(s.nodes, s.dim)
    ensures Load(NodesText(s.nodes[p..]) + rest, AfterNodes(s, p)) == Load(rest, AfterNodes(s, |s.nodes|))
    decreases |s.nodes| - p
  {
    if p == |s.nodes| {
      assert NodesText(s.nodes[p..]) + rest == rest;
    } else {
      var more := NodesText(s.nodes[p + 1..]) + rest;
      assert s.nodes[p..][1..] == s.nodes[p + 1..];
      assert NodesText(s.nodes[p..]) + rest == NodeText(s.nodes[p]) + more;
      LoadsNode(s.nodes[p], more, AfterNodes(s, p));
      NextNode(s, p);
      LoadsNodes(s, p + 1, rest);
    }
  }

  lemma NextNode(s: State, p: nat)
    requires p < |s.nodes| && NodesFit(s.nodes, s.dim)
    ensures var l := AfterNodes(s, p);
            AfterNodes(s, p + 1) == l.(m := Some(WithNode(l.m.value, s.nodes[p].coords, s.nodes[p].user)),
                                       coords := Somes(s.nodes[p].coords))
  {
    assert s.nodes[..p + 1][..p] == s.nodes[..p];
  }

  /** The loader reads meshes back, unless the buffer does not hold them. */
  lemma {:induction false} LoadsMeshes(nodes: seq<Node>, meshes: seq<Mesh>, rest: seq<Item>, l: Loading)
    requires l.Ok() && l.m.Some? && l.dim != 0 && AllPointInto(meshes, nodes)
    requires forall p :: 0 <= p < |meshes| ==> |meshes[p].nodes| < 65536
    ensures var m := AddMeshesFrom(l.m.value, nodes, meshes);
            var l' := l.(m := Some(m), capacity := CapacityAfter(Sizes(meshes), l.capacity));
            && l'.Ok()
            && Load(MeshesText(nodes, meshes) + rest, l)
               == if BufferHolds(Sizes(meshes), l.capacity) then Load(rest, l') else Undefined
    decreases |meshes|
  {
    if meshes == [] {
      assert MeshesText(nodes, meshes) + rest == rest;
    } else {
      var more := MeshesText(nodes, meshes[1..]) + rest;
      assert MeshesText(nodes, meshes) + rest == MeshText(nodes, meshes[0]) + more;
      assert Sizes(meshes)[0] == |meshes[0].nodes| && Sizes(meshes)[1..] == Sizes(meshes[1..]);
      LoadsMesh(nodes, meshes[0], more, l);
      var l1 := l.(m := Some(WithMesh(l.m.value, UsersOf(nodes, meshes[0], 0), meshes[0].user)),
                   capacity := Grown(l.capacity, |meshes[0].nodes|));
      LoadsMeshes(nodes, meshes[1..], rest, l1);
    }
  }

  /** The same as AddMeshes without offsets, told from the first mesh on. */
  function AddMeshesFrom(s: State, nodes: seq<Node>, meshes: seq<Mesh>): (r: State)
    requires AllPointInto(meshes, nodes)
    ensures r.nodes == s.nodes && r.number == s.number && r.dim == s.dim
    decreases |meshes|
  {
    if meshes == [] then s
    else AddMeshesFrom(WithMesh(s, UsersOf(nodes, meshes[0], 0), meshes[0].user), nodes, meshes[1..])
  }

  lemma {:induction false} FromLast(s: State, nodes: seq<Node>, meshes: seq<Mesh>)
    requires AllPointInto(meshes, nodes) && meshes != []
    ensures var n := |meshes| - 1;
            AddMeshesFrom(s, nodes, meshes)
            == WithMesh(AddMeshesFrom(s, nodes, meshes[..n]), UsersOf(nodes, meshes[n], 0), meshes[n].user)
    decreases |meshes|
  {
    var n := |meshes| - 1;
    if n > 0 {
      assert meshes[..n][1..] == meshes[1..][..n - 1] && meshes[..n][0] == meshes[0];
      FromLast(WithMesh(s, UsersOf(nodes, meshes[0], 0), meshes[0].user), nodes, meshes[1..]);
    }
  }

  lemma {:induction false} BothOrders(s: State, nodes: seq<Node>, meshes: seq<Mesh>)
    requires AllPointInto(meshes, nodes)
    ensures AddMeshesFrom(s, nodes, meshes) == AddMeshes(s, nodes, meshes, 0, 0)
    decreases |meshes|
  {
    if meshes != [] {
      FromLast(s, nodes, meshes);
      BothOrders(s, nodes, meshes[..|meshes| - 1]);
    }
  }

  /** What a file written by fem_meshing_save loads as. */
  function Restored(s: State): State
    requires AllPointInto(s.meshes, s.nodes)
  {
    AddAll(Empty(s.dim), s, 0, 0)
  }

  lemma {:induction false} WithinEnds(words: string)
    requires '\n' !in words
    ensures EndsLine(Text(words) + [NL], Within)
  {
    var t := Text(words) + [NL];
    if words != [] {
      assert t[1..] == Text(words[1..]) + [NL];
      WithinEnds(words[1..]);
    }
  }

  /** Comments are skipped. */
  lemma CommentScan(words: string, rest: seq<Item>)
    requires '\n' !in words && (words != [] ==> words[0] != '!')
    ensures Scan(Comment(words) + rest, LineStart) == Scan(rest, LineStart)
  {
    var t := Comment(words);
    assert t[1..] == Text(words) + [NL];
    WithinEnds(words);
    if words != [] {
      WithinEnds(words[1..]);
      assert t[1..][1..] == Text(words[1..]) + [NL];
    }
    SkipsLines(t, LineStart, rest);
  }

  /** The comments before the dimension. */
  lemma HeadScan(rest: seq<Item>)
    ensures Scan(Comment("") + (Comment(" Saved meshing") + (Comment("") + rest)), LineStart) == Scan(rest, LineStart)
  {
    CommentScan("", Comment(" Saved meshing") + (Comment("") + rest));
    CommentScan(" Saved meshing", Comment("") + rest);
    CommentScan("", rest);
  }

  /** A blank line and a title. */
  lemma TitleScan(words: string, rest: seq<Item>)
    requires '\n' !in words && (words != [] ==> words[0] != '!')
    ensures Scan([NL] + (Comment(words) + rest), LineStart) == Scan(rest, LineStart)
  {
    SkipsLines([NL], LineStart, Comment(words) + rest);
    CommentScan(words, rest);
  }

  lemma LoadsDimension(dim: nat, rest: seq<Item>)
    requires 1 <= dim < 65536
    ensures Load(Mark('D') + [SP, Num(dim), NL] + rest, Start())
         == Load(rest, Loading(Some(Empty(dim)), dim, seq(dim, _ => None), 8))
  {
    var body := [SP, Num(dim)] + ([NL] + rest);
    assert Mark('D') + [SP, Num(dim), NL] + rest == Mark('D') + body;
    ScansMark('D', body);
    ReadsNumber(dim, [NL] + rest);
    DimensionRecord(Mark('D') + body, body, [NL] + rest, dim);
    LineEndSkipped(rest);
    SameScan([NL] + rest, rest, Loading(Some(Empty(dim)), dim, seq(dim, _ => None), 8));
  }

  lemma DimensionRecord(t: seq<Item>, u: seq<Item>, v: seq<Item>, dim: nat)
    requires Scan(t, LineStart) == (Some(Ch('D')), u) && ScanNat(u) == (Some(dim), v) && dim < 65536
    ensures Load(t, Start()) == Load(v, Loading(Some(Empty(dim)), dim, seq(dim, _ => None), 8))
  {
    assert dim % 65536 == dim;
  }

  lemma LoadsEnd(l: Loading)
    requires l.Ok()
    ensures Load([NL] + (Mark('X') + [NL]), l) == Loaded(l.m)
  {
    LineEndSkipped(Mark('X') + [NL]);
    SameScan([NL] + (Mark('X') + [NL]), Mark('X') + [NL], l);
    ScansMark('X', [NL]);
  }

  /** The part of a file with the meshes. */
  lemma LoadsMeshPart(s: State, l: Loading)
    requires l.Ok() && l.m.Some? && l.dim != 0 && AllPointInto(s.meshes, s.nodes)
    requires forall p :: 0 <= p < |s.meshes| ==> |s.meshes[p].nodes| < 65536
    ensures Load(MeshPart(s), l)
         == if BufferHolds(Sizes(s.meshes), l.capacity)
            then Loaded(Some(AddMeshes(l.m.value, s.nodes, s.meshes, 0, 0))) else Undefined
  {
    var end := [NL] + (Mark('X') + [NL]);
    var rest := MeshesText(s.nodes, s.meshes) + end;
    TitleScan(" Meshes", rest);
    SameScan(MeshPart(s), rest, l);
    LoadsMeshes(s.nodes, s.meshes, end, l);
    BothOrders(l.m.value, s.nodes, s.meshes);
    LoadsEnd(l.(m := Some(AddMeshesFrom(l.m.value, s.nodes, s.meshes)),
                capacity := CapacityAfter(Sizes(s.meshes), l.capacity)));
  }

  /** Main result: a valid meshing comes back from its file, with internal numbers made positions, if and only if the
      buffer holds its meshes; the numbers of nodes of a mesh are 16 bits wide. */
  lemma LoadsBackIff(s: State)
    requires s.Valid() && 1 <= s.dim < 65536 && AllPointInto(s.meshes, s.nodes)
    requires forall p :: 0 <= p < |s.meshes| ==> |s.meshes[p].nodes| < 65536
    ensures Load(Saved(s), Start())
         == if BufferHolds(Sizes(s.meshes), 8) then Loaded(Some(Restored(s))) else Undefined
  {
    Readable(s);
    var l0 := AfterNodes(s, 0);
    assert l0 == Loading(Some(Empty(s.dim)), s.dim, seq(s.dim, _ => None), 8);
    LoadsFront(s.dim, NodesText(s.nodes) + MeshPart(s), l0);
    assert s.nodes[0..] == s.nodes && s.nodes[..|s.nodes|] == s.nodes;
    LoadsNodes(s, 0, MeshPart(s));
    LoadsMeshPart(s, AfterNodes(s, |s.nodes|));
  }

  /** The comments and the dimension at the head of a file. */
  lemma LoadsFront(dim: nat, rest: seq<Item>, l0: Loading)
    requires 1 <= dim < 65536 && l0 == Loading(Some(Empty(dim)), dim, seq(dim, _ => None), 8)
    ensures Load(Comment("") + (Comment(" Saved meshing") + (Comment("") + (Mark('D') + [SP, Num(dim), NL]
                 + ([NL] + (Comment(" Nodes") + rest))))), Start())
         == Load(rest, l0)
  {
    var nodePart := [NL] + (Comment(" Nodes") + rest);
    var dimPart := Mark('D') + [SP, Num(dim), NL] + nodePart;
    HeadScan(dimPart);
    SameScan(Comment("") + (Comment(" Saved meshing") + (Comment("") + dimPart)), dimPart, Start());
    LoadsDimension(dim, nodePart);
    TitleScan(" Nodes", rest);
    SameScan(nodePart, rest, l0);
  }

  /** What is restored: the same nodes, numbers, coordinates and meshes; internal numbers are positions. */
  lemma RestoredIs(s: State)
    requires s.Valid() && AllPointInto(s.meshes, s.nodes)
    ensures var r := Restored(s);
            && r.Valid() && r.dim == s.dim && r.nodes == Moved(s.nodes, 0, 0) && r.meshes == s.meshes
            && r.number == s.number && r.meshNumber == s.meshNumber && r.maxN == 1
    ensures Restored(s).nodes == s.nodes <==> s.Aligned()
  {
    var r := Restored(s);
    FirstAlone(s, r);
    SameMovedMeshes(s);
    SameIndex(s, r);
    if s.Aligned() {
      assert Moved(s.nodes, 0, 0) == s.nodes;
    }
  }

  lemma SameIndex(s: State, r: State)
    requires s.Valid() && r.Valid() && r.nodes == Moved(s.nodes, 0, 0) && r.meshes == s.meshes
    requires r.number.Keys == s.number.Keys && r.meshNumber.Keys == s.meshNumber.Keys
    ensures r.number == s.number && r.meshNumber == s.meshNumber
  {
    forall u | u in s.number
      ensures r.number[u] == s.number[u]
    {
      assert r.nodes[s.number[u]].user == u;
    }
    forall u | u in s.meshNumber
      ensures r.meshNumber[u] == s.meshNumber[u]
    {
      assert r.MeshValid(s.meshNumber[u]);
    }
  }

  lemma {:induction false} CoordsTextNext(coords: seq<real>, i: nat)
    requires i < |coords|
    ensures CoordsText(coords[..i + 1]) == CoordsText(coords[..i]) + [SP, Real(coords[i])]
  {
    if i > 0 {
      assert coords[..i + 1][1..] == coords[1..][..i];
      assert coords[..i][1..] == coords[1..][..i - 1];
      CoordsTextNext(coords[1..], i - 1);
    }
  }

  lemma {:induction false} UsersTextNext(users: seq<nat>, i: nat)
    requires i < |users|
    ensures UsersText(users[..i + 1]) == UsersText(users[..i]) + [SP, Num(users[i])]
  {
    if i > 0 {
      assert users[..i + 1][1..] == users[1..][..i];
      assert users[..i][1..] == users[1..][..i - 1];
      UsersTextNext(users[1..], i - 1);
    }
  }

  lemma {:induction false} NodesTextNext(nodes: seq<Node>, p: nat)
    requires p < |nodes|
    ensures NodesText(nodes[..p + 1]) == NodesText(nodes[..p]) + NodeText(nodes[p])
  {
    if p > 0 {
      assert nodes[..p + 1][1..] == nodes[1..][..p];
      assert nodes[..p][1..] == nodes[1..][..p - 1];
      NodesTextNext(nodes[1..], p - 1);
    }
  }

  lemma {:induction false} MeshesTextNext(nodes: seq<Node>, meshes: seq<Mesh>, p: nat)
    requires p < |meshes| && AllPointInto(meshes, nodes)
    ensures MeshesText(nodes, meshes[..p + 1]) == MeshesText(nodes, meshes[..p]) + MeshText(nodes, meshes[p])
  {
    if p > 0 {
      assert meshes[..p + 1][1..] == meshes[1..][..p];
      assert meshes[..p][1..] == meshes[1..][..p - 1];
      MeshesTextNext(nodes, meshes[1..], p - 1);
    }
  }

  /** node_save. */
  method SaveNode(node: Node) returns (t: seq<Item>)
    ensures t == NodeText(node)
  {
    t := Mark('N') + [SP, Num(node.user)];
    var i := 0;
    while i < |node.coords|
      invariant 0 <= i <= |node.coords|
      invariant t == Mark('N') + [SP, Num(node.user)] + CoordsText(node.coords[..i])
    {
      CoordsTextNext(node.coords, i);
      t := t + [SP, Real(node.coords[i])];
      i := i + 1;
    }
    assert node.coords[..i] == node.coords;
    t := t + [NL];
  }

  /** mesh_save. */
  method SaveMesh(nodes: seq<Node>, m: Mesh) returns (t: seq<Item>)
    requires PointsInto(m, nodes)
    ensures t == MeshText(nodes, m)
  {
    ghost var users := UsersOf(nodes, m, 0);
    t := Mark('M') + [SP, Num(m.user), SP, Num(|m.nodes|), SP];
    ghost var head := t;
    var i := 0;
    while i < |m.nodes|
      invariant 0 <= i <= |m.nodes| && t == head + UsersText(users[..i])
    {
      UsersTextNext(users, i);
      t := t + [SP, Num(nodes[m.nodes[i]].user)];
      i := i + 1;
    }
    assert users[..i] == users;
    t := t + [NL];
  }

  /** fem_meshing_save. */
  method FemMeshingSave(meshing: Store) returns (t: seq<Item>)
    requires AllPointInto(meshing.meshes, meshing.nodes)
    ensures t == Saved(meshing.S())
  {
    var nodes, meshes := [], [];
    var p := 0;
    while p < |meshing.nodes|
      invariant 0 <= p <= |meshing.nodes| && nodes == NodesText(meshing.nodes[..p])
    {
      var text := SaveNode(meshing.nodes[p]);
      NodesTextNext(meshing.nodes, p);
      nodes := nodes + text;
      p := p + 1;
    }
    assert meshing.nodes[..p] == meshing.nodes;
    p := 0;
    while p < |meshing.meshes|
      invariant 0 <= p <= |meshing.meshes| && meshes == MeshesText(meshing.nodes, meshing.meshes[..p])
    {
      var text := SaveMesh(meshing.nodes, meshing.meshes[p]);
      MeshesTextNext(meshing.nodes, meshing.meshes, p);
      meshes := meshes + text;
      p := p + 1;
    }
    assert meshing.meshes[..p] == meshing.meshes;
    t := Comment("") + (Comment(" Saved meshing") + (Comment("") + (Mark('D') + [SP, Num(meshing.dim), NL]
         + ([NL] + (Comment(" Nodes") + (nodes
         + ([NL] + (Comment(" Meshes") + (meshes + ([NL] + (Mark('X') + [NL])))))))))));
  }

  /** Save, then load. */
  method SaveAndLoad(meshing: Store) returns (loaded: Store?, undefined: bool)
    requires meshing.S().Valid() && 1 <= meshing.dim < 65536
    requires forall p :: 0 <= p < |meshing.meshes| ==> |meshing.meshes[p].nodes| < 65536
    ensures undefined <==> !BufferHolds(Sizes(meshing.meshes), 8)
    ensures !undefined ==> loaded != null && fresh(loaded) && loaded.S().Valid()
    ensures !undefined ==>
              && loaded.meshes == meshing.meshes && loaded.number == meshing.number
              && loaded.meshNumber == meshing.meshNumber && loaded.nodes == Moved(meshing.nodes, 0, 0)
  {
    ghost var r := ComesBack(meshing.S());
    var t := FemMeshingSave(meshing);
    loaded, undefined := LoadText(t, r, BufferHolds(Sizes(meshing.meshes), 8));
  }

  /** fem_meshing_load, for a text known to load as r, or not at all. */
  method LoadText(t: seq<Item>, ghost r: State, ghost fits: bool) returns (loaded: Store?, undefined: bool)
    requires Load(t, Start()) == if fits then Loaded(Some(r)) else Undefined
    ensures undefined <==> !fits
    ensures fits ==> loaded != null && fresh(loaded) && loaded.S() == r
  {
    var f := new Input(t);
    var refused;
    loaded, refused, undefined := MeshingLoad(f);
  }

  /** The two results together. */
  lemma ComesBack(s: State) returns (r: State)
    requires s.Valid() && 1 <= s.dim < 65536
    requires forall p :: 0 <= p < |s.meshes| ==> |s.meshes[p].nodes| < 65536
    ensures AllPointInto(s.meshes, s.nodes) && r.Valid()
    ensures Load(Saved(s), Start()) == if BufferHolds(Sizes(s.meshes), 8) then Loaded(Some(r)) else Undefined
    ensures r.nodes == Moved(s.nodes, 0, 0) && r.meshes == s.meshes && r.number == s.number
            && r.meshNumber == s.meshNumber
  {
    Readable(s);
    LoadsBackIff(s);
    RestoredIs(s);
    r := Restored(s);
  }

  /** A meshing that was loaded gives automatic numbers from 1 again: the first one is taken exactly when node 1
      exists. */
  lemma LoadedNumbersCollideIff(s: State, coords: seq<real>)
    requires s.Valid() && AllPointInto(s.meshes, s.nodes)
    ensures Restored(s).Indexed()
    ensures |WithNode(Restored(s), coords, 0).nodes| == |Restored(s).nodes| <==> 1 in s.number
  {
    RestoredIs(s);
    AutomaticCollidesIff(Restored(s), coords);
  }
}
