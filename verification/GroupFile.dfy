/** Groups of nodes or meshes, and their files: group.c. */
module GroupFile {
  import opened Options
  import opened MeshFile
  import opened MeshSave

  datatype Kind = Nodes | Meshes

  datatype Group = Group(kind: Kind, list: seq<nat>)

  function Letter(kind: Kind): char
  {
    if kind == Nodes then 'N' else 'M'
  }

  /** One line of group_save for each member. */
  function MembersText(kind: Kind, list: seq<nat>): seq<Item>
  {
    if list == [] then [] else Mark(Letter(kind)) + [SP, Num(list[0]), NL] + MembersText(kind, list[1..])
  }

  /** group_save. */
  function SavedGroup(g: Group): seq<Item>
  {
    MembersText(g.kind, g.list) + (Mark('X') + [NL])
  }

  /** The text of the group of the nodes 7 and 3, and of the mesh 8. */
  lemma SavedLines()
    ensures SavedGroup(Group(Nodes, [7, 3]))
         == [Ch('#'), Ch('!'), Ch('N'), Ch(' '), Num(7), Ch('\n'), Ch('#'), Ch('!'), Ch('N'), Ch(' '), Num(3), Ch('\n'),
             Ch('#'), Ch('!'), Ch('X'), Ch('\n')]
    ensures SavedGroup(Group(Meshes, [8]))
         == [Ch('#'), Ch('!'), Ch('M'), Ch(' '), Num(8), Ch('\n'), Ch('#'), Ch('!'), Ch('X'), Ch('\n')]
  {
    assert [7, 3][1..] == [3] && [3][1..] == [] && [8][1..] == [];
  }

  lemma Join(a: seq<Item>, b: seq<Item>, c: seq<Item>)
    ensures a + (b + c) == (a + b) + c
  {
  }

  method GroupSave(g: Group) returns (t: seq<Item>)
    ensures t == SavedGroup(g)
  {
    t := [];
    var i := 0;
    while i < |g.list|
      invariant 0 <= i <= |g.list| && t + MembersText(g.kind, g.list[i..]) == MembersText(g.kind, g.list)
    {
      var line := Mark(Letter(g.kind)) + [SP, Num(g.list[i]), NL];
      assert g.list[i..][1..] == g.list[i + 1..];
      Join(t, line, MembersText(g.kind, g.list[i + 1..]));
      t := t + line;
      i := i + 1;
    }
    t := t + (Mark('X') + [NL]);
  }

  /** As many numbers as follow. */
  function ScanAll(t: seq<Item>): (r: (seq<nat>, seq<Item>))
    ensures |r.1| <= |t|
    decreases |t|
  {
    var (n, u) := ScanNat(t);
    if n.None? then ([], u)
    else
      var (ns, v) := ScanAll(u);
      ([n.value] + ns, v)
  }

  /** group_load on what is left of the text. */
  function LoadGroup(t: seq<Item>, g: Option<Group>): Option<Group>
    decreases |t|
  {
    var (mark, u) := Scan(t, LineStart);
    match mark
    case None => g
    case Some(x) =>
      if x == Ch('X') then g
      else if x == Ch('N') || x == Ch('M') then
        var kind := if x == Ch('N') then Nodes else Meshes;
        if g.Some? && g.value.kind != kind then LoadGroup(u, g)
        else
          var (ns, v) := ScanAll(u);
          LoadGroup(v, Some(Group(kind, (if g.Some? then g.value.list else []) + ns)))
      else LoadGroup(u, g)
  }

  /** The inner loops of group_load. */
  method ReadAll(f: Input) returns (ns: seq<nat>)
    requires f.Ok()
    modifies f
    ensures f.Ok() && (ns, f.Left()) == ScanAll(old(f.Left()))
  {
    ns := [];
    ghost var all := ScanAll(f.Left());
    var more := true;
    while more
      invariant f.Ok()
      invariant if more then ns + ScanAll(f.Left()).0 == all.0 && ScanAll(f.Left()).1 == all.1
                else ns == all.0 && f.Left() == all.1
      decreases more, |f.text| - f.pos
    {
      ghost var rest := ScanAll(f.Left());
      var n := f.ReadNat();
      if n.None? {
        more := false;
        assert ns + [] == ns;
      } else {
        assert ns + ([n.value] + ScanAll(f.Left()).0) == (ns + [n.value]) + ScanAll(f.Left()).0;
        ns := ns + [n.value];
      }
    }
  }

  /** group_load. */
  method GroupLoad(f: Input) returns (g: Option<Group>)
    requires f.Ok()
    modifies f
    ensures g == LoadGroup(old(f.Left()), None)
  {
    g := None;
    var loop := true;
    while loop
      invariant f.Ok()
      invariant if loop then LoadGroup(f.Left(), g) == LoadGroup(old(f.Left()), None)
                else g == LoadGroup(old(f.Left()), None)
      decreases loop, |f.text| - f.pos
    {
      var mark := f.LoadHeader();
      if mark == None || mark.value == Ch('X') {
        loop := false;
      } else if mark.value == Ch('N') || mark.value == Ch('M') {
        var kind := if mark.value == Ch('N') then Nodes else Meshes;
        if g.None? {
          g := Some(Group(kind, []));
        }
        if g.value.kind == kind {
          var ns := ReadAll(f);
          g := Some(Group(kind, g.value.list + ns));
        }
      }
    }
  }

  /** The number of a line, up to the next mark. */
  lemma ReadsMember(n: nat, c: char, rest: seq<Item>)
    ensures ScanAll([SP, Num(n), NL] + (Mark(c) + rest)) == ([n], Mark(c) + rest)
  {
    var next := Mark(c) + rest;
    var tail := [NL] + next;
    assert [SP, Num(n), NL] + next == [SP, Num(n)] + tail;
    ReadsNumber(n, tail);
    assert tail[1..] == next;
    assert Skip(tail) == Skip(next) == next;
    assert ScanNat(tail) == (None, next);
    assert ScanAll(tail) == ([], next);
    assert [n] + [] == [n];
  }

  /** Members come back one after the other. */
  lemma {:induction false} LoadsMembers(kind: Kind, list: seq<nat>, done: seq<nat>)
    requires list != []
    ensures LoadGroup(MembersText(kind, list) + (Mark('X') + [NL]), Some(Group(kind, done)))
         == Some(Group(kind, done + list))
    decreases |list|
  {
    var end := Mark('X') + [NL];
    var rest := MembersText(kind, list[1..]) + end;
    FirstMark(kind, list[1..], end);
    var c :| |rest| >= 3 && rest[..3] == Mark(c);
    assert rest == Mark(c) + rest[3..];
    assert MembersText(kind, list) + end == Mark(Letter(kind)) + ([SP, Num(list[0]), NL] + rest);
    LoadsOne(kind, list[0], c, rest[3..], done);
    assert (done + [list[0]]) + list[1..] == done + list;
    if list[1..] == [] {
      assert rest == end;
      ScansMark('X', [NL]);
      assert done + [list[0]] == done + list;
    } else {
      LoadsMembers(kind, list[1..], done + [list[0]]);
    }
  }

  lemma LoadsOne(kind: Kind, n: nat, c: char, rest: seq<Item>, done: seq<nat>)
    ensures LoadGroup(Mark(Letter(kind)) + ([SP, Num(n), NL] + (Mark(c) + rest)), Some(Group(kind, done)))
         == LoadGroup(Mark(c) + rest, Some(Group(kind, done + [n])))
  {
    ScansMark(Letter(kind), [SP, Num(n), NL] + (Mark(c) + rest));
    ReadsMember(n, c, rest);
  }

  lemma FirstMark(kind: Kind, list: seq<nat>, end: seq<Item>)
    requires end == Mark('X') + [NL]
    ensures exists c :: |MembersText(kind, list) + end| >= 3 && (MembersText(kind, list) + end)[..3] == Mark(c)
  {
    var t := MembersText(kind, list) + end;
    if list == [] {
      assert t == end && t[..3] == Mark('X');
    } else {
      assert t[..3] == Mark(Letter(kind));
    }
  }

  /** Main result: a group comes back from its file exactly when it is not empty; an empty one comes back as no
      group. */
  lemma GroupRoundTrip(g: Group)
    ensures LoadGroup(SavedGroup(g), None) == if g.list == [] then None else Some(g)
  {
    if g.list == [] {
      assert SavedGroup(g) == Mark('X') + [NL];
      ScansMark('X', [NL]);
    } else {
      FirstLine(g);
      LoadsMembers(g.kind, g.list, []);
      assert [] + g.list == g.list;
    }
  }

  /** The first line makes the group; the others find it. */
  lemma FirstLine(g: Group)
    requires g.list != []
    ensures LoadGroup(SavedGroup(g), None) == LoadGroup(SavedGroup(g), Some(Group(g.kind, [])))
  {
    var end := Mark('X') + [NL];
    var rest := [SP, Num(g.list[0]), NL] + (MembersText(g.kind, g.list[1..]) + end);
    assert SavedGroup(g) == Mark(Letter(g.kind)) + rest;
    ScansMark(Letter(g.kind), rest);
  }
}
