/** meshing_load of meshing.c. */
module MeshLoad {
  import opened Options
  import opened Meshing
  import opened MeshFile

  /** How a load ends: with what was read, refused because the dimension is given twice, or with a read of an
      indeterminate value or a write behind the buffer, after which C promises nothing. */
  datatype Outcome = Loaded(m: Option<State>) | Refused | Undefined

  /** The variables of meshing_load; a coordinate is None as long as nothing was read into it. */
  datatype Loading = Loading(m: Option<State>, dim: nat, coords: seq<Option<real>>, capacity: nat) {
    predicate Ok()
    {
      && (m.Some? ==> m.value.Indexed() && m.value.dim == dim == |coords|)
      && (m.None? ==> dim == 0)
    }
  }

  function Start(): Loading
  {
    Loading(None, 0, [], 8)
  }

  /** The coordinates of a node; those that cannot be read keep their last value. */
  function ScanCoords(t: seq<Item>, coords: seq<Option<real>>, i: nat): (r: (seq<Option<real>>, seq<Item>))
    requires i <= |coords|
    ensures |r.0| == |coords| && |r.1| <= |t|
    decreases |coords| - i
  {
    if i == |coords| then (coords, t)
    else
      var (x, u) := ScanReal(t);
      ScanCoords(u, if x.Some? then coords[i := x] else coords, i + 1)
  }

  /** At most count numbers. */
  function ScanNats(t: seq<Item>, count: nat): (r: (seq<nat>, seq<Item>))
    ensures |r.0| <= count && |r.1| <= |t|
    decreases count
  {
    if count == 0 then ([], t)
    else
      var (n, u) := ScanNat(t);
      if n.None? then ([], u)
      else
        var (ns, v) := ScanNats(u, count - 1);
        ([n.value] + ns, v)
  }

  predicate AllRead(coords: seq<Option<real>>)
  {
    forall i :: 0 <= i < |coords| ==> coords[i].Some?
  }

  function Values(coords: seq<Option<real>>): (v: seq<real>)
    requires AllRead(coords)
    ensures |v| == |coords|
  {
    seq(|coords|, i requires 0 <= i < |coords| => coords[i].value)
  }

  /** The record behind #!N. */
  function ReadNode(t: seq<Item>, l: Loading): (r: (Option<Loading>, seq<Item>))
    requires l.Ok() && l.m.Some?
    ensures |r.1| <= |t| && (r.0.Some? ==> r.0.value.Ok())
  {
    var (n, u) := ScanNat(t);
    var (coords, v) := ScanCoords(u, l.coords, 0);
    if n.None? || !AllRead(coords) then (None, v)
    else (Some(l.(m := Some(WithNode(l.m.value, Values(coords), n.value)), coords := coords)), v)
  }

  /** The record behind #!M; the buffer grows at most once. */
  function ReadMesh(t: seq<Item>, l: Loading): (r: (Option<Loading>, seq<Item>))
    requires l.Ok() && l.m.Some?
    ensures |r.1| <= |t| && (r.0.Some? ==> r.0.value.Ok())
  {
    var (n, u) := ScanNat(t);
    var (size, v) := ScanNat(u);
    if n.None? || size.None? then (None, v)
    else
      var nb := size.value % 65536;
      var capacity := if nb > l.capacity then 2 * l.capacity else l.capacity;
      var (users, w) := ScanNats(v, nb);
      if |users| > capacity then (None, w)
      else if |users| < nb then (Some(l.(capacity := capacity)), w)
      else (Some(l.(capacity := capacity, m := Some(WithMesh(l.m.value, users, n.value)))), w)
  }

  /** The loop of meshing_load on what is left of the text. */
  function Load(t: seq<Item>, l: Loading): Outcome
    requires l.Ok()
    decreases |t|
  {
    var (mark, u) := Scan(t, LineStart);
    match mark
    case None => Loaded(l.m)
    case Some(x) =>
      if x == Ch('D') then
        if l.dim != 0 then Refused
        else
          var (n, v) := ScanNat(u);
          var d := if n.Some? then n.value % 65536 else 0;
          Load(v, Loading(Some(Empty(d)), d, seq(d, _ => None), l.capacity))
      else if x == Ch('N') && l.m.Some? then
        var (l', v) := ReadNode(u, l);
        if l'.None? then Undefined else Load(v, l'.value)
      else if x == Ch('M') && l.dim != 0 then
        var (l', v) := ReadMesh(u, l);
        if l'.None? then Undefined else Load(v, l'.value)
      else if x == Ch('X') then Loaded(l.m)
      else Load(u, l)
  }

  /** The program's variables stand for l. */
  ghost predicate Represents(m: Store?, dim: nat, coords: seq<Option<real>>, capacity: nat, l: Loading)
    reads m
  {
    && l.Ok() && l.dim == dim && l.coords == coords && l.capacity == capacity
    && (m == null <==> l.m.None?)
    && (m != null ==> m.S() == l.m.value)
  }

  /** How the method ends. */
  ghost predicate EndsAs(m: Store?, refused: bool, undefined: bool, o: Outcome)
    reads m
  {
    match o
    case Loaded(None) => m == null && !refused && !undefined
    case Loaded(Some(s)) => m != null && m.S() == s && !refused && !undefined
    case Refused => m == null && refused && !undefined
    case Undefined => undefined
  }

  /** The coordinate loop. */
  method LoadCoords(f: Input, old_: seq<Option<real>>) returns (coords: seq<Option<real>>)
    requires f.Ok()
    modifies f
    ensures f.Ok() && (coords, f.Left()) == ScanCoords(old(f.Left()), old_, 0)
  {
    coords := old_;
    var i := 0;
    while i < |old_|
      invariant 0 <= i <= |old_| == |coords| && f.Ok()
      invariant ScanCoords(f.Left(), coords, i) == ScanCoords(old(f.Left()), old_, 0)
    {
      var x := f.ReadReal();
      if x.Some? {
        coords := coords[i := x];
      }
      i := i + 1;
    }
  }

  /** The loop over the nodes of a mesh, until one cannot be read. */
  method LoadUsers(f: Input, nb: nat) returns (users: seq<nat>)
    requires f.Ok()
    modifies f
    ensures f.Ok() && (users, f.Left()) == ScanNats(old(f.Left()), nb)
  {
    users := [];
    ghost var all := ScanNats(f.Left(), nb);
    var failed := false;
    while |users| < nb && !failed
      invariant |users| <= nb && f.Ok()
      invariant if failed then users == all.0 && f.Left() == all.1
                else users + ScanNats(f.Left(), nb - |users|).0 == all.0 && ScanNats(f.Left(), nb - |users|).1 == all.1
      decreases nb - |users|, !failed
    {
      ghost var left := f.Left();
      ghost var rest := ScanNats(left, nb - |users|);
      var n := f.ReadNat();
      if n.None? {
        failed := true;
        assert users + [] == users;
      } else {
        ghost var more := ScanNats(f.Left(), nb - |users| - 1);
        assert users + ([n.value] + more.0) == (users + [n.value]) + more.0;
        users := users + [n.value];
      }
    }
    assert users + [] == users;
  }

  /** meshing_load. */
  method MeshingLoad(f: Input) returns (meshing: Store?, refused: bool, undefined: bool)
    requires f.Ok()
    modifies f
    ensures meshing == null || fresh(meshing)
    ensures EndsAs(meshing, refused, undefined, Load(old(f.Left()), Start()))
  {
    meshing, refused, undefined := null, false, false;
    var dim, coords, capacity: nat := 0, [], 8;
    ghost var l := Start();
    var loop := true;
    while loop
      invariant f.Ok() && (meshing == null || fresh(meshing)) && !refused && !undefined
      invariant l.Ok()
      invariant loop ==> Represents(meshing, dim, coords, capacity, l)
                         && Load(f.Left(), l) == Load(old(f.Left()), Start())
      invariant !loop ==> EndsAs(meshing, refused, undefined, Load(old(f.Left()), Start()))
      decreases loop, |f.text| - f.pos
    {
      var mark := f.LoadHeader();
      if mark == None || mark.value == Ch('X') {
        loop := false;
      } else if mark.value == Ch('D') {
        if dim != 0 {
          return null, true, false;
        }
        var n := f.ReadNat();
        dim := if n.Some? then n.value % 65536 else 0;
        meshing := new Store(dim);
        coords := seq(dim, _ => None);
        l := Loading(Some(Empty(dim)), dim, coords, capacity);
      } else if mark.value == Ch('N') && meshing != null {
        ghost var left := f.Left();
        var n := f.ReadNat();
        coords := LoadCoords(f, coords);
        if n.None? || !AllRead(coords) {
          return meshing, false, true;
        }
        l := ReadNode(left, l).0.value;
        meshing.NodeAdd(Values(coords), n.value);
      } else if mark.value == Ch('M') && dim != 0 {
        ghost var left := f.Left();
        var n := f.ReadNat();
        var size := f.ReadNat();
        if n.None? || size.None? {
          return meshing, false, true;
        }
        var nb := size.value % 65536;
        if nb > capacity {
          capacity := 2 * capacity;
        }
        var users := LoadUsers(f, nb);
        if |users| > capacity {
          return meshing, false, true;
        }
        l := ReadMesh(left, l).0.value;
        if |users| == nb {
          var ok := meshing.MeshAdd(users, n.value);
        }
      }
    }
  }
}
