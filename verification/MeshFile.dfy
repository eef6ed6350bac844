/** Text files of meshings and groups: the scanner of __fem_meshing_load_header and the numbers behind it. */
module MeshFile {
  import opened Options

  /** A text: characters, and numbers whose printed form reads back as the same number. */
  datatype Item = Ch(c: char) | Num(n: nat) | Real(r: real)

  function Text(s: string): (t: seq<Item>)
    ensures |t| == |s| && forall i :: 0 <= i < |s| ==> t[i] == Ch(s[i])
  {
    seq(|s|, i requires 0 <= i < |s| => Ch(s[i]))
  }

  /** Where the scanner is: within a line, at the start of a line, or behind a # at the start of a line. */
  datatype Status = Within | LineStart | Hash

  /** The scanner on what is left of the text: the item behind the next mark, and what is left behind that. */
  function Scan(t: seq<Item>, status: Status): (r: (Option<Item>, seq<Item>))
    ensures |r.1| <= |t| && (r.0.Some? ==> |r.1| < |t|)
    ensures r.1 == t[|t| - |r.1|..]
  {
    if t == [] then (None, [])
    else if t[0] == Ch('\n') then Scan(t[1..], LineStart)
    else if t[0] == Ch('#') then Scan(t[1..], if status == LineStart then Hash else Within)
    else if t[0] == Ch('!') && status == Hash then
      if |t| == 1 then (None, []) else (Some(t[1]), t[2..])
    else Scan(t[1..], Within)
  }

  /** A mark: #! at the start of a line, or where the scan begins. */
  predicate IsMark(t: seq<Item>, i: nat)
  {
    i + 1 < |t| && t[i] == Ch('#') && t[i + 1] == Ch('!') && (i == 0 || t[i - 1] == Ch('\n'))
  }

  /** The marks of what is left, depending on what came before it. */
  predicate MarkFrom(t: seq<Item>, status: Status, i: int)
  {
    if i == -1 then status == Hash && |t| > 0 && t[0] == Ch('!')
    else if i == 0 then status == LineStart && |t| > 1 && t[0] == Ch('#') && t[1] == Ch('!')
    else i > 0 && IsMark(t, i)
  }

  lemma {:induction false} ScanFinds(t: seq<Item>, status: Status, i: int)
    requires MarkFrom(t, status, i) && forall j :: -1 <= j < i ==> !MarkFrom(t, status, j)
    ensures Scan(t, status) == if |t| == i + 2 then (None, []) else (Some(t[i + 2]), t[i + 3..])
    decreases |t|
  {
    if i >= 0 {
      var next := if t[0] == Ch('\n') then LineStart
                  else if t[0] == Ch('#') && status == LineStart then Hash else Within;
      assert !MarkFrom(t, status, -1);
      forall j | -1 <= j
        ensures MarkFrom(t[1..], next, j) <==> MarkFrom(t, status, j + 1)
      {
      }
      ScanFinds(t[1..], next, i - 1);
    }
  }

  lemma {:induction false} ScanFindsNothing(t: seq<Item>, status: Status)
    requires forall j :: -1 <= j ==> !MarkFrom(t, status, j)
    ensures Scan(t, status) == (None, [])
    decreases |t|
  {
    if t != [] {
      var next := if t[0] == Ch('\n') then LineStart
                  else if t[0] == Ch('#') && status == LineStart then Hash else Within;
      assert !MarkFrom(t, status, -1);
      forall j | -1 <= j
        ensures MarkFrom(t[1..], next, j) <==> MarkFrom(t, status, j + 1)
      {
      }
      ScanFindsNothing(t[1..], next);
    }
  }

  /** The scanner stops behind the first mark, whatever comments, numbers and lines lie before it. */
  lemma ScanIsFirstMark(t: seq<Item>)
    ensures (forall i: nat :: !IsMark(t, i)) ==> Scan(t, LineStart) == (None, [])
    ensures forall i: nat :: IsMark(t, i) && (forall j: nat :: j < i ==> !IsMark(t, j)) ==>
              Scan(t, LineStart) == if |t| == i + 2 then (None, []) else (Some(t[i + 2]), t[i + 3..])
  {
    forall j | j >= -1
      ensures MarkFrom(t, LineStart, j) <==> j >= 0 && IsMark(t, j)
    {
    }
    if forall i: nat :: !IsMark(t, i) {
      ScanFindsNothing(t, LineStart);
    }
    forall i: nat | IsMark(t, i) && forall j: nat :: j < i ==> !IsMark(t, j)
      ensures Scan(t, LineStart) == if |t| == i + 2 then (None, []) else (Some(t[i + 2]), t[i + 3..])
    {
      ScanFinds(t, LineStart, i);
    }
  }

  predicate IsSpace(x: Item)
  {
    x == Ch(' ') || x == Ch('\n') || x == Ch('\t')
  }

  function Skip(t: seq<Item>): (r: seq<Item>)
    ensures |r| <= |t|
  {
    if t != [] && IsSpace(t[0]) then Skip(t[1..]) else t
  }

  /** fscanf of one unsigned number. */
  function ScanNat(t: seq<Item>): (r: (Option<nat>, seq<Item>))
    ensures |r.1| <= |t| && (r.0.Some? ==> |r.1| < |t|)
  {
    var u := Skip(t);
    if u != [] && u[0].Num? then (Some(u[0].n), u[1..]) else (None, u)
  }

  /** fscanf of one floating-point number. */
  function ScanReal(t: seq<Item>): (r: (Option<real>, seq<Item>))
    ensures |r.1| <= |t| && (r.0.Some? ==> |r.1| < |t|)
  {
    var u := Skip(t);
    if u != [] && u[0].Real? then (Some(u[0].r), u[1..])
    else if u != [] && u[0].Num? then (Some(u[0].n as real), u[1..])
    else (None, u)
  }

  /** An open file. */
  class Input {
    const text: seq<Item>
    var pos: nat

    constructor (text: seq<Item>)
      ensures this.text == text && Ok() && Left() == text
    {
      this.text, pos := text, 0;
    }

    ghost predicate Ok()
      reads this
    {
      pos <= |text|
    }

    ghost function Left(): seq<Item>
      requires Ok()
      reads this
    {
      text[pos..]
    }

    /** fgetc. */
    method GetC() returns (b: Option<Item>)
      requires Ok()
      modifies this
      ensures Ok()
      ensures b == (if old(Left()) == [] then None else Some(old(Left())[0]))
      ensures Left() == if old(Left()) == [] then [] else old(Left())[1..]
    {
      if pos == |text| {
        b := None;
      } else {
        b := Some(text[pos]);
        pos := pos + 1;
      }
    }

    /** __fem_meshing_load_header. */
    method LoadHeader() returns (ret: Option<Item>)
      requires Ok()
      modifies this
      ensures Ok() && (ret, Left()) == Scan(old(Left()), LineStart)
    {
      ret := None;
      var status := LineStart;
      var done := false;
      while !done
        invariant Ok()
        invariant if done then (ret, Left()) == Scan(old(Left()), LineStart)
                  else Scan(Left(), status) == Scan(old(Left()), LineStart)
        decreases !done, |text| - pos
      {
        ghost var left := Left();
        var b := GetC();
        if b == None {
          ret, done := None, true;
        } else if b.value == Ch('\n') {
          status := LineStart;
        } else if b.value == Ch('#') {
          status := if status == LineStart then Hash else Within;
        } else if b.value == Ch('!') {
          if status == Hash {
            ret := GetC();
            done := true;
          } else {
            status := Within;
          }
        } else {
          status := Within;
        }
      }
    }

    method SkipSpaces()
      requires Ok()
      modifies this
      ensures Ok() && Left() == Skip(old(Left())) && pos >= old(pos)
    {
      while pos < |text| && IsSpace(text[pos])
        invariant Ok() && Skip(Left()) == Skip(old(Left())) && pos >= old(pos)
      {
        pos := pos + 1;
      }
    }

    method ReadNat() returns (n: Option<nat>)
      requires Ok()
      modifies this
      ensures Ok() && (n, Left()) == ScanNat(old(Left()))
    {
      SkipSpaces();
      n := None;
      if pos < |text| && text[pos].Num? {
        n := Some(text[pos].n);
        pos := pos + 1;
      }
    }

    method ReadReal() returns (r: Option<real>)
      requires Ok()
      modifies this
      ensures Ok() && (r, Left()) == ScanReal(old(Left()))
    {
      SkipSpaces();
      r := None;
      if pos < |text| && text[pos].Real? {
        r := Some(text[pos].r);
        pos := pos + 1;
      } else if pos < |text| && text[pos].Num? {
        r := Some(text[pos].n as real);
        pos := pos + 1;
      }
    }
  }
}
