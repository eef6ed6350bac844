/** The profile of the system matrix: element.c, bc.c and problem_matrix of problem.c. */
module Assembly {
  import opened Numbering
  import opened NumberingFinish

  /** The unknowns, counted from 0, of an element at one of its nodes. */
  function AtNode(t: Tables, e: Element, n: nat): set<int>
  {
    set d: nat | d < DOF_MAX && d in e.dofs :: t.Value(Dof(n, d)) - 1
  }

  /** All unknowns of an element. */
  function Members(t: Tables, e: Element): set<int>
  {
    set k, i | 0 <= k < |e.nodes| && i in AtNode(t, e, e.nodes[k]) :: i
  }

  /** Two unknowns of one element: the assembled matrix has an entry there. */
  ghost predicate Coupled(t: Tables, es: seq<Element>, i: int, j: int)
  {
    exists e :: 0 <= e < |es| && i in Members(t, es[e]) && j in Members(t, es[e])
  }

  /** Row max(i,j) reaches column min(i,j). */
  predicate Covers(w: seq<nat>, i: int, j: int)
  {
    0 <= i < |w| && 0 <= j < |w| && (i <= j ==> w[j] >= j - i) && (j <= i ==> w[i] >= i - j)
  }

  ghost predicate AllCovered(w: seq<nat>, a: set<int>, b: set<int>)
  {
    forall i, j :: i in a && j in b ==> Covers(w, i, j)
  }

  /** The profile grows, by couplings of the set s only. */
  ghost predicate Grown(s: set<int>, w: seq<nat>, w': seq<nat>)
  {
    && |w| == |w'|
    && (forall k :: 0 <= k < |w| ==> w[k] <= w'[k])
    && (forall k :: 0 <= k < |w| && w'[k] != w[k] ==> w'[k] <= k && k in s && k - w'[k] in s)
  }

  lemma GrownMore(s: set<int>, w: seq<nat>, w': seq<nat>, w'': seq<nat>)
    requires Grown(s, w, w') && Grown(s, w', w'')
    ensures Grown(s, w, w'')
    ensures forall a, b :: AllCovered(w', a, b) ==> AllCovered(w'', a, b)
  {
  }

  ghost predicate Inside(s: set<int>, size: nat)
  {
    forall i :: i in s ==> 0 <= i < size
  }

  /** The innermost statement of element_matrix_profile. */
  method Reach(diag: array<nat>, i: nat, j: nat, ghost s: set<int>)
    requires i < diag.Length && j < diag.Length && i in s && j in s
    modifies diag
    ensures Covers(diag[..], i, j) && Grown(s, old(diag[..]), diag[..])
  {
    if i <= j {
      if diag[j] < j - i {
        diag[j] := j - i;
      }
    } else {
      if diag[i] < i - j {
        diag[i] := i - j;
      }
    }
  }

  /** The inner loop of element_matrix_profile: unknown i of one node against all unknowns of node n2. */
  method DofProfile(diag: array<nat>, t: Tables, e: Element, i: nat, n2: nat, ghost s: set<int>)
    requires AtNode(t, e, n2) <= s && i in s && Inside(s, diag.Length)
    modifies diag
    ensures Grown(s, old(diag[..]), diag[..]) && AllCovered(diag[..], {i}, AtNode(t, e, n2))
  {
    ghost var w := diag[..];
    var d2 := 0;
    while d2 < DOF_MAX
      invariant 0 <= d2 <= DOF_MAX && Grown(s, w, diag[..])
      invariant AllCovered(diag[..], {i}, set d: nat | d < d2 && d in e.dofs :: t.Value(Dof(n2, d)) - 1)
      modifies diag
    {
      if d2 in e.dofs {
        ghost var before := diag[..];
        var j := t.Value(Dof(n2, d2)) - 1;
        assert j in AtNode(t, e, n2);
        Reach(diag, i, j, s);
        GrownMore(s, w, before, diag[..]);
      }
      d2 := d2 + 1;
    }
  }

  /** element_matrix_profile. */
  method NodeProfile(diag: array<nat>, t: Tables, e: Element, n1: nat, n2: nat, ghost s: set<int>)
    requires AtNode(t, e, n1) <= s && AtNode(t, e, n2) <= s && Inside(s, diag.Length)
    modifies diag
    ensures Grown(s, old(diag[..]), diag[..]) && AllCovered(diag[..], AtNode(t, e, n1), AtNode(t, e, n2))
  {
    ghost var w := diag[..];
    var d1 := 0;
    while d1 < DOF_MAX
      invariant 0 <= d1 <= DOF_MAX && Grown(s, w, diag[..])
      invariant AllCovered(diag[..], set d: nat | d < d1 && d in e.dofs :: t.Value(Dof(n1, d)) - 1, AtNode(t, e, n2))
      modifies diag
    {
      if d1 in e.dofs {
        ghost var before := diag[..];
        var i := t.Value(Dof(n1, d1)) - 1;
        assert i in AtNode(t, e, n1);
        DofProfile(diag, t, e, i, n2, s);
        GrownMore(s, w, before, diag[..]);
      }
      d1 := d1 + 1;
    }
  }

  /** The pairs of nodes (a,b), b not after a, are done up to (p,q). */
  ghost predicate PairsCovered(t: Tables, e: Element, w: seq<nat>, p: nat, q: nat)
  {
    forall a, b :: 0 <= b <= a < |e.nodes| && (a < p || (a == p && b < q)) ==>
      AllCovered(w, AtNode(t, e, e.nodes[a]), AtNode(t, e, e.nodes[b]))
  }

  /** The loops over nodes of __fem_element_matrix_profile: each pair of nodes once. */
  method ElementProfile(diag: array<nat>, t: Tables, e: Element)
    requires Inside(Members(t, e), diag.Length)
    modifies diag
    ensures Grown(Members(t, e), old(diag[..]), diag[..]) && AllCovered(diag[..], Members(t, e), Members(t, e))
  {
    ghost var w, s := diag[..], Members(t, e);
    var p := 0;
    while p < |e.nodes|
      invariant 0 <= p <= |e.nodes| && PairsCovered(t, e, diag[..], p, 0) && Grown(s, w, diag[..])
      modifies diag
    {
      var q := 0;
      while q <= p
        invariant 0 <= q <= p + 1 && PairsCovered(t, e, diag[..], p, q) && Grown(s, w, diag[..])
        modifies diag
      {
        ghost var before := diag[..];
        NodesAreMembers(t, e, p);
        NodesAreMembers(t, e, q);
        NodeProfile(diag, t, e, e.nodes[p], e.nodes[q], s);
        GrownMore(s, w, before, diag[..]);
        GrownMore(s, before, before, diag[..]);
        q := q + 1;
      }
      p := p + 1;
    }
    MembersCovered(t, e, diag[..]);
  }

  lemma NodesAreMembers(t: Tables, e: Element, k: nat)
    requires k < |e.nodes|
    ensures AtNode(t, e, e.nodes[k]) <= Members(t, e)
  {
  }

  lemma MembersCovered(t: Tables, e: Element, w: seq<nat>)
    requires PairsCovered(t, e, w, |e.nodes|, 0)
    ensures AllCovered(w, Members(t, e), Members(t, e))
  {
    forall i, j | i in Members(t, e) && j in Members(t, e)
      ensures Covers(w, i, j)
    {
      var a := NodeOf(t, e, i);
      var b := NodeOf(t, e, j);
      PairCovers(t, e, w, a, b, i, j);
    }
  }

  lemma NodeOf(t: Tables, e: Element, i: int) returns (a: nat)
    requires i in Members(t, e)
    ensures a < |e.nodes| && i in AtNode(t, e, e.nodes[a])
  {
    a :| a < |e.nodes| && i in AtNode(t, e, e.nodes[a]);
  }

  lemma PairCovers(t: Tables, e: Element, w: seq<nat>, a: nat, b: nat, i: int, j: int)
    requires PairsCovered(t, e, w, |e.nodes|, 0) && a < |e.nodes| && b < |e.nodes|
    requires i in AtNode(t, e, e.nodes[a]) && j in AtNode(t, e, e.nodes[b])
    ensures Covers(w, i, j)
  {
    if b <= a {
      assert AllCovered(w, AtNode(t, e, e.nodes[a]), AtNode(t, e, e.nodes[b]));
    } else {
      assert AllCovered(w, AtNode(t, e, e.nodes[b]), AtNode(t, e, e.nodes[a]));
    }
  }

  /** The profile says no more than the couplings of the elements. */
  ghost predicate Tight(t: Tables, es: seq<Element>, w: seq<nat>)
  {
    forall k :: 0 <= k < |w| && w[k] != 0 ==> w[k] <= k && Coupled(t, es, k, k - w[k])
  }

  ghost predicate ElementsCovered(t: Tables, es: seq<Element>, w: seq<nat>)
  {
    forall e :: 0 <= e < |es| ==> AllCovered(w, Members(t, es[e]), Members(t, es[e]))
  }

  /** __fem_element_matrix_profile. */
  method ElementsProfile(diag: array<nat>, t: Tables, es: seq<Element>)
    requires forall e :: 0 <= e < |es| ==> Inside(Members(t, es[e]), diag.Length)
    requires forall k :: 0 <= k < diag.Length ==> diag[k] == 0
    modifies diag
    ensures ElementsCovered(t, es, diag[..]) && Tight(t, es, diag[..])
  {
    var e := 0;
    while e < |es|
      invariant 0 <= e <= |es| && ElementsCovered(t, es[..e], diag[..]) && Tight(t, es[..e], diag[..])
    {
      ghost var w := diag[..];
      ElementProfile(diag, t, es[e]);
      OneElementMore(t, es[..e], es[e], w, diag[..]);
      assert es[..e] + [es[e]] == es[..e + 1];
      e := e + 1;
    }
    assert es[..e] == es;
  }

  lemma OneElementMore(t: Tables, es: seq<Element>, e: Element, w: seq<nat>, w': seq<nat>)
    requires ElementsCovered(t, es, w) && Tight(t, es, w)
    requires Grown(Members(t, e), w, w') && AllCovered(w', Members(t, e), Members(t, e))
    ensures ElementsCovered(t, es + [e], w') && Tight(t, es + [e], w')
  {
    var all := es + [e];
    GrownMore(Members(t, e), w, w', w');
    forall k | 0 <= k < |all|
      ensures AllCovered(w', Members(t, all[k]), Members(t, all[k]))
    {
      if k < |es| {
        KeepsCover(Members(t, e), w, w', Members(t, es[k]));
      }
    }
    forall k | 0 <= k < |w'| && w'[k] != 0
      ensures w'[k] <= k && Coupled(t, all, k, k - w'[k])
    {
      if w'[k] == w[k] {
        var c :| 0 <= c < |es| && k in Members(t, es[c]) && k - w[k] in Members(t, es[c]);
        assert all[c] == es[c];
      } else {
        assert all[|es|] == e;
      }
    }
  }

  lemma KeepsCover(s: set<int>, w: seq<nat>, w': seq<nat>, a: set<int>)
    requires Grown(s, w, w') && AllCovered(w, a, a)
    ensures AllCovered(w', a, a)
  {
  }

  /** Indices, from 0, of the unknowns tied by a condition and of its multipliers. */
  function RowOf(t: Tables, p: Part): int { t.Value(Dof(p.n, p.d)) - 1 }

  function FirstRow(t: Tables, b: nat): int { t.Value(Lambda1(b)) - 1 }

  function SecondRow(t: Tables, b: nat): int { t.Value(Lambda2(b)) - 1 }

  /** The first multiplier lies before all unknowns of the condition, the second one after them, and nothing else
      uses the row of the second one. */
  ghost predicate ConditionFits(t: Tables, es: seq<Element>, bcs: seq<seq<Part>>, b: nat, size: nat)
    requires b < |bcs|
  {
    && 0 <= FirstRow(t, b) < SecondRow(t, b) < size
    && (forall i :: 0 <= i < |bcs[b]| ==> FirstRow(t, b) < RowOf(t, bcs[b][i]) < SecondRow(t, b))
    && (forall e :: 0 <= e < |es| ==> SecondRow(t, b) !in Members(t, es[e]))
    && (forall c :: 0 <= c < |bcs| ==> c == b || SecondRow(t, c) != SecondRow(t, b))
    && (forall c :: 0 <= c < |bcs| ==> forall i :: 0 <= i < |bcs[c]| ==> RowOf(t, bcs[c][i]) != SecondRow(t, b))
  }

  /** The entries that tie the unknowns of a condition to its multipliers are in the profile. */
  ghost predicate ConditionCovered(t: Tables, bc: seq<Part>, b: nat, w: seq<nat>)
  {
    && Covers(w, SecondRow(t, b), FirstRow(t, b))
    && forall i :: 0 <= i < |bc| ==>
         Covers(w, RowOf(t, bc[i]), FirstRow(t, b)) && Covers(w, SecondRow(t, b), RowOf(t, bc[i]))
  }

  /** What bc_matrix_profile leaves: only the rows of the condition grow. */
  ghost predicate GrownBy(t: Tables, bc: seq<Part>, b: nat, w: seq<nat>, w': seq<nat>)
  {
    && |w| == |w'|
    && (forall k :: 0 <= k < |w| ==> w[k] <= w'[k])
    && (forall k :: 0 <= k < |w| && w'[k] != w[k] ==>
          w'[k] <= k && (k == SecondRow(t, b) || exists i :: 0 <= i < |bc| && RowOf(t, bc[i]) == k))
  }

  /** bc_matrix_profile. */
  method ConditionProfile(diag: array<nat>, t: Tables, ghost es: seq<Element>, bcs: seq<seq<Part>>, b: nat)
    requires b < |bcs| && ConditionFits(t, es, bcs, b, diag.Length)
    requires diag[SecondRow(t, b)] == 0
    modifies diag
    ensures ConditionCovered(t, bcs[b], b, diag[..]) && GrownBy(t, bcs[b], b, old(diag[..]), diag[..])
  {
    var l1, l2 := t.Value(Lambda1(b)) - 1, t.Value(Lambda2(b)) - 1;
    ghost var w := diag[..];
    var i := 0;
    while i < |bcs[b]|
      invariant 0 <= i <= |bcs[b]| && diag[l2] == 0
      invariant forall k :: 0 <= k < diag.Length ==> w[k] <= diag[k]
      invariant forall k :: 0 <= k < diag.Length && diag[k] != w[k] ==>
                  diag[k] <= k && exists q :: 0 <= q < i && RowOf(t, bcs[b][q]) == k
      invariant forall q :: 0 <= q < i ==> Covers(diag[..], RowOf(t, bcs[b][q]), l1)
    {
      var row := t.Value(Dof(bcs[b][i].n, bcs[b][i].d)) - 1;
      assert row == RowOf(t, bcs[b][i]);
      ghost var before := diag[..];
      if row - l1 > diag[row] {
        diag[row] := row - l1;
      }
      forall q | 0 <= q < i
        ensures Covers(diag[..], RowOf(t, bcs[b][q]), l1)
      {
        assert Covers(before, RowOf(t, bcs[b][q]), l1);
      }
      i := i + 1;
    }
    ghost var before := diag[..];
    diag[l2] := l2 - l1;
    forall q | 0 <= q < |bcs[b]|
      ensures Covers(diag[..], RowOf(t, bcs[b][q]), l1) && Covers(diag[..], l2, RowOf(t, bcs[b][q]))
    {
      assert Covers(before, RowOf(t, bcs[b][q]), l1);
    }
  }
}
