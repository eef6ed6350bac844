/** What __fem_numbering_create promises: the unknowns are numbered from 1 without gap or repetition. */
module NumberingCreate {
  import opened Numbering
  import opened NumberingOrder
  import opened NumberingGoal
  import opened NumberingRun
  import opened NumberingFinish

  /** Number k belongs to order[k-1], every unknown is in the order, and nothing else is. */
  ghost predicate Bijection(m: Model, t: Tables, order: seq<Unknown>)
    requires m.Ok()
  {
    && (forall k :: 0 <= k < |order| ==> m.Genuine(order[k]) && t.Value(order[k]) == k + 1)
    && (forall u :: m.Genuine(u) ==> t.Placed(order, u))
  }

  ghost predicate Taken(m: Model, t: Tables, k: nat)
    requires m.Ok()
  {
    exists u :: m.Genuine(u) && t.Value(u) == k
  }

  /** Two unknowns with one number are the same, and every number up to the last is taken. */
  lemma BijectionMeans(m: Model, t: Tables, order: seq<Unknown>)
    requires m.Ok() && Bijection(m, t, order)
    ensures forall u, v :: m.Genuine(u) && m.Genuine(v) && t.Value(u) == t.Value(v) ==> u == v
    ensures forall k :: 1 <= k <= |order| ==> Taken(m, t, k)
    ensures forall u :: m.Genuine(u) ==> 1 <= t.Value(u) <= |order|
  {
    forall k | 1 <= k <= |order|
      ensures Taken(m, t, k)
    {
      assert m.Genuine(order[k - 1]) && t.Value(order[k - 1]) == k;
    }
    forall u, v | m.Genuine(u) && m.Genuine(v) && t.Value(u) == t.Value(v)
      ensures u == v
    {
      assert t.Placed(order, u) && t.Placed(order, v);
    }
  }

  /** A sequence of n different numbers below n contains all of them. */
  lemma {:induction false} Pigeonhole(s: seq<nat>, b: nat)
    requires (forall j :: 0 <= j < |s| ==> s[j] < |s|) && (forall i, j :: 0 <= i < j < |s| ==> s[i] != s[j])
    requires b < |s|
    ensures b in s
  {
    if b !in s {
      var used := set j | 0 <= j < |s| :: s[j];
      DistinctCount(s);
      SubsetCount(used, Below(|s|) - {b});
    }
  }

  function Below(n: nat): (r: set<nat>)
    ensures |r| == n && forall i :: i in r <==> 0 <= i < n
  {
    if n == 0 then {} else Below(n - 1) + {n - 1}
  }

  lemma {:induction false} DistinctCount(s: seq<nat>)
    requires forall i, j :: 0 <= i < j < |s| ==> s[i] != s[j]
    ensures |set j | 0 <= j < |s| :: s[j]| == |s|
  {
    if s != [] {
      var r := s[..|s| - 1];
      DistinctCount(r);
      assert forall j :: 0 <= j < |r| ==> r[j] == s[j];
      assert (set j | 0 <= j < |s| :: s[j]) == (set j | 0 <= j < |r| :: r[j]) + {s[|s| - 1]};
    }
  }

  lemma {:induction false} SubsetCount(a: set<nat>, b: set<nat>)
    requires a <= b
    ensures |a| <= |b|
  {
    if a != {} {
      var x :| x in a;
      SubsetCount(a - {x}, b - {x});
    }
  }

  /** Every condition has both multipliers. */
  predicate AllGiven(t: Tables)
  {
    && (forall b :: 0 <= b < |t.lambda1| ==> t.lambda1[b] != 0)
    && (forall b :: 0 <= b < |t.lambda2| ==> t.lambda2[b] != 0)
  }

  lemma AllGivenIff(m: Model, t: Tables, order: seq<Unknown>, w: Work)
    requires Inv(m, t, order, w)
    ensures AllGiven(t) <==> w.l1 == w.l2 == |w.nb|
  {
    forall b: nat | b < |m.bcs|
      ensures b in w.nb
    {
      Pigeonhole(w.nb, b);
    }
    if w.l2 < |w.nb| {
      assert t.Value(Lambda2(w.nb[w.l2])) == 0;
    } else {
      forall b: nat | b < |m.bcs|
        ensures t.lambda1[b] != 0 && t.lambda2[b] != 0
      {
        Pigeonhole(w.nb, b);
        var j :| 0 <= j < |w.nb| && w.nb[j] == b;
        assert t.Placed(order, Lambda1(b)) && t.Placed(order, Lambda2(b));
      }
    }
  }

  lemma Complete(m: Model, t: Tables, order: seq<Unknown>, w: Work)
    requires Inv(m, t, order, w) && w.pos == Rank(m.nodes, 0) && w.l1 == w.l2 == |w.nb|
    ensures Bijection(m, t, order)
  {
    forall u | m.Genuine(u)
      ensures t.Placed(order, u)
    {
      match u {
        case Dof(n, d) => assert Rank(n, d) < w.pos;
        case Lambda1(b) => Pigeonhole(w.nb, b);
        case Lambda2(b) => Pigeonhole(w.nb, b);
      }
    }
  }

  /** lambda1(b) comes before all unknowns of the condition and lambda2(b) after them. */
  ghost predicate Enclosed(m: Model, t: Tables)
    requires m.Ok()
  {
    forall b :: 0 <= b < |m.bcs| ==>
      SecondAfter(t, m.bcs[b], b, Rank(m.nodes, 0)) && FirstBefore(t, m.bcs[b], b, Rank(m.nodes, 0))
  }

  lemma AllEnclosed(m: Model, t: Tables, order: seq<Unknown>, w: Work)
    requires OrderInv(m, t, order, w) && Tied(m) && w.pos == Rank(m.nodes, 0) && w.l1 == w.l2 == |w.nb|
    ensures Enclosed(m, t)
  {
    forall b | 0 <= b < |m.bcs|
      ensures SecondAfter(t, m.bcs[b], b, w.pos) && FirstBefore(t, m.bcs[b], b, w.pos)
    {
      Pigeonhole(w.nb, b);
      var j :| 0 <= j < |w.nb| && w.nb[j] == b;
      assert SecondAfter(t, m.bcs[w.nb[j]], w.nb[j], w.pos) && FirstBefore(t, m.bcs[w.nb[j]], w.nb[j], w.pos);
    }
  }

  /** numbering_finish_lambda: how many multipliers are missing, as far as it counts them. */
  method FinishLambda(num: Tabled, bcs: seq<seq<Part>>) returns (error: nat)
    requires num.Shape(|bcs|)
    ensures error == 0 <==> AllGiven(num.T())
  {
    error := 0;
    var b := 0;
    while b < |bcs|
      invariant 0 <= b <= |bcs|
      invariant error == 0 <==> forall k :: 0 <= k < b ==> num.lambda1[k] != 0 && num.lambda2[k] != 0
    {
      if num.lambda1[b] == 0 {
        error := error + 1;
        if |bcs[b]| >= 2 && num.lambda2[b] == 0 {
          error := error + 1;
        }
      } else if num.lambda2[b] == 0 {
        error := error + 1;
      }
      b := b + 1;
    }
  }

  /** The tables before numbering_finish. */
  method Prepare(nodes: nat, es: seq<Element>, bcs: seq<seq<Part>>, sorted: seq<nat>)
    returns (num: Tabled, mult: Multipliers)
    requires InMesh(nodes, es) && ModelOf(nodes, es, bcs).Ok() && IsSorted(bcs, sorted)
    ensures mult.goal == GoalOf(ModelOf(nodes, es, bcs), sorted)
    ensures mult.num == num && mult.State(ModelOf(nodes, es, bcs), [], 0) && mult.nbL1 == mult.nbL2 == 0
    ensures fresh(num) && fresh(mult) && fresh(mult.nb) && fresh(num.row) && fresh(num.lambda1) && fresh(num.lambda2)
  {
    num := new Tabled(nodes, |bcs|);
    Update(num, es, |bcs|);
    ghost var m := ModelOf(nodes, es, bcs);
    assert forall d :: 0 <= d < DOF_MAX ==> TableOf(num, es, d) && m.has[d] == Carries(es, d);
    assert num.has[..] == m.has;
    forall d | 0 <= d < DOF_MAX && m.has[d]
      ensures num.T().row[d][nodes] == 1
      ensures forall n :: 0 <= n < nodes ==> num.T().row[d][n] == if m.used[d][n] then 1 else 0
    {
      assert TableOf(num, es, d);
      assert num.T().row[d] == num.Table(d);
      assert forall n: nat :: n < nodes ==> m.used[d][n] == Uses(es, n, d);
    }
    Starts(m, num.T(), sorted);
    GoalStarts(m, num.T(), sorted);
    mult := new Multipliers(num, bcs, sorted, GoalOf(m, sorted));
    assert mult.W(0) == Work(0, sorted, 0, 0);
    assert Agrees(mult.kept, mult.goal, m, num.T(), [], mult.W(0));
  }

  /** How the numbering of conditions sorted this way will end. */
  ghost function GoalOf(m: Model, sorted: seq<nat>): Goal
    requires m.Ok() && AreConditions(m, sorted)
  {
    Goal(Feasible(m, sorted, 0), Leads(m, sorted, 0))
  }

  /** Every condition gets both multipliers: told from the model and the order of the conditions. */
  ghost predicate Accepted(m: Model, goal: Goal)
    requires m.Ok()
  {
    goal.feasible && AllClose(m, goal.leads)
  }

  /** What holds once every node is visited. */
  lemma Finished(goal: Goal, m: Model, t: Tables, order: seq<Unknown>, w: Work)
    requires GoalInv(goal, m, t, order, w) && w.pos == Rank(m.nodes, 0)
    requires forall j :: w.l2 <= j < w.l1 ==> Waiting(m, t, m.bcs[w.nb[j]])
    ensures AllGiven(t) ==> Bijection(m, t, order) && w.l1 == w.l2 == |m.bcs|
    ensures Tied(m) ==> AllGiven(t) && Enclosed(m, t)
    ensures AllGiven(t) <==> Accepted(m, goal)
    ensures AllGiven(t) ==> forall b :: 0 <= b < |m.bcs| ==> m.bcs[b] != []
  {
    AllGivenIff(m, t, order, w);
    FeasibleAtEnd(m, w.nb[w.l1..]);
    SecondsIff(goal, m, t, order, w);
    if Tied(m) {
      NothingWaits(m, t, order, w);
      AllEnclosed(m, t, order, w);
    }
    if AllGiven(t) {
      Complete(m, t, order, w);
      forall b | 0 <= b < |m.bcs|
        ensures m.bcs[b] != []
      {
        Pigeonhole(w.nb, b);
      }
    }
  }

  /** When all first multipliers are given, all second ones are if and only if no condition goes on waiting. */
  lemma SecondsIff(goal: Goal, m: Model, t: Tables, order: seq<Unknown>, w: Work)
    requires GoalInv(goal, m, t, order, w) && w.pos == Rank(m.nodes, 0)
    requires forall j :: w.l2 <= j < w.l1 ==> Waiting(m, t, m.bcs[w.nb[j]])
    ensures w.l1 == |w.nb| ==> (w.l2 == w.l1 <==> AllClose(m, goal.leads))
  {
    forall b | 0 <= b < |m.bcs|
      ensures b in w.nb
      ensures !Waiting(m, t, m.bcs[b]) <==> NoneMissing(m, m.bcs[b]) && !(goal.leads && NamesFirst(m, m.bcs[b]))
    {
      Pigeonhole(w.nb, b);
      WaitsIff(goal, m, t, order, w, b);
    }
    if w.l1 == |w.nb| && w.l2 < w.l1 {
      assert Waiting(m, t, m.bcs[w.nb[w.l2]]);
    }
  }

  /** With a table for every part, and no condition empty, that is the case if and only if all nodes exist. */
  lemma AcceptedWithTables(m: Model, t: Tables, order: seq<Unknown>, w: Work, goal: Goal)
    requires GoalInv(goal, m, t, order, w) && w.pos == Rank(m.nodes, 0) && HasTables(m)
    requires forall j :: w.l2 <= j < w.l1 ==> Waiting(m, t, m.bcs[w.nb[j]])
    ensures Accepted(m, goal) <==> forall b :: 0 <= b < |m.bcs| ==> InNodes(m, m.bcs[b])
  {
    Finished(goal, m, t, order, w);
    if Accepted(m, goal) {
      assert forall b :: 0 <= b < |m.bcs| ==> NoneMissing(m, m.bcs[b]);
    }
  }

  /** Two nodes and a table for degree of freedom 1, but not for 0. The condition that names both is sorted first, is
      met at the second node only, and the condition on the first node is never served. */
  lemma BlockedByMissingTable(m: Model, sorted: seq<nat>)
    requires m.Ok() && m.nodes == 2 && !m.has[0] && m.has[1] && m.bcs == [[Part(0, 0), Part(1, 1)], [Part(0, 1)]]
    requires sorted == [0, 1]
    ensures IsSorted(m.bcs, sorted) && !Accepted(m, GoalOf(m, sorted))
    ensures forall b :: 0 <= b < |m.bcs| ==> m.bcs[b] != [] && NoneMissing(m, m.bcs[b])
  {
    MinRankOfTwo(m.bcs[0]);
    MinRankOfOne(m.bcs[1]);
    OutOfOrder(m, sorted, Rank(1, 1));
  }

  lemma MinRankOfTwo(bc: seq<Part>)
    requires |bc| == 2
    ensures MinRank(bc) <= RankOf(bc[0])
  {
  }

  lemma MinRankOfOne(bc: seq<Part>)
    requires |bc| == 1
    ensures MinRank(bc) == RankOf(bc[0])
  {
  }

  /** The entries of the tables that are not numbers of unknowns. */
  ghost predicate OtherEntries(m: Model, t: Tables)
    requires m.Ok()
  {
    forall n: nat, d: nat :: d < DOF_MAX && n <= m.nodes && m.has[d] && !m.Active(n, d) ==>
      t.Value(Dof(n, d)) == if n == m.nodes then 1 else 0
  }

  /** numbering_finish. */
  method Finish(mult: Multipliers, ghost m: Model) returns (error: nat, ghost order: seq<Unknown>)
    requires mult.State(m, [], 0) && mult.nbL1 == mult.nbL2 == 0
    modifies mult`nbL1, mult`nbL2, mult.nb, mult.num.row, mult.num.lambda1, mult.num.lambda2, mult.num`dof
    ensures mult.State(m, order, Rank(m.nodes, 0))
    ensures error == 0 <==> AllGiven(mult.num.T())
    ensures error == 0 ==> Bijection(m, mult.num.T(), order) && |order| == mult.num.dof + 2 * |m.bcs|
    ensures Tied(m) ==> Enclosed(m, mult.num.T())
    ensures error == 0 <==> Accepted(m, mult.goal)
    ensures error == 0 ==> forall b :: 0 <= b < |m.bcs| ==> m.bcs[b] != []
    ensures HasTables(m) ==> (error == 0 <==> forall b :: 0 <= b < |m.bcs| ==> InNodes(m, m.bcs[b]))
  {
    var total;
    total, order := NumberAll(mult, m);
    mult.num.dof := total;
    assert Agrees(mult.kept, mult.goal, m, mult.num.T(), order, mult.W(Rank(m.nodes, 0)));
    Finished(mult.goal, m, mult.num.T(), order, mult.W(Rank(m.nodes, 0)));
    if HasTables(m) {
      AcceptedWithTables(m, mult.num.T(), order, mult.W(Rank(m.nodes, 0)), mult.goal);
    }
    error := 0;
    if |mult.bcs| > 0 {
      error := FinishLambda(mult.num, mult.bcs);
    }
  }

  lemma OthersKept(m: Model, t: Tables, order: seq<Unknown>, w: Work)
    requires OrderInv(m, t, order, w)
    ensures OtherEntries(m, t) && t.Sized(m.nodes, |m.bcs|) && DofsRise(order)
  {
  }

  /** __fem_numbering_create; `sorted` is the order qsort leaves the conditions in. */
  method Create(nodes: nat, es: seq<Element>, bcs: seq<seq<Part>>, sorted: seq<nat>)
    returns (num: Tabled, error: nat, ghost order: seq<Unknown>)
    requires InMesh(nodes, es) && ModelOf(nodes, es, bcs).Ok() && IsSorted(bcs, sorted)
    ensures num.Shape(|bcs|) && num.nodes == nodes && num.has[..] == ModelOf(nodes, es, bcs).has
    ensures error == 0 <==> AllGiven(num.T())
    ensures error == 0 ==> Bijection(ModelOf(nodes, es, bcs), num.T(), order) && |order| == num.dof + 2 * |bcs|
    ensures Tied(ModelOf(nodes, es, bcs)) ==> Enclosed(ModelOf(nodes, es, bcs), num.T())
    ensures error == 0 <==> Accepted(ModelOf(nodes, es, bcs), GoalOf(ModelOf(nodes, es, bcs), sorted))
    ensures error == 0 ==> forall b :: 0 <= b < |bcs| ==> bcs[b] != []
    ensures HasTables(ModelOf(nodes, es, bcs)) ==>
              (error == 0 <==> forall b :: 0 <= b < |bcs| ==> InNodes(ModelOf(nodes, es, bcs), bcs[b]))
    ensures OtherEntries(ModelOf(nodes, es, bcs), num.T()) && num.T().Sized(nodes, |bcs|) && DofsRise(order)
  {
    ghost var m := ModelOf(nodes, es, bcs);
    var mult;
    num, mult := Prepare(nodes, es, bcs, sorted);
    error, order := Finish(mult, m);
    assert Agrees(mult.kept, mult.goal, m, num.T(), order, mult.W(Rank(nodes, 0)));
    OthersKept(m, num.T(), order, mult.W(Rank(nodes, 0)));
  }
}
