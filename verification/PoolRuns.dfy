/** What holds of every run of the pool: order of execution, completion, absence of deadlock, termination. */
module PoolRuns {
  import opened Pool
  import opened PoolInvariant

  /** es leads from s to s'. */
  ghost predicate IsRun<T(!new)>(s: PoolState<T>, es: seq<Step<T>>, s': PoolState<T>)
    decreases |es|
  {
    if es == [] then s == s'
    else |s.slots| > 0 && Enabled(s, es[0]) && IsRun(Apply(s, es[0]), es[1..], s')
  }

  lemma {:induction false} RunKeepsInv<T(!new)>(s: PoolState<T>, es: seq<Step<T>>, s': PoolState<T>)
    requires Inv(s) && IsRun(s, es, s')
    ensures Inv(s')
    decreases |es|
  {
    if es != [] {
      KeepsInv(s, es[0]);
      RunKeepsInv(Apply(s, es[0]), es[1..], s');
    }
  }

  /** The task a step hands to a worker, and the one it puts in the queue. */
  ghost function Picked<T(!new)>(s: PoolState<T>, e: Step<T>): seq<T>
    requires |s.slots| > 0 && Enabled(s, e)
  {
    if e.Take? && Apply(s, e).workers[e.w].OwePop? then [Apply(s, e).workers[e.w].task] else []
  }

  ghost function Put<T(!new)>(s: PoolState<T>, e: Step<T>): seq<T>
    requires |s.slots| > 0 && Enabled(s, e)
  {
    if e.Push? && Apply(s, e).client.OwePush? then [s.client.task] else []
  }

  /** The tasks workers pick up along a run, in the order in which they do. */
  ghost function Started<T(!new)>(s: PoolState<T>, es: seq<Step<T>>): seq<T>
    decreases |es|
  {
    if es == [] || |s.slots| == 0 || !Enabled(s, es[0]) then []
    else Picked(s, es[0]) + Started(Apply(s, es[0]), es[1..])
  }

  /** The tasks the client puts in the queue along a run. */
  ghost function Queued<T(!new)>(s: PoolState<T>, es: seq<Step<T>>): seq<T>
    decreases |es|
  {
    if es == [] || |s.slots| == 0 || !Enabled(s, es[0]) then []
    else Put(s, es[0]) + Queued(Apply(s, es[0]), es[1..])
  }

  lemma StepPicks<T(!new)>(s: PoolState<T>, e: Step<T>)
    requires Inv(s) && Enabled(s, e)
    ensures var s' := Apply(s, e);
            && s'.submitted == s.submitted + Put(s, e)
            && s'.started == s.started + |Picked(s, e)|
            && s'.started <= |s'.submitted|
            && s'.submitted[s.started..s'.started] == Picked(s, e)
  {
    var s' := Apply(s, e);
    KeepsInv(s, e);
    if e.Take? && s'.workers[e.w].OwePop? {
      assert Holds(s'.workers[e.w]);
      assert s'.workers[e.w].task == s'.submitted[s.started];
    }
  }

  /** Two pieces of history, one after the other. */
  lemma JoinHistory<T>(u0: seq<T>, u1: seq<T>, u2: seq<T>, a0: nat, a1: nat, a2: nat,
                       q: seq<T>, qs: seq<T>, p: seq<T>, ps: seq<T>)
    requires u1 == u0 + q && u2 == u1 + qs && a0 <= a1 <= |u1| && a1 <= a2 <= |u2|
    requires u1[a0..a1] == p && u2[a1..a2] == ps
    ensures u2 == u0 + (q + qs) && u2[a0..a2] == p + ps
  {
    assert u2[a0..a1] == u1[a0..a1];
  }

  lemma {:induction false} RunStarts<T(!new)>(s: PoolState<T>, es: seq<Step<T>>, s': PoolState<T>)
    requires Inv(s) && IsRun(s, es, s')
    ensures s.started <= s'.started <= |s'.submitted|
    ensures s'.submitted[s.started..s'.started] == Started(s, es)
    ensures s'.submitted == s.submitted + Queued(s, es)
    decreases |es|
  {
    if es != [] {
      var s1 := Apply(s, es[0]);
      StepPicks(s, es[0]);
      KeepsInv(s, es[0]);
      RunStarts(s1, es[1..], s');
      JoinHistory(s.submitted, s1.submitted, s'.submitted, s.started, s1.started, s'.started,
                  Put(s, es[0]), Queued(s1, es[1..]), Picked(s, es[0]), Started(s1, es[1..]));
    }
  }

  /** The pending tasks, as the ring stores them from its head on. */
  function Ring<T>(s: PoolState<T>): seq<T>
  {
    seq(if |s.slots| == 0 then 0 else s.pending,
        q requires 0 <= q && |s.slots| > 0 => s.slots[Cell(s.head, q, |s.slots|)])
  }

  lemma RingIsQueue<T>(s: PoolState<T>)
    requires |s.slots| > 0 && RingInv(s)
    ensures s.submitted[s.started..] == Ring(s)
  {
    forall q | 0 <= q < s.pending
      ensures s.submitted[s.started..][q] == Ring(s)[q]
    {
      RingWrap(s.head, q, |s.slots|);
    }
  }

  /** Every task is pending, running or done, within the limits the pool was created with. */
  lemma Balance<T>(s: PoolState<T>)
    requires Inv(s) && s.alive
    ensures |s.submitted| == |s.done| + s.running + s.pending
    ensures 0 <= s.running <= |s.workers| && s.pending <= |s.slots|
  {
    HoldersBound(s.workers);
  }

  lemma CutAt<T>(u: seq<T>, k: nat)
    requires k <= |u|
    ensures u == u[0..k] + u[k..]
  {
  }

  /** In every run of the pool, tasks are picked up exactly in the order of submission, each once, the number
      submitted is the number finished plus running plus pending, and the ring holds what is pending. */
  lemma StartedInOrder<T(!new)>(s: PoolState<T>, es: seq<Step<T>>, s': PoolState<T>)
    requires Initial(s) && IsRun(s, es, s') && s'.alive
    ensures |Queued(s, es)| == |s'.done| + s'.running + s'.pending
    ensures 0 <= s'.running <= |s'.workers| && s'.pending <= |s'.slots|
    ensures Queued(s, es) == Started(s, es) + Ring(s')
  {
    InitialInv(s);
    RunStarts(s, es, s');
    RunKeepsInv(s, es, s');
    Balance(s');
    RingIsQueue(s');
    CutAt(s'.submitted, s'.started);
  }

  /** haplo_pool_wait lets its caller go only when every task submitted so far has finished. */
  lemma WaitMeansDone<T(!new)>(s: PoolState<T>)
    requires Inv(s) && Enabled(s, CheckFinish) && !Apply(s, CheckFinish).client.WaitFinish?
    ensures forall k :: 0 <= k < |s.submitted| ==> k in s.done
  {
    forall k | 0 <= k < |s.submitted|
      ensures k in s.done
    {
      if k !in s.done {
        var w :| 0 <= w < |s.workers| && Holds(s.workers[w]) && s.workers[w].id == k;
        HoldersOf(s.workers, w);
      }
    }
  }

  /** The step a worker that neither waits nor has ended can take. */
  function StepOf<T>(s: PoolState<T>, w: nat): Step<T>
    requires At(s, w)
  {
    match s.workers[w]
    case Top => TestAlive(w)
    case OwePop(_, _) => SignalPop(w)
    case Run(_, _) => Finish(w)
    case OweFinish => SignalFinish(w)
    case _ => Take(w)
  }

  lemma StepOfEnabled<T(!new)>(s: PoolState<T>, w: nat)
    requires At(s, w) && !s.workers[w].WaitPush? && !s.workers[w].Exited?
    ensures Enabled(s, StepOf(s, w)) && !IsCall(StepOf(s, w)) && !IsSpurious(StepOf(s, w))
  {
  }

  /** A waiting client is never forgotten: some worker can go on. */
  lemma SomeWorkerGoesOn<T(!new)>(s: PoolState<T>) returns (w: nat)
    requires Inv(s) && (s.client.WaitPop? || s.client.WaitFinish?)
    ensures At(s, w) && !s.workers[w].WaitPush? && !s.workers[w].Exited?
  {
    if s.pending != 0 {
      w :| w < |s.workers| && !s.workers[w].WaitPush?;
    } else if s.client.WaitPop? {
      w :| w < |s.workers| && s.workers[w].OwePop?;
    } else if s.running != 0 {
      SomeHolder(s.workers);
      w :| w < |s.workers| && Holds(s.workers[w]);
    } else {
      w :| w < |s.workers| && s.workers[w].OweFinish?;
    }
  }

  /** No reachable state is stuck: while the client is inside a call, some thread can go on without any
      spurious wake-up. */
  lemma Progress<T(!new)>(s: PoolState<T>) returns (e: Step<T>)
    requires Inv(s) && !s.client.Idle? && !s.client.Freed?
    ensures Enabled(s, e) && !IsCall(e) && !IsSpurious(e)
  {
    match s.client
    case RunLock(_) => e := Push;
    case OwePush => e := SignalPush(Waiting(s.workers));
    case WaitLock(_) => e := CheckFinish;
    case KillLock => e := Kill;
    case OweBroadcast => e := Broadcast;
    case Joining(i) =>
      if At(s, i) && !s.workers[i].Exited? {
        StepOfEnabled(s, i);
        e := StepOf(s, i);
      } else {
        e := Join;
      }
    case WaitPop(_) =>
      var w := SomeWorkerGoesOn(s);
      StepOfEnabled(s, w);
      e := StepOf(s, w);
    case WaitFinish(_) =>
      var w := SomeWorkerGoesOn(s);
      StepOfEnabled(s, w);
      e := StepOf(s, w);
  }

  /** How much a worker, and the client, still have to do before the call in progress returns. */
  function WorkerCost<T>(w: Worker<T>): nat
  {
    match w
    case Top => 2
    case Lock => 1
    case WaitPush => 0
    case OwePop(_, _) => 7
    case Run(_, _) => 5
    case OweFinish => 4
    case Exited => 0
  }

  function ClientCost<T>(c: Client<T>, n: nat): int
  {
    match c
    case Idle => 0
    case RunLock(_) => n + 9
    case WaitPop(_) => n + 8
    case OwePush => n + 1
    case WaitLock(free) => if free then 2 * n + 12 else 2
    case WaitFinish(free) => if free then 2 * n + 11 else 1
    case KillLock => 2 * n + 10
    case OweBroadcast => 2 * n + 2
    case Joining(i) => n - i + 1
    case Freed => 0
  }

  function WorkersCost<T>(ws: seq<Worker<T>>): nat
  {
    if ws == [] then 0 else WorkerCost(ws[0]) + WorkersCost(ws[1..])
  }

  function Measure<T>(s: PoolState<T>): int
  {
    7 * s.pending + WorkersCost(s.workers) + ClientCost(s.client, |s.workers|)
  }

  lemma {:induction false} CostUpdate<T>(ws: seq<Worker<T>>, w: nat, pc: Worker<T>)
    requires w < |ws|
    ensures WorkersCost(ws[w := pc]) == WorkersCost(ws) - WorkerCost(ws[w]) + WorkerCost(pc)
  {
    if w == 0 {
      assert ws[w := pc][1..] == ws[1..];
    } else {
      assert ws[w := pc][1..] == ws[1..][w - 1 := pc];
      CostUpdate(ws[1..], w - 1, pc);
    }
  }

  lemma {:induction false} CostWake<T>(ws: seq<Worker<T>>, ws': seq<Worker<T>>)
    requires |ws'| == |ws|
    requires forall i :: 0 <= i < |ws| ==> ws'[i] == ws[i] || (ws[i].WaitPush? && ws'[i].Lock?)
    ensures WorkersCost(ws') <= WorkersCost(ws) + |ws|
  {
    if ws != [] {
      CostWake(ws[1..], ws'[1..]);
    }
  }

  predicate ByWorker<T>(e: Step<T>)
  {
    e.TestAlive? || e.Take? || e.SignalPop? || e.Finish? || e.SignalFinish? || e.SpuriousWorker?
  }

  lemma WorkerStepCost<T(!new)>(s: PoolState<T>, e: Step<T>)
    requires |s.slots| > 0 && (s.alive ==> s.head < |s.slots|) && Enabled(s, e) && ByWorker(e)
    ensures Measure(Apply(s, e)) <= Measure(s) + if IsSpurious(e) then 1 else -1
  {
    var s' := Apply(s, e);
    CostUpdate(s.workers, e.w, s'.workers[e.w]);
    assert s'.workers == s.workers[e.w := s'.workers[e.w]];
  }

  lemma ClientStepCost<T(!new)>(s: PoolState<T>, e: Step<T>)
    requires Inv(s) && Enabled(s, e) && !ByWorker(e) && !IsCall(e)
    ensures Measure(Apply(s, e)) <= Measure(s) + if IsSpurious(e) then 1 else -1
  {
    if e.SignalPush? || e.Broadcast? {
      CostWake(s.workers, Apply(s, e).workers);
    }
  }

  /** Every step towards the return of a call is progress; a spurious wake-up costs one step. */
  lemma StepCost<T(!new)>(s: PoolState<T>, e: Step<T>)
    requires Inv(s) && Enabled(s, e) && !IsCall(e)
    ensures Measure(Apply(s, e)) <= Measure(s) + if IsSpurious(e) then 1 else -1
  {
    if ByWorker(e) {
      WorkerStepCost(s, e);
    } else {
      ClientStepCost(s, e);
    }
  }

  function CountSpurious<T>(es: seq<Step<T>>): nat
  {
    if es == [] then 0 else (if IsSpurious(es[0]) then 1 else 0) + CountSpurious(es[1..])
  }

  /** Every call returns: from any reachable state, a run without new calls has a bounded number of steps
      beyond its spurious wake-ups; with Progress, it can only stop once the client is out of the call. */
  lemma {:induction false} RunBounded<T(!new)>(s: PoolState<T>, es: seq<Step<T>>, s': PoolState<T>)
    requires Inv(s) && IsRun(s, es, s')
    requires forall i :: 0 <= i < |es| ==> !IsCall(es[i])
    ensures |es| + Measure(s') <= Measure(s) + 2 * CountSpurious(es)
    ensures Measure(s') >= 0
    decreases |es|
  {
    if es == [] {
      assert s.client.Joining? ==> s.client.next <= |s.workers|;
    } else {
      StepCost(s, es[0]);
      KeepsInv(s, es[0]);
      RunBounded(Apply(s, es[0]), es[1..], s');
    }
  }

  /** After haplo_pool_free has declared the pool dead, no task is ever picked up again. */
  lemma {:induction false} DeadRunsNothing<T(!new)>(s: PoolState<T>, es: seq<Step<T>>, s': PoolState<T>)
    requires Inv(s) && !s.alive && IsRun(s, es, s')
    ensures !s'.alive && Started(s, es) == [] && s'.done == s.done && s'.pending == 1
    ensures forall k :: 0 <= k < |s'.submitted| ==> k in s'.done
    decreases |es|
  {
    if es == [] {
      DeadMeansDone(s);
    } else {
      var e := es[0];
      if e.SignalPop? || e.Finish? {
        HoldersOf(s.workers, e.w);
      }
      KeepsInv(s, e);
      DeadRunsNothing(Apply(s, e), es[1..], s');
    }
  }

  lemma DeadMeansDone<T>(s: PoolState<T>)
    requires Inv(s) && !s.alive
    ensures forall k :: 0 <= k < |s.submitted| ==> k in s.done
  {
    forall k | 0 <= k < |s.submitted|
      ensures k in s.done
    {
      if k !in s.done {
        var w :| 0 <= w < |s.workers| && Holds(s.workers[w]) && s.workers[w].id == k;
        HoldersOf(s.workers, w);
      }
    }
  }
}
