/** Every step of the pool protocol keeps its invariant. */
module PoolInvariant {
  import opened Pool

  lemma {:induction false} HoldersUpdate<T>(ws: seq<Worker<T>>, w: nat, pc: Worker<T>)
    requires w < |ws|
    ensures Holders(ws[w := pc])
            == Holders(ws) - (if Holds(ws[w]) then 1 else 0) + (if Holds(pc) then 1 else 0)
  {
    if w == 0 {
      assert ws[w := pc][1..] == ws[1..];
    } else {
      assert ws[w := pc][1..] == ws[1..][w - 1 := pc];
      HoldersUpdate(ws[1..], w - 1, pc);
    }
  }

  lemma {:induction false} HoldersOf<T>(ws: seq<Worker<T>>, w: nat)
    requires w < |ws| && Holds(ws[w])
    ensures Holders(ws) > 0
  {
    if w > 0 {
      HoldersOf(ws[1..], w - 1);
    }
  }

  lemma {:induction false} SomeHolder<T>(ws: seq<Worker<T>>)
    requires Holders(ws) > 0
    ensures exists w :: 0 <= w < |ws| && Holds(ws[w])
  {
    if !Holds(ws[0]) {
      SomeHolder(ws[1..]);
      var v :| 0 <= v < |ws| - 1 && Holds(ws[1..][v]);
      assert Holds(ws[v + 1]);
    }
  }

  /** Two workers hold the same task, or none of them holds one. */
  ghost predicate SameHold<T>(a: Worker<T>, b: Worker<T>)
  {
    Holds(a) == Holds(b) && (Holds(a) ==> a.id == b.id && a.task == b.task)
  }

  lemma {:induction false} HoldersSame<T>(ws: seq<Worker<T>>, ws': seq<Worker<T>>)
    requires |ws| == |ws'|
    requires forall w :: 0 <= w < |ws| ==> SameHold(ws[w], ws'[w])
    ensures Holders(ws') == Holders(ws)
  {
    if ws != [] {
      HoldersSame(ws[1..], ws'[1..]);
    }
  }

  lemma {:induction false} HoldersBound<T>(ws: seq<Worker<T>>)
    ensures Holders(ws) <= |ws|
  {
    if ws != [] {
      HoldersBound(ws[1..]);
    }
  }

  lemma InitialInv<T>(s: PoolState<T>)
    requires Initial(s)
    ensures Inv(s)
  {
    NoHolders(s.workers);
  }

  lemma {:induction false} NoHolders<T>(ws: seq<Worker<T>>)
    requires forall w :: 0 <= w < |ws| ==> !Holds(ws[w])
    ensures Holders(ws) == 0
  {
    if ws != [] {
      NoHolders(ws[1..]);
    }
  }

  lemma RingWrap(head: nat, q: nat, n: nat)
    requires head < n && q <= n
    ensures Cell(head, q, n) == Ahead(head, q, n)
  {
  }

  lemma KeepsRing<T(!new)>(s: PoolState<T>, e: Step<T>)
    requires Inv(s) && Enabled(s, e) && Apply(s, e).alive
    ensures RingInv(Apply(s, e))
  {
    if e.Push? && s.pending < |s.slots| {
      PushKeepsRing(s);
    } else if e.Take? && s.pending > 0 {
      TakeKeepsRing(s, e.w);
    } else {
      OtherStepsKeepRing(s, e);
    }
  }

  lemma OtherStepsKeepRing<T(!new)>(s: PoolState<T>, e: Step<T>)
    requires |s.slots| > 0 && RingInv(s) && Enabled(s, e) && !e.Kill?
    requires e.Push? ==> s.pending == |s.slots|
    requires e.Take? ==> s.pending == 0
    ensures RingInv(Apply(s, e))
  {
    var s' := Apply(s, e);
    assert s'.slots == s.slots && s'.head == s.head && s'.pending == s.pending;
    assert s'.submitted == s.submitted && s'.started == s.started;
  }

  lemma PushKeepsRing<T(!new)>(s: PoolState<T>)
    requires |s.slots| > 0 && RingInv(s) && s.client.RunLock? && s.pending < |s.slots|
    ensures RingInv(DoPush(s))
  {
    RingWrap(s.head, s.pending, |s.slots|);
  }

  lemma TakeKeepsRing<T(!new)>(s: PoolState<T>, w: nat)
    requires |s.slots| > 0 && RingInv(s) && At(s, w) && s.pending > 0 && s.alive
    ensures RingInv(DoTake(s, w))
  {
    var s', n := DoTake(s, w), |s.slots|;
    forall q | 0 <= q < s'.pending
      ensures s'.slots[Ahead(s'.head, q, n)] == s'.submitted[s'.started + q]
    {
      assert s.slots[Ahead(s.head, q + 1, n)] == s.submitted[s.started + (q + 1)];
    }
  }

  /** Steps that neither start nor finish a task leave the holders alone. */
  lemma SameHolders<T>(s: PoolState<T>, s': PoolState<T>)
    requires TaskInv(s)
    requires |s'.workers| == |s.workers|
    requires forall w :: 0 <= w < |s.workers| ==> SameHold(s.workers[w], s'.workers[w])
    requires s'.running == s.running && s'.started == s.started && s'.done == s.done
    requires s.submitted <= s'.submitted
    ensures TaskInv(s')
  {
    HoldersSame(s.workers, s'.workers);
    forall k | 0 <= k < s'.started
      ensures k in s'.done || Held(s'.workers, k)
    {
      if k !in s.done {
        var w :| 0 <= w < |s.workers| && Holds(s.workers[w]) && s.workers[w].id == k;
        assert SameHold(s.workers[w], s'.workers[w]);
      }
    }
  }

  lemma TakeKeepsTasks<T(!new)>(s: PoolState<T>, w: nat)
    requires Inv(s) && At(s, w) && s.workers[w].Lock? && s.pending > 0 && s.alive
    ensures TaskInv(DoTake(s, w))
  {
    var s' := DoTake(s, w);
    HoldersUpdate(s.workers, w, s'.workers[w]);
    assert s'.workers[w].task == s.submitted[s.started] by {
      assert s.slots[Ahead(s.head, 0, |s.slots|)] == s.submitted[s.started + 0];
    }
    forall k | 0 <= k < s'.started
      ensures k in s'.done || Held(s'.workers, k)
    {
      if k == s.started {
        assert Holds(s'.workers[w]);
      } else if k !in s.done {
        var v :| 0 <= v < |s.workers| && Holds(s.workers[v]) && s.workers[v].id == k;
        assert s'.workers[v] == s.workers[v];
      }
    }
  }

  lemma FinishKeepsTasks<T(!new)>(s: PoolState<T>, w: nat)
    requires Inv(s) && Enabled(s, Finish(w))
    ensures TaskInv(Apply(s, Finish(w)))
  {
    var s' := Apply(s, Finish(w));
    HoldersUpdate(s.workers, w, OweFinish);
    forall k | 0 <= k < s'.started
      ensures k in s'.done || Held(s'.workers, k)
    {
      if k !in s'.done {
        var v :| 0 <= v < |s.workers| && Holds(s.workers[v]) && s.workers[v].id == k;
        assert s'.workers[v] == s.workers[v];
      }
    }
  }

  lemma KeepsTasks<T(!new)>(s: PoolState<T>, e: Step<T>)
    requires Inv(s) && Enabled(s, e)
    ensures TaskInv(Apply(s, e))
  {
    if e.Finish? {
      FinishKeepsTasks(s, e.w);
    } else if e.Take? && s.pending > 0 && s.alive {
      TakeKeepsTasks(s, e.w);
    } else {
      SameHolders(s, Apply(s, e));
    }
  }

  /** A pending task keeps a worker awake, or the client owes the push signal. */
  lemma KeepsAwake<T(!new)>(s: PoolState<T>, e: Step<T>)
    requires Inv(s) && Enabled(s, e)
    ensures var s' := Apply(s, e);
            s'.alive && s'.pending > 0 ==> s'.client.OwePush? || Awake(s'.workers)
  {
    var s' := Apply(s, e);
    if s'.alive && s'.pending > 0 && !s'.client.OwePush? {
      match e
      case SignalPush(woken) =>
        if w :| w in woken {
          assert s'.workers[w].Lock?;
        } else {
          assert 0 !in Waiting(s.workers);
          assert !s'.workers[0].WaitPush?;
        }
      case TestAlive(w) => assert !s'.workers[w].WaitPush?;
      case Take(w) => assert !s'.workers[w].WaitPush?;
      case SignalPop(w) => assert !s'.workers[w].WaitPush?;
      case Finish(w) => assert !s'.workers[w].WaitPush?;
      case SignalFinish(w) => assert !s'.workers[w].WaitPush?;
      case SpuriousWorker(w) => assert !s'.workers[w].WaitPush?;
      case _ => assert s'.workers == s.workers;
    }
  }

  /** A client waiting for a free slot is owed the signal as soon as there is one. */
  lemma KeepsPopOwed<T(!new)>(s: PoolState<T>, e: Step<T>)
    requires Inv(s) && Enabled(s, e)
    ensures var s' := Apply(s, e);
            s'.client.WaitPop? ==> s'.pending == |s'.slots| || OwesPop(s'.workers)
  {
    var s' := Apply(s, e);
    if s'.client.WaitPop? && s.client.WaitPop? && s'.pending != |s'.slots| {
      if s.pending != |s.slots| {
        var v :| 0 <= v < |s.workers| && s.workers[v].OwePop?;
        assert s'.workers[v].OwePop?;
      } else {
        assert e.Take? && s'.workers[e.w].OwePop?;
      }
    }
  }

  /** A client waiting for the end of all tasks is owed the signal as soon as they have ended. */
  lemma KeepsFinishOwed<T(!new)>(s: PoolState<T>, e: Step<T>)
    requires Inv(s) && Enabled(s, e)
    ensures var s' := Apply(s, e);
            s'.client.WaitFinish? ==> s'.running != 0 || s'.pending != 0 || OwesFinish(s'.workers)
  {
    var s' := Apply(s, e);
    if s'.client.WaitFinish? && s.client.WaitFinish? && s'.running == 0 && s'.pending == 0 {
      if s.running == 0 && s.pending == 0 {
        var v :| 0 <= v < |s.workers| && s.workers[v].OweFinish?;
        assert s'.workers[v].OweFinish?;
      } else {
        assert e.Finish? && s'.workers[e.w].OweFinish?;
      }
    }
  }

  lemma KeepsLife<T(!new)>(s: PoolState<T>, e: Step<T>)
    requires Inv(s) && Enabled(s, e)
    ensures LifeInv(Apply(s, e))
  {
    if e.SignalPop? || e.Finish? {
      HoldersOf(s.workers, e.w);
      HolderKeepsLife(s, e);
    } else if e.TestAlive? || e.Take? || e.SignalFinish? || e.SpuriousWorker? {
      WorkerKeepsLife(s, e);
    } else {
      ClientKeepsLife(s, e);
    }
  }

  /** A worker that holds a task steps: the pool is still alive. */
  lemma HolderKeepsLife<T(!new)>(s: PoolState<T>, e: Step<T>)
    requires |s.slots| > 0 && LifeInv(s) && Enabled(s, e) && s.running > 0
    requires e.SignalPop? || e.Finish?
    ensures LifeInv(Apply(s, e))
  {
  }

  lemma WorkerKeepsLife<T(!new)>(s: PoolState<T>, e: Step<T>)
    requires |s.slots| > 0 && LifeInv(s) && Enabled(s, e)
    requires e.TestAlive? || e.Take? || e.SignalFinish? || e.SpuriousWorker?
    ensures LifeInv(Apply(s, e))
  {
  }

  lemma ClientKeepsLife<T(!new)>(s: PoolState<T>, e: Step<T>)
    requires |s.slots| > 0 && LifeInv(s) && TaskInv(s) && (s.alive ==> RingInv(s)) && Enabled(s, e)
    requires !(e.TestAlive? || e.Take? || e.SignalPop? || e.Finish? || e.SignalFinish? || e.SpuriousWorker?)
    ensures LifeInv(Apply(s, e))
  {
  }

  /** The invariant holds in every reachable state. */
  lemma KeepsInv<T(!new)>(s: PoolState<T>, e: Step<T>)
    requires Inv(s) && Enabled(s, e)
    ensures Inv(Apply(s, e))
  {
    if Apply(s, e).alive {
      KeepsRing(s, e);
    }
    KeepsTasks(s, e);
    KeepsAwake(s, e);
    KeepsPopOwed(s, e);
    KeepsFinishOwed(s, e);
    KeepsLife(s, e);
  }
}
