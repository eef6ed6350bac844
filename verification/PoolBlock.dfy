/** One block of solver_factorize_threaded on the thread pool: the tasks' column updates interleave with one
    another and with every step of the pool protocol. */
module PoolBlock {
  import opened Factor
  import opened Solver
  import opened Pool
  import opened PoolInvariant
  import PoolRuns

  /** The pool, whose tasks are row offsets in the block, the shared coefficients, and the next column of
      each task's row. */
  datatype System<!F(!new)> = System(pool: PoolState<nat>, coef: seq<F>, next: seq<int>)

  /** A step of the protocol, or one turn of the loop of the task worker w executes. */
  datatype Action = Protocol(e: Step<nat>) | Work(w: nat)

  /** The block of rows I..I+size-1 of factorisation p; `base` tasks were submitted before it. */
  datatype Block<!F(!new)> = Block(p: Job<F>, I: int, size: nat, base: nat) {

    ghost predicate Ok()
    {
      p.Ok() && 1 <= I && I + size <= |p.diag| && (I == 1 || I >= p.skip)
    }

    /** The client submits the rows in order, then waits; a task's function returns when its loop is over. */
    ghost predicate CanStep(s: System<F>, e: Step<nat>)
    {
      && |s.pool.slots| > 0
      && Enabled(s.pool, e)
      && (e.CallRun? ==> e.t == |s.pool.submitted| - base && e.t < size)
      && (e.CallWait? ==> |s.pool.submitted| == base + size)
      && !e.CallFree?
      && (e.Finish? && s.pool.workers[e.w].task < |s.next| ==> s.next[s.pool.workers[e.w].task] >= I)
    }

    ghost predicate CanWork(s: System<F>, w: nat)
    {
      && Pool.At(s.pool, w)
      && s.pool.workers[w].Run?
      && s.pool.workers[w].task < |s.next|
      && s.next[s.pool.workers[w].task] < I
      && CanUpdate(p.diag, s.coef, I + s.pool.workers[w].task, s.next[s.pool.workers[w].task])
    }

    /** Task id goes one turn further. */
    ghost function Advance(s: System<F>, id: nat): System<F>
      requires id < |s.next| && CanUpdate(p.diag, s.coef, I + id, s.next[id])
    {
      System(s.pool, ColumnUpdate(p.ar, p.diag, s.coef, I + id, s.next[id]), s.next[id := s.next[id] + 1])
    }

    ghost function DoWork(s: System<F>, w: nat): System<F>
      requires CanWork(s, w)
    {
      Advance(s, s.pool.workers[w].task)
    }

    ghost predicate Can(s: System<F>, a: Action)
    {
      match a
      case Protocol(e) => CanStep(s, e)
      case Work(w) => CanWork(s, w)
    }

    ghost function Do(s: System<F>, a: Action): System<F>
      requires Can(s, a)
    {
      match a
      case Protocol(e) => s.(pool := Apply(s.pool, e))
      case Work(w) => DoWork(s, w)
    }

    ghost predicate RowsInv(s: System<F>)
    {
      Ok() && |s.next| == size && InBlock(p, s.coef, I, s.next) && TasksOfBlock(s.pool, s.next, I, base)
    }

    ghost predicate BlockInv(s: System<F>)
    {
      RowsInv(s) && Inv(s.pool)
    }
  }

  /** The tasks of the block are its rows in order; the finished ones have done all their columns. */
  ghost predicate TasksOfBlock(q: PoolState<nat>, next: seq<int>, I: int, base: nat)
  {
    && base <= |q.submitted| <= base + |next|
    && (forall k :: base <= k < |q.submitted| ==> q.submitted[k] == k - base)
    && (q.client.RunLock? || q.client.WaitPop? ==>
          q.client.task == |q.submitted| - base && q.client.task < |next|)
    && (q.client.WaitLock? || q.client.WaitFinish? ==> |q.submitted| == base + |next| && !q.client.free)
    && !q.client.KillLock? && q.alive
    && (forall k :: 0 <= k < base ==> k in q.done)
    && (forall k :: base <= k < |q.submitted| && k in q.done ==> next[k - base] >= I)
  }

  /** A turn of the loop of task id. */
  lemma WorkOnRow<F(!new)>(p: Job<F>, c: seq<F>, c': seq<F>, I: int, next: seq<int>, next': seq<int>, id: int)
    requires InBlock(p, c, I, next) && (I == 1 || I >= p.skip)
    requires 0 <= id < |next| && next[id] < I && CanUpdate(p.diag, c, I + id, next[id])
    requires c' == ColumnUpdate(p.ar, p.diag, c, I + id, next[id]) && next' == next[id := next[id] + 1]
    ensures InBlock(p, c', I, next')
  {
    var j := next[id];
    assert p.RowAt(c, I + id, Reached(j, I)) && From(p.diag, I + id, 1) < j;
    assert p.RowDone(c, j);
    ColumnUpdateCorrect(p, c, I + id, j);
    BlockStep(p, c, c', I, next, id);
  }

  lemma AdvanceKeepsRows<F(!new)>(b: Block<F>, s: System<F>, id: nat)
    requires b.RowsInv(s) && id < |s.next| && s.next[id] < b.I && CanUpdate(b.p.diag, s.coef, b.I + id, s.next[id])
    ensures b.RowsInv(b.Advance(s, id))
  {
    var s' := b.Advance(s, id);
    WorkOnRow(b.p, s.coef, s'.coef, b.I, s.next, s'.next, id);
    WorkKeepsTasks(s'.pool, s.next, s'.next, id, b.I, b.base);
  }

  lemma WorkKeepsRows<F(!new)>(b: Block<F>, s: System<F>, w: nat)
    requires b.RowsInv(s) && b.CanWork(s, w)
    ensures b.RowsInv(b.DoWork(s, w))
  {
    AdvanceKeepsRows(b, s, s.pool.workers[w].task);
  }

  lemma WorkKeepsTasks(q: PoolState<nat>, next: seq<int>, next': seq<int>, id: int, I: int, base: nat)
    requires TasksOfBlock(q, next, I, base) && 0 <= id < |next| && next' == next[id := next[id] + 1]
    ensures TasksOfBlock(q, next', I, base)
  {
  }

  lemma ProtocolKeepsTasks(q: PoolState<nat>, e: Step<nat>, next: seq<int>, I: int, base: nat)
    requires Inv(q) && Enabled(q, e) && TasksOfBlock(q, next, I, base)
    requires e.CallRun? ==> e.t == |q.submitted| - base && e.t < |next|
    requires e.CallWait? ==> |q.submitted| == base + |next|
    requires !e.CallFree?
    requires e.Finish? && q.workers[e.w].task < |next| ==> next[q.workers[e.w].task] >= I
    ensures TasksOfBlock(Apply(q, e), next, I, base)
  {
    if e.Finish? {
      var w := q.workers[e.w];
      assert Holds(w) && w.task == q.submitted[w.id];
    }
  }

  lemma ProtocolKeepsInv<F(!new)>(b: Block<F>, s: System<F>, e: Step<nat>)
    requires b.BlockInv(s) && b.CanStep(s, e)
    ensures b.BlockInv(s.(pool := Apply(s.pool, e)))
  {
    KeepsInv(s.pool, e);
    ProtocolKeepsTasks(s.pool, e, s.next, b.I, b.base);
  }

  /** es leads from s to s'. */
  ghost predicate IsRun<F(!new)>(b: Block<F>, s: System<F>, es: seq<Action>, s': System<F>)
    decreases |es|
  {
    if es == [] then s == s'
    else b.Can(s, es[0]) && IsRun(b, b.Do(s, es[0]), es[1..], s')
  }

  lemma {:induction false} RunKeepsInv<F(!new)>(b: Block<F>, s: System<F>, es: seq<Action>, s': System<F>)
    requires b.BlockInv(s) && IsRun(b, s, es, s')
    ensures b.BlockInv(s')
    decreases |es|
  {
    if es != [] {
      match es[0] {
        case Protocol(e) => ProtocolKeepsInv(b, s, e);
        case Work(w) => WorkKeepsRows(b, s, w);
      }
      RunKeepsInv(b, b.Do(s, es[0]), es[1..], s');
    }
  }

  /** The matrix and the pool as the block is about to start. */
  ghost predicate BlockStarts<F(!new)>(b: Block<F>, s: System<F>)
  {
    && b.Ok() && Inv(s.pool) && s.pool.client.Idle?
    && |s.pool.submitted| == b.base && (forall k :: 0 <= k < b.base ==> k in s.pool.done)
    && s.next == Starts(b.p.diag, b.I, b.size)
    && |s.coef| == |b.p.a|
    && (forall r :: 0 <= r < b.I ==> b.p.RowDone(s.coef, r))
    && (forall r :: b.I <= r < |b.p.diag| ==> b.p.RowAt(s.coef, r, 0))
  }

  /** Whatever the interleaving, when haplo_pool_wait lets the client go on, every row of the block has its
      columns before the block in final form, and every other row is as it was. */
  lemma BlockOnPool<F(!new)>(b: Block<F>, s: System<F>, es: seq<Action>, s': System<F>)
    requires BlockStarts(b, s) && IsRun(b, s, es, s')
    requires s'.pool.client.WaitLock? && |s'.pool.slots| > 0 && !Apply(s'.pool, CheckFinish).client.WaitFinish?
    ensures forall r :: 0 <= r < b.I ==> b.p.RowDone(s'.coef, r)
    ensures forall r :: b.I <= r < b.I + b.size ==> b.p.RowAt(s'.coef, r, b.I)
    ensures forall r :: b.I + b.size <= r < |b.p.diag| ==> b.p.RowAt(s'.coef, r, 0)
  {
    BlockStart(b.p, s.coef, b.I, b.size);
    RunKeepsInv(b, s, es, s');
    BlockReturns(b, s');
  }

  lemma BlockReturns<F(!new)>(b: Block<F>, s: System<F>)
    requires b.BlockInv(s) && s.pool.client.WaitLock? && s.pool.running == 0 && s.pool.pending == 0
    ensures forall r :: 0 <= r < b.I ==> b.p.RowDone(s.coef, r)
    ensures forall r :: b.I <= r < b.I + b.size ==> b.p.RowAt(s.coef, r, b.I)
    ensures forall r :: b.I + b.size <= r < |b.p.diag| ==> b.p.RowAt(s.coef, r, 0)
  {
    forall id | 0 <= id < |s.next|
      ensures s.next[id] >= b.I
    {
      AllDone(s.pool, b.base + id);
    }
    BlockEnd(b.p, s.coef, b.I, s.next);
  }

  lemma AllDone(s: PoolState<nat>, k: nat)
    requires Inv(s) && s.running == 0 && s.pending == 0 && s.alive && k < |s.submitted|
    ensures k in s.done
  {
    if k !in s.done {
      var w :| 0 <= w < |s.workers| && Holds(s.workers[w]) && s.workers[w].id == k;
      HoldersOf(s.workers, w);
    }
  }

  /** No two workers ever execute the same row. */
  lemma RowsDistinct<F(!new)>(b: Block<F>, s: System<F>, v: nat, w: nat)
    requires b.BlockInv(s) && v < w < |s.pool.workers|
    requires s.pool.workers[v].Run? && s.pool.workers[w].Run?
    requires s.pool.workers[v].id >= b.base && s.pool.workers[w].id >= b.base
    ensures s.pool.workers[v].task != s.pool.workers[w].task
  {
    assert Holds(s.pool.workers[v]) && Holds(s.pool.workers[w]);
  }

  /** The block cannot get stuck either: a task that has not finished its columns can always go on. */
  lemma BlockProgress<F(!new)>(b: Block<F>, s: System<F>) returns (a: Action)
    requires b.BlockInv(s) && !s.pool.client.Idle?
    ensures b.Can(s, a) && (a.Protocol? ==> !IsCall(a.e) && !IsSpurious(a.e))
  {
    var e := PoolRuns.Progress(s.pool);
    a := Protocol(e);
    if e.Finish? {
      var id := s.pool.workers[e.w].task;
      if id < b.size && s.next[id] < b.I {
        assert From(b.p.diag, b.I + id, 1) < s.next[id];
        a := Work(e.w);
      }
    }
  }

  /** Steps left before the call in progress returns, the tasks' own work included. */
  ghost function Effort<F(!new)>(b: Block<F>, s: System<F>): int
  {
    PoolRuns.Measure(s.pool) + Remaining(s.next, b.I)
  }

  lemma WorkCost<F(!new)>(b: Block<F>, s: System<F>, w: nat)
    requires b.CanWork(s, w)
    ensures Effort(b, b.DoWork(s, w)) < Effort(b, s)
  {
    RemainingDrops(s.next, b.I, s.pool.workers[w].task);
  }

  lemma ActionCost<F(!new)>(b: Block<F>, s: System<F>, a: Action)
    requires b.BlockInv(s) && b.Can(s, a)
    requires a.Protocol? ==> !IsCall(a.e) && !IsSpurious(a.e)
    ensures Effort(b, b.Do(s, a)) < Effort(b, s)
  {
    match a
    case Protocol(e) => PoolRuns.StepCost(s.pool, e);
    case Work(w) => WorkCost(b, s, w);
  }
}
