/** The shared structure of pool.c and its critical sections. Each section does to the fields what the step of
    the same name does to the protocol state. */
module PoolObject {
  import opened Pool

  /** What a worker learns in its first critical section. */
  datatype Order<T> = Sleep | Quit | Execute(task: T)

  class ThreadPool<T(!new)> {
    var head: nat
    var pending: nat
    var running: int
    var alive: bool
    const slots: array<T>
    const nbThreads: nat

    /** The fields are those of protocol state s. */
    ghost predicate Shows(s: PoolState<T>)
      reads this, slots
    {
      && head == s.head && pending == s.pending && running == s.running && alive == s.alive
      && slots[..] == s.slots && nbThreads == |s.workers|
    }

    /** haplo_pool_new, once its threads are started. */
    constructor (nbSlots: nat, nbThreads: nat, fill: T)
      requires nbSlots > 0 && nbThreads > 0
      ensures fresh(slots)
      ensures var s := PoolState(0, 0, 0, true, slots[..], seq(nbThreads, _ => Top), Idle, [], 0, {});
              Initial(s) && Shows(s)
    {
      head, pending, running, alive := 0, 0, 0, true;
      slots := new T[nbSlots](_ => fill);
      this.nbThreads := nbThreads;
    }

    /** pool_do, from the test of `pending` to the end of the first critical section. */
    method TakeSection(ghost s: PoolState<T>, ghost w: nat) returns (order: Order<T>)
      requires Shows(s) && Inv(s) && Enabled(s, Take(w))
      modifies this
      ensures Shows(Apply(s, Take(w)))
      ensures match Apply(s, Take(w)).workers[w]
              case WaitPush => order == Sleep
              case Exited => order == Quit
              case OwePop(_, task) => order == Execute(task)
              case _ => false
    {
      if pending == 0 {
        return Sleep;
      }
      if !alive {
        return Quit;
      }
      order := Execute(slots[head]);
      pending := pending - 1;
      head := head + 1;
      if head == slots.Length {
        head := 0;
      }
      running := running + 1;
    }

    /** pool_do, second critical section. */
    method FinishSection(ghost s: PoolState<T>, ghost w: nat)
      requires Shows(s) && Inv(s) && Enabled(s, Finish(w))
      modifies this
      ensures Shows(Apply(s, Finish(w)))
    {
      running := running - 1;
    }

    /** haplo_pool_run, one pass through its critical section; `sleep` tells that the queue is full. */
    method PushSection(task: T, ghost s: PoolState<T>) returns (sleep: bool)
      requires Shows(s) && Inv(s) && s.client == RunLock(task)
      modifies this, slots
      ensures Shows(Apply(s, Push))
      ensures sleep <==> Apply(s, Push).client.WaitPop?
    {
      if pending == slots.Length {
        return true;
      }
      slots[(head + pending) % slots.Length] := task;
      pending := pending + 1;
      sleep := false;
    }

    /** haplo_pool_wait, one pass; `sleep` tells that tasks are left. */
    method CheckSection(ghost s: PoolState<T>) returns (sleep: bool)
      requires Shows(s) && Inv(s) && Enabled(s, CheckFinish)
      ensures Shows(Apply(s, CheckFinish))
      ensures sleep <==> Apply(s, CheckFinish).client.WaitFinish?
    {
      sleep := running != 0 || pending != 0;
    }

    /** haplo_pool_free, its own critical section. */
    method KillSection(ghost s: PoolState<T>)
      requires Shows(s) && Inv(s) && Enabled(s, Kill)
      modifies this
      ensures Shows(Apply(s, Kill))
    {
      alive := false;
      pending := 1;
    }
  }
}
