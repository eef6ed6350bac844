/** The thread pool of pool.c as a protocol: one client thread, any number of workers, one mutex and three
    condition variables. A critical section is one step; a thread that has left one and has still to signal
    is in an "owes" state; condition variables may wake more waiters than asked, or wake them for nothing. */
module Pool {

  /** Where a worker is in pool_do. `id` numbers tasks in the order of submission. */
  datatype Worker<T> =
    | Top                      // about to test `alive`
    | Lock                     // about to enter the first critical section, or woken inside it
    | WaitPush                 // waiting on cond_push
    | OwePop(id: nat, task: T) // holds a task, still has to signal cond_pop
    | Run(id: nat, task: T)    // executing the task
    | OweFinish                // task counted as finished, still has to signal cond_finish
    | Exited

  /** Where the client is. `free` tells haplo_pool_wait called by haplo_pool_free from a direct call. */
  datatype Client<T> =
    | Idle
    | RunLock(task: T)   // in haplo_pool_run, about to enter or re-enter the critical section
    | WaitPop(task: T)   // waiting on cond_pop
    | OwePush            // still has to signal cond_push
    | WaitLock(free: bool)
    | WaitFinish(free: bool)
    | KillLock           // in haplo_pool_free, about to enter the last critical section
    | OweBroadcast
    | Joining(next: nat)
    | Freed

  /** The shared structure, the threads, and what has happened so far. */
  datatype PoolState<T> = PoolState(
    head: nat, pending: nat, running: int, alive: bool, slots: seq<T>,
    workers: seq<Worker<T>>, client: Client<T>,
    submitted: seq<T>, started: nat, done: set<nat>)

  datatype Step<T> =
    | CallRun(t: T) | CallWait | CallFree
    | Push | SignalPush(woken: set<nat>) | CheckFinish | Kill | Broadcast | Join
    | SpuriousClient
    | TestAlive(w: nat) | Take(w: nat) | SignalPop(w: nat) | Finish(w: nat) | SignalFinish(w: nat)
    | SpuriousWorker(w: nat)

  /** The client calls into the pool only from outside it. */
  predicate IsCall<T>(e: Step<T>) { e.CallRun? || e.CallWait? || e.CallFree? }

  predicate IsSpurious<T>(e: Step<T>) { e.SpuriousClient? || e.SpuriousWorker? }

  function Waiting<T>(ws: seq<Worker<T>>): set<nat>
  {
    set i: nat | i < |ws| && ws[i].WaitPush?
  }

  predicate At<T>(s: PoolState<T>, w: nat)
  {
    w < |s.workers|
  }

  ghost predicate Enabled<T(!new)>(s: PoolState<T>, e: Step<T>)
  {
    match e
    case CallRun(_) => s.client.Idle?
    case CallWait => s.client.Idle?
    case CallFree => s.client.Idle?
    case Push => s.client.RunLock?
    case SignalPush(woken) =>
      && s.client.OwePush?
      && woken <= Waiting(s.workers)
      && (Waiting(s.workers) != {} ==> woken != {})
    case CheckFinish => s.client.WaitLock?
    case Kill => s.client.KillLock?
    case Broadcast => s.client.OweBroadcast?
    case Join => s.client.Joining? && (At(s, s.client.next) ==> s.workers[s.client.next].Exited?)
    case SpuriousClient => s.client.WaitPop? || s.client.WaitFinish?
    case TestAlive(w) => At(s, w) && s.workers[w].Top?
    case Take(w) => At(s, w) && s.workers[w].Lock?
    case SignalPop(w) => At(s, w) && s.workers[w].OwePop?
    case Finish(w) => At(s, w) && s.workers[w].Run?
    case SignalFinish(w) => At(s, w) && s.workers[w].OweFinish?
    case SpuriousWorker(w) => At(s, w) && s.workers[w].WaitPush?
  }

  /** pthread_cond_signal and broadcast on cond_push: the woken workers compete for the mutex again. */
  function Wake<T>(ws: seq<Worker<T>>, woken: set<nat>): seq<Worker<T>>
  {
    seq(|ws|, i requires 0 <= i < |ws| => if i in woken then Lock else ws[i])
  }

  function SetWorker<T>(s: PoolState<T>, w: nat, pc: Worker<T>): PoolState<T>
    requires At(s, w)
  {
    s.(workers := s.workers[w := pc])
  }

  /** The q-th cell of the ring after the head. */
  function Cell(head: nat, q: nat, n: nat): (c: nat)
    requires n > 0
    ensures c < n
  {
    (head + q) % n
  }

  /** The same cell without a division, for a head inside the ring: see RingWrap. */
  function Ahead(head: nat, q: nat, n: nat): (c: int)
  {
    if head + q < n then head + q else head + q - n
  }

  /** haplo_pool_run, inside the mutex. */
  function DoPush<T>(s: PoolState<T>): PoolState<T>
    requires s.client.RunLock? && |s.slots| > 0
  {
    if s.pending == |s.slots| then s.(client := WaitPop(s.client.task))
    else s.(slots := s.slots[Cell(s.head, s.pending, |s.slots|) := s.client.task],
            pending := s.pending + 1,
            submitted := s.submitted + [s.client.task],
            client := OwePush)
  }

  /** pool_do, first critical section. */
  function DoTake<T>(s: PoolState<T>, w: nat): PoolState<T>
    requires At(s, w)
  {
    if s.pending == 0 then SetWorker(s, w, WaitPush)
    else if !s.alive then SetWorker(s, w, Exited)
    else if s.head < |s.slots| then
      SetWorker(s, w, OwePop(s.started, s.slots[s.head])).(
        pending := s.pending - 1,
        head := if s.head + 1 == |s.slots| then 0 else s.head + 1,
        running := s.running + 1,
        started := s.started + 1)
    else s
  }

  function Apply<T(!new)>(s: PoolState<T>, e: Step<T>): PoolState<T>
    requires Enabled(s, e) && |s.slots| > 0
  {
    match e
    case CallRun(t) => s.(client := RunLock(t))
    case CallWait => s.(client := WaitLock(false))
    case CallFree => s.(client := WaitLock(true))
    case Push => DoPush(s)
    case SignalPush(woken) => s.(workers := Wake(s.workers, woken), client := Idle)
    case CheckFinish =>
      if s.running != 0 || s.pending != 0 then s.(client := WaitFinish(s.client.free))
      else s.(client := if s.client.free then KillLock else Idle)
    case Kill => s.(alive := false, pending := 1, client := OweBroadcast)
    case Broadcast => s.(workers := Wake(s.workers, Waiting(s.workers)), client := Joining(0))
    case Join => s.(client := if At(s, s.client.next) then Joining(s.client.next + 1) else Freed)
    case SpuriousClient =>
      s.(client := if s.client.WaitPop? then RunLock(s.client.task) else WaitLock(s.client.free))
    case TestAlive(w) => SetWorker(s, w, if s.alive then Lock else Exited)
    case Take(w) => DoTake(s, w)
    case SignalPop(w) =>
      SetWorker(s, w, Run(s.workers[w].id, s.workers[w].task)).(
        client := if s.client.WaitPop? then RunLock(s.client.task) else s.client)
    case Finish(w) =>
      SetWorker(s, w, OweFinish).(running := s.running - 1, done := s.done + {s.workers[w].id})
    case SignalFinish(w) =>
      SetWorker(s, w, Top).(
        client := if s.client.WaitFinish? then WaitLock(s.client.free) else s.client)
    case SpuriousWorker(w) => SetWorker(s, w, Lock)
  }

  /** haplo_pool_new. */
  ghost predicate Initial<T>(s: PoolState<T>)
  {
    && |s.slots| > 0 && |s.workers| > 0
    && s.head == 0 && s.pending == 0 && s.running == 0 && s.alive
    && (forall w :: 0 <= w < |s.workers| ==> s.workers[w].Top?)
    && s.client.Idle? && s.submitted == [] && s.started == 0 && s.done == {}
  }

  predicate Holds<T>(w: Worker<T>) { w.OwePop? || w.Run? }

  function Holders<T>(ws: seq<Worker<T>>): nat
  {
    if ws == [] then 0 else (if Holds(ws[0]) then 1 else 0) + Holders(ws[1..])
  }

  /** The ring holds the submitted tasks not started yet, oldest at `head`. */
  ghost predicate RingInv<T>(s: PoolState<T>)
  {
    && s.head < |s.slots|
    && s.pending <= |s.slots|
    && |s.submitted| == s.started + s.pending
    && forall q :: 0 <= q < s.pending ==> s.slots[Ahead(s.head, q, |s.slots|)] == s.submitted[s.started + q]
  }

  /** Every started task is finished or held by exactly one worker. */
  ghost predicate TaskInv<T>(s: PoolState<T>)
  {
    && s.started <= |s.submitted|
    && s.running == Holders(s.workers)
    && |s.done| + s.running == s.started
    && (forall k :: k in s.done ==> k < s.started)
    && (forall w :: 0 <= w < |s.workers| && Holds(s.workers[w]) ==>
          && s.workers[w].id < s.started
          && s.workers[w].id !in s.done
          && s.workers[w].task == s.submitted[s.workers[w].id])
    && (forall v, w :: 0 <= v < w < |s.workers| && Holds(s.workers[v]) && Holds(s.workers[w]) ==>
          s.workers[v].id != s.workers[w].id)
    && (forall k :: 0 <= k < s.started ==> k in s.done || Held(s.workers, k))
  }

  ghost predicate Held<T>(ws: seq<Worker<T>>, k: nat)
  {
    exists w :: 0 <= w < |ws| && Holds(ws[w]) && ws[w].id == k
  }

  ghost predicate Awake<T>(ws: seq<Worker<T>>)
  {
    exists w :: 0 <= w < |ws| && !ws[w].WaitPush?
  }

  ghost predicate OwesPop<T>(ws: seq<Worker<T>>)
  {
    exists w :: 0 <= w < |ws| && ws[w].OwePop?
  }

  ghost predicate OwesFinish<T>(ws: seq<Worker<T>>)
  {
    exists w :: 0 <= w < |ws| && ws[w].OweFinish?
  }

  /** No wake-up is lost: a thread that waits although its condition holds is owed a signal. */
  ghost predicate WakeInv<T>(s: PoolState<T>)
  {
    && (s.alive && s.pending > 0 ==> s.client.OwePush? || Awake(s.workers))
    && (s.client.WaitPop? ==> s.pending == |s.slots| || OwesPop(s.workers))
    && (s.client.WaitFinish? ==> s.running != 0 || s.pending != 0 || OwesFinish(s.workers))
  }

  /** Shutdown: once dead, one phantom entry is pending for ever and nothing runs. */
  ghost predicate LifeInv<T>(s: PoolState<T>)
  {
    && (s.alive <==> !(s.client.OweBroadcast? || s.client.Joining? || s.client.Freed?))
    && (s.alive ==> forall w :: 0 <= w < |s.workers| ==> !s.workers[w].Exited?)
    && (s.client.KillLock? ==> s.running == 0 && s.pending == 0)
    && (!s.alive ==> s.pending == 1 && s.running == 0 && s.started == |s.submitted|)
    && (s.client.Joining? || s.client.Freed? ==>
          forall w :: 0 <= w < |s.workers| ==> !s.workers[w].WaitPush?)
    && (s.client.Joining? ==>
          s.client.next <= |s.workers| && forall w :: 0 <= w < s.client.next ==> s.workers[w].Exited?)
    && (s.client.Freed? ==> forall w :: 0 <= w < |s.workers| ==> s.workers[w].Exited?)
  }

  ghost predicate Inv<T>(s: PoolState<T>)
  {
    && |s.slots| > 0 && |s.workers| > 0
    && (s.alive ==> RingInv(s))
    && TaskInv(s) && WakeInv(s) && LifeInv(s)
  }
}
