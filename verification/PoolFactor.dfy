/** The whole of solver_factorize_threaded on the thread pool: block after block, each with its sequential part. */
module PoolFactor {
  import opened Factor
  import opened Solver
  import opened Pool
  import opened PoolInvariant
  import opened PoolBlock

  /** The number of jobs of the block that starts at row I. */
  function JobsAt(size: nat, nbThreads: nat, I: nat): nat
    requires I < size && nbThreads >= 1
  {
    if I + nbThreads > size then size - I else 2 * nbThreads
  }

  /** Rows before I are finished and the others untouched; `singularity` counts the rows before I. */
  ghost predicate Between<F(!new)>(p: Job<F>, c: seq<F>, singularity: nat, before: nat, I: nat)
    requires p.Ok() && I <= |p.diag|
  {
    && |c| == |p.a| && singularity == p.LastBlocked(I, before)
    && (forall r :: 0 <= r < I ==> p.RowDone(c, r))
    && (forall r :: I <= r < |p.diag| ==> p.RowAt(c, r, 0))
  }

  /** What the sequential part of a block leaves; FactorizeOnPool below shows that it is what FinishBlock computes. */
  ghost predicate Finishes<F(!new)>(p: Job<F>, c: seq<F>, c': seq<F>, singularity: nat, singularity': nat, before: nat,
                                    I: nat, nbJobs: nat)
    requires p.Ok() && I + nbJobs <= |p.diag|
  {
    && singularity == p.LastBlocked(I, before)
    && (forall r :: 0 <= r < I ==> p.RowDone(c, r))
    && (forall r :: I <= r < I + nbJobs ==> p.RowAt(c, r, I))
    && (forall r :: I + nbJobs <= r < |p.diag| ==> p.RowAt(c, r, 0))
    ==> Between(p, c', singularity', before, I + nbJobs)
  }

  /** haplo_pool_wait lets the client go on. */
  ghost predicate Returns(q: PoolState<nat>)
  {
    q.client.WaitLock? && |q.slots| > 0 && !Apply(q, CheckFinish).client.WaitFinish?
  }

  /** One block: any interleaving `es` of pool and tasks until the wait returns, then the sequential part. The steps of
      workers during the sequential part do not touch the matrix, and stand at the head of the next block. */
  datatype Round<!F(!new)> = Round(es: seq<Action>, end: System<F>, after: PoolState<nat>,
                                 coef: seq<F>, singularity: nat)

  ghost predicate IsRound<F(!new)>(p: Job<F>, nbJobs: nat, before: nat, c: seq<F>, singularity: nat, q: PoolState<nat>,
                                   I: nat, round: Round<F>)
    requires p.Ok() && I + nbJobs <= |p.diag|
  {
    && IsRun(Block(p, I, nbJobs, |q.submitted|), System(q, c, Starts(p.diag, I, nbJobs)), round.es, round.end)
    && Returns(round.end.pool) && round.after == Apply(round.end.pool, CheckFinish)
    && Finishes(p, round.end.coef, round.coef, singularity, round.singularity, before, I, nbJobs)
  }

  /** The loop over the blocks from row I on leaves the coefficients c' and the singularity singularity'. */
  ghost predicate Rounds<F(!new)>(p: Job<F>, nbThreads: nat, before: nat, c: seq<F>, singularity: nat,
                                  q: PoolState<nat>,
                                  I: nat, rounds: seq<Round<F>>, c': seq<F>, singularity': nat)
    requires p.Ok() && nbThreads >= 1
    decreases |rounds|
  {
    if I >= |p.diag| then rounds == [] && c' == c && singularity' == singularity
    else
      var nbJobs := JobsAt(|p.diag|, nbThreads, I);
      && rounds != [] && I + nbJobs <= |p.diag|
      && IsRound(p, nbJobs, before, c, singularity, q, I, rounds[0])
      && Rounds(p, nbThreads, before, rounds[0].coef, rounds[0].singularity, rounds[0].after, I + nbJobs, rounds[1..],
                c', singularity')
  }

  /** The pool between two blocks: the client is outside, and everything submitted is done. */
  ghost predicate AtRest(q: PoolState<nat>)
  {
    Inv(q) && q.client.Idle? && forall k :: 0 <= k < |q.submitted| ==> k in q.done
  }

  /** A block takes the matrix and the pool from one block to the next. */
  lemma OneRound<F(!new)>(p: Job<F>, nbJobs: nat, before: nat, c: seq<F>, singularity: nat, q: PoolState<nat>, I: nat,
                          round: Round<F>)
    requires p.Ok() && 1 <= I && I + nbJobs <= |p.diag| && (I == 1 || I >= p.skip)
    requires Between(p, c, singularity, before, I) && AtRest(q)
    requires IsRound(p, nbJobs, before, c, singularity, q, I, round)
    ensures Between(p, round.coef, round.singularity, before, I + nbJobs)
    ensures AtRest(round.after)
  {
    var b := Block(p, I, nbJobs, |q.submitted|);
    var s := System(q, c, Starts(p.diag, I, nbJobs));
    BlockOnPool(b, s, round.es, round.end);
    BlockStart(p, c, I, nbJobs);
    RunKeepsInv(b, s, round.es, round.end);
    PoolRests(b, round.end);
  }

  lemma PoolRests<F(!new)>(b: Block<F>, s: System<F>)
    requires b.BlockInv(s) && Returns(s.pool)
    ensures AtRest(Apply(s.pool, CheckFinish))
  {
    KeepsInv(s.pool, CheckFinish);
    forall k | 0 <= k < |s.pool.submitted|
      ensures k in s.pool.done
    {
      AllDone(s.pool, k);
    }
  }

  /** Before the block at row I, with the blocks `rounds` to come. */
  ghost predicate Underway<F(!new)>(p: Job<F>, nbThreads: nat, before: nat, c: seq<F>, singularity: nat,
                                    q: PoolState<nat>, I: nat, rounds: seq<Round<F>>, c': seq<F>, singularity': nat)
  {
    && p.Ok() && nbThreads >= 1 && p.skip == 1 + 2 * nbThreads && 1 <= I <= |p.diag|
    && Inside(|p.diag|, nbThreads, I) && (I == |p.diag| || I == 1 || I >= p.skip)
    && Between(p, c, singularity, before, I) && AtRest(q)
    && Rounds(p, nbThreads, before, c, singularity, q, I, rounds, c', singularity')
  }

  lemma UnderwayNext<F(!new)>(p: Job<F>, nbThreads: nat, before: nat, c: seq<F>, singularity: nat, q: PoolState<nat>,
                              I: nat, rounds: seq<Round<F>>, c': seq<F>, singularity': nat)
    requires Underway(p, nbThreads, before, c, singularity, q, I, rounds, c', singularity') && I < |p.diag|
    ensures var nbJobs := JobsAt(|p.diag|, nbThreads, I);
            && rounds != [] && nbJobs >= 1 && I + nbJobs <= |p.diag| && (I == 1 ==> I + nbJobs <= p.skip)
            && IsRound(p, nbJobs, before, c, singularity, q, I, rounds[0])
            && Underway(p, nbThreads, before, rounds[0].coef, rounds[0].singularity, rounds[0].after, I + nbJobs,
                        rounds[1..], c', singularity')
  {
    OneRound(p, JobsAt(|p.diag|, nbThreads, I), before, c, singularity, q, I, rounds[0]);
  }

  lemma UnderwayDone<F(!new)>(p: Job<F>, nbThreads: nat, before: nat, c: seq<F>, singularity: nat, q: PoolState<nat>,
                              I: nat, rounds: seq<Round<F>>, c': seq<F>, singularity': nat)
    requires Underway(p, nbThreads, before, c, singularity, q, I, rounds, c', singularity') && I >= |p.diag|
    ensures c == c' && singularity == singularity' && p.Factored(c) && singularity == p.LastBlocked(|p.diag|, before)
  {
  }

  lemma {:induction false} AllRounds<F(!new)>(p: Job<F>, nbThreads: nat, before: nat, c: seq<F>, singularity: nat,
                                              q: PoolState<nat>, I: nat, rounds: seq<Round<F>>, c': seq<F>,
                                              singularity': nat)
    requires Underway(p, nbThreads, before, c, singularity, q, I, rounds, c', singularity')
    ensures Between(p, c', singularity', before, |p.diag|)
    decreases |rounds|
  {
    if I < |p.diag| {
      UnderwayNext(p, nbThreads, before, c, singularity, q, I, rounds, c', singularity');
      AllRounds(p, nbThreads, before, rounds[0].coef, rounds[0].singularity, rounds[0].after,
                I + JobsAt(|p.diag|, nbThreads, I), rounds[1..], c', singularity');
    }
  }

  /** Main result: whatever the interleavings in all blocks, the factorisation on the pool leaves the factors and the
      singularity of the specification, which are those of the method that interleaves tasks itself. */
  lemma FactorOnPool<F(!new)>(p: Job<F>, nbThreads: nat, before: nat, q: PoolState<nat>, rounds: seq<Round<F>>,
                              c': seq<F>, singularity': nat)
    requires p.Ok() && nbThreads >= 1 && p.skip == 1 + 2 * nbThreads && BlocksFit(|p.diag|, nbThreads)
    requires AtRest(q) && Rounds(p, nbThreads, before, p.a, before, q, 1, rounds, c', singularity')
    ensures p.Factored(c') && singularity' == p.LastBlocked(|p.diag|, before)
  {
    BlocksStayInside(|p.diag|, nbThreads, 1);
    AllRounds(p, nbThreads, before, p.a, before, q, 1, rounds, c', singularity');
  }

  /** There is one matrix, and one singularity, between two blocks. */
  lemma BetweenUnique<F(!new)>(p: Job<F>, c: seq<F>, c': seq<F>, singularity: nat, singularity': nat, before: nat,
                               I: nat)
    requires p.Ok() && I <= |p.diag|
    requires Between(p, c, singularity, before, I) && Between(p, c', singularity', before, I)
    ensures c == c' && singularity == singularity'
  {
    PartialFactorsUnique(p, c, c', I);
  }

  /** One action, carried out: a column update in the matrix, or a step of the pool. */
  method RunAction<F(!new)>(mat: Matrix<F>, ar: Arith<F>, I: int, q: PoolState<nat>, next: seq<int>, a: Action,
                            ghost b: Block<F>)
    returns (q': PoolState<nat>, next': seq<int>)
    requires mat.Valid() && b.p.ar == ar && b.p.diag == mat.diag && b.I == I && b.Can(System(q, mat.coef[..], next), a)
    modifies mat.coef
    ensures mat.Valid() && System(q', mat.coef[..], next') == b.Do(System(q, old(mat.coef[..]), next), a)
  {
    q', next' := q, next;
    match a {
      case Protocol(e) =>
        q' := Apply(q, e);
      case Work(w) =>
        var id := q.workers[w].task;
        mat.UpdateColumn(ar, I + id, next[id]);
        next' := next[id := next[id] + 1];
    }
  }

  /** The actions of one block, carried out. */
  method RunBlock<F(!new)>(mat: Matrix<F>, ar: Arith<F>, I: int, nbJobs: nat, q: PoolState<nat>, es: seq<Action>,
                           ghost b: Block<F>, ghost end: System<F>) returns (q': PoolState<nat>)
    requires mat.Valid() && b.p.ar == ar && b.p.diag == mat.diag && b.I == I && b.size == nbJobs
    requires IsRun(b, System(q, mat.coef[..], Starts(mat.diag, I, nbJobs)), es, end)
    modifies mat.coef
    ensures mat.coef[..] == end.coef && q' == end.pool
  {
    var next := Starts(mat.diag, I, nbJobs);
    q' := q;
    var k := 0;
    while k < |es|
      invariant 0 <= k <= |es| && mat.Valid() && IsRun(b, System(q', mat.coef[..], next), es[k..], end)
    {
      assert es[k..][0] == es[k] && es[k..][1..] == es[k + 1..];
      q', next := RunAction(mat, ar, I, q', next, es[k], b);
      k := k + 1;
    }
  }

  /** solver_factorize_threaded with any interleaving of every block given: its actions, then the sequential part. */
  method FactorizeOnPool<F(!new)>(mat: Matrix<F>, ar: Arith<F>, nbThreads: nat, pool: PoolState<nat>,
                                  schedule: seq<seq<Action>>, ghost p: Job<F>, ghost rounds: seq<Round<F>>,
                                  ghost c': seq<F>, ghost singularity': nat)
    requires mat.Runs(ar, p) && Scheduled(schedule, rounds)
    requires Underway(p, nbThreads, mat.singularity, mat.coef[..], mat.singularity, pool, 1, rounds, c', singularity')
    modifies mat, mat.coef
    ensures mat.Valid() && mat.state == Factorised && mat.coef[..] == c' && mat.singularity == singularity'
    ensures p.Factored(mat.coef[..]) && mat.singularity == p.LastBlocked(|mat.diag|, old(mat.singularity))
  {
    ghost var before, rest := mat.singularity, rounds;
    var q, I, k := pool, 1, 0;
    while I < |mat.diag|
      invariant mat.Runs(ar, p) && k <= |schedule| && Scheduled(schedule[k..], rest)
      invariant Underway(p, nbThreads, before, mat.coef[..], mat.singularity, q, I, rest, c', singularity')
      decreases |mat.diag| - I
    {
      SomeRound(p, nbThreads, before, mat.coef[..], mat.singularity, q, I, rest, c', singularity');
      ScheduledNext(schedule, k, rest);
      q, I := NextBlock(mat, ar, nbThreads, I, q, schedule[k], p, before, rest, c', singularity');
      rest, k := rest[1..], k + 1;
    }
    UnderwayDone(p, nbThreads, before, mat.coef[..], mat.singularity, q, I, rest, c', singularity');
    mat.state := Factorised;
  }

  lemma ScheduledNext<F(!new)>(schedule: seq<seq<Action>>, k: nat, rest: seq<Round<F>>)
    requires k <= |schedule| && Scheduled(schedule[k..], rest) && rest != []
    ensures k < |schedule| && schedule[k] == rest[0].es && Scheduled(schedule[k + 1..], rest[1..])
  {
    assert schedule[k..][0] == schedule[k];
  }

  ghost predicate Scheduled<F(!new)>(schedule: seq<seq<Action>>, rounds: seq<Round<F>>)
  {
    |schedule| == |rounds| && forall k :: 0 <= k < |rounds| ==> schedule[k] == rounds[k].es
  }

  lemma SomeRound<F(!new)>(p: Job<F>, nbThreads: nat, before: nat, c: seq<F>, singularity: nat, q: PoolState<nat>,
                           I: nat, rounds: seq<Round<F>>, c': seq<F>, singularity': nat)
    requires Underway(p, nbThreads, before, c, singularity, q, I, rounds, c', singularity') && I < |p.diag|
    ensures rounds != [] && nbThreads >= 1
  {
  }

  /** One turn of that loop. */
  method NextBlock<F(!new)>(mat: Matrix<F>, ar: Arith<F>, nbThreads: nat, I: nat, q: PoolState<nat>, es: seq<Action>,
                            ghost p: Job<F>, ghost before: nat, ghost rest: seq<Round<F>>, ghost c': seq<F>,
                            ghost singularity': nat) returns (q': PoolState<nat>, I': nat)
    requires mat.Runs(ar, p) && I < |mat.diag| && nbThreads >= 1 && rest != [] && es == rest[0].es
    requires Underway(p, nbThreads, before, mat.coef[..], mat.singularity, q, I, rest, c', singularity')
    modifies mat.coef, mat`singularity
    ensures mat.Runs(ar, p) && I < I'
    ensures Underway(p, nbThreads, before, mat.coef[..], mat.singularity, q', I', rest[1..], c', singularity')
  {
    var nbJobs := JobsAt(|mat.diag|, nbThreads, I);
    ghost var round := rest[0];
    UnderwayNext(p, nbThreads, before, mat.coef[..], mat.singularity, q, I, rest, c', singularity');
    I' := I + nbJobs;
    assert Underway(p, nbThreads, before, round.coef, round.singularity, round.after, I', rest[1..], c', singularity');
    q' := BlockAndFinish(mat, ar, I, nbJobs, q, es, p, before, round);
  }

  /** One block, and its sequential part. */
  method BlockAndFinish<F(!new)>(mat: Matrix<F>, ar: Arith<F>, I: nat, nbJobs: nat, q: PoolState<nat>, es: seq<Action>,
                                 ghost p: Job<F>, ghost before: nat, ghost round: Round<F>) returns (q': PoolState<nat>)
    requires mat.Runs(ar, p) && AtRest(q) && es == round.es
    requires 1 <= I && nbJobs >= 1 && I + nbJobs <= |mat.diag| && (I == 1 || I >= p.skip)
    requires I == 1 ==> I + nbJobs <= p.skip
    requires Between(p, mat.coef[..], mat.singularity, before, I)
    requires IsRound(p, nbJobs, before, mat.coef[..], mat.singularity, q, I, round)
    modifies mat.coef, mat`singularity
    ensures mat.Runs(ar, p) && mat.coef[..] == round.coef && mat.singularity == round.singularity
    ensures Between(p, mat.coef[..], mat.singularity, before, I + nbJobs)
    ensures q' == round.after && AtRest(q')
  {
    ghost var b := Block(p, I, nbJobs, |q.submitted|);
    ghost var s := System(q, mat.coef[..], Starts(p.diag, I, nbJobs));
    OneRound(p, nbJobs, before, mat.coef[..], mat.singularity, q, I, round);
    BlockOnPool(b, s, round.es, round.end);
    q' := RunBlock(mat, ar, I, nbJobs, q, es, b, round.end);
    q' := Apply(q', CheckFinish);
    mat.FinishBlock(ar, I, nbJobs, p, before);
    BetweenUnique(p, mat.coef[..], round.coef, mat.singularity, round.singularity, before, I + nbJobs);
  }

  /** A new pool is at rest. */
  lemma NewPoolRests(q: PoolState<nat>)
    requires Initial(q)
    ensures AtRest(q)
  {
    InitialInv(q);
  }
}
