/** The block cache of memory.c: a stack of freed blocks in front of the allocator. */
module MemoryCache {

  /** slot[head..] holds the cached blocks; `live` are the blocks the allocator has given out and not got back,
      `out` those the clients hold. */
  datatype State = State(slot: seq<nat>, head: nat, live: set<nat>, out: set<nat>, mallocs: nat, frees: nat) {

    /** Every block is with exactly one client or in the cache once. */
    ghost predicate Inv()
    {
      && head <= |slot|
      && (forall i, j :: head <= i < j < |slot| ==> slot[i] != slot[j])
      && (forall i :: head <= i < |slot| ==> slot[i] !in out && slot[i] in live)
      && (forall p :: p in live ==> p in out || p in slot[head..])
      && out <= live
      && mallocs == frees + |live|
    }
  }

  datatype Op = Get(fresh_: nat) | Release(p: nat)

  /** The allocator gives addresses that are not in use; clients release what they hold. */
  predicate Allowed(s: State, op: Op)
  {
    match op
    case Get(a) => a !in s.live
    case Release(p) => p in s.out
  }

  /** The block haplo_mcache_get returns. */
  function Result(s: State, a: nat): nat
  {
    if s.head < |s.slot| then s.slot[s.head] else a
  }

  function Step(s: State, op: Op): State
    requires s.head <= |s.slot|
  {
    match op
    case Get(a) =>
      if s.head < |s.slot| then s.(head := s.head + 1, out := s.out + {s.slot[s.head]})
      else s.(live := s.live + {a}, out := s.out + {a}, mallocs := s.mallocs + 1)
    case Release(p) =>
      if s.head > 0 then s.(head := s.head - 1, slot := s.slot[s.head - 1 := p], out := s.out - {p})
      else s.(live := s.live - {p}, out := s.out - {p}, frees := s.frees + 1)
  }

  lemma GetKeepsInv(s: State, a: nat)
    requires s.Inv() && Allowed(s, Get(a))
    ensures Step(s, Get(a)).Inv() && Result(s, a) !in s.out && Step(s, Get(a)).out == s.out + {Result(s, a)}
  {
    var s' := Step(s, Get(a));
    if s.head < |s.slot| {
      assert s.slot[s.head..] == [s.slot[s.head]] + s'.slot[s'.head..];
    }
  }

  lemma ReleaseKeepsInv(s: State, p: nat)
    requires s.Inv() && Allowed(s, Release(p))
    ensures Step(s, Release(p)).Inv()
  {
    var s' := Step(s, Release(p));
    if s.head > 0 {
      assert s'.slot[s'.head..] == [p] + s.slot[s.head..];
    }
  }

  /** The state after some calls, if all of them are allowed. */
  ghost predicate Runs(s: State, ops: seq<Op>, s': State)
    requires s.Inv()
    decreases |ops|
  {
    if ops == [] then s' == s
    else Allowed(s, ops[0]) && (OneKeepsInv(s, ops[0]); Runs(Step(s, ops[0]), ops[1..], s'))
  }

  lemma OneKeepsInv(s: State, op: Op)
    requires s.Inv() && Allowed(s, op)
    ensures Step(s, op).Inv()
  {
    match op
    case Get(a) => GetKeepsInv(s, a);
    case Release(p) => ReleaseKeepsInv(s, p);
  }

  /** Over every run the blocks allocated and not freed are those outstanding and those cached. */
  lemma {:induction false} RunBalances(s: State, ops: seq<Op>, s': State)
    requires s.Inv() && Runs(s, ops, s')
    ensures s'.Inv() && s'.mallocs - s'.frees == |s'.out| + (|s'.slot| - s'.head)
    decreases |ops|
  {
    if ops == [] {
      LiveCount(s);
    } else {
      OneKeepsInv(s, ops[0]);
      RunBalances(Step(s, ops[0]), ops[1..], s');
    }
  }

  lemma LiveCount(s: State)
    requires s.Inv()
    ensures |s.live| == |s.out| + (|s.slot| - s.head)
  {
    var cached := set i | s.head <= i < |s.slot| :: s.slot[i];
    CountFrom(s.slot, s.head);
    assert s.live == s.out + cached;
    assert s.out !! cached;
  }

  lemma {:induction false} CountFrom(slot: seq<nat>, head: nat)
    requires head <= |slot| && forall i, j :: head <= i < j < |slot| ==> slot[i] != slot[j]
    ensures |set i | head <= i < |slot| :: slot[i]| == |slot| - head
    decreases |slot| - head
  {
    if head < |slot| {
      CountFrom(slot, head + 1);
      assert (set i | head <= i < |slot| :: slot[i]) == (set i | head + 1 <= i < |slot| :: slot[i]) + {slot[head]};
    }
  }

  /** A block just released is the next one handed out, unless the cache was full. */
  lemma ReleaseThenGet(s: State, p: nat, a: nat)
    requires s.Inv() && Allowed(s, Release(p)) && s.head > 0
    ensures Result(Step(s, Release(p)), a) == p
    ensures Step(Step(s, Release(p)), Get(a)) == s.(slot := s.slot[s.head - 1 := p])
  {
    assert s.out - {p} + {p} == s.out;
  }

  /** The allocator behind the cache. */
  class Heap {
    ghost var live: set<nat>
    var mallocs: nat
    var frees: nat

    constructor ()
      ensures live == {} && mallocs == frees == 0
    {
      live, mallocs, frees := {}, 0, 0;
    }

    /** malloc gives the address a. */
    method Malloc(a: nat) returns (p: nat)
      requires a !in live
      modifies this
      ensures p == a && live == old(live) + {a} && mallocs == old(mallocs) + 1 && frees == old(frees)
    {
      live, mallocs := live + {a}, mallocs + 1;
      p := a;
    }

    method Free(p: nat)
      requires p in live
      modifies this
      ensures live == old(live) - {p} && frees == old(frees) + 1 && mallocs == old(mallocs)
    {
      live, frees := live - {p}, frees + 1;
    }
  }

  class Cache {
    const heap: Heap
    const slot: array<nat>
    var head: nat
    ghost var out: set<nat>

    /** haplo_mcache_new. */
    constructor (heap: Heap, size: nat)
      requires heap.live == {} && heap.mallocs == heap.frees
      ensures this.heap == heap && fresh(slot) && slot.Length == size && S().Inv() && out == {}
      ensures S() == State(slot[..], size, {}, {}, heap.mallocs, heap.frees)
    {
      this.heap := heap;
      slot := new nat[size](_ => 0);
      head, out := size, {};
    }

    ghost function S(): State
      reads this, heap, slot
    {
      State(slot[..], head, heap.live, out, heap.mallocs, heap.frees)
    }

    /** haplo_mcache_get; a is the address malloc would give. */
    method Get(a: nat) returns (p: nat)
      requires S().Inv() && Allowed(S(), Op.Get(a))
      modifies this, heap
      ensures S() == Step(old(S()), Op.Get(a)) && S().Inv()
      ensures p == Result(old(S()), a) && p !in old(out) && out == old(out) + {p}
    {
      GetKeepsInv(S(), a);
      if head < slot.Length {
        p := slot[head];
        head := head + 1;
      } else {
        p := heap.Malloc(a);
      }
      out := out + {p};
    }

    /** haplo_mcache_release. */
    method Release(p: nat)
      requires S().Inv() && Allowed(S(), Op.Release(p))
      modifies this, heap, slot
      ensures S() == Step(old(S()), Op.Release(p)) && S().Inv()
    {
      ghost var s := S();
      ReleaseKeepsInv(s, p);
      if head > 0 {
        head := head - 1;
        slot[head] := p;
        assert slot[..] == s.slot[head := p];
      } else {
        heap.Free(p);
      }
      out := out - {p};
    }

    /** haplo_mcache_free: what is left allocated is exactly what the clients still hold. */
    method FreeAll()
      requires S().Inv()
      modifies heap
      ensures heap.live == out
      ensures heap.frees == old(heap.frees) + (slot.Length - head) && heap.mallocs == old(heap.mallocs)
      ensures heap.mallocs - heap.frees == |out|
    {
      LiveCount(S());
      var i := head;
      while i < slot.Length
        invariant head <= i <= slot.Length
        invariant heap.live <= old(heap.live) && out <= heap.live
        invariant forall k :: i <= k < slot.Length ==> slot[k] in heap.live
        invariant forall p :: p in heap.live ==> p in out || p in slot[i..]
        invariant heap.frees == old(heap.frees) + (i - head) && heap.mallocs == old(heap.mallocs)
      {
        assert slot[i..] == [slot[i]] + slot[i + 1..];
        heap.Free(slot[i]);
        i := i + 1;
      }
    }
  }
}
