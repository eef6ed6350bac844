/** The debugging allocator of memory.c: a list of live blocks and its statistics. */
module MemoryLedger {
  import opened Options

  datatype Block = Block(addr: nat, size: nat)

  /** memory_usage, memory_size, memory_max and the counters. */
  datatype State = State(usage: seq<Block>, size: nat, max: nat, mallocs: nat, frees: nat, reallocs: nat) {

    ghost predicate Inv(nullReallocs: nat)
    {
      && Distinct(usage) && (forall i :: 0 <= i < |usage| ==> usage[i].addr != 0)
      && size == Total(usage)
      && mallocs + nullReallocs == frees + |usage|
    }
  }

  ghost predicate Distinct(usage: seq<Block>)
  {
    forall i, j :: 0 <= i < j < |usage| ==> usage[i].addr != usage[j].addr
  }

  function Total(usage: seq<Block>): nat
  {
    if usage == [] then 0 else Total(usage[..|usage| - 1]) + usage[|usage| - 1].size
  }

  /** A call; `got` is the address the C library returns, 0 for a failure. */
  datatype Op = Malloc(size: nat, got: nat) | TryMalloc(size: nat, got: nat) | Free(p: nat)
      | Realloc(p: nat, size: nat, got: nat)

  predicate IsLive(usage: seq<Block>, p: nat)
  {
    exists i :: 0 <= i < |usage| && usage[i].addr == p
  }

  /** The library never returns an address that is in use, other than the one being reallocated. */
  predicate Possible(s: State, op: Op)
  {
    match op
    case Malloc(_, got) => !IsLive(s.usage, got)
    case TryMalloc(_, got) => !IsLive(s.usage, got)
    case Free(_) => true
    case Realloc(p, _, got) => got == p || !IsLive(s.usage, got)
  }

  /** Place of the block with address p, |usage| when there is none. */
  function Find(usage: seq<Block>, p: nat): (i: nat)
    ensures i <= |usage|
    ensures i < |usage| ==> usage[i].addr == p
    ensures i == |usage| ==> forall k :: 0 <= k < |usage| ==> usage[k].addr != p
    ensures forall k :: 0 <= k < i ==> usage[k].addr != p
  {
    FindFrom(usage, p, 0)
  }

  function FindFrom(usage: seq<Block>, p: nat, from: nat): (i: nat)
    requires from <= |usage| && forall k :: 0 <= k < from ==> usage[k].addr != p
    ensures from <= i <= |usage|
    ensures i < |usage| ==> usage[i].addr == p
    ensures forall k :: 0 <= k < i ==> usage[k].addr != p
    decreases |usage| - from
  {
    if from == |usage| || usage[from].addr == p then from else FindFrom(usage, p, from + 1)
  }

  function Max(x: nat, y: nat): nat { if x < y then y else x }

  function Allocated(s: State, size: nat, got: nat): State
  {
    State(s.usage + [Block(got, size)], s.size + size, Max(s.max, s.size + size), s.mallocs + 1, s.frees, s.reallocs)
  }

  /** What a call leaves, None when it ends the process. */
  function Step(s: State, op: Op): Option<State>
    requires s.size >= Total(s.usage)
  {
    match op
    case Malloc(size, got) => if size == 0 || got == 0 then None else Some(Allocated(s, size, got))
    case TryMalloc(size, got) => if size == 0 then None else if got == 0 then Some(s) else Some(Allocated(s, size, got))
    case Free(p) =>
      var i := Find(s.usage, p);
      if p == 0 || i == |s.usage| then None
      else
        RemoveTotal(s.usage, i);
        Some(s.(usage := s.usage[..i] + s.usage[i + 1..], size := s.size - s.usage[i].size, frees := s.frees + 1))
    case Realloc(p, size, got) =>
      var i := if p == 0 then |s.usage| else Find(s.usage, p);
      if got == 0 || (p != 0 && i == |s.usage|) then None
      else if p == 0 then
        Some(s.(usage := s.usage + [Block(got, size)], size := s.size + size, reallocs := s.reallocs + 1))
      else
        RemoveTotal(s.usage, i);
        Some(s.(usage := s.usage[i := Block(got, size)], size := s.size - s.usage[i].size + size,
                reallocs := s.reallocs + 1))
  }

  lemma {:induction false} RemoveTotal(usage: seq<Block>, i: nat)
    requires i < |usage|
    ensures Total(usage) == Total(usage[..i] + usage[i + 1..]) + usage[i].size
    ensures usage[i].size <= Total(usage)
  {
    var n := |usage| - 1;
    var less := usage[..i] + usage[i + 1..];
    if i == n {
      assert less == usage[..n];
    } else {
      RemoveTotal(usage[..n], i);
      assert less[..|less| - 1] == usage[..n][..i] + usage[..n][i + 1..];
    }
  }

  lemma {:induction false} ReplaceTotal(usage: seq<Block>, i: nat, b: Block)
    requires i < |usage|
    ensures Total(usage[i := b]) == Total(usage) - usage[i].size + b.size
  {
    var n := |usage| - 1;
    assert usage[i := b][..n] == if i == n then usage[..n] else usage[..n][i := b];
    if i < n {
      ReplaceTotal(usage[..n], i, b);
    }
  }

  lemma AppendTotal(usage: seq<Block>, b: Block)
    ensures Total(usage + [b]) == Total(usage) + b.size
  {
    assert (usage + [b])[..|usage|] == usage;
  }

  function IsNullRealloc(op: Op): nat
  {
    if op.Realloc? && op.p == 0 then 1 else 0
  }

  /** Every call that does not end the process keeps the books. */
  lemma StepKeepsInv(s: State, op: Op, nulls: nat)
    requires s.Inv(nulls) && Possible(s, op) && Step(s, op).Some?
    ensures Step(s, op).value.Inv(nulls + IsNullRealloc(op))
  {
    match op
    case Malloc(size, got) => AppendKeepsInv(s, size, got);
    case TryMalloc(size, got) =>
      if got != 0 {
        AppendKeepsInv(s, size, got);
      }
    case Free(p) => RemoveKeepsInv(s, Find(s.usage, p), nulls);
    case Realloc(p, size, got) => ReallocKeepsInv(s, p, size, got, nulls, Step(s, op).value);
  }

  lemma ReallocKeepsInv(s: State, p: nat, size: nat, got: nat, nulls: nat, r: State)
    requires s.Inv(nulls) && Possible(s, Realloc(p, size, got)) && Step(s, Realloc(p, size, got)) == Some(r)
    ensures r.Inv(nulls + if p == 0 then 1 else 0)
  {
    if p == 0 {
      AppendKeepsInv(s, size, got);
    } else {
      ReplaceKeepsInv(s, Find(s.usage, p), Block(got, size), nulls);
    }
  }

  lemma RemoveKeepsInv(s: State, i: nat, nulls: nat)
    requires s.Inv(nulls) && i < |s.usage|
    ensures s.size >= s.usage[i].size
    ensures s.(usage := s.usage[..i] + s.usage[i + 1..], size := s.size - s.usage[i].size,
               frees := s.frees + 1).Inv(nulls)
  {
    RemoveTotal(s.usage, i);
    var less := s.usage[..i] + s.usage[i + 1..];
    assert forall k :: 0 <= k < |less| ==> less[k] == s.usage[if k < i then k else k + 1];
  }

  lemma ReplaceKeepsInv(s: State, i: nat, b: Block, nulls: nat)
    requires s.Inv(nulls) && i < |s.usage| && b.addr != 0 && (b.addr == s.usage[i].addr || !IsLive(s.usage, b.addr))
    ensures s.size >= s.usage[i].size
    ensures s.(usage := s.usage[i := b], size := s.size - s.usage[i].size + b.size,
               reallocs := s.reallocs + 1).Inv(nulls)
  {
    RemoveTotal(s.usage, i);
    ReplaceTotal(s.usage, i, b);
  }

  lemma AppendKeepsInv(s: State, size: nat, got: nat)
    requires Distinct(s.usage) && (forall i :: 0 <= i < |s.usage| ==> s.usage[i].addr != 0) && s.size == Total(s.usage)
    requires !IsLive(s.usage, got) && got != 0
    ensures var s' := Allocated(s, size, got);
            && Distinct(s'.usage) && (forall i :: 0 <= i < |s'.usage| ==> s'.usage[i].addr != 0)
            && s'.size == Total(s'.usage)
  {
    AppendTotal(s.usage, Block(got, size));
  }

  /** es leads from s to s' without ending the process, with `nulls` reallocations of a null pointer. */
  ghost predicate Runs(s: State, ops: seq<Op>, s': State, before: nat, after: nat)
    requires s.Inv(before)
    decreases |ops|
  {
    if ops == [] then s' == s && after == before
    else
      Possible(s, ops[0]) && Step(s, ops[0]).Some?
      && (StepKeepsInv(s, ops[0], before);
          Runs(Step(s, ops[0]).value, ops[1..], s', before + IsNullRealloc(ops[0]), after))
  }

  /** Over every run the live addresses differ, memory_size is the sum of the live sizes, and allocations, null
      reallocations and frees account for the length of the list. */
  lemma {:induction false} RunKeepsInv(s: State, ops: seq<Op>, s': State, before: nat, after: nat)
    requires s.Inv(before) && Runs(s, ops, s', before, after)
    ensures s'.Inv(after)
    decreases |ops|
  {
    if ops != [] {
      StepKeepsInv(s, ops[0], before);
      RunKeepsInv(Step(s, ops[0]).value, ops[1..], s', before + IsNullRealloc(ops[0]), after);
    }
  }

  /** What clients hold, told from the calls alone: the sizes of live blocks by address. */
  function Replay(live: map<nat, nat>, op: Op): map<nat, nat>
  {
    match op
    case Malloc(size, got) => live[got := size]
    case TryMalloc(size, got) => if got == 0 then live else live[got := size]
    case Free(p) => live - {p}
    case Realloc(p, size, got) => (live - {p})[got := size]
  }

  /** The list holds exactly these blocks. */
  ghost predicate Lists(usage: seq<Block>, live: map<nat, nat>)
  {
    && (forall i :: 0 <= i < |usage| ==> usage[i].addr in live && live[usage[i].addr] == usage[i].size)
    && (forall a :: a in live ==> IsLive(usage, a))
  }

  /** A call ends the process exactly when it asks for nothing, gets nothing where it must, or names no live block. */
  lemma EndsIff(s: State, op: Op, live: map<nat, nat>, nulls: nat)
    requires s.Inv(nulls) && Lists(s.usage, live)
    ensures Step(s, op).None? <==>
            match op
            case Malloc(size, got) => size == 0 || got == 0
            case TryMalloc(size, _) => size == 0
            case Free(p) => p !in live
            case Realloc(p, _, got) => got == 0 || (p != 0 && p !in live)
  {
    if op.Free? || op.Realloc? {
      assert op.p in live <==> IsLive(s.usage, op.p);
    }
  }

  /** Every other call changes the list as it changes what clients hold: one block new, one gone, or one replaced. */
  lemma StepReplays(s: State, op: Op, live: map<nat, nat>, nulls: nat)
    requires s.Inv(nulls) && Lists(s.usage, live) && Possible(s, op) && Step(s, op).Some?
    ensures Lists(Step(s, op).value.usage, Replay(live, op))
  {
    var r := Step(s, op).value;
    match op
    case Malloc(size, got) => ListsMore(s.usage, Block(got, size), live);
    case TryMalloc(size, got) =>
      if got != 0 {
        ListsMore(s.usage, Block(got, size), live);
      }
    case Free(p) => ListsLess(s.usage, Find(s.usage, p), live);
    case Realloc(p, size, got) =>
      if p == 0 {
        assert live - {p} == live;
        ListsMore(s.usage, Block(got, size), live);
      } else {
        ListsOther(s.usage, Find(s.usage, p), Block(got, size), live);
      }
  }

  lemma ListsMore(usage: seq<Block>, b: Block, live: map<nat, nat>)
    requires Lists(usage, live) && !IsLive(usage, b.addr)
    ensures Lists(usage + [b], live[b.addr := b.size])
  {
    var more := usage + [b];
    assert more[|usage|] == b;
    forall a | a in live
      ensures IsLive(more, a)
    {
      var i :| 0 <= i < |usage| && usage[i].addr == a;
      assert more[i] == usage[i];
    }
  }

  lemma ListsLess(usage: seq<Block>, i: nat, live: map<nat, nat>)
    requires Lists(usage, live) && Distinct(usage) && i < |usage|
    ensures Lists(usage[..i] + usage[i + 1..], live - {usage[i].addr})
  {
    var less := usage[..i] + usage[i + 1..];
    forall k | 0 <= k < |less|
      ensures less[k].addr in live - {usage[i].addr} && live[less[k].addr] == less[k].size
    {
      assert less[k] == usage[if k < i then k else k + 1];
    }
    forall a | a in live - {usage[i].addr}
      ensures IsLive(less, a)
    {
      var k :| 0 <= k < |usage| && usage[k].addr == a;
      assert less[if k < i then k else k - 1] == usage[k];
    }
  }

  lemma ListsOther(usage: seq<Block>, i: nat, b: Block, live: map<nat, nat>)
    requires Lists(usage, live) && Distinct(usage) && i < |usage|
    requires b.addr == usage[i].addr || !IsLive(usage, b.addr)
    ensures Lists(usage[i := b], (live - {usage[i].addr})[b.addr := b.size])
  {
    var other := usage[i := b];
    forall a | a in (live - {usage[i].addr})[b.addr := b.size]
      ensures IsLive(other, a)
    {
      if a == b.addr {
        assert other[i] == b;
      } else {
        var k :| 0 <= k < |usage| && usage[k].addr == a;
        assert other[k] == usage[k];
      }
    }
  }

  lemma BlocksWithout(usage: seq<Block>, i: nat)
    requires i < |usage|
    ensures Distinct(usage) ==>
              forall b :: b in usage[..i] + usage[i + 1..] <==> b in usage && b.addr != usage[i].addr
  {
    var less := usage[..i] + usage[i + 1..];
    assert usage == usage[..i] + [usage[i]] + usage[i + 1..];
    forall k | 0 <= k < |less|
      ensures less[k] in usage && (Distinct(usage) ==> less[k].addr != usage[i].addr)
    {
      assert less[k] == usage[if k < i then k else k + 1];
    }
  }

  lemma BlocksWith(usage: seq<Block>, i: nat, other: Block)
    requires i < |usage|
    ensures Distinct(usage) ==>
              forall b :: b in usage[i := other] <==> b == other || (b in usage && b.addr != usage[i].addr)
  {
    var all := usage[i := other];
    assert all[i] == other;
    forall b | b in usage && b.addr != usage[i].addr
      ensures b in all
    {
      var k :| 0 <= k < |usage| && usage[k] == b;
      assert all[k] == b;
    }
  }

  function Count(ops: seq<Op>, f: Op -> bool): nat
    decreases |ops|
  {
    if ops == [] then 0 else (if f(ops[0]) then 1 else 0) + Count(ops[1..], f)
  }

  /** The three counters count the calls: allocations that were given a block, frees and reallocations. */
  lemma {:induction false} CountersFollow(s: State, ops: seq<Op>, s': State, before: nat, after: nat)
    requires s.Inv(before) && Runs(s, ops, s', before, after)
    ensures s'.mallocs == s.mallocs + Count(ops, (op: Op) => op.Malloc? || (op.TryMalloc? && op.got != 0))
    ensures s'.frees == s.frees + Count(ops, (op: Op) => op.Free?)
    ensures s'.reallocs == s.reallocs + Count(ops, (op: Op) => op.Realloc?)
    decreases |ops|
  {
    if ops != [] {
      StepKeepsInv(s, ops[0], before);
      CountersFollow(Step(s, ops[0]).value, ops[1..], s', before + IsNullRealloc(ops[0]), after);
    }
  }

  function ReplayAll(live: map<nat, nat>, ops: seq<Op>): map<nat, nat>
    decreases |ops|
  {
    if ops == [] then live else ReplayAll(Replay(live, ops[0]), ops[1..])
  }

  /** Over every run the list holds exactly the blocks that the calls leave with the clients. */
  lemma {:induction false} RunReplays(s: State, ops: seq<Op>, s': State, before: nat, after: nat, live: map<nat, nat>)
    requires s.Inv(before) && Runs(s, ops, s', before, after) && Lists(s.usage, live)
    ensures Lists(s'.usage, ReplayAll(live, ops))
    decreases |ops|
  {
    if ops != [] {
      StepKeepsInv(s, ops[0], before);
      StepReplays(s, ops[0], live, before);
      RunReplays(Step(s, ops[0]).value, ops[1..], s', before + IsNullRealloc(ops[0]), after, Replay(live, ops[0]));
    }
  }

  /** A reallocation to a larger block, or of nothing. */
  predicate Grows(s: State, op: Op)
  {
    op.Realloc? && op.size > Previous(s, op.p)
  }

  /** The size a reallocation takes away from memory_size. */
  function Previous(s: State, p: nat): nat
  {
    var i := Find(s.usage, p);
    if p == 0 || i == |s.usage| then 0 else s.usage[i].size
  }

  /** A reallocation to more than the largest size recorded so far. */
  predicate GoesBeyond(s: State, op: Op)
  {
    op.Realloc? && s.size - Previous(s, op.p) + op.size > s.max
  }

  /** memory_max still bounds memory_size after a call, and is the largest size so far, unless the call is a
      reallocation that goes beyond it. */
  lemma MaxAfterIff(s: State, op: Op, nulls: nat)
    requires s.Inv(nulls) && Possible(s, op) && Step(s, op).Some? && s.size <= s.max
    ensures var s' := Step(s, op).value;
            && (s'.size <= s'.max <==> !GoesBeyond(s, op))
            && (s'.max == Max(s.max, s'.size) <==> !GoesBeyond(s, op))
  {
    if op.Realloc? {
      assert op.p != 0 ==> Previous(s, op.p) == s.usage[Find(s.usage, op.p)].size;
    }
  }

  /** At every moment memory_max is the peak of memory_size, `peak` being the largest size before. */
  ghost predicate PeakKept(s: State, ops: seq<Op>, before: nat, peak: nat)
    requires s.Inv(before)
    decreases |ops|
  {
    && s.max == peak
    && (ops == [] || !Possible(s, ops[0]) || Step(s, ops[0]).None? ||
        (StepKeepsInv(s, ops[0], before);
         var s1 := Step(s, ops[0]).value;
         PeakKept(s1, ops[1..], before + IsNullRealloc(ops[0]), Max(peak, s1.size))))
  }

  /** No reallocation goes beyond the maximum of its moment. */
  ghost predicate NoneBeyond(s: State, ops: seq<Op>, before: nat)
    requires s.Inv(before)
    decreases |ops|
  {
    ops == [] || !Possible(s, ops[0]) || Step(s, ops[0]).None? ||
    (!GoesBeyond(s, ops[0])
     && (StepKeepsInv(s, ops[0], before);
         NoneBeyond(Step(s, ops[0]).value, ops[1..], before + IsNullRealloc(ops[0]))))
  }

  /** Over a whole run memory_max is always the peak of memory_size if and only if no reallocation goes beyond it. */
  lemma {:induction false} PeakKeptIff(s: State, ops: seq<Op>, before: nat)
    requires s.Inv(before) && s.size <= s.max
    ensures PeakKept(s, ops, before, s.max) <==> NoneBeyond(s, ops, before)
    decreases |ops|
  {
    if ops != [] && Possible(s, ops[0]) && Step(s, ops[0]).Some? {
      StepKeepsInv(s, ops[0], before);
      MaxAfterIff(s, ops[0], before);
      if !GoesBeyond(s, ops[0]) {
        PeakKeptIff(Step(s, ops[0]).value, ops[1..], before + IsNullRealloc(ops[0]));
      }
    }
  }

  ghost predicate NeverGrows(s: State, ops: seq<Op>, before: nat)
    requires s.Inv(before)
    decreases |ops|
  {
    ops == [] || !Possible(s, ops[0]) || Step(s, ops[0]).None? ||
    (!Grows(s, ops[0])
     && (StepKeepsInv(s, ops[0], before);
         NeverGrows(Step(s, ops[0]).value, ops[1..], before + IsNullRealloc(ops[0]))))
  }

  lemma {:induction false} MaxBoundsSize(s: State, ops: seq<Op>, s': State, before: nat, after: nat)
    requires s.Inv(before) && Runs(s, ops, s', before, after) && NeverGrows(s, ops, before) && s.size <= s.max
    ensures s'.size <= s'.max
    decreases |ops|
  {
    if ops != [] {
      StepKeepsInv(s, ops[0], before);
      MaxAfterIff(s, ops[0], before);
      MaxBoundsSize(Step(s, ops[0]).value, ops[1..], s', before + IsNullRealloc(ops[0]), after);
    }
  }

  /** The maximal size reported misses what a reallocation adds. */
  lemma GrowthIsNotRecorded()
    ensures var s0 := State([], 0, 0, 0, 0, 0);
            var s1 := Step(s0, Malloc(1, 100));
            && s1.Some? && s1.value.size >= Total(s1.value.usage)
            && var s2 := Step(s1.value, Realloc(100, 5, 200));
               s2.Some? && s2.value.size == 5 && s2.value.max == 1
  {
    var s0 := State([], 0, 0, 0, 0, 0);
    AppendTotal([], Block(100, 1));
    assert [] + [Block(100, 1)] == [Block(100, 1)];
  }

  class Ledger {
    var usage: seq<Block>
    var size: nat
    var max: nat
    var mallocs: nat
    var frees: nat
    var reallocs: nat

    constructor ()
      ensures S() == State([], 0, 0, 0, 0, 0) && S().Inv(0)
    {
      usage, size, max, mallocs, frees, reallocs := [], 0, 0, 0, 0, 0;
    }

    function S(): State
      reads this
    {
      State(usage, size, max, mallocs, frees, reallocs)
    }

    /** The walk along the list. */
    method Search(p: nat) returns (i: nat)
      ensures i == Find(usage, p)
    {
      i := 0;
      while i < |usage| && usage[i].addr != p
        invariant 0 <= i <= |usage| && forall k :: 0 <= k < i ==> usage[k].addr != p
      {
        i := i + 1;
      }
    }

    method Record(bytes: nat, got: nat)
      modifies this
      ensures S() == Allocated(old(S()), bytes, got)
    {
      mallocs := mallocs + 1;
      size := size + bytes;
      if max < size {
        max := size;
      }
      usage := usage + [Block(got, bytes)];
    }

    /** haplo_malloc_debug. */
    method MallocDebug(bytes: nat, got: nat) returns (ended: bool)
      requires size >= Total(usage)
      modifies this
      ensures ended <==> Step(old(S()), Malloc(bytes, got)).None?
      ensures !ended ==> Some(S()) == Step(old(S()), Malloc(bytes, got))
    {
      ended := bytes == 0 || got == 0;
      if !ended {
        Record(bytes, got);
      }
    }

    /** haplo_trymalloc_debug. */
    method TryMallocDebug(bytes: nat, got: nat) returns (ended: bool)
      requires size >= Total(usage)
      modifies this
      ensures ended <==> Step(old(S()), TryMalloc(bytes, got)).None?
      ensures !ended ==> Some(S()) == Step(old(S()), TryMalloc(bytes, got))
    {
      ended := bytes == 0;
      if !ended && got != 0 {
        Record(bytes, got);
      }
    }

    /** haplo_free_debug. */
    method FreeDebug(p: nat) returns (ended: bool)
      requires size >= Total(usage)
      modifies this
      ensures ended <==> Step(old(S()), Free(p)).None?
      ensures !ended ==> Some(S()) == Step(old(S()), Free(p))
      ensures ended <==> p == 0 || !IsLive(old(usage), p)
      ensures !ended && Distinct(old(usage)) ==> forall b :: b in usage <==> b in old(usage) && b.addr != p
    {
      if p == 0 {
        return true;
      }
      var i := Search(p);
      ended := i == |usage|;
      if !ended {
        Unlink(i);
        BlocksWithout(old(usage), i);
      }
    }

    /** The block at place i leaves the list. */
    method Unlink(i: nat)
      requires size >= Total(usage) && i < |usage|
      modifies this
      ensures old(size) >= old(usage[i].size)
      ensures S() == old(S().(usage := usage[..i] + usage[i + 1..], frees := frees + 1))
                     .(size := old(size) - old(usage[i].size))
    {
      RemoveTotal(usage, i);
      size := size - usage[i].size;
      usage := usage[..i] + usage[i + 1..];
      frees := frees + 1;
    }

    /** haplo_realloc_debug. */
    method ReallocDebug(p: nat, bytes: nat, got: nat) returns (ended: bool)
      requires size >= Total(usage)
      modifies this
      ensures ended <==> Step(old(S()), Realloc(p, bytes, got)).None?
      ensures !ended ==> Some(S()) == Step(old(S()), Realloc(p, bytes, got))
      ensures ended <==> got == 0 || (p != 0 && !IsLive(old(usage), p))
      ensures !ended && Distinct(old(usage)) ==>
                forall b :: b in usage <==> b == Block(got, bytes) || (b in old(usage) && (p == 0 || b.addr != p))
    {
      var i, previous := |usage|, 0;
      if p != 0 {
        i := Search(p);
        if i == |usage| {
          return true;
        }
        RemoveTotal(usage, i);
        previous := usage[i].size;
      }
      if got == 0 {
        return true;
      }
      ghost var before := usage;
      if p == 0 {
        usage := usage + [Block(0, 0)];
      }
      reallocs := reallocs + 1;
      size := size + bytes - previous;
      usage := usage[i := Block(got, bytes)];
      assert p == 0 ==> usage == before + [Block(got, bytes)];
      if p != 0 {
        BlocksWith(before, i, Block(got, bytes));
      }
      ended := false;
    }
  }
}
