/** The running context of identity.c, overwritten by every call. */
module Md5Context {
  import opened Md5Block
  import opened Md5Words
  import opened Md5Stream

  /** The words a host sees in 64 bytes of memory. */
  function NativeWords(host: Host, b: seq<Byte>): (X: seq<Word>)
    requires |b| == 64
    ensures |X| == 16
  {
    seq(16, k requires 0 <= k < 16 => Load(host, b[4 * k..4 * k + 4]))
  }

  /** Four bytes as byte_reverse leaves them: unchanged, or reversed on a big-endian host. */
  function Reversed(host: Host, b: seq<Byte>): (r: seq<Byte>)
    requires |b| == 4
    ensures |r| == 4 && Load(host, r) == FromBytes(b[0], b[1], b[2], b[3])
  {
    if host == LittleEndian then b else [b[3], b[2], b[1], b[0]]
  }

  /** Group k of four bytes. */
  function Group(b: seq<Byte>, k: nat): (g: seq<Byte>)
    requires 4 * k + 4 <= |b|
    ensures |g| == 4
  {
    b[4 * k..4 * k + 4]
  }

  /** byte_reverse, on the first `longs` groups of four bytes. */
  method ByteReverse(host: Host, buf: array<Byte>, longs: nat)
    requires longs >= 1 && 4 * longs <= buf.Length
    modifies buf
    ensures forall k :: 0 <= k < longs ==> Group(buf[..], k) == Reversed(host, Group(old(buf[..]), k))
    ensures buf[4 * longs..] == old(buf[4 * longs..])
  {
    if host == BigEndian {
      ghost var b := buf[..];
      var i := 0;
      while i < longs
        invariant 0 <= i <= longs
        invariant forall k :: 0 <= k < i ==> Group(buf[..], k) == Reversed(host, Group(b, k))
        invariant forall q :: 4 * i <= q < buf.Length ==> buf[q] == b[q]
      {
        ghost var before := buf[..];
        var t := Store(host, FromBytes(buf[4 * i], buf[4 * i + 1], buf[4 * i + 2], buf[4 * i + 3]));
        buf[4 * i], buf[4 * i + 1], buf[4 * i + 2], buf[4 * i + 3] := t[0], t[1], t[2], t[3];
        LoadInjective(host, t, Reversed(host, Group(b, i)));
        forall k | 0 <= k <= i
          ensures Group(buf[..], k) == Reversed(host, Group(b, k))
        {
          assert k < i ==> Group(buf[..], k) == Group(before, k);
        }
        i := i + 1;
      }
    }
  }

  lemma BytesOf(b0: Byte, b1: Byte, b2: Byte, b3: Byte)
    ensures var w := FromBytes(b0, b1, b2, b3);
            w % 256 == b0 && w / 256 % 256 == b1 && w / 65536 % 256 == b2 && w / 0x100_0000 == b3
  {
    var w := FromBytes(b0, b1, b2, b3);
    assert w / 256 == (b3 * 256 + b2) * 256 + b1;
    assert w / 65536 == b3 * 256 + b2;
  }

  /** Two groups of bytes that load as the same word are equal. */
  lemma LoadInjective(host: Host, a: seq<Byte>, b: seq<Byte>)
    requires |a| == |b| == 4 && Load(host, a) == Load(host, b)
    ensures a == b
  {
    if host == LittleEndian {
      BytesOf(a[0], a[1], a[2], a[3]);
      BytesOf(b[0], b[1], b[2], b[3]);
    } else {
      BytesOf(a[3], a[2], a[1], a[0]);
      BytesOf(b[3], b[2], b[1], b[0]);
    }
  }

  /** What the digest is: the bytes byte_reverse leaves of the registers in memory, on either host. */
  lemma EncodeOnHost(host: Host, w: Word)
    ensures Reversed(host, Store(host, w)) == Store(LittleEndian, w)
  {
    LoadInjective(LittleEndian, Store(LittleEndian, w), Reversed(LittleEndian, Store(LittleEndian, w)));
  }

  lemma StoreReversed(host: Host, w: Word)
    ensures Store(host, w) == Reversed(host, Store(LittleEndian, w))
  {
    LoadInjective(host, Store(host, w), Reversed(host, Store(LittleEndian, w)));
  }

  /** After byte_reverse the host sees the words of the standard. */
  lemma NativeIsStandard(host: Host, before: seq<Byte>, after: seq<Byte>)
    requires |before| == |after| == 64
    requires forall k :: 0 <= k < 16 ==> Group(after, k) == Reversed(host, Group(before, k))
    ensures NativeWords(host, after) == WordsOf(before)
  {
    forall k | 0 <= k < 16
      ensures NativeWords(host, after)[k] == WordsOf(before)[k]
    {
      assert Group(after, k) == Reversed(host, Group(before, k));
    }
  }

  /** absorb treats this block as the standard does. */
  ghost predicate Same(absorb: (Regs<Word>, seq<Byte>) -> Regs<Word>, h: Regs<Word>, b: seq<Byte>)
  {
    absorb(h, b) == Absorb(h, b)
  }

  lemma AbsorbIsSound() returns (absorb: (Regs<Word>, seq<Byte>) -> Regs<Word>)
    ensures absorb == Absorb && forall h, b :: Same(absorb, h, b)
  {
    absorb := Absorb;
  }

  /** Group k of an array overwritten. */
  method CopyGroup(out: array<Byte>, k: nat, b: seq<Byte>)
    requires 4 * k + 4 <= out.Length && |b| == 4
    modifies out
    ensures Group(out[..], k) == b
    ensures forall q | 0 <= q < k :: Group(out[..], q) == Group(old(out[..]), q)
  {
    out[4 * k], out[4 * k + 1], out[4 * k + 2], out[4 * k + 3] := b[0], b[1], b[2], b[3];
  }

  /** Groups of four bytes side by side in memory. */
  method InMemory(groups: seq<seq<Byte>>) returns (out: array<Byte>)
    requires forall k :: 0 <= k < |groups| ==> |groups[k]| == 4
    ensures fresh(out) && out.Length == 4 * |groups|
    ensures forall k :: 0 <= k < |groups| ==> Group(out[..], k) == groups[k]
  {
    out := new Byte[4 * |groups|](_ => 0);
    var i := 0;
    while i < |groups|
      invariant 0 <= i <= |groups|
      invariant forall k :: 0 <= k < i ==> Group(out[..], k) == groups[k]
      modifies out
    {
      CopyGroup(out, i, groups[i]);
      i := i + 1;
    }
  }

  /** The registers in memory after byte_reverse are the digest of the standard. */
  lemma EncodedRegisters(host: Host, h: Regs<Word>, before: seq<Byte>, after: seq<Byte>)
    requires |before| == |after| == 16
    requires Group(before, 0) == Store(host, h.a) && Group(before, 1) == Store(host, h.b)
    requires Group(before, 2) == Store(host, h.c) && Group(before, 3) == Store(host, h.d)
    requires forall k :: 0 <= k < 4 ==> Group(after, k) == Reversed(host, Group(before, k))
    ensures after == Encode(h)
  {
    EncodeOnHost(host, h.a);
    EncodeOnHost(host, h.b);
    EncodeOnHost(host, h.c);
    EncodeOnHost(host, h.d);
    assert after == Group(after, 0) + Group(after, 1) + Group(after, 2) + Group(after, 3);
  }

  class Context {
    const host: Host
    /** How a block changes the registers, and the registers at the start. */
    ghost const absorb: (Regs<Word>, seq<Byte>) -> Regs<Word>
    ghost const start: Regs<Word>
    const buf: array<Word>
    var bits0: Word
    var bits1: Word
    const inn: array<Byte>

    ghost predicate Shape()
    {
      && buf.Length == 4 && inn.Length == 64
      && forall h, b :: Same(absorb, h, b)
    }

    function Registers(): Regs<Word>
      requires Shape()
      reads buf
    {
      Regs(buf[0], buf[1], buf[2], buf[3])
    }

    /** The full blocks of msg are absorbed and the other bytes are in the input buffer. */
    ghost predicate Absorbed(msg: seq<Byte>)
      reads buf, inn
    {
      && Shape()
      && Registers() == Fold(absorb, start, msg)
      && inn[..Pending(|msg|)] == Rest(msg)
    }

    /** The bit count of n bytes. */
    ghost predicate Counted(n: nat)
      reads this
    {
      bits0 == LowWord(n) && bits1 == HighWord(n)
    }

    /** The context has taken in exactly the bytes msg, however they were cut up. */
    ghost predicate Holds(msg: seq<Byte>)
      reads this, buf, inn
    {
      Absorbed(msg) && Counted(|msg|)
    }

    constructor (host: Host)
      ensures Holds([]) && absorb == Absorb && start == Start()
      ensures fresh(buf) && fresh(inn) && this.host == host
    {
      ghost var f := AbsorbIsSound();
      this.host, absorb, start := host, f, Start();
      buf := new Word[4](_ => 0);
      inn := new Byte[64](_ => 0);
      bits0, bits1 := 0, 0;
      new;
      Init();
    }

    /** MD5Init. */
    method Init()
      requires Shape() && start == Start()
      modifies this`bits0, this`bits1, buf
      ensures Holds([])
    {
      buf[0], buf[1], buf[2], buf[3] := 0x67452301, 0xefcdab89, 0x98badcfe, 0x10325476;
      bits0, bits1 := 0, 0;
    }

    /** byte_reverse followed by MD5Transform on the input buffer. */
    method TakeBlock()
      requires Shape()
      modifies buf, inn
      ensures Registers() == absorb(old(Registers()), old(inn[..]))
    {
      ghost var before := inn[..];
      assert Same(absorb, Registers(), before);
      Md5Lawful();
      ByteReverse(host, inn, 16);
      NativeIsStandard(host, before, inn[..]);
      Transform(Md5(), buf, NativeWords(host, inn[..]));
    }

    /** memcpy into the input buffer. */
    method CopyIn(at: nat, data: seq<Byte>)
      requires Shape() && at + |data| <= 64
      modifies inn
      ensures inn[..] == old(inn[..at]) + data + old(inn[at + |data|..])
    {
      ghost var was := inn[..];
      var i := 0;
      while i < |data|
        invariant 0 <= i <= |data|
        invariant forall q :: 0 <= q < 64 ==> inn[q] == if at <= q < at + i then data[q - at] else was[q]
      {
        inn[at + i] := data[i];
        i := i + 1;
      }
      assert inn[..] == was[..at] + data + was[at + |data|..];
    }

    /** The bit count of MD5Update; `was` is the number of bytes in the input buffer. */
    method Count(len: nat, ghost n: nat) returns (was: nat)
      requires Counted(n) && len < 0x1_0000_0000
      modifies this`bits0, this`bits1
      ensures Counted(n + len) && was == Pending(n)
    {
      CountAdds(n, len);
      PendingOfCount(n);
      var t := bits0;
      bits0 := (t + 8 * len % 0x1_0000_0000) % 0x1_0000_0000;
      if bits0 < t {
        bits1 := (bits1 + 1) % 0x1_0000_0000;
      }
      bits1 := (bits1 + len / 0x2000_0000) % 0x1_0000_0000;
      was := t / 8 % 64;
    }

    /** MD5Update: the arrival of `data` after msg. */
    method Update(data: seq<Byte>, ghost msg: seq<Byte>)
      requires Holds(msg) && |data| < 0x1_0000_0000
      modifies this, buf, inn
      ensures Holds(msg + data)
    {
      var t := Count(|data|, |msg|);
      if t != 0 && |data| < 64 - t {
        Keep(t, data, msg);
      } else {
        Take(t, data, msg);
      }
    }

    /** Data too short to complete a block. */
    method Keep(t: nat, data: seq<Byte>, ghost msg: seq<Byte>)
      requires Absorbed(msg) && t == |Rest(msg)| && t + |data| < 64
      modifies inn
      ensures Absorbed(msg + data)
    {
      StillPending(absorb, start, msg, data);
      assert Pending(|msg + data|) == t + |data| by {
        Parts(absorb, start, msg + data);
        Parts(absorb, start, msg);
      }
      CopyIn(t, data);
      assert inn[..t + |data|] == old(inn[..t]) + data;
    }

    /** Data that completes the block begun in the input buffer, if there is one. */
    method Take(t: nat, data: seq<Byte>, ghost msg: seq<Byte>)
      requires Absorbed(msg) && t == |Rest(msg)| && (t == 0 || t + |data| >= 64)
      modifies buf, inn
      ensures Absorbed(msg + data)
    {
      var pos := 0;
      if t != 0 {
        pos := 64 - t;
        Complete(data[..pos], msg);
      } else {
        assert msg + data[..0] == msg;
      }
      TakeRest(data, pos, msg);
    }

    /** The bytes that complete a block. */
    method Complete(some: seq<Byte>, ghost msg: seq<Byte>)
      requires Absorbed(msg) && |Rest(msg)| + |some| == 64
      modifies buf, inn
      ensures Registers() == Fold(absorb, start, msg + some) && |msg + some| % 64 == 0
    {
      CopyIn(64 - |some|, some);
      FirstBlock(absorb, start, msg, some, inn[..]);
      TakeBlock();
    }

    /** The 64-byte chunks of MD5Update, then the remaining bytes. */
    method TakeRest(data: seq<Byte>, from: nat, ghost msg: seq<Byte>)
      requires Shape() && from <= |data| && |msg + data[..from]| % 64 == 0
      requires Registers() == Fold(absorb, start, msg + data[..from])
      modifies buf, inn
      ensures Absorbed(msg + data)
    {
      ghost var full := msg + data;
      Prefix(msg, data, from);
      var pos := from;
      while |data| - pos >= 64
        invariant from <= pos <= |data| && (|msg| + pos) % 64 == 0
        invariant Registers() == Fold(absorb, start, full[..|msg| + pos])
      {
        NextBlock(absorb, start, msg, data, pos);
        CopyIn(0, data[pos..pos + 64]);
        assert inn[..] == data[pos..pos + 64];
        TakeBlock();
        pos := pos + 64;
      }
      LastBytes(absorb, start, msg, data, pos);
      CopyIn(0, data[pos..]);
    }

    /** The padding of MD5Final, up to the length `size`; both ways to pad. */
    method Pad(ghost msg: seq<Byte>, ghost size: seq<Byte>)
      requires Holds(msg) && |size| == 8
      modifies buf, inn
      ensures Fold(absorb, start, PaddedWith(msg, size)) == absorb(Registers(), inn[..56] + size)
    {
      PendingOfCount(|msg|);
      var count := bits0 / 8 % 64;
      CopyIn(count, [0x80]);
      var room := 64 - 1 - count;
      if room < 8 {
        CopyIn(count + 1, Zeros(room));
        ghost var block := inn[..];
        PaddedInTwo(msg, block, size);
        NextTwo(absorb, start, msg, block, Zeros(56) + size, PaddedWith(msg, size));
        TakeBlock();
        CopyIn(0, Zeros(56));
        assert inn[..56] == Zeros(56);
      } else {
        CopyIn(count + 1, Zeros(room - 8));
        PaddedInOne(msg, inn[..56], size);
        NextIs(absorb, start, msg, inn[..56] + size, PaddedWith(msg, size));
      }
    }

    /** MD5Final. */
    method Final(ghost msg: seq<Byte>) returns (digest: seq<Byte>)
      requires Holds(msg)
      modifies this, buf, inn
      ensures digest == Encode(Fold(absorb, start, Padded(msg)))
      ensures Registers() == Regs(0, 0, 0, 0) && bits0 == bits1 == 0 && inn[..] == Zeros(64)
    {
      Pad(msg, LengthBytes(|msg|));
      AppendLength(|msg|);
      digest := Output();
    }

    /** The last block of MD5Final: 56 bytes in place, then the two words of the bit count. */
    method AppendLength(ghost n: nat)
      requires Shape() && Counted(n)
      modifies buf, inn
      ensures Registers() == absorb(old(Registers()), old(inn[..56]) + LengthBytes(n))
    {
      ghost var before := inn[..];
      assert Same(absorb, Registers(), before[..56] + LengthBytes(n));
      ByteReverse(host, inn, 14);
      ghost var middle := inn[..];
      var l, h := Store(host, bits0), Store(host, bits1);
      CopyIn(56, l);
      CopyIn(60, h);
      StoreReversed(host, LowWord(n));
      StoreReversed(host, HighWord(n));
      FinalWords(host, before, middle, inn[..], l, h, Store(LittleEndian, LowWord(n)),
                 Store(LittleEndian, HighWord(n)));
      Md5Lawful();
      Transform(Md5(), buf, NativeWords(host, inn[..]));
    }

    /** memcpy of the registers to the digest, byte_reverse on either side, and memset of the whole context. */
    method Output() returns (digest: seq<Byte>)
      requires Shape()
      modifies this, buf, inn
      ensures digest == Encode(old(Registers()))
      ensures Registers() == Regs(0, 0, 0, 0) && bits0 == bits1 == 0 && inn[..] == Zeros(64)
    {
      var out := InMemory([Store(host, buf[0]), Store(host, buf[1]), Store(host, buf[2]), Store(host, buf[3])]);
      ghost var native := out[..];
      ByteReverse(host, out, 4);
      digest := out[..];
      EncodedRegisters(host, Registers(), native, digest);
      Clear();
    }

    /** memset of the whole context. */
    method Clear()
      requires Shape()
      modifies this, buf, inn
      ensures Registers() == Regs(0, 0, 0, 0) && bits0 == bits1 == 0 && inn[..] == Zeros(64)
    {
      buf[0], buf[1], buf[2], buf[3] := 0, 0, 0, 0;
      bits0, bits1 := 0, 0;
      CopyIn(0, Zeros(64));
    }
  }

  /** The words of the last block, on either host: l0 and h0 are the count as the host stores it, l and h in the
      order of the standard. */
  lemma FinalWords(host: Host, before: seq<Byte>, middle: seq<Byte>, after: seq<Byte>,
                   l0: seq<Byte>, h0: seq<Byte>, l: seq<Byte>, h: seq<Byte>)
    requires |before| == |middle| == |after| == 64 && |l0| == |h0| == |l| == |h| == 4
    requires forall k :: 0 <= k < 14 ==> Group(middle, k) == Reversed(host, Group(before, k))
    requires after == middle[..56] + l0 + h0
    requires l0 == Reversed(host, l) && h0 == Reversed(host, h)
    ensures NativeWords(host, after) == WordsOf(before[..56] + (l + h))
  {
    var block := before[..56] + (l + h);
    forall k | 0 <= k < 16
      ensures Group(after, k) == Reversed(host, Group(block, k))
    {
      FinalGroup(before, middle, after, l0, h0, l, h, k);
    }
    NativeIsStandard(host, block, after);
  }

  lemma FinalGroup(before: seq<Byte>, middle: seq<Byte>, after: seq<Byte>,
                   l0: seq<Byte>, h0: seq<Byte>, l: seq<Byte>, h: seq<Byte>, k: nat)
    requires |before| == |middle| == 64 && |l0| == |h0| == |l| == |h| == 4 && k < 16
    requires after == middle[..56] + l0 + h0
    ensures Group(after, k) == if k < 14 then Group(middle, k) else if k == 14 then l0 else h0
    ensures Group(before[..56] + (l + h), k) == if k < 14 then Group(before, k) else if k == 14 then l else h
  {
    TailGroups(middle[..56], l0, h0, k);
    TailGroups(before[..56], l, h, k);
    assert (middle[..56] + l0) + h0 == middle[..56] + (l0 + h0);
    assert k < 14 ==> Group(middle[..56], k) == Group(middle, k) && Group(before[..56], k) == Group(before, k);
  }

  lemma TailGroups(head: seq<Byte>, l: seq<Byte>, h: seq<Byte>, k: nat)
    requires |head| == 56 && |l| == |h| == 4 && k < 16
    ensures Group(head + (l + h), k) == if k < 14 then Group(head, k) else if k == 14 then l else h
  {
    var all := head + (l + h);
    if k < 14 {
      assert all[4 * k..4 * k + 4] == head[4 * k..4 * k + 4];
    } else if k == 14 {
      assert all[56..60] == l;
    } else {
      assert all[60..64] == h;
    }
  }
}
