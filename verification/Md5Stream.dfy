/** MD5 of a message given piece by piece: MD5Init, MD5Update, MD5Final and byte_reverse of identity.c. */
module Md5Stream {
  import opened Md5Block
  import opened Md5Words

  /** Section 3.4 of RFC 1321: a block is 16 words, low-order byte first. */
  function WordsOf(block: seq<Byte>): (X: seq<Word>)
    requires |block| == 64
    ensures |X| == 16
  {
    seq(16, k requires 0 <= k < 16 =>
      FromBytes(block[4 * k], block[4 * k + 1], block[4 * k + 2], block[4 * k + 3]))
  }

  function Absorb(h: Regs<Word>, block: seq<Byte>): Regs<Word>
  {
    if |block| == 64 then Md5().Compress(h, WordsOf(block)) else h
  }

  /** All full blocks of the data, one after the other, for any way to absorb a block. */
  function Fold<H>(absorb: (H, seq<Byte>) -> H, h: H, data: seq<Byte>): H
  {
    if |data| < 64 then h else Fold(absorb, absorb(h, data[..64]), data[64..])
  }

  /** Section 3.3. */
  function Start(): Regs<Word>
  {
    Regs(0x67452301, 0xefcdab89, 0x98badcfe, 0x10325476)
  }

  function Zeros(n: nat): (z: seq<Byte>)
    ensures |z| == n
  {
    seq(n, _ => 0)
  }

  /** The message length in bits modulo 2^64, low word first, each word low byte first. */
  function LengthBytes(n: nat): (b: seq<Byte>)
    ensures |b| == 8
  {
    Store(LittleEndian, LowWord(n)) + Store(LittleEndian, HighWord(n))
  }

  function LowWord(n: nat): Word { 8 * n % 0x1_0000_0000 }

  function HighWord(n: nat): Word { 8 * n / 0x1_0000_0000 % 0x1_0000_0000 }

  /** Sections 3.1 and 3.2: a byte 0x80, zeros up to 56 modulo 64, then the length. */
  function Padded(msg: seq<Byte>): seq<Byte>
  {
    PaddedWith(msg, LengthBytes(|msg|))
  }

  function PaddedWith(msg: seq<Byte>, size: seq<Byte>): seq<Byte>
  {
    msg + [0x80] + Zeros(ZeroCount(|msg|)) + size
  }

  function ZeroCount(n: nat): nat
  {
    if Pending(n) < 56 then 55 - Pending(n) else 119 - Pending(n)
  }

  /** Section 3.5. */
  function Encode(h: Regs<Word>): seq<Byte>
  {
    Store(LittleEndian, h.a) + Store(LittleEndian, h.b) + Store(LittleEndian, h.c) + Store(LittleEndian, h.d)
  }

  function Digest(msg: seq<Byte>): seq<Byte>
  {
    Encode(Fold(Absorb, Start(), Padded(msg)))
  }

  /** One block is added to the full ones, or two when the length does not fit. */
  lemma PaddedInBlocks(msg: seq<Byte>)
    ensures |Padded(msg)| == 64 * (|msg| / 64 + if Pending(|msg|) < 56 then 1 else 2)
  {
    assert |Padded(msg)| == |msg| + 9 + ZeroCount(|msg|);
  }

  /** One more full block. */
  lemma {:induction false} FoldBlock<H>(absorb: (H, seq<Byte>) -> H, h: H, a: seq<Byte>, block: seq<Byte>)
    requires |a| % 64 == 0 && |block| == 64
    ensures Fold(absorb, h, a + block) == absorb(Fold(absorb, h, a), block)
    decreases |a|
  {
    if a == [] {
      assert a + block == block;
      assert block[..64] == block && block[64..] == [];
    } else {
      assert (a + block)[..64] == a[..64] && (a + block)[64..] == a[64..] + block;
      FoldBlock(absorb, absorb(h, a[..64]), a[64..], block);
    }
  }

  /** An incomplete block is not absorbed. */
  lemma {:induction false} FoldTail<H>(absorb: (H, seq<Byte>) -> H, h: H, a: seq<Byte>, tail: seq<Byte>)
    requires |a| % 64 == 0 && |tail| < 64
    ensures Fold(absorb, h, a + tail) == Fold(absorb, h, a)
    decreases |a|
  {
    if a == [] {
      assert a + tail == tail;
    } else {
      assert (a + tail)[..64] == a[..64] && (a + tail)[64..] == a[64..] + tail;
      FoldTail(absorb, absorb(h, a[..64]), a[64..], tail);
    }
  }

  /** The bytes of a message not absorbed yet. */
  function Pending(n: nat): nat { n % 64 }

  lemma WholeBlocks(n: nat)
    ensures (n - Pending(n)) % 64 == 0
  {
  }

  /** The two halves of the bit count after len more bytes. */
  lemma CountAdds(n: nat, len: nat)
    requires len < 0x1_0000_0000
    ensures var t := LowWord(n);
            var low := (t + 8 * len % 0x1_0000_0000) % 0x1_0000_0000;
            && LowWord(n + len) == low
            && HighWord(n + len)
               == ((if low < t then (HighWord(n) + 1) % 0x1_0000_0000 else HighWord(n)) + len / 0x2000_0000)
                  % 0x1_0000_0000
  {
    var q, t := 8 * n / 0x1_0000_0000, LowWord(n);
    var p, l := len / 0x2000_0000, 8 * (len % 0x2000_0000);
    var carry := if t + l >= 0x1_0000_0000 then 1 else 0;
    QuotientIs(8 * len, p, l);
    QuotientIs(t + l, carry, t + l - 0x1_0000_0000 * carry);
    QuotientIs(8 * (n + len), q + p + carry, t + l - 0x1_0000_0000 * carry);
    SumModulo(q, p + carry);
    SumModulo(q + carry, p);
    SumModulo(q, carry);
  }

  lemma QuotientIs(x: nat, q: nat, r: nat)
    requires r < 0x1_0000_0000 && x == 0x1_0000_0000 * q + r
    ensures x / 0x1_0000_0000 == q && x % 0x1_0000_0000 == r
  {
  }

  lemma SumModulo(x: nat, y: nat)
    ensures (x + y) % 0x1_0000_0000 == (x % 0x1_0000_0000 + y) % 0x1_0000_0000
  {
  }

  lemma PendingOfCount(n: nat)
    ensures LowWord(n) / 8 % 64 == Pending(n)
  {
  }

  /** The full blocks of a message. */
  function Done(msg: seq<Byte>): seq<Byte> { msg[..|msg| - Pending(|msg|)] }

  /** The bytes behind them. */
  function Rest(msg: seq<Byte>): seq<Byte> { msg[|msg| - Pending(|msg|)..] }

  lemma Parts<H>(absorb: (H, seq<Byte>) -> H, h: H, msg: seq<Byte>)
    ensures Done(msg) + Rest(msg) == msg
    ensures |Done(msg)| % 64 == 0 && |Rest(msg)| == Pending(|msg|)
    ensures Fold(absorb, h, msg) == Fold(absorb, h, Done(msg))
  {
    WholeBlocks(|msg|);
    FoldTail(absorb, h, Done(msg), Rest(msg));
    assert Done(msg) + Rest(msg) == msg;
  }

  lemma PartsAre(done: seq<Byte>, rest: seq<Byte>)
    requires |done| % 64 == 0 && |rest| < 64
    ensures Done(done + rest) == done && Rest(done + rest) == rest
  {
    assert Pending(|done + rest|) == |rest|;
  }

  lemma Join(a: seq<Byte>, b: seq<Byte>, c: seq<Byte>)
    ensures (a + b) + c == a + (b + c)
  {
  }

  /** Too few bytes to complete a block. */
  lemma StillPending<H>(absorb: (H, seq<Byte>) -> H, h: H, msg: seq<Byte>, data: seq<Byte>)
    requires Pending(|msg|) + |data| < 64
    ensures Fold(absorb, h, msg + data) == Fold(absorb, h, msg)
    ensures Rest(msg + data) == Rest(msg) + data
  {
    Parts(absorb, h, msg);
    Join(Done(msg), Rest(msg), data);
    PartsAre(Done(msg), Rest(msg) + data);
    Parts(absorb, h, msg + data);
  }

  /** One more block behind the full blocks of msg. */
  lemma NextIs<H>(absorb: (H, seq<Byte>) -> H, h: H, msg: seq<Byte>, block: seq<Byte>, all: seq<Byte>)
    requires |block| == 64 && all == Done(msg) + block
    ensures |all| % 64 == 0 && Fold(absorb, h, all) == absorb(Fold(absorb, h, msg), block)
  {
    Parts(absorb, h, msg);
    FoldBlock(absorb, h, Done(msg), block);
  }

  /** The block completed by the first bytes of data. */
  lemma FirstBlock<H>(absorb: (H, seq<Byte>) -> H, h: H, msg: seq<Byte>, some: seq<Byte>, block: seq<Byte>)
    requires Pending(|msg|) + |some| == 64 == |block|
    requires block == Rest(msg) + some
    ensures |msg + some| % 64 == 0 && Fold(absorb, h, msg + some) == absorb(Fold(absorb, h, msg), block)
  {
    Parts(absorb, h, msg);
    Join(Done(msg), Rest(msg), some);
    assert msg + some == Done(msg) + block;
    NextIs(absorb, h, msg, block, msg + some);
  }

  lemma Prefix(msg: seq<Byte>, data: seq<Byte>, pos: nat)
    requires pos <= |data|
    ensures (msg + data)[..|msg| + pos] == msg + data[..pos]
    ensures pos == 0 ==> msg + data[..pos] == msg
  {
  }

  /** The next chunk of the data. */
  lemma NextBlock<H>(absorb: (H, seq<Byte>) -> H, h: H, msg: seq<Byte>, data: seq<Byte>, pos: nat)
    requires pos + 64 <= |data| && (|msg| + pos) % 64 == 0
    ensures Fold(absorb, h, (msg + data)[..|msg| + pos + 64])
            == absorb(Fold(absorb, h, (msg + data)[..|msg| + pos]), data[pos..pos + 64])
  {
    FoldBlock(absorb, h, (msg + data)[..|msg| + pos], data[pos..pos + 64]);
    assert (msg + data)[..|msg| + pos + 64] == (msg + data)[..|msg| + pos] + data[pos..pos + 64];
  }

  /** The bytes left over. */
  lemma LastBytes<H>(absorb: (H, seq<Byte>) -> H, h: H, msg: seq<Byte>, data: seq<Byte>, pos: nat)
    requires pos <= |data| < pos + 64 && (|msg| + pos) % 64 == 0
    ensures Fold(absorb, h, msg + data) == Fold(absorb, h, (msg + data)[..|msg| + pos])
    ensures Rest(msg + data) == data[pos..] && Pending(|msg + data|) == |data| - pos
  {
    var c := |msg| + pos;
    assert (msg + data)[c..] == data[pos..];
    FoldTail(absorb, h, (msg + data)[..c], data[pos..]);
    assert msg + data == (msg + data)[..c] + data[pos..];
    PartsAre((msg + data)[..c], data[pos..]);
  }

  /** Two more blocks. */
  lemma NextTwo<H>(absorb: (H, seq<Byte>) -> H, h: H, msg: seq<Byte>, one: seq<Byte>, two: seq<Byte>, all: seq<Byte>)
    requires |one| == |two| == 64 && all == (Done(msg) + one) + two
    ensures Fold(absorb, h, all) == absorb(absorb(Fold(absorb, h, msg), one), two)
  {
    var done := Done(msg) + one;
    NextIs(absorb, h, msg, one, done);
    FoldBlock(absorb, h, done, two);
  }

  /** The last block when the padding fits in the current one. */
  lemma PaddedInOne(msg: seq<Byte>, head: seq<Byte>, size: seq<Byte>)
    requires Pending(|msg|) < 56 && |size| == 8
    requires head == Rest(msg) + [0x80] + Zeros(55 - Pending(|msg|))
    ensures |head| == 56 && PaddedWith(msg, size) == Done(msg) + (head + size)
  {
    Split(Done(msg), Rest(msg), [0x80], Zeros(55 - Pending(|msg|)), size);
  }

  /** The last two blocks when it does not. */
  lemma PaddedInTwo(msg: seq<Byte>, block: seq<Byte>, size: seq<Byte>)
    requires Pending(|msg|) >= 56 && |size| == 8
    requires block == Rest(msg) + [0x80] + Zeros(63 - Pending(|msg|))
    ensures |block| == 64 && PaddedWith(msg, size) == (Done(msg) + block) + (Zeros(56) + size)
  {
    var z := Zeros(63 - Pending(|msg|));
    assert Zeros(119 - Pending(|msg|)) == z + Zeros(56);
    Split(msg, [0x80], z, Zeros(56), size);
    Split(Done(msg), Rest(msg), [0x80], z, Zeros(56) + size);
  }

  lemma Split(a: seq<Byte>, b: seq<Byte>, c: seq<Byte>, d: seq<Byte>, e: seq<Byte>)
    ensures a + b + (c + d) + e == a + b + c + (d + e)
    ensures a + b + c + d + e == a + (b + c + d) + e == a + ((b + c + d) + e)
  {
  }
}
