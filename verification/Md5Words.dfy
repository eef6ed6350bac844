/** The operations of MD5 on 32-bit words, and the byte orders identity.c deals with. */
module Md5Words {
  import opened Md5Block

  const MODULUS: nat := 0x1_0000_0000

  type Byte = b: nat | b < 256
  type Word = w: nat | w < 0x1_0000_0000

  function Bits(w: Word): bv32 { w as bv32 }

  function OfBits(b: bv32): Word { b as Word }

  function Add(x: Word, y: Word): Word { (x + y) % MODULUS }

  function WordOf(n: nat): Word { n % MODULUS }

  function Rotate(w: Word, s: nat): Word
  {
    if s <= 32 then OfBits((Bits(w) << s) | (Bits(w) >> (32 - s))) else w
  }

  /** The auxiliary functions of section 3.4 of RFC 1321. */
  function F(x: Word, y: Word, z: Word): Word
  {
    OfBits((Bits(x) & Bits(y)) | (!Bits(x) & Bits(z)))
  }

  function G(x: Word, y: Word, z: Word): Word
  {
    OfBits((Bits(x) & Bits(z)) | (Bits(y) & !Bits(z)))
  }

  function H(x: Word, y: Word, z: Word): Word
  {
    OfBits(Bits(x) ^ Bits(y) ^ Bits(z))
  }

  function I(x: Word, y: Word, z: Word): Word
  {
    OfBits(Bits(y) ^ (Bits(x) | !Bits(z)))
  }

  /** The macros of identity.c; F1 and F2 need fewer operations than F and G. */
  function F1(x: Word, y: Word, z: Word): Word
  {
    OfBits(Bits(z) ^ (Bits(x) & (Bits(y) ^ Bits(z))))
  }

  function F2(x: Word, y: Word, z: Word): Word { F1(z, x, y) }

  function F3(x: Word, y: Word, z: Word): Word
  {
    OfBits(Bits(x) ^ Bits(y) ^ Bits(z))
  }

  function F4(x: Word, y: Word, z: Word): Word
  {
    OfBits(Bits(y) ^ (Bits(x) | !Bits(z)))
  }

  function Md5(): Ops<Word>
  {
    Ops(Add, Rotate, WordOf, F, G, H, I, F1, F2, F3, F4)
  }

  lemma Select(x: bv32, y: bv32, z: bv32)
    ensures z ^ (x & (y ^ z)) == (x & y) | (!x & z)
  {
  }

  lemma SelectSwapped(x: bv32, y: bv32, z: bv32)
    ensures y ^ (z & (x ^ y)) == (x & z) | (y & !z)
  {
  }

  lemma F1IsF(x: Word, y: Word, z: Word)
    ensures F1(x, y, z) == F(x, y, z)
  {
    Select(Bits(x), Bits(y), Bits(z));
  }

  lemma F2IsG(x: Word, y: Word, z: Word)
    ensures F2(x, y, z) == G(x, y, z)
  {
    SelectSwapped(Bits(x), Bits(y), Bits(z));
  }

  lemma AddAssociative(x: Word, y: Word, z: Word)
    ensures Add(x, Add(y, z)) == Add(Add(x, y), z)
  {
    AddModulo(x, y + z);
    AddModulo(z, x + y);
  }

  lemma AddModulo(x: nat, n: nat)
    ensures (x + n % MODULUS) % MODULUS == (x + n) % MODULUS
  {
  }

  lemma LawOfF()
    ensures forall x, y, z :: Md5().F1(x, y, z) == Md5().F(x, y, z)
  {
    forall x, y, z
      ensures Md5().F1(x, y, z) == Md5().F(x, y, z)
    {
      F1IsF(x, y, z);
    }
  }

  lemma LawOfG()
    ensures forall x, y, z :: Md5().F2(x, y, z) == Md5().G(x, y, z)
  {
    forall x, y, z
      ensures Md5().F2(x, y, z) == Md5().G(x, y, z)
    {
      F2IsG(x, y, z);
    }
  }

  lemma LawOfSums()
    ensures forall w, f, x, t :: Md5().Grouped(w, f, x, t) == Md5().InTurn(w, f, x, t)
  {
    forall w: Word, f: Word, x: Word, t: Word
      ensures Md5().Grouped(w, f, x, t) == Md5().InTurn(w, f, x, t)
    {
      AddAssociative(f, x, t);
      AddAssociative(w, Add(f, x), t);
      AddAssociative(w, f, x);
    }
  }

  /** The optimised macros compute the functions of the standard, for all words. */
  lemma Md5Lawful()
    ensures Md5().Lawful()
  {
    LawOfF();
    LawOfG();
    LawOfSums();
  }

  /** How a host stores a word in memory. */
  datatype Host = LittleEndian | BigEndian

  /** The number whose bytes are b0 (low) to b3 (high). */
  function FromBytes(b0: Byte, b1: Byte, b2: Byte, b3: Byte): Word
  {
    ((b3 * 256 + b2) * 65536) + (b1 * 256 + b0)
  }

  /** The word a host reads from four consecutive bytes. */
  function Load(host: Host, b: seq<Byte>): Word
    requires |b| == 4
  {
    match host
    case LittleEndian => FromBytes(b[0], b[1], b[2], b[3])
    case BigEndian => FromBytes(b[3], b[2], b[1], b[0])
  }

  lemma WordBack(w: Word)
    ensures FromBytes(w % 256, w / 256 % 256, w / 65536 % 256, w / 0x100_0000) == w
  {
    var x, y := w / 256, w / 65536;
    assert w == 256 * x + w % 256 && x == 256 * y + x % 256;
    assert y == 256 * (w / 0x100_0000) + y % 256;
  }

  /** The bytes a host stores for a word. */
  function Store(host: Host, w: Word): (b: seq<Byte>)
    ensures |b| == 4 && Load(host, b) == w
  {
    var b0, b1, b2, b3 := w % 256, w / 256 % 256, w / 65536 % 256, w / 0x100_0000;
    WordBack(w);
    match host
    case LittleEndian => [b0, b1, b2, b3]
    case BigEndian => [b3, b2, b1, b0]
  }
}
