/** Whole uses of the context, and the hexadecimal form of a digest. */
module Md5Digest {
  import opened Md5Words
  import opened Md5Stream
  import opened Md5Context

  function Concat(pieces: seq<seq<Byte>>): seq<Byte>
  {
    if pieces == [] then [] else Concat(pieces[..|pieces| - 1]) + pieces[|pieces| - 1]
  }

  /** MD5Init, one MD5Update for each piece, MD5Final: the digest depends only on the bytes, not on the way they are
      cut up nor on the byte order of the host. */
  method DigestOfPieces(host: Host, pieces: seq<seq<Byte>>) returns (digest: seq<Byte>)
    requires forall p :: p in pieces ==> |p| < 0x1_0000_0000
    ensures digest == Digest(Concat(pieces))
  {
    var ctx := new Context(host);
    var i := 0;
    while i < |pieces|
      invariant 0 <= i <= |pieces|
      invariant ctx.Holds(Concat(pieces[..i]))
      invariant fresh(ctx) && fresh(ctx.buf) && fresh(ctx.inn)
    {
      assert pieces[..i + 1][..i] == pieces[..i];
      ctx.Update(pieces[i], Concat(pieces[..i]));
      i := i + 1;
    }
    assert pieces[..i] == pieces;
    digest := ctx.Final(Concat(pieces));
  }

  function HexDigit(d: nat): Byte
    requires d < 16
  {
    if d < 10 then 48 + d else 65 + d - 10
  }

  /** The two digits of a byte. */
  function Hex(b: Byte): seq<Byte>
  {
    [HexDigit(b / 16), HexDigit(b % 16)]
  }

  /** MD5Rewrite turns 16 bytes into 32 digits from the back, in place. The second digit is computed from the first
      one, which has already taken the place of byte 0. */
  method Rewrite(digest: array<Byte>)
    requires digest.Length == 32
    modifies digest
    ensures forall k :: 1 <= k < 16 ==> digest[2 * k..2 * k + 2] == Hex(old(digest[k]))
    ensures digest[0] == Hex(old(digest[0]))[0]
    ensures digest[1] == HexDigit(digest[0] % 16)
  {
    ghost var d := digest[..];
    var i := 16;
    while i > 0
      invariant 0 <= i <= 16
      invariant forall k :: 0 <= k < i ==> digest[k] == d[k]
      invariant forall k :: i <= k < 16 && k >= 1 ==> digest[2 * k..2 * k + 2] == Hex(d[k])
      invariant i == 0 ==> digest[0] == Hex(d[0])[0] && digest[1] == HexDigit(digest[0] % 16)
    {
      i := i - 1;
      digest[2 * i] := HexDigit(digest[i] / 16);
      digest[2 * i + 1] := HexDigit(digest[i] % 16);
    }
  }

  /** The second digit is the right one exactly when the low half of byte 0 equals the low half of the first digit. */
  lemma SecondDigitIff(b: Byte)
    ensures HexDigit(HexDigit(b / 16) % 16) == Hex(b)[1] <==> b % 16 == if b / 16 < 10 then b / 16 else b / 16 - 9
  {
  }
}
