/** The block function of MD5: MD5Transform of identity.c against section 3.4 of RFC 1321. The word operations
    are a parameter; Md5Words supplies those on 32-bit words. */
module Md5Block {

  /** The four registers. */
  datatype Regs<W> = Regs(a: W, b: W, c: W, d: W)

  /** Word operations: sum, rotation to the left, constants, the auxiliary functions F, G, H, I of
      section 3.4, and the macros F1 to F4 that identity.c uses in their place. */
  datatype Ops<!W(!new)> = Ops(
    add: (W, W) -> W,
    rotate: (W, nat) -> W,
    word: nat -> W,
    F: (W, W, W) -> W, G: (W, W, W) -> W, H: (W, W, W) -> W, I: (W, W, W) -> W,
    F1: (W, W, W) -> W, F2: (W, W, W) -> W, F3: (W, W, W) -> W, F4: (W, W, W) -> W)
  {
    /** The macros compute the auxiliary functions, and sums may be grouped as in MD5STEP. */
    ghost predicate Lawful()
    {
      && (forall x, y, z :: F1(x, y, z) == F(x, y, z))
      && (forall x, y, z :: F2(x, y, z) == G(x, y, z))
      && (forall x, y, z :: F3(x, y, z) == H(x, y, z))
      && (forall x, y, z :: F4(x, y, z) == I(x, y, z))
      && (forall w, f, x, t :: Grouped(w, f, x, t) == InTurn(w, f, x, t))
    }

    function Grouped(w: W, f: W, x: W, t: W): W { add(w, add(f, add(x, t))) }

    function InTurn(w: W, f: W, x: W, t: W): W { add(add(add(w, f), x), t) }

    function Auxiliary(i: nat, x: W, y: W, z: W): W
    {
      if i < 16 then F(x, y, z) else if i < 32 then G(x, y, z) else if i < 48 then H(x, y, z) else I(x, y, z)
    }

    /** Operation i, which computes one register and renames the four. */
    function Operation(i: nat, r: Regs<W>, X: seq<W>): Regs<W>
      requires |X| == 16
    {
      var sum := InTurn(r.a, Auxiliary(i, r.b, r.c, r.d), X[Index(i)], word(Table(i)));
      Regs(r.d, add(rotate(sum, Shift(i)), r.b), r.b, r.c)
    }

    /** The first n operations. */
    function Operations(n: nat, r: Regs<W>, X: seq<W>): Regs<W>
      requires |X| == 16
    {
      if n == 0 then r else Operation(n - 1, Operations(n - 1, r, X), X)
    }

    /** s holds the registers after the first n operations. */
    ghost predicate Reached(n: nat, r: Regs<W>, X: seq<W>, s: Regs<W>)
    {
      |X| == 16 && s == Operations(n, r, X)
    }

    /** Section 3.4: the four rounds, then the addition of the registers on entry. */
    function Compress(r: Regs<W>, X: seq<W>): Regs<W>
      requires |X| == 16
    {
      var s := Operations(4 * |X|, r, X);
      Regs(add(r.a, s.a), add(r.b, s.b), add(r.c, s.c), add(r.d, s.d))
    }

    /** MD5STEP, for f already applied. */
    function MacroStep(f: W, w: W, x: W, k: W, t: nat, s: nat): W
    {
      add(rotate(add(w, add(f, add(k, word(t)))), s), x)
    }
  }

  /** Which word of the block operation i uses. */
  function Index(i: nat): (k: nat)
    ensures k < 16
  {
    if i < 16 then i else if i < 32 then (5 * i + 1) % 16 else if i < 48 then (3 * i + 5) % 16 else 7 * i % 16
  }

  /** By how much operation i rotates. */
  function Shift(i: nat): nat
  {
    if i < 16 then (if i % 4 == 0 then 7 else if i % 4 == 1 then 12 else if i % 4 == 2 then 17 else 22)
    else if i < 32 then (if i % 4 == 0 then 5 else if i % 4 == 1 then 9 else if i % 4 == 2 then 14 else 20)
    else if i < 48 then (if i % 4 == 0 then 4 else if i % 4 == 1 then 11 else if i % 4 == 2 then 16 else 23)
    else (if i % 4 == 0 then 6 else if i % 4 == 1 then 10 else if i % 4 == 2 then 15 else 21)
  }

  /** The table T of section 3.4, from index 0: the integer part of 2^32 times |sin(i + 1)|. */
  function Table(i: nat): nat
  {
    if i < 16 then Table1(i) else if i < 32 then Table2(i) else if i < 48 then Table3(i) else Table4(i)
  }

  function Table1(i: nat): nat
  {
    match i
    case 0 => 0xd76aa478
    case 1 => 0xe8c7b756
    case 2 => 0x242070db
    case 3 => 0xc1bdceee
    case 4 => 0xf57c0faf
    case 5 => 0x4787c62a
    case 6 => 0xa8304613
    case 7 => 0xfd469501
    case 8 => 0x698098d8
    case 9 => 0x8b44f7af
    case 10 => 0xffff5bb1
    case 11 => 0x895cd7be
    case 12 => 0x6b901122
    case 13 => 0xfd987193
    case 14 => 0xa679438e
    case _ => 0x49b40821
  }

  function Table2(i: nat): nat
  {
    match i
    case 16 => 0xf61e2562
    case 17 => 0xc040b340
    case 18 => 0x265e5a51
    case 19 => 0xe9b6c7aa
    case 20 => 0xd62f105d
    case 21 => 0x02441453
    case 22 => 0xd8a1e681
    case 23 => 0xe7d3fbc8
    case 24 => 0x21e1cde6
    case 25 => 0xc33707d6
    case 26 => 0xf4d50d87
    case 27 => 0x455a14ed
    case 28 => 0xa9e3e905
    case 29 => 0xfcefa3f8
    case 30 => 0x676f02d9
    case _ => 0x8d2a4c8a
  }

  function Table3(i: nat): nat
  {
    match i
    case 32 => 0xfffa3942
    case 33 => 0x8771f681
    case 34 => 0x6d9d6122
    case 35 => 0xfde5380c
    case 36 => 0xa4beea44
    case 37 => 0x4bdecfa9
    case 38 => 0xf6bb4b60
    case 39 => 0xbebfbc70
    case 40 => 0x289b7ec6
    case 41 => 0xeaa127fa
    case 42 => 0xd4ef3085
    case 43 => 0x04881d05
    case 44 => 0xd9d4d039
    case 45 => 0xe6db99e5
    case 46 => 0x1fa27cf8
    case _ => 0xc4ac5665
  }

  function Table4(i: nat): nat
  {
    match i
    case 48 => 0xf4292244
    case 49 => 0x432aff97
    case 50 => 0xab9423a7
    case 51 => 0xfc93a039
    case 52 => 0x655b59c3
    case 53 => 0x8f0ccc92
    case 54 => 0xffeff47d
    case 55 => 0x85845dd1
    case 56 => 0x6fa87e4f
    case 57 => 0xfe2ce6e0
    case 58 => 0xa3014314
    case 59 => 0x4e0811a1
    case 60 => 0xf7537e82
    case 61 => 0xbd3af235
    case 62 => 0x2ad7d2bb
    case _ => 0xeb86d391
  }

  /** One macro of round 1 is operation k of section 3.4. */
  lemma Next1<W(!new)>(o: Ops<W>, k: nat, r0: Regs<W>, X: seq<W>, s: Regs<W>, w: W) returns (s': Regs<W>)
    requires o.Lawful() && |X| == 16 && 0 <= k < 16 && o.Reached(k, r0, X, s)
    requires w == o.MacroStep(o.F1(s.b, s.c, s.d), s.a, s.b, X[Index(k)], Table(k), Shift(k))
    ensures s' == Regs(s.d, w, s.b, s.c) && o.Reached(k + 1, r0, X, s')
  {
    assert o.Grouped(s.a, o.F1(s.b, s.c, s.d), X[Index(k)], o.word(Table(k)))
        == o.InTurn(s.a, o.F(s.b, s.c, s.d), X[Index(k)], o.word(Table(k)));
    s' := Regs(s.d, w, s.b, s.c);
  }

  /** Round 1 of MD5Transform. */
  method Round1<W(!new)>(o: Ops<W>, r: Regs<W>, X: seq<W>, ghost r0: Regs<W>) returns (r': Regs<W>)
    requires o.Lawful() && |X| == 16 && o.Reached(0, r0, X, r)
    ensures o.Reached(16, r0, X, r')
  {
    var a, b, c, d := r.a, r.b, r.c, r.d;
    ghost var s := r;
    a := o.MacroStep(o.F1(b, c, d), a, b, X[0], 0xd76aa478, 7);
    s := Next1(o, 0, r0, X, s, a);
    d := o.MacroStep(o.F1(a, b, c), d, a, X[1], 0xe8c7b756, 12);
    s := Next1(o, 1, r0, X, s, d);
    c := o.MacroStep(o.F1(d, a, b), c, d, X[2], 0x242070db, 17);
    s := Next1(o, 2, r0, X, s, c);
    b := o.MacroStep(o.F1(c, d, a), b, c, X[3], 0xc1bdceee, 22);
    s := Next1(o, 3, r0, X, s, b);
    a := o.MacroStep(o.F1(b, c, d), a, b, X[4], 0xf57c0faf, 7);
    s := Next1(o, 4, r0, X, s, a);
    d := o.MacroStep(o.F1(a, b, c), d, a, X[5], 0x4787c62a, 12);
    s := Next1(o, 5, r0, X, s, d);
    c := o.MacroStep(o.F1(d, a, b), c, d, X[6], 0xa8304613, 17);
    s := Next1(o, 6, r0, X, s, c);
    b := o.MacroStep(o.F1(c, d, a), b, c, X[7], 0xfd469501, 22);
    s := Next1(o, 7, r0, X, s, b);
    a := o.MacroStep(o.F1(b, c, d), a, b, X[8], 0x698098d8, 7);
    s := Next1(o, 8, r0, X, s, a);
    d := o.MacroStep(o.F1(a, b, c), d, a, X[9], 0x8b44f7af, 12);
    s := Next1(o, 9, r0, X, s, d);
    c := o.MacroStep(o.F1(d, a, b), c, d, X[10], 0xffff5bb1, 17);
    s := Next1(o, 10, r0, X, s, c);
    b := o.MacroStep(o.F1(c, d, a), b, c, X[11], 0x895cd7be, 22);
    s := Next1(o, 11, r0, X, s, b);
    a := o.MacroStep(o.F1(b, c, d), a, b, X[12], 0x6b901122, 7);
    s := Next1(o, 12, r0, X, s, a);
    d := o.MacroStep(o.F1(a, b, c), d, a, X[13], 0xfd987193, 12);
    s := Next1(o, 13, r0, X, s, d);
    c := o.MacroStep(o.F1(d, a, b), c, d, X[14], 0xa679438e, 17);
    s := Next1(o, 14, r0, X, s, c);
    b := o.MacroStep(o.F1(c, d, a), b, c, X[15], 0x49b40821, 22);
    s := Next1(o, 15, r0, X, s, b);
    r' := Regs(a, b, c, d);
  }

  /** One macro of round 2 is operation k of section 3.4. */
  lemma Next2<W(!new)>(o: Ops<W>, k: nat, r0: Regs<W>, X: seq<W>, s: Regs<W>, w: W) returns (s': Regs<W>)
    requires o.Lawful() && |X| == 16 && 16 <= k < 32 && o.Reached(k, r0, X, s)
    requires w == o.MacroStep(o.F2(s.b, s.c, s.d), s.a, s.b, X[Index(k)], Table(k), Shift(k))
    ensures s' == Regs(s.d, w, s.b, s.c) && o.Reached(k + 1, r0, X, s')
  {
    assert o.Grouped(s.a, o.F2(s.b, s.c, s.d), X[Index(k)], o.word(Table(k)))
        == o.InTurn(s.a, o.G(s.b, s.c, s.d), X[Index(k)], o.word(Table(k)));
    s' := Regs(s.d, w, s.b, s.c);
  }

  /** Round 2 of MD5Transform. */
  method Round2<W(!new)>(o: Ops<W>, r: Regs<W>, X: seq<W>, ghost r0: Regs<W>) returns (r': Regs<W>)
    requires o.Lawful() && |X| == 16 && o.Reached(16, r0, X, r)
    ensures o.Reached(32, r0, X, r')
  {
    var a, b, c, d := r.a, r.b, r.c, r.d;
    ghost var s := r;
    a := o.MacroStep(o.F2(b, c, d), a, b, X[1], 0xf61e2562, 5);
    s := Next2(o, 16, r0, X, s, a);
    d := o.MacroStep(o.F2(a, b, c), d, a, X[6], 0xc040b340, 9);
    s := Next2(o, 17, r0, X, s, d);
    c := o.MacroStep(o.F2(d, a, b), c, d, X[11], 0x265e5a51, 14);
    s := Next2(o, 18, r0, X, s, c);
    b := o.MacroStep(o.F2(c, d, a), b, c, X[0], 0xe9b6c7aa, 20);
    s := Next2(o, 19, r0, X, s, b);
    a := o.MacroStep(o.F2(b, c, d), a, b, X[5], 0xd62f105d, 5);
    s := Next2(o, 20, r0, X, s, a);
    d := o.MacroStep(o.F2(a, b, c), d, a, X[10], 0x02441453, 9);
    s := Next2(o, 21, r0, X, s, d);
    c := o.MacroStep(o.F2(d, a, b), c, d, X[15], 0xd8a1e681, 14);
    s := Next2(o, 22, r0, X, s, c);
    b := o.MacroStep(o.F2(c, d, a), b, c, X[4], 0xe7d3fbc8, 20);
    s := Next2(o, 23, r0, X, s, b);
    a := o.MacroStep(o.F2(b, c, d), a, b, X[9], 0x21e1cde6, 5);
    s := Next2(o, 24, r0, X, s, a);
    d := o.MacroStep(o.F2(a, b, c), d, a, X[14], 0xc33707d6, 9);
    s := Next2(o, 25, r0, X, s, d);
    c := o.MacroStep(o.F2(d, a, b), c, d, X[3], 0xf4d50d87, 14);
    s := Next2(o, 26, r0, X, s, c);
    b := o.MacroStep(o.F2(c, d, a), b, c, X[8], 0x455a14ed, 20);
    s := Next2(o, 27, r0, X, s, b);
    a := o.MacroStep(o.F2(b, c, d), a, b, X[13], 0xa9e3e905, 5);
    s := Next2(o, 28, r0, X, s, a);
    d := o.MacroStep(o.F2(a, b, c), d, a, X[2], 0xfcefa3f8, 9);
    s := Next2(o, 29, r0, X, s, d);
    c := o.MacroStep(o.F2(d, a, b), c, d, X[7], 0x676f02d9, 14);
    s := Next2(o, 30, r0, X, s, c);
    b := o.MacroStep(o.F2(c, d, a), b, c, X[12], 0x8d2a4c8a, 20);
    s := Next2(o, 31, r0, X, s, b);
    r' := Regs(a, b, c, d);
  }

  /** One macro of round 3 is operation k of section 3.4. */
  lemma Next3<W(!new)>(o: Ops<W>, k: nat, r0: Regs<W>, X: seq<W>, s: Regs<W>, w: W) returns (s': Regs<W>)
    requires o.Lawful() && |X| == 16 && 32 <= k < 48 && o.Reached(k, r0, X, s)
    requires w == o.MacroStep(o.F3(s.b, s.c, s.d), s.a, s.b, X[Index(k)], Table(k), Shift(k))
    ensures s' == Regs(s.d, w, s.b, s.c) && o.Reached(k + 1, r0, X, s')
  {
    assert o.Grouped(s.a, o.F3(s.b, s.c, s.d), X[Index(k)], o.word(Table(k)))
        == o.InTurn(s.a, o.H(s.b, s.c, s.d), X[Index(k)], o.word(Table(k)));
    s' := Regs(s.d, w, s.b, s.c);
  }

  /** Round 3 of MD5Transform. */
  method Round3<W(!new)>(o: Ops<W>, r: Regs<W>, X: seq<W>, ghost r0: Regs<W>) returns (r': Regs<W>)
    requires o.Lawful() && |X| == 16 && o.Reached(32, r0, X, r)
    ensures o.Reached(48, r0, X, r')
  {
    var a, b, c, d := r.a, r.b, r.c, r.d;
    ghost var s := r;
    a := o.MacroStep(o.F3(b, c, d), a, b, X[5], 0xfffa3942, 4);
    s := Next3(o, 32, r0, X, s, a);
    d := o.MacroStep(o.F3(a, b, c), d, a, X[8], 0x8771f681, 11);
    s := Next3(o, 33, r0, X, s, d);
    c := o.MacroStep(o.F3(d, a, b), c, d, X[11], 0x6d9d6122, 16);
    s := Next3(o, 34, r0, X, s, c);
    b := o.MacroStep(o.F3(c, d, a), b, c, X[14], 0xfde5380c, 23);
    s := Next3(o, 35, r0, X, s, b);
    a := o.MacroStep(o.F3(b, c, d), a, b, X[1], 0xa4beea44, 4);
    s := Next3(o, 36, r0, X, s, a);
    d := o.MacroStep(o.F3(a, b, c), d, a, X[4], 0x4bdecfa9, 11);
    s := Next3(o, 37, r0, X, s, d);
    c := o.MacroStep(o.F3(d, a, b), c, d, X[7], 0xf6bb4b60, 16);
    s := Next3(o, 38, r0, X, s, c);
    b := o.MacroStep(o.F3(c, d, a), b, c, X[10], 0xbebfbc70, 23);
    s := Next3(o, 39, r0, X, s, b);
    a := o.MacroStep(o.F3(b, c, d), a, b, X[13], 0x289b7ec6, 4);
    s := Next3(o, 40, r0, X, s, a);
    d := o.MacroStep(o.F3(a, b, c), d, a, X[0], 0xeaa127fa, 11);
    s := Next3(o, 41, r0, X, s, d);
    c := o.MacroStep(o.F3(d, a, b), c, d, X[3], 0xd4ef3085, 16);
    s := Next3(o, 42, r0, X, s, c);
    b := o.MacroStep(o.F3(c, d, a), b, c, X[6], 0x04881d05, 23);
    s := Next3(o, 43, r0, X, s, b);
    a := o.MacroStep(o.F3(b, c, d), a, b, X[9], 0xd9d4d039, 4);
    s := Next3(o, 44, r0, X, s, a);
    d := o.MacroStep(o.F3(a, b, c), d, a, X[12], 0xe6db99e5, 11);
    s := Next3(o, 45, r0, X, s, d);
    c := o.MacroStep(o.F3(d, a, b), c, d, X[15], 0x1fa27cf8, 16);
    s := Next3(o, 46, r0, X, s, c);
    b := o.MacroStep(o.F3(c, d, a), b, c, X[2], 0xc4ac5665, 23);
    s := Next3(o, 47, r0, X, s, b);
    r' := Regs(a, b, c, d);
  }

  /** One macro of round 4 is operation k of section 3.4. */
  lemma Next4<W(!new)>(o: Ops<W>, k: nat, r0: Regs<W>, X: seq<W>, s: Regs<W>, w: W) returns (s': Regs<W>)
    requires o.Lawful() && |X| == 16 && 48 <= k < 64 && o.Reached(k, r0, X, s)
    requires w == o.MacroStep(o.F4(s.b, s.c, s.d), s.a, s.b, X[Index(k)], Table(k), Shift(k))
    ensures s' == Regs(s.d, w, s.b, s.c) && o.Reached(k + 1, r0, X, s')
  {
    assert o.Grouped(s.a, o.F4(s.b, s.c, s.d), X[Index(k)], o.word(Table(k)))
        == o.InTurn(s.a, o.I(s.b, s.c, s.d), X[Index(k)], o.word(Table(k)));
    s' := Regs(s.d, w, s.b, s.c);
  }

  /** Round 4 of MD5Transform. */
  method Round4<W(!new)>(o: Ops<W>, r: Regs<W>, X: seq<W>, ghost r0: Regs<W>) returns (r': Regs<W>)
    requires o.Lawful() && |X| == 16 && o.Reached(48, r0, X, r)
    ensures o.Reached(64, r0, X, r')
  {
    var a, b, c, d := r.a, r.b, r.c, r.d;
    ghost var s := r;
    a := o.MacroStep(o.F4(b, c, d), a, b, X[0], 0xf4292244, 6);
    s := Next4(o, 48, r0, X, s, a);
    d := o.MacroStep(o.F4(a, b, c), d, a, X[7], 0x432aff97, 10);
    s := Next4(o, 49, r0, X, s, d);
    c := o.MacroStep(o.F4(d, a, b), c, d, X[14], 0xab9423a7, 15);
    s := Next4(o, 50, r0, X, s, c);
    b := o.MacroStep(o.F4(c, d, a), b, c, X[5], 0xfc93a039, 21);
    s := Next4(o, 51, r0, X, s, b);
    a := o.MacroStep(o.F4(b, c, d), a, b, X[12], 0x655b59c3, 6);
    s := Next4(o, 52, r0, X, s, a);
    d := o.MacroStep(o.F4(a, b, c), d, a, X[3], 0x8f0ccc92, 10);
    s := Next4(o, 53, r0, X, s, d);
    c := o.MacroStep(o.F4(d, a, b), c, d, X[10], 0xffeff47d, 15);
    s := Next4(o, 54, r0, X, s, c);
    b := o.MacroStep(o.F4(c, d, a), b, c, X[1], 0x85845dd1, 21);
    s := Next4(o, 55, r0, X, s, b);
    a := o.MacroStep(o.F4(b, c, d), a, b, X[8], 0x6fa87e4f, 6);
    s := Next4(o, 56, r0, X, s, a);
    d := o.MacroStep(o.F4(a, b, c), d, a, X[15], 0xfe2ce6e0, 10);
    s := Next4(o, 57, r0, X, s, d);
    c := o.MacroStep(o.F4(d, a, b), c, d, X[6], 0xa3014314, 15);
    s := Next4(o, 58, r0, X, s, c);
    b := o.MacroStep(o.F4(c, d, a), b, c, X[13], 0x4e0811a1, 21);
    s := Next4(o, 59, r0, X, s, b);
    a := o.MacroStep(o.F4(b, c, d), a, b, X[4], 0xf7537e82, 6);
    s := Next4(o, 60, r0, X, s, a);
    d := o.MacroStep(o.F4(a, b, c), d, a, X[11], 0xbd3af235, 10);
    s := Next4(o, 61, r0, X, s, d);
    c := o.MacroStep(o.F4(d, a, b), c, d, X[2], 0x2ad7d2bb, 15);
    s := Next4(o, 62, r0, X, s, c);
    b := o.MacroStep(o.F4(c, d, a), b, c, X[9], 0xeb86d391, 21);
    s := Next4(o, 63, r0, X, s, b);
    r' := Regs(a, b, c, d);
  }

  /** MD5Transform. */
  method Transform<W(!new)>(o: Ops<W>, buf: array<W>, X: seq<W>)
    requires o.Lawful() && buf.Length == 4 && |X| == 16
    modifies buf
    ensures Regs(buf[0], buf[1], buf[2], buf[3]) == o.Compress(old(Regs(buf[0], buf[1], buf[2], buf[3])), X)
  {
    ghost var r0 := Regs(buf[0], buf[1], buf[2], buf[3]);
    var r := Round1(o, Regs(buf[0], buf[1], buf[2], buf[3]), X, r0);
    r := Round2(o, r, X, r0);
    r := Round3(o, r, X, r0);
    r := Round4(o, r, X, r0);
    buf[0] := o.add(buf[0], r.a);
    buf[1] := o.add(buf[1], r.b);
    buf[2] := o.add(buf[2], r.c);
    buf[3] := o.add(buf[3], r.d);
  }
}
