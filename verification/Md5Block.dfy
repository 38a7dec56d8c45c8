/** The unrolled compression step: the constants, the SET macros and the sixty-four operations of `md5_process`. */
module Md5Block {
  import opened Word32
  import opened Rfc1321

  const T_MASK: Word := 0xffff_ffff

  /** The larger constants are written as T_MASK ^ c, which turns every bit of c round. */
  function Masked(c: Word): (r: Word)
    ensures r == NotW(c)
  {
    XorMask(T_MASK, c);
    XorW(T_MASK, c)
  }

  const T1: Word := Masked(0x28955b87)
  const T2: Word := Masked(0x173848a9)
  const T3: Word := 0x242070db
  const T4: Word := Masked(0x3e423111)
  const T5: Word := Masked(0x0a83f050)
  const T6: Word := 0x4787c62a
  const T7: Word := Masked(0x57cfb9ec)
  const T8: Word := Masked(0x02b96afe)
  const T9: Word := 0x698098d8
  const T10: Word := Masked(0x74bb0850)
  const T11: Word := Masked(0x0000a44e)
  const T12: Word := Masked(0x76a32841)
  const T13: Word := 0x6b901122
  const T14: Word := Masked(0x02678e6c)
  const T15: Word := Masked(0x5986bc71)
  const T16: Word := 0x49b40821
  const T17: Word := Masked(0x09e1da9d)
  const T18: Word := Masked(0x3fbf4cbf)
  const T19: Word := 0x265e5a51
  const T20: Word := Masked(0x16493855)
  const T21: Word := Masked(0x29d0efa2)
  const T22: Word := 0x02441453
  const T23: Word := Masked(0x275e197e)
  const T24: Word := Masked(0x182c0437)
  const T25: Word := 0x21e1cde6
  const T26: Word := Masked(0x3cc8f829)
  const T27: Word := Masked(0x0b2af278)
  const T28: Word := 0x455a14ed
  const T29: Word := Masked(0x561c16fa)
  const T30: Word := Masked(0x03105c07)
  const T31: Word := 0x676f02d9
  const T32: Word := Masked(0x72d5b375)
  const T33: Word := Masked(0x0005c6bd)
  const T34: Word := Masked(0x788e097e)
  const T35: Word := 0x6d9d6122
  const T36: Word := Masked(0x021ac7f3)
  const T37: Word := Masked(0x5b4115bb)
  const T38: Word := 0x4bdecfa9
  const T39: Word := Masked(0x0944b49f)
  const T40: Word := Masked(0x4140438f)
  const T41: Word := 0x289b7ec6
  const T42: Word := Masked(0x155ed805)
  const T43: Word := Masked(0x2b10cf7a)
  const T44: Word := 0x04881d05
  const T45: Word := Masked(0x262b2fc6)
  const T46: Word := Masked(0x1924661a)
  const T47: Word := 0x1fa27cf8
  const T48: Word := Masked(0x3b53a99a)
  const T49: Word := Masked(0x0bd6ddbb)
  const T50: Word := 0x432aff97
  const T51: Word := Masked(0x546bdc58)
  const T52: Word := Masked(0x036c5fc6)
  const T53: Word := 0x655b59c3
  const T54: Word := Masked(0x70f3336d)
  const T55: Word := Masked(0x00100b82)
  const T56: Word := Masked(0x7a7ba22e)
  const T57: Word := 0x6fa87e4f
  const T58: Word := Masked(0x01d3191f)
  const T59: Word := Masked(0x5cfebceb)
  const T60: Word := 0x4e0811a1
  const T61: Word := Masked(0x08ac817d)
  const T62: Word := Masked(0x42c50dca)
  const T63: Word := 0x2ad7d2bb
  const T64: Word := Masked(0x14792c6e)

  function RotateLeft(x: Word, n: nat): Word
    requires 0 < n < 32
  {
    OrW(Shl(x, n), Shr(x, 32 - n))
  }

  function F(x: Word, y: Word, z: Word): Word { OrW(AndW(x, y), AndW(NotW(x), z)) }
  function G(x: Word, y: Word, z: Word): Word { OrW(AndW(x, z), AndW(y, NotW(z))) }
  function H(x: Word, y: Word, z: Word): Word { XorW(XorW(x, y), z) }
  function I(x: Word, y: Word, z: Word): Word { XorW(y, OrW(x, NotW(z))) }

  /** The sum, rotation and sum of a SET macro is one step of the loop in section 3.4. */
  lemma SetIsStep(r: Regs, f: Word, xk: Word, s: nat, ti: Word)
    requires 0 < s < 32
    ensures Step(r, f, xk, s, ti)
         == Regs(r.d, AddW(RotateLeft(AddW(AddW(AddW(r.a, f), xk), ti), s), r.b), r.b, r.c)
  {
    var sum := AddW(AddW(AddW(r.a, f), xk), ti);
    ShiftsRotate(sum, s);
    AddCommutes(r.b, Rotated(sum, s));
  }

  /** `op` is the operation of section 3.4 on block x. */
  ghost predicate Implements(op: (Regs, Index) -> Regs, x: Block) {
    forall r, i {:trigger Operation(x, r, i)} :: op(r, i) == Operation(x, r, i)
  }

  // The four SET macros. The ghost parameters name the operation of section 3.4 that is meant.

  method Set1(ghost op: (Regs, Index) -> Regs, x: Block, ghost i: Index,
              a: Word, b: Word, c: Word, d: Word, k: nat, s: nat, ti: Word)
    returns (a': Word)
    requires Implements(op, x) && 0 <= i < 16
    requires k == WordIndex(i) && s == ShiftOf(i) && ti == T(i)
    ensures op(Regs(a, b, c, d), i) == Regs(d, a', b, c)
  {
    var sum := AddW(AddW(AddW(a, F(b, c, d)), x[k]), ti);
    a' := AddW(RotateLeft(sum, s), b);
    SetIsStep(Regs(a, b, c, d), F(b, c, d), x[k], s, ti);
    assert op(Regs(a, b, c, d), i) == Operation(x, Regs(a, b, c, d), i);
  }

  method Set2(ghost op: (Regs, Index) -> Regs, x: Block, ghost i: Index,
              a: Word, b: Word, c: Word, d: Word, k: nat, s: nat, ti: Word)
    returns (a': Word)
    requires Implements(op, x) && 16 <= i < 32
    requires k == WordIndex(i) && s == ShiftOf(i) && ti == T(i)
    ensures op(Regs(a, b, c, d), i) == Regs(d, a', b, c)
  {
    var sum := AddW(AddW(AddW(a, G(b, c, d)), x[k]), ti);
    a' := AddW(RotateLeft(sum, s), b);
    SetIsStep(Regs(a, b, c, d), G(b, c, d), x[k], s, ti);
    assert op(Regs(a, b, c, d), i) == Operation(x, Regs(a, b, c, d), i);
  }

  method Set3(ghost op: (Regs, Index) -> Regs, x: Block, ghost i: Index,
              a: Word, b: Word, c: Word, d: Word, k: nat, s: nat, ti: Word)
    returns (a': Word)
    requires Implements(op, x) && 32 <= i < 48
    requires k == WordIndex(i) && s == ShiftOf(i) && ti == T(i)
    ensures op(Regs(a, b, c, d), i) == Regs(d, a', b, c)
  {
    var sum := AddW(AddW(AddW(a, H(b, c, d)), x[k]), ti);
    a' := AddW(RotateLeft(sum, s), b);
    SetIsStep(Regs(a, b, c, d), H(b, c, d), x[k], s, ti);
    assert op(Regs(a, b, c, d), i) == Operation(x, Regs(a, b, c, d), i);
  }

  method Set4(ghost op: (Regs, Index) -> Regs, x: Block, ghost i: Index,
              a: Word, b: Word, c: Word, d: Word, k: nat, s: nat, ti: Word)
    returns (a': Word)
    requires Implements(op, x) && 48 <= i < 64
    requires k == WordIndex(i) && s == ShiftOf(i) && ti == T(i)
    ensures op(Regs(a, b, c, d), i) == Regs(d, a', b, c)
  {
    var sum := AddW(AddW(AddW(a, I(b, c, d)), x[k]), ti);
    a' := AddW(RotateLeft(sum, s), b);
    SetIsStep(Regs(a, b, c, d), I(b, c, d), x[k], s, ti);
    assert op(Regs(a, b, c, d), i) == Operation(x, Regs(a, b, c, d), i);
  }

  method Round1First(ghost op: (Regs, Index) -> Regs, x: Block, regs: Regs) returns (out: Regs)
    requires Implements(op, x)
    ensures out == Iterate(op, regs, 0, 8)
  {
    hide Masked;
    var a, b, c, d := regs.a, regs.b, regs.c, regs.d;
    a := Set1(op, x, 0, a, b, c, d, 0, 7, T1);
    assert Regs(d, a, b, c) == Iterate(op, regs, 0, 1);
    d := Set1(op, x, 1, d, a, b, c, 1, 12, T2);
    assert Regs(c, d, a, b) == Iterate(op, regs, 0, 2);
    c := Set1(op, x, 2, c, d, a, b, 2, 17, T3);
    assert Regs(b, c, d, a) == Iterate(op, regs, 0, 3);
    b := Set1(op, x, 3, b, c, d, a, 3, 22, T4);
    assert Regs(a, b, c, d) == Iterate(op, regs, 0, 4);
    a := Set1(op, x, 4, a, b, c, d, 4, 7, T5);
    assert Regs(d, a, b, c) == Iterate(op, regs, 0, 5);
    d := Set1(op, x, 5, d, a, b, c, 5, 12, T6);
    assert Regs(c, d, a, b) == Iterate(op, regs, 0, 6);
    c := Set1(op, x, 6, c, d, a, b, 6, 17, T7);
    assert Regs(b, c, d, a) == Iterate(op, regs, 0, 7);
    b := Set1(op, x, 7, b, c, d, a, 7, 22, T8);
    assert Regs(a, b, c, d) == Iterate(op, regs, 0, 8);
    out := Regs(a, b, c, d);
  }

  method Round1Last(ghost op: (Regs, Index) -> Regs, x: Block, regs: Regs) returns (out: Regs)
    requires Implements(op, x)
    ensures out == Iterate(op, regs, 8, 8)
  {
    hide Masked;
    var a, b, c, d := regs.a, regs.b, regs.c, regs.d;
    a := Set1(op, x, 8, a, b, c, d, 8, 7, T9);
    assert Regs(d, a, b, c) == Iterate(op, regs, 8, 1);
    d := Set1(op, x, 9, d, a, b, c, 9, 12, T10);
    assert Regs(c, d, a, b) == Iterate(op, regs, 8, 2);
    c := Set1(op, x, 10, c, d, a, b, 10, 17, T11);
    assert Regs(b, c, d, a) == Iterate(op, regs, 8, 3);
    b := Set1(op, x, 11, b, c, d, a, 11, 22, T12);
    assert Regs(a, b, c, d) == Iterate(op, regs, 8, 4);
    a := Set1(op, x, 12, a, b, c, d, 12, 7, T13);
    assert Regs(d, a, b, c) == Iterate(op, regs, 8, 5);
    d := Set1(op, x, 13, d, a, b, c, 13, 12, T14);
    assert Regs(c, d, a, b) == Iterate(op, regs, 8, 6);
    c := Set1(op, x, 14, c, d, a, b, 14, 17, T15);
    assert Regs(b, c, d, a) == Iterate(op, regs, 8, 7);
    b := Set1(op, x, 15, b, c, d, a, 15, 22, T16);
    assert Regs(a, b, c, d) == Iterate(op, regs, 8, 8);
    out := Regs(a, b, c, d);
  }

  method Round2First(ghost op: (Regs, Index) -> Regs, x: Block, regs: Regs) returns (out: Regs)
    requires Implements(op, x)
    ensures out == Iterate(op, regs, 16, 8)
  {
    hide Masked;
    var a, b, c, d := regs.a, regs.b, regs.c, regs.d;
    a := Set2(op, x, 16, a, b, c, d, 1, 5, T17);
    assert Regs(d, a, b, c) == Iterate(op, regs, 16, 1);
    d := Set2(op, x, 17, d, a, b, c, 6, 9, T18);
    assert Regs(c, d, a, b) == Iterate(op, regs, 16, 2);
    c := Set2(op, x, 18, c, d, a, b, 11, 14, T19);
    assert Regs(b, c, d, a) == Iterate(op, regs, 16, 3);
    b := Set2(op, x, 19, b, c, d, a, 0, 20, T20);
    assert Regs(a, b, c, d) == Iterate(op, regs, 16, 4);
    a := Set2(op, x, 20, a, b, c, d, 5, 5, T21);
    assert Regs(d, a, b, c) == Iterate(op, regs, 16, 5);
    d := Set2(op, x, 21, d, a, b, c, 10, 9, T22);
    assert Regs(c, d, a, b) == Iterate(op, regs, 16, 6);
    c := Set2(op, x, 22, c, d, a, b, 15, 14, T23);
    assert Regs(b, c, d, a) == Iterate(op, regs, 16, 7);
    b := Set2(op, x, 23, b, c, d, a, 4, 20, T24);
    assert Regs(a, b, c, d) == Iterate(op, regs, 16, 8);
    out := Regs(a, b, c, d);
  }

  method Round2Last(ghost op: (Regs, Index) -> Regs, x: Block, regs: Regs) returns (out: Regs)
    requires Implements(op, x)
    ensures out == Iterate(op, regs, 24, 8)
  {
    hide Masked;
    var a, b, c, d := regs.a, regs.b, regs.c, regs.d;
    a := Set2(op, x, 24, a, b, c, d, 9, 5, T25);
    assert Regs(d, a, b, c) == Iterate(op, regs, 24, 1);
    d := Set2(op, x, 25, d, a, b, c, 14, 9, T26);
    assert Regs(c, d, a, b) == Iterate(op, regs, 24, 2);
    c := Set2(op, x, 26, c, d, a, b, 3, 14, T27);
    assert Regs(b, c, d, a) == Iterate(op, regs, 24, 3);
    b := Set2(op, x, 27, b, c, d, a, 8, 20, T28);
    assert Regs(a, b, c, d) == Iterate(op, regs, 24, 4);
    a := Set2(op, x, 28, a, b, c, d, 13, 5, T29);
    assert Regs(d, a, b, c) == Iterate(op, regs, 24, 5);
    d := Set2(op, x, 29, d, a, b, c, 2, 9, T30);
    assert Regs(c, d, a, b) == Iterate(op, regs, 24, 6);
    c := Set2(op, x, 30, c, d, a, b, 7, 14, T31);
    assert Regs(b, c, d, a) == Iterate(op, regs, 24, 7);
    b := Set2(op, x, 31, b, c, d, a, 12, 20, T32);
    assert Regs(a, b, c, d) == Iterate(op, regs, 24, 8);
    out := Regs(a, b, c, d);
  }

  method Round3First(ghost op: (Regs, Index) -> Regs, x: Block, regs: Regs) returns (out: Regs)
    requires Implements(op, x)
    ensures out == Iterate(op, regs, 32, 8)
  {
    hide Masked;
    var a, b, c, d := regs.a, regs.b, regs.c, regs.d;
    a := Set3(op, x, 32, a, b, c, d, 5, 4, T33);
    assert Regs(d, a, b, c) == Iterate(op, regs, 32, 1);
    d := Set3(op, x, 33, d, a, b, c, 8, 11, T34);
    assert Regs(c, d, a, b) == Iterate(op, regs, 32, 2);
    c := Set3(op, x, 34, c, d, a, b, 11, 16, T35);
    assert Regs(b, c, d, a) == Iterate(op, regs, 32, 3);
    b := Set3(op, x, 35, b, c, d, a, 14, 23, T36);
    assert Regs(a, b, c, d) == Iterate(op, regs, 32, 4);
    a := Set3(op, x, 36, a, b, c, d, 1, 4, T37);
    assert Regs(d, a, b, c) == Iterate(op, regs, 32, 5);
    d := Set3(op, x, 37, d, a, b, c, 4, 11, T38);
    assert Regs(c, d, a, b) == Iterate(op, regs, 32, 6);
    c := Set3(op, x, 38, c, d, a, b, 7, 16, T39);
    assert Regs(b, c, d, a) == Iterate(op, regs, 32, 7);
    b := Set3(op, x, 39, b, c, d, a, 10, 23, T40);
    assert Regs(a, b, c, d) == Iterate(op, regs, 32, 8);
    out := Regs(a, b, c, d);
  }

  method Round3Last(ghost op: (Regs, Index) -> Regs, x: Block, regs: Regs) returns (out: Regs)
    requires Implements(op, x)
    ensures out == Iterate(op, regs, 40, 8)
  {
    hide Masked;
    var a, b, c, d := regs.a, regs.b, regs.c, regs.d;
    a := Set3(op, x, 40, a, b, c, d, 13, 4, T41);
    assert Regs(d, a, b, c) == Iterate(op, regs, 40, 1);
    d := Set3(op, x, 41, d, a, b, c, 0, 11, T42);
    assert Regs(c, d, a, b) == Iterate(op, regs, 40, 2);
    c := Set3(op, x, 42, c, d, a, b, 3, 16, T43);
    assert Regs(b, c, d, a) == Iterate(op, regs, 40, 3);
    b := Set3(op, x, 43, b, c, d, a, 6, 23, T44);
    assert Regs(a, b, c, d) == Iterate(op, regs, 40, 4);
    a := Set3(op, x, 44, a, b, c, d, 9, 4, T45);
    assert Regs(d, a, b, c) == Iterate(op, regs, 40, 5);
    d := Set3(op, x, 45, d, a, b, c, 12, 11, T46);
    assert Regs(c, d, a, b) == Iterate(op, regs, 40, 6);
    c := Set3(op, x, 46, c, d, a, b, 15, 16, T47);
    assert Regs(b, c, d, a) == Iterate(op, regs, 40, 7);
    b := Set3(op, x, 47, b, c, d, a, 2, 23, T48);
    assert Regs(a, b, c, d) == Iterate(op, regs, 40, 8);
    out := Regs(a, b, c, d);
  }

  method Round4First(ghost op: (Regs, Index) -> Regs, x: Block, regs: Regs) returns (out: Regs)
    requires Implements(op, x)
    ensures out == Iterate(op, regs, 48, 8)
  {
    hide Masked;
    var a, b, c, d := regs.a, regs.b, regs.c, regs.d;
    a := Set4(op, x, 48, a, b, c, d, 0, 6, T49);
    assert Regs(d, a, b, c) == Iterate(op, regs, 48, 1);
    d := Set4(op, x, 49, d, a, b, c, 7, 10, T50);
    assert Regs(c, d, a, b) == Iterate(op, regs, 48, 2);
    c := Set4(op, x, 50, c, d, a, b, 14, 15, T51);
    assert Regs(b, c, d, a) == Iterate(op, regs, 48, 3);
    b := Set4(op, x, 51, b, c, d, a, 5, 21, T52);
    assert Regs(a, b, c, d) == Iterate(op, regs, 48, 4);
    a := Set4(op, x, 52, a, b, c, d, 12, 6, T53);
    assert Regs(d, a, b, c) == Iterate(op, regs, 48, 5);
    d := Set4(op, x, 53, d, a, b, c, 3, 10, T54);
    assert Regs(c, d, a, b) == Iterate(op, regs, 48, 6);
    c := Set4(op, x, 54, c, d, a, b, 10, 15, T55);
    assert Regs(b, c, d, a) == Iterate(op, regs, 48, 7);
    b := Set4(op, x, 55, b, c, d, a, 1, 21, T56);
    assert Regs(a, b, c, d) == Iterate(op, regs, 48, 8);
    out := Regs(a, b, c, d);
  }

  method Round4Last(ghost op: (Regs, Index) -> Regs, x: Block, regs: Regs) returns (out: Regs)
    requires Implements(op, x)
    ensures out == Iterate(op, regs, 56, 8)
  {
    hide Masked;
    var a, b, c, d := regs.a, regs.b, regs.c, regs.d;
    a := Set4(op, x, 56, a, b, c, d, 8, 6, T57);
    assert Regs(d, a, b, c) == Iterate(op, regs, 56, 1);
    d := Set4(op, x, 57, d, a, b, c, 15, 10, T58);
    assert Regs(c, d, a, b) == Iterate(op, regs, 56, 2);
    c := Set4(op, x, 58, c, d, a, b, 6, 15, T59);
    assert Regs(b, c, d, a) == Iterate(op, regs, 56, 3);
    b := Set4(op, x, 59, b, c, d, a, 13, 21, T60);
    assert Regs(a, b, c, d) == Iterate(op, regs, 56, 4);
    a := Set4(op, x, 60, a, b, c, d, 4, 6, T61);
    assert Regs(d, a, b, c) == Iterate(op, regs, 56, 5);
    d := Set4(op, x, 61, d, a, b, c, 11, 10, T62);
    assert Regs(c, d, a, b) == Iterate(op, regs, 56, 6);
    c := Set4(op, x, 62, c, d, a, b, 2, 15, T63);
    assert Regs(b, c, d, a) == Iterate(op, regs, 56, 7);
    b := Set4(op, x, 63, b, c, d, a, 9, 21, T64);
    assert Regs(a, b, c, d) == Iterate(op, regs, 56, 8);
    out := Regs(a, b, c, d);
  }

  /** The byte-assembling load of a block. */
  method Load(data: Chunk) returns (x: Block)
    ensures x == Words(data)
  {
    var xbuf := new Word[16];
    var i := 0;
    while i < 16
      invariant 0 <= i <= 16
      invariant forall j :: 0 <= j < i ==> xbuf[j] == Words(data)[j]
    {
      var xp := data[4 * i..4 * i + 4];
      xbuf[i] := xp[0] as int + 0x100 * (xp[1] as int) + 0x1_0000 * (xp[2] as int) + 0x100_0000 * (xp[3] as int);
      i := i + 1;
    }
    x := xbuf[..];
  }

  /** The sixty-four unrolled operations. */
  method Rounds(x: Block, regs: Regs) returns (out: Regs)
    ensures out == Iterate(Loop(x), regs, 0, 64)
  {
    ghost var op := Loop(x);
    out := Round1First(op, x, regs);
    ghost var k := 8;
    var next := Round1Last(op, x, out);
    k := Joined(op, regs, out, next, k);
    out := Round2First(op, x, next);
    k := Joined(op, regs, next, out, k);
    next := Round2Last(op, x, out);
    k := Joined(op, regs, out, next, k);
    out := Round3First(op, x, next);
    k := Joined(op, regs, next, out, k);
    next := Round3Last(op, x, out);
    k := Joined(op, regs, out, next, k);
    out := Round4First(op, x, next);
    k := Joined(op, regs, next, out, k);
    next := Round4Last(op, x, out);
    k := Joined(op, regs, out, next, k);
    out := next;
  }

  lemma Joined(op: (Regs, Index) -> Regs, r: Regs, r1: Regs, r2: Regs, k: nat) returns (next: nat)
    requires k <= 56 && r1 == Iterate(op, r, 0, k) && r2 == Iterate(op, r1, k, 8)
    ensures next == k + 8 && r2 == Iterate(op, r, 0, next)
  {
    IterateJoins(op, r, 0, k, 8);
    next := k + 8;
  }
}
