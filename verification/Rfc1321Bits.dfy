/** The operations of section 3.4 on bit-vectors, in which they can be worked out. */
module Rfc1321Bits {
  import opened Word32
  import opened Rfc1321

  /** A bit-vector as a word. */
  function U(a: bv32): Word { a as nat }

  // ----- The bitwise operators -----

  lemma Even(a: bv32)
    requires a < 0x8000_0000
    ensures U(a << 1) == 2 * U(a)
  {
  }

  lemma Odd(a: bv32)
    requires a < 0x8000_0000
    ensures U((a << 1) | 1) == 2 * U(a) + 1
  {
  }

  lemma Zero(a: bv32)
    ensures U(a) == 0 <==> a == 0
  {
  }

  // The operators under names that keep the bits out of the proofs about them.

  function Upper(a: bv32): bv32 { a >> 1 }
  function Both(a: bv32, b: bv32): bv32 { a & b }
  function Either(a: bv32, b: bv32): bv32 { a | b }
  function Differ(a: bv32, b: bv32): bv32 { a ^ b }
  function Flip(a: bv32): bv32 { !a }

  /** The lowest bit as a number. */
  function Bit(a: bv32): (p: nat)
    ensures p < 2
  {
    if a & 1 == 1 then 1 else 0
  }

  lemma HalfOf(a: bv32)
    ensures a >> 1 < 0x8000_0000
    ensures a == if a & 1 == 1 then ((a >> 1) << 1) | 1 else (a >> 1) << 1
  {
    hide U;
  }

  lemma Split(a: bv32)
    ensures U(a) == 2 * U(Upper(a)) + Bit(a)
  {
    hide U;
    HalfOf(a);
    Even(a >> 1);
    Odd(a >> 1);
  }

  lemma LowIsBit(a: bv32)
    ensures a & 1 == 0 || a & 1 == 1
  {
  }

  // Each operator distributes over the upper bits and over the lowest one, on either kind of words.

  lemma UpperBoth(a: bv32, b: bv32)
    ensures Upper(Both(a, b)) == Both(Upper(a), Upper(b))
  {
  }

  lemma LowBoth(a: bv32, b: bv32)
    ensures (a & b) & 1 == (a & 1) & (b & 1)
  {
  }

  lemma BitBoth(a: bv32, b: bv32)
    ensures var p, q := Bit(a), Bit(b);
      Bit(Both(a, b)) == if p == 1 && q == 1 then 1 else 0
  {
    LowBoth(a, b);
    LowIsBit(a);
    LowIsBit(b);
  }

  lemma AndDigits(x: nat, y: nat, p: nat, q: nat)
    requires p < 2 && q < 2
    ensures And(2 * x + p, 2 * y + q) == 2 * And(x, y) + if p == 1 && q == 1 then 1 else 0
  {
  }

  lemma BothOfZero(b: bv32)
    ensures And(0, U(b)) == U(Both(0, b))
  {
    Zero(0);
    assert 0 & b == 0;
  }

  lemma {:induction false} BothBits(a: bv32, b: bv32)
    ensures And(U(a), U(b)) == U(Both(a, b))
    decreases U(a)
  {
    hide U, Bit, Upper, Both, And;
    Zero(a);
    if a == 0 {
      BothOfZero(b);
    } else {
      Split(a);
      Split(b);
      Split(Both(a, b));
      UpperBoth(a, b);
      BitBoth(a, b);
      AndDigits(U(Upper(a)), U(Upper(b)), Bit(a), Bit(b));
      BothBits(Upper(a), Upper(b));
    }
  }

  lemma UpperEither(a: bv32, b: bv32)
    ensures Upper(Either(a, b)) == Either(Upper(a), Upper(b))
  {
  }

  lemma LowEither(a: bv32, b: bv32)
    ensures (a | b) & 1 == (a & 1) | (b & 1)
  {
  }

  lemma BitEither(a: bv32, b: bv32)
    ensures var p, q := Bit(a), Bit(b);
      Bit(Either(a, b)) == if p == 1 || q == 1 then 1 else 0
  {
    LowEither(a, b);
    LowIsBit(a);
    LowIsBit(b);
  }

  lemma OrDigits(x: nat, y: nat, p: nat, q: nat)
    requires p < 2 && q < 2
    ensures Or(2 * x + p, 2 * y + q) == 2 * Or(x, y) + if p == 1 || q == 1 then 1 else 0
  {
  }

  lemma EitherOfZero(b: bv32)
    ensures Or(0, U(b)) == U(Either(0, b))
  {
    Zero(0);
    assert 0 | b == b;
  }

  lemma {:induction false} EitherBits(a: bv32, b: bv32)
    ensures Or(U(a), U(b)) == U(Either(a, b))
    decreases U(a)
  {
    hide U, Bit, Upper, Either, Or;
    Zero(a);
    if a == 0 {
      EitherOfZero(b);
    } else {
      Split(a);
      Split(b);
      Split(Either(a, b));
      UpperEither(a, b);
      BitEither(a, b);
      OrDigits(U(Upper(a)), U(Upper(b)), Bit(a), Bit(b));
      EitherBits(Upper(a), Upper(b));
    }
  }

  lemma UpperDiffer(a: bv32, b: bv32)
    ensures Upper(Differ(a, b)) == Differ(Upper(a), Upper(b))
  {
  }

  lemma LowDiffer(a: bv32, b: bv32)
    ensures (a ^ b) & 1 == (a & 1) ^ (b & 1)
  {
  }

  lemma BitDiffer(a: bv32, b: bv32)
    ensures var p, q := Bit(a), Bit(b);
      Bit(Differ(a, b)) == if p != q then 1 else 0
  {
    LowDiffer(a, b);
    LowIsBit(a);
    LowIsBit(b);
  }

  lemma XorDigits(x: nat, y: nat, p: nat, q: nat)
    requires p < 2 && q < 2
    ensures Xor(2 * x + p, 2 * y + q) == 2 * Xor(x, y) + if p != q then 1 else 0
  {
  }

  lemma DifferOfZero(b: bv32)
    ensures Xor(0, U(b)) == U(Differ(0, b))
  {
    Zero(0);
    assert 0 ^ b == b;
  }

  lemma {:induction false} DifferBits(a: bv32, b: bv32)
    ensures Xor(U(a), U(b)) == U(Differ(a, b))
    decreases U(a)
  {
    hide U, Bit, Upper, Differ, Xor;
    Zero(a);
    if a == 0 {
      DifferOfZero(b);
    } else {
      Split(a);
      Split(b);
      Split(Differ(a, b));
      UpperDiffer(a, b);
      BitDiffer(a, b);
      XorDigits(U(Upper(a)), U(Upper(b)), Bit(a), Bit(b));
      DifferBits(Upper(a), Upper(b));
    }
  }

  lemma AllOnes(a: bv32)
    ensures U(0xffff_ffff) == TWO32 - 1 && Differ(0xffff_ffff, a) == Flip(a)
  {
  }

  lemma BothIs(a: bv32, b: bv32)
    ensures AndW(U(a), U(b)) == U(Both(a, b))
  {
    hide U, And, Both;
    BothBits(a, b);
  }

  lemma EitherIs(a: bv32, b: bv32)
    ensures OrW(U(a), U(b)) == U(Either(a, b))
  {
    hide U, Or, Either;
    EitherBits(a, b);
  }

  lemma DifferIs(a: bv32, b: bv32)
    ensures XorW(U(a), U(b)) == U(Differ(a, b))
  {
    hide U, Xor, Differ;
    DifferBits(a, b);
  }

  lemma FlipIs(a: bv32)
    ensures NotW(U(a)) == U(Flip(a))
  {
    hide U, Xor, Differ, Flip;
    AllOnes(a);
    XorMask(TWO32 - 1, U(a));
    DifferBits(0xffff_ffff, a);
  }

  function AuxiliaryBits(i: Index, x: bv32, y: bv32, z: bv32): bv32 {
    if i < 16 then Either(Both(x, y), Both(Flip(x), z))
    else if i < 32 then Either(Both(x, z), Both(y, Flip(z)))
    else if i < 48 then Differ(Differ(x, y), z)
    else Differ(y, Either(x, Flip(z)))
  }

  lemma AuxiliaryIs(i: Index, x: bv32, y: bv32, z: bv32)
    ensures Auxiliary(i, U(x), U(y), U(z)) == U(AuxiliaryBits(i, x, y, z))
  {
    hide U, AndW, OrW, XorW, NotW, Both, Either, Differ, Flip;
    FlipIs(x);
    FlipIs(z);
    if i < 16 {
      BothIs(x, y);
      BothIs(Flip(x), z);
      EitherIs(Both(x, y), Both(Flip(x), z));
    } else if i < 32 {
      BothIs(x, z);
      BothIs(y, Flip(z));
      EitherIs(Both(x, z), Both(y, Flip(z)));
    } else if i < 48 {
      DifferIs(x, y);
      DifferIs(Differ(x, y), z);
    } else {
      EitherIs(x, Flip(z));
      DifferIs(y, Either(x, Flip(z)));
    }
  }

  // ----- Sums -----

  function Sum2(a: bv32, b: bv32): bv32 { a + b }
  function Sum3(a: bv32, b: bv32, c: bv32): bv32 { a + b + c }
  function Digit(h: bv32, r: bv32): bv32 { 2 * h + r }

  lemma Halves(a: bv32)
    ensures a == Digit(a >> 1, a & 1) && a & 1 <= 1 && a >> 1 < 0x8000_0000
    ensures a < 0x8000_0000 ==> a >> 1 < 0x4000_0000
  {
  }

  lemma Gathered(a: bv32, b: bv32, c: bv32, h: bv32, k: bv32, p: bv32, q: bv32)
    requires a == Digit(h, p) && b == Digit(k, q)
    ensures Sum3(a, b, c) == Sum2(2 * h + 2 * k, Sum3(p, q, c))
  {
    hide Sum2, Sum3, Digit;
    DigitSum(h, p);
    DigitSum(k, q);
    Regrouped(h, k, p, q, c);
    SumOfThree(p, q, c);
  }

  lemma DigitSum(h: bv32, p: bv32)
    ensures Digit(h, p) == 2 * h + p
  {
  }

  lemma SumOfThree(p: bv32, q: bv32, c: bv32)
    ensures Sum3(p, q, c) == p + q + c
  {
  }

  lemma Regrouped(h: bv32, k: bv32, p: bv32, q: bv32, c: bv32)
    ensures Sum3(2 * h + p, 2 * k + q, c) == Sum2(2 * h + 2 * k, p + q + c)
  {
  }

  lemma Carried(h: bv32, k: bv32, carry: bv32, r: bv32, low: bv32, rest: bv32)
    requires rest == Sum3(h, k, carry) && low == Digit(carry, r)
    ensures Sum2(2 * h + 2 * k, low) == Digit(rest, r)
  {
    hide Sum2, Sum3, Digit;
    DigitSum(carry, r);
    SumOfThree(h, k, carry);
    Distributed(h, k, carry, r);
  }

  lemma Distributed(h: bv32, k: bv32, carry: bv32, r: bv32)
    ensures Sum2(2 * h + 2 * k, 2 * carry + r) == Digit(h + k + carry, r)
  {
  }

  lemma SmallSum(h: bv32, k: bv32, carry: bv32)
    requires h < 0x4000_0000 && k < 0x4000_0000 && carry <= 1
    ensures Sum3(h, k, carry) < 0x8000_0000
  {
  }

  lemma Ones()
    ensures U(0) == 0 && U(1) == 1 && U(2) == 2 && U(3) == 3
  {
  }

  lemma DigitForms(a: bv32, r: bv32)
    requires r <= 1
    ensures r == 0 || r == 1
    ensures Digit(a, r) == if r == 1 then (a << 1) | 1 else a << 1
  {
  }

  lemma DigitIs(a: bv32, r: bv32)
    requires a < 0x8000_0000 && r <= 1
    ensures U(Digit(a, r)) == 2 * U(a) + U(r)
  {
    hide U, Digit;
    Ones();
    Even(a);
    Odd(a);
    DigitForms(a, r);
  }

  lemma BitSums(p: bv32, q: bv32, c: bv32)
    requires p <= 1 && q <= 1 && c <= 1
    ensures p == 0 || p == 1
    ensures q == 0 || q == 1
    ensures c == 0 || c == 1
    ensures Sum3(0, 0, 0) == 0 && Sum3(1, 0, 0) == Sum3(0, 1, 0) == Sum3(0, 0, 1) == 1
    ensures Sum3(1, 1, 0) == Sum3(1, 0, 1) == Sum3(0, 1, 1) == 2 && Sum3(1, 1, 1) == 3
    ensures Sum3(p, q, c) >> 1 <= 1
  {
  }

  lemma SumOfBits(p: bv32, q: bv32, c: bv32)
    requires p <= 1 && q <= 1 && c <= 1
    ensures U(Sum3(p, q, c)) == U(p) + U(q) + U(c)
  {
    hide U, Sum3;
    Ones();
    BitSums(p, q, c);
  }

  /** A sum of 31 bits each, with a carry. */
  lemma {:induction false} CarrySum(a: bv32, b: bv32, c: bv32)
    requires a < 0x8000_0000 && b < 0x8000_0000 && c <= 1
    ensures U(Sum3(a, b, c)) == U(a) + U(b) + U(c)
    decreases U(a) + U(b)
  {
    hide U, Sum2, Sum3, Digit;
    Zero(a);
    Zero(b);
    if a == 0 && b == 0 {
      SumOfBits(a, b, c);
    } else {
      var h, k, p, q := a >> 1, b >> 1, a & 1, b & 1;
      var low := Sum3(p, q, c);
      var carry, r := low >> 1, low & 1;
      Halves(a);
      Halves(b);
      Halves(low);
      BitSums(p, q, c);
      DigitIs(h, p);
      DigitIs(k, q);
      SumOfBits(p, q, c);
      DigitIs(carry, r);
      CarrySum(h, k, carry);
      Gathered(a, b, c, h, k, p, q);
      Carried(h, k, carry, r, low, Sum3(h, k, carry));
      SmallSum(h, k, carry);
      DigitIs(Sum3(h, k, carry), r);
    }
  }

  // ----- The highest bit -----

  lemma Top(a: bv32)
    requires a < 0x8000_0000
    ensures U(a | 0x8000_0000) == U(a) + TWO31 && U(a) < TWO31
  {
  }

  lemma RestIsSmall(a: bv32)
    ensures a & 0x7fff_ffff < 0x8000_0000
  {
  }

  lemma TopIsBit(a: bv32)
    ensures a & 0x8000_0000 == 0 || a & 0x8000_0000 == 0x8000_0000
  {
  }

  lemma WithTop(a: bv32)
    ensures a & 0x8000_0000 != 0 ==> a == (a & 0x7fff_ffff) | 0x8000_0000
  {
  }

  lemma WithoutTop(a: bv32)
    ensures a & 0x8000_0000 == 0 ==> a == a & 0x7fff_ffff
  {
  }

  lemma Parts(a: bv32)
    ensures a & 0x8000_0000 == 0 || a & 0x8000_0000 == 0x8000_0000
    ensures U(a) == U(a & 0x7fff_ffff) + (if a & 0x8000_0000 == 0 then 0 else TWO31) && U(a & 0x7fff_ffff) < TWO31
  {
    hide U;
    TopIsBit(a);
    RestIsSmall(a);
    WithTop(a);
    WithoutTop(a);
    Top(a & 0x7fff_ffff);
  }

  // The same for the flip of that bit, with the bits under names.

  function RestOf(a: bv32): bv32 { a & 0x7fff_ffff }
  function Flipped(a: bv32): bv32 { a ^ 0x8000_0000 }

  function TopOf(a: bv32): (p: nat)
    ensures p < 2
  {
    if a & 0x8000_0000 == 0 then 0 else 1
  }

  lemma PartsOf(a: bv32)
    ensures U(a) == U(RestOf(a)) + TopOf(a) * TWO31 && U(RestOf(a)) < TWO31
  {
    hide U;
    Parts(a);
  }

  lemma FlippedRest(a: bv32)
    ensures RestOf(Flipped(a)) == RestOf(a)
  {
  }

  lemma FlippedTop(a: bv32)
    ensures TopOf(Flipped(a)) == 1 - TopOf(a)
  {
  }

  lemma FlippedIs(a: bv32)
    ensures U(Flipped(a)) == (U(a) + TWO31) % TWO32
  {
    hide U, RestOf, TopOf, Flipped;
    PartsOf(a);
    PartsOf(Flipped(a));
    FlippedRest(a);
    FlippedTop(a);
  }

  lemma SumOfParts(a: bv32, b: bv32)
    ensures Sum2(a, b) == Sum3(a & 0x7fff_ffff, b & 0x7fff_ffff, 0) ^ (a & 0x8000_0000) ^ (b & 0x8000_0000)
  {
  }

  lemma FlippedTwice(s: bv32)
    ensures s ^ 0 ^ 0 == s && s ^ 0x8000_0000 ^ 0x8000_0000 == s
    ensures s ^ 0 ^ 0x8000_0000 == Flipped(s) == s ^ 0x8000_0000 ^ 0
  {
  }

  lemma SumIs(a: bv32, b: bv32)
    ensures AddW(U(a), U(b)) == U(Sum2(a, b))
  {
    hide U, Sum2, Sum3, Flipped;
    var s := Sum3(a & 0x7fff_ffff, b & 0x7fff_ffff, 0);
    Ones();
    Parts(a);
    Parts(b);
    RestIsSmall(a);
    RestIsSmall(b);
    CarrySum(a & 0x7fff_ffff, b & 0x7fff_ffff, 0);
    SumOfParts(a, b);
    FlippedTwice(s);
    FlippedIs(s);
  }

  // ----- Rotation -----

  function TurnBits(a: bv32): bv32 { (a << 1) | (a >> 31) }

  lemma TurnWithTop(a: bv32)
    ensures a & 0x8000_0000 != 0 ==> TurnBits(a) == ((a & 0x7fff_ffff) << 1) | 1
  {
  }

  lemma TurnWithoutTop(a: bv32)
    ensures a & 0x8000_0000 == 0 ==> TurnBits(a) == (a & 0x7fff_ffff) << 1
  {
  }

  lemma TurnArithmetic(x: Word, rest: nat, top: nat)
    requires rest < TWO31 && top < 2 && x == rest + top * TWO31
    ensures Turn(x) == 2 * rest + top
  {
  }

  lemma TurnIs(a: bv32)
    ensures Turn(U(a)) == U(TurnBits(a))
  {
    hide U, TurnBits, Turn;
    Parts(a);
    RestIsSmall(a);
    if a & 0x8000_0000 == 0 {
      TurnWithoutTop(a);
      TurnArithmetic(U(a), U(a & 0x7fff_ffff), 0);
      Even(a & 0x7fff_ffff);
    } else {
      TurnWithTop(a);
      TurnArithmetic(U(a), U(a & 0x7fff_ffff), 1);
      Odd(a & 0x7fff_ffff);
    }
  }

  /** w is v rotated by n places. */
  predicate Turns(v: bv32, n: nat, w: bv32) {
    Rotated(U(v), n) == U(w)
  }

  lemma OneTurn(v: bv32, n: nat, w: bv32, z: bv32)
    requires Turns(v, n, w) && z == TurnBits(w)
    ensures Turns(v, n + 1, z)
  {
    hide U, TurnBits, Turn;
    TurnIs(w);
  }

  lemma NoTurn(v: bv32)
    ensures Turns(v, 0, v)
  {
  }

  lemma Rotations(v: bv32)
    ensures Turns(v, 4, v.RotateLeft(4)) && Turns(v, 5, v.RotateLeft(5))
    ensures Turns(v, 6, v.RotateLeft(6)) && Turns(v, 7, v.RotateLeft(7))
    ensures Turns(v, 9, v.RotateLeft(9)) && Turns(v, 10, v.RotateLeft(10))
    ensures Turns(v, 11, v.RotateLeft(11)) && Turns(v, 12, v.RotateLeft(12))
    ensures Turns(v, 14, v.RotateLeft(14)) && Turns(v, 15, v.RotateLeft(15))
    ensures Turns(v, 16, v.RotateLeft(16)) && Turns(v, 17, v.RotateLeft(17))
    ensures Turns(v, 20, v.RotateLeft(20)) && Turns(v, 21, v.RotateLeft(21))
    ensures Turns(v, 22, v.RotateLeft(22)) && Turns(v, 23, v.RotateLeft(23))
  {
    hide Turns;
    NoTurn(v);
    OneTurn(v, 0, v, v.RotateLeft(1));
    OneTurn(v, 1, v.RotateLeft(1), v.RotateLeft(2));
    OneTurn(v, 2, v.RotateLeft(2), v.RotateLeft(3));
    OneTurn(v, 3, v.RotateLeft(3), v.RotateLeft(4));
    OneTurn(v, 4, v.RotateLeft(4), v.RotateLeft(5));
    OneTurn(v, 5, v.RotateLeft(5), v.RotateLeft(6));
    OneTurn(v, 6, v.RotateLeft(6), v.RotateLeft(7));
    OneTurn(v, 7, v.RotateLeft(7), v.RotateLeft(8));
    OneTurn(v, 8, v.RotateLeft(8), v.RotateLeft(9));
    OneTurn(v, 9, v.RotateLeft(9), v.RotateLeft(10));
    OneTurn(v, 10, v.RotateLeft(10), v.RotateLeft(11));
    OneTurn(v, 11, v.RotateLeft(11), v.RotateLeft(12));
    OneTurn(v, 12, v.RotateLeft(12), v.RotateLeft(13));
    OneTurn(v, 13, v.RotateLeft(13), v.RotateLeft(14));
    OneTurn(v, 14, v.RotateLeft(14), v.RotateLeft(15));
    OneTurn(v, 15, v.RotateLeft(15), v.RotateLeft(16));
    OneTurn(v, 16, v.RotateLeft(16), v.RotateLeft(17));
    OneTurn(v, 17, v.RotateLeft(17), v.RotateLeft(18));
    OneTurn(v, 18, v.RotateLeft(18), v.RotateLeft(19));
    OneTurn(v, 19, v.RotateLeft(19), v.RotateLeft(20));
    OneTurn(v, 20, v.RotateLeft(20), v.RotateLeft(21));
    OneTurn(v, 21, v.RotateLeft(21), v.RotateLeft(22));
    OneTurn(v, 22, v.RotateLeft(22), v.RotateLeft(23));
  }

  predicate IsShift(n: nat) {
    n in {4, 5, 6, 7, 9, 10, 11, 12, 14, 15, 16, 17, 20, 21, 22, 23}
  }

  function RotatedBits(v: bv32, n: nat): bv32 {
    match n
    case 4 => v.RotateLeft(4) case 5 => v.RotateLeft(5) case 6 => v.RotateLeft(6) case 7 => v.RotateLeft(7)
    case 9 => v.RotateLeft(9) case 10 => v.RotateLeft(10) case 11 => v.RotateLeft(11) case 12 => v.RotateLeft(12)
    case 14 => v.RotateLeft(14) case 15 => v.RotateLeft(15) case 16 => v.RotateLeft(16) case 17 => v.RotateLeft(17)
    case 20 => v.RotateLeft(20) case 21 => v.RotateLeft(21) case 22 => v.RotateLeft(22) case _ => v.RotateLeft(23)
  }

  lemma RotatedIs(v: bv32, n: nat)
    requires IsShift(n)
    ensures Rotated(U(v), n) == U(RotatedBits(v, n))
  {
    hide U, Rotated;
    Rotations(v);
  }

  // ----- The operations -----

  lemma ConstantsOfRound1()
    ensures T(0) == U(0xd76aa478) && T(1) == U(0xe8c7b756) && T(2) == U(0x242070db) && T(3) == U(0xc1bdceee)
    ensures T(4) == U(0xf57c0faf) && T(5) == U(0x4787c62a) && T(6) == U(0xa8304613) && T(7) == U(0xfd469501)
    ensures T(8) == U(0x698098d8) && T(9) == U(0x8b44f7af) && T(10) == U(0xffff5bb1) && T(11) == U(0x895cd7be)
    ensures T(12) == U(0x6b901122) && T(13) == U(0xfd987193) && T(14) == U(0xa679438e) && T(15) == U(0x49b40821)
  {
  }

  lemma IndicesOfRound1()
    ensures WordIndex(0) == 0 && WordIndex(1) == 1 && WordIndex(2) == 2 && WordIndex(3) == 3
    ensures WordIndex(4) == 4 && WordIndex(5) == 5 && WordIndex(6) == 6 && WordIndex(7) == 7
    ensures WordIndex(8) == 8 && WordIndex(9) == 9 && WordIndex(10) == 10 && WordIndex(11) == 11
    ensures WordIndex(12) == 12 && WordIndex(13) == 13 && WordIndex(14) == 14 && WordIndex(15) == 15
  {
  }

  lemma ConstantsOfRound2()
    ensures T(16) == U(0xf61e2562) && T(17) == U(0xc040b340) && T(18) == U(0x265e5a51) && T(19) == U(0xe9b6c7aa)
    ensures T(20) == U(0xd62f105d) && T(21) == U(0x02441453) && T(22) == U(0xd8a1e681) && T(23) == U(0xe7d3fbc8)
    ensures T(24) == U(0x21e1cde6) && T(25) == U(0xc33707d6) && T(26) == U(0xf4d50d87) && T(27) == U(0x455a14ed)
    ensures T(28) == U(0xa9e3e905) && T(29) == U(0xfcefa3f8) && T(30) == U(0x676f02d9) && T(31) == U(0x8d2a4c8a)
  {
  }

  lemma IndicesOfRound2()
    ensures WordIndex(16) == 1 && WordIndex(17) == 6 && WordIndex(18) == 11 && WordIndex(19) == 0
    ensures WordIndex(20) == 5 && WordIndex(21) == 10 && WordIndex(22) == 15 && WordIndex(23) == 4
    ensures WordIndex(24) == 9 && WordIndex(25) == 14 && WordIndex(26) == 3 && WordIndex(27) == 8
    ensures WordIndex(28) == 13 && WordIndex(29) == 2 && WordIndex(30) == 7 && WordIndex(31) == 12
  {
  }

  lemma ConstantsOfRound3()
    ensures T(32) == U(0xfffa3942) && T(33) == U(0x8771f681) && T(34) == U(0x6d9d6122) && T(35) == U(0xfde5380c)
    ensures T(36) == U(0xa4beea44) && T(37) == U(0x4bdecfa9) && T(38) == U(0xf6bb4b60) && T(39) == U(0xbebfbc70)
    ensures T(40) == U(0x289b7ec6) && T(41) == U(0xeaa127fa) && T(42) == U(0xd4ef3085) && T(43) == U(0x04881d05)
    ensures T(44) == U(0xd9d4d039) && T(45) == U(0xe6db99e5) && T(46) == U(0x1fa27cf8) && T(47) == U(0xc4ac5665)
  {
  }

  lemma IndicesOfRound3()
    ensures WordIndex(32) == 5 && WordIndex(33) == 8 && WordIndex(34) == 11 && WordIndex(35) == 14
    ensures WordIndex(36) == 1 && WordIndex(37) == 4 && WordIndex(38) == 7 && WordIndex(39) == 10
    ensures WordIndex(40) == 13 && WordIndex(41) == 0 && WordIndex(42) == 3 && WordIndex(43) == 6
    ensures WordIndex(44) == 9 && WordIndex(45) == 12 && WordIndex(46) == 15 && WordIndex(47) == 2
  {
  }

  lemma ConstantsOfRound4()
    ensures T(48) == U(0xf4292244) && T(49) == U(0x432aff97) && T(50) == U(0xab9423a7) && T(51) == U(0xfc93a039)
    ensures T(52) == U(0x655b59c3) && T(53) == U(0x8f0ccc92) && T(54) == U(0xffeff47d) && T(55) == U(0x85845dd1)
    ensures T(56) == U(0x6fa87e4f) && T(57) == U(0xfe2ce6e0) && T(58) == U(0xa3014314) && T(59) == U(0x4e0811a1)
    ensures T(60) == U(0xf7537e82) && T(61) == U(0xbd3af235) && T(62) == U(0x2ad7d2bb) && T(63) == U(0xeb86d391)
  {
  }

  lemma IndicesOfRound4()
    ensures WordIndex(48) == 0 && WordIndex(49) == 7 && WordIndex(50) == 14 && WordIndex(51) == 5
    ensures WordIndex(52) == 12 && WordIndex(53) == 3 && WordIndex(54) == 10 && WordIndex(55) == 1
    ensures WordIndex(56) == 8 && WordIndex(57) == 15 && WordIndex(58) == 6 && WordIndex(59) == 13
    ensures WordIndex(60) == 4 && WordIndex(61) == 11 && WordIndex(62) == 2 && WordIndex(63) == 9
  {
  }

  function RegsOf(a: bv32, b: bv32, c: bv32, d: bv32): Regs {
    Regs(U(a), U(b), U(c), U(d))
  }

  /** The register that operation i computes with the word m and the constant t. */
  function OpBits(i: Index, a: bv32, b: bv32, c: bv32, d: bv32, m: bv32, t: bv32): bv32 {
    Sum2(b, RotatedBits(Sum2(Sum2(Sum2(a, AuxiliaryBits(i, b, c, d)), m), t), ShiftOf(i)))
  }

  lemma IsShiftOf(i: Index)
    ensures IsShift(ShiftOf(i))
  {
  }

  lemma OneStep(x: Block, i: Index, a: bv32, b: bv32, c: bv32, d: bv32, m: bv32, t: bv32)
    requires x[WordIndex(i)] == U(m) && T(i) == U(t)
    ensures Operation(x, RegsOf(a, b, c, d), i) == RegsOf(d, OpBits(i, a, b, c, d, m, t), b, c)
  {
    hide U, AuxiliaryBits, Auxiliary, RotatedBits, Rotated, T, ShiftOf, WordIndex, AddW, Sum2, IsShift;
    var f := AuxiliaryBits(i, b, c, d);
    var sum := Sum2(Sum2(Sum2(a, f), m), t);
    AuxiliaryIs(i, b, c, d);
    SumIs(a, f);
    SumIs(Sum2(a, f), m);
    SumIs(Sum2(Sum2(a, f), m), t);
    IsShiftOf(i);
    RotatedIs(sum, ShiftOf(i));
    SumIs(b, RotatedBits(sum, ShiftOf(i)));
  }

  /** Operation i on known registers: m is the word of the block, t the constant and v the register that is computed. */
  lemma Op(x: Block, r: Regs, i: Index, a: bv32, b: bv32, c: bv32, d: bv32, m: bv32, t: bv32, v: bv32)
    returns (next: bv32)
    requires Iterate(Loop(x), r, 0, i) == RegsOf(a, b, c, d) && x[WordIndex(i)] == U(m) && T(i) == U(t)
    requires OpBits(i, a, b, c, d, m, t) == v
    ensures Iterate(Loop(x), r, 0, i + 1) == RegsOf(d, v, b, c) && next == v
  {
    hide Operation, RegsOf, OpBits, U, T, WordIndex;
    next := v;
    OneStep(x, i, a, b, c, d, m, t);
  }

  /** The registers before a block and those that its operations give are added. */
  lemma Compressed(r: Regs, chunk: Chunk, a: bv32, b: bv32, c: bv32, d: bv32, e: bv32, f: bv32, g: bv32, h: bv32)
    requires r == RegsOf(a, b, c, d) && Iterate(Loop(Words(chunk)), r, 0, 64) == RegsOf(e, f, g, h)
    ensures Compress(r, chunk) == RegsOf(Sum2(a, e), Sum2(b, f), Sum2(c, g), Sum2(d, h))
  {
    hide U, AddW, Sum2, Iterate;
    SumIs(a, e);
    SumIs(b, f);
    SumIs(c, g);
    SumIs(d, h);
  }
}
