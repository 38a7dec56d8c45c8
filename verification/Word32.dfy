/**
  Bytes and 32-bit unsigned words as natural numbers, with C's unsigned operators on them. A mask with low one-bits
  only is written as a remainder, and a shift to the right by a constant as a quotient.
 */
module Word32 {

  const TWO31: nat := 0x8000_0000
  const TWO32: nat := 0x1_0000_0000
  const TWO64: nat := 0x1_0000_0000_0000_0000

  type Byte = b: int | 0 <= b < 256
  type Word = w: int | 0 <= w < TWO32

  function Pow2(n: nat): (p: nat)
    ensures p > 0
  {
    if n == 0 then 1 else 2 * Pow2(n - 1)
  }

  lemma Pow2Of8()
    ensures Pow2(8) == 256
  {
  }

  // ----- Bitwise operators, one binary digit at a time -----

  function And(x: nat, y: nat): (r: nat)
    ensures r <= x && r <= y
    decreases x
  {
    if x == 0 || y == 0 then 0
    else 2 * And(x / 2, y / 2) + (if x % 2 == 1 && y % 2 == 1 then 1 else 0)
  }

  function Or(x: nat, y: nat): (r: nat)
    decreases x
  {
    if x == 0 then y else if y == 0 then x
    else 2 * Or(x / 2, y / 2) + (if x % 2 == 1 || y % 2 == 1 then 1 else 0)
  }

  function Xor(x: nat, y: nat): (r: nat)
    decreases x
  {
    if x == 0 then y else if y == 0 then x
    else 2 * Xor(x / 2, y / 2) + (if x % 2 != y % 2 then 1 else 0)
  }

  lemma {:induction false} OrXorBound(x: nat, y: nat, n: nat)
    requires x < Pow2(n) && y < Pow2(n)
    ensures Or(x, y) < Pow2(n) && Xor(x, y) < Pow2(n)
  {
    if x != 0 && y != 0 {
      OrXorBound(x / 2, y / 2, n - 1);
    }
  }

  lemma Pow2Of32()
    ensures Pow2(31) == TWO31 && Pow2(32) == TWO32
  {
    assert Pow2(8) == 256;
    assert Pow2(16) == 65536;
    assert Pow2(24) == 0x100_0000;
  }

  function AndW(x: Word, y: Word): Word { And(x, y) }

  function OrW(x: Word, y: Word): Word {
    Pow2Of32();
    OrXorBound(x, y, 32);
    Or(x, y)
  }

  function XorW(x: Word, y: Word): Word {
    Pow2Of32();
    OrXorBound(x, y, 32);
    Xor(x, y)
  }

  function NotW(x: Word): Word { TWO32 - 1 - x }

  function AddW(x: Word, y: Word): Word { (x + y) % TWO32 }

  /** Every bit moves up by one place; the highest one is lost. */
  function Up(x: Word): Word { 2 * x % TWO32 }

  /** Every bit moves up by one place; the highest one comes round. */
  function Turn(x: Word): Word { 2 * x % TWO32 + x / TWO31 }

  function Shl(x: Word, n: nat): Word
    decreases n
  {
    if n == 0 then x else Up(Shl(x, n - 1))
  }

  function Shr(x: Word, n: nat): Word
    decreases n
  {
    if n == 0 then x else Shr(x, n - 1) / 2
  }

  /** Circular shift to the left. */
  function Rotated(x: Word, n: nat): Word
    decreases n
  {
    if n == 0 then x else Turn(Rotated(x, n - 1))
  }

  // ----- Laws -----

  lemma {:induction false} Pow2Sum(m: nat, n: nat)
    ensures Pow2(m + n) == Pow2(m) * Pow2(n)
  {
    if m != 0 {
      Pow2Sum(m - 1, n);
      Double(Pow2(n), Pow2(m - 1));
    }
  }

  /** A multiple of 2^n and a number below 2^n have no one-bit in common: joining them adds them. */
  lemma {:induction false} OrDisjoint(q: nat, low: nat, n: nat)
    requires low < Pow2(n)
    ensures Or(q * Pow2(n), low) == q * Pow2(n) + low
  {
    if n != 0 && low != 0 && q != 0 {
      var p := Pow2(n - 1);
      var h := q * Pow2(n);
      assert h == 2 * (q * p);
      OrDisjoint(q, low / 2, n - 1);
      assert h % 2 == 0 && h / 2 == q * p;
      if h != 0 {
        assert Or(h, low) == 2 * Or(q * p, low / 2) + low % 2;
      }
    }
  }

  lemma Regroup(h: nat, b: nat, p: nat, low: nat)
    requires b < 2 && low < p
    ensures (2 * h + b) * p + low == h * (2 * p) + (b * p + low)
    ensures b * p + low < 2 * p
  {
    assert (2 * h + b) * p == h * (2 * p) + b * p;
  }

  /** A right shift splits off the low digits. */
  lemma {:induction false} ShrSplits(x: Word, n: nat) returns (low: nat)
    ensures low < Pow2(n) && x == Shr(x, n) * Pow2(n) + low
  {
    if n == 0 {
      low := 0;
      assert Pow2(0) == 1;
    } else {
      var rest := ShrSplits(x, n - 1);
      var s, p := Shr(x, n - 1), Pow2(n - 1);
      Regroup(s / 2, s % 2, p, rest);
      low := s % 2 * p + rest;
    }
  }

  /** The left shift and the rotation of a word given as its high n and low 32 - n digits. */
  lemma {:induction false} ShiftAndRotate(x: Word, high: nat, low: nat, n: nat)
    requires n <= 32 && low < Pow2(32 - n) && high < Pow2(n) && x == high * Pow2(32 - n) + low
    ensures Shl(x, n) == low * Pow2(n)
    ensures Rotated(x, n) == low * Pow2(n) + high
  {
    hide Up, Turn, Pow2;
    Pow2Step(n);
    if n > 0 {
      var m, p := Pow2(32 - n), Pow2(n - 1);
      var h, b := high / 2, high % 2;
      Pow2Step(33 - n);
      Regroup(h, b, m, low);
      ShiftAndRotate(x, h, b * m + low, n - 1);
      HalvesOfWord(n);
      TurnOnce(Shl(x, n - 1), Rotated(x, n - 1), b, m, low, h, p, Pow2(n));
    }
  }

  lemma Pow2Step(n: nat)
    ensures Pow2(n) == if n == 0 then 1 else 2 * Pow2(n - 1)
  {
  }

  lemma HalvesOfWord(n: nat)
    requires 0 < n <= 32
    ensures Pow2(32 - n) * Pow2(n - 1) == TWO31
  {
    Pow2Of32();
    Pow2Sum(32 - n, n - 1);
  }

  /** One more turn of a word whose digits are b * m + low above h, where the digit b goes round. */
  lemma TurnOnce(x: Word, y: Word, b: nat, m: nat, low: nat, h: nat, p: nat, p2: nat)
    requires b < 2 && low < m && h < p && m * p == TWO31 && p2 == 2 * p
    requires x == (b * m + low) * p && y == (b * m + low) * p + h
    ensures Up(x) == low * p2
    ensures Turn(y) == low * p2 + (2 * h + b)
  {
    BelowProduct(low, m, h, p);
    Distribute(b, m, low, p);
    Double(low, p);
    TurnHalves(x, y, b, low * p, h);
  }

  /** The same when the product of the rest and its place value is given. */
  lemma TurnHalves(x: Word, y: Word, b: nat, z: nat, h: nat)
    requires b < 2 && z + h < TWO31 && x == b * TWO31 + z && y == x + h
    ensures Up(x) == 2 * z && Turn(y) == 2 * z + (2 * h + b)
  {
    if b == 0 {
    } else {
      assert 2 * x == TWO32 + 2 * z;
    }
  }

  lemma Distribute(b: nat, m: nat, low: nat, p: nat)
    ensures (b * m + low) * p == b * (m * p) + low * p
  {
    assert (b * m + low) * p == (b * m) * p + low * p;
  }

  lemma Double(low: nat, p: nat)
    ensures low * (2 * p) == 2 * (low * p)
  {
  }

  lemma MulMonotone(a: int, b: int, m: nat)
    ensures a <= b ==> a * m <= b * m
  {
    if a <= b {
      assert (b - a) * m >= 0;
      assert (b - a) * m == b * m - a * m;
    }
  }

  lemma BelowProduct(r: nat, m: nat, s: nat, p: nat)
    requires r < m && s < p
    ensures r * p + s < m * p
  {
    MulMonotone(r + 1, m, p);
    assert (r + 1) * p == r * p + p;
  }

  lemma AddCommutes(x: Word, y: Word)
    ensures AddW(x, y) == AddW(y, x)
  {
  }

  /** A word shifted both ways and joined is a circular shift. */
  lemma ShiftsRotate(x: Word, n: nat)
    requires n <= 32
    ensures OrW(Shl(x, n), Shr(x, 32 - n)) == Rotated(x, n)
  {
    var low := ShrSplits(x, 32 - n);
    var high := Shr(x, 32 - n);
    HighPart(x, high, low, n);
    ShiftAndRotate(x, high, low, n);
    OrDisjoint(low, high, n);
  }

  lemma HighPart(x: Word, high: nat, low: nat, n: nat)
    requires n <= 32 && x == high * Pow2(32 - n) + low
    ensures high < Pow2(n)
  {
    hide Pow2;
    Pow2Of32();
    Pow2Sum(32 - n, n);
    BelowQuotient(high, Pow2(32 - n), low, Pow2(n));
  }

  lemma BelowQuotient(high: nat, q: nat, low: nat, m: nat)
    requires high * q + low < q * m
    ensures high < m
  {
    MulMonotone(m, high, q);
  }

  lemma XorOdd(q: nat, c: nat)
    ensures Xor(2 * q + 1, c) == 2 * Xor(q, c / 2) + 1 - c % 2
  {
    assert (2 * q + 1) / 2 == q;
  }

  lemma XorNothing(c: nat)
    ensures c == 0 ==> Xor(0, c) == 0
  {
  }

  /** Exclusive or with n one-bits turns every bit round. */
  lemma {:induction false} XorOnes(c: nat, n: nat)
    requires c < Pow2(n)
    ensures Xor(Pow2(n) - 1, c) == Pow2(n) - 1 - c
  {
    hide Xor;
    XorNothing(c);
    if n > 0 {
      XorOnes(c / 2, n - 1);
      XorOdd(Pow2(n - 1) - 1, c);
    }
  }

  lemma XorMask(mask: Word, c: Word)
    requires mask == TWO32 - 1
    ensures XorW(mask, c) == NotW(c)
  {
    Pow2Of32();
    XorOnes(c, 32);
  }
}
