/** C strings as Dafny strings, and the conversions of numbers that printf and atoi do. */
module Text {
  import opened Word32

  datatype Option<+T> = None | Some(value: T)

  function Min(a: nat, b: nat): nat { if a < b then a else b }

  predicate IsByte(c: char) { c as int < 256 }

  predicate IsCString(s: string) { forall c :: c in s ==> IsByte(c) && c != '\0' }

  /** A NUL-terminated string without its terminator. */
  type CString = s: string | IsCString(s)

  lemma SliceIsText(s: CString, k: nat)
    requires k <= |s|
    ensures IsCString(s[..k]) && IsCString(s[k..])
  {
    assert forall c :: c in s[..k] ==> c in s;
    assert forall c :: c in s[k..] ==> c in s;
  }

  predicate AllBytes(s: string) { forall c :: c in s ==> IsByte(c) }

  /** Bytes that may include NULs, as a read gives them. */
  type ByteString = s: string | AllBytes(s)

  /** What a C string function sees of a buffer: everything up to the first NUL. */
  function UpToNul(s: ByteString): (t: CString)
    ensures t <= s && (|t| == |s| || s[|t|] == '\0')
  {
    if s == "" || s[0] == '\0' then ""
    else
      assert forall c :: c in s[1..] ==> c in s;
      [s[0]] + UpToNul(s[1..])
  }

  /** A NUL inside a buffer is where its text ends. */
  lemma {:induction false} UpToNulStops(s: ByteString, k: nat)
    requires k < |s| && s[k] == '\0' && AllBytes(s[..k])
    ensures UpToNul(s) == UpToNul(s[..k])
  {
    if k > 0 && s[0] != '\0' {
      assert forall c :: c in s[1..] ==> c in s;
      assert s[..k][1..] == s[1..][..k - 1];
      assert forall c :: c in s[..k][1..] ==> c in s[..k];
      UpToNulStops(s[1..], k - 1);
    }
  }

  predicate IsSpace(c: char) { c == ' ' || '\t' <= c <= '\r' }

  /** The length of the leading white space. */
  function SpaceLength(s: string): (n: nat)
    ensures n <= |s| && (forall i :: 0 <= i < n ==> IsSpace(s[i])) && (n < |s| ==> !IsSpace(s[n]))
  {
    if s == "" || !IsSpace(s[0]) then 0 else 1 + SpaceLength(s[1..])
  }

  function Lower(c: char): char {
    if 'A' <= c <= 'Z' then c - 'A' + 'a' else c
  }

  function LowerAll(s: string): string {
    seq(|s|, (i: nat) requires i < |s| => Lower(s[i]))
  }

  function ByteOf(c: char): Byte {
    c as int % 256
  }

  function Bytes(s: CString): (b: seq<Byte>)
    ensures |b| == |s|
  {
    if s == [] then [] else [ByteOf(s[0])] + Bytes(s[1..])
  }

  // ----- Decimal numbers -----

  predicate IsDigit(c: char) { '0' <= c <= '9' }

  function DigitOf(d: nat): char
    requires d < 10
  {
    '0' + d as char
  }

  /** The shortest decimal form of a number. */
  function Decimal(v: nat): (s: CString)
    ensures s != [] && forall c :: c in s ==> IsDigit(c)
  {
    if v < 10 then [DigitOf(v)] else Decimal(v / 10) + [DigitOf(v % 10)]
  }

  function DigitValue(c: char): nat {
    if IsDigit(c) then c as int - '0' as int else 0
  }

  /** What a string of digits stands for. */
  function Value(s: string): nat {
    if s == [] then 0 else 10 * Value(s[..|s| - 1]) + DigitValue(s[|s| - 1])
  }

  lemma {:induction false} ValueOfDecimal(v: nat)
    ensures Value(Decimal(v)) == v
  {
    var s := Decimal(v);
    if v < 10 {
      assert s[..0] == [];
    } else {
      assert s[..|s| - 1] == Decimal(v / 10);
      ValueOfDecimal(v / 10);
    }
  }

  function Pow10(n: nat): (p: nat)
    ensures p > 0
  {
    if n == 0 then 1 else 10 * Pow10(n - 1)
  }

  lemma {:induction false} DecimalLength(v: nat, n: nat)
    requires n > 0 && v < Pow10(n)
    ensures |Decimal(v)| <= n
  {
    if v >= 10 {
      assert n > 1 by {
        assert Pow10(1) == 10;
      }
      DecimalLength(v / 10, n - 1);
    }
  }

  function Repeat(c: char, n: nat): (s: string)
    ensures |s| == n && forall i :: 0 <= i < n ==> s[i] == c
  {
    seq(n, _ => c)
  }

  /** printf of a non-negative number with a minimum field width filled with zeros. */
  function ZeroPadded(v: nat, width: nat): (s: CString)
    ensures forall c :: c in s ==> IsDigit(c)
    ensures |s| >= width
  {
    var d := Decimal(v);
    if |d| >= width then d else Repeat('0', width - |d|) + d
  }

  lemma {:induction false} ValueOfZeros(zeros: nat, s: string)
    requires forall c :: c in s ==> IsDigit(c)
    ensures Value(Repeat('0', zeros) + s) == Value(s)
  {
    var z := Repeat('0', zeros);
    if s != [] {
      assert (z + s)[..|z + s| - 1] == z + s[..|s| - 1];
      ValueOfZeros(zeros, s[..|s| - 1]);
    } else if zeros > 0 {
      assert (z + s)[..zeros - 1] == Repeat('0', zeros - 1) + s;
      ValueOfZeros(zeros - 1, s);
    }
  }

  lemma ZeroPaddedFits(v: nat, width: nat)
    requires width > 0 && v < Pow10(width)
    ensures |ZeroPadded(v, width)| == width && Value(ZeroPadded(v, width)) == v
  {
    DecimalLength(v, width);
    ValueOfDecimal(v);
    ValueOfZeros(width - |Decimal(v)|, Decimal(v));
    if |Decimal(v)| == width {
      assert Repeat('0', 0) + Decimal(v) == Decimal(v);
    }
  }

  /** Dropping leading digits takes a remainder. */
  lemma {:induction false} ValueOfSuffix(s: string, k: nat)
    requires k <= |s| && forall c :: c in s ==> IsDigit(c)
    ensures Value(s[|s| - k..]) < Pow10(k)
    ensures Value(s) % Pow10(k) == Value(s[|s| - k..])
  {
    hide Value, Pow10;
    LastDigitCounts(s[|s| - k..], k);
    if k > 0 {
      var front := s[..|s| - 1];
      ValueOfSuffix(front, k - 1);
      var t := s[|s| - k..];
      assert t[..k - 1] == front[|front| - (k - 1)..];
      assert t[k - 1] == s[|s| - 1];
      LastDigitCounts(s, |s|);
      LowDigits(Value(front), Pow10(k - 1), DigitValue(t[k - 1]));
    }
  }

  lemma LastDigitCounts(t: string, k: nat)
    requires k == |t|
    ensures Pow10(k) == if k == 0 then 1 else 10 * Pow10(k - 1)
    ensures Value(t) == if k == 0 then 0 else 10 * Value(t[..k - 1]) + DigitValue(t[k - 1])
    ensures k > 0 && IsDigit(t[k - 1]) ==> DigitValue(t[k - 1]) < 10
  {
  }

  lemma LowDigits(v: nat, p: nat, d: nat)
    requires p > 0 && d < 10
    ensures (10 * v + d) % (10 * p) == 10 * (v % p) + d
  {
    var q, r := v / p, v % p;
    assert v == q * p + r;
    assert 10 * v + d == q * (10 * p) + (10 * r + d) by {
      assert q * (10 * p) == 10 * (q * p);
    }
    RemainderUnique(10 * v + d, 10 * p, q, 10 * r + d);
  }

  lemma RemainderUnique(x: nat, d: nat, q: nat, r: nat)
    requires r < d && x == q * d + r
    ensures x % d == r
  {
    var e := x / d - q;
    assert x == x / d * d + x % d;
    assert e * d == r - x % d;
    MulMonotone(1, e, d);
    MulMonotone(1, -e, d);
  }
}
