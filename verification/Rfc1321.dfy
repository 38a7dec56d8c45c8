/** The MD5 message digest as RFC 1321 defines it, written without buffers, counters or chunks. */
module Rfc1321 {

  import opened Word32

  datatype Regs = Regs(a: Word, b: Word, c: Word, d: Word)

  type Block = x: seq<Word> | |x| == 16 witness seq(16, _ => 0)
  type Index = i: int | 0 <= i < 64
  type Chunk = b: seq<Byte> | |b| == 64 witness seq(64, _ => 0)

  // ----- Section 3.1 and 3.2: padding and length -----

  const BLOCK: nat := 64

  predicate FillsBlock(length: nat, zeros: nat) {
    (length + 1 + zeros) % BLOCK == 56
  }

  /** The number of zero bytes that follow the byte 0x80. */
  function ZeroCount(length: nat): nat {
    (55 - length) % BLOCK
  }

  /** It is the fewest that make the length congruent to 56 modulo 64. */
  lemma ZeroCountIsFewest(length: nat, j: nat)
    ensures FillsBlock(length, ZeroCount(length))
    ensures FillsBlock(length, j) ==> ZeroCount(length) <= j
  {
  }

  function Zeros(k: nat): seq<Byte> {
    seq(k, _ => 0)
  }

  /** The lowest n bytes of a number, low-order byte first. */
  function LittleEndian(x: nat, n: nat): (b: seq<Byte>)
    ensures |b| == n
  {
    if n == 0 then [] else [x % 256] + LittleEndian(x / 256, n - 1)
  }

  /** The length of the message in bits modulo 2^64. */
  function LengthBytes(length: nat): (b: seq<Byte>)
    ensures |b| == 8
  {
    LittleEndian(8 * length % TWO64, 8)
  }

  function Padded(message: seq<Byte>): seq<Byte> {
    message + [0x80] + Zeros(ZeroCount(|message|)) + LengthBytes(|message|)
  }

  // ----- Section 3.3: the initial registers -----

  const INITIAL := Regs(0x67452301, 0xefcdab89, 0x98badcfe, 0x10325476)

  // ----- Section 3.4: one 16-word block -----

  /** The table of section 3.4, indexed from 0: the integer parts of 2^32 * |sin(i + 1)|. */
  function T(i: Index): Word {
    if i < 16 then TableOfRound1(i)
    else if i < 32 then TableOfRound2(i - 16)
    else if i < 48 then TableOfRound3(i - 32)
    else TableOfRound4(i - 48)
  }

  function TableOfRound1(j: nat): Word {
    match j
    case 0 => 0xd76aa478 case 1 => 0xe8c7b756 case 2 => 0x242070db case 3 => 0xc1bdceee
    case 4 => 0xf57c0faf case 5 => 0x4787c62a case 6 => 0xa8304613 case 7 => 0xfd469501
    case 8 => 0x698098d8 case 9 => 0x8b44f7af case 10 => 0xffff5bb1 case 11 => 0x895cd7be
    case 12 => 0x6b901122 case 13 => 0xfd987193 case 14 => 0xa679438e case _ => 0x49b40821
  }

  function TableOfRound2(j: nat): Word {
    match j
    case 0 => 0xf61e2562 case 1 => 0xc040b340 case 2 => 0x265e5a51 case 3 => 0xe9b6c7aa
    case 4 => 0xd62f105d case 5 => 0x02441453 case 6 => 0xd8a1e681 case 7 => 0xe7d3fbc8
    case 8 => 0x21e1cde6 case 9 => 0xc33707d6 case 10 => 0xf4d50d87 case 11 => 0x455a14ed
    case 12 => 0xa9e3e905 case 13 => 0xfcefa3f8 case 14 => 0x676f02d9 case _ => 0x8d2a4c8a
  }

  function TableOfRound3(j: nat): Word {
    match j
    case 0 => 0xfffa3942 case 1 => 0x8771f681 case 2 => 0x6d9d6122 case 3 => 0xfde5380c
    case 4 => 0xa4beea44 case 5 => 0x4bdecfa9 case 6 => 0xf6bb4b60 case 7 => 0xbebfbc70
    case 8 => 0x289b7ec6 case 9 => 0xeaa127fa case 10 => 0xd4ef3085 case 11 => 0x04881d05
    case 12 => 0xd9d4d039 case 13 => 0xe6db99e5 case 14 => 0x1fa27cf8 case _ => 0xc4ac5665
  }

  function TableOfRound4(j: nat): Word {
    match j
    case 0 => 0xf4292244 case 1 => 0x432aff97 case 2 => 0xab9423a7 case 3 => 0xfc93a039
    case 4 => 0x655b59c3 case 5 => 0x8f0ccc92 case 6 => 0xffeff47d case 7 => 0x85845dd1
    case 8 => 0x6fa87e4f case 9 => 0xfe2ce6e0 case 10 => 0xa3014314 case 11 => 0x4e0811a1
    case 12 => 0xf7537e82 case 13 => 0xbd3af235 case 14 => 0x2ad7d2bb case _ => 0xeb86d391
  }

  /** F, G, H and I, chosen by the round. */
  function Auxiliary(i: Index, x: Word, y: Word, z: Word): Word
  {
    if i < 16 then OrW(AndW(x, y), AndW(NotW(x), z))
    else if i < 32 then OrW(AndW(x, z), AndW(y, NotW(z)))
    else if i < 48 then XorW(XorW(x, y), z)
    else XorW(y, OrW(x, NotW(z)))
  }

  function WordIndex(i: Index): (k: nat)
    ensures k < 16
  {
    if i < 16 then i
    else if i < 32 then (5 * i + 1) % 16
    else if i < 48 then (3 * i + 5) % 16
    else 7 * i % 16
  }

  /** The shifts of a round repeat every four operations. */
  function ShiftOf(i: Index): (s: nat)
    ensures 0 < s < 32
  {
    if i < 16 then Cycle(i, 7, 12, 17, 22)
    else if i < 32 then Cycle(i, 5, 9, 14, 20)
    else if i < 48 then Cycle(i, 4, 11, 16, 23)
    else Cycle(i, 6, 10, 15, 21)
  }

  function Cycle(i: nat, s0: nat, s1: nat, s2: nat, s3: nat): nat {
    match i % 4
    case 0 => s0
    case 1 => s1
    case 2 => s2
    case _ => s3
  }

  /** a = b + ((a + f + x + t) <<< s), after which the registers are renamed so that `d` is the next one to change. */
  function Step(r: Regs, f: Word, x: Word, s: nat, t: Word): Regs {
    Regs(r.d, AddW(r.b, Rotated(AddW(AddW(AddW(r.a, f), x), t), s)), r.b, r.c)
  }

  function Operation(x: Block, r: Regs, i: Index): Regs {
    Step(r, Auxiliary(i, r.b, r.c, r.d), x[WordIndex(i)], ShiftOf(i), T(i))
  }

  function Loop(x: Block): (Regs, Index) -> Regs {
    (r: Regs, i: Index) => Operation(x, r, i)
  }

  /** The n operations lo, lo + 1, ..., lo + n - 1 in order. */
  function Iterate(op: (Regs, Index) -> Regs, r: Regs, lo: nat, n: nat): Regs
    requires lo + n <= 64
    decreases n, r
  {
    if n == 0 then r else op(Iterate(op, r, lo, n - 1), lo + n - 1)
  }

  lemma {:induction false} IterateJoins(op: (Regs, Index) -> Regs, r: Regs, lo: nat, m: nat, n: nat)
    requires lo + m + n <= 64
    ensures Iterate(op, Iterate(op, r, lo, m), lo + m, n) == Iterate(op, r, lo, m + n)
    decreases n
  {
    if n > 0 {
      IterateJoins(op, r, lo, m, n - 1);
    }
  }

  /** Four bytes as a word, low-order byte first. */
  function WordOf(b: seq<Byte>): Word
    requires |b| == 4
  {
    b[0] + 0x100 * (b[1] as int) + 0x1_0000 * (b[2] as int) + 0x100_0000 * (b[3] as int)
  }

  function Words(chunk: Chunk): Block {
    seq(16, (i: nat) requires i < 16 => WordOf(chunk[4 * i..4 * i + 4]))
  }

  function Compress(r: Regs, chunk: Chunk): Regs {
    var s := Iterate(Loop(Words(chunk)), r, 0, 64);
    Regs(AddW(r.a, s.a), AddW(r.b, s.b), AddW(r.c, s.c), AddW(r.d, s.d))
  }

  /** The blocks of a message taken into the registers one after the other. */
  function Fold(r: Regs, blocks: seq<Byte>): Regs
    requires |blocks| % BLOCK == 0
  {
    if blocks == [] then r
    else Compress(Fold(r, blocks[..|blocks| - BLOCK]), blocks[|blocks| - BLOCK..])
  }

  // ----- Section 3.5: output -----

  function Output(r: Regs): (digest: seq<Byte>)
    ensures |digest| == 16
  {
    LittleEndian(r.a, 4) + LittleEndian(r.b, 4) + LittleEndian(r.c, 4) + LittleEndian(r.d, 4)
  }

  lemma PaddedLength(message: seq<Byte>)
    ensures |Padded(message)| % BLOCK == 0
  {
    var k := ZeroCount(|message|);
    ZeroCountIsFewest(|message|, k);
    assert |Padded(message)| == |message| + 1 + k + 8;
    EightMore(|message| + 1 + k);
  }

  lemma EightMore(n: nat)
    requires n % BLOCK == 56
    ensures (n + 8) % BLOCK == 0
  {
  }

  function Digest(message: seq<Byte>): (digest: seq<Byte>)
    ensures |digest| == 16
  {
    PaddedLength(message);
    Output(Fold(INITIAL, Padded(message)))
  }
}
