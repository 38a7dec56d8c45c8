/**
  What the digest of section 3 is for some messages: three of the test suite in section A.5 of RFC 1321, one of them
  of two blocks, and one that a login hashes. Every operation is worked out, register by register.
 */
module Rfc1321Answers {
  import opened Word32
  import opened Rfc1321
  import opened Rfc1321Bits

  // ----- From bytes to words and back -----

  lemma WordsAre(chunk: Chunk)
    ensures forall k {:trigger Words(chunk)[k]} :: 0 <= k < 16 ==>
      Words(chunk)[k] == chunk[4 * k] + 0x100 * (chunk[4 * k + 1] as int) + 0x1_0000 * (chunk[4 * k + 2] as int)
                         + 0x100_0000 * (chunk[4 * k + 3] as int)
  {
  }

  /** The padded message byte by byte, for a message and its padding of n bytes. */
  lemma PaddedAt(message: seq<Byte>, n: nat)
    requires n == |message| + 1 + ZeroCount(|message|) + 8
    ensures |Padded(message)| == n
    ensures forall j {:trigger Padded(message)[j]} :: 0 <= j < n ==>
      Padded(message)[j] == if j < |message| then message[j]
                            else if j == |message| then 0x80
                            else if j < n - 8 then 0
                            else LengthBytes(|message|)[j - (n - 8)]
  {
    hide LengthBytes;
  }

  lemma OneBlock(r: Regs, blocks: seq<Byte>)
    requires |blocks| == BLOCK
    ensures Fold(r, blocks) == Compress(r, blocks)
  {
    hide Compress;
    assert blocks[..0] == [] && blocks[0..] == blocks;
    assert Fold(r, blocks[..0]) == r;
  }

  lemma TwoBlocks(r: Regs, p: Chunk, q: Chunk)
    ensures Fold(r, p + q) == Compress(Compress(r, p), q)
  {
    hide Compress;
    var blocks := p + q;
    assert |blocks| == 128 && blocks[..|blocks| - BLOCK] == p && blocks[|blocks| - BLOCK..] == q;
    OneBlock(r, p);
  }

  lemma NextByte(x: nat, n: nat)
    requires n > 0
    ensures LittleEndian(x, n) == [x % 256] + LittleEndian(x / 256, n - 1)
  {
  }

  lemma LowByte(x: nat, low: Byte, rest: nat)
    requires x == low + 0x100 * rest
    ensures x % 256 == low && x / 256 == rest
  {
  }

  lemma FourBytes(x: nat, b0: Byte, b1: Byte, b2: Byte, b3: Byte)
    requires x == b0 + 0x100 * (b1 + 0x100 * (b2 + 0x100 * b3))
    ensures LittleEndian(x, 4) == [b0, b1, b2, b3]
  {
    hide LittleEndian;
    LowByte(x, b0, b1 + 0x100 * (b2 + 0x100 * b3));
    LowByte(b1 + 0x100 * (b2 + 0x100 * b3), b1, b2 + 0x100 * b3);
    LowByte(b2 + 0x100 * b3, b2, b3);
    LowByte(b3, b3, 0);
    NextByte(x, 4);
    NextByte(b1 + 0x100 * (b2 + 0x100 * b3), 3);
    NextByte(b2 + 0x100 * b3, 2);
    NextByte(b3, 1);
    ManyZeros(0);
  }

  lemma WordIs(chunk: Chunk, k: nat, b0: Byte, b1: Byte, b2: Byte, b3: Byte, m: bv32)
    requires k < 16 && chunk[4 * k] == b0 && chunk[4 * k + 1] == b1 && chunk[4 * k + 2] == b2 && chunk[4 * k + 3] == b3
    requires U(m) == b0 + 0x100 * (b1 + 0x100 * (b2 + 0x100 * b3))
    ensures Words(chunk)[k] == U(m)
  {
    hide U;
  }

  lemma ManyZeros(n: nat)
    ensures LittleEndian(0, n) == Zeros(n)
  {
  }

  /** The length of a message of less than 8192 bytes. */
  lemma LengthIs(length: nat, low: Byte, high: Byte)
    requires 8 * length == low + 0x100 * (high as int)
    ensures LengthBytes(length) == [low, high, 0, 0, 0, 0, 0, 0]
  {
    hide LittleEndian;
    NextByte(8 * length, 8);
    NextByte(8 * length / 256, 7);
    ManyZeros(6);
    assert [low] + ([high] + Zeros(6)) == [low, high, 0, 0, 0, 0, 0, 0];
  }

  lemma InitialIs()
    ensures INITIAL == RegsOf(0x67452301, 0xefcdab89, 0x98badcfe, 0x10325476)
  {
  }

  // ----- The empty message -----

  predicate IsEmpty(x: Block) {
    && x[0] == U(0x00000080) && x[1] == U(0x00000000) && x[2] == U(0x00000000) && x[3] == U(0x00000000)
    && x[4] == U(0x00000000) && x[5] == U(0x00000000) && x[6] == U(0x00000000) && x[7] == U(0x00000000)
    && x[8] == U(0x00000000) && x[9] == U(0x00000000) && x[10] == U(0x00000000) && x[11] == U(0x00000000)
    && x[12] == U(0x00000000) && x[13] == U(0x00000000) && x[14] == U(0x00000000) && x[15] == U(0x00000000)
  }

  lemma EmptyRound1(x: Block, r: Regs)
    requires IsEmpty(x) && Iterate(Loop(x), r, 0, 0) == RegsOf(0x67452301, 0xefcdab89, 0x98badcfe, 0x10325476)
    ensures Iterate(Loop(x), r, 0, 16) == RegsOf(0xf56c7cf1, 0xd6819c6a, 0x5aa53f75, 0x374943a7)
  {
    hide Operation, Iterate, RegsOf, U, T, WordIndex;
    ConstantsOfRound1();
    IndicesOfRound1();
    var a: bv32, b: bv32, c: bv32, d: bv32 := 0x67452301, 0xefcdab89, 0x98badcfe, 0x10325476;
    a := Op(x, r, 0, a, b, c, d, 0x00000080, 0xd76aa478, 0xa5202774);
    d := Op(x, r, 1, d, a, b, c, 0x00000000, 0xe8c7b756, 0xf59592dd);
    c := Op(x, r, 2, c, d, a, b, 0x00000000, 0x242070db, 0xe7f06b23);
    b := Op(x, r, 3, b, c, d, a, 0x00000000, 0xc1bdceee, 0x1b163203);
    a := Op(x, r, 4, a, b, c, d, 0x00000000, 0xf57c0faf, 0x32033344);
    d := Op(x, r, 5, d, a, b, c, 0x00000000, 0x4787c62a, 0x2f35d494);
    c := Op(x, r, 6, c, d, a, b, 0x00000000, 0xa8304613, 0xf5b158db);
    b := Op(x, r, 7, b, c, d, a, 0x00000000, 0xfd469501, 0x9bc13ce9);
    a := Op(x, r, 8, a, b, c, d, 0x00000000, 0x698098d8, 0x3893b991);
    d := Op(x, r, 9, d, a, b, c, 0x00000000, 0x8b44f7af, 0xfce4a312);
    c := Op(x, r, 10, c, d, a, b, 0x00000000, 0xffff5bb1, 0xe1ef0576);
    b := Op(x, r, 11, b, c, d, a, 0x00000000, 0x895cd7be, 0x70768a29);
    a := Op(x, r, 12, a, b, c, d, 0x00000000, 0x6b901122, 0xf56c7cf1);
    d := Op(x, r, 13, d, a, b, c, 0x00000000, 0xfd987193, 0x374943a7);
    c := Op(x, r, 14, c, d, a, b, 0x00000000, 0xa679438e, 0x5aa53f75);
    b := Op(x, r, 15, b, c, d, a, 0x00000000, 0x49b40821, 0xd6819c6a);
  }

  lemma EmptyRound2(x: Block, r: Regs)
    requires IsEmpty(x) && Iterate(Loop(x), r, 0, 16) == RegsOf(0xf56c7cf1, 0xd6819c6a, 0x5aa53f75, 0x374943a7)
    ensures Iterate(Loop(x), r, 0, 32) == RegsOf(0x13707036, 0xa2205f1f, 0x1c31c384, 0xae7813db)
  {
    hide Operation, Iterate, RegsOf, U, T, WordIndex;
    ConstantsOfRound2();
    IndicesOfRound2();
    var a: bv32, b: bv32, c: bv32, d: bv32 := 0xf56c7cf1, 0xd6819c6a, 0x5aa53f75, 0x374943a7;
    a := Op(x, r, 16, a, b, c, d, 0x00000000, 0xf61e2562, 0x1c7d7513);
    d := Op(x, r, 17, d, a, b, c, 0x00000000, 0xc040b340, 0x7bd57a3a);
    c := Op(x, r, 18, c, d, a, b, 0x00000000, 0x265e5a51, 0xc095f13a);
    b := Op(x, r, 19, b, c, d, a, 0x00000080, 0xe9b6c7aa, 0xbd782e17);
    a := Op(x, r, 20, a, b, c, d, 0x00000000, 0xd62f105d, 0x3d1e3e6c);
    d := Op(x, r, 21, d, a, b, c, 0x00000000, 0x02441453, 0x68b7b3e3);
    c := Op(x, r, 22, c, d, a, b, 0x00000000, 0xd8a1e681, 0xeb41643e);
    b := Op(x, r, 23, b, c, d, a, 0x00000000, 0xe7d3fbc8, 0xe422531a);
    a := Op(x, r, 24, a, b, c, d, 0x00000000, 0x21e1cde6, 0x306ec122);
    d := Op(x, r, 25, d, a, b, c, 0x00000000, 0xc33707d6, 0xd28c77c2);
    c := Op(x, r, 26, c, d, a, b, 0x00000000, 0xf4d50d87, 0xa3c663da);
    b := Op(x, r, 27, b, c, d, a, 0x00000000, 0x455a14ed, 0xa0572807);
    a := Op(x, r, 28, a, b, c, d, 0x00000000, 0xa9e3e905, 0x13707036);
    d := Op(x, r, 29, d, a, b, c, 0x00000000, 0xfcefa3f8, 0xae7813db);
    c := Op(x, r, 30, c, d, a, b, 0x00000000, 0x676f02d9, 0x1c31c384);
    b := Op(x, r, 31, b, c, d, a, 0x00000000, 0x8d2a4c8a, 0xa2205f1f);
  }

  lemma EmptyRound3(x: Block, r: Regs)
    requires IsEmpty(x) && Iterate(Loop(x), r, 0, 32) == RegsOf(0x13707036, 0xa2205f1f, 0x1c31c384, 0xae7813db)
    ensures Iterate(Loop(x), r, 0, 48) == RegsOf(0x3f55edfd, 0xca7d2dbd, 0x68d84ea2, 0x22a31f54)
  {
    hide Operation, Iterate, RegsOf, U, T, WordIndex;
    ConstantsOfRound3();
    IndicesOfRound3();
    var a: bv32, b: bv32, c: bv32, d: bv32 := 0x13707036, 0xa2205f1f, 0x1c31c384, 0xae7813db;
    a := Op(x, r, 32, a, b, c, d, 0x00000000, 0xfffa3942, 0xdf63eaa1);
    d := Op(x, r, 33, d, a, b, c, 0x00000000, 0x8771f681, 0xc3689f5b);
    c := Op(x, r, 34, c, d, a, b, 0x00000000, 0x6d9d6122, 0x12f3e755);
    b := Op(x, r, 35, b, c, d, a, 0x00000000, 0xfde5380c, 0x004b6669);
    a := Op(x, r, 36, a, b, c, d, 0x00000000, 0xa4beea44, 0x5f7a9b2e);
    d := Op(x, r, 37, d, a, b, c, 0x00000000, 0x4bdecfa9, 0xabc34e16);
    c := Op(x, r, 38, c, d, a, b, 0x00000000, 0xf6bb4b60, 0x91ca4cb7);
    b := Op(x, r, 39, b, c, d, a, 0x00000000, 0xbebfbc70, 0xc5dc8c15);
    a := Op(x, r, 40, a, b, c, d, 0x00000000, 0x289b7ec6, 0x4497169d);
    d := Op(x, r, 41, d, a, b, c, 0x00000080, 0xeaa127fa, 0x76fd93d4);
    c := Op(x, r, 42, c, d, a, b, 0x00000000, 0xd4ef3085, 0xfd95f243);
    b := Op(x, r, 43, b, c, d, a, 0x00000000, 0x04881d05, 0x0fe32453);
    a := Op(x, r, 44, a, b, c, d, 0x00000000, 0xd9d4d039, 0x3f55edfd);
    d := Op(x, r, 45, d, a, b, c, 0x00000000, 0xe6db99e5, 0x22a31f54);
    c := Op(x, r, 46, c, d, a, b, 0x00000000, 0x1fa27cf8, 0x68d84ea2);
    b := Op(x, r, 47, b, c, d, a, 0x00000000, 0xc4ac5665, 0xca7d2dbd);
  }

  lemma EmptyRound4(x: Block, r: Regs)
    requires IsEmpty(x) && Iterate(Loop(x), r, 0, 48) == RegsOf(0x3f55edfd, 0xca7d2dbd, 0x68d84ea2, 0x22a31f54)
    ensures Iterate(Loop(x), r, 0, 64) == RegsOf(0x7246fad3, 0x14e45506, 0xff4ea3eb, 0x6e10a476)
  {
    hide Operation, Iterate, RegsOf, U, T, WordIndex;
    ConstantsOfRound4();
    IndicesOfRound4();
    var a: bv32, b: bv32, c: bv32, d: bv32 := 0x3f55edfd, 0xca7d2dbd, 0x68d84ea2, 0x22a31f54;
    a := Op(x, r, 48, a, b, c, d, 0x00000080, 0xf4292244, 0x93aa2577);
    d := Op(x, r, 49, d, a, b, c, 0x00000000, 0x432aff97, 0x1688dc85);
    c := Op(x, r, 50, c, d, a, b, 0x00000000, 0xab9423a7, 0xcd85b8cb);
    b := Op(x, r, 51, b, c, d, a, 0x00000000, 0xfc93a039, 0x561e0689);
    a := Op(x, r, 52, a, b, c, d, 0x00000000, 0x655b59c3, 0x5625a114);
    d := Op(x, r, 53, d, a, b, c, 0x00000000, 0x8f0ccc92, 0x3450f42b);
    c := Op(x, r, 54, c, d, a, b, 0x00000000, 0xffeff47d, 0x392ad0d0);
    b := Op(x, r, 55, b, c, d, a, 0x00000000, 0x85845dd1, 0x1e77fa61);
    a := Op(x, r, 56, a, b, c, d, 0x00000000, 0x6fa87e4f, 0x474a9c8c);
    d := Op(x, r, 57, d, a, b, c, 0x00000000, 0xfe2ce6e0, 0xdfce00bc);
    c := Op(x, r, 58, c, d, a, b, 0x00000000, 0xa3014314, 0x36594b14);
    b := Op(x, r, 59, b, c, d, a, 0x00000000, 0x4e0811a1, 0x30130182);
    a := Op(x, r, 60, a, b, c, d, 0x00000000, 0xf7537e82, 0x7246fad3);
    d := Op(x, r, 61, d, a, b, c, 0x00000000, 0xbd3af235, 0x6e10a476);
    c := Op(x, r, 62, c, d, a, b, 0x00000000, 0x2ad7d2bb, 0xff4ea3eb);
    b := Op(x, r, 63, b, c, d, a, 0x00000000, 0xeb86d391, 0x14e45506);
  }

  lemma CompressEmpty(r: Regs, chunk: Chunk)
    requires IsEmpty(Words(chunk)) && r == RegsOf(0x67452301, 0xefcdab89, 0x98badcfe, 0x10325476)
    ensures Compress(r, chunk) == RegsOf(0xd98c1dd4, 0x04b2008f, 0x980980e9, 0x7e42f8ec)
  {
    hide Operation, U, Compress, Words, IsEmpty;
    var x := Words(chunk);
    EmptyRound1(x, r);
    EmptyRound2(x, r);
    EmptyRound3(x, r);
    EmptyRound4(x, r);
    Compressed(r, chunk, 0x67452301, 0xefcdab89, 0x98badcfe, 0x10325476,
               0x7246fad3, 0x14e45506, 0xff4ea3eb, 0x6e10a476);
  }

  lemma EmptyWords(chunk: Chunk)
    requires chunk == Padded([])
    ensures IsEmpty(Words(chunk))
  {
    hide LengthBytes, Padded, Words;
    PaddedAt([], 64);
    LengthIs(0, 0, 0);
    WordsAre(chunk);
  }

  /** The digest of no bytes at all. */
  lemma EmptyDigest()
    ensures Digest([]) == [
      0xd4, 0x1d, 0x8c, 0xd9, 0x8f, 0x00, 0xb2, 0x04, 0xe9, 0x80, 0x09, 0x98, 0xec, 0xf8, 0x42, 0x7e
    ]
  {
    hide Padded, Fold, Compress, Output, U, Words;
    var chunk := Padded([]);
    PaddedAt([], 64);
    EmptyWords(chunk);
    OneBlock(INITIAL, chunk);
    InitialIs();
    CompressEmpty(INITIAL, chunk);
    EmptyOutput();
  }

  lemma EmptyOutput()
    ensures Output(RegsOf(0xd98c1dd4, 0x04b2008f, 0x980980e9, 0x7e42f8ec)) == [
      0xd4, 0x1d, 0x8c, 0xd9, 0x8f, 0x00, 0xb2, 0x04, 0xe9, 0x80, 0x09, 0x98, 0xec, 0xf8, 0x42, 0x7e
    ]
  {
    hide LittleEndian;
    FourBytes(U(0xd98c1dd4), 0xd4, 0x1d, 0x8c, 0xd9);
    FourBytes(U(0x04b2008f), 0x8f, 0x00, 0xb2, 0x04);
    FourBytes(U(0x980980e9), 0xe9, 0x80, 0x09, 0x98);
    FourBytes(U(0x7e42f8ec), 0xec, 0xf8, 0x42, 0x7e);
  }

  // ----- abc -----

  predicate IsAbc(x: Block) {
    && x[0] == U(0x80636261) && x[1] == U(0x00000000) && x[2] == U(0x00000000) && x[3] == U(0x00000000)
    && x[4] == U(0x00000000) && x[5] == U(0x00000000) && x[6] == U(0x00000000) && x[7] == U(0x00000000)
    && x[8] == U(0x00000000) && x[9] == U(0x00000000) && x[10] == U(0x00000000) && x[11] == U(0x00000000)
    && x[12] == U(0x00000000) && x[13] == U(0x00000000) && x[14] == U(0x00000018) && x[15] == U(0x00000000)
  }

  lemma AbcRound1(x: Block, r: Regs)
    requires IsAbc(x) && Iterate(Loop(x), r, 0, 0) == RegsOf(0x67452301, 0xefcdab89, 0x98badcfe, 0x10325476)
    ensures Iterate(Loop(x), r, 0, 16) == RegsOf(0xdda9b9a6, 0x72aff2e0, 0xe396856b, 0xa1051895)
  {
    hide Operation, Iterate, RegsOf, U, T, WordIndex;
    ConstantsOfRound1();
    IndicesOfRound1();
    var a: bv32, b: bv32, c: bv32, d: bv32 := 0x67452301, 0xefcdab89, 0x98badcfe, 0x10325476;
    a := Op(x, r, 0, a, b, c, d, 0x80636261, 0xd76aa478, 0xd6d117b4);
    d := Op(x, r, 1, d, a, b, c, 0x00000000, 0xe8c7b756, 0x344a8432);
    c := Op(x, r, 2, c, d, a, b, 0x00000000, 0x242070db, 0x2f6fbd72);
    b := Op(x, r, 3, b, c, d, a, 0x00000000, 0xc1bdceee, 0x7ad956f2);
    a := Op(x, r, 4, a, b, c, d, 0x00000000, 0xf57c0faf, 0xc73741ef);
    d := Op(x, r, 5, d, a, b, c, 0x00000000, 0x4787c62a, 0x8bac3051);
    c := Op(x, r, 6, c, d, a, b, 0x00000000, 0xa8304613, 0x207dc67b);
    b := Op(x, r, 7, b, c, d, a, 0x00000000, 0xfd469501, 0x928d99f6);
    a := Op(x, r, 8, a, b, c, d, 0x00000000, 0x698098d8, 0x854b3712);
    d := Op(x, r, 9, d, a, b, c, 0x00000000, 0x8b44f7af, 0x74e2f284);
    c := Op(x, r, 10, c, d, a, b, 0x00000000, 0xffff5bb1, 0x3020401c);
    b := Op(x, r, 11, b, c, d, a, 0x00000000, 0x895cd7be, 0x5ed49596);
    a := Op(x, r, 12, a, b, c, d, 0x00000000, 0x6b901122, 0xdda9b9a6);
    d := Op(x, r, 13, d, a, b, c, 0x00000000, 0xfd987193, 0xa1051895);
    c := Op(x, r, 14, c, d, a, b, 0x00000018, 0xa679438e, 0xe396856b);
    b := Op(x, r, 15, b, c, d, a, 0x00000000, 0x49b40821, 0x72aff2e0);
  }

  lemma AbcRound2(x: Block, r: Regs)
    requires IsAbc(x) && Iterate(Loop(x), r, 0, 16) == RegsOf(0xdda9b9a6, 0x72aff2e0, 0xe396856b, 0xa1051895)
    ensures Iterate(Loop(x), r, 0, 32) == RegsOf(0x790a77fb, 0x726342d3, 0xa62884aa, 0x9f47e4f8)
  {
    hide Operation, Iterate, RegsOf, U, T, WordIndex;
    ConstantsOfRound2();
    IndicesOfRound2();
    var a: bv32, b: bv32, c: bv32, d: bv32 := 0xdda9b9a6, 0x72aff2e0, 0xe396856b, 0xa1051895;
    a := Op(x, r, 16, a, b, c, d, 0x00000000, 0xf61e2562, 0x3e9e9126);
    d := Op(x, r, 17, d, a, b, c, 0x00000000, 0xc040b340, 0x4a1d804e);
    c := Op(x, r, 18, c, d, a, b, 0x00000000, 0x265e5a51, 0xe25e1652);
    b := Op(x, r, 19, b, c, d, a, 0x80636261, 0xe9b6c7aa, 0xb5b204e4);
    a := Op(x, r, 20, a, b, c, d, 0x00000000, 0xd62f105d, 0x59a8ffda);
    d := Op(x, r, 21, d, a, b, c, 0x00000000, 0x02441453, 0x6d002f1e);
    c := Op(x, r, 22, c, d, a, b, 0x00000000, 0xd8a1e681, 0xabfc7920);
    b := Op(x, r, 23, b, c, d, a, 0x00000000, 0xe7d3fbc8, 0x47092c07);
    a := Op(x, r, 24, a, b, c, d, 0x00000000, 0x21e1cde6, 0xb7f268cf);
    d := Op(x, r, 25, d, a, b, c, 0x00000018, 0xc33707d6, 0x09388eff);
    c := Op(x, r, 26, c, d, a, b, 0x00000000, 0xf4d50d87, 0xfe1623b1);
    b := Op(x, r, 27, b, c, d, a, 0x00000000, 0x455a14ed, 0x786acb8f);
    a := Op(x, r, 28, a, b, c, d, 0x00000000, 0xa9e3e905, 0x790a77fb);
    d := Op(x, r, 29, d, a, b, c, 0x00000000, 0xfcefa3f8, 0x9f47e4f8);
    c := Op(x, r, 30, c, d, a, b, 0x00000000, 0x676f02d9, 0xa62884aa);
    b := Op(x, r, 31, b, c, d, a, 0x00000000, 0x8d2a4c8a, 0x726342d3);
  }

  lemma AbcRound3(x: Block, r: Regs)
    requires IsAbc(x) && Iterate(Loop(x), r, 0, 32) == RegsOf(0x790a77fb, 0x726342d3, 0xa62884aa, 0x9f47e4f8)
    ensures Iterate(Loop(x), r, 0, 48) == RegsOf(0x7f2e507b, 0x7beb9700, 0x8fae6399, 0x99d9679d)
  {
    hide Operation, Iterate, RegsOf, U, T, WordIndex;
    ConstantsOfRound3();
    IndicesOfRound3();
    var a: bv32, b: bv32, c: bv32, d: bv32 := 0x790a77fb, 0x726342d3, 0xa62884aa, 0x9f47e4f8;
    a := Op(x, r, 32, a, b, c, d, 0x00000000, 0xfffa3942, 0xb3707ebf);
    d := Op(x, r, 33, d, a, b, c, 0x00000000, 0x8771f681, 0x60127b2e);
    c := Op(x, r, 34, c, d, a, b, 0x00000000, 0x6d9d6122, 0x8d212ff5);
    b := Op(x, r, 35, b, c, d, a, 0x00000018, 0xfde5380c, 0x3b0875c7);
    a := Op(x, r, 36, a, b, c, d, 0x00000000, 0xa4beea44, 0x21b117b9);
    d := Op(x, r, 37, d, a, b, c, 0x00000000, 0x4bdecfa9, 0x6e7429d5);
    c := Op(x, r, 38, c, d, a, b, 0x00000000, 0xf6bb4b60, 0x3575227e);
    b := Op(x, r, 39, b, c, d, a, 0x00000000, 0xbebfbc70, 0x5a2f5ea5);
    a := Op(x, r, 40, a, b, c, d, 0x00000000, 0x289b7ec6, 0x11de1779);
    d := Op(x, r, 41, d, a, b, c, 0x80636261, 0xeaa127fa, 0xfadcaa38);
    c := Op(x, r, 42, c, d, a, b, 0x00000000, 0xd4ef3085, 0x31c465ca);
    b := Op(x, r, 43, b, c, d, a, 0x00000000, 0x04881d05, 0x4c6124f4);
    a := Op(x, r, 44, a, b, c, d, 0x00000000, 0xd9d4d039, 0x7f2e507b);
    d := Op(x, r, 45, d, a, b, c, 0x00000000, 0xe6db99e5, 0x99d9679d);
    c := Op(x, r, 46, c, d, a, b, 0x00000000, 0x1fa27cf8, 0x8fae6399);
    b := Op(x, r, 47, b, c, d, a, 0x00000000, 0xc4ac5665, 0x7beb9700);
  }

  lemma AbcRound4(x: Block, r: Regs)
    requires IsAbc(x) && Iterate(Loop(x), r, 0, 48) == RegsOf(0x7f2e507b, 0x7beb9700, 0x8fae6399, 0x99d9679d)
    ensures Iterate(Loop(x), r, 0, 64) == RegsOf(0x310ade8f, 0xc08226b3, 0xe484b9d8, 0x624d8cb2)
  {
    hide Operation, Iterate, RegsOf, U, T, WordIndex;
    ConstantsOfRound4();
    IndicesOfRound4();
    var a: bv32, b: bv32, c: bv32, d: bv32 := 0x7f2e507b, 0x7beb9700, 0x8fae6399, 0x99d9679d;
    a := Op(x, r, 48, a, b, c, d, 0x80636261, 0xf4292244, 0x7b201df8);
    d := Op(x, r, 49, d, a, b, c, 0x00000000, 0x432aff97, 0xf4e8e96e);
    c := Op(x, r, 50, c, d, a, b, 0x00000018, 0xab9423a7, 0xb298cefd);
    b := Op(x, r, 51, b, c, d, a, 0x00000000, 0xfc93a039, 0x8bf025c4);
    a := Op(x, r, 52, a, b, c, d, 0x00000000, 0x655b59c3, 0x06cc5e8a);
    d := Op(x, r, 53, d, a, b, c, 0x00000000, 0x8f0ccc92, 0x5b0d97aa);
    c := Op(x, r, 54, c, d, a, b, 0x00000000, 0xffeff47d, 0x7d632dd0);
    b := Op(x, r, 55, b, c, d, a, 0x00000000, 0x85845dd1, 0x3bfa2c27);
    a := Op(x, r, 56, a, b, c, d, 0x00000000, 0x6fa87e4f, 0x7f81cc35);
    d := Op(x, r, 57, d, a, b, c, 0x00000000, 0xfe2ce6e0, 0x094454ab);
    c := Op(x, r, 58, c, d, a, b, 0x00000000, 0xa3014314, 0x4f9dbe3f);
    b := Op(x, r, 59, b, c, d, a, 0x00000000, 0x4e0811a1, 0x7327d604);
    a := Op(x, r, 60, a, b, c, d, 0x00000000, 0xf7537e82, 0x310ade8f);
    d := Op(x, r, 61, d, a, b, c, 0x00000000, 0xbd3af235, 0x624d8cb2);
    c := Op(x, r, 62, c, d, a, b, 0x00000000, 0x2ad7d2bb, 0xe484b9d8);
    b := Op(x, r, 63, b, c, d, a, 0x00000000, 0xeb86d391, 0xc08226b3);
  }

  lemma CompressAbc(r: Regs, chunk: Chunk)
    requires IsAbc(Words(chunk)) && r == RegsOf(0x67452301, 0xefcdab89, 0x98badcfe, 0x10325476)
    ensures Compress(r, chunk) == RegsOf(0x98500190, 0xb04fd23c, 0x7d3f96d6, 0x727fe128)
  {
    hide Operation, U, Compress, Words, IsAbc;
    var x := Words(chunk);
    AbcRound1(x, r);
    AbcRound2(x, r);
    AbcRound3(x, r);
    AbcRound4(x, r);
    Compressed(r, chunk, 0x67452301, 0xefcdab89, 0x98badcfe, 0x10325476,
               0x310ade8f, 0xc08226b3, 0xe484b9d8, 0x624d8cb2);
  }

  lemma AbcWords(chunk: Chunk)
    requires chunk == Padded([0x61, 0x62, 0x63])
    ensures IsAbc(Words(chunk))
  {
    hide LengthBytes, Padded, Words;
    PaddedAt([0x61, 0x62, 0x63], 64);
    LengthIs(3, 24, 0);
    WordsAre(chunk);
  }

  /** The digest of "abc". */
  lemma AbcDigest()
    ensures Digest([0x61, 0x62, 0x63]) == [
      0x90, 0x01, 0x50, 0x98, 0x3c, 0xd2, 0x4f, 0xb0, 0xd6, 0x96, 0x3f, 0x7d, 0x28, 0xe1, 0x7f, 0x72
    ]
  {
    hide Padded, Fold, Compress, Output, U, Words;
    var chunk := Padded([0x61, 0x62, 0x63]);
    PaddedAt([0x61, 0x62, 0x63], 64);
    AbcWords(chunk);
    OneBlock(INITIAL, chunk);
    InitialIs();
    CompressAbc(INITIAL, chunk);
    AbcOutput();
  }

  lemma AbcOutput()
    ensures Output(RegsOf(0x98500190, 0xb04fd23c, 0x7d3f96d6, 0x727fe128)) == [
      0x90, 0x01, 0x50, 0x98, 0x3c, 0xd2, 0x4f, 0xb0, 0xd6, 0x96, 0x3f, 0x7d, 0x28, 0xe1, 0x7f, 0x72
    ]
  {
    hide LittleEndian;
    FourBytes(U(0x98500190), 0x90, 0x01, 0x50, 0x98);
    FourBytes(U(0xb04fd23c), 0x3c, 0xd2, 0x4f, 0xb0);
    FourBytes(U(0x7d3f96d6), 0xd6, 0x96, 0x3f, 0x7d);
    FourBytes(U(0x727fe128), 0x28, 0xe1, 0x7f, 0x72);
  }

  /** The digits 1 to 9 and 0, eight times over. */
  predicate IsDigits(message: seq<Byte>) {
    |message| == 80 && forall j :: 0 <= j < 80 ==> message[j] == 0x30 + (j + 1) % 10
  }

  // ----- Eighty digits -----

  predicate IsDigitsFirst(x: Block) {
    && x[0] == U(0x34333231) && x[1] == U(0x38373635) && x[2] == U(0x32313039) && x[3] == U(0x36353433)
    && x[4] == U(0x30393837) && x[5] == U(0x34333231) && x[6] == U(0x38373635) && x[7] == U(0x32313039)
    && x[8] == U(0x36353433) && x[9] == U(0x30393837) && x[10] == U(0x34333231) && x[11] == U(0x38373635)
    && x[12] == U(0x32313039) && x[13] == U(0x36353433) && x[14] == U(0x30393837) && x[15] == U(0x34333231)
  }

  lemma DigitsFirstRound1(x: Block, r: Regs)
    requires IsDigitsFirst(x) && Iterate(Loop(x), r, 0, 0) == RegsOf(0x67452301, 0xefcdab89, 0x98badcfe, 0x10325476)
    ensures Iterate(Loop(x), r, 0, 16) == RegsOf(0x5157e49e, 0xaf506a03, 0x27e983a0, 0xffac907e)
  {
    hide Operation, Iterate, RegsOf, U, T, WordIndex;
    ConstantsOfRound1();
    IndicesOfRound1();
    var a: bv32, b: bv32, c: bv32, d: bv32 := 0x67452301, 0xefcdab89, 0x98badcfe, 0x10325476;
    a := Op(x, r, 0, a, b, c, d, 0x34333231, 0xd76aa478, 0xbeb8ff8e);
    d := Op(x, r, 1, d, a, b, c, 0x38373635, 0xe8c7b756, 0x7d989d89);
    c := Op(x, r, 2, c, d, a, b, 0x32313039, 0x242070db, 0xf8cdf95d);
    b := Op(x, r, 3, b, c, d, a, 0x36353433, 0xc1bdceee, 0x862797b0);
    a := Op(x, r, 4, a, b, c, d, 0x30393837, 0xf57c0faf, 0x8c17de9f);
    d := Op(x, r, 5, d, a, b, c, 0x34333231, 0x4787c62a, 0xc0f32d81);
    c := Op(x, r, 6, c, d, a, b, 0x38373635, 0xa8304613, 0xe99fec1b);
    b := Op(x, r, 7, b, c, d, a, 0x32313039, 0xfd469501, 0xc57e78c1);
    a := Op(x, r, 8, a, b, c, d, 0x36353433, 0x698098d8, 0x7c0aceb7);
    d := Op(x, r, 9, d, a, b, c, 0x30393837, 0x8b44f7af, 0x8869d2d8);
    c := Op(x, r, 10, c, d, a, b, 0x34333231, 0xffff5bb1, 0x5186a8ba);
    b := Op(x, r, 11, b, c, d, a, 0x38373635, 0x895cd7be, 0xa5f36f8d);
    a := Op(x, r, 12, a, b, c, d, 0x32313039, 0x6b901122, 0x5157e49e);
    d := Op(x, r, 13, d, a, b, c, 0x36353433, 0xfd987193, 0xffac907e);
    c := Op(x, r, 14, c, d, a, b, 0x30393837, 0xa679438e, 0x27e983a0);
    b := Op(x, r, 15, b, c, d, a, 0x34333231, 0x49b40821, 0xaf506a03);
  }

  lemma DigitsFirstRound2(x: Block, r: Regs)
    requires IsDigitsFirst(x) && Iterate(Loop(x), r, 0, 16) == RegsOf(0x5157e49e, 0xaf506a03, 0x27e983a0, 0xffac907e)
    ensures Iterate(Loop(x), r, 0, 32) == RegsOf(0xf8bcfbb0, 0x1bf25662, 0x99a0f1b8, 0xd760ed39)
  {
    hide Operation, Iterate, RegsOf, U, T, WordIndex;
    ConstantsOfRound2();
    IndicesOfRound2();
    var a: bv32, b: bv32, c: bv32, d: bv32 := 0x5157e49e, 0xaf506a03, 0x27e983a0, 0xffac907e;
    a := Op(x, r, 16, a, b, c, d, 0x38373635, 0xf61e2562, 0x8d18e0e8);
    d := Op(x, r, 17, d, a, b, c, 0x38373635, 0xc040b340, 0x07de0df2);
    c := Op(x, r, 18, c, d, a, b, 0x38373635, 0x265e5a51, 0xef223167);
    b := Op(x, r, 19, b, c, d, a, 0x34333231, 0xe9b6c7aa, 0x04280170);
    a := Op(x, r, 20, a, b, c, d, 0x34333231, 0xd62f105d, 0x78929ee0);
    d := Op(x, r, 21, d, a, b, c, 0x34333231, 0x02441453, 0x375c6c2c);
    c := Op(x, r, 22, c, d, a, b, 0x34333231, 0xd8a1e681, 0xb18aca50);
    b := Op(x, r, 23, b, c, d, a, 0x30393837, 0xe7d3fbc8, 0xad400a91);
    a := Op(x, r, 24, a, b, c, d, 0x30393837, 0x21e1cde6, 0xbb45f43f);
    d := Op(x, r, 25, d, a, b, c, 0x30393837, 0xc33707d6, 0xd61f8a0f);
    c := Op(x, r, 26, c, d, a, b, 0x36353433, 0xf4d50d87, 0x98ade6b5);
    b := Op(x, r, 27, b, c, d, a, 0x36353433, 0x455a14ed, 0xb70e35a9);
    a := Op(x, r, 28, a, b, c, d, 0x36353433, 0xa9e3e905, 0xf8bcfbb0);
    d := Op(x, r, 29, d, a, b, c, 0x32313039, 0xfcefa3f8, 0xd760ed39);
    c := Op(x, r, 30, c, d, a, b, 0x32313039, 0x676f02d9, 0x99a0f1b8);
    b := Op(x, r, 31, b, c, d, a, 0x32313039, 0x8d2a4c8a, 0x1bf25662);
  }

  lemma DigitsFirstRound3(x: Block, r: Regs)
    requires IsDigitsFirst(x) && Iterate(Loop(x), r, 0, 32) == RegsOf(0xf8bcfbb0, 0x1bf25662, 0x99a0f1b8, 0xd760ed39)
    ensures Iterate(Loop(x), r, 0, 48) == RegsOf(0x697032ec, 0xdb4197da, 0xefc2c171, 0xfa597bfc)
  {
    hide Operation, Iterate, RegsOf, U, T, WordIndex;
    ConstantsOfRound3();
    IndicesOfRound3();
    var a: bv32, b: bv32, c: bv32, d: bv32 := 0xf8bcfbb0, 0x1bf25662, 0x99a0f1b8, 0xd760ed39;
    a := Op(x, r, 32, a, b, c, d, 0x34333231, 0xfffa3942, 0x3dbd76ca);
    d := Op(x, r, 33, d, a, b, c, 0x36353433, 0x8771f681, 0xfd056171);
    c := Op(x, r, 34, c, d, a, b, 0x38373635, 0x6d9d6122, 0xc7ed7c30);
    b := Op(x, r, 35, b, c, d, a, 0x30393837, 0xfde5380c, 0xe0162f49);
    a := Op(x, r, 36, a, b, c, d, 0x38373635, 0xa4beea44, 0x3b32c408);
    d := Op(x, r, 37, d, a, b, c, 0x30393837, 0x4bdecfa9, 0x7338d8b7);
    c := Op(x, r, 38, c, d, a, b, 0x32313039, 0xf6bb4b60, 0x9ef871ad);
    b := Op(x, r, 39, b, c, d, a, 0x34333231, 0xbebfbc70, 0x1d4d6f72);
    a := Op(x, r, 40, a, b, c, d, 0x36353433, 0x289b7ec6, 0xc661460a);
    d := Op(x, r, 41, d, a, b, c, 0x34333231, 0xeaa127fa, 0xd2bf04c9);
    c := Op(x, r, 42, c, d, a, b, 0x36353433, 0xd4ef3085, 0xd6d5b879);
    b := Op(x, r, 43, b, c, d, a, 0x38373635, 0x04881d05, 0x89e3c4d7);
    a := Op(x, r, 44, a, b, c, d, 0x30393837, 0xd9d4d039, 0x697032ec);
    d := Op(x, r, 45, d, a, b, c, 0x32313039, 0xe6db99e5, 0xfa597bfc);
    c := Op(x, r, 46, c, d, a, b, 0x34333231, 0x1fa27cf8, 0xefc2c171);
    b := Op(x, r, 47, b, c, d, a, 0x32313039, 0xc4ac5665, 0xdb4197da);
  }

  lemma DigitsFirstRound4(x: Block, r: Regs)
    requires IsDigitsFirst(x) && Iterate(Loop(x), r, 0, 48) == RegsOf(0x697032ec, 0xdb4197da, 0xefc2c171, 0xfa597bfc)
    ensures Iterate(Loop(x), r, 0, 64) == RegsOf(0x614868eb, 0xb4d33102, 0x5133129b, 0xa09f38a7)
  {
    hide Operation, Iterate, RegsOf, U, T, WordIndex;
    ConstantsOfRound4();
    IndicesOfRound4();
    var a: bv32, b: bv32, c: bv32, d: bv32 := 0x697032ec, 0xdb4197da, 0xefc2c171, 0xfa597bfc;
    a := Op(x, r, 48, a, b, c, d, 0x34333231, 0xf4292244, 0x57b91aca);
    d := Op(x, r, 49, d, a, b, c, 0x32313039, 0x432aff97, 0x210c9ebc);
    c := Op(x, r, 50, c, d, a, b, 0x30393837, 0xab9423a7, 0x21efbd88);
    b := Op(x, r, 51, b, c, d, a, 0x34333231, 0xfc93a039, 0xcaa25b01);
    a := Op(x, r, 52, a, b, c, d, 0x32313039, 0x655b59c3, 0x633d3f7c);
    d := Op(x, r, 53, d, a, b, c, 0x36353433, 0x8f0ccc92, 0x1a4d3beb);
    c := Op(x, r, 54, c, d, a, b, 0x34333231, 0xffeff47d, 0xccaa1524);
    b := Op(x, r, 55, b, c, d, a, 0x38373635, 0x85845dd1, 0x7713f5df);
    a := Op(x, r, 56, a, b, c, d, 0x36353433, 0x6fa87e4f, 0x8448b430);
    d := Op(x, r, 57, d, a, b, c, 0x34333231, 0xfe2ce6e0, 0x71c93463);
    c := Op(x, r, 58, c, d, a, b, 0x38373635, 0xa3014314, 0x7e294727);
    b := Op(x, r, 59, b, c, d, a, 0x36353433, 0x4e0811a1, 0x660a801d);
    a := Op(x, r, 60, a, b, c, d, 0x30393837, 0xf7537e82, 0x614868eb);
    d := Op(x, r, 61, d, a, b, c, 0x38373635, 0xbd3af235, 0xa09f38a7);
    c := Op(x, r, 62, c, d, a, b, 0x32313039, 0x2ad7d2bb, 0x5133129b);
    b := Op(x, r, 63, b, c, d, a, 0x30393837, 0xeb86d391, 0xb4d33102);
  }

  lemma CompressDigitsFirst(r: Regs, chunk: Chunk)
    requires IsDigitsFirst(Words(chunk)) && r == RegsOf(0x67452301, 0xefcdab89, 0x98badcfe, 0x10325476)
    ensures Compress(r, chunk) == RegsOf(0xc88d8bec, 0xa4a0dc8b, 0xe9edef99, 0xb0d18d1d)
  {
    hide Operation, U, Compress, Words, IsDigitsFirst;
    var x := Words(chunk);
    DigitsFirstRound1(x, r);
    DigitsFirstRound2(x, r);
    DigitsFirstRound3(x, r);
    DigitsFirstRound4(x, r);
    Compressed(r, chunk, 0x67452301, 0xefcdab89, 0x98badcfe, 0x10325476,
               0x614868eb, 0xb4d33102, 0x5133129b, 0xa09f38a7);
  }

  predicate IsDigitsSecond(x: Block) {
    && x[0] == U(0x38373635) && x[1] == U(0x32313039) && x[2] == U(0x36353433) && x[3] == U(0x30393837)
    && x[4] == U(0x00000080) && x[5] == U(0x00000000) && x[6] == U(0x00000000) && x[7] == U(0x00000000)
    && x[8] == U(0x00000000) && x[9] == U(0x00000000) && x[10] == U(0x00000000) && x[11] == U(0x00000000)
    && x[12] == U(0x00000000) && x[13] == U(0x00000000) && x[14] == U(0x00000280) && x[15] == U(0x00000000)
  }

  lemma DigitsSecondRound1(x: Block, r: Regs)
    requires IsDigitsSecond(x) && Iterate(Loop(x), r, 0, 0) == RegsOf(0xc88d8bec, 0xa4a0dc8b, 0xe9edef99, 0xb0d18d1d)
    ensures Iterate(Loop(x), r, 0, 16) == RegsOf(0xdb4ff71c, 0x58b12eab, 0x04396a39, 0x9b6b4960)
  {
    hide Operation, Iterate, RegsOf, U, T, WordIndex;
    ConstantsOfRound1();
    IndicesOfRound1();
    var a: bv32, b: bv32, c: bv32, d: bv32 := 0xc88d8bec, 0xa4a0dc8b, 0xe9edef99, 0xb0d18d1d;
    a := Op(x, r, 0, a, b, c, d, 0x38373635, 0xd76aa478, 0x353af7cf);
    d := Op(x, r, 1, d, a, b, c, 0x32313039, 0xe8c7b756, 0x3a4f735a);
    c := Op(x, r, 2, c, d, a, b, 0x36353433, 0x242070db, 0x63356537);
    b := Op(x, r, 3, b, c, d, a, 0x30393837, 0xc1bdceee, 0x45e88f2c);
    a := Op(x, r, 4, a, b, c, d, 0x00000080, 0xf57c0faf, 0x3527497e);
    d := Op(x, r, 5, d, a, b, c, 0x00000000, 0x4787c62a, 0xab92660e);
    c := Op(x, r, 6, c, d, a, b, 0x00000000, 0xa8304613, 0x948347ae);
    b := Op(x, r, 7, b, c, d, a, 0x00000000, 0xfd469501, 0x377c7d0a);
    a := Op(x, r, 8, a, b, c, d, 0x00000000, 0x698098d8, 0xcc912f27);
    d := Op(x, r, 9, d, a, b, c, 0x00000000, 0x8b44f7af, 0x6945a3d5);
    c := Op(x, r, 10, c, d, a, b, 0x00000000, 0xffff5bb1, 0xae23894d);
    b := Op(x, r, 11, b, c, d, a, 0x00000000, 0x895cd7be, 0xb9ede40c);
    a := Op(x, r, 12, a, b, c, d, 0x00000000, 0x6b901122, 0xdb4ff71c);
    d := Op(x, r, 13, d, a, b, c, 0x00000000, 0xfd987193, 0x9b6b4960);
    c := Op(x, r, 14, c, d, a, b, 0x00000280, 0xa679438e, 0x04396a39);
    b := Op(x, r, 15, b, c, d, a, 0x00000000, 0x49b40821, 0x58b12eab);
  }

  lemma DigitsSecondRound2(x: Block, r: Regs)
    requires IsDigitsSecond(x) && Iterate(Loop(x), r, 0, 16) == RegsOf(0xdb4ff71c, 0x58b12eab, 0x04396a39, 0x9b6b4960)
    ensures Iterate(Loop(x), r, 0, 32) == RegsOf(0x8761f38e, 0x67092c33, 0x061bc867, 0x7a516116)
  {
    hide Operation, Iterate, RegsOf, U, T, WordIndex;
    ConstantsOfRound2();
    IndicesOfRound2();
    var a: bv32, b: bv32, c: bv32, d: bv32 := 0xdb4ff71c, 0x58b12eab, 0x04396a39, 0x9b6b4960;
    a := Op(x, r, 16, a, b, c, d, 0x32313039, 0xf61e2562, 0x52c00cae);
    d := Op(x, r, 17, d, a, b, c, 0x00000000, 0xc040b340, 0xaad2a216);
    c := Op(x, r, 18, c, d, a, b, 0x00000000, 0x265e5a51, 0xa476af6f);
    b := Op(x, r, 19, b, c, d, a, 0x38373635, 0xe9b6c7aa, 0x50f8de8c);
    a := Op(x, r, 20, a, b, c, d, 0x00000000, 0xd62f105d, 0x0d6e6d91);
    d := Op(x, r, 21, d, a, b, c, 0x00000000, 0x02441453, 0x17d64195);
    c := Op(x, r, 22, c, d, a, b, 0x00000000, 0xd8a1e681, 0xd5b7a850);
    b := Op(x, r, 23, b, c, d, a, 0x00000080, 0xe7d3fbc8, 0x043cb080);
    a := Op(x, r, 24, a, b, c, d, 0x00000000, 0x21e1cde6, 0x74f9377e);
    d := Op(x, r, 25, d, a, b, c, 0x00000280, 0xc33707d6, 0x01f2addd);
    c := Op(x, r, 26, c, d, a, b, 0x30393837, 0xf4d50d87, 0xe775c8ca);
    b := Op(x, r, 27, b, c, d, a, 0x00000000, 0x455a14ed, 0xcb00b96e);
    a := Op(x, r, 28, a, b, c, d, 0x00000000, 0xa9e3e905, 0x8761f38e);
    d := Op(x, r, 29, d, a, b, c, 0x36353433, 0xfcefa3f8, 0x7a516116);
    c := Op(x, r, 30, c, d, a, b, 0x00000000, 0x676f02d9, 0x061bc867);
    b := Op(x, r, 31, b, c, d, a, 0x00000000, 0x8d2a4c8a, 0x67092c33);
  }

  lemma DigitsSecondRound3(x: Block, r: Regs)
    requires IsDigitsSecond(x) && Iterate(Loop(x), r, 0, 32) == RegsOf(0x8761f38e, 0x67092c33, 0x061bc867, 0x7a516116)
    ensures Iterate(Loop(x), r, 0, 48) == RegsOf(0x71123afa, 0x1df7010a, 0xe6a8a386, 0xdc9c8ddb)
  {
    hide Operation, Iterate, RegsOf, U, T, WordIndex;
    ConstantsOfRound3();
    IndicesOfRound3();
    var a: bv32, b: bv32, c: bv32, d: bv32 := 0x8761f38e, 0x67092c33, 0x061bc867, 0x7a516116;
    a := Op(x, r, 32, a, b, c, d, 0x00000000, 0xfffa3942, 0x91044d5d);
    d := Op(x, r, 33, d, a, b, c, 0x00000000, 0x8771f681, 0x610954eb);
    c := Op(x, r, 34, c, d, a, b, 0x00000000, 0x6d9d6122, 0xc0175fa8);
    b := Op(x, r, 35, b, c, d, a, 0x00000280, 0xfde5380c, 0x2ee1e3fe);
    a := Op(x, r, 36, a, b, c, d, 0x32313039, 0xa4beea44, 0xae26ed7d);
    d := Op(x, r, 37, d, a, b, c, 0x00000080, 0x4bdecfa9, 0x71d8ecea);
    c := Op(x, r, 38, c, d, a, b, 0x00000000, 0xf6bb4b60, 0xff4a94dc);
    b := Op(x, r, 39, b, c, d, a, 0x00000000, 0xbebfbc70, 0xdbd1bff6);
    a := Op(x, r, 40, a, b, c, d, 0x00000000, 0x289b7ec6, 0x9c350028);
    d := Op(x, r, 41, d, a, b, c, 0x38373635, 0xeaa127fa, 0x97e5da92);
    c := Op(x, r, 42, c, d, a, b, 0x30393837, 0xd4ef3085, 0xfacaaf06);
    b := Op(x, r, 43, b, c, d, a, 0x00000000, 0x04881d05, 0x56b3692f);
    a := Op(x, r, 44, a, b, c, d, 0x00000000, 0xd9d4d039, 0x71123afa);
    d := Op(x, r, 45, d, a, b, c, 0x00000000, 0xe6db99e5, 0xdc9c8ddb);
    c := Op(x, r, 46, c, d, a, b, 0x00000000, 0x1fa27cf8, 0xe6a8a386);
    b := Op(x, r, 47, b, c, d, a, 0x36353433, 0xc4ac5665, 0x1df7010a);
  }

  lemma DigitsSecondRound4(x: Block, r: Regs)
    requires IsDigitsSecond(x) && Iterate(Loop(x), r, 0, 48) == RegsOf(0x71123afa, 0x1df7010a, 0xe6a8a386, 0xdc9c8ddb)
    ensures Iterate(Loop(x), r, 0, 64) == RegsOf(0xda67616b, 0xb12906a0, 0x44ec5a13, 0xc9e47a04)
  {
    hide Operation, Iterate, RegsOf, U, T, WordIndex;
    ConstantsOfRound4();
    IndicesOfRound4();
    var a: bv32, b: bv32, c: bv32, d: bv32 := 0x71123afa, 0x1df7010a, 0xe6a8a386, 0xdc9c8ddb;
    a := Op(x, r, 48, a, b, c, d, 0x38373635, 0xf4292244, 0xd29007e7);
    d := Op(x, r, 49, d, a, b, c, 0x00000000, 0x432aff97, 0x7241a77e);
    c := Op(x, r, 50, c, d, a, b, 0x00000280, 0xab9423a7, 0xd3248109);
    b := Op(x, r, 51, b, c, d, a, 0x00000000, 0xfc93a039, 0xc8797828);
    a := Op(x, r, 52, a, b, c, d, 0x00000000, 0x655b59c3, 0x7a504abd);
    d := Op(x, r, 53, d, a, b, c, 0x30393837, 0x8f0ccc92, 0x211cc65d);
    c := Op(x, r, 54, c, d, a, b, 0x00000000, 0xffeff47d, 0xa290d6ce);
    b := Op(x, r, 55, b, c, d, a, 0x32313039, 0x85845dd1, 0x9b31b114);
    a := Op(x, r, 56, a, b, c, d, 0x00000000, 0x6fa87e4f, 0x723fd22d);
    d := Op(x, r, 57, d, a, b, c, 0x00000000, 0xfe2ce6e0, 0xd21d6a3b);
    c := Op(x, r, 58, c, d, a, b, 0x00000000, 0xa3014314, 0x3d79cf74);
    b := Op(x, r, 59, b, c, d, a, 0x00000000, 0x4e0811a1, 0x4dc4f33d);
    a := Op(x, r, 60, a, b, c, d, 0x00000080, 0xf7537e82, 0xda67616b);
    d := Op(x, r, 61, d, a, b, c, 0x00000000, 0xbd3af235, 0xc9e47a04);
    c := Op(x, r, 62, c, d, a, b, 0x36353433, 0x2ad7d2bb, 0x44ec5a13);
    b := Op(x, r, 63, b, c, d, a, 0x00000000, 0xeb86d391, 0xb12906a0);
  }

  lemma CompressDigitsSecond(r: Regs, chunk: Chunk)
    requires IsDigitsSecond(Words(chunk)) && r == RegsOf(0xc88d8bec, 0xa4a0dc8b, 0xe9edef99, 0xb0d18d1d)
    ensures Compress(r, chunk) == RegsOf(0xa2f4ed57, 0x55c9e32b, 0x2eda49ac, 0x7ab60721)
  {
    hide Operation, U, Compress, Words, IsDigitsSecond;
    var x := Words(chunk);
    DigitsSecondRound1(x, r);
    DigitsSecondRound2(x, r);
    DigitsSecondRound3(x, r);
    DigitsSecondRound4(x, r);
    Compressed(r, chunk, 0xc88d8bec, 0xa4a0dc8b, 0xe9edef99, 0xb0d18d1d,
               0xda67616b, 0xb12906a0, 0x44ec5a13, 0xc9e47a04);
  }

  lemma DigitsParts(message: seq<Byte>)
    requires IsDigits(message)
    ensures Padded(message) == message[..64] + (message[64..] + [0x80] + Zeros(39) + [128, 2, 0, 0, 0, 0, 0, 0])
    ensures |message| == 80
  {
    LengthIs(80, 128, 2);
  }

  lemma DigitsFirstWords(message: seq<Byte>)
    requires IsDigits(message)
    ensures IsDigitsFirst(Words(message[..64]))
  {
    hide Words;
    var chunk := message[..64];
    WordIs(chunk, 0, 0x31, 0x32, 0x33, 0x34, 0x34333231);
    WordIs(chunk, 1, 0x35, 0x36, 0x37, 0x38, 0x38373635);
    WordIs(chunk, 2, 0x39, 0x30, 0x31, 0x32, 0x32313039);
    WordIs(chunk, 3, 0x33, 0x34, 0x35, 0x36, 0x36353433);
    WordIs(chunk, 4, 0x37, 0x38, 0x39, 0x30, 0x30393837);
    WordIs(chunk, 5, 0x31, 0x32, 0x33, 0x34, 0x34333231);
    WordIs(chunk, 6, 0x35, 0x36, 0x37, 0x38, 0x38373635);
    WordIs(chunk, 7, 0x39, 0x30, 0x31, 0x32, 0x32313039);
    WordIs(chunk, 8, 0x33, 0x34, 0x35, 0x36, 0x36353433);
    WordIs(chunk, 9, 0x37, 0x38, 0x39, 0x30, 0x30393837);
    WordIs(chunk, 10, 0x31, 0x32, 0x33, 0x34, 0x34333231);
    WordIs(chunk, 11, 0x35, 0x36, 0x37, 0x38, 0x38373635);
    WordIs(chunk, 12, 0x39, 0x30, 0x31, 0x32, 0x32313039);
    WordIs(chunk, 13, 0x33, 0x34, 0x35, 0x36, 0x36353433);
    WordIs(chunk, 14, 0x37, 0x38, 0x39, 0x30, 0x30393837);
    WordIs(chunk, 15, 0x31, 0x32, 0x33, 0x34, 0x34333231);
  }

  lemma DigitsSecondWords(message: seq<Byte>)
    requires IsDigits(message)
    ensures IsDigitsSecond(Words(message[64..] + [0x80] + Zeros(39) + [128, 2, 0, 0, 0, 0, 0, 0]))
  {
    hide Words;
    var chunk := message[64..] + [0x80] + Zeros(39) + [128, 2, 0, 0, 0, 0, 0, 0];
    WordIs(chunk, 0, 0x35, 0x36, 0x37, 0x38, 0x38373635);
    WordIs(chunk, 1, 0x39, 0x30, 0x31, 0x32, 0x32313039);
    WordIs(chunk, 2, 0x33, 0x34, 0x35, 0x36, 0x36353433);
    WordIs(chunk, 3, 0x37, 0x38, 0x39, 0x30, 0x30393837);
    WordIs(chunk, 4, 0x80, 0x00, 0x00, 0x00, 0x00000080);
    WordIs(chunk, 5, 0x00, 0x00, 0x00, 0x00, 0x00000000);
    WordIs(chunk, 6, 0x00, 0x00, 0x00, 0x00, 0x00000000);
    WordIs(chunk, 7, 0x00, 0x00, 0x00, 0x00, 0x00000000);
    WordIs(chunk, 8, 0x00, 0x00, 0x00, 0x00, 0x00000000);
    WordIs(chunk, 9, 0x00, 0x00, 0x00, 0x00, 0x00000000);
    WordIs(chunk, 10, 0x00, 0x00, 0x00, 0x00, 0x00000000);
    WordIs(chunk, 11, 0x00, 0x00, 0x00, 0x00, 0x00000000);
    WordIs(chunk, 12, 0x00, 0x00, 0x00, 0x00, 0x00000000);
    WordIs(chunk, 13, 0x00, 0x00, 0x00, 0x00, 0x00000000);
    WordIs(chunk, 14, 0x80, 0x02, 0x00, 0x00, 0x00000280);
    WordIs(chunk, 15, 0x00, 0x00, 0x00, 0x00, 0x00000000);
  }

  /** The digest of eighty digits, which with their padding are two blocks. */
  lemma DigitsDigest(message: seq<Byte>)
    requires IsDigits(message)
    ensures Digest(message) == [
      0x57, 0xed, 0xf4, 0xa2, 0x2b, 0xe3, 0xc9, 0x55, 0xac, 0x49, 0xda, 0x2e, 0x21, 0x07, 0xb6, 0x7a
    ]
  {
    hide Padded, Fold, Compress, Output, U, Words, IsDigits;
    DigitsParts(message);
    var p, q := message[..64], message[64..] + [0x80] + Zeros(39) + [128, 2, 0, 0, 0, 0, 0, 0];
    DigitsFirstWords(message);
    DigitsSecondWords(message);
    TwoBlocks(INITIAL, p, q);
    InitialIs();
    CompressDigitsFirst(INITIAL, p);
    CompressDigitsSecond(Compress(INITIAL, p), q);
    DigitsOutput();
  }

  lemma DigitsOutput()
    ensures Output(RegsOf(0xa2f4ed57, 0x55c9e32b, 0x2eda49ac, 0x7ab60721)) == [
      0x57, 0xed, 0xf4, 0xa2, 0x2b, 0xe3, 0xc9, 0x55, 0xac, 0x49, 0xda, 0x2e, 0x21, 0x07, 0xb6, 0x7a
    ]
  {
    hide LittleEndian;
    FourBytes(U(0xa2f4ed57), 0x57, 0xed, 0xf4, 0xa2);
    FourBytes(U(0x55c9e32b), 0x2b, 0xe3, 0xc9, 0x55);
    FourBytes(U(0x2eda49ac), 0xac, 0x49, 0xda, 0x2e);
    FourBytes(U(0x7ab60721), 0x21, 0x07, 0xb6, 0x7a);
  }

  // The bytes of a challenge of 23753528, the password FooBar and the salt of the secure login, in parts.

  predicate LoginText(message: seq<Byte>)
    requires |message| == 78
  {
    && message[0] == 50 && message[1] == 51 && message[2] == 55 && message[3] == 53
    && message[4] == 51 && message[5] == 53 && message[6] == 50 && message[7] == 56
    && message[8] == 70 && message[9] == 111 && message[10] == 111 && message[11] == 66
    && message[12] == 97 && message[13] == 114
  }

  predicate LoginSalt1(message: seq<Byte>)
    requires |message| == 78
  {
    && message[14] == 77 && message[15] == 197 && message[16] == 101 && message[17] == 206
    && message[18] == 190 && message[19] == 249 && message[20] == 93 && message[21] == 200
    && message[22] == 51 && message[23] == 243 && message[24] == 93 && message[25] == 237
    && message[26] == 71 && message[27] == 94 && message[28] == 239 && message[29] == 138
  }

  predicate LoginSalt2(message: seq<Byte>)
    requires |message| == 78
  {
    && message[30] == 68 && message[31] == 108 && message[32] == 70 && message[33] == 185
    && message[34] == 225 && message[35] == 137 && message[36] == 217 && message[37] == 16
    && message[38] == 51 && message[39] == 122 && message[40] == 193 && message[41] == 48
    && message[42] == 194 && message[43] == 195 && message[44] == 198 && message[45] == 175
  }

  predicate LoginSalt3(message: seq<Byte>)
    requires |message| == 78
  {
    && message[46] == 172 && message[47] == 169 && message[48] == 70 && message[49] == 84
    && message[50] == 61 && message[51] == 62 && message[52] == 104 && message[53] == 186
    && message[54] == 114 && message[55] == 52 && message[56] == 61 && message[57] == 168
    && message[58] == 66 && message[59] == 129 && message[60] == 192 && message[61] == 208
  }

  predicate LoginSalt4(message: seq<Byte>)
    requires |message| == 78
  {
    && message[62] == 187 && message[63] == 249 && message[64] == 232 && message[65] == 193
    && message[66] == 41 && message[67] == 113 && message[68] == 41 && message[69] == 45
    && message[70] == 240 && message[71] == 16 && message[72] == 29 && message[73] == 228
    && message[74] == 208 && message[75] == 228 && message[76] == 61 && message[77] == 20
  }

  predicate IsLogin(message: seq<Byte>) {
    && |message| == 78 && LoginText(message)
    && LoginSalt1(message) && LoginSalt2(message) && LoginSalt3(message) && LoginSalt4(message)
  }

  // ----- A login -----

  predicate IsLoginFirst(x: Block) {
    && x[0] == U(0x35373332) && x[1] == U(0x38323533) && x[2] == U(0x426f6f46) && x[3] == U(0xc54d7261)
    && x[4] == U(0xf9bece65) && x[5] == U(0xf333c85d) && x[6] == U(0x5e47ed5d) && x[7] == U(0x6c448aef)
    && x[8] == U(0x89e1b946) && x[9] == U(0x7a3310d9) && x[10] == U(0xc3c230c1) && x[11] == U(0xa9acafc6)
    && x[12] == U(0x3e3d5446) && x[13] == U(0x3472ba68) && x[14] == U(0x8142a83d) && x[15] == U(0xf9bbd0c0)
  }

  lemma LoginFirstRound1(x: Block, r: Regs)
    requires IsLoginFirst(x) && Iterate(Loop(x), r, 0, 0) == RegsOf(0x67452301, 0xefcdab89, 0x98badcfe, 0x10325476)
    ensures Iterate(Loop(x), r, 0, 16) == RegsOf(0xfba6030d, 0xe59066e8, 0x365772e5, 0xc0de95bd)
  {
    hide Operation, Iterate, RegsOf, U, T, WordIndex;
    ConstantsOfRound1();
    IndicesOfRound1();
    var a: bv32, b: bv32, c: bv32, d: bv32 := 0x67452301, 0xefcdab89, 0x98badcfe, 0x10325476;
    a := Op(x, r, 0, a, b, c, d, 0x35373332, 0xd76aa478, 0x40b9800f);
    d := Op(x, r, 1, d, a, b, c, 0x38323533, 0xe8c7b756, 0xc29900aa);
    c := Op(x, r, 2, c, d, a, b, 0x426f6f46, 0x242070db, 0x92eddafa);
    b := Op(x, r, 3, b, c, d, a, 0xc54d7261, 0xc1bdceee, 0xf4bc3775);
    a := Op(x, r, 4, a, b, c, d, 0xf9bece65, 0xf57c0faf, 0x4574c656);
    d := Op(x, r, 5, d, a, b, c, 0xf333c85d, 0x4787c62a, 0x6057a397);
    c := Op(x, r, 6, c, d, a, b, 0x5e47ed5d, 0xa8304613, 0xaa18805c);
    b := Op(x, r, 7, b, c, d, a, 0x6c448aef, 0xfd469501, 0x09096f63);
    a := Op(x, r, 8, a, b, c, d, 0x89e1b946, 0x698098d8, 0xa3d613b3);
    d := Op(x, r, 9, d, a, b, c, 0x7a3310d9, 0x8b44f7af, 0x26cefaa0);
    c := Op(x, r, 10, c, d, a, b, 0xc3c230c1, 0xffff5bb1, 0x70322de2);
    b := Op(x, r, 11, b, c, d, a, 0xa9acafc6, 0x895cd7be, 0xd66a242e);
    a := Op(x, r, 12, a, b, c, d, 0x3e3d5446, 0x6b901122, 0xfba6030d);
    d := Op(x, r, 13, d, a, b, c, 0x3472ba68, 0xfd987193, 0xc0de95bd);
    c := Op(x, r, 14, c, d, a, b, 0x8142a83d, 0xa679438e, 0x365772e5);
    b := Op(x, r, 15, b, c, d, a, 0xf9bbd0c0, 0x49b40821, 0xe59066e8);
  }

  lemma LoginFirstRound2(x: Block, r: Regs)
    requires IsLoginFirst(x) && Iterate(Loop(x), r, 0, 16) == RegsOf(0xfba6030d, 0xe59066e8, 0x365772e5, 0xc0de95bd)
    ensures Iterate(Loop(x), r, 0, 32) == RegsOf(0x828c7f0c, 0x67ab2476, 0xe5038f55, 0xc64db8a5)
  {
    hide Operation, Iterate, RegsOf, U, T, WordIndex;
    ConstantsOfRound2();
    IndicesOfRound2();
    var a: bv32, b: bv32, c: bv32, d: bv32 := 0xfba6030d, 0xe59066e8, 0x365772e5, 0xc0de95bd;
    a := Op(x, r, 16, a, b, c, d, 0x38323533, 0xf61e2562, 0xf688f82c);
    d := Op(x, r, 17, d, a, b, c, 0x5e47ed5d, 0xc040b340, 0xc5de05d9);
    c := Op(x, r, 18, c, d, a, b, 0xa9acafc6, 0x265e5a51, 0x8c503d57);
    b := Op(x, r, 19, b, c, d, a, 0x35373332, 0xe9b6c7aa, 0x85e8daa0);
    a := Op(x, r, 20, a, b, c, d, 0xf333c85d, 0xd62f105d, 0x3c6a0829);
    d := Op(x, r, 21, d, a, b, c, 0xc3c230c1, 0x02441453, 0xd695255c);
    c := Op(x, r, 22, c, d, a, b, 0xf9bbd0c0, 0xd8a1e681, 0xd3bd6c27);
    b := Op(x, r, 23, b, c, d, a, 0xf9bece65, 0xe7d3fbc8, 0xf7e10fb4);
    a := Op(x, r, 24, a, b, c, d, 0x7a3310d9, 0x21e1cde6, 0xfce793aa);
    d := Op(x, r, 25, d, a, b, c, 0x8142a83d, 0xc33707d6, 0xe499d5c9);
    c := Op(x, r, 26, c, d, a, b, 0xc54d7261, 0xf4d50d87, 0xc5003462);
    b := Op(x, r, 27, b, c, d, a, 0x89e1b946, 0x455a14ed, 0xe9a8e7b5);
    a := Op(x, r, 28, a, b, c, d, 0x3472ba68, 0xa9e3e905, 0x828c7f0c);
    d := Op(x, r, 29, d, a, b, c, 0x426f6f46, 0xfcefa3f8, 0xc64db8a5);
    c := Op(x, r, 30, c, d, a, b, 0x6c448aef, 0x676f02d9, 0xe5038f55);
    b := Op(x, r, 31, b, c, d, a, 0x3e3d5446, 0x8d2a4c8a, 0x67ab2476);
  }

  lemma LoginFirstRound3(x: Block, r: Regs)
    requires IsLoginFirst(x) && Iterate(Loop(x), r, 0, 32) == RegsOf(0x828c7f0c, 0x67ab2476, 0xe5038f55, 0xc64db8a5)
    ensures Iterate(Loop(x), r, 0, 48) == RegsOf(0xccfecf30, 0x29cae7f4, 0xc650f118, 0xb391fd1c)
  {
    hide Operation, Iterate, RegsOf, U, T, WordIndex;
    ConstantsOfRound3();
    IndicesOfRound3();
    var a: bv32, b: bv32, c: bv32, d: bv32 := 0x828c7f0c, 0x67ab2476, 0xe5038f55, 0xc64db8a5;
    a := Op(x, r, 32, a, b, c, d, 0xf333c85d, 0xfffa3942, 0x11a46791);
    d := Op(x, r, 33, d, a, b, c, 0x89e1b946, 0x8771f681, 0x834d5ae6);
    c := Op(x, r, 34, c, d, a, b, 0xa9acafc6, 0x6d9d6122, 0x3c8c4c75);
    b := Op(x, r, 35, b, c, d, a, 0x8142a83d, 0xfde5380c, 0x1d56e8af);
    a := Op(x, r, 36, a, b, c, d, 0x38323533, 0xa4beea44, 0x302f3cf8);
    d := Op(x, r, 37, d, a, b, c, 0xf9bece65, 0x4bdecfa9, 0x34b7f3cf);
    c := Op(x, r, 38, c, d, a, b, 0x6c448aef, 0xf6bb4b60, 0x7f14ad29);
    b := Op(x, r, 39, b, c, d, a, 0xc3c230c1, 0xbebfbc70, 0x7e225fc4);
    a := Op(x, r, 40, a, b, c, d, 0x3472ba68, 0x289b7ec6, 0xaa09d450);
    d := Op(x, r, 41, d, a, b, c, 0x35373332, 0xeaa127fa, 0x25b79c4e);
    c := Op(x, r, 42, c, d, a, b, 0xc54d7261, 0xd4ef3085, 0x8da0a73b);
    b := Op(x, r, 43, b, c, d, a, 0x5e47ed5d, 0x04881d05, 0x33922fe7);
    a := Op(x, r, 44, a, b, c, d, 0x7a3310d9, 0xd9d4d039, 0xccfecf30);
    d := Op(x, r, 45, d, a, b, c, 0x3e3d5446, 0xe6db99e5, 0xb391fd1c);
    c := Op(x, r, 46, c, d, a, b, 0xf9bbd0c0, 0x1fa27cf8, 0xc650f118);
    b := Op(x, r, 47, b, c, d, a, 0x426f6f46, 0xc4ac5665, 0x29cae7f4);
  }

  lemma LoginFirstRound4(x: Block, r: Regs)
    requires IsLoginFirst(x) && Iterate(Loop(x), r, 0, 48) == RegsOf(0xccfecf30, 0x29cae7f4, 0xc650f118, 0xb391fd1c)
    ensures Iterate(Loop(x), r, 0, 64) == RegsOf(0xa2e46df4, 0x5259934b, 0x60fc74db, 0xb8af9c3e)
  {
    hide Operation, Iterate, RegsOf, U, T, WordIndex;
    ConstantsOfRound4();
    IndicesOfRound4();
    var a: bv32, b: bv32, c: bv32, d: bv32 := 0xccfecf30, 0x29cae7f4, 0xc650f118, 0xb391fd1c;
    a := Op(x, r, 48, a, b, c, d, 0x35373332, 0xf4292244, 0xb119cd5c);
    d := Op(x, r, 49, d, a, b, c, 0x6c448aef, 0x432aff97, 0x8bd88529);
    c := Op(x, r, 50, c, d, a, b, 0x8142a83d, 0xab9423a7, 0x9292362f);
    b := Op(x, r, 51, b, c, d, a, 0xf333c85d, 0xfc93a039, 0x14a00e4f);
    a := Op(x, r, 52, a, b, c, d, 0x3e3d5446, 0x655b59c3, 0xce91239d);
    d := Op(x, r, 53, d, a, b, c, 0xc54d7261, 0x8f0ccc92, 0x1137df0b);
    c := Op(x, r, 54, c, d, a, b, 0xc3c230c1, 0xffeff47d, 0xad01a524);
    b := Op(x, r, 55, b, c, d, a, 0x38323533, 0x85845dd1, 0x25117afc);
    a := Op(x, r, 56, a, b, c, d, 0x89e1b946, 0x6fa87e4f, 0xe2203d7e);
    d := Op(x, r, 57, d, a, b, c, 0xf9bbd0c0, 0xfe2ce6e0, 0x208ef902);
    c := Op(x, r, 58, c, d, a, b, 0x5e47ed5d, 0xa3014314, 0xeb985c8e);
    b := Op(x, r, 59, b, c, d, a, 0x3472ba68, 0x4e0811a1, 0xbde9383b);
    a := Op(x, r, 60, a, b, c, d, 0xf9bece65, 0xf7537e82, 0xa2e46df4);
    d := Op(x, r, 61, d, a, b, c, 0xa9acafc6, 0xbd3af235, 0xb8af9c3e);
    c := Op(x, r, 62, c, d, a, b, 0x426f6f46, 0x2ad7d2bb, 0x60fc74db);
    b := Op(x, r, 63, b, c, d, a, 0x7a3310d9, 0xeb86d391, 0x5259934b);
  }

  lemma CompressLoginFirst(r: Regs, chunk: Chunk)
    requires IsLoginFirst(Words(chunk)) && r == RegsOf(0x67452301, 0xefcdab89, 0x98badcfe, 0x10325476)
    ensures Compress(r, chunk) == RegsOf(0x0a2990f5, 0x42273ed4, 0xf9b751d9, 0xc8e1f0b4)
  {
    hide Operation, U, Compress, Words, IsLoginFirst;
    var x := Words(chunk);
    LoginFirstRound1(x, r);
    LoginFirstRound2(x, r);
    LoginFirstRound3(x, r);
    LoginFirstRound4(x, r);
    Compressed(r, chunk, 0x67452301, 0xefcdab89, 0x98badcfe, 0x10325476,
               0xa2e46df4, 0x5259934b, 0x60fc74db, 0xb8af9c3e);
  }

  predicate IsLoginSecond(x: Block) {
    && x[0] == U(0x7129c1e8) && x[1] == U(0x10f02d29) && x[2] == U(0xe4d0e41d) && x[3] == U(0x0080143d)
    && x[4] == U(0x00000000) && x[5] == U(0x00000000) && x[6] == U(0x00000000) && x[7] == U(0x00000000)
    && x[8] == U(0x00000000) && x[9] == U(0x00000000) && x[10] == U(0x00000000) && x[11] == U(0x00000000)
    && x[12] == U(0x00000000) && x[13] == U(0x00000000) && x[14] == U(0x00000270) && x[15] == U(0x00000000)
  }

  lemma LoginSecondRound1(x: Block, r: Regs)
    requires IsLoginSecond(x) && Iterate(Loop(x), r, 0, 0) == RegsOf(0x0a2990f5, 0x42273ed4, 0xf9b751d9, 0xc8e1f0b4)
    ensures Iterate(Loop(x), r, 0, 16) == RegsOf(0x162abaf7, 0x15356424, 0x202b69b3, 0x80e56dc6)
  {
    hide Operation, Iterate, RegsOf, U, T, WordIndex;
    ConstantsOfRound1();
    IndicesOfRound1();
    var a: bv32, b: bv32, c: bv32, d: bv32 := 0x0a2990f5, 0x42273ed4, 0xf9b751d9, 0xc8e1f0b4;
    a := Op(x, r, 0, a, b, c, d, 0x7129c1e8, 0xd76aa478, 0x150b6161);
    d := Op(x, r, 1, d, a, b, c, 0x10f02d29, 0xe8c7b756, 0x256c1c16);
    c := Op(x, r, 2, c, d, a, b, 0xe4d0e41d, 0x242070db, 0xb88eaf7d);
    b := Op(x, r, 3, b, c, d, a, 0x0080143d, 0xc1bdceee, 0x3d590c18);
    a := Op(x, r, 4, a, b, c, d, 0x00000000, 0xf57c0faf, 0x971fa339);
    d := Op(x, r, 5, d, a, b, c, 0x00000000, 0x4787c62a, 0x66096de1);
    c := Op(x, r, 6, c, d, a, b, 0x00000000, 0xa8304613, 0x939c6e11);
    b := Op(x, r, 7, b, c, d, a, 0x00000000, 0xfd469501, 0x242c98f4);
    a := Op(x, r, 8, a, b, c, d, 0x00000000, 0x698098d8, 0x7b012a15);
    d := Op(x, r, 9, d, a, b, c, 0x00000000, 0x8b44f7af, 0x261b7333);
    c := Op(x, r, 10, c, d, a, b, 0x00000000, 0xffff5bb1, 0x0f4adeb5);
    b := Op(x, r, 11, b, c, d, a, 0x00000000, 0x895cd7be, 0xc813c3ed);
    a := Op(x, r, 12, a, b, c, d, 0x00000000, 0x6b901122, 0x162abaf7);
    d := Op(x, r, 13, d, a, b, c, 0x00000000, 0xfd987193, 0x80e56dc6);
    c := Op(x, r, 14, c, d, a, b, 0x00000270, 0xa679438e, 0x202b69b3);
    b := Op(x, r, 15, b, c, d, a, 0x00000000, 0x49b40821, 0x15356424);
  }

  lemma LoginSecondRound2(x: Block, r: Regs)
    requires IsLoginSecond(x) && Iterate(Loop(x), r, 0, 16) == RegsOf(0x162abaf7, 0x15356424, 0x202b69b3, 0x80e56dc6)
    ensures Iterate(Loop(x), r, 0, 32) == RegsOf(0x7f141214, 0x04559d78, 0x22a66b06, 0x26ed273d)
  {
    hide Operation, Iterate, RegsOf, U, T, WordIndex;
    ConstantsOfRound2();
    IndicesOfRound2();
    var a: bv32, b: bv32, c: bv32, d: bv32 := 0x162abaf7, 0x15356424, 0x202b69b3, 0x80e56dc6;
    a := Op(x, r, 16, a, b, c, d, 0x10f02d29, 0xf61e2562, 0xc2439b0b);
    d := Op(x, r, 17, d, a, b, c, 0x00000000, 0xc040b340, 0x3c9fb5b7);
    c := Op(x, r, 18, c, d, a, b, 0x00000000, 0x265e5a51, 0x9d6c7cef);
    b := Op(x, r, 19, b, c, d, a, 0x7129c1e8, 0xe9b6c7aa, 0x44bf4c11);
    a := Op(x, r, 20, a, b, c, d, 0x00000000, 0xd62f105d, 0x12fe4434);
    d := Op(x, r, 21, d, a, b, c, 0x00000000, 0x02441453, 0xd91ac153);
    c := Op(x, r, 22, c, d, a, b, 0x00000000, 0xd8a1e681, 0x0204336d);
    b := Op(x, r, 23, b, c, d, a, 0x00000000, 0xe7d3fbc8, 0x9613ace9);
    a := Op(x, r, 24, a, b, c, d, 0x00000000, 0x21e1cde6, 0x74ec3de1);
    d := Op(x, r, 25, d, a, b, c, 0x00000270, 0xc33707d6, 0x47ff3241);
    c := Op(x, r, 26, c, d, a, b, 0x0080143d, 0xf4d50d87, 0x699bc9d7);
    b := Op(x, r, 27, b, c, d, a, 0x00000000, 0x455a14ed, 0x430fba63);
    a := Op(x, r, 28, a, b, c, d, 0x00000000, 0xa9e3e905, 0x7f141214);
    d := Op(x, r, 29, d, a, b, c, 0xe4d0e41d, 0xfcefa3f8, 0x26ed273d);
    c := Op(x, r, 30, c, d, a, b, 0x00000000, 0x676f02d9, 0x22a66b06);
    b := Op(x, r, 31, b, c, d, a, 0x00000000, 0x8d2a4c8a, 0x04559d78);
  }

  lemma LoginSecondRound3(x: Block, r: Regs)
    requires IsLoginSecond(x) && Iterate(Loop(x), r, 0, 32) == RegsOf(0x7f141214, 0x04559d78, 0x22a66b06, 0x26ed273d)
    ensures Iterate(Loop(x), r, 0, 48) == RegsOf(0xf9567dc5, 0x44ec2dec, 0xeb46f7d8, 0xb6c20c65)
  {
    hide Operation, Iterate, RegsOf, U, T, WordIndex;
    ConstantsOfRound3();
    IndicesOfRound3();
    var a: bv32, b: bv32, c: bv32, d: bv32 := 0x7f141214, 0x04559d78, 0x22a66b06, 0x26ed273d;
    a := Op(x, r, 32, a, b, c, d, 0x00000000, 0xfffa3942, 0xf727670f);
    d := Op(x, r, 33, d, a, b, c, 0x00000000, 0x8771f681, 0x94a0e310);
    c := Op(x, r, 34, c, d, a, b, 0x00000000, 0x6d9d6122, 0x7a30db25);
    b := Op(x, r, 35, b, c, d, a, 0x00000270, 0xfde5380c, 0x113ed440);
    a := Op(x, r, 36, a, b, c, d, 0x10f02d29, 0xa4beea44, 0xd995835a);
    d := Op(x, r, 37, d, a, b, c, 0x00000000, 0x4bdecfa9, 0xb38d47f2);
    c := Op(x, r, 38, c, d, a, b, 0x00000000, 0xf6bb4b60, 0xeafb3404);
    b := Op(x, r, 39, b, c, d, a, 0x00000000, 0xbebfbc70, 0x9923a544);
    a := Op(x, r, 40, a, b, c, d, 0x00000000, 0x289b7ec6, 0xc1913270);
    d := Op(x, r, 41, d, a, b, c, 0x7129c1e8, 0xeaa127fa, 0xd039587d);
    c := Op(x, r, 42, c, d, a, b, 0x0080143d, 0xd4ef3085, 0x1848a173);
    b := Op(x, r, 43, b, c, d, a, 0x00000000, 0x04881d05, 0xfc1c67b9);
    a := Op(x, r, 44, a, b, c, d, 0x00000000, 0xd9d4d039, 0xf9567dc5);
    d := Op(x, r, 45, d, a, b, c, 0x00000000, 0xe6db99e5, 0xb6c20c65);
    c := Op(x, r, 46, c, d, a, b, 0x00000000, 0x1fa27cf8, 0xeb46f7d8);
    b := Op(x, r, 47, b, c, d, a, 0xe4d0e41d, 0xc4ac5665, 0x44ec2dec);
  }

  lemma LoginSecondRound4(x: Block, r: Regs)
    requires IsLoginSecond(x) && Iterate(Loop(x), r, 0, 48) == RegsOf(0xf9567dc5, 0x44ec2dec, 0xeb46f7d8, 0xb6c20c65)
    ensures Iterate(Loop(x), r, 0, 64) == RegsOf(0x817709d1, 0x1ccabfc4, 0x46bcff0d, 0x8598c8d8)
  {
    hide Operation, Iterate, RegsOf, U, T, WordIndex;
    ConstantsOfRound4();
    IndicesOfRound4();
    var a: bv32, b: bv32, c: bv32, d: bv32 := 0xf9567dc5, 0x44ec2dec, 0xeb46f7d8, 0xb6c20c65;
    a := Op(x, r, 48, a, b, c, d, 0x7129c1e8, 0xf4292244, 0x9e06b3ad);
    d := Op(x, r, 49, d, a, b, c, 0x00000000, 0x432aff97, 0xa08fb2fe);
    c := Op(x, r, 50, c, d, a, b, 0x00000270, 0xab9423a7, 0xd0309138);
    b := Op(x, r, 51, b, c, d, a, 0x00000000, 0xfc93a039, 0x8562efff);
    a := Op(x, r, 52, a, b, c, d, 0x00000000, 0x655b59c3, 0x2e85fdc3);
    d := Op(x, r, 53, d, a, b, c, 0x0080143d, 0x8f0ccc92, 0x5516152e);
    c := Op(x, r, 54, c, d, a, b, 0x00000000, 0xffeff47d, 0x0c6725cb);
    b := Op(x, r, 55, b, c, d, a, 0x10f02d29, 0x85845dd1, 0xc5bbade0);
    a := Op(x, r, 56, a, b, c, d, 0x00000000, 0x6fa87e4f, 0x388d4100);
    d := Op(x, r, 57, d, a, b, c, 0x00000000, 0xfe2ce6e0, 0xde58cb45);
    c := Op(x, r, 58, c, d, a, b, 0x00000000, 0xa3014314, 0xdff80662);
    b := Op(x, r, 59, b, c, d, a, 0x00000000, 0x4e0811a1, 0x875ab328);
    a := Op(x, r, 60, a, b, c, d, 0x00000000, 0xf7537e82, 0x817709d1);
    d := Op(x, r, 61, d, a, b, c, 0x00000000, 0xbd3af235, 0x8598c8d8);
    c := Op(x, r, 62, c, d, a, b, 0xe4d0e41d, 0x2ad7d2bb, 0x46bcff0d);
    b := Op(x, r, 63, b, c, d, a, 0x00000000, 0xeb86d391, 0x1ccabfc4);
  }

  lemma CompressLoginSecond(r: Regs, chunk: Chunk)
    requires IsLoginSecond(Words(chunk)) && r == RegsOf(0x0a2990f5, 0x42273ed4, 0xf9b751d9, 0xc8e1f0b4)
    ensures Compress(r, chunk) == RegsOf(0x8ba09ac6, 0x5ef1fe98, 0x407450e6, 0x4e7ab98c)
  {
    hide Operation, U, Compress, Words, IsLoginSecond;
    var x := Words(chunk);
    LoginSecondRound1(x, r);
    LoginSecondRound2(x, r);
    LoginSecondRound3(x, r);
    LoginSecondRound4(x, r);
    Compressed(r, chunk, 0x0a2990f5, 0x42273ed4, 0xf9b751d9, 0xc8e1f0b4,
               0x817709d1, 0x1ccabfc4, 0x46bcff0d, 0x8598c8d8);
  }

  lemma LoginParts(message: seq<Byte>)
    requires IsLogin(message)
    ensures Padded(message) == message[..64] + (message[64..] + [0x80] + Zeros(41) + [112, 2, 0, 0, 0, 0, 0, 0])
    ensures |message| == 78
  {
    LengthIs(78, 112, 2);
  }

  lemma LoginFirstWords(message: seq<Byte>)
    requires IsLogin(message)
    ensures IsLoginFirst(Words(message[..64]))
  {
    hide Words;
    var chunk := message[..64];
    WordIs(chunk, 0, 0x32, 0x33, 0x37, 0x35, 0x35373332);
    WordIs(chunk, 1, 0x33, 0x35, 0x32, 0x38, 0x38323533);
    WordIs(chunk, 2, 0x46, 0x6f, 0x6f, 0x42, 0x426f6f46);
    WordIs(chunk, 3, 0x61, 0x72, 0x4d, 0xc5, 0xc54d7261);
    WordIs(chunk, 4, 0x65, 0xce, 0xbe, 0xf9, 0xf9bece65);
    WordIs(chunk, 5, 0x5d, 0xc8, 0x33, 0xf3, 0xf333c85d);
    WordIs(chunk, 6, 0x5d, 0xed, 0x47, 0x5e, 0x5e47ed5d);
    WordIs(chunk, 7, 0xef, 0x8a, 0x44, 0x6c, 0x6c448aef);
    WordIs(chunk, 8, 0x46, 0xb9, 0xe1, 0x89, 0x89e1b946);
    WordIs(chunk, 9, 0xd9, 0x10, 0x33, 0x7a, 0x7a3310d9);
    WordIs(chunk, 10, 0xc1, 0x30, 0xc2, 0xc3, 0xc3c230c1);
    WordIs(chunk, 11, 0xc6, 0xaf, 0xac, 0xa9, 0xa9acafc6);
    WordIs(chunk, 12, 0x46, 0x54, 0x3d, 0x3e, 0x3e3d5446);
    WordIs(chunk, 13, 0x68, 0xba, 0x72, 0x34, 0x3472ba68);
    WordIs(chunk, 14, 0x3d, 0xa8, 0x42, 0x81, 0x8142a83d);
    WordIs(chunk, 15, 0xc0, 0xd0, 0xbb, 0xf9, 0xf9bbd0c0);
  }

  lemma LoginSecondWords(message: seq<Byte>)
    requires IsLogin(message)
    ensures IsLoginSecond(Words(message[64..] + [0x80] + Zeros(41) + [112, 2, 0, 0, 0, 0, 0, 0]))
  {
    hide Words;
    var chunk := message[64..] + [0x80] + Zeros(41) + [112, 2, 0, 0, 0, 0, 0, 0];
    WordIs(chunk, 0, 0xe8, 0xc1, 0x29, 0x71, 0x7129c1e8);
    WordIs(chunk, 1, 0x29, 0x2d, 0xf0, 0x10, 0x10f02d29);
    WordIs(chunk, 2, 0x1d, 0xe4, 0xd0, 0xe4, 0xe4d0e41d);
    WordIs(chunk, 3, 0x3d, 0x14, 0x80, 0x00, 0x0080143d);
    WordIs(chunk, 4, 0x00, 0x00, 0x00, 0x00, 0x00000000);
    WordIs(chunk, 5, 0x00, 0x00, 0x00, 0x00, 0x00000000);
    WordIs(chunk, 6, 0x00, 0x00, 0x00, 0x00, 0x00000000);
    WordIs(chunk, 7, 0x00, 0x00, 0x00, 0x00, 0x00000000);
    WordIs(chunk, 8, 0x00, 0x00, 0x00, 0x00, 0x00000000);
    WordIs(chunk, 9, 0x00, 0x00, 0x00, 0x00, 0x00000000);
    WordIs(chunk, 10, 0x00, 0x00, 0x00, 0x00, 0x00000000);
    WordIs(chunk, 11, 0x00, 0x00, 0x00, 0x00, 0x00000000);
    WordIs(chunk, 12, 0x00, 0x00, 0x00, 0x00, 0x00000000);
    WordIs(chunk, 13, 0x00, 0x00, 0x00, 0x00, 0x00000000);
    WordIs(chunk, 14, 0x70, 0x02, 0x00, 0x00, 0x00000270);
    WordIs(chunk, 15, 0x00, 0x00, 0x00, 0x00, 0x00000000);
  }

  /** The digest of what is hashed in this login. */
  lemma LoginDigest(message: seq<Byte>)
    requires IsLogin(message)
    ensures Digest(message) == [
      0xc6, 0x9a, 0xa0, 0x8b, 0x98, 0xfe, 0xf1, 0x5e, 0xe6, 0x50, 0x74, 0x40, 0x8c, 0xb9, 0x7a, 0x4e
    ]
  {
    hide Padded, Fold, Compress, Output, U, Words, IsLogin;
    LoginParts(message);
    var p, q := message[..64], message[64..] + [0x80] + Zeros(41) + [112, 2, 0, 0, 0, 0, 0, 0];
    LoginFirstWords(message);
    LoginSecondWords(message);
    TwoBlocks(INITIAL, p, q);
    InitialIs();
    CompressLoginFirst(INITIAL, p);
    CompressLoginSecond(Compress(INITIAL, p), q);
    LoginOutput();
  }

  lemma LoginOutput()
    ensures Output(RegsOf(0x8ba09ac6, 0x5ef1fe98, 0x407450e6, 0x4e7ab98c)) == [
      0xc6, 0x9a, 0xa0, 0x8b, 0x98, 0xfe, 0xf1, 0x5e, 0xe6, 0x50, 0x74, 0x40, 0x8c, 0xb9, 0x7a, 0x4e
    ]
  {
    hide LittleEndian;
    FourBytes(U(0x8ba09ac6), 0xc6, 0x9a, 0xa0, 0x8b);
    FourBytes(U(0x5ef1fe98), 0x98, 0xfe, 0xf1, 0x5e);
    FourBytes(U(0x407450e6), 0xe6, 0x50, 0x74, 0x40);
    FourBytes(U(0x4e7ab98c), 0x8c, 0xb9, 0x7a, 0x4e);
  }
}
