/** The streaming digest: a 64-byte accumulating buffer, a split bit counter and the compression step. */
module Md5 {
  import opened Word32
  import opened Rfc1321
  import Md5Block

  /** The part of a message that fills whole blocks, and what is left over. */
  function FullBlocks(message: seq<Byte>): (m: seq<Byte>)
    ensures |m| % BLOCK == 0
  {
    message[..|message| - |message| % BLOCK]
  }

  function Tail(message: seq<Byte>): (m: seq<Byte>)
    ensures |m| == |message| % BLOCK
  {
    message[|message| - |message| % BLOCK..]
  }

  /** `fold` is the fold of section 3.4, under a name that keeps its definition out of the proofs about the buffer. */
  ghost predicate Folds(fold: seq<Byte> -> Regs) {
    forall m {:trigger Fold(INITIAL, m)} :: |m| % BLOCK == 0 ==> fold(m) == Fold(INITIAL, m)
  }

  lemma FoldBlock(fold: seq<Byte> -> Regs, m: seq<Byte>, block: Chunk)
    requires Folds(fold) && |m| % BLOCK == 0
    ensures |m + block| % BLOCK == 0 && fold(m + block) == Compress(fold(m), block)
  {
    var all := m + block;
    assert all[..|all| - BLOCK] == m && all[|all| - BLOCK..] == block;
    assert fold(all) == Fold(INITIAL, all) && fold(m) == Fold(INITIAL, m);
  }

  /** A number that is a multiple of 2^64 plus a smaller one. */
  lemma ModTwo64(x: nat, q: nat, r: nat)
    requires x == TWO64 * q + r && r < TWO64
    ensures x % TWO64 == r
  {
  }

  lemma AddSplits(x: Word, y: Word)
    ensures AddW(x, y) == if x + y < TWO32 then x + y else x + y - TWO32
  {
  }

  lemma BitsSplit(n: nat)
    requires n < TWO31
    ensures 8 * n == TWO32 * (n / 0x2000_0000) + 8 * n % TWO32
  {
    assert n == 0x2000_0000 * (n / 0x2000_0000) + n % 0x2000_0000;
  }

  /** The shift by 29 and the carry: what the two count words hold after n more bytes. */
  lemma CountAdvances(count0: Word, count1: Word, length: nat, n: nat)
    requires n < TWO31 && count0 + TWO32 * count1 == 8 * length % TWO64
    ensures
      var nbits := 8 * n % TWO32;
      var high := AddW(count1, n / 0x2000_0000);
      var low := AddW(count0, nbits);
      low + TWO32 * (if low < nbits then AddW(high, 1) else high) == 8 * (length + n) % TWO64
  {
    BitsSplit(n);
    CarryIntoHigh(count0, count1, 8 * length, n / 0x2000_0000, 8 * n % TWO32);
  }

  lemma CarryIntoHigh(count0: Word, count1: Word, bits: nat, h: Word, nbits: Word)
    requires count0 + TWO32 * count1 == bits % TWO64
    ensures
      var high := AddW(count1, h);
      var low := AddW(count0, nbits);
      low + TWO32 * (if low < nbits then AddW(high, 1) else high) == (bits + TWO32 * h + nbits) % TWO64
  {
    var high, low := AddW(count1, h), AddW(count0, nbits);
    AddSplits(count0, nbits);
    AddSplits(count1, h);
    AddSplits(high, 1);
    var e := (if count1 + h >= TWO32 then 1 else 0) + (if low < nbits && high == TWO32 - 1 then 1 else 0);
    ModTwo64(bits + TWO32 * h + nbits, bits / TWO64 + e,
             low + TWO32 * (if low < nbits then AddW(high, 1) else high));
  }

  /** The low count word gives the number of bytes modulo 64. */
  lemma OffsetOfCount(count0: Word, count1: Word, length: nat) returns (k: nat)
    requires count0 + TWO32 * count1 == 8 * length % TWO64
    ensures count0 / 8 == length - 64 * k
  {
    k := 8 * length / TWO64 * (TWO64 / 512) + count1 * (TWO32 / 512);
    assert count0 == 8 * (length - 64 * k);
  }

  lemma ModMultiple(length: nat, k: nat)
    requires length >= 64 * k
    ensures (length - 64 * k) % 64 == length % 64
  {
  }

  /** Where the full blocks end. */
  lemma SplitAt(whole: seq<Byte>, q: nat)
    requires q <= |whole| < q + BLOCK && q % BLOCK == 0
    ensures FullBlocks(whole) == whole[..q] && Tail(whole) == whole[q..]
  {
  }

  lemma StillPartial(message: seq<Byte>, more: seq<Byte>)
    requires |message| % BLOCK + |more| < BLOCK
    ensures FullBlocks(message + more) == FullBlocks(message)
    ensures Tail(message + more) == Tail(message) + more
  {
    SplitAt(message + more, |message| - |message| % BLOCK);
  }

  lemma FirstFull(m: seq<Byte>, more: seq<Byte>)
    requires |m| % BLOCK + |more| == BLOCK
    ensures (|m| + |more|) % BLOCK == 0
    ensures m + more == FullBlocks(m) + (Tail(m) + more)
  {
  }

  lemma OneMoreBlock(m: seq<Byte>, data: seq<Byte>, p: nat)
    requires p + 64 <= |data|
    ensures m + data[..p + 64] == m + data[..p] + data[p..p + 64]
  {
  }

  const PAD: seq<Byte> := [0x80] + seq(63, _ => 0)

  /** abcd[k] of the state. */
  function Nth(r: Regs, k: nat): Word {
    match k
    case 0 => r.a
    case 1 => r.b
    case 2 => r.c
    case _ => r.d
  }

  lemma ShrNone(w: Word)
    ensures Shr(w, 0) == w
  {
  }

  lemma ShrByte(w: Word, n: nat)
    ensures Shr(w, n + 8) == Shr(w, n) / 0x100
  {
    var y := Shr(w, n);
    assert Shr(w, n + 2) == y / 2 / 2;
    assert Shr(w, n + 4) == y / 2 / 2 / 2 / 2;
    assert Shr(w, n + 6) == y / 2 / 2 / 2 / 2 / 2 / 2;
  }

  /** The byte a shift and a cast cut out of a word is that of its little-endian form. */
  lemma {:induction false} WordByte(w: Word, x: nat, j: nat, n: nat)
    requires j < n <= 4 && x == Shr(w, 8 * (4 - n))
    ensures Shr(w, 8 * (4 - n + j)) % 256 == LittleEndian(x, n)[j]
    decreases n
  {
    if j > 0 {
      ShrByte(w, 8 * (4 - n));
      WordByte(w, x / 256, j - 1, n - 1);
    }
  }

  lemma {:induction false} LittleEndianJoins(low: nat, high: nat, k: nat, m: nat)
    requires low < Pow2(8 * k)
    ensures LittleEndian(low + Pow2(8 * k) * high, k + m) == LittleEndian(low, k) + LittleEndian(high, m)
  {
    hide Pow2, LittleEndian;
    if k == 0 {
      Pow2Step(0);
      NoBytes(low);
    } else {
      var p := Pow2(8 * (k - 1));
      Pow2Sum(8, 8 * (k - 1));
      Pow2Of8();
      var ph := p * high;
      Times256(Pow2(8 * k), p, high);
      JoinStep(low, ph);
      LittleEndianJoins(low / 256, high, k - 1, m);
      OneByte(low + 256 * ph, k + m);
      OneByte(low, k);
    }
  }

  lemma Times256(q: nat, p: nat, high: nat)
    requires q == 256 * p
    ensures q * high == 256 * (p * high)
  {
  }

  lemma JoinStep(low: nat, ph: nat)
    ensures (low + 256 * ph) % 256 == low % 256
    ensures (low + 256 * ph) / 256 == low / 256 + ph
  {
  }

  lemma NoBytes(x: nat)
    ensures LittleEndian(x, 0) == []
  {
  }

  lemma OneByte(x: nat, n: nat)
    requires n > 0
    ensures LittleEndian(x, n) == [x % 256] + LittleEndian(x / 256, n - 1)
  {
  }

  lemma CountWords(count0: Word, count1: Word, length: nat)
    requires count0 + TWO32 * count1 == 8 * length % TWO64
    ensures LengthBytes(length) == LittleEndian(count0, 4) + LittleEndian(count1, 4)
  {
    assert Pow2(8 * 4) == TWO32 by {
      Pow2Of32();
    }
    LittleEndianJoins(count0, count1, 4, 4);
  }

  lemma ByteOfTwoWords(w0: Word, w1: Word, i: nat)
    requires i < 8
    ensures Shr(if i < 4 then w0 else w1, 8 * (i % 4)) % 256 == (LittleEndian(w0, 4) + LittleEndian(w1, 4))[i]
  {
    hide LittleEndian, Shr;
    var w := if i < 4 then w0 else w1;
    ShrNone(w);
    WordByte(w, w, i % 4, 4);
  }

  lemma OutputByte(r: Regs, i: nat)
    requires i < 16
    ensures Shr(Nth(r, i / 4), 8 * (i % 4)) % 256 == Output(r)[i]
  {
    hide LittleEndian, Shr;
    ShrNone(Nth(r, i / 4));
    WordByte(Nth(r, i / 4), Nth(r, i / 4), i % 4, 4);
  }

  lemma PadCount(count0: Word, count1: Word, length: nat)
    requires count0 + TWO32 * count1 == 8 * length % TWO64
    ensures (55 - count0 / 8) % TWO32 % 64 == ZeroCount(length)
  {
    var k := OffsetOfCount(count0, count1, length);
    ModNegated(count0 / 8, length, k);
  }

  lemma ModNegated(s: Word, length: nat, k: nat)
    requires s == length - 64 * k
    ensures (55 - s) % TWO32 % 64 == (55 - length) % 64
  {
    assert (55 - s) % TWO32 == if s <= 55 then 55 - s else 55 - s + TWO32;
  }

  /** The sum of two ints, which wraps round. */
  function IntSum(x: int, y: int): int {
    if x + y >= TWO31 then x + y - TWO32 else x + y
  }

  /** How much of a chunk is copied into a buffer that holds offset bytes. */
  function CopyLength(offset: nat, nbytes: nat): int {
    if IntSum(offset, nbytes) > 64 then 64 - offset else nbytes
  }

  /** The copy fits the buffer exactly if the sum does not wrap; behind one byte the largest chunk is too long. */
  lemma CopyFitsExactly(offset: nat, nbytes: nat)
    requires 0 < offset < 64 && 0 < nbytes < TWO31
    ensures offset + CopyLength(offset, nbytes) <= 64 <==> offset + nbytes < TWO31
    ensures CopyLength(1, TWO31 - 1) == TWO31 - 1
  {
  }

  lemma WholeIsFull(m: seq<Byte>, data: seq<Byte>)
    requires |m| % BLOCK == 0
    ensures FullBlocks(m) == m == m + data[..0]
  {
  }

  /** The two count words hold the length in bits, mod 2^64. */
  predicate Counted(count0: Word, count1: Word, length: nat) {
    count0 + TWO32 * count1 == 8 * length % TWO64
  }

  class State {
    var count0: Word
    var count1: Word
    var abcd: Regs
    const buf: array<Byte>
    ghost var message: seq<Byte>
    ghost const fold: seq<Byte> -> Regs

    /** The registers and the buffer after message m: full blocks folded, the rest waiting. */
    ghost predicate Holds(m: seq<Byte>)
      reads this, buf
    {
      && Folds(fold)
      && buf.Length == BLOCK
      && abcd == fold(FullBlocks(m))
      && buf[..|m| % BLOCK] == Tail(m)
    }

    ghost predicate Valid()
      reads this, buf
    {
      && Counted(count0, count1, |message|)
      && Holds(message)
    }

    constructor Init()
      ensures Valid() && fresh(buf) && message == []
    {
      count0, count1 := 0, 0;
      abcd := Regs(0x67452301, NotW(0x10325476), NotW(0x67452301), 0x10325476);
      buf := new Byte[64];
      message := [];
      fold := (m: seq<Byte>) => if |m| % BLOCK == 0 then Fold(INITIAL, m) else INITIAL;
    }

    method Process(data: Chunk, ghost m: seq<Byte>)
      requires Folds(fold) && |m| % BLOCK == 0 && abcd == fold(m)
      modifies this`abcd
      ensures abcd == fold(m + data)
    {
      FoldBlock(fold, m, data);
      var x := Md5Block.Load(data);
      var r := Md5Block.Rounds(x, abcd);
      abcd := Regs(AddW(abcd.a, r.a), AddW(abcd.b, r.b), AddW(abcd.c, r.c), AddW(abcd.d, r.d));
    }

    /** The message length in bits. */
    method AddLength(nbytes: nat)
      requires nbytes < TWO31 && Counted(count0, count1, |message|)
      modifies this`count0, this`count1
      ensures Counted(count0, count1, |message| + nbytes)
    {
      var nbits := nbytes * 8 % TWO32;
      CountAdvances(count0, count1, |message|, nbytes);
      count1 := AddW(count1, nbytes / 0x2000_0000);
      count0 := AddW(count0, nbits);
      if count0 < nbits {
        count1 := AddW(count1, 1);
      }
    }

    /** The fill of the buffer, from the low count word. */
    method Offset() returns (offset: nat)
      requires Counted(count0, count1, |message|)
      ensures offset == |message| % BLOCK
    {
      offset := count0 / 8 % 64;
      ghost var k := OffsetOfCount(count0, count1, |message|);
      ModMultiple(|message|, k);
    }

    method Append(data: seq<Byte>, nbytes: int)
      requires Valid() && nbytes <= |data| && |message| % BLOCK + nbytes < TWO31
      modifies this, buf
      ensures Valid()
      ensures message == old(message) + (if nbytes <= 0 then [] else data[..nbytes])
    {
      hide Folds, FullBlocks, Tail, Counted;
      var offset := Offset();
      if nbytes <= 0 {
        return;
      }
      AddLength(nbytes);
      var p := 0;
      ghost var m := message;
      message := m + data[..nbytes];
      if offset != 0 {
        p := FillBuffer(offset, m, data, nbytes);
        if offset + p < 64 {
          return;
        }
      } else {
        WholeIsFull(m, data);
      }
      p := ProcessBlocks(m, data, p, nbytes);
      KeepRest(m, data, p, nbytes);
    }

    /** An initial partial block. */
    method FillBuffer(offset: nat, ghost m: seq<Byte>, data: seq<Byte>, nbytes: nat) returns (copy: nat)
      requires Holds(m) && nbytes <= |data| && offset == |m| % BLOCK && offset != 0 && offset + nbytes < TWO31
      modifies this`abcd, buf
      ensures copy <= nbytes
      ensures offset + copy < 64 ==> copy == nbytes && Holds(m + data[..nbytes])
      ensures offset + copy >= 64 ==> (|m| + copy) % BLOCK == 0
      ensures offset + copy >= 64 ==> abcd == fold(m + data[..copy])
    {
      copy := CopyLength(offset, nbytes);
      Copy(offset, data[..copy]);
      assert buf[..offset + copy] == Tail(m) + data[..copy];
      if offset + copy < 64 {
        StillPartial(m, data[..copy]);
      } else {
        FirstFull(m, data[..copy]);
        assert buf[..] == buf[..offset + copy];
        Process(buf[..], FullBlocks(m));
      }
    }

    /** The full blocks. */
    method ProcessBlocks(ghost m: seq<Byte>, data: seq<Byte>, start: nat, nbytes: nat) returns (p: nat)
      requires start <= nbytes <= |data| && Folds(fold)
      requires (|m| + start) % BLOCK == 0 && abcd == fold(m + data[..start])
      modifies this`abcd
      ensures p <= nbytes < p + BLOCK && (|m| + p) % BLOCK == 0
      ensures abcd == fold(m + data[..p])
    {
      p := start;
      var left := nbytes - start;
      while left >= 64
        invariant 0 <= left && p + left == nbytes
        invariant (|m| + p) % BLOCK == 0
        invariant abcd == fold(m + data[..p])
      {
        OneMoreBlock(m, data, p);
        Process(data[p..p + 64], m + data[..p]);
        p := p + 64;
        left := left - 64;
      }
    }

    /** The final partial block. */
    method KeepRest(ghost m: seq<Byte>, data: seq<Byte>, p: nat, nbytes: nat)
      requires p <= nbytes <= |data| && nbytes < p + BLOCK && buf.Length == BLOCK && Folds(fold)
      requires (|m| + p) % BLOCK == 0 && abcd == fold(m + data[..p])
      modifies buf
      ensures Holds(m + data[..nbytes])
    {
      if p < nbytes {
        Copy(0, data[p..nbytes]);
      }
      ghost var whole := m + data[..nbytes];
      SplitAt(whole, |m| + p);
      assert whole[..|m| + p] == m + data[..p];
      assert buf[..nbytes - p] == data[p..nbytes] == whole[|m| + p..];
    }

    /** The padding length: 1 to 64 bytes, up to 56 modulo 64. */
    method PadLength() returns (n: nat)
      requires Counted(count0, count1, |message|)
      ensures n == ZeroCount(|message|) + 1 && 1 <= n <= 64
    {
      n := (55 - count0 / 8) % TWO32 % 64 + 1;
      PadCount(count0, count1, |message|);
    }

    /** The length before padding, low-order byte first. */
    method EncodeLength() returns (data: seq<Byte>)
      requires Counted(count0, count1, |message|)
      ensures data == LengthBytes(|message|)
    {
      CountWords(count0, count1, |message|);
      ghost var length := LittleEndian(count0, 4) + LittleEndian(count1, 4);
      var bytes := new Byte[8];
      var i := 0;
      while i < 8
        invariant 0 <= i <= 8
        invariant forall j :: 0 <= j < i ==> bytes[j] == length[j]
      {
        ByteOfTwoWords(count0, count1, i);
        bytes[i] := Shr(if i < 4 then count0 else count1, 8 * (i % 4)) % 256;
        i := i + 1;
      }
      data := bytes[..];
    }

    method Finish(digest: array<Byte>)
      requires Valid() && digest.Length == 16 && digest != buf
      modifies this, buf, digest
      ensures digest[..] == Digest(old(message))
    {
      var data := EncodeLength();
      var n := PadLength();
      ghost var m := message;
      Append(PAD, n);
      Append(data, 8);
      assert message == Padded(m) by {
        assert data[..8] == data;
        assert PAD[..n] == [0x80] + Zeros(n - 1);
      }
      PaddedLength(m);
      assert FullBlocks(message) == message;
      assert fold(message) == Fold(INITIAL, message);
      WriteDigest(digest);
    }

    /** memcpy into the buffer. */
    method Copy(offset: nat, bytes: seq<Byte>)
      requires offset + |bytes| <= buf.Length
      modifies buf
      ensures buf[..] == old(buf[..offset]) + bytes + old(buf[offset + |bytes|..])
    {
      var i := 0;
      while i < |bytes|
        invariant 0 <= i <= |bytes|
        invariant forall j :: 0 <= j < i ==> buf[offset + j] == bytes[j]
        invariant forall j :: 0 <= j < buf.Length && (j < offset || j >= offset + i) ==> buf[j] == old(buf[j])
      {
        buf[offset + i] := bytes[i];
        i := i + 1;
      }
    }

    method WriteDigest(digest: array<Byte>)
      requires digest.Length == 16
      modifies digest
      ensures digest[..] == Output(abcd)
    {
      var i := 0;
      while i < 16
        invariant 0 <= i <= 16
        invariant forall j :: 0 <= j < i ==> digest[j] == Output(abcd)[j]
      {
        OutputByte(abcd, i);
        digest[i] := Shr(Nth(abcd, i / 4), 8 * (i % 4)) % 256;
        i := i + 1;
      }
    }
  }

  function Concat(chunks: seq<seq<Byte>>): seq<Byte> {
    if chunks == [] then [] else Concat(chunks[..|chunks| - 1]) + chunks[|chunks| - 1]
  }

  /** The digest of one buffer. */
  method Hash(bytes: seq<Byte>) returns (digest: array<Byte>)
    requires |bytes| < TWO31
    ensures fresh(digest) && digest.Length == 16 && digest[..] == Digest(bytes)
  {
    digest := new Byte[16];
    var state := new State.Init();
    state.Append(bytes, |bytes|);
    assert state.message == bytes;
    state.Finish(digest);
  }

  /** No chunk comes within its offset in the buffer of the range of an int. */
  predicate InRange(chunks: seq<seq<Byte>>) {
    forall i :: 0 <= i < |chunks| ==> |Concat(chunks[..i])| % BLOCK + |chunks[i]| < TWO31
  }

  /** However a message is cut into chunks, the digest is that of RFC 1321. */
  method HashChunks(chunks: seq<seq<Byte>>) returns (digest: array<Byte>)
    requires InRange(chunks)
    ensures digest.Length == 16 && digest[..] == Digest(Concat(chunks))
  {
    digest := new Byte[16];
    var state := new State.Init();
    var i := 0;
    while i < |chunks|
      invariant 0 <= i <= |chunks|
      invariant state.Valid() && state.message == Concat(chunks[..i]) && state.buf != digest
    {
      state.Append(chunks[i], |chunks[i]|);
      assert chunks[i][..|chunks[i]|] == chunks[i];
      assert chunks[..i + 1][..i] == chunks[..i];
      i := i + 1;
    }
    assert chunks[..i] == chunks;
    state.Finish(digest);
  }
}
