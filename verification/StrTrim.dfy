/** Trimming a string by copying it, also onto itself. */
module StrTrim {
  import opened Text
  import opened CharSet
  import opened CBuffer

  /** Where the run of the characters that starts at a place ends. */
  function RunEnd(t: string, chars: string, from: nat): (i: nat)
    requires from <= |t|
    ensures from <= i <= |t| && (forall k :: from <= k < i ==> t[k] in chars) && (i < |t| ==> t[i] !in chars)
    decreases |t| - from
  {
    if from == |t| || t[from] !in chars then from else RunEnd(t, chars, from + 1)
  }

  /** Where the run of the characters that ends at a place starts. */
  function RunStart(t: string, chars: string, end: nat): (j: nat)
    requires end <= |t|
    ensures j <= end && (forall k :: j <= k < end ==> t[k] in chars) && (j > 0 ==> t[j - 1] !in chars)
  {
    if end == 0 || t[end - 1] !in chars then end else RunStart(t, chars, end - 1)
  }

  function DropLead(t: CString, chars: string): CString {
    SliceIsText(t, RunEnd(t, chars, 0));
    t[RunEnd(t, chars, 0)..]
  }

  function DropTail(t: CString, chars: string): CString {
    SliceIsText(t, RunStart(t, chars, |t|));
    t[..RunStart(t, chars, |t|)]
  }

  /** trim < 0 for the prefix, 0 for both, > 0 for the suffix. */
  function Trimmed(t: CString, chars: string, trim: int): CString {
    var r := if trim <= 0 then DropLead(t, chars) else t;
    if trim >= 0 then DropTail(r, chars) else r
  }

  /** t[i..j] is t without a run of the characters on each side that is trimmed, and the runs are as long as can be. */
  predicate Cut(t: string, chars: string, trim: int, i: nat, j: nat) {
    && i <= j <= |t|
    && (forall k :: 0 <= k < i ==> t[k] in chars) && (forall k :: j <= k < |t| ==> t[k] in chars)
    && (trim > 0 ==> i == 0) && (trim < 0 ==> j == |t|)
    && (trim <= 0 && i < j ==> t[i] !in chars) && (trim >= 0 && i < j ==> t[j - 1] !in chars)
  }

  /** The result is cut out of the string where the maximal runs end. */
  lemma TrimmedIsCut(t: CString, chars: string, trim: int)
    ensures exists i: nat, j: nat :: Cut(t, chars, trim, i, j) && Trimmed(t, chars, trim) == t[i..j]
  {
    hide RunEnd, RunStart, IsCString;
    var i := if trim <= 0 then RunEnd(t, chars, 0) else 0;
    SliceIsText(t, i);
    var r := t[i..];
    var n := if trim >= 0 then RunStart(r, chars, |r|) else |r|;
    assert t[0..] == t;
    CutsCompose(t, chars, trim, i, n);
    assert Trimmed(t, chars, trim) == r[..n];
  }

  /** A cut in front and one behind make a cut. */
  lemma CutsCompose(t: string, chars: string, trim: int, i: nat, n: nat)
    requires i <= |t| && n <= |t| - i
    requires if trim <= 0 then Cut(t, chars, -1, i, |t|) else i == 0
    requires if trim >= 0 then Cut(t[i..], chars, 1, 0, n) else n == |t| - i
    ensures Cut(t, chars, trim, i, i + n) && t[i..i + n] == t[i..][..n]
  {
    assert forall k :: i <= k < |t| ==> t[k] == t[i..][k - i];
  }

  /** No other cut ends where the maximal runs end. */
  lemma CutOnce(t: string, chars: string, trim: int, i: nat, j: nat, i': nat, j': nat)
    requires Cut(t, chars, trim, i, j) && Cut(t, chars, trim, i', j')
    ensures t[i..j] == t[i'..j']
  {
    if i < j && i' < j' {
      assert i == i' && j == j';
    }
  }

  /** So wherever a cut is, it is what is left. */
  lemma TrimmedTo(t: CString, chars: string, trim: int, i: nat, j: nat)
    requires Cut(t, chars, trim, i, j)
    ensures Trimmed(t, chars, trim) == t[i..j]
  {
    hide Trimmed, IsCString;
    TrimmedIsCut(t, chars, trim);
    var a: nat, b: nat :| Cut(t, chars, trim, a, b) && Trimmed(t, chars, trim) == t[a..b];
    CutOnce(t, chars, trim, i, j, a, b);
  }

  /** What is trimmed has nothing left to trim. */
  lemma TrimmedTwice(t: CString, chars: string, trim: int)
    ensures Trimmed(Trimmed(t, chars, trim), chars, trim) == Trimmed(t, chars, trim)
  {
    hide Trimmed, IsCString;
    var r := Trimmed(t, chars, trim);
    TrimmedIsCut(t, chars, trim);
    TrimmedIsCut(r, chars, trim);
    var a: nat, b: nat :| Cut(t, chars, trim, a, b) && r == t[a..b];
    assert r != "" ==> r[0] == t[a] && r[|r| - 1] == t[b - 1];
    assert Cut(r, chars, trim, 0, |r|);
    var i: nat, j: nat :| Cut(r, chars, trim, i, j) && Trimmed(r, chars, trim) == r[i..j];
    CutOnce(r, chars, trim, i, j, 0, |r|);
  }

  // ----- On arrays -----

  ghost predicate Holds(tset: Table, chars: string)
    reads tset, tset.arr
  {
    tset.Valid() && '\0' !in chars && forall c :: IsByte(c) ==> (tset.Member(c) <==> c in chars)
  }

  /** i characters of t are in the set, and that is the whole run. */
  predicate LeadingRun(t: string, chars: string, i: nat) {
    i <= |t| && (forall k :: 0 <= k < i ==> t[k] in chars) && (i < |t| ==> t[i] !in chars)
  }

  lemma RunIsLead(t: CString, chars: string, i: nat)
    requires LeadingRun(t, chars, i)
    ensures DropLead(t, chars) == t[i..]
  {
    hide RunEnd, IsCString;
    assert RunEnd(t, chars, 0) == i;
  }

  /** The part of t that is left when the last characters from j on are all in the set, and that before is not. */
  lemma MarkIsTail(t: CString, chars: string, j: nat)
    requires j <= |t| && (forall k :: j <= k < |t| ==> t[k] in chars) && (j > 0 ==> t[j - 1] !in chars)
    ensures DropTail(t, chars) == t[..j]
  {
    hide RunStart, IsCString;
    assert RunStart(t, chars, |t|) == j;
  }

  method SkipLead(src: array<char>, s: nat, tset: Table, ghost t: CString, ghost chars: string) returns (p: nat)
    requires TextAt(src[..], s, t) && Holds(tset, chars)
    ensures s <= p && LeadingRun(t, chars, p - s)
  {
    p := s;
    while tset.Member(src[p])
      invariant s <= p <= s + |t| && forall k :: 0 <= k < p - s ==> t[k] in chars
      decreases s + |t| - p
    {
      TextChar(src[..], s, t, p - s);
      p := p + 1;
    }
    TextChar(src[..], s, t, p - s);
  }

  /** n characters of r have been copied to d, and the rest of it is still there to be read at p. */
  ghost predicate Copying(dst: string, d: nat, src: string, p: nat, r: CString, n: nat) {
    && n <= |r| && d + n <= |dst| && p + |r| - n < |src|
    && (forall k :: 0 <= k < n ==> dst[d + k] == r[k])
    && (forall i :: p <= i <= p + |r| - n ==> src[i] == if i - p + n < |r| then r[i - p + n] else '\0')
  }

  /** The mark is behind the last character copied that is not in the set. */
  ghost predicate Marks(r: CString, n: nat, chars: string, j: nat) {
    j <= n <= |r| && (forall k :: j <= k < n ==> r[k] in chars) && (j > 0 ==> r[j - 1] !in chars)
  }

  lemma CopyStarts(dst: string, d: nat, src: string, s: nat, r: CString)
    requires TextAt(src, s, r) && d + |r| < |dst|
    ensures Copying(dst, d, src, s, r, 0) && Outside(dst, dst, d, |r|)
  {
    forall k | 0 <= k <= |r|
      ensures src[s + k] == if k < |r| then r[k] else '\0'
    {
      TextChar(src, s, r, k);
    }
  }

  lemma CopyReads(dst: string, d: nat, src: string, p: nat, r: CString, n: nat)
    requires Copying(dst, d, src, p, r, n)
    ensures n <= |r| && p < |src| && src[p] == if n < |r| then r[n] else '\0'
    ensures src[p] == '\0' <==> n == |r|
    ensures IsByte(src[p])
  {
    if n < |r| {
      assert r[n] in r;
    }
  }

  /** One character more: the source is still there where it was not read, also if it is the same array. */
  lemma CopySteps(dst: string, d: nat, src: string, p: nat, r: CString, n: nat, src': string, was: string)
    requires Copying(dst, d, src, p, r, n) && n < |r| && d + |r| < |dst| && p < |src|
    requires src' == src || (src == dst && src' == dst[d + n := src[p]] && d + n <= p)
    requires Outside(dst, was, d, |r|)
    ensures Copying(dst[d + n := src[p]], d, src', p + 1, r, n + 1)
    ensures Outside(dst[d + n := src[p]], was, d, |r|)
  {
  }

  /** The copy is ended at the mark. */
  lemma CopyEnds(dst: string, d: nat, src: string, p: nat, r: CString, j: nat, was: string)
    requires Copying(dst, d, src, p, r, |r|) && j <= |r| && d + |r| < |dst| && Outside(dst, was, d, |r|)
    ensures TextAt(dst[d + j := '\0'], d, r[..j]) && Outside(dst[d + j := '\0'], was, d, |r|)
  {
    var now := dst[d + j := '\0'];
    assert now[d..d + j] == r[..j];
  }

  lemma MarkStarts(r: CString, chars: string)
    ensures Marks(r, 0, chars, 0)
  {
  }

  /** The mark stays where it is over a character of the set, and else goes behind it. */
  lemma MarkSteps(r: CString, n: nat, chars: string, j: nat)
    requires Marks(r, n, chars, j) && n < |r|
    ensures Marks(r, n + 1, chars, if r[n] in chars then j else n + 1)
  {
  }

  lemma MarkEnds(r: CString, chars: string, j: nat)
    requires Marks(r, |r|, chars, j)
    ensures j <= |r| && DropTail(r, chars) == r[..j]
  {
    MarkIsTail(r, chars, j);
  }

  method IsMember(tset: Table, c: char, ghost chars: string) returns (b: bool)
    requires Holds(tset, chars) && IsByte(c)
    ensures b <==> c in chars
  {
    b := tset.Member(c);
  }

  method CopyToMark(dst: array<char>, d: nat, src: array<char>, s: nat, tset: Table,
                    ghost r: CString, ghost chars: string)
    requires TextAt(src[..], s, r) && Holds(tset, chars) && d + |r| < dst.Length && (dst == src ==> d <= s)
    modifies dst
    ensures TextAt(dst[..], d, DropTail(r, chars)) && Outside(dst[..], old(dst[..]), d, |r|)
  {
    hide TextAt, Copying, Outside, DropTail, Marks, Holds;
    var p, q, mark := s, d, d;
    ghost var n, was := 0, dst[..];
    CopyStarts(dst[..], d, src[..], s, r);
    MarkStarts(r, chars);
    CopyReads(dst[..], d, src[..], p, r, n);
    while src[p] != '\0'
      invariant n <= |r| && p == s + n < src.Length && q == d + n && d <= mark
      invariant Copying(dst[..], d, src[..], p, r, n) && Marks(r, n, chars, mark - d)
      invariant Outside(dst[..], was, d, |r|) && Holds(tset, chars)
      decreases |r| - n
    {
      CopyReads(dst[..], d, src[..], p, r, n);
      ghost var before, source := dst[..], src[..];
      var c := src[p];
      dst[q] := c;
      assert dst[..] == before[d + n := source[p]];
      CopySteps(before, d, source, p, r, n, src[..], was);
      MarkSteps(r, n, chars, mark - d);
      p, q, n := p + 1, q + 1, n + 1;
      var member := IsMember(tset, c, chars);
      if !member {
        mark := q;
      }
      CopyReads(dst[..], d, src[..], p, r, n);
    }
    CopyReads(dst[..], d, src[..], p, r, n);
    MarkEnds(r, chars, mark - d);
    CopyEnds(dst[..], d, src[..], p, r, mark - d, was);
    ghost var copied := dst[..];
    dst[mark] := '\0';
    assert dst[..] == copied[d + (mark - d) := '\0'];
  }

  method CopyAll(dst: array<char>, d: nat, src: array<char>, s: nat, ghost r: CString)
    requires TextAt(src[..], s, r) && d + |r| < dst.Length && (dst == src ==> d <= s)
    modifies dst
    ensures TextAt(dst[..], d, r) && Outside(dst[..], old(dst[..]), d, |r|)
  {
    hide TextAt, Copying, Outside;
    var p, q := s, d;
    ghost var n, was := 0, dst[..];
    CopyStarts(dst[..], d, src[..], s, r);
    CopyReads(dst[..], d, src[..], p, r, n);
    while src[p] != '\0'
      invariant n <= |r| && p == s + n < src.Length && q == d + n
      invariant Copying(dst[..], d, src[..], p, r, n) && Outside(dst[..], was, d, |r|)
      decreases |r| - n
    {
      CopyReads(dst[..], d, src[..], p, r, n);
      ghost var before, source := dst[..], src[..];
      dst[q] := src[p];
      assert dst[..] == before[d + n := source[p]];
      CopySteps(before, d, source, p, r, n, src[..], was);
      p, q, n := p + 1, q + 1, n + 1;
      CopyReads(dst[..], d, src[..], p, r, n);
    }
    CopyReads(dst[..], d, src[..], p, r, n);
    CopyEnds(dst[..], d, src[..], p, r, n, was);
    ghost var copied := dst[..];
    dst[q] := src[p];
    assert dst[..] == copied[d + n := '\0'] && r[..n] == r;
  }

  /** strtrim, for separate buffers and for one that is trimmed in place. */
  method Trim(dst: array<char>, d: nat, src: array<char>, s: nat, trimChars: AsciiString, trim: int, ghost t: CString)
    requires TextAt(src[..], s, t) && d + |t| < dst.Length && (dst == src ==> d <= s)
    modifies dst
    ensures TextAt(dst[..], d, Trimmed(t, trimChars, trim)) && Outside(dst[..], old(dst[..]), d, |t|)
  {
    hide TextAt, DropTail, DropLead, Outside;
    var tset := new Table();
    tset.MkSet(trimChars);
    var p := s;
    if trim <= 0 {
      p := SkipLead(src, s, tset, t, trimChars);
      RunIsLead(t, trimChars, p - s);
    }
    assert t[0..] == t;
    TextFrom(src[..], s, t, p - s);
    ghost var r := t[p - s..];
    if trim >= 0 {
      CopyToMark(dst, d, src, p, tset, r, trimChars);
    } else {
      CopyAll(dst, d, src, p, r);
    }
    OutsideMore(dst[..], old(dst[..]), d, |r|, |t|);
  }

  lemma OutsideMore(now: string, before: string, d: nat, n: nat, m: nat)
    requires Outside(now, before, d, n) && n <= m
    ensures Outside(now, before, d, m)
  {
  }
}
