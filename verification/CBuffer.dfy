/** C strings in character buffers. */
module CBuffer {
  import opened Text

  /** The C string t is stored at place off. */
  predicate TextAt(a: string, off: nat, t: string) {
    off + |t| < |a| && a[off..off + |t|] == t && a[off + |t|] == '\0'
  }

  lemma TextChar(a: string, off: nat, t: CString, k: nat)
    requires TextAt(a, off, t) && k <= |t|
    ensures a[off + k] == (if k < |t| then t[k] else '\0') && IsByte(a[off + k])
    ensures a[off + k] == '\0' <==> k == |t|
  {
    if k < |t| {
      assert a[off..off + |t|][k] == a[off + k];
      assert t[k] in t;
    }
  }

  lemma TextFrom(a: string, off: nat, t: CString, k: nat)
    requires TextAt(a, off, t) && k <= |t|
    ensures IsCString(t[k..]) && TextAt(a, off + k, t[k..])
  {
    assert forall c :: c in t[k..] ==> c in t;
    assert a[off + k..off + |t|] == a[off..off + |t|][k..];
  }

  /** Everything outside of n + 1 places from d on is as it was. */
  ghost predicate Outside(now: string, before: string, d: nat, n: nat) {
    |now| == |before| && forall i :: 0 <= i < |now| && (i < d || i > d + n) ==> now[i] == before[i]
  }

  lemma TextFits(a: string, off: nat, t: string)
    requires TextAt(a, off, t)
    ensures off + |t| < |a|
  {
  }

  /** A text that lies apart from n + 1 places from d on is not touched by what happens there. */
  lemma TextStays(before: string, now: string, d: nat, n: nat, off: nat, t: string)
    requires Outside(now, before, d, n) && TextAt(before, off, t) && (d + n < off || off + |t| < d)
    ensures TextAt(now, off, t)
  {
    assert forall i :: off <= i <= off + |t| ==> now[i] == before[i];
    assert now[off..off + |t|] == before[off..off + |t|];
  }

  /** Writing a NUL over character k leaves two strings, before and behind it. */
  lemma TextSplits(a: string, off: nat, t: CString, k: nat)
    requires TextAt(a, off, t) && k <= |t|
    ensures IsCString(t[..k]) && TextAt(a[off + k := '\0'], off, t[..k])
    ensures k < |t| ==> IsCString(t[k + 1..]) && TextAt(a[off + k := '\0'], off + k + 1, t[k + 1..])
  {
    var now := a[off + k := '\0'];
    assert forall c :: c in t[..k] ==> c in t;
    assert now[off..off + k] == a[off..off + |t|][..k];
    if k < |t| {
      assert forall c :: c in t[k + 1..] ==> c in t;
      assert now[off + k + 1..off + |t|] == a[off..off + |t|][k + 1..];
    }
  }

  /** The C string at a place of a buffer. */
  method ReadText(a: array<char>, off: nat, ghost t: CString) returns (s: CString)
    requires TextAt(a[..], off, t)
    ensures s == t
  {
    var i := off;
    while a[i] != '\0'
      invariant off <= i <= off + |t| < a.Length
      decreases off + |t| - i
    {
      TextChar(a[..], off, t, i - off);
      i := i + 1;
    }
    TextChar(a[..], off, t, i - off);
    assert a[off..i] == a[..][off..off + |t|];
    s := a[off..i];
  }
}
