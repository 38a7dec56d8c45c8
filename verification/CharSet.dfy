/** Sets of characters as tables of 256 entries. */
module CharSet {
  import opened Text

  /** A string whose characters can index the table as they are: char is signed. */
  predicate IsAscii(s: string) { forall c :: c in s ==> c as int < 128 }

  type AsciiString = s: CString | IsAscii(s)

  class Table {
    const arr: array<nat>

    predicate Valid()
      reads this
    {
      arr.Length == 256
    }

    /** issetmem */
    predicate Member(c: char)
      requires Valid()
      reads this, arr
    {
      arr[c as int % 256] != 0
    }

    constructor ()
      ensures Valid() && fresh(arr)
    {
      arr := new nat[256];
    }

    method ClearSet()
      requires Valid()
      modifies arr
      ensures forall c :: !Member(c)
    {
      var i := 0;
      while i < 256
        invariant 0 <= i <= 256 && forall j :: 0 <= j < i ==> arr[j] == 0
      {
        arr[i] := 0;
        i := i + 1;
      }
    }

    method AddSet(c: char)
      requires Valid() && IsByte(c)
      modifies arr
      ensures forall x :: IsByte(x) ==> (Member(x) <==> x == c || old(Member(x)))
    {
      arr[c as int % 256] := 1;
    }

    /** The set of the characters of a string; NUL is never one of them. */
    method MkSet(s: AsciiString)
      requires Valid()
      modifies arr
      ensures forall c :: IsByte(c) ==> (Member(c) <==> c in s)
    {
      ClearSet();
      var i := 0;
      while i < |s|
        invariant 0 <= i <= |s|
        invariant forall c :: IsByte(c) ==> (Member(c) <==> c in s[..i])
      {
        assert s[..i + 1] == s[..i] + [s[i]] && s[i] in s;
        arr[s[i] as int] := 1;
        i := i + 1;
      }
      assert s[..i] == s;
    }
  }
}
