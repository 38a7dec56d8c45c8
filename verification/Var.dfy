/** Variables: assignment to a symbol table in place, and substitution into a buffer. */
module Var {
  import opened Text
  import opened Symbols
  import opened CBuffer
  import opened StrTrim
  import opened Subst

  // ----- Substitution -----

  const VBUF: nat := 256

  predicate Fits(m: Mode) {
    m.Naming? ==> |m.name| < VBUF
  }

  /** The variable names of the text are shorter than the buffer for them. */
  predicate NamesFit(s: string) {
    forall i :: 0 <= i <= |s| ==> Fits(ModeAfter(Copy, s[..i]))
  }

  method StrCpy(buf: array<char>, d: nat, s: string)
    requires d + |s| <= buf.Length
    modifies buf
    ensures buf[..d + |s|] == old(buf[..d]) + s
  {
    var i := 0;
    while i < |s|
      invariant 0 <= i <= |s| && buf[..d + i] == old(buf[..d]) + s[..i]
    {
      buf[d + i] := s[i];
      i := i + 1;
    }
  }

  /** The end of a variable name: its value, and the character that ended it. */
  method EndName(symtab: Symbol?, cbuf: array<char>, d: nat, name: CString, c: char, ghost nodes: seq<Symbol>)
    returns (end: nat)
    requires IsTable(symtab, nodes)
    requires d + |Lookup(Contents(nodes), name)| < cbuf.Length
    modifies cbuf
    ensures end <= cbuf.Length && cbuf[..end] == old(cbuf[..d]) + Lookup(Contents(nodes), name) + [c]
  {
    hide Contents, Current, First, IsTable, Next;
    end := d;
    ghost var value := Lookup(Contents(nodes), name);
    var sp, i := SymLookup(symtab, name, nodes);
    if sp != null {
      StrCpy(cbuf, end, sp.value);
      end := end + |sp.value|;
    }
    cbuf[end] := c;
    end := end + 1;
  }

  function ModeOf(esc: bool, naming: bool, name: string): Mode {
    if esc then Escaped else if naming then Naming(name) else Copy
  }

  /** One character of varsubst, in the mode that the flags say. */
  method Feed(symtab: Symbol?, cbuf: array<char>, d: nat, c: char, esc: bool, naming: bool, vbuf: array<char>, v: nat,
              ghost nodes: seq<Symbol>)
    returns (d': nat, esc': bool, naming': bool, v': nat)
    requires IsTable(symtab, nodes) && vbuf.Length == VBUF && v <= VBUF && cbuf != vbuf && IsName(vbuf[..v])
    requires !(esc && naming)
    requires var m := ModeOf(esc, naming, vbuf[..v]);
      Fits(m) && d + |Emit(Contents(nodes), m, c)| <= cbuf.Length
    modifies cbuf, vbuf
    ensures !(esc' && naming') && v' <= VBUF && IsName(vbuf[..v']) && d' <= cbuf.Length
    ensures var m := ModeOf(esc, naming, old(vbuf[..v]));
      && ModeOf(esc', naming', vbuf[..v']) == Turn(m, c)
      && cbuf[..d'] == old(cbuf[..d]) + Emit(Contents(nodes), m, c)
  {
    hide Contents, IsTable, Lookup;
    d', esc', naming', v' := d, esc, naming, v;
    if esc {
      cbuf[d] := c;
      d', esc' := d + 1, false;
    } else if naming {
      if IsNameChar(c) {
        vbuf[v] := c;
        v' := v + 1;
      } else {
        d' := EndName(symtab, cbuf, d, vbuf[..v], c, nodes);
        naming' := false;
      }
    } else {
      match c {
        case '\\' => esc' := true;
        case '$' => naming', v' := true, 0;
        case _ =>
          cbuf[d] := c;
          d' := d + 1;
      }
    }
  }

  /** varsubst */
  method VarSubst(symtab: Symbol?, cbuf: array<char>, rbuf: CString, ghost nodes: seq<Symbol>)
    requires IsTable(symtab, nodes) && NamesFit(rbuf) && |Expand(Contents(nodes), rbuf)| < cbuf.Length
    modifies cbuf
    ensures TextAt(cbuf[..], 0, Expand(Contents(nodes), rbuf))
  {
    hide Contents, IsTable, Emit, Turn, WrittenSoFar, Expand, NamesFit, Fits;
    ghost var table, text := Contents(nodes), rbuf + "\0";
    var vbuf := new char[VBUF];
    var s: nat, d: nat, v: nat := 0, 0, 0;
    var esc, naming := false, false;
    NulFlushes(table, rbuf);
    NothingYet(table);
    while s <= |rbuf|
      invariant 0 <= s <= |rbuf| + 1 && d <= cbuf.Length && v <= VBUF && IsName(vbuf[..v]) && !(esc && naming)
      invariant cbuf[..d] == WrittenSoFar(table, Copy, text[..s])
      invariant ModeOf(esc, naming, vbuf[..v]) == ModeAfter(Copy, text[..s])
      invariant Contents(nodes) == table && IsTable(symtab, nodes)
    {
      var c := if s < |rbuf| then rbuf[s] else '\0';
      NextFits(table, rbuf, s);
      d, esc, naming, v := Feed(symtab, cbuf, d, c, esc, naming, vbuf, v, nodes);
      s := s + 1;
    }
    assert text[..s] == text;
    assert cbuf[..d] == Expand(table, rbuf) + "\0";
    assert cbuf[..][0..d - 1] == Expand(table, rbuf) && cbuf[..][d - 1] == cbuf[..d][d - 1];
  }

  lemma NothingYet(table: Bindings)
    ensures WrittenSoFar(table, Copy, "") == "" && ModeAfter(Copy, "") == Copy
  {
  }

  /** There is room for what the next character writes. */
  lemma NextFits(table: Bindings, s: string, i: nat)
    requires i <= |s| && NamesFit(s)
    ensures
      var text := s + "\0";
      var m := ModeAfter(Copy, text[..i]);
      && Fits(m) && ModeAfter(Copy, text[..i + 1]) == Turn(m, text[i])
      && WrittenSoFar(table, Copy, text[..i + 1]) == WrittenSoFar(table, Copy, text[..i]) + Emit(table, m, text[i])
      && |WrittenSoFar(table, Copy, text[..i + 1])| <= |Expand(table, s)| + 1
  {
    hide Emit, Turn, Expand, Fits;
    var text := s + "\0";
    var m := ModeAfter(Copy, text[..i]);
    assert text[..i] == s[..i];
    assert text[..i + 1] == text[..i] + [text[i]] && text == text[..i + 1] + text[i + 1..];
    SoFarJoins(table, Copy, text[..i], [text[i]]);
    SoFarJoins(table, Copy, text[..i + 1], text[i + 1..]);
    NulFlushes(table, s);
    OneWritten(table, m, text[i]);
  }

  // ----- Assignment -----

  const WHITESPACE: string := " \t"

  /** strrchr: the last place of a character. */
  function LastOf(t: string, c: char): (k: nat)
    requires c in t
    ensures k < |t| && t[k] == c && forall i :: k < i < |t| ==> t[i] != c
  {
    if t[|t| - 1] == c then |t| - 1
    else
      assert t == t[..|t| - 1] + [t[|t| - 1]];
      LastOf(t[..|t| - 1], c)
  }

  lemma LastIs(t: string, c: char, k: nat)
    requires k < |t| && t[k] == c && forall i :: k < i < |t| ==> t[i] != c
    ensures c in t && LastOf(t, c) == k
  {
  }

  /** The name and the value that an assignment string stands for. */
  function NameOf(t: CString): CString
    requires '=' in t
  {
    assert forall c :: c in t[..LastOf(t, '=')] ==> c in t;
    Trimmed(t[..LastOf(t, '=')], WHITESPACE, 0)
  }

  function ValueOf(t: CString): CString
    requires '=' in t
  {
    assert forall c :: c in t[LastOf(t, '=') + 1..] ==> c in t;
    Trimmed(t[LastOf(t, '=') + 1..], WHITESPACE, 0)
  }

  method StrRChr(a: array<char>, c: char, ghost t: CString) returns (last: int)
    requires TextAt(a[..], 0, t) && c != '\0'
    ensures if c in t then last == LastOf(t, c) else last == -1
  {
    last := -1;
    var i := 0;
    TextChar(a[..], 0, t, 0);
    while a[i] != '\0'
      invariant 0 <= i <= |t| && -1 <= last < i
      invariant last >= 0 ==> t[last] == c
      invariant forall j :: last < j < i ==> t[j] != c
      decreases |t| - i
    {
      TextChar(a[..], 0, t, i);
      if a[i] == c {
        last := i;
      }
      i := i + 1;
      TextChar(a[..], 0, t, i);
    }
    TextChar(a[..], 0, t, i);
    if last >= 0 {
      LastIs(t, c, last);
    }
  }

  /** Both parts of the buffer are trimmed where they stand. */
  method TrimParts(abuf: array<char>, sp: nat, vp: nat, ghost n: CString, ghost v: CString)
    returns (name: CString, value: CString)
    requires sp + |n| < vp && TextAt(abuf[..], sp, n) && TextAt(abuf[..], vp, v)
    modifies abuf
    ensures name == Trimmed(n, WHITESPACE, 0) && value == Trimmed(v, WHITESPACE, 0)
  {
    hide TextAt, Outside;
    ghost var before := abuf[..];
    TextFits(abuf[..], sp, n);
    TextFits(abuf[..], vp, v);
    Trim(abuf, sp, abuf, sp, WHITESPACE, 0, n);
    ghost var half := abuf[..];
    TextStays(before, half, sp, |n|, vp, v);
    Trim(abuf, vp, abuf, vp, WHITESPACE, 0, v);
    TextStays(half, abuf[..], vp, |v|, sp, Trimmed(n, WHITESPACE, 0));
    name := ReadText(abuf, sp, Trimmed(n, WHITESPACE, 0));
    value := ReadText(abuf, vp, Trimmed(v, WHITESPACE, 0));
  }

  /** _varassign: both parts are trimmed, then the symbol is replaced or added. */
  method VarAssignParts(symtab: Symbol?, abuf: array<char>, sp: nat, vp: nat, ghost n: CString, ghost v: CString,
                        ghost nodes: seq<Symbol>)
    returns (rc: int, head: Symbol?, ghost all: seq<Symbol>)
    requires IsTable(symtab, nodes)
    requires sp + |n| < vp && TextAt(abuf[..], sp, n) && TextAt(abuf[..], vp, v)
    modifies abuf, nodes
    ensures IsTable(head, all)
    ensures var name, value := Trimmed(n, WHITESPACE, 0), Trimmed(v, WHITESPACE, 0);
      && Contents(all) == Assigned(old(Contents(nodes)), name, value)
      && rc == if name == "" && !Defined(old(Contents(nodes)), name) then -1 else 0
  {
    hide Contents, IsTable, Assigned, Defined, TextAt, Trimmed;
    var name, value := TrimParts(abuf, sp, vp, n, v);
    rc, head, all := Assign(symtab, name, value, nodes);
  }

  /** varassign: the string is split at its last equal sign. */
  method VarAssign(symtab: Symbol?, abuf: array<char>, ghost t: CString, ghost nodes: seq<Symbol>)
    returns (rc: int, head: Symbol?, ghost all: seq<Symbol>)
    requires IsTable(symtab, nodes) && TextAt(abuf[..], 0, t) && '=' in t
    modifies abuf, nodes
    ensures IsTable(head, all) && Contents(all) == Assigned(old(Contents(nodes)), NameOf(t), ValueOf(t))
    ensures rc == if NameOf(t) == "" && !Defined(old(Contents(nodes)), "") then -1 else 0
  {
    hide Contents, IsTable, Assigned, Defined, Trimmed, TextAt;
    var k := StrRChr(abuf, '=', t);
    TextFits(abuf[..], 0, t);
    TextSplits(abuf[..], 0, t, k);
    ghost var before := abuf[..];
    abuf[k] := '\0';
    assert abuf[..] == before[k := '\0'];
    rc, head, all := VarAssignParts(symtab, abuf, 0, k + 1, t[..k], t[k + 1..], nodes);
  }

  predicate Blank(s: string) {
    forall c :: c in s ==> c == ' ' || c == '\t'
  }

  predicate Bare(s: string) {
    s != "" ==> !Blank([s[0]]) && !Blank([s[|s| - 1]])
  }

  /** The name and the value are what stands before and behind the last equal sign, without the blanks around them. */
  lemma AssignmentParts(t: CString, a: CString, name: CString, b: CString, c: CString, value: CString, d: CString)
    requires t == a + name + b + "=" + (c + value + d) && Blank(a) && Blank(b) && Blank(c) && Blank(d)
    requires Bare(name) && Bare(value) && '=' !in value
    ensures '=' in t && NameOf(t) == name && ValueOf(t) == value
  {
    hide Trimmed, LastOf;
    var k := |a + name + b|;
    var left: CString, right: CString := a + name + b, c + value + d;
    assert t[k] == '=' && t[..k] == left && t[k + 1..] == right;
    forall i | k < i < |t|
      ensures t[i] != '='
    {
      assert t[i] == right[i - k - 1];
      assert right[i - k - 1] in c || right[i - k - 1] in value || right[i - k - 1] in d;
    }
    LastIs(t, '=', k);
    TrimmedIs(left, a, name, b);
    TrimmedIs(right, c, value, d);
  }

  lemma TrimmedIs(t: CString, a: CString, s: CString, b: CString)
    requires t == a + s + b && Blank(a) && Blank(b) && Bare(s)
    ensures Trimmed(t, WHITESPACE, 0) == s
  {
    hide Trimmed, Cut, Blank, Bare;
    BlanksAreCut(t, a, s, b);
    TrimmedTo(t, WHITESPACE, 0, |a|, |a| + |s|);
    assert t[|a|..|a| + |s|] == s;
  }

  lemma BlankIs(c: char)
    ensures c in WHITESPACE <==> c == ' ' || c == '\t'
  {
  }

  lemma BlanksAreCut(t: CString, a: CString, s: CString, b: CString)
    requires t == a + s + b && Blank(a) && Blank(b) && Bare(s)
    ensures Cut(t, WHITESPACE, 0, |a|, |a| + |s|)
  {
    forall k | 0 <= k < |a|
      ensures t[k] in WHITESPACE
    {
      assert t[k] == a[k] && a[k] in a;
      BlankIs(a[k]);
    }
    forall k | |a| + |s| <= k < |t|
      ensures t[k] in WHITESPACE
    {
      assert t[k] == b[k - |a| - |s|] && b[k - |a| - |s|] in b;
      BlankIs(t[k]);
    }
    if s != "" {
      BlankIs(s[0]);
      BlankIs(s[|s| - 1]);
      assert t[|a|] == s[0] && t[|a| + |s| - 1] == s[|s| - 1];
      assert s[0] in [s[0]] && s[|s| - 1] in [s[|s| - 1]];
    }
  }

  /** What is assigned is what is substituted. */
  lemma AssignThenSubstitute(table: Bindings, name: CString, value: CString, rest: string)
    requires name != "" && IsName(name) && (rest == "" || !IsNameChar(rest[0]))
    ensures Expand(Assigned(table, name, value), "$" + name + rest) ==
            value + (if rest == "" then "" else [rest[0]] + Expand(Assigned(table, name, value), rest[1..]))
  {
    AssignedMeans(table, name, value, name);
    VariableExpands(Assigned(table, name, value), name, rest);
  }
}
