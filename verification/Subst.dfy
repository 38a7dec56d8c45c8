/** What variable substitution means: the text as tokens, and the automaton that finds them in one pass. */
module Subst {
  import opened Text
  import opened Symbols

  predicate IsNameChar(c: char) {
    'a' <= c <= 'z' || 'A' <= c <= 'Z' || '0' <= c <= '9' || c == '_' || c == '$'
  }

  predicate IsName(s: string) { forall c :: c in s ==> IsNameChar(c) }

  /** The length of the longest name that s starts with. */
  function NameLength(s: string): (n: nat)
    ensures n <= |s| && (forall i :: 0 <= i < n ==> IsNameChar(s[i])) && (n < |s| ==> !IsNameChar(s[n]))
  {
    if s == "" || !IsNameChar(s[0]) then 0 else 1 + NameLength(s[1..])
  }

  datatype Token = Plain(c: char) | Variable(name: string)

  /**
    A backslash makes the next character plain, and is dropped at the end. A dollar sign starts a variable with the
    longest name that follows; the character after the name is plain, whatever it is. Values play no part in this.
   */
  function Tokens(s: string): seq<Token> {
    if s == "" then []
    else if s[0] == '\\' then
      if |s| == 1 then [] else [Plain(s[1])] + Tokens(s[2..])
    else if s[0] == '$' then
      var n := NameLength(s[1..]);
      [Variable(s[1..n + 1])] + (if n + 1 == |s| then [] else [Plain(s[n + 1])] + Tokens(s[n + 2..]))
    else [Plain(s[0])] + Tokens(s[1..])
  }

  function Lookup(table: Bindings, name: string): CString {
    if IsCString(name) then Current(table, name) else ""
  }

  function Stands(table: Bindings, t: Token): string {
    if t.Plain? then [t.c] else Lookup(table, t.name)
  }

  function Meaning(table: Bindings, ts: seq<Token>): string {
    if ts == [] then "" else Stands(table, ts[0]) + Meaning(table, ts[1..])
  }

  /** The text with its variables replaced. */
  function Expand(table: Bindings, s: string): string {
    Meaning(table, Tokens(s))
  }

  // ----- The automaton -----

  datatype Mode = Copy | Escaped | Naming(name: string)

  function Turn(m: Mode, c: char): Mode {
    match m
    case Escaped => Copy
    case Naming(name) => if IsNameChar(c) then Naming(name + [c]) else Copy
    case Copy => if c == '\\' then Escaped else if c == '$' then Naming("") else Copy
  }

  function Emit(table: Bindings, m: Mode, c: char): string {
    match m
    case Escaped => [c]
    case Naming(name) => if IsNameChar(c) then "" else Lookup(table, name) + [c]
    case Copy => if c == '\\' || c == '$' then "" else [c]
  }

  /** What is still written at the end of the text. */
  function Flush(table: Bindings, m: Mode): string {
    if m.Naming? then Lookup(table, m.name) else ""
  }

  /** What is written from here on. */
  function Written(table: Bindings, m: Mode, s: string): string
    decreases |s|
  {
    if s == "" then Flush(table, m) else Emit(table, m, s[0]) + Written(table, Turn(m, s[0]), s[1..])
  }

  function ModeAfter(m: Mode, s: string): Mode
    decreases |s|
  {
    if s == "" then m else ModeAfter(Turn(m, s[0]), s[1..])
  }

  function WrittenSoFar(table: Bindings, m: Mode, s: string): string
    decreases |s|
  {
    if s == "" then "" else Emit(table, m, s[0]) + WrittenSoFar(table, Turn(m, s[0]), s[1..])
  }

  lemma {:induction false} NamingWritten(table: Bindings, name: string, s: string)
    ensures
      var n := NameLength(s);
      Written(table, Naming(name), s) ==
      Lookup(table, name + s[..n]) + (if n == |s| then "" else [s[n]] + Written(table, Copy, s[n + 1..]))
    decreases |s|
  {
    hide Lookup;
    var n := NameLength(s);
    if n == 0 {
      assert name + s[..n] == name;
    } else {
      NamingWritten(table, name + [s[0]], s[1..]);
      assert name + [s[0]] + s[1..][..n - 1] == name + s[..n];
      assert n < |s| ==> s[1..][n..] == s[n + 1..];
    }
  }

  /** The automaton writes what the tokens mean. */
  lemma {:induction false} AutomatonExpands(table: Bindings, s: string)
    ensures Written(table, Copy, s) == Expand(table, s)
    decreases |s|
  {
    hide Lookup;
    if s == "" {
    } else if s[0] == '\\' {
      if |s| > 1 {
        AutomatonExpands(table, s[2..]);
        assert s[1..][1..] == s[2..];
        MeaningOfFirst(table, Plain(s[1]), Tokens(s[2..]));
      } else {
        assert s[1..] == "";
      }
    } else if s[0] == '$' {
      var n := NameLength(s[1..]);
      NamingWritten(table, "", s[1..]);
      assert "" + s[1..][..n] == s[1..n + 1];
      if n + 1 < |s| {
        AutomatonExpands(table, s[n + 2..]);
        assert s[1..][n + 1..] == s[n + 2..];
        MeaningOfFirst(table, Plain(s[n + 1]), Tokens(s[n + 2..]));
        MeaningOfFirst(table, Variable(s[1..n + 1]), [Plain(s[n + 1])] + Tokens(s[n + 2..]));
      } else {
        MeaningOfFirst(table, Variable(s[1..n + 1]), []);
      }
    } else {
      AutomatonExpands(table, s[1..]);
      MeaningOfFirst(table, Plain(s[0]), Tokens(s[1..]));
    }
  }

  lemma MeaningOfFirst(table: Bindings, t: Token, ts: seq<Token>)
    ensures Meaning(table, [t] + ts) == Stands(table, t) + Meaning(table, ts)
  {
    assert ([t] + ts)[1..] == ts;
  }

  // ----- Laws -----

  /** One character, and the rest. */
  lemma OneTurn(table: Bindings, m: Mode, s: string)
    ensures s == "" ==>
      Written(table, m, s) == Flush(table, m) && WrittenSoFar(table, m, s) == "" && ModeAfter(m, s) == m
    ensures s != "" ==>
      var next := Turn(m, s[0]);
      && Written(table, m, s) == Emit(table, m, s[0]) + Written(table, next, s[1..])
      && WrittenSoFar(table, m, s) == Emit(table, m, s[0]) + WrittenSoFar(table, next, s[1..])
      && ModeAfter(m, s) == ModeAfter(next, s[1..])
  {
  }

  lemma {:induction false} WrittenJoins(table: Bindings, m: Mode, a: string, b: string)
    ensures Written(table, m, a + b) == WrittenSoFar(table, m, a) + Written(table, ModeAfter(m, a), b)
    decreases |a|
  {
    hide Emit, Turn, Flush, Written, WrittenSoFar, ModeAfter;
    OneTurn(table, m, a);
    if a == "" {
      assert a + b == b;
    } else {
      OneTurn(table, m, a + b);
      assert (a + b)[1..] == a[1..] + b && (a + b)[0] == a[0];
      WrittenJoins(table, Turn(m, a[0]), a[1..], b);
    }
  }

  lemma WrittenEnds(table: Bindings, m: Mode, a: string)
    ensures Written(table, m, a) == WrittenSoFar(table, m, a) + Flush(table, ModeAfter(m, a))
  {
    hide Emit, Turn, Flush, Written, WrittenSoFar, ModeAfter;
    WrittenJoins(table, m, a, "");
    OneTurn(table, ModeAfter(m, a), "");
    assert a + "" == a;
  }

  lemma {:induction false} SoFarJoins(table: Bindings, m: Mode, a: string, b: string)
    ensures WrittenSoFar(table, m, a + b) == WrittenSoFar(table, m, a) + WrittenSoFar(table, ModeAfter(m, a), b)
    ensures ModeAfter(m, a + b) == ModeAfter(ModeAfter(m, a), b)
    decreases |a|
  {
    hide Emit, Turn, Flush, Written, WrittenSoFar, ModeAfter;
    OneTurn(table, m, a);
    if a == "" {
      assert a + b == b;
    } else {
      OneTurn(table, m, a + b);
      assert (a + b)[1..] == a[1..] + b && (a + b)[0] == a[0];
      SoFarJoins(table, Turn(m, a[0]), a[1..], b);
    }
  }

  lemma OneWritten(table: Bindings, m: Mode, c: char)
    ensures WrittenSoFar(table, m, [c]) == Emit(table, m, c) && ModeAfter(m, [c]) == Turn(m, c)
  {
    assert WrittenSoFar(table, Turn(m, c), "") == "";
  }

  /** With the terminator the automaton has written everything. */
  lemma NulFlushes(table: Bindings, s: string)
    ensures WrittenSoFar(table, Copy, s + "\0") == Expand(table, s) + "\0"
  {
    hide Written, WrittenSoFar, ModeAfter, Expand;
    var m := ModeAfter(Copy, s);
    SoFarJoins(table, Copy, s, "\0");
    OneWritten(table, m, '\0');
    WrittenEnds(table, Copy, s);
    AutomatonExpands(table, s);
  }

  /**
    Substitution distributes over concatenation, whatever follows, exactly at the places that are neither behind an
    open escape nor inside a variable name.
   */
  lemma DistributesAtBoundaries(table: Bindings, a: string)
    ensures ModeAfter(Copy, a) == Copy <==> forall b :: Expand(table, a + b) == Expand(table, a) + Expand(table, b)
  {
    hide Expand, Written, WrittenSoFar, ModeAfter;
    forall b
      ensures ModeAfter(Copy, a) == Copy ==> Expand(table, a + b) == Expand(table, a) + Expand(table, b)
    {
      Joined(table, a, b);
    }
    if ModeAfter(Copy, a) != Copy {
      Joined(table, a, "\\");
      BackslashTells(table, ModeAfter(Copy, a));
      assert Expand(table, a + "\\") != Expand(table, a) + Expand(table, "\\");
    }
  }

  /** Behind an open escape or a name a backslash is written, and alone it is not. */
  lemma BackslashTells(table: Bindings, m: Mode)
    requires m != Copy
    ensures Written(table, m, "\\") == Flush(table, m) + "\\" && Written(table, Copy, "\\") == ""
  {
    hide Lookup;
    OneTurn(table, m, "\\");
    OneTurn(table, Copy, "\\");
    OneTurn(table, Copy, "");
    OneTurn(table, Escaped, "");
  }

  lemma Joined(table: Bindings, a: string, b: string)
    ensures var m := ModeAfter(Copy, a);
      && Expand(table, a) == WrittenSoFar(table, Copy, a) + Flush(table, m)
      && Expand(table, a + b) == WrittenSoFar(table, Copy, a) + Written(table, m, b)
      && Expand(table, b) == Written(table, Copy, b)
  {
    hide Expand, Written, WrittenSoFar, ModeAfter, Flush;
    AutomatonExpands(table, a);
    AutomatonExpands(table, b);
    AutomatonExpands(table, a + b);
    WrittenJoins(table, Copy, a, b);
    WrittenEnds(table, Copy, a);
  }

  /** The text with a backslash before every backslash and dollar sign. */
  function Escape(s: string): string {
    if s == "" then "" else (if s[0] == '\\' || s[0] == '$' then ['\\', s[0]] else [s[0]]) + Escape(s[1..])
  }

  /** Escaping and then substituting gives the text back, for every table. */
  lemma {:induction false} EscapedIsPlain(table: Bindings, s: string)
    ensures Expand(table, Escape(s)) == s
  {
    if s != "" {
      EscapedIsPlain(table, s[1..]);
      var e := Escape(s[1..]);
      var head := if s[0] == '\\' || s[0] == '$' then ['\\', s[0]] else [s[0]];
      assert (head + e)[|head|..] == e;
      assert (head + e)[1..][|head| - 1..] == e;
      MeaningOfFirst(table, Plain(s[0]), Tokens(e));
    }
  }

  /** What a name is made of: letters, digits, the underscore and the dollar sign. */
  predicate OfName(c: char) {
    var code := c as int;
    97 <= code <= 122 || 65 <= code <= 90 || 48 <= code <= 57 || code == 95 || code == 36
  }

  lemma NameCharIs(c: char)
    ensures IsNameChar(c) <==> OfName(c)
  {
  }

  /** Every text is a variable with what ends it, an escaped character, or another character, and the text behind. */
  lemma ExpandsInFull(table: Bindings, name: CString, rest: string)
    requires (forall c :: c in name ==> OfName(c)) && (rest == "" || !OfName(rest[0]))
    ensures Expand(table, "$" + name + rest) ==
            Current(table, name) + (if rest == "" then "" else [rest[0]] + Expand(table, rest[1..]))
  {
    forall c
      ensures IsNameChar(c) <==> OfName(c)
    {
      NameCharIs(c);
    }
    VariableExpands(table, name, rest);
  }

  lemma OneCharacter(table: Bindings, c: char, rest: string)
    ensures c != '$' && c != '\\' ==> Expand(table, [c] + rest) == [c] + Expand(table, rest)
    ensures Expand(table, "\\" + [c] + rest) == [c] + Expand(table, rest)
    ensures Expand(table, "") == "" && Expand(table, "\\") == ""
  {
    assert ([c] + rest)[1..] == rest && ("\\" + [c] + rest)[2..] == rest && ("\\" + [c] + rest)[1] == c;
    MeaningOfFirst(table, Plain(c), Tokens(rest));
  }

  /** A variable is replaced by its value as it stands; what follows the longest name is copied. */
  lemma VariableExpands(table: Bindings, name: CString, rest: string)
    requires IsName(name) && (rest == "" || !IsNameChar(rest[0]))
    ensures Expand(table, "$" + name + rest) ==
            Current(table, name) + (if rest == "" then "" else [rest[0]] + Expand(table, rest[1..]))
  {
    hide Expand, Written, NameLength, IsNameChar;
    var s := "$" + name + rest;
    AutomatonExpands(table, s);
    assert s[1..] == name + rest;
    OneTurn(table, Copy, s);
    NameEnds(name, rest);
    NamingWritten(table, "", s[1..]);
    assert "" + (name + rest)[..|name|] == name;
    if rest != "" {
      assert (name + rest)[|name| + 1..] == rest[1..];
      AutomatonExpands(table, rest[1..]);
    }
  }

  lemma NameEnds(name: string, rest: string)
    requires IsName(name) && (rest == "" || !IsNameChar(rest[0]))
    ensures NameLength(name + rest) == |name|
  {
    var s := name + rest;
    assert forall i :: 0 <= i < |name| ==> s[i] == name[i] && name[i] in name;
    assert rest != "" ==> s[|name|] == rest[0];
    assert NameLength(s) < |s| ==> !IsNameChar(s[NameLength(s)]);
  }
}
