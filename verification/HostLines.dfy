/** The text of the host file: what its lines say, and the round trip from entries to lines and back. */
module HostLines {
  import opened Text
  import ReadLn
  import opened CmsList

  const BUFSIZE: nat := 2048

  // ----- Numbers as atoi reads them -----

  function DigitsLength(s: string): (n: nat)
    ensures n <= |s| && (forall i :: 0 <= i < n ==> IsDigit(s[i])) && (n < |s| ==> !IsDigit(s[n]))
  {
    if s == "" || !IsDigit(s[0]) then 0 else 1 + DigitsLength(s[1..])
  }

  /** White space is skipped, a sign is heeded, and the number ends before the first other character. */
  function Atoi(s: string): int { SignedDigits(s[SpaceLength(s)..]) }

  function SignedDigits(t: string): int {
    if t != "" && t[0] == '-' then 0 - Digits(t[1..])
    else if t != "" && t[0] == '+' then Digits(t[1..])
    else Digits(t)
  }

  function Digits(s: string): nat { Value(s[..DigitsLength(s)]) }

  /** printf with %d */
  function Signed(v: int): CString {
    if v < 0 then "-" + Decimal(-v) else Decimal(v)
  }

  lemma {:induction false} DigitsEnd(d: string, rest: string)
    requires (forall c :: c in d ==> IsDigit(c)) && (rest == "" || !IsDigit(rest[0]))
    ensures DigitsLength(d + rest) == |d|
  {
    if d == "" {
      assert d + rest == rest;
    } else {
      assert (d + rest)[1..] == d[1..] + rest && d[0] in d;
      DigitsEnd(d[1..], rest);
    }
  }

  lemma DigitsOfDecimal(n: nat, rest: string)
    requires rest == "" || !IsDigit(rest[0])
    ensures Digits(Decimal(n) + rest) == n && IsDigit((Decimal(n) + rest)[0])
  {
    hide Decimal, Value;
    var d := Decimal(n);
    DigitsEnd(d, rest);
    ValueOfDecimal(n);
    assert (d + rest)[..|d|] == d && d[0] in d;
  }

  lemma NoSpace(s: string)
    requires s != "" && !IsSpace(s[0])
    ensures s[SpaceLength(s)..] == s
  {
  }

  /** What was printed is read back, whatever the number. */
  lemma AtoiOfSigned(v: int, rest: string)
    requires rest == "" || !IsDigit(rest[0])
    ensures Atoi(Signed(v) + rest) == v
  {
    hide Decimal, Digits, Atoi;
    var t := Decimal(if v < 0 then -v else v) + rest;
    DigitsOfDecimal(if v < 0 then -v else v, rest);
    AtoiOfDigits(t);
    assert Signed(v) + rest == if v < 0 then "-" + t else t;
  }

  lemma AtoiOfDigits(t: string)
    requires t != "" && IsDigit(t[0])
    ensures Atoi(t) == Digits(t) && Atoi("-" + t) == 0 - Digits(t)
  {
    hide Digits, Atoi, SignedDigits;
    NothingToSkip(t);
    NothingToSkip("-" + t);
    SignAndDigits(t);
  }

  lemma NothingToSkip(s: string)
    requires s != "" && !IsSpace(s[0])
    ensures Atoi(s) == SignedDigits(s)
  {
    hide SpaceLength, SignedDigits;
    NoSpace(s);
  }

  lemma SignAndDigits(t: string)
    requires t != "" && IsDigit(t[0])
    ensures SignedDigits(t) == Digits(t) && SignedDigits("-" + t) == 0 - Digits(t)
  {
    hide Digits;
    assert ("-" + t)[1..] == t;
  }

  // ----- Lines -----

  predicate EndsField(c: char, newline: bool) { c == ':' || (newline && c == '\n') }

  /** The length of a field: it ends before a colon, and the last one before the end of the line too. */
  function FieldLength(s: string, newline: bool): (n: nat)
    ensures n <= |s| && (forall i :: 0 <= i < n ==> !EndsField(s[i], newline)) && (n < |s| ==> EndsField(s[n], newline))
  {
    if s == "" || EndsField(s[0], newline) then 0 else 1 + FieldLength(s[1..], newline)
  }

  /** The end of a field is found from any place before it. */
  lemma {:induction false} FieldFrom(s: string, p: nat)
    requires p <= |s| && forall i :: 0 <= i < p ==> s[i] != ':'
    ensures FieldLength(s, false) == p + FieldLength(s[p..], false)
  {
    if p == 0 {
      assert s[0..] == s;
    } else {
      assert forall i :: 0 <= i < p - 1 ==> s[1..][i] == s[i + 1];
      FieldFrom(s[1..], p - 1);
      assert s[1..][p - 1..] == s[p..];
    }
  }

  predicate Skipped(line: string) {
    (line != "" && line[0] == '#') || SpaceLength(line) == |line|
  }

  /** There is a colon, and what is before the first one and behind it. */
  predicate HasColon(s: string) { FieldLength(s, false) < |s| }

  function Head(s: CString): CString {
    SliceIsText(s, FieldLength(s, false));
    s[..FieldLength(s, false)]
  }

  function Tail(s: CString): CString
    requires HasColon(s)
  {
    SliceIsText(s, FieldLength(s, false) + 1);
    s[FieldLength(s, false) + 1..]
  }

  function LastField(s: CString): CString {
    SliceIsText(s, FieldLength(s, true));
    s[..FieldLength(s, true)]
  }

  predicate HasFields(line: CString) {
    HasColon(line) && HasColon(Tail(line))
  }

  function Parse(line: CString): Entry
    requires HasFields(line)
  {
    Entry(Head(line), Atoi(Tail(line)), LastField(Tail(Tail(line))))
  }

  function LineLength(file: string): (k: nat)
    ensures k <= |file| && (file != "" ==> k > 0)
  {
    ReadLn.LineLength(file, BUFSIZE, '\n')
  }

  /** The lines that are not skipped have two colons. */
  predicate WellFormed(file: CString) {
    file == "" ||
    (var k := LineLength(file);
     SliceIsText(file, k);
     (Skipped(file[..k]) || HasFields(file[..k])) && WellFormed(file[k..]))
  }

  /** The entries of a file, in order. */
  function EntriesOf(file: CString): seq<Entry>
    requires WellFormed(file)
  {
    if file == "" then []
    else
      var k := LineLength(file);
      SliceIsText(file, k);
      (if Skipped(file[..k]) then [] else [Parse(file[..k])]) + EntriesOf(file[k..])
  }

  /** The entries of a file are that of its first line, if it has one, and those of the rest. */
  lemma OneLine(file: CString, line: CString, rest: CString)
    requires WellFormed(file) && file == line + rest && 0 < |line| == LineLength(file)
    ensures WellFormed(rest) && (Skipped(line) || HasFields(line))
    ensures EntriesOf(file) == (if Skipped(line) then [] else [Parse(line)]) + EntriesOf(rest)
  {
    SliceIsText(file, |line|);
    assert file[..|line|] == line && file[|line|..] == rest;
  }

  lemma LineFirst(file: CString, line: CString, rest: CString)
    requires WellFormed(rest) && file == line + rest && 0 < |line| == LineLength(file)
    requires Skipped(line) || HasFields(line)
    ensures WellFormed(file) && EntriesOf(file) == (if Skipped(line) then [] else [Parse(line)]) + EntriesOf(rest)
  {
    SliceIsText(file, |line|);
    assert file[..|line|] == line && file[|line|..] == rest;
  }

  // ----- Printing and reading back -----

  function Printed(e: Entry): CString {
    e.host + ":" + Signed(e.port) + ":" + e.passwd + "\n"
  }

  predicate NoneOf(s: string, c: char) { c !in s }

  /** A line of a file: an entry that was printed, or a comment or blank line. */
  datatype Piece = Of(e: Entry) | Filler(line: CString)

  function TextOf(p: Piece): CString {
    if p.Of? then Printed(p.e) else p.line
  }

  /** The line fits the buffer and ends where it should. */
  predicate IsLine(line: string) {
    0 < |line| < BUFSIZE && line[|line| - 1] == '\n' && NoneOf(line[..|line| - 1], '\n')
  }

  predicate Good(p: Piece) {
    && IsLine(TextOf(p))
    && match p
       case Of(e) => NoneOf(e.host, ':') && NoneOf(e.passwd, ':') && (e.host == "" || e.host[0] != '#')
       case Filler(line) => line[0] == '#' || AllWhite(line)
  }

  /** Nothing but the six characters that are white space. */
  predicate AllWhite(s: string) {
    forall c :: c in s ==> c as int in {9, 10, 11, 12, 13, 32}
  }

  function FileOf(ps: seq<Piece>): CString {
    if ps == [] then "" else TextOf(ps[0]) + FileOf(ps[1..])
  }

  function EntriesIn(ps: seq<Piece>): seq<Entry> {
    if ps == [] then [] else (if ps[0].Of? then [ps[0].e] else []) + EntriesIn(ps[1..])
  }

  lemma {:induction false} LineEnds(line: string, rest: string, maxlen: nat)
    requires 0 < |line| < maxlen && line[|line| - 1] == '\n' && NoneOf(line[..|line| - 1], '\n')
    ensures ReadLn.LineLength(line + rest, maxlen, '\n') == |line|
  {
    var s := line + rest;
    if |line| > 1 {
      assert line[0] == line[..|line| - 1][0];
      assert s[1..] == line[1..] + rest;
      assert line[1..][..|line| - 2] == line[..|line| - 1][1..];
      LineEnds(line[1..], rest, maxlen - 1);
    }
  }

  lemma {:induction false} FieldEnds(f: string, rest: string, newline: bool)
    requires NoneOf(f, ':') && (newline ==> NoneOf(f, '\n')) && rest != "" && EndsField(rest[0], newline)
    ensures FieldLength(f + rest, newline) == |f|
  {
    if f == "" {
      assert f + rest == rest;
    } else {
      assert (f + rest)[1..] == f[1..] + rest && f[0] in f;
      FieldEnds(f[1..], rest, newline);
    }
  }

  lemma NoColonInNumber(v: int)
    ensures NoneOf(Signed(v), ':') && NoneOf(Signed(v), '\n')
  {
  }

  /** Three fields, the last ended by a colon or the newline, are read as these fields. */
  lemma ParseOfFields(host: CString, port: CString, passwd: CString, end: CString)
    requires NoneOf(host, ':') && NoneOf(port, ':') && NoneOf(passwd, ':') && NoneOf(passwd, '\n')
    requires end != "" && EndsField(end[0], true)
    ensures var line: CString := host + (":" + (port + (":" + (passwd + end))));
      HasFields(line) && Parse(line) == Entry(host, Atoi(port + (":" + (passwd + end))), passwd)
  {
    hide Atoi;
    SplitsAtColon(host, port + (":" + (passwd + end)));
    SplitsAtColon(port, passwd + end);
    FieldEnds(passwd, end, true);
  }

  lemma Nested(host: string, port: string, passwd: string, end: string)
    ensures host + ":" + port + ":" + passwd + end == host + (":" + (port + (":" + (passwd + end))))
  {
    assert (host + ":" + port + ":" + passwd) + end == (host + ":" + port + ":") + (passwd + end);
    assert (host + ":" + port + ":") + (passwd + end) == (host + ":" + port) + (":" + (passwd + end));
    assert (host + ":" + port) + (":" + (passwd + end)) == (host + ":") + (port + (":" + (passwd + end)));
  }

  lemma SplitsAtColon(a: CString, b: CString)
    requires NoneOf(a, ':')
    ensures var s: CString := a + (":" + b);
      HasColon(s) && Head(s) == a && Tail(s) == b
  {
    hide FieldLength;
    FieldEnds(a, ":" + b, false);
  }

  lemma NotSkipped(e: Entry)
    requires e.host == "" || e.host[0] != '#'
    ensures !Skipped(Printed(e))
  {
    var line := Printed(e);
    assert line[|e.host|] == ':';
    assert e.host != "" ==> line[0] == e.host[0];
  }

  /** A printed line is read as the entry that was printed. */
  lemma ParsePrinted(e: Entry)
    requires Good(Of(e))
    ensures !Skipped(Printed(e)) && HasFields(Printed(e)) && Parse(Printed(e)) == e
  {
    hide Parse, HasFields, Skipped, Atoi, Signed;
    var line, port := Printed(e), Signed(e.port);
    assert forall c :: c in e.passwd ==> c in line[..|line| - 1] by {
      assert line[..|line| - 1] == e.host + ":" + port + ":" + e.passwd;
    }
    NotSkipped(e);
    NoColonInNumber(e.port);
    ParseOfFields(e.host, port, e.passwd, "\n");
    Nested(e.host, port, e.passwd, "\n");
    AtoiOfSigned(e.port, ":" + (e.passwd + "\n"));
  }

  // ----- Comments, blank lines and the others -----

  lemma WhiteIsSkipped(s: string)
    ensures SpaceLength(s) == |s| <==> AllWhite(s)
  {
    if SpaceLength(s) == |s| {
      forall c | c in s
        ensures c as int in {9, 10, 11, 12, 13, 32}
      {
        var i :| 0 <= i < |s| && s[i] == c;
        assert IsSpace(s[i]);
      }
    } else {
      assert s[SpaceLength(s)] in s;
    }
  }

  /** A line in front of a file adds what it says, if it is not skipped. */
  lemma LineAdds(line: CString, file: CString)
    requires IsLine(line) && WellFormed(file) && (line[0] == '#' || AllWhite(line) || HasFields(line))
    ensures WellFormed(line + file)
    ensures EntriesOf(line + file) ==
            (if line[0] == '#' || AllWhite(line) then [] else [Parse(line)]) + EntriesOf(file)
  {
    hide WellFormed, EntriesOf, Parse, HasFields;
    LineEnds(line, file, BUFSIZE);
    WhiteIsSkipped(line);
    LineFirst(line + file, line, file);
  }

  /** A comment, wherever a line may start, says nothing. */
  lemma CommentAnywhere(before: CString, c: CString, file: CString)
    requires WellFormed(before) && EndsLine(before) && WellFormed(file) && NoneOf(c, '\n') && |c| + 2 < 2048
    ensures var all: CString := before + ("#" + c + "\n" + file);
      WellFormed(all) && EntriesOf(all) == EntriesOf(before) + EntriesOf(file)
  {
    hide WellFormed, EntriesOf, Parse, HasFields;
    var line: CString := "#" + c + "\n";
    assert line[..|line| - 1] == "#" + c;
    LineAdds(line, file);
    EntriesJoin(before, line + file);
  }

  /** So does a line of white space. */
  lemma BlankAnywhere(before: CString, c: CString, file: CString)
    requires WellFormed(before) && EndsLine(before) && WellFormed(file) && NoneOf(c, '\n') && |c| + 1 < 2048
    requires AllWhite(c)
    ensures var all: CString := before + (c + "\n" + file);
      WellFormed(all) && EntriesOf(all) == EntriesOf(before) + EntriesOf(file)
  {
    hide WellFormed, EntriesOf, Parse, HasFields;
    var line: CString := c + "\n";
    assert line[..|line| - 1] == c;
    LineAdds(line, file);
    EntriesJoin(before, line + file);
  }

  /** Any other line with two colons gives one entry: what is before the first, before the second, and behind it. */
  lemma OneEntryForALine(before: CString, host: CString, number: CString, passwd: CString, more: CString, file: CString)
    requires WellFormed(before) && EndsLine(before) && WellFormed(file)
    requires |host| + |number| + |passwd| + |more| + 3 < 2048 && (host == "" || host[0] != '#')
    requires NoneOf(host, ':') && NoneOf(number, ':') && NoneOf(passwd, ':') && (more == "" || more[0] == ':')
    requires NoneOf(host, '\n') && NoneOf(number, '\n') && NoneOf(passwd, '\n') && NoneOf(more, '\n')
    ensures var all: CString := before + (host + ":" + number + ":" + passwd + (more + "\n") + file);
      && WellFormed(all)
      && EntriesOf(all) == EntriesOf(before) + [Entry(host, Atoi(number), passwd)] + EntriesOf(file)
  {
    hide WellFormed, EntriesOf, Parse, HasFields, Atoi;
    var end: CString := more + "\n";
    var line: CString := host + ":" + number + ":" + passwd + end;
    OneLineOf(host, number, passwd, more);
    ParseOfFields(host, number, passwd, end);
    Nested(host, number, passwd, end);
    AtoiStopsAt(number, ":" + (passwd + end));
    LineAdds(line, file);
    EntriesJoin(before, line + file);
    assert EntriesOf(before) + ([Parse(line)] + EntriesOf(file)) == EntriesOf(before) + [Parse(line)] + EntriesOf(file);
  }

  lemma OneLineOf(host: CString, number: CString, passwd: CString, more: CString)
    requires |host| + |number| + |passwd| + |more| + 3 < 2048 && (host == "" || host[0] != '#')
    requires NoneOf(host, '\n') && NoneOf(number, '\n') && NoneOf(passwd, '\n') && NoneOf(more, '\n')
    ensures var line := host + ":" + number + ":" + passwd + (more + "\n");
      IsLine(line) && line[0] != '#' && !AllWhite(line)
  {
    var line := host + ":" + number + ":" + passwd + (more + "\n");
    assert line[..|line| - 1] == host + ":" + number + ":" + passwd + more;
    assert line[|host|] == ':' && line[|host|] in line;
  }

  /** What follows a colon does not change the number. */
  lemma AtoiStopsAt(number: string, rest: string)
    requires rest != "" && rest[0] == ':'
    ensures Atoi(number + rest) == Atoi(number)
  {
    hide DigitsLength, Value;
    var k := SpaceLength(number);
    SpacesStop(number, rest);
    var t := number[k..];
    assert (number + rest)[k..] == t + rest;
    DigitsStop(t, rest);
    if t != "" {
      assert (t + rest)[1..] == t[1..] + rest;
      DigitsStop(t[1..], rest);
    }
  }

  /** White space before a number is passed over, a plus sign changes nothing, and what is no number counts as 0. */
  lemma AtoiReads(w: string, n: nat, rest: string)
    requires AllWhite(w) && (rest == "" || !IsDigit(rest[0]))
    ensures Atoi(w + (Decimal(n) + rest)) == n && Atoi(w + ("-" + (Decimal(n) + rest))) == 0 - n
    ensures Atoi(w + ("+" + (Decimal(n) + rest))) == n
    ensures rest != "" && !IsSpace(rest[0]) && rest[0] !in {'+', '-'} ==> Atoi(w + rest) == 0
  {
    hide Decimal, Digits, Atoi;
    var t := Decimal(n) + rest;
    DigitsOfDecimal(n, rest);
    AtoiOfDigits(t);
    AfterWhite(w, t);
    AfterWhite(w, "-" + t);
    AfterWhite(w, "+" + t);
    NothingToSkip("+" + t);
    assert ("+" + t)[1..] == t;
    if rest != "" && !IsSpace(rest[0]) && rest[0] !in {'+', '-'} {
      AfterWhite(w, rest);
      NothingToSkip(rest);
      NoDigits(rest);
    }
  }

  lemma NoDigits(s: string)
    requires s != "" && !IsDigit(s[0])
    ensures Digits(s) == 0
  {
    assert s[..0] == "";
  }

  lemma AfterWhite(w: string, s: string)
    requires AllWhite(w) && s != "" && !IsSpace(s[0])
    ensures Atoi(w + s) == Atoi(s)
  {
    SpacesBefore(w, s);
    assert (w + s)[|w|..] == s;
    NoSpace(s);
  }

  lemma {:induction false} SpacesBefore(w: string, s: string)
    requires AllWhite(w) && s != "" && !IsSpace(s[0])
    ensures SpaceLength(w + s) == |w|
  {
    if w == "" {
      assert w + s == s;
    } else {
      assert (w + s)[1..] == w[1..] + s && w[0] in w;
      assert forall c :: c in w[1..] ==> c in w;
      SpacesBefore(w[1..], s);
    }
  }

  lemma {:induction false} SpacesStop(s: string, rest: string)
    requires rest != "" && rest[0] == ':'
    ensures SpaceLength(s + rest) == SpaceLength(s)
  {
    if s == "" {
      assert s + rest == rest;
    } else {
      assert (s + rest)[1..] == s[1..] + rest;
      SpacesStop(s[1..], rest);
    }
  }

  lemma {:induction false} DigitsStop(s: string, rest: string)
    requires rest != "" && rest[0] == ':'
    ensures DigitsLength(s + rest) == DigitsLength(s) && Digits(s + rest) == Digits(s)
  {
    if s == "" {
      assert s + rest == rest;
    } else {
      assert (s + rest)[1..] == s[1..] + rest;
      DigitsStop(s[1..], rest);
    }
    assert (s + rest)[..DigitsLength(s)] == s[..DigitsLength(s)];
  }

  /**
    Round trip: a file of printed entries, with comments and blank lines anywhere between them, gives the same entries
    in the same order.
   */
  lemma {:induction false} RoundTrip(ps: seq<Piece>)
    requires forall p :: p in ps ==> Good(p)
    ensures WellFormed(FileOf(ps)) && EntriesOf(FileOf(ps)) == EntriesIn(ps)
  {
    if ps != [] {
      var line, rest := TextOf(ps[0]), FileOf(ps[1..]);
      var file := FileOf(ps);
      RoundTrip(ps[1..]);
      assert ps[0] in ps;
      LineEnds(line, rest, BUFSIZE);
      assert file[..|line|] == line && file[|line|..] == rest;
      if ps[0].Of? {
        ParsePrinted(ps[0].e);
      } else {
        WhiteIsSkipped(line);
      }
    }
  }

  /** In particular any list of entries that fit their lines survives printing and reading back. */
  lemma PrintedListIsReadBack(es: seq<Entry>)
    requires forall e :: e in es ==> Good(Of(e))
    ensures var file := FileOf(seq(|es|, (i: nat) requires i < |es| => Of(es[i])));
      WellFormed(file) && EntriesOf(file) == es
  {
    RoundTrip(seq(|es|, (i: nat) requires i < |es| => Of(es[i])));
    AllOf(es);
  }

  lemma {:induction false} AllOf(es: seq<Entry>)
    ensures EntriesIn(seq(|es|, (i: nat) requires i < |es| => Of(es[i]))) == es
  {
    var ps := seq(|es|, (i: nat) requires i < |es| => Of(es[i]));
    if es != [] {
      AllOf(es[1..]);
      assert ps[1..] == seq(|es[1..]|, (i: nat) requires i < |es[1..]| => Of(es[1..][i]));
    }
  }

  // ----- Adding to a file -----

  /** No line of the text is still open. */
  predicate EndsLine(text: string) {
    text == "" || text[|text| - 1] == '\n'
  }

  lemma {:induction false} FirstLineStays(a: string, b: string, maxlen: nat)
    requires a != "" && EndsLine(a) && maxlen > 0
    ensures ReadLn.LineLength(a + b, maxlen, '\n') == ReadLn.LineLength(a, maxlen, '\n')
  {
    if maxlen > 1 && a[0] != '\n' {
      assert (a + b)[1..] == a[1..] + b;
      FirstLineStays(a[1..], b, maxlen - 1);
    }
  }

  /** Where the first of two texts ends with a line, the entries of both are those of the first and of the second. */
  lemma {:induction false} EntriesJoin(a: CString, b: CString)
    requires WellFormed(a) && WellFormed(b) && EndsLine(a)
    ensures WellFormed(a + b) && EntriesOf(a + b) == EntriesOf(a) + EntriesOf(b)
    decreases |a|
  {
    hide Parse, HasFields, Skipped, WellFormed, EntriesOf;
    if a == "" {
      NoLines();
      assert a + b == b;
    } else {
      var k := LineLength(a);
      SliceIsText(a, k);
      FirstLineStays(a, b, BUFSIZE);
      var line, rest := a[..k], a[k..];
      OneLine(a, line, rest);
      EntriesJoin(rest, b);
      assert a + b == line + (rest + b);
      LineFirst(a + b, line, rest + b);
    }
  }

  lemma NoLines()
    ensures WellFormed("") && EntriesOf("") == []
  {
  }

  /** A printed entry is one more entry at the end of the file. */
  lemma OneMoreEntry(text: CString, c: Entry)
    requires WellFormed(text) && EndsLine(text) && Good(Of(c))
    ensures var more: CString := text + Printed(c);
      WellFormed(more) && EndsLine(more) && EntriesOf(more) == EntriesOf(text) + [c]
  {
    hide EntriesOf, WellFormed, Good;
    var ps := [Of(c)];
    RoundTrip(ps);
    OnePiece(c);
    EntriesJoin(text, Printed(c));
  }

  lemma OnePiece(c: Entry)
    ensures FileOf([Of(c)]) == Printed(c) && EntriesIn([Of(c)]) == [c]
  {
    var ps := [Of(c)];
    assert ps[1..] == [];
    assert Printed(c) + "" == Printed(c) && [c] + EntriesIn([]) == [c];
  }
}
