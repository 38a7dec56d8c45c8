/** Reading the host file entry by entry through one buffer that is cut up in place, and writing entries. */
module GetCms {
  import opened Text
  import ReadLn
  import opened CBuffer
  import opened CmsList
  import opened HostLines

  class HostTable {
    /** What is still to be read of the file. */
    var input: CString
    const cbuf: array<char>
    var curent: Entry

    predicate Valid()
      reads this
    {
      cbuf.Length == BUFSIZE
    }

    constructor (file: CString)
      ensures Valid() && fresh(cbuf) && input == file
    {
      input := file;
      cbuf := new char[BUFSIZE];
      curent := Entry("", 0, "");
    }

    /** fgets: a line with its newline, or as much of it as fits. */
    method FGets() returns (got: bool, ghost line: CString)
      requires Valid()
      modifies this`input, cbuf
      ensures got <==> old(input) != ""
      ensures !got ==> input == old(input)
      ensures got ==> TextAt(cbuf[..], 0, line) && 0 < |line| == LineLength(old(input)) && old(input) == line + input
    {
      ghost var file := input;
      ghost var k := LineLength(file);
      SliceIsText(file, k);
      line := file[..k];
      if input == "" {
        return false, line;
      }
      var n: nat := 0;
      var c := ' ';
      while n + 1 < BUFSIZE && input != "" && c != '\n'
        invariant n <= |file| && n < BUFSIZE && input == file[n..] && cbuf[..n] == file[..n]
        invariant n > 0 ==> c == file[n - 1]
        invariant n == 0 ==> c != '\n'
        invariant k == n + (if c == '\n' then 0 else ReadLn.LineLength(file[n..], BUFSIZE - n, '\n'))
        decreases |file| - n
      {
        c := input[0];
        SliceIsText(file, n + 1);
        cbuf[n] := c;
        assert file[n..][1..] == file[n + 1..];
        input := input[1..];
        n := n + 1;
      }
      assert n == k;
      cbuf[n] := '\0';
      assert cbuf[..][0..n] == line;
      got := true;
    }

    /** The place where the white space ends. */
    method SkipSpace(ghost line: CString) returns (p: nat)
      requires Valid() && TextAt(cbuf[..], 0, line)
      ensures p == SpaceLength(line)
    {
      p := 0;
      TextChar(cbuf[..], 0, line, 0);
      assert line[0..] == line;
      while IsSpace(cbuf[p])
        invariant p <= |line| && IsCString(line[p..]) && SpaceLength(line) == p + SpaceLength(line[p..])
        invariant cbuf[p] == if p < |line| then line[p] else '\0'
        decreases |line| - p
      {
        SliceIsText(line, p + 1);
        assert line[p..][1..] == line[p + 1..];
        TextChar(cbuf[..], 0, line, p + 1);
        p := p + 1;
      }
    }

    /** The end of the field from p on. */
    method FieldEnd(p: nat, newline: bool, ghost field: CString) returns (q: nat)
      requires Valid() && TextAt(cbuf[..], p, field)
      ensures q == p + FieldLength(field, newline)
    {
      q := p;
      TextChar(cbuf[..], p, field, 0);
      assert field[0..] == field;
      while cbuf[q] != '\0' && cbuf[q] != ':' && !(newline && cbuf[q] == '\n')
        invariant p <= q <= p + |field| < cbuf.Length
        invariant FieldLength(field, newline) == q - p + FieldLength(field[q - p..], newline)
        invariant cbuf[q] == if q - p < |field| then field[q - p] else '\0'
        decreases p + |field| - q
      {
        TextChar(cbuf[..], p, field, q - p);
        assert field[q - p..][1..] == field[q - p + 1..];
        TextChar(cbuf[..], p, field, q - p + 1);
        q := q + 1;
      }
      TextChar(cbuf[..], p, field, q - p);
    }

    /** The field from p on is cut off, and what follows its colon is still there; so is a text in front of it. */
    method CutField(p: nat, q: nat, ghost s: CString, ghost front: CString)
      requires Valid() && TextAt(cbuf[..], p, s) && q == p + FieldLength(s, false) && HasColon(s)
      requires p == 0 || (|front| < p && TextAt(cbuf[..], 0, front))
      modifies cbuf
      ensures TextAt(cbuf[..], p, Head(s)) && TextAt(cbuf[..], q + 1, Tail(s))
      ensures p != 0 ==> TextAt(cbuf[..], 0, front)
    {
      hide TextAt, Outside, FieldLength;
      ghost var before := cbuf[..];
      TextFits(before, p, s);
      TextSplits(before, p, s, q - p);
      cbuf[q] := '\0';
      assert cbuf[..] == before[p + (q - p) := '\0'];
      if p != 0 {
        OneWrite(before, q);
        TextStays(before, cbuf[..], q, 0, 0, front);
      }
    }

    /** The last field, up to a colon or the newline. */
    method CutLast(p: nat, ghost s: CString, ghost front: CString) returns (passwd: CString)
      requires Valid() && TextAt(cbuf[..], p, s) && |front| < p && TextAt(cbuf[..], 0, front)
      modifies cbuf
      ensures passwd == LastField(s) && TextAt(cbuf[..], 0, front)
    {
      hide TextAt, Outside, FieldLength;
      var q := FieldEnd(p, true, s);
      ghost var before := cbuf[..];
      TextFits(before, p, s);
      TextSplits(before, p, s, q - p);
      cbuf[q] := '\0';
      assert cbuf[..] == before[p + (q - p) := '\0'];
      OneWrite(before, q);
      TextStays(before, cbuf[..], q, 0, 0, front);
      passwd := ReadText(cbuf, p, LastField(s));
    }

    /** The fields of the line in the buffer; the first one starts where the line does, before its white space. */
    method Fields(p: nat, ghost line: CString)
      requires Valid() && TextAt(cbuf[..], 0, line) && p == SpaceLength(line) && HasFields(line)
      modifies this`curent, cbuf
      ensures curent == Parse(line)
    {
      hide TextAt, FieldLength, Atoi, SpaceLength, Head, Tail, LastField;
      HeadEnds(line, p);
      SliceIsText(line, p);
      TextFrom(cbuf[..], 0, line, p);
      var q := FieldEnd(p, false, line[p..]);
      CutField(0, q, line, "");
      var number := ReadText(cbuf, q + 1, Tail(line));
      var port := Atoi(number);
      var r := FieldEnd(q + 1, false, Tail(line));
      CutField(q + 1, r, Tail(line), Head(line));
      var passwd := CutLast(r + 1, Tail(Tail(line)), Head(line));
      var host := ReadText(cbuf, 0, Head(line));
      curent := Entry(host, port, passwd);
    }

    /** nextent: comments and blank lines are passed over, and the next other line is taken apart. */
    method NextEnt() returns (ok: bool)
      requires Valid() && WellFormed(input)
      modifies this`input, this`curent, cbuf
      ensures WellFormed(input)
      ensures ok <==> old(EntriesOf(input)) != []
      ensures !ok ==> EntriesOf(input) == []
      ensures ok ==> old(EntriesOf(input)) == [curent] + EntriesOf(input)
    {
      hide TextAt, Parse, HasFields;
      ghost var entries := EntriesOf(input);
      var got := true;
      while got
        invariant WellFormed(input) && entries == EntriesOf(input) && (!got ==> input == "")
        decreases got, |input|
      {
        ghost var line, file := "", input;
        got, line := FGets();
        if got {
          OneLine(file, line, input);
          LineFits(cbuf[..], line);
          if cbuf[0] == '#' {
            continue;
          }
          var p := SkipSpace(line);
          TextChar(cbuf[..], 0, line, p);
          if cbuf[p] == '\0' || cbuf[p] == '\n' {
            continue;
          }
          Fields(p, line);
          return true;
        }
      }
      ok := false;
    }
  }

  lemma OneWrite(a: string, q: nat)
    requires q < |a|
    ensures Outside(a[q := '\0'], a, q, 0)
  {
  }

  lemma HeadEnds(line: CString, p: nat)
    requires p == SpaceLength(line)
    ensures FieldLength(line, false) == p + FieldLength(line[p..], false) && |Head(line)| == FieldLength(line, false)
  {
    FieldFrom(line, p);
  }

  lemma LineFits(a: string, line: CString)
    requires TextAt(a, 0, line) && 0 < |line|
    ensures |a| > 0 && a[0] == line[0] && |line| < |a|
  {
    TextChar(a, 0, line, 0);
  }

  /** A file that is open for writing. */
  class Stream {
    var text: CString

    constructor ()
      ensures text == ""
    {
      text := "";
    }

    /** putcmsent: what a reader of the file will find is one entry more. */
    method PutCmsEnt(c: Entry)
      modifies this
      ensures text == old(text) + Printed(c)
      ensures old(WellFormed(text) && EndsLine(text)) && Good(Of(c)) ==>
        WellFormed(text) && EndsLine(text) && EntriesOf(text) == old(EntriesOf(text)) + [c]
    {
      hide WellFormed, EndsLine, Good, EntriesOf;
      if WellFormed(text) && EndsLine(text) && Good(Of(c)) {
        OneMoreEntry(text, c);
      }
      text := text + c.host + ":" + Signed(c.port) + ":" + c.passwd + "\n";
    }
  }

  /** All the entries of a table, read one after another. */
  method ReadAll(table: HostTable) returns (read: seq<Entry>)
    requires table.Valid() && WellFormed(table.input)
    modifies table, table.cbuf
    ensures read == old(EntriesOf(table.input))
  {
    hide EntriesOf, WellFormed;
    ghost var es := EntriesOf(table.input);
    read := [];
    var more := true;
    while more
      invariant table.Valid() && WellFormed(table.input) && es == read + EntriesOf(table.input)
      invariant !more ==> EntriesOf(table.input) == []
      decreases more, |EntriesOf(table.input)|
    {
      more := table.NextEnt();
      if more {
        read := read + [table.curent];
      }
    }
  }

  /** A list that is written entry by entry and read back is the same list. */
  method WriteAndRead(es: seq<Entry>) returns (read: seq<Entry>)
    requires forall e :: e in es ==> Good(Of(e))
    ensures read == es
  {
    hide WellFormed, Good, EntriesOf, Printed;
    var ofp := new Stream();
    NoLines();
    var i := 0;
    while i < |es|
      invariant 0 <= i <= |es| && WellFormed(ofp.text) && EndsLine(ofp.text) && EntriesOf(ofp.text) == es[..i]
    {
      ofp.PutCmsEnt(es[i]);
      assert es[..i + 1] == es[..i] + [es[i]];
      i := i + 1;
    }
    assert es[..i] == es;
    var table := new HostTable(ofp.text);
    read := ReadAll(table);
  }
}
