/** Cutting a byte stream into lines, one read call per byte. */
module ReadLn {
  import opened Text

  const FAILED: int := -1

  /** The bytes that the next line takes: up to and with the end of line, at most maxlen - 1, or all there are. */
  function LineLength(input: string, maxlen: nat, eol: char): (k: nat)
    requires maxlen > 0
    ensures k <= |input| && k < maxlen
  {
    if input == "" || maxlen == 1 then 0
    else if input[0] == eol then 1
    else 1 + LineLength(input[1..], maxlen - 1, eol)
  }

  /** A line of k bytes was not cut by the end of the stream. */
  predicate Whole(input: string, k: nat, maxlen: nat, eol: char)
    requires k <= |input|
  {
    k + 1 == maxlen || (k > 0 && input[k - 1] == eol)
  }

  /** In one line: nothing before the last byte is the end-of-line character, and only it, the cap or the end stops. */
  lemma {:induction false} LineLengthMeans(input: string, maxlen: nat, eol: char)
    requires maxlen > 0
    ensures
      var k := LineLength(input, maxlen, eol);
      && (forall i :: 0 <= i < k - 1 ==> input[i] != eol)
      && (Whole(input, k, maxlen, eol) || k == |input|)
  {
    if input != "" && maxlen > 1 && input[0] != eol {
      LineLengthMeans(input[1..], maxlen - 1, eol);
    }
  }

  /** The value of the function: what the loop variable has come to, one more when no end of line was seen. */
  function ReturnValue(input: string, broken: bool, maxlen: nat, eol: char): int
    requires maxlen > 0
  {
    var k := LineLength(input, maxlen, eol);
    if k > 0 && input[k - 1] == eol then k
    else if k + 1 == maxlen then maxlen
    else if broken then FAILED
    else if k == 0 then 0
    else k + 1
  }

  /** The end of a line comes before the stream ends and while there is room for it. */
  predicate HasLine(input: string, maxlen: nat, eol: char) {
    exists i: nat :: i < |input| && i + 1 < maxlen && input[i] == eol
  }

  /**
    The promise that it is the number of bytes read holds exactly if an end of line comes in time, or if there is room
    and nothing to read at all; otherwise the value is one more, unless it tells of an error.
   */
  lemma CountsBytesRead(input: string, broken: bool, maxlen: nat, eol: char)
    requires maxlen > 0
    ensures
      var k := LineLength(input, maxlen, eol);
      var n := ReturnValue(input, broken, maxlen, eol);
      && (n == k <==> HasLine(input, maxlen, eol) || (input == "" && !broken && maxlen > 1))
      && (n == FAILED <==> broken && |input| + 1 < maxlen && !HasLine(input, maxlen, eol))
      && (n == k || n == k + 1 || n == FAILED)
  {
    var k := LineLength(input, maxlen, eol);
    LineLengthMeans(input, maxlen, eol);
    if i: nat :| i < |input| && i + 1 < maxlen && input[i] == eol {
      assert i >= k - 1;
    }
  }

  /** So for a byte and the end of the stream behind it the value is two. */
  lemma OneByteCountsAsTwo(c: char, maxlen: nat, eol: char)
    requires maxlen > 2 && c != eol
    ensures LineLength([c], maxlen, eol) == 1 && ReturnValue([c], false, maxlen, eol) == 2
  {
    assert [c][1..] == "";
    assert LineLength("", maxlen - 1, eol) == 0;
  }

  /** The lines of a stream, up to its end or to an error. */
  function Lines(input: ByteString, broken: bool, maxlen: nat, eol: char): seq<ByteString>
    requires maxlen > 1
  {
    var k := LineLength(input, maxlen, eol);
    if ReturnValue(input, broken, maxlen, eol) <= 0 || k == 0 then []
    else
      SliceIsBytes(input, k);
      [input[..k]] + Lines(input[k..], broken, maxlen, eol)
  }

  lemma SliceIsBytes(s: ByteString, k: nat)
    requires k <= |s|
    ensures AllBytes(s[..k]) && AllBytes(s[k..])
  {
    assert forall c :: c in s[..k] ==> c in s;
    assert forall c :: c in s[k..] ==> c in s;
  }

  /** A descriptor to read from: the bytes that will come, and whether an error or the end of file follows them. */
  class Reader {
    var input: ByteString
    const broken: bool

    constructor (input: ByteString, broken: bool)
      ensures this.input == input && this.broken == broken
    {
      this.input, this.broken := input, broken;
    }

    method Readln(buf: array<char>, maxlen: nat, eol: char) returns (n: int)
      requires 1 <= maxlen <= buf.Length
      modifies this, buf
      ensures n == ReturnValue(old(input), broken, maxlen, eol)
      ensures var k := LineLength(old(input), maxlen, eol);
        && input == old(input)[k..]
        && (n > 0 ==> buf[..k] == old(input)[..k] && buf[k] == '\0')
        && (AllBytes(old(buf[..])) ==> AllBytes(buf[..]))
    {
      ghost var before := input;
      ghost var k := LineLength(before, maxlen, eol);
      var at := 0;
      n := 1;
      while n < maxlen
        invariant at == n - 1 && 1 <= n <= maxlen && at <= |before|
        invariant AllBytes(before[at..]) && input == before[at..] && buf[..at] == before[..at]
        invariant AllBytes(old(buf[..])) ==> AllBytes(buf[..])
        invariant at > 0 ==> before[at - 1] != eol
        invariant k == at + LineLength(input, maxlen - at, eol)
      {
        if input == "" {
          if broken {
            return FAILED;
          }
          if n == 1 {
            return 0;
          }
          break;
        }
        var c := input[0];
        SliceIsBytes(input, 1);
        assert before[at..][1..] == before[at + 1..];
        input := input[1..];
        buf[at] := c;
        at := at + 1;
        assert buf[..at] == before[..at];
        if c == eol {
          break;
        }
        n := n + 1;
      }
      assert at == k;
      buf[at] := '\0';
      assert buf[..k] == before[..k];
    }
  }
}
