/** The secure gateway login: a state machine over the lines of the CMS. */
module CmsLogin {
  import opened Text
  import Word32
  import ReadLn
  import SglChallenge
  import opened LoginMachine

  const SUCCEED: int := 0
  const FAIL: int := -1
  const RBUF: nat := 1024
  const SBUF: nat := 1024

  // ----- What a line says -----

  predicate StartsNoCase(t: string, pattern: string) {
    |pattern| <= |t| && LowerAll(t[..|pattern|]) == LowerAll(pattern)
  }

  /** strcasestr finds the pattern. */
  predicate ContainsNoCase(t: string, pattern: string) {
    exists i :: 0 <= i <= |t| && StartsNoCase(t[i..], pattern)
  }

  function Word(t: CString, limit: nat): (r: CString)
    ensures |r| <= limit
  {
    if t == "" || limit == 0 || IsSpace(t[0]) then ""
    else
      assert forall c :: c in t[1..] ==> c in t;
      assert t[0] in t;
      [t[0]] + Word(t[1..], limit - 1)
  }

  /** The place behind the white space that starts at place i. */
  function PastSpace(t: CString, i: nat): (p: nat)
    requires i <= |t|
    ensures i <= p <= |t| && (forall j :: i <= j < p ==> IsSpace(t[j])) && (p < |t| ==> !IsSpace(t[p]))
  {
    i + SpaceLength(t[i..])
  }

  function WordAt(t: CString, i: nat): CString
    requires i <= |t|
  {
    assert forall c :: c in t[i..] ==> c in t;
    Word(t[i..], 8)
  }

  /** Where sscanf with ";SQ: %8s" starts to read the code: behind a tag at the start of the line, if there is one. */
  function ScanPlace(t: CString): (p: int)
    ensures p <= |t|
  {
    if ";SQ:" <= t then PastSpace(t, 4) else -1
  }

  /** The code that is read, or none. */
  function ScanChallenge(t: CString): (r: CString)
    ensures |r| <= 8
  {
    if ScanPlace(t) >= 0 then WordAt(t, ScanPlace(t)) else ""
  }

  // ----- The line that is found and the code that is read -----

  const TAG: string := ";SQ: "

  predicate TagAt(t: CString, i: nat)
    requires i <= |t|
  {
    StartsNoCase(t[i..], TAG)
  }

  /** Where the search finds the tag, or -1. */
  function FoundTag(t: CString, from: nat): (i: int)
    ensures i >= 0 ==> from <= i <= |t| && TagAt(t, i) && forall j :: from <= j < i ==> !TagAt(t, j)
    ensures i < 0 ==> forall j :: from <= j <= |t| ==> !TagAt(t, j)
    decreases |t| - from
  {
    if from > |t| then -1 else if TagAt(t, from) then from else FoundTag(t, from + 1)
  }

  /** The search finds a tag exactly if strcasestr does. */
  lemma SearchFinds(t: CString)
    ensures FoundTag(t, 0) >= 0 <==> ContainsNoCase(t, TAG)
  {
    var i := FoundTag(t, 0);
    if i >= 0 {
      assert StartsNoCase(t[i..], TAG);
    } else if j :| 0 <= j <= |t| && StartsNoCase(t[j..], TAG) {
      assert TagAt(t, j);
    }
  }

  /** A code is read exactly if the line starts with the tag in upper case and there is something behind it. */
  lemma CodeReadExactly(t: CString)
    ensures ScanChallenge(t) != "" <==> ";SQ:" <= t && exists i :: 4 <= i < |t| && !IsSpace(t[i])
  {
    if ";SQ:" <= t {
      var p := ScanPlace(t);
      if i :| 4 <= i < |t| && !IsSpace(t[i]) {
        assert p <= i;
      }
    }
  }

  /** The code that is read is the one behind the tag that the search found exactly if the line starts with ";SQ: ". */
  lemma ReadsWhatWasFound(t: CString)
    requires ContainsNoCase(t, TAG)
    ensures
      var i := FoundTag(t, 0);
      0 <= i <= |t| - |TAG| && (ScanPlace(t) == PastSpace(t, i + |TAG|) <==> TAG <= t)
  {
    hide FoundTag, TagAt, PastSpace, ContainsNoCase;
    SearchFinds(t);
    var i := FoundTag(t, 0);
    SpelledTag(t, i);
    if ";SQ:" <= t {
      FoundAtStart(t);
    }
  }

  /** Behind ";SQ:" at the start of a line the search finds either that tag or one further on. */
  lemma FoundAtStart(t: CString)
    requires ";SQ:" <= t && FoundTag(t, 0) >= 0
    ensures if TAG <= t then FoundTag(t, 0) == 0 && t[4] == ' ' else FoundTag(t, 0) >= 4
  {
    hide FoundTag, TagAt;
    var i := FoundTag(t, 0);
    SpelledTag(t, i);
    assert t[0] == ';' && t[1] == 'S' && t[2] == 'Q' && t[3] == ':';
    assert |t| > 4 && t[4] == ' ' ==> t[..5] == TAG;
    if TAG <= t {
      StartIsTag(t);
    }
  }

  lemma StartIsTag(t: CString)
    requires TAG <= t
    ensures TagAt(t, 0)
  {
    assert t[0..] == t && t[..5] == TAG;
  }

  /** A tag that is found starts with a semicolon and ends with a space. */
  lemma SpelledTag(t: CString, i: nat)
    requires i <= |t| && TagAt(t, i)
    ensures i + 5 <= |t| && t[i] == ';' && t[i + 4] == ' '
  {
    var a, b := LowerAll(t[i..][..5]), LowerAll(TAG);
    assert a[0] == b[0] == ';' && a[4] == b[4] == ' ';
    assert a[0] == Lower(t[i]) && a[4] == Lower(t[i + 4]);
  }

  // ----- What the gateway answers -----

  function Truncated(s: CString, size: nat): CString
    requires size > 0
  {
    assert forall c :: c in s[..Min(|s|, size - 1)] ==> c in s;
    s[..Min(|s|, size - 1)]
  }

  function CallMessage(usercall: CString, gwcall: CString): CString {
    Truncated(usercall + " " + gwcall + "\r", SBUF)
  }

  function ReplyMessage(t: CString, passwd: CString): CString {
    ";SR: " + SglChallenge.Response(ScanChallenge(t), passwd) + " 25000001 20\r"
  }

  /** What the machine sees in the text of a line. */
  function LookAt(t: CString, passwd: CString): Look {
    Look(t == "\r", ContainsNoCase(t, "Callsign :"), ContainsNoCase(t, TAG), ReplyMessage(t, passwd))
  }

  // ----- In the letters of the protocol -----

  /** The message with the call signs is cut to the 1023 characters that fit its buffer. */
  lemma CallMessageIs(usercall: CString, gwcall: CString)
    ensures var whole := usercall + " " + gwcall + "\r";
      CallMessage(usercall, gwcall) == if |usercall| + |gwcall| + 2 < 1024 then whole else whole[..1023]
  {
  }

  /** The CMS reads the call sign of the user first: it is what comes before the first blank. */
  lemma UserComesFirst(usercall: CString, gwcall: CString)
    requires ' ' !in usercall && |usercall| < 1023
    ensures var m := CallMessage(usercall, gwcall);
      |usercall| < |m| && m[..|usercall|] == usercall && m[|usercall|] == ' ' && ' ' !in m[..|usercall|]
  {
  }

  /** The same letter, or the capital of a small one. */
  predicate Alike(c: char, small: char) {
    c == small || ('A' <= c <= 'Z' && c as int + 32 == small as int)
  }

  predicate SpellsAt(t: string, i: nat, small: string) {
    i + |small| <= |t| && forall j :: 0 <= j < |small| ==> Alike(t[i + j], small[j])
  }

  predicate Spells(t: string, small: string) {
    exists i: nat :: i <= |t| && SpellsAt(t, i, small)
  }

  lemma LowerIs(c: char, small: char)
    requires !('A' <= small <= 'Z')
    ensures Lower(c) == small <==> Alike(c, small)
  {
  }

  lemma StartsSpells(t: string, i: nat, pattern: string, small: string)
    requires i <= |t| && |small| == |pattern| && LowerAll(pattern) == small
    requires forall j :: 0 <= j < |small| ==> !('A' <= small[j] <= 'Z')
    ensures StartsNoCase(t[i..], pattern) <==> SpellsAt(t, i, small)
  {
    if i + |small| <= |t| {
      var a := LowerAll(t[i..][..|small|]);
      forall j | 0 <= j < |small|
        ensures a[j] == small[j] <==> Alike(t[i + j], small[j])
      {
        LowerIs(t[i + j], small[j]);
      }
      if SpellsAt(t, i, small) {
        assert a == small;
      }
    }
  }

  lemma ContainsSpells(t: string, pattern: string, small: string)
    requires |small| == |pattern| && LowerAll(pattern) == small
    requires forall j :: 0 <= j < |small| ==> !('A' <= small[j] <= 'Z')
    ensures ContainsNoCase(t, pattern) <==> Spells(t, small)
  {
    hide StartsNoCase, SpellsAt, LowerAll;
    if i :| 0 <= i <= |t| && StartsNoCase(t[i..], pattern) {
      StartsSpells(t, i, pattern, small);
    }
    if i: nat :| i <= |t| && SpellsAt(t, i, small) {
      StartsSpells(t, i, pattern, small);
    }
  }

  /** A line is a lone CR, a prompt or a challenge by its letters, in either case. */
  lemma LookMeans(t: CString, passwd: CString)
    ensures var l := LookAt(t, passwd);
      && (l.loneCR <==> t == [13 as char])
      && (l.prompt <==> Spells(t, "callsign :")) && (l.challenge <==> Spells(t, ";sq: "))
  {
    hide ContainsNoCase, ReplyMessage, Spells;
    assert LowerAll("Callsign :") == "callsign :";
    assert LowerAll(TAG) == ";sq: ";
    ContainsSpells(t, "Callsign :", "callsign :");
    ContainsSpells(t, TAG, ";sq: ");
  }

  predicate IsCode(code: string) {
    0 < |code| <= 8 && forall c :: c in code ==> !IsSpace(c)
  }

  lemma {:induction false} WordIs(code: CString, rest: CString, limit: nat)
    requires |code| <= limit && (forall c :: c in code ==> !IsSpace(c))
    requires |code| == limit || (rest != "" && IsSpace(rest[0]))
    ensures Word(code + rest, limit) == code
  {
    if code == "" {
      assert code + rest == rest;
    } else {
      assert forall c :: c in code[1..] ==> c in code;
      assert code[0] in code && (code + rest)[1..] == code[1..] + rest;
      WordIs(code[1..], rest, limit - 1);
    }
  }

  /** What is answered to a challenge as the CMS sends it. */
  lemma ReplyMeans(code: CString, passwd: CString)
    requires IsCode(code)
    ensures
      ReplyMessage(";SQ: " + code + "\r", passwd) == ";SR: " + SglChallenge.Response(code, passwd) + " 25000001 20\r"
  {
    hide Word, SpaceLength;
    var t: CString := ";SQ: " + code + "\r";
    assert t[..4] == ";SQ:";
    assert code[0] in code && t[5] == code[0] && t[4] == ' ';
    var p := PastSpace(t, 4);
    assert p == 5;
    assert t[5..] == code + "\r";
    WordIs(code, "\r", 8);
  }

  /** A login in full: a prompt and a challenge, and what the gateway sends if the call signs can be written. */
  lemma PlainLogin(a: Account, prompt: CString, code: CString, passwd: CString, ls: seq<ByteString>)
    requires prompt == "Callsign :\r" && IsCode(code) && ls == [prompt, ";SQ: " + code + "\r"] && !Short(a, 0, a.call)
    ensures
      InCallsign(a, Looks(ls, passwd), 0, 0) ==
        Attempt(true, [a.call, ";SR: " + SglChallenge.Response(code, passwd) + " 25000001 20\r"])
  {
    hide LookAt, InCallsign, IsCode;
    var challenge: CString := ";SQ: " + code + "\r";
    NoNul(prompt);
    NoNul(challenge);
    PromptLine(prompt, passwd);
    ChallengeLine(challenge, code, passwd);
    LooksOfTwo(ls, prompt, challenge, passwd);
    TwoLines(a, LookAt(prompt, passwd), LookAt(challenge, passwd));
  }

  lemma LooksOfTwo(ls: seq<ByteString>, l: CString, m: CString, passwd: CString)
    requires |ls| == 2 && UpToNul(ls[0]) == l && UpToNul(ls[1]) == m
    ensures Looks(ls, passwd) == [LookAt(l, passwd), LookAt(m, passwd)]
  {
    hide LookAt;
    assert ls[1..][0] == ls[1] && ls[1..][1..] == [];
    assert Looks([], passwd) == [];
    assert Looks(ls[1..], passwd) == [LookAt(m, passwd)] + [];
  }

  lemma TwoLines(a: Account, l: Look, m: Look)
    requires !l.loneCR && l.prompt && !m.loneCR && m.challenge && !Short(a, 0, a.call)
    ensures InCallsign(a, [l, m], 0, 0) == Attempt(true, [a.call, m.reply])
  {
    assert [l, m][1..] == [m];
  }

  lemma PromptLine(t: CString, passwd: CString)
    requires t == "Callsign :\r"
    ensures var l := LookAt(t, passwd);
      !l.loneCR && l.prompt
  {
    hide Spells, LookAt;
    LookMeans(t, passwd);
    assert SpellsAt(t, 0, "callsign :");
    Found(t, 0, "callsign :");
  }

  lemma ChallengeLine(t: CString, code: CString, passwd: CString)
    requires t == ";SQ: " + code + "\r" && IsCode(code)
    ensures var l := LookAt(t, passwd);
      !l.loneCR && l.challenge && l.reply == ";SR: " + SglChallenge.Response(code, passwd) + " 25000001 20\r"
  {
    hide Spells, ContainsNoCase, ReplyMessage;
    LookMeans(t, passwd);
    assert t[0] == ';' && t[1] == 'S' && t[2] == 'Q' && t[3] == ':' && t[4] == ' ';
    assert SpellsAt(t, 0, ";sq: ");
    Found(t, 0, ";sq: ");
    ReplyMeans(code, passwd);
  }

  lemma {:induction false} NoNul(s: CString)
    ensures UpToNul(s) == s
  {
    if s != "" {
      assert s[0] in s;
      assert forall c :: c in s[1..] ==> c in s;
      NoNul(s[1..]);
    }
  }

  lemma Found(t: string, i: nat, small: string)
    requires i <= |t| && SpellsAt(t, i, small)
    ensures Spells(t, small)
  {
  }

  /** So a challenge that does not start its line is recognised but not read. */
  lemma IndentedChallengeIsNotRead(passwd: CString)
    ensures var t: CString := " ;SQ: 12345678\r";
      Challenge(LookAt(t, passwd)) && ScanChallenge(t) == ""
  {
    hide ReplyMessage;
    var t: CString := " ;SQ: 12345678\r";
    assert t[1..][..5] == TAG;
    assert StartsNoCase(t[1..], TAG);
    assert t[0] == ' ' && |t| > 1;
  }

  /** The lines of a stream as the machine sees them. */
  function Looks(ls: seq<ByteString>, passwd: CString): seq<Look> {
    if ls == [] then [] else [LookAt(UpToNul(ls[0]), passwd)] + Looks(ls[1..], passwd)
  }

  datatype State = CALLSIGN | CALLSIGNFAIL | CHALLENGE | CHALLENGEFAIL | RESPONSESENT | LOGINCOMPLETE

  /** A connected socket: what will be read, what each write will return, and the messages that were given to write. */
  class Connection {
    const reader: ReadLn.Reader
    const writes: nat -> int
    var index: nat
    var sent: seq<string>

    constructor (reader: ReadLn.Reader, writes: nat -> int)
      ensures this.reader == reader && this.writes == writes && index == 0 && sent == []
    {
      this.reader, this.writes := reader, writes;
      index, sent := 0, [];
    }

    /** The send half of expectsend. */
    method ExpectSend(message: string) returns (rc: int)
      requires message != ""
      modifies this
      ensures sent == old(sent) + [message] && index == old(index) + 1
      ensures rc == if ShortWrite(writes(old(index)), |message|) then FAIL else SUCCEED
    {
      var nwritten := writes(index);
      index := index + 1;
      sent := sent + [message];
      rc := if ShortWrite(nwritten, |message|) then FAIL else SUCCEED;
    }

    /** The lines that are still to come, as the machine sees them. */
    ghost function Coming(passwd: CString): seq<Look>
      reads reader
    {
      Looks(ReadLn.Lines(reader.input, reader.broken, RBUF, '\r'), passwd)
    }

    /** One line from the CMS, as a C string. */
    method NextLine(rbuf: array<char>, ghost passwd: CString) returns (n: int, line: CString)
      requires rbuf.Length == RBUF && AllBytes(rbuf[..])
      modifies reader, rbuf
      ensures AllBytes(rbuf[..])
      ensures n <= 0 ==> old(Coming(passwd)) == []
      ensures n > 0 ==> old(Coming(passwd)) == [LookAt(line, passwd)] + Coming(passwd)
      ensures n > 0 ==> |reader.input| < |old(reader.input)|
    {
      ghost var before := reader.input;
      ghost var k := ReadLn.LineLength(before, RBUF, '\r');
      ReadLn.LineLengthMeans(before, RBUF, '\r');
      n := reader.Readln(rbuf, RBUF, '\r');
      line := "";
      if n > 0 {
        ReadLn.SliceIsBytes(before, k);
        line := UpToNul(rbuf[..]);
        assert rbuf[..][..k] == rbuf[..k];
        UpToNulStops(rbuf[..], k);
        ghost var ls := ReadLn.Lines(before, reader.broken, RBUF, '\r');
        assert ls[0] == before[..k] && ls[1..] == ReadLn.Lines(reader.input, reader.broken, RBUF, '\r');
      }
    }

    /** A turn of the machine that looks for the login prompt. */
    method OnCallsign(n: int, line: CString, loopCnt: nat, call: CString, ghost ls: seq<Look>, ghost passwd: CString)
      returns (state: State, loops: nat, ghost more: seq<string>)
      requires call != "" && (if n <= 0 then ls == [] else ls != [] && ls[0] == LookAt(line, passwd))
      modifies this
      ensures sent == old(sent) + more
      ensures var r := InCallsign(Account(call, writes), ls, loopCnt, old(index));
        match state
        case CALLSIGNFAIL => r == Attempt(false, more)
        case CALLSIGN => ls != [] && r == Joined(more, InCallsign(Account(call, writes), ls[1..], loops, index))
        case CHALLENGE => ls != [] && r == Joined(more, InChallenge(Account(call, writes), ls[1..]))
        case _ => false
    {
      hide ContainsNoCase, ReplyMessage;
      state, loops, more := CALLSIGN, loopCnt, [];
      if n <= 0 {
        state := CALLSIGNFAIL;
      } else if line == "\r" {
      } else if ContainsNoCase(line, "Callsign :") {
        var rc := ExpectSend(call);
        more := [call];
        state := if rc != 0 then CALLSIGNFAIL else CHALLENGE;
      } else {
        loops := loopCnt + 1;
        if loopCnt > LOOP_LIMIT {
          state := CALLSIGNFAIL;
        } else {
          var rc := ExpectSend("\r");
          more := ["\r"];
          if rc < 0 {
            state := CALLSIGNFAIL;
          }
        }
      }
    }

    /** A turn of the machine that looks for the challenge. */
    method OnChallenge(n: int, line: CString, passwd: CString, ghost a: Account, ghost ls: seq<Look>)
      returns (state: State, ghost more: seq<string>)
      requires |passwd| + 8 + 64 < Word32.TWO31
      requires if n <= 0 then ls == [] else ls != [] && ls[0] == LookAt(line, passwd)
      modifies this
      ensures sent == old(sent) + more
      ensures var r := InChallenge(a, ls);
        match state
        case CHALLENGEFAIL => r == Attempt(false, more)
        case CHALLENGE => ls != [] && r == Joined(more, InChallenge(a, ls[1..]))
        case RESPONSESENT => r == Attempt(true, more)
        case LOGINCOMPLETE => r == Attempt(true, more)
        case _ => false
    {
      hide ContainsNoCase;
      state, more := CHALLENGE, [];
      if n <= 0 {
        state := CHALLENGEFAIL;
      } else if line == "\r" {
      } else if ContainsNoCase(line, TAG) {
        var challenge := ScanChallenge(line);
        var response := SglChallenge.ChallengeResponse(challenge, passwd);
        var sbuf := ";SR: " + response + " 25000001 20\r";
        var rc := ExpectSend(sbuf);
        more := [sbuf];
        state := if rc < 0 then LOGINCOMPLETE else RESPONSESENT;
      } else {
        state := CHALLENGEFAIL;
      }
    }

    /** The loop over the lines. */
    method RunMachine(passwd: CString, usercall: CString, gwcall: CString) returns (rc: int)
      requires |passwd| + 8 + 64 < Word32.TWO31 && index == 0 && sent == []
      modifies this, reader
      ensures var r := InCallsign(Account(CallMessage(usercall, gwcall), writes), old(Coming(passwd)), 0, 0);
        rc == (if r.ok then SUCCEED else FAIL) && sent == r.sent
    {
      hide InCallsign, InChallenge, Coming, LookAt;
      var call := CallMessage(usercall, gwcall);
      ghost var a := Account(call, writes);
      ghost var all := InCallsign(a, Coming(passwd), 0, 0);
      var rbuf := new char[RBUF](_ => '\0');
      var state, loopCnt := CALLSIGN, 0;
      assert all == Joined([], all);
      while state == CALLSIGN || state == CHALLENGE
        invariant AllBytes(rbuf[..]) && loopCnt >= 0
        invariant match state
          case CALLSIGN => all == Joined(sent, InCallsign(a, Coming(passwd), loopCnt, index))
          case CHALLENGE => all == Joined(sent, InChallenge(a, Coming(passwd)))
          case _ => all == Attempt(state == RESPONSESENT || state == LOGINCOMPLETE, sent)
        decreases if state == CALLSIGN || state == CHALLENGE then |reader.input| + 1 else 0
      {
        ghost var ls, before, more := Coming(passwd), sent, [];
        var n, line := NextLine(rbuf, passwd);
        if state == CALLSIGN {
          state, loopCnt, more := OnCallsign(n, line, loopCnt, call, ls, passwd);
        } else {
          state, more := OnChallenge(n, line, passwd, a, ls);
        }
        JoinedTwice(before, more, if state == CALLSIGN then InCallsign(a, Coming(passwd), loopCnt, index)
                                  else InChallenge(a, Coming(passwd)));
      }
      rc := if state == CALLSIGNFAIL || state == CHALLENGEFAIL then FAIL else SUCCEED;
    }

    /** The login as a whole. */
    method SglProcess(passwd: CString, usercall: CString, gwcall: CString) returns (rc: int)
      requires |passwd| + 8 + 64 < Word32.TWO31 && index == 0 && sent == []
      modifies this, reader
      ensures rc == SUCCEED || rc == FAIL
      ensures old(Coming(passwd)) == Looks(ReadLn.Lines(old(reader.input), reader.broken, 1024, '\r'), passwd)
      ensures var a, ls := Account(CallMessage(usercall, gwcall), writes), old(Coming(passwd));
        && (rc == SUCCEED <==> exists p: nat, q: nat :: Handshake(ls, p, q) && Qualifies(a, ls, p, 0, 0))
        && (forall p: nat, q: nat :: Handshake(ls, p, q) && Qualifies(a, ls, p, 0, 0) ==>
              sent == Opening(a, JunkCount(ls[..p])) + [ls[q].reply])
        && sent == InCallsign(a, ls, 0, 0).sent && Transcript(a, sent)
      ensures rc == SUCCEED ==>
        var whole := usercall + " " + gwcall + "\r";
        |sent| >= 2 && sent[|sent| - 2] == if |usercall| + |gwcall| + 2 < 1024 then whole else whole[..1023]
    {
      hide Looks, LookAt, CallMessage, Handshake, Qualifies, InCallsign, Transcript;
      ghost var a, ls := Account(CallMessage(usercall, gwcall), writes), Coming(passwd);
      CallMessageIs(usercall, gwcall);
      TranscriptForm(a, ls, 0, 0);
      LoginExactly(a, ls);
      rc := RunMachine(passwd, usercall, gwcall);
    }
  }

  /** What has been sent, and the rest. */
  function Joined(sent: seq<string>, rest: Attempt): Attempt {
    Attempt(rest.ok, sent + rest.sent)
  }

  lemma JoinedTwice(sent: seq<string>, more: seq<string>, rest: Attempt)
    ensures Joined(sent, Joined(more, rest)) == Joined(sent + more, rest)
  {
    assert sent + (more + rest.sent) == sent + more + rest.sent;
  }
}
