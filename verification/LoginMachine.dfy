/** The login state machine on lines that have been looked at, and what it takes to get through it. */
module LoginMachine {

  const LOOP_LIMIT: int := 3
  const SIZE_MAX: int := 0x1_0000_0000_0000_0000

  /** What the machine sees in a line, and the reply that the line asks for if it is a challenge. */
  datatype Look = Look(loneCR: bool, prompt: bool, challenge: bool, reply: string)

  predicate LoneCR(l: Look) { l.loneCR }
  predicate Prompt(l: Look) { !l.loneCR && l.prompt }
  predicate Junk(l: Look) { !l.loneCR && !l.prompt }
  predicate Challenge(l: Look) { !l.loneCR && l.challenge }

  // ----- The write call and the test on its result -----

  /** The count is compared with an unsigned length, so an error, -1, becomes the largest number there is. */
  predicate ShortWrite(nwritten: int, length: nat) {
    (if nwritten < 0 then nwritten + SIZE_MAX else nwritten) < length
  }

  /** A failed write counts as a success; only a write that took part of the message fails. */
  lemma FailedWriteSucceeds(nwritten: int, length: nat)
    requires -1 <= nwritten && length < 0x8000_0000
    ensures ShortWrite(nwritten, length) <==> 0 <= nwritten < length
  {
  }

  /** The message with the call signs, and the result of each write call in turn. */
  datatype Account = Account(call: string, writes: nat -> int)

  predicate Short(a: Account, index: nat, message: string) {
    ShortWrite(a.writes(index), |message|)
  }

  /** The messages the gateway tries to send, and whether the login succeeds. */
  datatype Attempt = Attempt(ok: bool, sent: seq<string>)

  // ----- The state machine on lines -----

  function InCallsign(a: Account, ls: seq<Look>, junk: nat, index: nat): Attempt {
    if ls == [] then Attempt(false, [])
    else if LoneCR(ls[0]) then InCallsign(a, ls[1..], junk, index)
    else if Prompt(ls[0]) then
      var message := a.call;
      if Short(a, index, message) then Attempt(false, [message])
      else
        var rest := InChallenge(a, ls[1..]);
        rest.(sent := [message] + rest.sent)
    else if junk > LOOP_LIMIT then Attempt(false, [])
    else if Short(a, index, "\r") then Attempt(false, ["\r"])
    else
      var rest := InCallsign(a, ls[1..], junk + 1, index + 1);
      rest.(sent := ["\r"] + rest.sent)
  }

  function InChallenge(a: Account, ls: seq<Look>): Attempt {
    if ls == [] then Attempt(false, [])
    else if LoneCR(ls[0]) then InChallenge(a, ls[1..])
    else if Challenge(ls[0]) then Attempt(true, [ls[0].reply])
    else Attempt(false, [])
  }

  // ----- What it takes to log in -----

  function JunkCount(ls: seq<Look>): nat {
    if ls == [] then 0 else (if Junk(ls[0]) then 1 else 0) + JunkCount(ls[1..])
  }

  /** Lines p and q are the prompt and the challenge, with nothing but lone CRs between them. */
  predicate Handshake(ls: seq<Look>, p: nat, q: nat) {
    && p < q < |ls|
    && (forall i :: 0 <= i < p ==> !Prompt(ls[i])) && Prompt(ls[p])
    && (forall i :: p < i < q ==> LoneCR(ls[i])) && Challenge(ls[q])
  }

  function Copies(s: string, n: nat): seq<string> {
    seq(n, _ => s)
  }

  /** One CR for every line of junk before the prompt, then the call signs. */
  function Opening(a: Account, junk: nat): seq<string> {
    Copies("\r", junk) + [a.call]
  }

  /** None of the messages of the opening is cut short, from write call number `index` on. */
  predicate Delivered(a: Account, junk: nat, index: nat) {
    && (forall i :: index <= i < index + junk ==> !Short(a, i, "\r"))
    && !Short(a, index + junk, a.call)
  }

  /** Not too much junk before line p, and the opening gets through. */
  predicate Qualifies(a: Account, ls: seq<Look>, p: nat, junk: nat, index: nat)
    requires p <= |ls|
  {
    junk + JunkCount(ls[..p]) <= LOOP_LIMIT + 1 && Delivered(a, JunkCount(ls[..p]), index)
  }

  lemma JunkFromFront(ls: seq<Look>, p: nat)
    requires 0 < p <= |ls|
    ensures JunkCount(ls[..p]) == (if Junk(ls[0]) then 1 else 0) + JunkCount(ls[1..][..p - 1])
  {
    assert ls[..p][1..] == ls[1..][..p - 1];
  }

  lemma DeliveredFromFront(a: Account, junk: nat, index: nat)
    ensures Delivered(a, junk + 1, index) <==> !Short(a, index, "\r") && Delivered(a, junk, index + 1)
    ensures Opening(a, junk + 1) == ["\r"] + Opening(a, junk)
  {
    assert Copies("\r", junk + 1) == ["\r"] + Copies("\r", junk);
    if Delivered(a, junk, index + 1) && !Short(a, index, "\r") {
      assert forall i :: index <= i < index + junk + 1 ==> i == index || !Short(a, i, "\r");
    }
    if Delivered(a, junk + 1, index) {
      assert !Short(a, index, "\r");
    }
  }

  /** A line before the prompt can be taken off: a lone CR costs nothing, junk one CR sent and one of the tries. */
  lemma ShiftLine(a: Account, ls: seq<Look>, p: nat, q: nat, junk: nat, index: nat)
    requires ls != [] && p < |ls| && !Prompt(ls[0])
    ensures Handshake(ls, p + 1, q + 1) <==> Handshake(ls[1..], p, q)
    ensures LoneCR(ls[0]) ==> (Qualifies(a, ls, p + 1, junk, index) <==> Qualifies(a, ls[1..], p, junk, index))
    ensures Junk(ls[0]) && junk <= LOOP_LIMIT ==>
      (Qualifies(a, ls, p + 1, junk, index) <==>
       !Short(a, index, "\r") && Qualifies(a, ls[1..], p, junk + 1, index + 1))
    ensures Junk(ls[0]) && Qualifies(a, ls, p + 1, junk, index) ==> junk <= LOOP_LIMIT
    ensures Opening(a, JunkCount(ls[..p + 1]))
         == (if Junk(ls[0]) then ["\r"] else []) + Opening(a, JunkCount(ls[1..][..p]))
  {
    JunkFromFront(ls, p + 1);
    DeliveredFromFront(a, JunkCount(ls[1..][..p]), index);
    ShiftHandshake(ls, p, q);
  }

  lemma ShiftHandshake(ls: seq<Look>, p: nat, q: nat)
    requires ls != [] && !Prompt(ls[0])
    ensures Handshake(ls, p + 1, q + 1) <==> Handshake(ls[1..], p, q)
  {
    if Handshake(ls[1..], p, q) {
      assert forall i :: 0 < i < p + 1 ==> ls[i] == ls[1..][i - 1];
      assert forall i :: p + 1 < i < q + 1 ==> ls[i] == ls[1..][i - 1];
    }
  }

  /** Lines that make a handshake log in, and the transcript is the opening and the reply. */
  lemma {:induction false} HandshakeLogsIn(a: Account, ls: seq<Look>, p: nat, q: nat, junk: nat, index: nat)
    requires Handshake(ls, p, q) && Qualifies(a, ls, p, junk, index)
    ensures InCallsign(a, ls, junk, index) == Attempt(true, Opening(a, JunkCount(ls[..p])) + [ls[q].reply])
  {
    if p == 0 {
      assert Copies("\r", 0) == [] && ls[..0] == [];
      ChallengeComes(a, ls[1..], q - 1);
      PromptStep(a, ls, junk, index, ls[q].reply);
    } else {
      ShiftLine(a, ls, p - 1, q - 1, junk, index);
      assert ls[1..][q - 1] == ls[q];
      hide Handshake, Qualifies, Opening, InCallsign;
      if LoneCR(ls[0]) {
        HandshakeLogsIn(a, ls[1..], p - 1, q - 1, junk, index);
        CrStep(a, ls, junk, index);
      } else {
        HandshakeLogsIn(a, ls[1..], p - 1, q - 1, junk + 1, index + 1);
        JunkStep(a, ls, junk, index, Opening(a, JunkCount(ls[1..][..p - 1])) + [ls[q].reply]);
        assert ["\r"] + (Opening(a, JunkCount(ls[1..][..p - 1])) + [ls[q].reply])
            == ["\r"] + Opening(a, JunkCount(ls[1..][..p - 1])) + [ls[q].reply];
      }
    }
  }

  // One turn of the machine before the prompt, for each kind of line.

  lemma PromptStep(a: Account, ls: seq<Look>, junk: nat, index: nat, reply: string)
    requires ls != [] && Prompt(ls[0]) && !Short(a, index, a.call) && InChallenge(a, ls[1..]) == Attempt(true, [reply])
    ensures InCallsign(a, ls, junk, index) == Attempt(true, [a.call] + [reply])
  {
  }

  lemma CrStep(a: Account, ls: seq<Look>, junk: nat, index: nat)
    requires ls != [] && LoneCR(ls[0])
    ensures InCallsign(a, ls, junk, index) == InCallsign(a, ls[1..], junk, index)
  {
  }

  lemma JunkStep(a: Account, ls: seq<Look>, junk: nat, index: nat, sent: seq<string>)
    requires ls != [] && Junk(ls[0]) && junk <= LOOP_LIMIT && !Short(a, index, "\r")
    requires InCallsign(a, ls[1..], junk + 1, index + 1) == Attempt(true, sent)
    ensures InCallsign(a, ls, junk, index) == Attempt(true, ["\r"] + sent)
  {
  }

  lemma {:induction false} ChallengeComes(a: Account, ls: seq<Look>, q: nat)
    requires q < |ls| && (forall i :: 0 <= i < q ==> LoneCR(ls[i])) && Challenge(ls[q])
    ensures InChallenge(a, ls) == Attempt(true, [ls[q].reply])
  {
    if q > 0 {
      ChallengeComes(a, ls[1..], q - 1);
    }
  }

  /** Nothing else does. */
  lemma {:induction false} LoginNeedsHandshake(a: Account, ls: seq<Look>, junk: nat, index: nat)
    returns (p: nat, q: nat)
    requires junk <= LOOP_LIMIT + 1 && InCallsign(a, ls, junk, index).ok
    ensures Handshake(ls, p, q) && Qualifies(a, ls, p, junk, index)
  {
    if Prompt(ls[0]) {
      assert ls[..0] == [];
      q := SuccessNeedsChallenge(a, ls[1..]);
      p, q := 0, q + 1;
    } else {
      hide Handshake, Qualifies, Opening, InChallenge;
      if LoneCR(ls[0]) {
        p, q := LoginNeedsHandshake(a, ls[1..], junk, index);
      } else {
        p, q := LoginNeedsHandshake(a, ls[1..], junk + 1, index + 1);
      }
      ShiftLine(a, ls, p, q, junk, index);
      p, q := p + 1, q + 1;
    }
  }

  lemma {:induction false} SuccessNeedsChallenge(a: Account, ls: seq<Look>) returns (q: nat)
    requires InChallenge(a, ls).ok
    ensures q < |ls| && (forall i :: 0 <= i < q ==> LoneCR(ls[i])) && Challenge(ls[q])
  {
    if LoneCR(ls[0]) {
      q := SuccessNeedsChallenge(a, ls[1..]);
      q := q + 1;
    } else {
      q := 0;
    }
  }

  /**
    The login succeeds if and only if the lines make a handshake whose opening gets through, and then the transcript is
    one CR for each line of junk, the call signs and the reply.
   */
  lemma LoginExactly(a: Account, ls: seq<Look>)
    ensures InCallsign(a, ls, 0, 0).ok <==> exists p: nat, q: nat :: Handshake(ls, p, q) && Qualifies(a, ls, p, 0, 0)
    ensures forall p: nat, q: nat :: Handshake(ls, p, q) && Qualifies(a, ls, p, 0, 0) ==>
      InCallsign(a, ls, 0, 0).sent == Opening(a, JunkCount(ls[..p])) + [ls[q].reply]
  {
    if InCallsign(a, ls, 0, 0).ok {
      var p, q := LoginNeedsHandshake(a, ls, 0, 0);
    }
    forall p: nat, q: nat | Handshake(ls, p, q) && Qualifies(a, ls, p, 0, 0)
      ensures InCallsign(a, ls, 0, 0) == Attempt(true, Opening(a, JunkCount(ls[..p])) + [ls[q].reply])
    {
      HandshakeLogsIn(a, ls, p, q, 0, 0);
    }
  }

  /** At most four CRs, then the call signs at most once, then at most one message more. */
  predicate Transcript(a: Account, sent: seq<string>) {
    exists crs: nat :: crs <= LOOP_LIMIT + 1 && TranscriptWith(a, crs, sent)
  }

  predicate TranscriptWith(a: Account, crs: nat, sent: seq<string>) {
    && crs <= |sent| <= crs + 2
    && (forall i :: 0 <= i < crs ==> sent[i] == "\r") && (crs < |sent| ==> sent[crs] == a.call)
  }

  /** However the login ends, this is all that is sent. */
  lemma {:induction false} TranscriptForm(a: Account, ls: seq<Look>, junk: nat, index: nat)
    requires junk <= LOOP_LIMIT + 1
    ensures exists crs: nat :: junk + crs <= LOOP_LIMIT + 1
              && TranscriptWith(a, crs, InCallsign(a, ls, junk, index).sent)
    ensures junk == 0 ==> Transcript(a, InCallsign(a, ls, junk, index).sent)
  {
    var sent := InCallsign(a, ls, junk, index).sent;
    if ls == [] || Prompt(ls[0]) {
      AtMostOneReply(a, if ls == [] then [] else ls[1..]);
      assert TranscriptWith(a, 0, sent);
    } else if LoneCR(ls[0]) {
      TranscriptForm(a, ls[1..], junk, index);
    } else if junk > LOOP_LIMIT {
      assert TranscriptWith(a, 0, sent);
    } else if Short(a, index, "\r") {
      assert TranscriptWith(a, 1, sent);
    } else {
      TranscriptForm(a, ls[1..], junk + 1, index + 1);
      var rest := InCallsign(a, ls[1..], junk + 1, index + 1).sent;
      var crs: nat :| junk + 1 + crs <= LOOP_LIMIT + 1 && TranscriptWith(a, crs, rest);
      assert TranscriptWith(a, crs + 1, ["\r"] + rest);
    }
  }

  lemma {:induction false} AtMostOneReply(a: Account, ls: seq<Look>)
    ensures |InChallenge(a, ls).sent| <= 1
  {
    if ls != [] && LoneCR(ls[0]) {
      AtMostOneReply(a, ls[1..]);
    }
  }

  /**
    Where neither a CR nor the call signs are ever cut short, the handshake needs no more than four lines of junk before
    the prompt.
   */
  lemma LoginWhenSendsSucceed(a: Account, ls: seq<Look>)
    requires forall i: nat :: !Short(a, i, "\r") && !Short(a, i, a.call)
    ensures InCallsign(a, ls, 0, 0).ok <==> exists p: nat, q: nat :: Handshake(ls, p, q) && JunkCount(ls[..p]) <= 4
  {
    LoginExactly(a, ls);
    if p: nat, q: nat :| Handshake(ls, p, q) && JunkCount(ls[..p]) <= 4 {
      assert Qualifies(a, ls, p, 0, 0);
    }
  }
}
