/** The secure gateway login response: a salted digest cut down to eight decimal digits. */
module SglChallenge {
  import opened Word32
  import opened Text
  import Rfc1321
  import Rfc1321Answers
  import Md5

  const SALT1: seq<Byte> := [77, 197, 101, 206, 190, 249, 93, 200, 51, 243, 93, 237, 71, 94, 239, 138]
  const SALT2: seq<Byte> := [68, 108, 70, 185, 225, 137, 217, 16, 51, 122, 193, 48, 194, 195, 198, 175]
  const SALT3: seq<Byte> := [172, 169, 70, 84, 61, 62, 104, 186, 114, 52, 61, 168, 66, 129, 192, 208]
  const SALT4: seq<Byte> := [187, 249, 232, 193, 41, 113, 41, 45, 240, 16, 29, 228, 208, 228, 61, 20]

  /** The salt, in rows of sixteen bytes. */
  const SALT: seq<Byte> := SALT1 + SALT2 + SALT3 + SALT4

  /** The first four bytes of a digest as a little-endian number of thirty bits. */
  function Code(digest: seq<Byte>): (v: nat)
    requires |digest| == 16
    ensures v < 0x4000_0000
  {
    digest[0] as int + 0x100 * (digest[1] as int) + 0x1_0000 * (digest[2] as int)
      + 0x100_0000 * (digest[3] as int % 64)
  }

  function Salted(challenge: CString, password: CString): seq<Byte> {
    Bytes(challenge) + Bytes(password) + SALT
  }

  /** The response as the protocol means it: the code of the salted digest, its last eight decimal digits. */
  function Response(challenge: CString, password: CString): (r: CString)
    ensures |r| >= 8
  {
    ZeroPadded(Code(Rfc1321.Digest(Salted(challenge, password))) % 100_000_000, 8)
  }

  /** Eight digits exactly, and what they stand for. */
  lemma ResponseDigits(challenge: CString, password: CString)
    ensures
      var r := Response(challenge, password);
      && |r| == 8
      && (forall c :: c in r ==> IsDigit(c))
      && Value(r) == Code(Rfc1321.Digest(Salted(challenge, password))) % 100_000_000
  {
    Pow10Of8();
    ZeroPaddedFits(Code(Rfc1321.Digest(Salted(challenge, password))) % 100_000_000, 8);
  }

  lemma Pow10Of8()
    ensures Pow10(8) == 100_000_000 && Pow10(10) == 10_000_000_000
  {
    assert Pow10(4) == 10_000;
  }

  /** A response as the CMS expects it: it hangs on the salt, on the order of what is hashed and on the masked bits. */
  lemma KnownResponse()
    ensures Response("23753528", "FooBar") == "95074758"
  {
    hide Rfc1321.Digest, Code, Salted, ZeroPadded;
    var message := Salted("23753528", "FooBar");
    KnownMessage(message);
    Rfc1321Answers.LoginDigest(message);
    KnownCode();
    KnownDigits();
  }

  lemma KnownMessage(message: seq<Byte>)
    requires message == Salted("23753528", "FooBar")
    ensures Rfc1321Answers.IsLogin(message)
  {
    hide Bytes, Rfc1321Answers.LoginText, Rfc1321Answers.LoginSalt1, Rfc1321Answers.LoginSalt2;
    hide Rfc1321Answers.LoginSalt3, Rfc1321Answers.LoginSalt4;
    var text := Bytes("23753528") + Bytes("FooBar");
    Regrouped(text, SALT1, SALT2, SALT3, SALT4);
    KnownText(message, "23753528", "FooBar", SALT);
    KnownSalt1(message, text, SALT2 + SALT3 + SALT4);
    KnownSalt2(message, text + SALT1, SALT3 + SALT4);
    KnownSalt3(message, text + SALT1 + SALT2, SALT4);
    KnownSalt4(message, text + SALT1 + SALT2 + SALT3, []);
  }

  lemma Regrouped(text: seq<Byte>, a: seq<Byte>, b: seq<Byte>, c: seq<Byte>, d: seq<Byte>)
    ensures var message := text + (a + b + c + d);
      && message == text + a + (b + c + d) && message == text + a + b + (c + d)
      && message == text + a + b + c + d && message == text + a + b + c + d + []
  {
  }

  lemma KnownText(message: seq<Byte>, challenge: CString, password: CString, after: seq<Byte>)
    requires challenge == "23753528" && password == "FooBar"
    requires message == Bytes(challenge) + Bytes(password) + after && |message| == 78
    ensures Rfc1321Answers.LoginText(message)
  {
    hide Bytes;
    BytesAt(challenge);
    BytesAt(password);
    assert forall i :: 0 <= i < 8 ==> message[i] == challenge[i] as int;
    assert forall i :: 0 <= i < 6 ==> message[8 + i] == password[i] as int;
  }

  lemma {:induction false} BytesAt(s: CString)
    ensures forall i :: 0 <= i < |s| ==> Bytes(s)[i] == s[i] as int
  {
    if s != "" {
      assert s[0] in s;
      assert forall c :: c in s[1..] ==> c in s;
      BytesAt(s[1..]);
      assert forall i :: 0 < i < |s| ==> Bytes(s)[i] == Bytes(s[1..])[i - 1];
    }
  }

  lemma KnownSalt1(message: seq<Byte>, before: seq<Byte>, after: seq<Byte>)
    requires message == before + SALT1 + after && |message| == 78 && |before| == 14
    ensures Rfc1321Answers.LoginSalt1(message)
  {
  }

  lemma KnownSalt2(message: seq<Byte>, before: seq<Byte>, after: seq<Byte>)
    requires message == before + SALT2 + after && |message| == 78 && |before| == 30
    ensures Rfc1321Answers.LoginSalt2(message)
  {
  }

  lemma KnownSalt3(message: seq<Byte>, before: seq<Byte>, after: seq<Byte>)
    requires message == before + SALT3 + after && |message| == 78 && |before| == 46
    ensures Rfc1321Answers.LoginSalt3(message)
  {
  }

  lemma KnownSalt4(message: seq<Byte>, before: seq<Byte>, after: seq<Byte>)
    requires message == before + SALT4 + after && |message| == 78 && |before| == 62
    ensures Rfc1321Answers.LoginSalt4(message)
  {
  }

  lemma KnownCode()
    ensures Code([
      0xc6, 0x9a, 0xa0, 0x8b, 0x98, 0xfe, 0xf1, 0x5e, 0xe6, 0x50, 0x74, 0x40, 0x8c, 0xb9, 0x7a, 0x4e
    ]) == 195_074_758
  {
  }

  lemma KnownValue()
    ensures Value("95074758") == 95_074_758
  {
    assert Value("") == 0;
    OneMoreDigit("", '9', "9");
    OneMoreDigit("9", '5', "95");
    OneMoreDigit("95", '0', "950");
    OneMoreDigit("950", '7', "9507");
    OneMoreDigit("9507", '4', "95074");
    OneMoreDigit("95074", '7', "950747");
    OneMoreDigit("950747", '5', "9507475");
    OneMoreDigit("9507475", '8', "95074758");
  }

  lemma OneMoreDigit(s: string, c: char, t: string)
    requires IsDigit(c) && t == s + [c]
    ensures Value(t) == 10 * Value(s) + (c as int - '0' as int)
  {
    assert t[..|s|] == s;
  }

  lemma KnownDigits()
    ensures ZeroPadded(95_074_758, 8) == "95074758"
  {
    Pow10Of8();
    ZeroPaddedFits(95_074_758, 8);
    KnownValue();
    SameValue(ZeroPadded(95_074_758, 8), "95074758");
  }

  /** The strings that are hashed, put together in one buffer, and the union that takes the first bytes. */
  method ChallengedPassword(challenge: CString, password: CString) returns (value: nat)
    requires |challenge| + |password| + 64 < TWO31
    ensures value == Code(Rfc1321.Digest(Salted(challenge, password)))
  {
    var tmpCP := Bytes(challenge);
    tmpCP := tmpCP + Bytes(password);
    tmpCP := tmpCP + SALT[..64];
    var digest := Md5.Hash(tmpCP);
    assert tmpCP == Salted(challenge, password);
    value := IntValue(digest);
  }

  /** The union of a 32-bit integer and four bytes, on a little-endian machine. */
  method IntValue(digest: array<Byte>) returns (value: nat)
    requires digest.Length == 16
    ensures value == Code(digest[..])
  {
    var byteArr := new Byte[4];
    byteArr[3] := digest[3] % 64;
    var i := 2;
    while i >= 0
      invariant -1 <= i <= 2
      invariant byteArr[3] == digest[3] % 64
      invariant forall j :: i < j <= 2 ==> byteArr[j] == digest[j]
    {
      byteArr[i] := digest[i];
      i := i - 1;
    }
    value := byteArr[0] as int + 0x100 * (byteArr[1] as int) + 0x1_0000 * (byteArr[2] as int)
      + 0x100_0000 * (byteArr[3] as int);
  }

  /** Ten digits are printed into an eleven-byte buffer and the first two are skipped. */
  method ChallengeResponse(challenge: CString, pass: CString) returns (response: CString)
    requires |challenge| + |pass| + 64 < TWO31
    ensures response == Response(challenge, pass)
  {
    var retVal := ChallengedPassword(challenge, pass);
    var respStr := ZeroPadded(retVal, 10);
    SkipTwo(retVal);
    response := respStr[2..];
  }

  /** Thirty bits always print as ten digits, which fill the buffer, and the last eight are the remainder. */
  lemma SkipTwo(v: nat)
    requires v < 0x4000_0000
    ensures |ZeroPadded(v, 10)| + 1 == 11
    ensures ZeroPadded(v, 10)[2..] == ZeroPadded(v % 100_000_000, 8)
  {
    Pow10Of8();
    ZeroPaddedFits(v, 10);
    ZeroPaddedFits(v % 100_000_000, 8);
    var s := ZeroPadded(v, 10);
    ValueOfSuffix(s, 8);
    SameValue(s[2..], ZeroPadded(v % 100_000_000, 8));
  }

  /** Digit strings of one length are told apart by their values. */
  lemma {:induction false} SameValue(s: string, t: string)
    requires |s| == |t| && (forall c :: c in s ==> IsDigit(c)) && (forall c :: c in t ==> IsDigit(c))
    requires Value(s) == Value(t)
    ensures s == t
  {
    if s != [] {
      var n := |s| - 1;
      assert s == s[..n] + [s[n]] && t == t[..n] + [t[n]];
      LastDigit(Value(s[..n]), s[n], Value(t[..n]), t[n]);
      SameValue(s[..n], t[..n]);
    }
  }

  lemma LastDigit(v: nat, c: char, w: nat, d: char)
    requires IsDigit(c) && IsDigit(d) && 10 * v + DigitValue(c) == 10 * w + DigitValue(d)
    ensures v == w && c == d
  {
  }
}
