/** What a conversation through the gateway is, told only from the events of its history. */
module RelayHistory {

  const BUFLEN: nat := 8192
  const CONV_TIMEOUT: nat := 60
  const KEEP_ALIVE: string := ";;;;;;\r\n"

  /** The bytes of one read. */
  type Chunk = d: string | 1 <= |d| <= BUFLEN witness "F"

  /** The two bytes of memory in front of the static buffer, which the FF test of a short chunk looks at. */
  type Below = b: string | |b| == 2 witness "  "

  datatype Event =
    | Peeked(c: char)
    | FromCms(data: Chunk, below: Below)
    | FromAx(data: Chunk, below: Below)
    | PassEnd

  type History = seq<Event>

  predicate IsChunk(e: Event) { e.FromCms? || e.FromAx? }

  // ----- The static buffer -----

  type Buffer = b: string | |b| == BUFLEN witness seq(BUFLEN, _ => '\0')

  /** Every read overwrites the front of the buffer and leaves the rest as it was. */
  function Overlay(b: Buffer, d: string): Buffer
    requires |d| <= BUFLEN
  {
    d + b[|d|..]
  }

  function BufferStep(b: Buffer, e: Event): Buffer {
    match e
    case Peeked(c) => Overlay(b, [c])
    case FromCms(d, _) => Overlay(b, d)
    case FromAx(d, _) => Overlay(b, d)
    case PassEnd => b
  }

  function BufferAfter(b: Buffer, h: History): Buffer {
    if h == [] then b else BufferStep(BufferAfter(b, h[..|h| - 1]), h[|h| - 1])
  }

  /** The keep-alive test looks at eight bytes of the buffer, however many were read. */
  predicate LooksKeepAlive(b: Buffer) {
    b[..8] == KEEP_ALIVE
  }

  // ----- The FF and FQ handshake -----

  /** Byte i of a chunk, where -1 and -2 are the bytes of memory below it. */
  function ByteAt(e: Event, i: int): char
    requires IsChunk(e) && -2 <= i < |e.data|
  {
    if i < 0 then e.below[i + 2] else e.data[i]
  }

  /** Third and second byte from the end, which for a short chunk lie in the memory below the buffer. */
  predicate EndsInFF(e: Event)
    requires IsChunk(e)
  {
    ByteAt(e, |e.data| - 3) == 'F' && ByteAt(e, |e.data| - 2) == 'F'
  }

  /** The sense of the chunk does not depend on the memory below the buffer. */
  predicate Firm(d: string) {
    |d| >= 3 || (|d| == 2 && d[0] != 'F')
  }

  /** The FF test of a chunk gives the same for all memory below the buffer exactly when the chunk is firm. */
  lemma FirmExactly(d: Chunk)
    ensures (forall b: Below, c: Below :: EndsInFF(FromAx(d, b)) == EndsInFF(FromAx(d, c))) <==> Firm(d)
    ensures (forall b: Below, c: Below :: EndsInFF(FromCms(d, b)) == EndsInFF(FromCms(d, c))) <==> Firm(d)
  {
    var b: Below, c: Below := "FF", "  ";
    if !Firm(d) {
      assert EndsInFF(FromAx(d, b)) && !EndsInFF(FromAx(d, c));
      assert EndsInFF(FromCms(d, b)) && !EndsInFF(FromCms(d, c));
    }
  }

  predicate IsFQ(e: Event)
    requires IsChunk(e)
  {
    |e.data| == 3 && e.data[0] == 'F' && e.data[1] == 'Q'
  }

  /** A three-byte chunk that is neither FF nor FQ takes the other side's FF back. */
  predicate TurnsLine(e: Event)
    requires IsChunk(e)
  {
    |e.data| == 3 && !IsFQ(e) && !EndsInFF(e)
  }

  predicate ClientFF(e: Event) { e.FromAx? && EndsInFF(e) }
  predicate CmsFF(e: Event) { e.FromCms? && EndsInFF(e) }
  predicate CmsTurns(e: Event) { e.FromCms? && TurnsLine(e) }
  predicate ClientTurns(e: Event) { e.FromAx? && TurnsLine(e) }

  /** The client has sent FF, and the CMS has not turned the line round since. */
  predicate ClientDone(h: History) {
    h != [] && (ClientFF(h[|h| - 1]) || (ClientDone(h[..|h| - 1]) && !CmsTurns(h[|h| - 1])))
  }

  /** The CMS has sent FF, and the client has not turned the line round since. */
  predicate CmsDone(h: History) {
    h != [] && (CmsFF(h[|h| - 1]) || (CmsDone(h[..|h| - 1]) && !ClientTurns(h[|h| - 1])))
  }

  /** Event e after history h is a closing FQ: it answers an FF of the other side that still stands. */
  predicate CmsCloses(h: History, e: Event) { e.FromCms? && IsFQ(e) && ClientDone(h) }
  predicate ClientCloses(h: History, e: Event) { e.FromAx? && IsFQ(e) && CmsDone(h) }

  predicate Closes(h: History, e: Event) { CmsCloses(h, e) || ClientCloses(h, e) }

  predicate CmsClosed(h: History) {
    h != [] && (CmsCloses(h[..|h| - 1], h[|h| - 1]) || CmsClosed(h[..|h| - 1]))
  }

  predicate ClientClosed(h: History) {
    h != [] && (ClientCloses(h[..|h| - 1], h[|h| - 1]) || ClientClosed(h[..|h| - 1]))
  }

  /** The handshake was completed from one side or the other. */
  predicate Closed(h: History) { CmsClosed(h) || ClientClosed(h) }

  /** In one line: the FF of the client stands when there is one with no turn of the CMS behind it. */
  lemma {:induction false} ClientDoneMeans(h: History)
    ensures ClientDone(h) <==>
            exists i :: 0 <= i < |h| && ClientFF(h[i]) && forall j :: i < j < |h| ==> !CmsTurns(h[j])
  {
    if h != [] {
      var n := |h| - 1;
      var g := h[..n];
      ClientDoneMeans(g);
      if ClientFF(h[n]) {
      } else if ClientDone(h) {
        var i :| 0 <= i < n && ClientFF(g[i]) && forall j :: i < j < n ==> !CmsTurns(g[j]);
        assert ClientFF(h[i]) && forall j :: i < j < |h| ==> !CmsTurns(h[j]) by {
          assert forall j :: i < j < n ==> h[j] == g[j];
        }
      }
    }
  }

  lemma {:induction false} CmsDoneMeans(h: History)
    ensures CmsDone(h) <==>
            exists i :: 0 <= i < |h| && CmsFF(h[i]) && forall j :: i < j < |h| ==> !ClientTurns(h[j])
  {
    if h != [] {
      var n := |h| - 1;
      var g := h[..n];
      CmsDoneMeans(g);
      if CmsFF(h[n]) {
      } else if CmsDone(h) {
        var i :| 0 <= i < n && CmsFF(g[i]) && forall j :: i < j < n ==> !ClientTurns(g[j]);
        assert CmsFF(h[i]) && forall j :: i < j < |h| ==> !ClientTurns(h[j]) by {
          assert forall j :: i < j < n ==> h[j] == g[j];
        }
      }
    }
  }

  /** The conversation is closed when somewhere an FQ of three bytes came while the other side's FF stood. */
  lemma {:induction false} ClosedMeans(h: History)
    ensures CmsClosed(h) <==> exists i :: 0 <= i < |h| && CmsCloses(h[..i], h[i])
    ensures ClientClosed(h) <==> exists i :: 0 <= i < |h| && ClientCloses(h[..i], h[i])
  {
    hide CmsCloses, ClientCloses;
    if h != [] {
      var n := |h| - 1;
      var g := h[..n];
      ClosedMeans(g);
      assert forall i :: 0 <= i < n ==> g[..i] == h[..i] && g[i] == h[i];
      if CmsClosed(g) {
        var i :| 0 <= i < n && CmsCloses(g[..i], g[i]);
        assert CmsCloses(h[..i], h[i]);
      }
      if ClientClosed(g) {
        var i :| 0 <= i < n && ClientCloses(g[..i], g[i]);
        assert ClientCloses(h[..i], h[i]);
      }
    }
  }

  /** The same events but for the memory below the buffer. */
  predicate Alike(e: Event, f: Event) {
    e == f || (e.FromCms? && f.FromCms? && e.data == f.data) || (e.FromAx? && f.FromAx? && e.data == f.data)
  }

  predicate AllAlike(g: History, h: History) {
    |g| == |h| && forall i :: 0 <= i < |g| ==> Alike(g[i], h[i])
  }

  predicate AllFirm(h: History) {
    forall i :: 0 <= i < |h| && IsChunk(h[i]) ==> Firm(h[i].data)
  }

  lemma SameSense(e: Event, f: Event)
    requires Alike(e, f) && (IsChunk(e) ==> Firm(e.data))
    ensures ClientFF(e) == ClientFF(f) && CmsFF(e) == CmsFF(f)
    ensures CmsTurns(e) == CmsTurns(f) && ClientTurns(e) == ClientTurns(f)
    ensures e.FromCms? == f.FromCms? && e.FromAx? == f.FromAx? && (IsChunk(e) ==> IsFQ(e) == IsFQ(f))
  {
  }

  /** So the flags of a conversation of firm chunks are told by the bytes alone. */
  lemma {:induction false} FirmFlags(g: History, h: History)
    requires AllAlike(g, h) && AllFirm(g)
    ensures ClientDone(g) == ClientDone(h) && CmsDone(g) == CmsDone(h)
    ensures CmsClosed(g) == CmsClosed(h) && ClientClosed(g) == ClientClosed(h)
  {
    hide ClientFF, CmsFF, CmsTurns, ClientTurns, IsFQ, Alike, Firm;
    if g != [] {
      var n := |g| - 1;
      FirmFlags(g[..n], h[..n]);
      SameSense(g[n], h[n]);
    }
  }

  // ----- The handshake by its letters -----

  /** The two bytes in front of the last one of a chunk, where its end lies in the memory below if it is short. */
  predicate Ends(e: Event, word: string) {
    IsChunk(e) && (e.below + e.data)[|e.data| - 1..|e.data| + 1] == word
  }

  /** A chunk of three bytes that starts with these two. */
  predicate Says(e: Event, word: string) {
    IsChunk(e) && |e.data| == 3 && e.data[..2] == word
  }

  lemma TwoLetters(s: string, i: nat, c: char, d: char)
    requires i + 2 <= |s|
    ensures s[i..i + 2] == [c, d] <==> s[i] == c && s[i + 1] == d
  {
    assert s[i..i + 2] == [s[i], s[i + 1]];
  }

  lemma EndLetters(e: Event)
    requires IsChunk(e)
    ensures EndsInFF(e) <==> Ends(e, "FF")
  {
    var all, n := e.below + e.data, |e.data|;
    assert all[n - 1] == ByteAt(e, n - 3) && all[n] == ByteAt(e, n - 2);
    TwoLetters(all, n - 1, 'F', 'F');
  }

  lemma LettersOf(e: Event)
    requires IsChunk(e)
    ensures EndsInFF(e) <==> Ends(e, "FF")
    ensures IsFQ(e) <==> Says(e, "FQ")
    ensures TurnsLine(e) <==> |e.data| == 3 && !Says(e, "FQ") && !Says(e, "FF")
  {
    hide Ends;
    EndLetters(e);
    if |e.data| == 3 {
      TwoLetters(e.data, 0, 'F', 'Q');
      TwoLetters(e.data, 0, 'F', 'F');
      assert e.data[0..2] == e.data[..2];
    }
  }

  /** The CMS closes: an FF of the client, no turn of the line after it, and an FQ. */
  predicate CmsAnswers(h: History, i: nat, j: nat)
    requires i < j < |h|
  {
    && h[i].FromAx? && Ends(h[i], "FF") && h[j].FromCms? && Says(h[j], "FQ")
    && forall k :: i < k < j && h[k].FromCms? && |h[k].data| == 3 ==> Says(h[k], "FQ") || Says(h[k], "FF")
  }

  predicate ClientAnswers(h: History, i: nat, j: nat)
    requires i < j < |h|
  {
    && h[i].FromCms? && Ends(h[i], "FF") && h[j].FromAx? && Says(h[j], "FQ")
    && forall k :: i < k < j && h[k].FromAx? && |h[k].data| == 3 ==> Says(h[k], "FQ") || Says(h[k], "FF")
  }

  lemma LettersOfAll(h: History)
    ensures forall i :: 0 <= i < |h| ==>
      && (ClientFF(h[i]) <==> h[i].FromAx? && Ends(h[i], "FF")) && (CmsFF(h[i]) <==> h[i].FromCms? && Ends(h[i], "FF"))
      && (CmsTurns(h[i]) <==> h[i].FromCms? && |h[i].data| == 3 && !Says(h[i], "FQ") && !Says(h[i], "FF"))
      && (ClientTurns(h[i]) <==> h[i].FromAx? && |h[i].data| == 3 && !Says(h[i], "FQ") && !Says(h[i], "FF"))
      && (IsChunk(h[i]) ==> (IsFQ(h[i]) <==> Says(h[i], "FQ")))
  {
    hide EndsInFF, IsFQ, TurnsLine, Ends, Says;
    forall i | 0 <= i < |h| && IsChunk(h[i])
      ensures EndsInFF(h[i]) <==> Ends(h[i], "FF")
      ensures IsFQ(h[i]) <==> Says(h[i], "FQ")
      ensures TurnsLine(h[i]) <==> |h[i].data| == 3 && !Says(h[i], "FQ") && !Says(h[i], "FF")
    {
      LettersOf(h[i]);
    }
  }

  /** The handshake from its bytes alone. */
  lemma ClosedInLetters(h: History)
    ensures CmsClosed(h) <==> exists i: nat, j: nat :: i < j < |h| && CmsAnswers(h, i, j)
    ensures ClientClosed(h) <==> exists i: nat, j: nat :: i < j < |h| && ClientAnswers(h, i, j)
  {
    hide EndsInFF, IsFQ, TurnsLine, Ends, Says, CmsClosed, ClientClosed, ClientDone, CmsDone;
    ClosedMeans(h);
    forall j: nat | j < |h|
      ensures CmsCloses(h[..j], h[j]) <==> exists i: nat :: i < j && CmsAnswers(h, i, j)
      ensures ClientCloses(h[..j], h[j]) <==> exists i: nat :: i < j && ClientAnswers(h, i, j)
    {
      ClosesInLetters(h, j);
    }
  }

  lemma ClosesInLetters(h: History, j: nat)
    requires j < |h|
    ensures CmsCloses(h[..j], h[j]) <==> exists i: nat :: i < j && CmsAnswers(h, i, j)
    ensures ClientCloses(h[..j], h[j]) <==> exists i: nat :: i < j && ClientAnswers(h, i, j)
  {
    hide EndsInFF, IsFQ, TurnsLine, Ends, Says, ClientDone, CmsDone, ClientFF, CmsFF, CmsTurns, ClientTurns;
    var g := h[..j];
    LettersOfAll(h);
    ClientDoneMeans(g);
    CmsDoneMeans(g);
    assert forall k :: 0 <= k < j ==> g[k] == h[k];
    if CmsCloses(g, h[j]) {
      var i: nat :| i < |g| && ClientFF(g[i]) && forall k :: i < k < |g| ==> !CmsTurns(g[k]);
      assert CmsAnswers(h, i, j);
    }
    if i: nat :| i < j && CmsAnswers(h, i, j) {
      assert ClientFF(g[i]) && forall k :: i < k < |g| ==> !CmsTurns(g[k]);
    }
    if ClientCloses(g, h[j]) {
      var i: nat :| i < |g| && CmsFF(g[i]) && forall k :: i < k < |g| ==> !ClientTurns(g[k]);
      assert ClientAnswers(h, i, j);
    }
    if i: nat :| i < j && ClientAnswers(h, i, j) {
      assert CmsFF(g[i]) && forall k :: i < k < |g| ==> !ClientTurns(g[k]);
    }
  }

  // ----- What goes where -----

  /** The CMS chunk that ends a history is eaten. */
  predicate Eaten(b: Buffer, h: History)
    requires h != [] && h[|h| - 1].FromCms?
  {
    LooksKeepAlive(BufferAfter(b, h))
  }

  /** The CMS chunks that are not eaten, in order. */
  function ToAx(b: Buffer, h: History): string {
    if h == [] then ""
    else
      ToAx(b, h[..|h| - 1]) + (if h[|h| - 1].FromCms? && !Eaten(b, h) then h[|h| - 1].data else "")
  }

  /** The AX.25 chunks, in order. */
  function ToCms(h: History): string {
    if h == [] then ""
    else ToCms(h[..|h| - 1]) + (if h[|h| - 1].FromAx? then h[|h| - 1].data else "")
  }

  function BytesFromCms(h: History): nat {
    if h == [] then 0
    else BytesFromCms(h[..|h| - 1]) + (if h[|h| - 1].FromCms? then |h[|h| - 1].data| else 0)
  }

  function BytesEaten(b: Buffer, h: History): nat {
    if h == [] then 0
    else BytesEaten(b, h[..|h| - 1]) + (if h[|h| - 1].FromCms? && Eaten(b, h) then |h[|h| - 1].data| else 0)
  }

  /** Conservation: every byte from the CMS is delivered or eaten. */
  lemma {:induction false} DeliveredOrEaten(b: Buffer, h: History)
    ensures BytesFromCms(h) == |ToAx(b, h)| + BytesEaten(b, h)
  {
    if h != [] {
      DeliveredOrEaten(b, h[..|h| - 1]);
    }
  }

  /** A chunk of eight bytes or more is eaten exactly when it starts with the keep-alive packet. */
  lemma LongChunkEaten(b: Buffer, h: History)
    requires h != [] && h[|h| - 1].FromCms? && |h[|h| - 1].data| >= 8
    ensures Eaten(b, h) <==> ";;;;;;\r\n" <= h[|h| - 1].data
  {
    var d := h[|h| - 1].data;
    assert Overlay(BufferAfter(b, h[..|h| - 1]), d)[..8] == d[..8];
  }

  /** A shorter one is eaten exactly when it and the stale bytes behind it spell the keep-alive packet. */
  lemma ShortChunkEaten(b: Buffer, h: History)
    requires h != [] && h[|h| - 1].FromCms? && |h[|h| - 1].data| < 8
    ensures
      var d, packet := h[|h| - 1].data, ";;;;;;\r\n";
      Eaten(b, h) <==> d == packet[..|d|] && BufferAfter(b, h[..|h| - 1])[|d|..8] == packet[|d|..]
  {
    var d := h[|h| - 1].data;
    var was := BufferAfter(b, h[..|h| - 1]);
    assert Overlay(was, d)[..8] == d + was[|d|..8];
    assert KEEP_ALIVE == KEEP_ALIVE[..|d|] + KEEP_ALIVE[|d|..];
    if d + was[|d|..8] == KEEP_ALIVE {
      assert (d + was[|d|..8])[..|d|] == d;
      assert (d + was[|d|..8])[|d|..] == was[|d|..8];
    }
  }

  /** So data can be lost: after a keep-alive packet a chunk of one semicolon is eaten too. */
  lemma SemicolonLost(b: Buffer, below: Below)
    ensures
      var h := [FromCms(";;;;;;\r\n", below), FromCms(";", below)];
      ToAx(b, h) == "" && BytesEaten(b, h) == 9
  {
    var h := [FromCms(KEEP_ALIVE, below), FromCms(";", below)];
    var h1 := h[..1];
    LongChunkEaten(b, h1);
    assert BufferAfter(b, h1) == KEEP_ALIVE + b[8..];
    ShortChunkEaten(b, h);
    EatenCounts(b, h1);
    EatenCounts(b, h);
    assert h1[..0] == [] && |h1| == 1 && h[..1] == h1;
    assert ToAx(b, []) == "" && BytesEaten(b, []) == 0;
  }

  /** What an eaten chunk does to the output and to the count. */
  lemma EatenCounts(b: Buffer, h: History)
    requires h != [] && h[|h| - 1].FromCms? && Eaten(b, h)
    ensures ToAx(b, h) == ToAx(b, h[..|h| - 1])
    ensures BytesEaten(b, h) == BytesEaten(b, h[..|h| - 1]) + |h[|h| - 1].data|
  {
  }

  /** The chunks of either side, in order. */
  function OnlyCms(h: History): History {
    if h == [] then []
    else OnlyCms(h[..|h| - 1]) + (if h[|h| - 1].FromCms? then [h[|h| - 1]] else [])
  }

  function OnlyAx(h: History): History {
    if h == [] then []
    else OnlyAx(h[..|h| - 1]) + (if h[|h| - 1].FromAx? then [h[|h| - 1]] else [])
  }

  // ----- The idle counter -----

  /** Passes since the last byte, started at the limit when that byte closed the conversation. */
  function IdleCount(h: History): nat {
    if h == [] then 0
    else IdleStep(IdleCount(h[..|h| - 1]), h[|h| - 1], Closes(h[..|h| - 1], h[|h| - 1]))
  }

  function IdleStep(count: nat, e: Event, closes: bool): nat {
    match e
    case Peeked(_) => count
    case PassEnd => count + 1
    case _ => if closes then CONV_TIMEOUT else 0
  }

  /** The number of passes at the end of a history in which no byte came. */
  function QuietPasses(h: History): nat {
    if h == [] then 0
    else if h[|h| - 1] == PassEnd then QuietPasses(h[..|h| - 1]) + 1
    else if h[|h| - 1].Peeked? then QuietPasses(h[..|h| - 1])
    else 0
  }

  /** The counter never runs behind the quiet passes. */
  lemma {:induction false} QuietWithinIdle(h: History)
    ensures QuietPasses(h) <= IdleCount(h)
  {
    if h != [] {
      QuietWithinIdle(h[..|h| - 1]);
    }
  }

  /** The counter counts the passes since the last chunk, from 60 on if that chunk closed the conversation. */
  lemma {:induction false} PassesSinceChunk(h: History, e: Event, n: nat)
    requires IsChunk(e)
    ensures
      var closes := (e.FromCms? && Says(e, "FQ") && ClientDone(h)) || (e.FromAx? && Says(e, "FQ") && CmsDone(h));
      IdleCount(h + [e] + seq(n, _ => PassEnd)) == (if closes then 60 else 0) + n
  {
    hide ClientDone, CmsDone;
    var g := h + [e];
    if n == 0 {
      assert g + seq(0, _ => PassEnd) == g && g[..|g| - 1] == h;
      LettersOf(e);
    } else {
      var more := g + seq(n, _ => PassEnd);
      assert more[..|more| - 1] == g + seq(n - 1, _ => PassEnd);
      PassesSinceChunk(h, e, n - 1);
    }
  }

  function Max(a: nat, b: nat): nat { if a < b then b else a }

  /** The highest value that the idle counter has had. */
  function Highest(h: History): nat {
    if h == [] then 0 else Max(Highest(h[..|h| - 1]), IdleCount(h))
  }

  /** A bound on the counter bounds the quiet passes at every point of the conversation. */
  lemma {:induction false} QuietThroughout(h: History)
    ensures forall k :: 0 <= k <= |h| ==> QuietPasses(h[..k]) <= Highest(h)
  {
    QuietWithinIdle(h);
    assert h[..|h|] == h;
    if h != [] {
      var n := |h| - 1;
      QuietThroughout(h[..n]);
      forall k | 0 <= k <= |h|
        ensures QuietPasses(h[..k]) <= Highest(h)
      {
        assert k <= n ==> h[..k] == h[..n][..k];
      }
    }
  }

  /** The number of passes. */
  function Passes(h: History): nat {
    if h == [] then 0 else Passes(h[..|h| - 1]) + (if h[|h| - 1] == PassEnd then 1 else 0)
  }

  // ----- Everything at once -----

  /** What the variables of the relay hold and what it has sent, between two chunks. */
  datatype Vars = Vars(buffer: Buffer, ffUp: bool, fqUp: bool, ffDn: bool, fqDn: bool, loop: nat, errcode: int,
                       sent: nat, recv: nat, toAx: string, toCms: string, cms: History, ax: History,
                       most: nat, passes: nat)

  function Start(b: Buffer): Vars {
    Vars(b, false, false, false, false, 0, 0, 0, 0, "", "", [], [], 0, 0)
  }

  function Step(v: Vars, e: Event): Vars {
    var buffer := BufferStep(v.buffer, e);
    match e
    case Peeked(_) => v.(buffer := buffer)
    case PassEnd => v.(loop := v.loop + 1, most := Max(v.most, v.loop + 1), passes := v.passes + 1)
    case FromCms(d, _) =>
      var fq := IsFQ(e) && v.ffDn;
      v.(buffer := buffer, ffUp := v.ffUp || EndsInFF(e), ffDn := v.ffDn && !TurnsLine(e), fqUp := v.fqUp || fq,
         loop := if fq then CONV_TIMEOUT else 0, errcode := if fq then 10 else v.errcode,
         most := Max(v.most, if fq then CONV_TIMEOUT else 0),
         sent := v.sent + |d|, toAx := v.toAx + (if LooksKeepAlive(buffer) then "" else d), cms := v.cms + [e])
    case FromAx(d, _) =>
      var fq := IsFQ(e) && v.ffUp;
      v.(buffer := buffer, ffDn := v.ffDn || EndsInFF(e), ffUp := v.ffUp && !TurnsLine(e), fqDn := v.fqDn || fq,
         loop := if fq then CONV_TIMEOUT else 0, errcode := if fq then 10 else v.errcode,
         most := Max(v.most, if fq then CONV_TIMEOUT else 0),
         recv := v.recv + |d|, toCms := v.toCms + d, ax := v.ax + [e])
  }

  function View(b: Buffer, h: History): Vars {
    if h == [] then Start(b) else Step(View(b, h[..|h| - 1]), h[|h| - 1])
  }

  lemma ViewStep(b: Buffer, h: History, e: Event)
    ensures View(b, h + [e]) == Step(View(b, h), e)
  {
    assert (h + [e])[..|h|] == h;
  }

  // Each of the variables says about the history what its name promises.

  lemma {:induction false} ViewFF(b: Buffer, h: History)
    ensures View(b, h).ffDn == ClientDone(h) && View(b, h).ffUp == CmsDone(h)
  {
    if h != [] {
      ViewFF(b, h[..|h| - 1]);
      StepFF(View(b, h[..|h| - 1]), h[|h| - 1]);
    }
  }

  lemma StepFF(v: Vars, e: Event)
    ensures Step(v, e).ffDn == (ClientFF(e) || (v.ffDn && !CmsTurns(e)))
    ensures Step(v, e).ffUp == (CmsFF(e) || (v.ffUp && !ClientTurns(e)))
  {
  }

  lemma {:induction false} ViewFQ(b: Buffer, h: History)
    ensures View(b, h).fqUp == CmsClosed(h) && View(b, h).fqDn == ClientClosed(h)
    ensures View(b, h).errcode == (if Closed(h) then 10 else 0)
  {
    if h != [] {
      var g, e := h[..|h| - 1], h[|h| - 1];
      ViewFQ(b, g);
      ViewFF(b, g);
      StepFQ(View(b, g), e);
    }
  }

  lemma StepFQ(v: Vars, e: Event)
    ensures
      var up := e.FromCms? && IsFQ(e) && v.ffDn;
      var dn := e.FromAx? && IsFQ(e) && v.ffUp;
      && Step(v, e).fqUp == (up || v.fqUp) && Step(v, e).fqDn == (dn || v.fqDn)
      && Step(v, e).errcode == if up || dn then 10 else v.errcode
  {
  }

  lemma {:induction false} ViewIdle(b: Buffer, h: History)
    ensures View(b, h).loop == IdleCount(h) && View(b, h).most == Highest(h) && View(b, h).passes == Passes(h)
  {
    if h != [] {
      var g, e := h[..|h| - 1], h[|h| - 1];
      ViewIdle(b, g);
      ViewFF(b, g);
      StepIdle(View(b, g), e, Closes(g, e));
    }
  }

  lemma StepIdle(v: Vars, e: Event, closes: bool)
    requires IsChunk(e) ==> closes == (IsFQ(e) && if e.FromCms? then v.ffDn else v.ffUp)
    ensures Step(v, e).loop == IdleStep(v.loop, e, closes)
    ensures Step(v, e).most == if e.Peeked? then v.most else Max(v.most, Step(v, e).loop)
    ensures Step(v, e).passes == v.passes + (if e == PassEnd then 1 else 0)
  {
  }

  lemma {:induction false} ViewBuffer(b: Buffer, h: History)
    ensures View(b, h).buffer == BufferAfter(b, h)
  {
    hide Step;
    if h != [] {
      ViewBuffer(b, h[..|h| - 1]);
      StepOut(View(b, h[..|h| - 1]), h[|h| - 1]);
    }
  }

  /** What a step does to the buffer and to what has come and gone. */
  lemma StepOut(v: Vars, e: Event)
    ensures var w := Step(v, e);
      && w.buffer == BufferStep(v.buffer, e)
      && w.toAx == v.toAx + (if e.FromCms? && !LooksKeepAlive(w.buffer) then e.data else "")
      && w.sent == v.sent + (if e.FromCms? then |e.data| else 0) && w.cms == v.cms + (if e.FromCms? then [e] else [])
      && w.toCms == v.toCms + (if e.FromAx? then e.data else "")
      && w.recv == v.recv + (if e.FromAx? then |e.data| else 0) && w.ax == v.ax + (if e.FromAx? then [e] else [])
  {
    hide LooksKeepAlive, EndsInFF, IsFQ, TurnsLine;
    assert v.toAx + "" == v.toAx && v.toCms + "" == v.toCms && v.cms + [] == v.cms && v.ax + [] == v.ax;
  }

  lemma {:induction false} ViewToAx(b: Buffer, h: History)
    ensures View(b, h).toAx == ToAx(b, h) && View(b, h).sent == BytesFromCms(h) && View(b, h).cms == OnlyCms(h)
  {
    hide Step, LooksKeepAlive, BufferAfter;
    if h != [] {
      ViewToAx(b, h[..|h| - 1]);
      ViewBuffer(b, h);
      StepOut(View(b, h[..|h| - 1]), h[|h| - 1]);
    }
  }

  lemma {:induction false} ViewToCms(b: Buffer, h: History)
    ensures View(b, h).toCms == ToCms(h) && View(b, h).recv == |ToCms(h)| && View(b, h).ax == OnlyAx(h)
  {
    hide Step, LooksKeepAlive, BufferStep;
    if h != [] {
      ViewToCms(b, h[..|h| - 1]);
      StepOut(View(b, h[..|h| - 1]), h[|h| - 1]);
    }
  }
}
