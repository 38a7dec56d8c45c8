/** The relay loop of `gateway`: one pass after another between the CMS socket and the AX.25 descriptors. */
module Relay {
  import opened Text
  import opened Word32
  import opened AxWrite
  import opened RelayHistory
  import opened RelayCourse

  const ERR_GW_SOCKIO: int := -103
  const ERR_GW_AX25IO: int := -104

  /** The error code that `gateway` returns. */
  function ReturnCode(flow: Flow): int
    requires flow != Going && flow != Waiting
  {
    match flow
    case HungUp => 0
    case Idle(code) => code
    case AxFailed => ERR_GW_AX25IO
    case CmsFailed => ERR_GW_SOCKIO
  }

  /** The events that some reads give rise to, in order. */
  function CmsEvents(rs: seq<Read>): History {
    if rs == [] then []
    else
      var r := rs[|rs| - 1];
      CmsEvents(rs[..|rs| - 1]) + (if r.Data? then [FromCms(r.data, r.below)] else [])
  }

  function AxEvents(rs: seq<Read>): History {
    if rs == [] then []
    else
      var r := rs[|rs| - 1];
      AxEvents(rs[..|rs| - 1]) + (if r.Data? then [FromAx(r.data, r.below)] else [])
  }

  lemma CountWraps(n: nat, d: nat)
    ensures (n % TWO64 + d) % TWO64 == (n + d) % TWO64
  {
  }

  function Flag(b: bool): nat { if b then 1 else 0 }

  /** The text sent to the client when the CMS closes the connection, with the sense flags in hexadecimal. */
  function Notice(ffUp: bool, fqUp: bool, ffDn: bool, fqDn: bool): string {
    "; INFO: Connection closed by CMS (sense = 0x00"
    + ["0123"[2 * Flag(fqDn) + Flag(ffDn)]] + ["0123"[2 * Flag(fqUp) + Flag(ffUp)]] + ")\r\n"
  }

  function HexDigit(c: char): nat {
    if '0' <= c <= '9' then c as int - '0' as int else 0
  }

  /** The notice gives the flags as a number: 1 and 2 for FF and FQ of the CMS, 16 and 32 for those of the client. */
  lemma NoticeMeans(ffUp: bool, fqUp: bool, ffDn: bool, fqDn: bool)
    ensures
      var n := Notice(ffUp, fqUp, ffDn, fqDn);
      var up := (if ffUp then 1 else 0) + (if fqUp then 2 else 0);
      var dn := (if ffDn then 16 else 0) + (if fqDn then 32 else 0);
      && |n| == 51 && n[..46] == "; INFO: Connection closed by CMS (sense = 0x00" && n[48..] == ")\r\n"
      && 16 * HexDigit(n[46]) + HexDigit(n[47]) == up + dn
  {
    var up, dn := 2 * Flag(fqUp) + Flag(ffUp), 2 * Flag(fqDn) + Flag(ffDn);
    DigitsUpTo3(up);
    DigitsUpTo3(dn);
  }

  lemma DigitsUpTo3(d: nat)
    requires d < 4
    ensures HexDigit("0123"[d]) == d
  {
  }

  lemma SeenFlags(view: History -> Vars, b: Buffer, h: History)
    requires Views(view, b)
    ensures view(h).ffDn == ClientDone(h) && view(h).ffUp == CmsDone(h)
    ensures view(h).fqUp == CmsClosed(h) && view(h).fqDn == ClientClosed(h)
    ensures view(h).errcode == (if Closed(h) then 10 else 0) && view(h).loop == IdleCount(h)
    ensures view(h).most == Highest(h) && view(h).passes == Passes(h)
  {
    assert view(h) == View(b, h);
    ViewFF(b, h);
    ViewFQ(b, h);
    ViewIdle(b, h);
  }

  lemma SeenEaten(view: History -> Vars, b: Buffer, h: History)
    requires Views(view, b) && h != [] && h[|h| - 1].FromCms?
    ensures LooksKeepAlive(view(h).buffer) == Eaten(b, h)
  {
    assert view(h) == View(b, h);
    ViewBuffer(b, h);
  }

  lemma SeenCounts(view: History -> Vars, b: Buffer, h: History)
    requires Views(view, b)
    ensures view(h).toAx == ToAx(b, h) && view(h).sent == BytesFromCms(h) && view(h).cms == OnlyCms(h)
    ensures view(h).toCms == ToCms(h) && view(h).recv == |ToCms(h)| && view(h).ax == OnlyAx(h)
  {
    assert view(h) == View(b, h);
    ViewToAx(b, h);
    ViewToCms(b, h);
  }

  lemma OneMoreCms(rs: seq<Read>, r: Read)
    ensures CmsEvents(rs + [r]) == CmsEvents(rs) + (if r.Data? then [FromCms(r.data, r.below)] else [])
  {
    assert (rs + [r])[..|rs|] == rs;
  }

  lemma OneMoreAx(rs: seq<Read>, r: Read)
    ensures AxEvents(rs + [r]) == AxEvents(rs) + (if r.Data? then [FromAx(r.data, r.below)] else [])
  {
    assert (rs + [r])[..|rs|] == rs;
  }

  /** `view` is View for a buffer, under a name that keeps its definition out of the proofs about the loops. */
  ghost predicate Views(view: History -> Vars, b: Buffer) {
    forall h {:trigger View(b, h)} :: view(h) == View(b, h)
  }

  lemma ViewNext(view: History -> Vars, b: Buffer, h: History, e: Event)
    requires Views(view, b)
    ensures view(h + [e]) == Step(view(h), e) && (h + [e])[..|h|] == h
  {
    ViewStep(b, h, e);
  }

  /** Packet lengths. */
  type Paclen = n: nat | n > 0 witness 1

  class Gateway {
    const paclen: Paclen
    // The results that the system calls will give, in order.
    var selects: seq<Ready>
    var peeks: seq<Peek>
    var cmsReads: seq<Read>
    var axReads: seq<Read>
    var axWrites: seq<WriteResult>
    var cmsWrites: seq<WriteResult>
    // What was written to the two sides.
    var stdout: string
    var sock: string
    // The variables of the function and the static buffer.
    const buf: array<char>
    var ffUp: bool
    var fqUp: bool
    var ffDn: bool
    var fqDn: bool
    var loop: nat
    var errcode: int
    var bytesSent: nat
    var bytesRecv: nat
    var slept: nat
    // The history of the conversation and the reads it took.
    ghost const first: Buffer
    ghost const view: History -> Vars
    ghost var h: History
    ghost var cmsTaken: seq<Read>
    ghost var axTaken: seq<Read>

    ghost predicate Mirrors(v: Vars)
      reads this, buf
    {
      && ffUp == v.ffUp && fqUp == v.fqUp && ffDn == v.ffDn && fqDn == v.fqDn
      && loop == v.loop && errcode == v.errcode && bytesSent == v.sent % TWO64 && bytesRecv == v.recv % TWO64
      && buf.Length == BUFLEN && buf[..] == v.buffer
      && v.cms == CmsEvents(cmsTaken) && v.ax == AxEvents(axTaken)
    }

    /** The variables say what the history says, and the reads taken are its chunks. */
    ghost predicate Tracks()
      reads this, buf
    {
      Views(view, first) && Mirrors(view(h)) && view(h).most <= CONV_TIMEOUT + 1
    }

    /** 95 seconds of sleep for every byte that goes to AX.25 and one for every pass, and `more` besides. */
    ghost predicate Rested(more: nat)
      reads this
    {
      slept <= 95 * |view(h).toAx| + view(h).passes + more
    }

    /** Everything that came has gone to the other side, but for the chunks that are eaten. */
    ghost predicate Settled()
      reads this, buf
    {
      Tracks() && Rested(0) && stdout == view(h).toAx && sock == view(h).toCms
    }

    /** So it is between chunks, with the idle counter within its limit. */
    ghost predicate AtRest()
      reads this, buf
    {
      Settled() && loop <= CONV_TIMEOUT
    }

    /** Inside the write of the last chunk to AX.25: a proper part of it has gone. */
    ghost predicate AxCut()
      reads this, buf
    {
      && Tracks() && Rested(0) && h != [] && sock == view(h).toCms
      && view(h[..|h| - 1]).toAx <= stdout < view(h).toAx
    }

    /** Inside the write of the last chunk to the CMS: a proper part of it has gone. */
    ghost predicate CmsCut()
      reads this, buf
    {
      && Tracks() && Rested(0) && h != [] && stdout == view(h).toAx
      && view(h[..|h| - 1]).toCms <= sock < view(h).toCms
    }

    /** The system calls that are still to come. */
    ghost function Now(): Inputs
      reads this
    {
      Inputs(selects, peeks, cmsReads, axReads, axWrites, cmsWrites)
    }

    /** One turn has been taken: the relay has come to a place, or it is over. */
    ghost function Took(flow: Flow, at: Place): Turn
      reads this
    {
      if flow == Going then Go(at, h, Now()) else Stop(End(flow, h, Now()))
    }

    /** How the relay will end, from a place on. */
    ghost function Rest(at: Place): End
      reads this
    {
      Course(first, paclen, at, h, Now())
    }

    /** How it will end, or has ended. */
    ghost function Leads(flow: Flow, at: Place): End
      reads this
    {
      if flow == Going then Rest(at) else End(flow, h, Now())
    }

    /** A turn that was taken leads where the course goes. */
    lemma Led(was: History, before: Inputs, flow: Flow, at: Place, next: Place)
      requires Took(flow, next) == TurnOf(first, paclen, at, was, before)
      ensures Leads(flow, next) == Course(first, paclen, at, was, before)
    {
      hide Course, TurnOf;
      if flow == Going {
        Goes(first, paclen, at, was, before, next, h, Now());
      } else {
        Stops(first, paclen, at, was, before, End(flow, h, Now()));
      }
    }

    constructor (paclen: Paclen, buffer: Buffer, selects: seq<Ready>, peeks: seq<Peek>, cmsReads: seq<Read>,
                 axReads: seq<Read>, axWrites: seq<WriteResult>, cmsWrites: seq<WriteResult>)
      ensures AtRest() && fresh(buf) && h == [] && first == buffer && this.paclen == paclen
      ensures cmsTaken == [] && axTaken == [] && this.cmsReads == cmsReads && this.axReads == axReads
      ensures this.axWrites == axWrites && this.cmsWrites == cmsWrites
      ensures this.selects == selects && this.peeks == peeks
    {
      this.paclen := paclen;
      this.selects, this.peeks, this.cmsReads, this.axReads := selects, peeks, cmsReads, axReads;
      this.axWrites, this.cmsWrites := axWrites, cmsWrites;
      stdout, sock := "", "";
      buf := new char[BUFLEN](i requires 0 <= i < BUFLEN => buffer[i]);
      ffUp, fqUp, ffDn, fqDn := false, false, false, false;
      loop, errcode, bytesSent, bytesRecv, slept := 0, 0, 0, 0, 0;
      first, h, cmsTaken, axTaken := buffer, [], [], [];
      view := (g: History) => View(buffer, g);
      new;
      assert buf[..] == buffer;
    }

    /** What a read leaves in the buffer. */
    method Store(data: string)
      requires buf.Length == BUFLEN && |data| <= BUFLEN
      modifies buf
      ensures buf[..] == Overlay(old(buf[..]), data)
    {
      var i := 0;
      while i < |data|
        invariant 0 <= i <= |data|
        invariant forall j :: 0 <= j < i ==> buf[j] == data[j]
        invariant forall j :: i <= j < buf.Length ==> buf[j] == old(buf[j])
      {
        buf[i] := data[i];
        i := i + 1;
      }
    }

    /** Memory at the address of the buffer plus i, where i may be as low as -2. */
    function At(below: Below, i: int): char
      requires -2 <= i < buf.Length
      reads buf
    {
      if i < 0 then below[i + 2] else buf[i]
    }

    /** Has the CMS sent FF, or FQ after the client sent FF? */
    method SenseCms(n: nat, below: Below, ghost e: Event)
      requires buf.Length == BUFLEN && 1 <= n <= BUFLEN && e == FromCms(buf[..n], below)
      modifies this`loop, this`ffUp, this`fqUp, this`ffDn, this`errcode
      ensures ffUp == (old(ffUp) || EndsInFF(e)) && ffDn == (old(ffDn) && !TurnsLine(e))
      ensures var fq := IsFQ(e) && old(ffDn);
        && fqUp == (old(fqUp) || fq)
        && loop == (if fq then CONV_TIMEOUT else 0)
        && errcode == (if fq then 10 else old(errcode))
    {
      loop := 0;
      if At(below, n - 3) == 'F' && At(below, n - 2) == 'F' {
        ffUp := true;
      } else if n == 3 && ffDn {
        if buf[0] == 'F' && buf[1] == 'Q' {
          fqUp := true;
          loop := CONV_TIMEOUT;
          errcode := 10;
        } else {
          ffDn := false;
        }
      }
    }

    /** Has the client sent FF, or FQ after the CMS sent FF? */
    method SenseAx(n: nat, below: Below, ghost e: Event)
      requires buf.Length == BUFLEN && 1 <= n <= BUFLEN && e == FromAx(buf[..n], below)
      modifies this`loop, this`ffUp, this`fqDn, this`ffDn, this`errcode
      ensures ffDn == (old(ffDn) || EndsInFF(e)) && ffUp == (old(ffUp) && !TurnsLine(e))
      ensures var fq := IsFQ(e) && old(ffUp);
        && fqDn == (old(fqDn) || fq)
        && loop == (if fq then CONV_TIMEOUT else 0)
        && errcode == (if fq then 10 else old(errcode))
    {
      loop := 0;
      if At(below, n - 3) == 'F' && At(below, n - 2) == 'F' {
        ffDn := true;
      } else if n == 3 && ffUp {
        if buf[0] == 'F' && buf[1] == 'Q' {
          fqDn := true;
          loop := CONV_TIMEOUT;
          errcode := 10;
        } else {
          ffUp := false;
        }
      }
    }

    /** A chunk from the CMS: count it, look for FF and FQ, and for a keep-alive packet. */
    method ApplyCms(ghost v: Vars, d: Chunk, below: Below) returns (eat: bool)
      requires Mirrors(v)
      modifies this`bytesSent, this`loop, this`ffUp, this`fqUp, this`ffDn, this`errcode, this`cmsTaken, buf
      ensures loop <= CONV_TIMEOUT
      ensures Mirrors(Step(v, FromCms(d, below))) && cmsTaken == old(cmsTaken) + [Data(d, below)]
      ensures eat == LooksKeepAlive(Step(v, FromCms(d, below)).buffer)
    {
      hide CmsEvents, AxEvents, EndsInFF, IsFQ, TurnsLine;
      OneMoreCms(cmsTaken, Data(d, below));
      CountWraps(v.sent, |d|);
      Store(d);
      bytesSent := (bytesSent + |d|) % TWO64;
      assert buf[..|d|] == d;
      SenseCms(|d|, below, FromCms(d, below));
      eat := buf[..8] == KEEP_ALIVE;
      cmsTaken := cmsTaken + [Data(d, below)];
    }

    method TakeFromCms(d: Chunk, below: Below) returns (eat: bool)
      requires Tracks()
      modifies this`bytesSent, this`loop, this`ffUp, this`fqUp, this`ffDn, this`errcode, this`h, this`cmsTaken, buf
      ensures Tracks()
      ensures loop <= CONV_TIMEOUT && h == old(h) + [FromCms(d, below)] && cmsTaken == old(cmsTaken) + [Data(d, below)]
      ensures eat == Eaten(first, h)
      ensures buf[..|d|] == d && h[..|h| - 1] == old(h)
      ensures view(h).toAx == view(old(h)).toAx + (if eat then "" else d)
      ensures view(h).toCms == view(old(h)).toCms && view(h).passes == view(old(h)).passes
    {
      ViewNext(view, first, h, FromCms(d, below));
      eat := ApplyCms(view(h), d, below);
      h := h + [FromCms(d, below)];
      SeenEaten(view, first, h);
    }

    /** A chunk from the AX.25 side: count it, look for FF and FQ. */
    method ApplyAx(ghost v: Vars, d: Chunk, below: Below)
      requires Mirrors(v)
      modifies this`bytesRecv, this`loop, this`ffUp, this`fqDn, this`ffDn, this`errcode, this`axTaken, buf
      ensures loop <= CONV_TIMEOUT
      ensures Mirrors(Step(v, FromAx(d, below))) && axTaken == old(axTaken) + [Data(d, below)]
    {
      hide CmsEvents, AxEvents, EndsInFF, IsFQ, TurnsLine;
      OneMoreAx(axTaken, Data(d, below));
      CountWraps(v.recv, |d|);
      Store(d);
      bytesRecv := (bytesRecv + |d|) % TWO64;
      assert buf[..|d|] == d;
      SenseAx(|d|, below, FromAx(d, below));
      axTaken := axTaken + [Data(d, below)];
    }

    method TakeFromAx(d: Chunk, below: Below)
      requires Tracks()
      modifies this`bytesRecv, this`loop, this`ffUp, this`fqDn, this`ffDn, this`errcode, this`h, this`axTaken, buf
      ensures Tracks()
      ensures loop <= CONV_TIMEOUT && h == old(h) + [FromAx(d, below)] && axTaken == old(axTaken) + [Data(d, below)]
      ensures buf[..|d|] == d && h[..|h| - 1] == old(h)
      ensures view(h).toCms == view(old(h)).toCms + d
      ensures view(h).toAx == view(old(h)).toAx && view(h).passes == view(old(h)).passes
    {
      ViewNext(view, first, h, FromAx(d, below));
      ApplyAx(view(h), d, below);
      h := h + [FromAx(d, below)];
    }

    /** The write loop towards AX.25: it ends for every sequence of results, by (bytes left, retries left). */
    method WriteLoop(size: nat, ghost f: (nat, nat, seq<WriteResult>) -> Sent) returns (flow: Flow)
      requires size <= buf.Length && Sends(f, paclen)
      modifies this`stdout, this`axWrites, this`slept
      ensures var r := f(size, 0, old(axWrites));
        && r.bytes <= size && stdout == old(stdout) + buf[..r.bytes]
        && r.calls <= |old(axWrites)| && axWrites == old(axWrites)[r.calls..]
        && slept == old(slept) + r.slept && flow == AxFlow(r.status)
    {
      hide After, Sends;
      ghost var r, acc := f(size, 0, axWrites), NOTHING;
      AfterNothing(r);
      var cp: nat, n: nat, retryCount: nat := 0, size, 0;
      while n > 0
        invariant cp + n == size && retryCount <= MAX_RETRIES && acc.bytes == cp
        invariant acc.calls <= |old(axWrites)| && axWrites == old(axWrites)[acc.calls..]
        invariant stdout == old(stdout) + buf[..cp] && slept == old(slept) + acc.slept
        invariant r == After(acc, f(n, retryCount, axWrites))
        decreases n, MAX_RETRIES - retryCount
      {
        if axWrites == [] {
          AxEnds(f, acc, n, paclen, retryCount, axWrites);
          return Waiting;
        }
        AxTurn(f, acc, n, paclen, retryCount, axWrites);
        acc := acc.(calls := acc.calls + 1);
        var result := axWrites[0];
        axWrites := axWrites[1..];
        if result == Failed {
          return AxFailed;
        }
        if result == Again {
          var sleepTime := retryCount;
          retryCount := retryCount + 1;
          if retryCount > MAX_RETRIES {
            return AxFailed;
          }
          if sleepTime > MAX_SLEEP {
            sleepTime := MAX_SLEEP;
          }
          slept := slept + sleepTime;
          acc := acc.(slept := acc.slept + sleepTime);
        } else {
          retryCount := 0;
          var m := Taken(result.count, Min(paclen, n));
          Extends(old(stdout), buf[..], cp, m);
          stdout := stdout + buf[cp..cp + m];
          acc := acc.(sizes := acc.sizes + [m], bytes := acc.bytes + m);
          cp := cp + m;
          n := n - m;
        }
      }
      AxEnds(f, acc, n, paclen, retryCount, axWrites);
      return Going;
    }

    method WriteAx(size: nat) returns (flow: Flow)
      requires size <= buf.Length
      modifies this`stdout, this`axWrites, this`slept
      ensures var r := AxSend(size, paclen, 0, old(axWrites));
        && r.bytes <= size && stdout == old(stdout) + buf[..r.bytes]
        && r.calls <= |old(axWrites)| && axWrites == old(axWrites)[r.calls..]
        && slept == old(slept) + r.slept && flow == AxFlow(r.status)
    {
      flow := WriteLoop(size, (n: nat, retry: nat, results: seq<WriteResult>) => AxSend(n, paclen, retry, results));
    }

    /** The write loop towards the CMS: it retries for as long as the socket says EAGAIN. */
    method WriteCms(size: nat) returns (flow: Flow)
      requires size <= buf.Length
      modifies this`sock, this`cmsWrites
      ensures var r := CmsSend(size, old(cmsWrites));
        && r.bytes <= size && sock == old(sock) + buf[..r.bytes]
        && r.calls <= |old(cmsWrites)| && cmsWrites == old(cmsWrites)[r.calls..] && flow == CmsFlow(r.status)
    {
      hide CmsSend;
      ghost var r, acc := CmsSend(size, cmsWrites), NOTHING;
      AfterNothing(r);
      var cp: nat, n: nat := 0, size;
      while n > 0
        invariant cp + n == size && acc.bytes == cp
        invariant acc.calls <= |old(cmsWrites)| && cmsWrites == old(cmsWrites)[acc.calls..]
        invariant sock == old(sock) + buf[..cp]
        invariant r == After(acc, CmsSend(n, cmsWrites))
        decreases |cmsWrites|
      {
        if cmsWrites == [] {
          CmsEnds(acc, n, cmsWrites);
          return Waiting;
        }
        CmsTurn(acc, n, cmsWrites);
        acc := acc.(calls := acc.calls + 1);
        var result := cmsWrites[0];
        cmsWrites := cmsWrites[1..];
        if result == Failed {
          return CmsFailed;
        }
        if result.Wrote? {
          var m := Taken(result.count, n);
          Extends(old(sock), buf[..], cp, m);
          sock := sock + buf[cp..cp + m];
          acc := acc.(sizes := acc.sizes + [m], bytes := acc.bytes + m);
          cp := cp + m;
          n := n - m;
        }
      }
      CmsEnds(acc, n, cmsWrites);
      return Going;
    }

    /** The bytes of the chunk in the buffer that go out before the write loop ends. */
    method SendAx(size: nat) returns (flow: Flow, ghost k: nat)
      requires size <= buf.Length
      modifies this`stdout, this`axWrites, this`slept
      ensures k <= size && stdout == old(stdout) + buf[..k] && (flow == Going <==> k == size)
      ensures slept <= old(slept) + 95 * size
      ensures var r := AxSend(size, paclen, 0, old(axWrites));
        flow == AxFlow(r.status) && axWrites == old(axWrites)[r.calls..]
      ensures flow == Going || flow == AxFailed || flow == Waiting
    {
      hide AxSend;
      AxSendExact(size, paclen, 0, axWrites);
      ChunkSleep(size, paclen, axWrites);
      k := AxSend(size, paclen, 0, axWrites).bytes;
      flow := WriteAx(size);
    }

    method SendCms(size: nat) returns (flow: Flow, ghost k: nat)
      requires size <= buf.Length
      modifies this`sock, this`cmsWrites
      ensures k <= size && sock == old(sock) + buf[..k] && (flow == Going <==> k == size)
      ensures var r := CmsSend(size, old(cmsWrites));
        flow == CmsFlow(r.status) && cmsWrites == old(cmsWrites)[r.calls..]
      ensures flow == Going || flow == CmsFailed || flow == Waiting
    {
      hide CmsSend;
      CmsSendExact(size, cmsWrites);
      k := CmsSend(size, cmsWrites).bytes;
      flow := WriteCms(size);
    }

    /** One chunk from the CMS: eaten, or sent on to AX.25. */
    method PassToAx(d: Chunk, below: Below) returns (flow: Flow)
      requires AtRest()
      modifies this`bytesSent, this`loop, this`ffUp, this`fqUp, this`ffDn, this`errcode, this`h, this`cmsTaken, buf
      modifies this`stdout, this`axWrites, this`slept
      ensures cmsTaken == old(cmsTaken) + [Data(d, below)]
      ensures h == old(h) + [FromCms(d, below)]
      ensures if Eaten(first, h) then flow == Going && axWrites == old(axWrites)
              else
                var r := AxSend(|d|, paclen, 0, old(axWrites));
                flow == AxFlow(r.status) && axWrites == old(axWrites)[r.calls..]
      ensures flow == Going ==> AtRest()
      ensures flow != Going ==> AxCut()
      ensures flow == Going || flow == AxFailed || flow == Waiting
    {
      hide Views, CmsEvents, AxEvents, Eaten, AxSend, AxFlow;
      var eat := TakeFromCms(d, below);
      if eat {
        return Going;
      }
      ghost var k;
      flow, k := SendAx(|d|);
      assert buf[..k] == d[..k];
    }

    /** One chunk from the client, sent on to the CMS. */
    method PassToCms(d: Chunk, below: Below) returns (flow: Flow)
      requires AtRest()
      modifies this`bytesRecv, this`loop, this`ffUp, this`fqDn, this`ffDn, this`errcode, this`h, this`axTaken, buf
      modifies this`sock, this`cmsWrites
      ensures axTaken == old(axTaken) + [Data(d, below)]
      ensures h == old(h) + [FromAx(d, below)]
      ensures var r := CmsSend(|d|, old(cmsWrites));
        flow == CmsFlow(r.status) && cmsWrites == old(cmsWrites)[r.calls..]
      ensures flow == Going ==> AtRest()
      ensures flow != Going ==> CmsCut()
      ensures flow == Going || flow == CmsFailed || flow == Waiting
    {
      hide Views, CmsEvents, AxEvents, CmsSend, CmsFlow;
      TakeFromAx(d, below);
      ghost var k;
      flow, k := SendCms(|d|);
      assert buf[..k] == d[..k];
    }

    // The system calls that are answered. What they consume is not part of how things stand.

    method Select() returns (ready: Ready)
      requires AtRest() && selects != []
      modifies this`selects
      ensures AtRest() && [ready] + selects == old(selects)
    {
      ready := selects[0];
      selects := selects[1..];
    }

    method RecvPeek() returns (p: Peek)
      requires AtRest() && peeks != []
      modifies this`peeks
      ensures AtRest() && [p] + peeks == old(peeks)
    {
      p := peeks[0];
      peeks := peeks[1..];
    }

    method Recv() returns (r: Read)
      requires AtRest() && cmsReads != []
      modifies this`cmsReads
      ensures AtRest() && [r] + cmsReads == old(cmsReads)
    {
      r := cmsReads[0];
      cmsReads := cmsReads[1..];
    }

    method ReadAx() returns (r: Read)
      requires AtRest() && axReads != []
      modifies this`axReads
      ensures AtRest() && [r] + axReads == old(axReads)
    {
      r := axReads[0];
      axReads := axReads[1..];
    }

    method NoteEmptyCms()
      requires AtRest()
      modifies this`cmsTaken
      ensures AtRest() && cmsTaken == old(cmsTaken) + [Empty]
    {
      OneMoreCms(cmsTaken, Empty);
      cmsTaken := cmsTaken + [Empty];
    }

    /** One read from the CMS, and what it asks for; or there is nothing more. */
    method ServeCmsChunk(ghost ax: bool) returns (flow: Flow, more: bool)
      requires AtRest() && cmsReads != []
      modifies this`bytesSent, this`loop, this`ffUp, this`fqUp, this`ffDn, this`errcode, this`h, this`cmsTaken, buf
      modifies this`cmsReads, this`stdout, this`axWrites, this`slept
      ensures cmsTaken == old(cmsTaken + [cmsReads[0]]) && cmsReads == old(cmsReads)[1..]
      ensures more <==> old(cmsReads[0]) != Empty
      ensures Leads(flow, if more then ReadingCms(ax) else AfterCms(ax)) == old(Rest(ReadingCms(ax)))
      ensures if flow == Going then AtRest() else AxCut()
      ensures flow == Going || flow == AxFailed || flow == Waiting
    {
      hide AtRest, AxCut, CmsCut, Course, TurnOf, Eaten, AxSend, AxFlow, Leads;
      var r := Recv();
      more := r != Empty;
      if more {
        flow := PassToAx(r.data, r.below);
        if Eaten(first, h) {
          ChunkEaten(first, paclen, ax, old(h), old(Now()));
        } else {
          ChunkSent(first, paclen, ax, old(h), old(Now()), flow);
        }
        Led(old(h), old(Now()), flow, ReadingCms(ax), ReadingCms(ax));
      } else {
        NoteEmptyCms();
        flow := Going;
        NothingFromCms(first, paclen, ax, old(h), old(Now()));
        Led(old(h), old(Now()), flow, ReadingCms(ax), AfterCms(ax));
      }
    }

    /** Everything the CMS has to say. */
    method DrainCms(ghost ax: bool) returns (flow: Flow)
      requires AtRest()
      modifies this`bytesSent, this`loop, this`ffUp, this`fqUp, this`ffDn, this`errcode, this`h, this`cmsTaken, buf
      modifies this`cmsReads, this`stdout, this`axWrites, this`slept
      ensures cmsTaken + cmsReads == old(cmsTaken + cmsReads) && old(cmsTaken) <= cmsTaken
      ensures flow == Going ==> |cmsTaken| > |old(cmsTaken)| && cmsTaken[|cmsTaken| - 1] == Empty
      ensures Leads(flow, AfterCms(ax)) == old(Rest(ReadingCms(ax)))
      ensures flow == Going ==> AtRest()
      ensures flow == AxFailed ==> AxCut()
      ensures flow == Waiting ==> AtRest() || AxCut()
      ensures flow == Going || flow == AxFailed || flow == Waiting
    {
      hide AtRest, AxCut, CmsCut, Course;
      while true
        invariant AtRest()
        invariant cmsTaken + cmsReads == old(cmsTaken + cmsReads) && old(cmsTaken) <= cmsTaken
        invariant Rest(ReadingCms(ax)) == old(Rest(ReadingCms(ax)))
        decreases |cmsReads|
      {
        if cmsReads == [] {
          Stops(first, paclen, ReadingCms(ax), h, Now(), End(Waiting, h, Now()));
          return Waiting;
        }
        var more;
        flow, more := ServeCmsChunk(ax);
        if flow != Going || !more {
          return;
        }
      }
    }

    method NoteEmptyAx()
      requires AtRest()
      modifies this`axTaken
      ensures AtRest() && axTaken == old(axTaken) + [Empty]
    {
      OneMoreAx(axTaken, Empty);
      axTaken := axTaken + [Empty];
    }

    /** One read from the client, and what it asks for; or there is nothing more. */
    method ServeAxChunk() returns (flow: Flow, more: bool)
      requires AtRest() && axReads != []
      modifies this`bytesRecv, this`loop, this`ffUp, this`fqDn, this`ffDn, this`errcode, this`h, this`axTaken, buf
      modifies this`axReads, this`sock, this`cmsWrites
      ensures axTaken == old(axTaken + [axReads[0]]) && axReads == old(axReads)[1..]
      ensures more <==> old(axReads[0]) != Empty
      ensures Leads(flow, if more then ReadingAx else Ending) == old(Rest(ReadingAx))
      ensures if flow == Going then AtRest() else CmsCut()
      ensures flow == Going || flow == CmsFailed || flow == Waiting
    {
      hide AtRest, AxCut, CmsCut, Course, TurnOf, CmsSend, CmsFlow, Leads;
      var r := ReadAx();
      more := r != Empty;
      if more {
        flow := PassToCms(r.data, r.below);
        ClientSent(first, paclen, old(h), old(Now()), flow);
      } else {
        NoteEmptyAx();
        flow := Going;
        NothingFromAx(first, paclen, old(h), old(Now()));
      }
      Led(old(h), old(Now()), flow, ReadingAx, if more then ReadingAx else Ending);
    }

    /** Everything the client has to say. */
    method DrainAx() returns (flow: Flow)
      requires AtRest()
      modifies this`bytesRecv, this`loop, this`ffUp, this`fqDn, this`ffDn, this`errcode, this`h, this`axTaken, buf
      modifies this`axReads, this`sock, this`cmsWrites
      ensures axTaken + axReads == old(axTaken + axReads) && old(axTaken) <= axTaken
      ensures flow == Going ==> |axTaken| > |old(axTaken)| && axTaken[|axTaken| - 1] == Empty
      ensures Leads(flow, Ending) == old(Rest(ReadingAx))
      ensures flow == Going ==> AtRest()
      ensures flow == CmsFailed ==> CmsCut()
      ensures flow == Waiting ==> AtRest() || CmsCut()
      ensures flow == Going || flow == CmsFailed || flow == Waiting
    {
      hide AtRest, AxCut, CmsCut, Course;
      while true
        invariant AtRest()
        invariant axTaken + axReads == old(axTaken + axReads) && old(axTaken) <= axTaken
        invariant Rest(ReadingAx) == old(Rest(ReadingAx))
        decreases |axReads|
      {
        if axReads == [] {
          Stops(first, paclen, ReadingAx, h, Now(), End(Waiting, h, Now()));
          return Waiting;
        }
        var more;
        flow, more := ServeAxChunk();
        if flow != Going || !more {
          return;
        }
      }
    }

    /** The CMS has closed the connection: a notice is written, as far as one write call takes it. */
    ghost predicate Hung()
      reads this, buf
    {
      && Tracks() && Rested(1) && sock == view(h).toCms
      && view(h).toAx <= stdout <= view(h).toAx + Notice(ffUp, fqUp, ffDn, fqDn)
    }

    /** A write call whose result is ignored, and a pause. */
    method WriteNotice(text: string) returns (flow: Flow)
      modifies this`stdout, this`axWrites, this`slept
      ensures slept == old(slept) + (if flow == HungUp then 1 else 0)
      ensures if old(axWrites) == [] then flow == Waiting && axWrites == []
              else flow == HungUp && axWrites == old(axWrites)[1..]
      ensures old(stdout) <= stdout <= old(stdout) + text && (flow == Waiting ==> stdout == old(stdout))
    {
      if axWrites == [] {
        return Waiting;
      }
      if axWrites[0].Wrote? && text != "" {
        stdout := stdout + text[..Taken(axWrites[0].count, |text|)];
      }
      axWrites := axWrites[1..];
      slept := slept + 1;
      return HungUp;
    }

    /** The byte that is peeked at lands in the buffer. */
    method NotePeek(c: char)
      requires AtRest()
      modifies this`h, buf
      ensures AtRest() && h == old(h) + [Peeked(c)]
    {
      hide Views, CmsEvents, AxEvents;
      ViewNext(view, first, h, Peeked(c));
      Store([c]);
      h := h + [Peeked(c)];
    }

    /** If the socket is readable but has nothing to read, the other end is gone. */
    method PeekCms() returns (flow: Flow)
      requires AtRest()
      modifies this`peeks, this`h, this`stdout, this`axWrites, this`slept, buf
      ensures slept == old(slept) + (if flow == HungUp then 1 else 0)
      ensures if old(peeks) == [] then flow == Waiting && peeks == [] && h == old(h) && axWrites == old(axWrites)
              else peeks == old(peeks)[1..] && (flow == Going <==> old(peeks)[0] != Eof)
      ensures old(peeks) != [] && flow == Going ==>
        h == old(h) + (if old(peeks)[0].Next? then [Peeked(old(peeks)[0].c)] else []) && axWrites == old(axWrites)
      ensures old(peeks) != [] && flow != Going ==>
        && h == old(h)
        && (if old(axWrites) == [] then flow == Waiting && axWrites == []
            else flow == HungUp && axWrites == old(axWrites)[1..])
      ensures flow == Going || flow == Waiting ==> AtRest()
      ensures flow == HungUp ==> Hung()
      ensures flow == Going || flow == HungUp || flow == Waiting
    {
      hide Views, CmsEvents, AxEvents, Notice;
      if peeks == [] {
        return Waiting;
      }
      var p := RecvPeek();
      if p == Eof {
        flow := WriteNotice(Notice(ffUp, fqUp, ffDn, fqDn));
      } else {
        if p.Next? {
          NotePeek(p.c);
        }
        flow := Going;
      }
    }

    /** The end of a pass: one more on the idle counter, which ends the conversation beyond its limit. */
    method EndPass() returns (flow: Flow)
      requires AtRest()
      modifies this`loop, this`h, this`slept
      ensures Standing(flow) && h == old(h) + [PassEnd] && loop == old(loop) + 1
      ensures loop == IdleCount(h) && errcode == (if Closed(h) then 10 else 0)
      ensures slept == old(slept) + (if old(loop) > 0 then 1 else 0)
      ensures flow == if loop > CONV_TIMEOUT then Idle(if errcode == 10 then 0 else 1) else Going
    {
      hide Views, CmsEvents, AxEvents;
      if loop > 0 {
        slept := slept + 1;
      }
      ViewNext(view, first, h, PassEnd);
      loop := loop + 1;
      h := h + [PassEnd];
      SeenFlags(view, first, h);
      if loop > CONV_TIMEOUT {
        return Idle(if errcode == 10 then 0 else 1);
      }
      return Going;
    }

    /** How things stand when the relay is between passes, waits or has returned. */
    ghost predicate Standing(flow: Flow)
      reads this, buf
    {
      match flow
      case Going => AtRest()
      case HungUp => Hung()
      case Idle(code) => Settled() && loop == CONV_TIMEOUT + 1 && code == (if errcode == 10 then 0 else 1)
      case AxFailed => AxCut()
      case CmsFailed => CmsCut()
      case Waiting => AtRest() || AxCut() || CmsCut()
    }

    /** The socket is readable. */
    method ServeCms(ghost ax: bool) returns (flow: Flow)
      requires AtRest()
      modifies this`bytesSent, this`loop, this`ffUp, this`fqUp, this`ffDn, this`errcode, this`h, this`cmsTaken, buf
      modifies this`peeks, this`cmsReads, this`stdout, this`axWrites, this`slept
      ensures cmsTaken + cmsReads == old(cmsTaken + cmsReads)
      ensures if flow == Going then AtRest() else Standing(flow)
      ensures Leads(flow, AfterCms(ax)) == old(Rest(Peeking(ax)))
    {
      hide AtRest, AxCut, CmsCut, Hung, Course;
      flow := PeekCms();
      Led(old(h), old(Now()), flow, Peeking(ax), ReadingCms(ax));
      if flow == Going {
        flow := DrainCms(ax);
      }
    }

    /** The AX.25 descriptor is readable. */
    method ServeAx() returns (flow: Flow)
      requires AtRest()
      modifies this`bytesRecv, this`loop, this`ffUp, this`fqDn, this`ffDn, this`errcode, this`h, this`axTaken, buf
      modifies this`axReads, this`sock, this`cmsWrites
      ensures axTaken + axReads == old(axTaken + axReads)
      ensures if flow == Going then AtRest() else Standing(flow)
      ensures Leads(flow, Ending) == old(Rest(ReadingAx))
    {
      hide AtRest, AxCut, CmsCut, Course;
      flow := DrainAx();
    }

    /** The work of one pass. */
    method Serve(ready: Ready) returns (flow: Flow)
      requires AtRest()
      modifies this`bytesSent, this`bytesRecv, this`loop, this`ffUp, this`fqUp, this`ffDn, this`fqDn, this`errcode, buf
      modifies this`h, this`cmsTaken, this`axTaken, this`peeks, this`cmsReads, this`axReads
      modifies this`stdout, this`sock, this`axWrites, this`cmsWrites, this`slept
      ensures cmsTaken + cmsReads == old(cmsTaken + cmsReads) && axTaken + axReads == old(axTaken + axReads)
      ensures if flow == Going then AtRest() else Standing(flow)
      ensures Leads(flow, Ending) == old(Rest(AfterSelect(ready)))
    {
      hide AtRest, AxCut, CmsCut, Hung, Settled, Course;
      flow := Going;
      if ready.cms {
        flow := ServeCms(ready.ax);
      }
      if flow == Going && ready.ax {
        flow := ServeAx();
      }
    }

    /** One pass of the loop. */
    method Pass() returns (flow: Flow)
      requires AtRest()
      modifies this, buf
      ensures Standing(flow)
      ensures flow == Going ==> |selects| < |old(selects)|
      ensures cmsTaken + cmsReads == old(cmsTaken + cmsReads) && axTaken + axReads == old(axTaken + axReads)
      ensures Leads(flow, Selecting) == old(Rest(Selecting))
    {
      hide AtRest, AxCut, CmsCut, Hung, Settled, Course, TurnOf, Closed, IdleCount;
      Selects(first, paclen, h, Now());
      if selects == [] {
        Led(old(h), old(Now()), Waiting, Selecting, Selecting);
        return Waiting;
      }
      var ready := Select();
      Led(old(h), old(Now()), Going, Selecting, AfterSelect(ready));
      flow := Serve(ready);
      if flow == Going {
        ghost var was, before := h, Now();
        flow := EndPass();
        PassEnds(first, paclen, was, before, loop, errcode, flow);
        Led(was, before, flow, Ending, Selecting);
      }
    }

    /** What a conversation has come to, told from its history alone. */
    ghost predicate Outcome(flow: Flow)
      reads this
    {
      && ffDn == ClientDone(h) && ffUp == CmsDone(h) && fqUp == CmsClosed(h) && fqDn == ClientClosed(h)
      && bytesSent == BytesFromCms(h) % 0x1_0000_0000_0000_0000
      && bytesRecv == |ToCms(h)| % 0x1_0000_0000_0000_0000
      && OnlyCms(h) == CmsEvents(cmsTaken) && OnlyAx(h) == AxEvents(axTaken)
      && (forall k :: 0 <= k <= |h| ==> QuietPasses(h[..k]) <= 61)
      && slept <= 95 * |ToAx(first, h)| + Passes(h) + (if flow == HungUp then 1 else 0)
      && match flow
         case Going => false
         case HungUp =>
           ToAx(first, h) <= stdout <= ToAx(first, h) + Notice(ffUp, fqUp, ffDn, fqDn) && sock == ToCms(h)
         case Idle(code) =>
           && stdout == ToAx(first, h) && sock == ToCms(h)
           && IdleCount(h) == 61 && code == (if Closed(h) then 0 else 1)
         case AxFailed => CutToAx()
         case CmsFailed => CutToCms()
         case Waiting =>
           || (stdout == ToAx(first, h) && sock == ToCms(h) && QuietPasses(h) <= 60)
           || CutToAx() || CutToCms()
    }

    /** All but the last chunk has gone through, and of that one a proper part. */
    ghost predicate CutToAx()
      reads this
    {
      && h != [] && h[|h| - 1].FromCms? && !Eaten(first, h) && sock == ToCms(h)
      && ToAx(first, h[..|h| - 1]) <= stdout < ToAx(first, h)
    }

    ghost predicate CutToCms()
      reads this
    {
      && h != [] && h[|h| - 1].FromAx? && stdout == ToAx(first, h)
      && ToCms(h[..|h| - 1]) <= sock < ToCms(h)
    }

    /** Every descriptor that was reported was read, in the order of the passes, but for what is missing of the last. */
    ghost predicate Attends(flow: Flow, before: Inputs)
      reads this
    {
      Serves(UsedOf(before, Now()), End(flow, h, Now())) && AllInOrder(h)
    }

    /** Why the relay has ended, from what it has used of the inputs that it had. */
    ghost predicate Reasons(flow: Flow, before: Inputs)
      reads this
    {
      var e := End(flow, h, Now());
      && UsesInOrder(before, e.left) && Reason(UsedOf(before, e.left), e)
      && Drained(Selecting, UsedOf(before, e.left), e)
    }

    lemma OutcomeOf(flow: Flow)
      requires flow != Going && Standing(flow)
      ensures Outcome(flow)
    {
      hide Views, View, ClientDone, CmsDone, CmsClosed, ClientClosed, Closed, IdleCount, QuietPasses, Highest, Passes;
      hide ToAx, ToCms, BytesFromCms, OnlyCms, OnlyAx, CmsEvents, AxEvents, Eaten, Notice;
      SeenFlags(view, first, h);
      SeenCounts(view, first, h);
      QuietWithinIdle(h);
      QuietThroughout(h);
      if AxCut() {
        SeenCounts(view, first, h[..|h| - 1]);
        LastToAx(first, h);
      } else if CmsCut() {
        SeenCounts(view, first, h[..|h| - 1]);
        LastToCms(h);
      }
    }

    /** Pass after pass until one of the ways out is taken. */
    method Run() returns (flow: Flow)
      requires AtRest()
      modifies this, buf
      ensures flow != Going && Standing(flow) && Outcome(flow)
      ensures End(flow, h, Now()) == old(Rest(Selecting)) && Reasons(flow, old(Now()))
      ensures old(h) == [] ==> Attends(flow, old(Now()))
      ensures cmsTaken + cmsReads == old(cmsTaken + cmsReads) && axTaken + axReads == old(axTaken + axReads)
    {
      hide AtRest, AxCut, CmsCut, Hung, Settled, Outcome, Course, Reason, Drained, UsesInOrder, Serves, AllInOrder;
      CourseMeans(first, paclen, Selecting, h, Now());
      if h == [] {
        EveryReadyIsServed(first, paclen, Now());
        OrderFromStart(first, paclen, Now());
      }
      flow := Going;
      while flow == Going
        invariant Standing(flow) && Leads(flow, Selecting) == old(Rest(Selecting))
        invariant cmsTaken + cmsReads == old(cmsTaken + cmsReads) && axTaken + axReads == old(axTaken + axReads)
        decreases if flow == Going then |selects| + 1 else 0
      {
        flow := Pass();
      }
      OutcomeOf(flow);
    }
  }

  /** If the last event adds to the output, it is a chunk that is sent on. */
  lemma LastToAx(b: Buffer, h: History)
    requires h != [] && ToAx(b, h) != ToAx(b, h[..|h| - 1])
    ensures h[|h| - 1].FromCms? && !Eaten(b, h)
  {
  }

  lemma LastToCms(h: History)
    requires h != [] && ToCms(h) != ToCms(h[..|h| - 1])
    ensures h[|h| - 1].FromAx?
  {
  }

  lemma Extends(before: string, d: string, cp: nat, m: nat)
    requires cp + m <= |d|
    ensures before + d[..cp] + d[cp..cp + m] == before + d[..cp + m]
  {
  }
}
