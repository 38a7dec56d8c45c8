/**
  The course of the relay loop as a function of what the system calls will give: which calls it makes and in which
  order, when it goes on, when it ends and when it waits. The methods in Relay follow it call by call.
 */
module RelayCourse {
  import opened AxWrite
  import opened RelayHistory

  /** Which of the two descriptors select left in the read set. */
  datatype Ready = Ready(cms: bool, ax: bool)

  /** What peeking at one byte of the socket gives. */
  datatype Peek = Eof | Next(c: char) | Nothing

  /** What one read gives: bytes, or nothing (end of file, EAGAIN or an error). */
  datatype Read = Data(data: Chunk, below: Below) | Empty

  /** How a step of the relay ends. `Waiting` means that the next system call has not returned. */
  datatype Flow = Going | HungUp | Idle(code: int) | AxFailed | CmsFailed | Waiting

  function AxFlow(status: Status): Flow {
    match status
    case Done => Going
    case Pending => Waiting
    case _ => AxFailed
  }

  function CmsFlow(status: Status): Flow {
    match status
    case Done => Going
    case Pending => Waiting
    case _ => CmsFailed
  }

  /** The results that the system calls will give, in order. */
  datatype Inputs = Inputs(selects: seq<Ready>, peeks: seq<Peek>, cms: seq<Read>, ax: seq<Read>,
                           axWrites: seq<WriteResult>, cmsWrites: seq<WriteResult>)

  /** Where in a pass the relay is; the flags say whether the AX.25 descriptor is to be read too. */
  datatype Place = Selecting | Peeking(ax: bool) | ReadingCms(ax: bool) | ReadingAx | Ending

  function AfterCms(ax: bool): Place { if ax then ReadingAx else Ending }

  function AfterSelect(ready: Ready): Place { if ready.cms then Peeking(ready.ax) else AfterCms(ready.ax) }

  /** How the relay ends: the way out, the history, and what was not used of the inputs. */
  datatype End = End(flow: Flow, h: History, left: Inputs)

  datatype Turn = Stop(end: End) | Go(at: Place, h: History, left: Inputs)

  function Rank(at: Place): nat {
    match at
    case Selecting => 0
    case Ending => 1
    case ReadingAx => 2
    case ReadingCms(_) => 3
    case Peeking(_) => 4
  }

  function Wait(h: History, i: Inputs): Turn { Stop(End(Waiting, h, i)) }

  /** A select says what to do in this pass. */
  function OnSelect(h: History, i: Inputs): Turn {
    if i.selects == [] then Wait(h, i) else Go(AfterSelect(i.selects[0]), h, i.(selects := i.selects[1..]))
  }

  /** A readable socket is peeked at: the end of the stream is answered with a notice and ends the relay. */
  function OnPeek(ax: bool, h: History, i: Inputs): Turn {
    if i.peeks == [] then Wait(h, i)
    else
      var next := i.(peeks := i.peeks[1..]);
      match i.peeks[0]
      case Eof =>
        if i.axWrites == [] then Wait(h, next) else Stop(End(HungUp, h, next.(axWrites := i.axWrites[1..])))
      case Next(c) => Go(ReadingCms(ax), h + [Peeked(c)], next)
      case Nothing => Go(ReadingCms(ax), h, next)
  }

  /** A chunk is eaten, or written to AX.25 and, if all of it goes, followed by the next read. */
  function OnChunk(b: Buffer, paclen: nat, ax: bool, d: Chunk, below: Below, h: History, i: Inputs): Turn
    requires paclen > 0
  {
    var g := h + [FromCms(d, below)];
    if Eaten(b, g) then Go(ReadingCms(ax), g, i)
    else
      var r := AxSend(|d|, paclen, 0, i.axWrites);
      var left := i.(axWrites := i.axWrites[r.calls..]);
      if r.status == Done then Go(ReadingCms(ax), g, left) else Stop(End(AxFlow(r.status), g, left))
  }

  /** The socket is read until there is nothing more. */
  function OnCms(b: Buffer, paclen: nat, ax: bool, h: History, i: Inputs): Turn
    requires paclen > 0
  {
    if i.cms == [] then Wait(h, i)
    else
      var next := i.(cms := i.cms[1..]);
      match i.cms[0]
      case Empty => Go(AfterCms(ax), h, next)
      case Data(d, below) => OnChunk(b, paclen, ax, d, below, h, next)
  }

  /** A chunk of the client is written to the CMS. */
  function OnClient(d: Chunk, below: Below, h: History, i: Inputs): Turn {
    var g := h + [FromAx(d, below)];
    var r := CmsSend(|d|, i.cmsWrites);
    var left := i.(cmsWrites := i.cmsWrites[r.calls..]);
    if r.status == Done then Go(ReadingAx, g, left) else Stop(End(CmsFlow(r.status), g, left))
  }

  /** The AX.25 descriptor is read until there is nothing more. */
  function OnAx(h: History, i: Inputs): Turn {
    if i.ax == [] then Wait(h, i)
    else
      var next := i.(ax := i.ax[1..]);
      match i.ax[0]
      case Empty => Go(Ending, h, next)
      case Data(d, below) => OnClient(d, below, h, next)
  }

  /** A pass is over, and the relay too once the idle counter is beyond its limit. */
  function OnEnd(h: History, i: Inputs): Turn {
    var g := h + [PassEnd];
    if IdleCount(g) > CONV_TIMEOUT then Stop(End(Idle(if Closed(g) then 0 else 1), g, i)) else Go(Selecting, g, i)
  }

  function TurnOf(b: Buffer, paclen: nat, at: Place, h: History, i: Inputs): Turn
    requires paclen > 0
  {
    match at
    case Selecting => OnSelect(h, i)
    case Peeking(ax) => OnPeek(ax, h, i)
    case ReadingCms(ax) => OnCms(b, paclen, ax, h, i)
    case ReadingAx => OnAx(h, i)
    case Ending => OnEnd(h, i)
  }

  lemma TurnShrinks(b: Buffer, paclen: nat, at: Place, h: History, i: Inputs)
    requires paclen > 0
    ensures var t := TurnOf(b, paclen, at, h, i);
      t.Go? ==>
        || |t.left.selects| < |i.selects|
        || (|t.left.selects| == |i.selects| && Rank(t.at) < Rank(at))
        || (|t.left.selects| == |i.selects| && Rank(t.at) == Rank(at)
            && |t.left.cms| + |t.left.ax| < |i.cms| + |i.ax|)
  {
  }

  /** From a place in a pass to the end. */
  function Course(b: Buffer, paclen: nat, at: Place, h: History, i: Inputs): End
    requires paclen > 0
    decreases |i.selects|, Rank(at), |i.cms| + |i.ax|
  {
    TurnShrinks(b, paclen, at, h, i);
    match TurnOf(b, paclen, at, h, i)
    case Stop(e) => e
    case Go(next, g, left) => Course(b, paclen, next, g, left)
  }

  // ----- One turn at a time -----

  lemma Goes(b: Buffer, paclen: nat, at: Place, h: History, i: Inputs, next: Place, g: History, left: Inputs)
    requires paclen > 0 && TurnOf(b, paclen, at, h, i) == Go(next, g, left)
    ensures Course(b, paclen, at, h, i) == Course(b, paclen, next, g, left)
  {
  }

  lemma Stops(b: Buffer, paclen: nat, at: Place, h: History, i: Inputs, e: End)
    requires paclen > 0 && TurnOf(b, paclen, at, h, i) == Stop(e)
    ensures Course(b, paclen, at, h, i) == e
  {
  }

  // The turns in terms of what they leave.

  lemma Selects(b: Buffer, paclen: nat, h: History, i: Inputs)
    requires paclen > 0
    ensures TurnOf(b, paclen, Selecting, h, i) ==
      if i.selects == [] then Stop(End(Waiting, h, i))
      else Go(AfterSelect(i.selects[0]), h, i.(selects := i.selects[1..]))
  {
  }

  lemma PassEnds(b: Buffer, paclen: nat, h: History, i: Inputs, loop: nat, errcode: int, flow: Flow)
    requires paclen > 0 && loop == IdleCount(h + [PassEnd]) && errcode == (if Closed(h + [PassEnd]) then 10 else 0)
    requires flow == if loop > CONV_TIMEOUT then Idle(if errcode == 10 then 0 else 1) else Going
    ensures TurnOf(b, paclen, Ending, h, i) ==
      if flow == Going then Go(Selecting, h + [PassEnd], i) else Stop(End(flow, h + [PassEnd], i))
  {
    hide IdleCount, Closed;
  }

  lemma NothingFromCms(b: Buffer, paclen: nat, ax: bool, h: History, i: Inputs)
    requires paclen > 0 && i.cms != [] && i.cms[0] == Empty
    ensures TurnOf(b, paclen, ReadingCms(ax), h, i) == Go(AfterCms(ax), h, i.(cms := i.cms[1..]))
  {
  }

  lemma ChunkEaten(b: Buffer, paclen: nat, ax: bool, h: History, i: Inputs)
    requires paclen > 0 && i.cms != [] && i.cms[0].Data?
    requires Eaten(b, h + [FromCms(i.cms[0].data, i.cms[0].below)])
    ensures TurnOf(b, paclen, ReadingCms(ax), h, i) ==
            Go(ReadingCms(ax), h + [FromCms(i.cms[0].data, i.cms[0].below)], i.(cms := i.cms[1..]))
  {
  }

  lemma ChunkSent(b: Buffer, paclen: nat, ax: bool, h: History, i: Inputs, flow: Flow)
    requires paclen > 0 && i.cms != [] && i.cms[0].Data?
    requires !Eaten(b, h + [FromCms(i.cms[0].data, i.cms[0].below)])
    requires flow == AxFlow(AxSend(|i.cms[0].data|, paclen, 0, i.axWrites).status)
    ensures
      var r := AxSend(|i.cms[0].data|, paclen, 0, i.axWrites);
      var left := i.(cms := i.cms[1..], axWrites := i.axWrites[r.calls..]);
      var g := h + [FromCms(i.cms[0].data, i.cms[0].below)];
      TurnOf(b, paclen, ReadingCms(ax), h, i) ==
        if flow == Going then Go(ReadingCms(ax), g, left) else Stop(End(flow, g, left))
  {
    hide AxSend, Eaten;
  }

  lemma NothingFromAx(b: Buffer, paclen: nat, h: History, i: Inputs)
    requires paclen > 0 && i.ax != [] && i.ax[0] == Empty
    ensures TurnOf(b, paclen, ReadingAx, h, i) == Go(Ending, h, i.(ax := i.ax[1..]))
  {
  }

  lemma ClientSent(b: Buffer, paclen: nat, h: History, i: Inputs, flow: Flow)
    requires paclen > 0 && i.ax != [] && i.ax[0].Data?
    requires flow == CmsFlow(CmsSend(|i.ax[0].data|, i.cmsWrites).status)
    ensures
      var r := CmsSend(|i.ax[0].data|, i.cmsWrites);
      var left := i.(ax := i.ax[1..], cmsWrites := i.cmsWrites[r.calls..]);
      var g := h + [FromAx(i.ax[0].data, i.ax[0].below)];
      TurnOf(b, paclen, ReadingAx, h, i) ==
        if flow == Going then Go(ReadingAx, g, left) else Stop(End(flow, g, left))
  {
    hide CmsSend;
  }

  // ----- Inputs are used from the front -----

  /** What is left is the end of what there was. */
  predicate Leaves<T(==)>(all: seq<T>, left: seq<T>) {
    |left| <= |all| && all[|all| - |left|..] == left
  }

  /** What was used of it. */
  function Used<T>(all: seq<T>, left: seq<T>): seq<T> {
    if |left| <= |all| then all[..|all| - |left|] else []
  }

  predicate UsesInOrder(i: Inputs, left: Inputs) {
    && Leaves(i.selects, left.selects) && Leaves(i.peeks, left.peeks) && Leaves(i.cms, left.cms)
    && Leaves(i.ax, left.ax) && Leaves(i.axWrites, left.axWrites) && Leaves(i.cmsWrites, left.cmsWrites)
  }

  lemma LeavesRest<T>(all: seq<T>, k: nat)
    requires k <= |all|
    ensures Leaves(all, all[k..]) && Used(all, all[k..]) == all[..k]
  {
  }

  lemma LeavesMore<T>(all: seq<T>, mid: seq<T>, left: seq<T>)
    requires Leaves(all, mid) && Leaves(mid, left)
    ensures Leaves(all, left) && Used(all, left) == Used(all, mid) + Used(mid, left)
  {
    var n := |all| - |mid|;
    assert all == all[..n] + mid;
  }

  // ----- Why the relay ends -----

  /** The last sixteen are EAGAINs. */
  predicate SixteenAgains(w: seq<WriteResult>) {
    |w| >= 16 && forall k :: |w| - 16 <= k < |w| ==> w[k] == Again
  }

  predicate UsedUp(i: Inputs) {
    i.selects == [] || i.peeks == [] || i.cms == [] || i.ax == [] || i.axWrites == [] || i.cmsWrites == []
  }

  /** What was used of some inputs. */
  function UsedOf(i: Inputs, left: Inputs): Inputs {
    Inputs(Used(i.selects, left.selects), Used(i.peeks, left.peeks), Used(i.cms, left.cms), Used(i.ax, left.ax),
           Used(i.axWrites, left.axWrites), Used(i.cmsWrites, left.cmsWrites))
  }

  function Joined(i: Inputs, j: Inputs): Inputs {
    Inputs(i.selects + j.selects, i.peeks + j.peeks, i.cms + j.cms, i.ax + j.ax,
           i.axWrites + j.axWrites, i.cmsWrites + j.cmsWrites)
  }

  /**
    Which way out is taken, from what was used of the inputs: the relay waits only for an input that has run out, hangs
    up only after the end of the stream, and fails only after a failed write or, towards AX.25, sixteen EAGAINs in a
    row. And after these it does not go on.
   */
  predicate Reason(used: Inputs, e: End) {
    && e.flow != Going
    && (e.flow == Waiting ==> UsedUp(e.left))
    && (e.flow == HungUp ==> Eof in used.peeks) && (Eof in used.peeks ==> e.flow == HungUp || e.flow == Waiting)
    && (e.flow == AxFailed ==> Failed in used.axWrites || SixteenAgains(used.axWrites))
    && (Failed in used.axWrites ==> e.flow == AxFailed || e.flow == HungUp)
    && (e.flow == CmsFailed <==> Failed in used.cmsWrites)
    && (e.flow.Idle? ==> IdleCount(e.h) > CONV_TIMEOUT && e.flow.code == (if Closed(e.h) then 0 else 1))
  }

  /** None of the reasons to stop. */
  predicate Calm(used: Inputs) {
    Eof !in used.peeks && Failed !in used.axWrites && Failed !in used.cmsWrites
  }

  /** A side has been read until there was nothing more. */
  predicate Emptied(reading: bool, rs: seq<Read>) {
    if rs == [] then !reading else rs[|rs| - 1] == Empty
  }

  predicate ReadsOne(reading: bool, rs: seq<Read>, still: bool) {
    if reading then |rs| == 1 && (rs[0] == Empty || still) else rs == []
  }

  /** An idle relay has read both sides until there was nothing more. */
  predicate Drained(at: Place, used: Inputs, e: End) {
    e.flow.Idle? ==> Emptied(at.ReadingCms?, used.cms) && Emptied(at.ReadingAx?, used.ax)
  }

  /** One turn. */
  predicate Keeps(at: Place, h: History, i: Inputs, t: Turn) {
    match t
    case Stop(e) =>
      var used := UsedOf(i, e.left);
      h <= e.h && UsesInOrder(i, e.left) && Reason(used, e) && Drained(at, used, e)
    case Go(next, g, left) =>
      var used := UsedOf(i, left);
      && h <= g && UsesInOrder(i, left) && Calm(used)
      && ReadsOne(at.ReadingCms?, used.cms, next.ReadingCms?) && ReadsOne(at.ReadingAx?, used.ax, next.ReadingAx?)
  }

  lemma NothingUsed(i: Inputs)
    ensures UsesInOrder(i, i) && UsedOf(i, i) == Inputs([], [], [], [], [], [])
  {
  }

  lemma SelectKeeps(h: History, i: Inputs)
    ensures Keeps(Selecting, h, i, OnSelect(h, i))
  {
    hide Leaves, Used;
    NothingUsed(i);
    if i.selects != [] {
      LeavesRest(i.selects, 1);
    }
  }

  lemma PeekKeeps(ax: bool, h: History, i: Inputs)
    ensures Keeps(Peeking(ax), h, i, OnPeek(ax, h, i))
  {
    hide Leaves, Used;
    NothingUsed(i);
    if i.peeks != [] {
      LeavesRest(i.peeks, 1);
      if i.axWrites != [] {
        LeavesRest(i.axWrites, 1);
      }
    }
  }

  lemma EndKeeps(h: History, i: Inputs)
    ensures Keeps(Ending, h, i, OnEnd(h, i))
  {
    hide Leaves, Used, IdleCount, Closed;
    NothingUsed(i);
  }

  lemma AxSendReason(n: nat, paclen: nat, results: seq<WriteResult>)
    requires paclen > 0
    ensures
      var r := AxSend(n, paclen, 0, results);
      && (r.status == Pending ==> r.calls == |results|)
      && (r.status == Broken <==> Failed in results[..r.calls])
      && (r.status == GaveUp ==> SixteenAgains(results[..r.calls]))
  {
    hide AxSend;
    AxSendExact(n, paclen, 0, results);
    GivesUpOnSixteenth(n, paclen, 0, results);
    var r := AxSend(n, paclen, 0, results);
    if r.status == GaveUp {
      LastAreAgains(results[..r.calls], 16);
    }
  }

  lemma CmsKeeps(b: Buffer, paclen: nat, ax: bool, h: History, i: Inputs)
    requires paclen > 0
    ensures Keeps(ReadingCms(ax), h, i, OnCms(b, paclen, ax, h, i))
  {
    hide Leaves, Used, AxSend, Eaten, SixteenAgains;
    NothingUsed(i);
    if i.cms != [] {
      LeavesRest(i.cms, 1);
      if i.cms[0].Data? {
        var r := AxSend(|i.cms[0].data|, paclen, 0, i.axWrites);
        LeavesRest(i.axWrites, r.calls);
        AxSendReason(|i.cms[0].data|, paclen, i.axWrites);
      }
    }
  }

  lemma AxKeeps(h: History, i: Inputs)
    ensures Keeps(ReadingAx, h, i, OnAx(h, i))
  {
    hide Leaves, Used, CmsSend;
    NothingUsed(i);
    if i.ax != [] {
      LeavesRest(i.ax, 1);
      if i.ax[0].Data? {
        var r := CmsSend(|i.ax[0].data|, i.cmsWrites);
        LeavesRest(i.cmsWrites, r.calls);
        CmsSendExact(|i.ax[0].data|, i.cmsWrites);
      }
    }
  }

  lemma TurnKeeps(b: Buffer, paclen: nat, at: Place, h: History, i: Inputs)
    requires paclen > 0
    ensures Keeps(at, h, i, TurnOf(b, paclen, at, h, i))
  {
    hide Keeps, OnSelect, OnPeek, OnCms, OnAx, OnEnd;
    match at
    case Selecting => SelectKeeps(h, i);
    case Peeking(ax) => PeekKeeps(ax, h, i);
    case ReadingCms(ax) => CmsKeeps(b, paclen, ax, h, i);
    case ReadingAx => AxKeeps(h, i);
    case Ending => EndKeeps(h, i);
  }

  lemma UsesMore(i: Inputs, mid: Inputs, left: Inputs)
    requires UsesInOrder(i, mid) && UsesInOrder(mid, left)
    ensures UsesInOrder(i, left) && UsedOf(i, left) == Joined(UsedOf(i, mid), UsedOf(mid, left))
  {
    hide Leaves, Used;
    LeavesMore(i.selects, mid.selects, left.selects);
    LeavesMore(i.peeks, mid.peeks, left.peeks);
    LeavesMore(i.cms, mid.cms, left.cms);
    LeavesMore(i.ax, mid.ax, left.ax);
    LeavesMore(i.axWrites, mid.axWrites, left.axWrites);
    LeavesMore(i.cmsWrites, mid.cmsWrites, left.cmsWrites);
  }

  lemma AgainsLater(s: seq<WriteResult>, t: seq<WriteResult>)
    requires SixteenAgains(t)
    ensures SixteenAgains(s + t)
  {
  }

  lemma ReasonLater(used: Inputs, rest: Inputs, e: End)
    requires Calm(used) && Reason(rest, e)
    ensures Reason(Joined(used, rest), e)
  {
    hide SixteenAgains, UsedUp, IdleCount, Closed;
    if SixteenAgains(rest.axWrites) {
      AgainsLater(used.axWrites, rest.axWrites);
    }
  }

  lemma EmptiedLater(reading: bool, rs: seq<Read>, still: bool, rest: seq<Read>)
    requires ReadsOne(reading, rs, still) && Emptied(still, rest)
    ensures Emptied(reading, rs + rest)
  {
  }

  /**
    The whole course: the history only grows, the inputs are used from the front, and what was used says why the relay
    ended as it did.
   */
  lemma {:induction false} CourseMeans(b: Buffer, paclen: nat, at: Place, h: History, i: Inputs)
    requires paclen > 0
    ensures var e := Course(b, paclen, at, h, i);
      h <= e.h && UsesInOrder(i, e.left) && Reason(UsedOf(i, e.left), e) && Drained(at, UsedOf(i, e.left), e)
    decreases |i.selects|, Rank(at), |i.cms| + |i.ax|
  {
    hide UsesInOrder, UsedOf, Reason, Calm, Emptied, ReadsOne, TurnOf;
    TurnKeeps(b, paclen, at, h, i);
    TurnShrinks(b, paclen, at, h, i);
    match TurnOf(b, paclen, at, h, i)
    case Stop(e) => Stops(b, paclen, at, h, i, e);
    case Go(next, g, left) =>
      Goes(b, paclen, at, h, i, next, g, left);
      CourseMeans(b, paclen, next, g, left);
      var e := Course(b, paclen, next, g, left);
      var used, rest := UsedOf(i, left), UsedOf(left, e.left);
      UsesMore(i, left, e.left);
      ReasonLater(used, rest, e);
      if e.flow.Idle? {
        EmptiedLater(at.ReadingCms?, used.cms, next.ReadingCms?, rest.cms);
        EmptiedLater(at.ReadingAx?, used.ax, next.ReadingAx?, rest.ax);
      }
  }

  // ----- What select reports is read -----

  /** The number of selects that left the socket in the set, and the AX.25 descriptor. */
  function CmsReady(rs: seq<Ready>): nat {
    if rs == [] then 0 else CmsReady(rs[..|rs| - 1]) + (if rs[|rs| - 1].cms then 1 else 0)
  }

  function AxReady(rs: seq<Ready>): nat {
    if rs == [] then 0 else AxReady(rs[..|rs| - 1]) + (if rs[|rs| - 1].ax then 1 else 0)
  }

  /** The number of times that a side had nothing more. */
  function Empties(rs: seq<Read>): nat {
    if rs == [] then 0 else Empties(rs[..|rs| - 1]) + (if rs[|rs| - 1] == Empty then 1 else 0)
  }

  lemma {:induction false} CmsReadyJoins(a: seq<Ready>, b: seq<Ready>)
    ensures CmsReady(a + b) == CmsReady(a) + CmsReady(b) && AxReady(a + b) == AxReady(a) + AxReady(b)
  {
    if b == [] {
      assert a + b == a;
    } else {
      assert (a + b)[..|a + b| - 1] == a + b[..|b| - 1];
      CmsReadyJoins(a, b[..|b| - 1]);
    }
  }

  lemma {:induction false} EmptiesJoin(a: seq<Read>, b: seq<Read>)
    ensures Empties(a + b) == Empties(a) + Empties(b)
  {
    if b == [] {
      assert a + b == a;
    } else {
      assert (a + b)[..|a + b| - 1] == a + b[..|b| - 1];
      EmptiesJoin(a, b[..|b| - 1]);
    }
  }

  /** What is still to be done of a pass: a peek, an `Empty` of the CMS, one of the client, and the end of the pass. */
  datatype Debt = Debt(peek: nat, cms: nat, ax: nat, passes: nat)

  function DebtAt(at: Place): (d: Debt)
    ensures d.peek <= 1 && d.cms <= 1 && d.ax <= 1 && d.passes <= 1
  {
    match at
    case Selecting => Debt(0, 0, 0, 0)
    case Peeking(ax) => Debt(1, 1, if ax then 1 else 0, 1)
    case ReadingCms(ax) => Debt(0, 1, if ax then 1 else 0, 1)
    case ReadingAx => Debt(0, 0, 1, 1)
    case Ending => Debt(0, 0, 0, 1)
  }

  /** What is not done yet of the reads is of the last select. */
  predicate OfLast(before: Debt, rs: seq<Ready>, after: Debt) {
    if rs == [] then after.cms == 1 ==> after.ax == before.ax
    else
      var last := rs[|rs| - 1];
      && (after.cms == 1 ==> last.cms && after.ax == (if last.ax then 1 else 0))
      && (after.ax == 1 ==> last.ax)
  }

  /** Every select asks for its peek, reads and end of the pass; what of that is not done is the debt at the end. */
  predicate Balances(before: Debt, used: Inputs, passes: int, after: Debt) {
    && before.peek + CmsReady(used.selects) == |used.peeks| + after.peek
    && before.cms + CmsReady(used.selects) == Empties(used.cms) + after.cms
    && before.ax + AxReady(used.selects) == Empties(used.ax) + after.ax
    && before.passes + |used.selects| == passes + after.passes && OfLast(before, used.selects, after)
  }

  /** The debt with which the relay can end in each way. */
  predicate CanOwe(e: End, d: Debt) {
    && d.ax <= 1
    && match e.flow
       case Idle(_) => d == Debt(0, 0, 0, 0)
       case CmsFailed => d == Debt(0, 0, 1, 1)
       case Waiting =>
         || (d == Debt(0, 0, 0, 0) && e.left.selects == [])
         || (d == Debt(1, 1, d.ax, 1) && e.left.peeks == [])
         || (d == Debt(0, 1, d.ax, 1) && (e.left.cms == [] || e.left.axWrites == []))
         || (d == Debt(0, 0, 1, 1) && (e.left.ax == [] || e.left.cmsWrites == []))
       case _ => d == Debt(0, 1, d.ax, 1)
  }

  /** One turn. */
  ghost predicate Pays(at: Place, h: History, i: Inputs, t: Turn) {
    match t
    case Stop(e) =>
      exists d :: Balances(DebtAt(at), UsedOf(i, e.left), Passes(e.h) - Passes(h), d) && CanOwe(e, d)
    case Go(next, g, left) => Balances(DebtAt(at), UsedOf(i, left), Passes(g) - Passes(h), DebtAt(next))
  }

  lemma PassesMore(h: History, e: Event)
    ensures Passes(h + [e]) == Passes(h) + (if e == PassEnd then 1 else 0)
  {
    assert (h + [e])[..|h|] == h;
  }

  lemma CountsOfOne(ready: Ready, r: Read)
    ensures CmsReady([]) == AxReady([]) == Empties([]) == 0
    ensures CmsReady([ready]) == (if ready.cms then 1 else 0) && AxReady([ready]) == (if ready.ax then 1 else 0)
    ensures Empties([r]) == if r == Empty then 1 else 0
  {
    assert [ready][..0] == [] && [r][..0] == [];
  }

  /** The relay stops with the debt d. */
  lemma StopPays(at: Place, h: History, i: Inputs, e: End, d: Debt)
    requires Balances(DebtAt(at), UsedOf(i, e.left), Passes(e.h) - Passes(h), d) && CanOwe(e, d)
    ensures Pays(at, h, i, Stop(e))
  {
  }

  lemma SelectPays(h: History, i: Inputs)
    ensures Pays(Selecting, h, i, OnSelect(h, i))
  {
    hide Leaves, Used, Passes, CmsReady, AxReady, Empties;
    NothingUsed(i);
    CountsOfOne(if i.selects == [] then Ready(false, false) else i.selects[0], Empty);
    if i.selects != [] {
      LeavesRest(i.selects, 1);
      assert i.selects[..1] == [i.selects[0]];
    } else {
      StopPays(Selecting, h, i, End(Waiting, h, i), DebtAt(Selecting));
    }
  }

  lemma PeekPays(ax: bool, h: History, i: Inputs)
    ensures Pays(Peeking(ax), h, i, OnPeek(ax, h, i))
  {
    hide Leaves, Used, Passes, CmsReady, AxReady, Empties;
    NothingUsed(i);
    CountsOfOne(Ready(false, false), Empty);
    if i.peeks == [] {
      StopPays(Peeking(ax), h, i, End(Waiting, h, i), DebtAt(Peeking(ax)));
    } else {
      LeavesRest(i.peeks, 1);
      var next := i.(peeks := i.peeks[1..]);
      if i.axWrites != [] {
        LeavesRest(i.axWrites, 1);
      }
      match i.peeks[0]
      case Eof => StopPays(Peeking(ax), h, i, OnPeek(ax, h, i).end, DebtAt(ReadingCms(ax)));
      case Next(c) => PassesMore(h, Peeked(c));
      case Nothing =>
    }
  }

  lemma EndPays(h: History, i: Inputs)
    ensures Pays(Ending, h, i, OnEnd(h, i))
  {
    hide Leaves, Used, IdleCount, Closed, Passes, CmsReady, AxReady, Empties, Pays;
    NothingUsed(i);
    CountsOfOne(Ready(false, false), Empty);
    PassesMore(h, PassEnd);
    var t := OnEnd(h, i);
    if t.Stop? {
      StopPays(Ending, h, i, t.end, DebtAt(Selecting));
    } else {
      GoPays(Ending, h, i, t);
    }
  }

  lemma GoPays(at: Place, h: History, i: Inputs, t: Turn)
    requires t.Go? && Balances(DebtAt(at), UsedOf(i, t.left), Passes(t.h) - Passes(h), DebtAt(t.at))
    ensures Pays(at, h, i, t)
  {
  }

  lemma CmsPays(b: Buffer, paclen: nat, ax: bool, h: History, i: Inputs)
    requires paclen > 0
    ensures Pays(ReadingCms(ax), h, i, OnCms(b, paclen, ax, h, i))
  {
    hide Leaves, Used, AxSend, Eaten, Passes, CmsReady, AxReady, Empties;
    NothingUsed(i);
    var t := OnCms(b, paclen, ax, h, i);
    CountsOfOne(Ready(false, false), if i.cms == [] then Empty else i.cms[0]);
    if i.cms == [] {
      StopPays(ReadingCms(ax), h, i, t.end, DebtAt(ReadingCms(ax)));
    } else {
      LeavesRest(i.cms, 1);
      assert i.cms[..1] == [i.cms[0]];
      if i.cms[0].Data? {
        var r := AxSend(|i.cms[0].data|, paclen, 0, i.axWrites);
        LeavesRest(i.axWrites, r.calls);
        AxSendReason(|i.cms[0].data|, paclen, i.axWrites);
        PassesMore(h, FromCms(i.cms[0].data, i.cms[0].below));
        if t.Stop? {
          StopPays(ReadingCms(ax), h, i, t.end, DebtAt(ReadingCms(ax)));
        }
      }
    }
  }

  lemma AxPays(h: History, i: Inputs)
    ensures Pays(ReadingAx, h, i, OnAx(h, i))
  {
    hide Leaves, Used, CmsSend, Passes, CmsReady, AxReady, Empties;
    NothingUsed(i);
    var t := OnAx(h, i);
    CountsOfOne(Ready(false, false), if i.ax == [] then Empty else i.ax[0]);
    if i.ax == [] {
      StopPays(ReadingAx, h, i, t.end, DebtAt(ReadingAx));
    } else {
      LeavesRest(i.ax, 1);
      assert i.ax[..1] == [i.ax[0]];
      if i.ax[0].Data? {
        var r := CmsSend(|i.ax[0].data|, i.cmsWrites);
        LeavesRest(i.cmsWrites, r.calls);
        CmsSendExact(|i.ax[0].data|, i.cmsWrites);
        PassesMore(h, FromAx(i.ax[0].data, i.ax[0].below));
        if t.Stop? {
          StopPays(ReadingAx, h, i, t.end, DebtAt(ReadingAx));
        }
      }
    }
  }

  lemma TurnPays(b: Buffer, paclen: nat, at: Place, h: History, i: Inputs)
    requires paclen > 0
    ensures Pays(at, h, i, TurnOf(b, paclen, at, h, i))
  {
    hide Pays, OnSelect, OnPeek, OnCms, OnAx, OnEnd;
    match at
    case Selecting => SelectPays(h, i);
    case Peeking(ax) => PeekPays(ax, h, i);
    case ReadingCms(ax) => CmsPays(b, paclen, ax, h, i);
    case ReadingAx => AxPays(h, i);
    case Ending => EndPays(h, i);
  }

  lemma BalancesAdd(before: Debt, used: Inputs, p: int, mid: Debt, rest: Inputs, q: int, after: Debt)
    requires Balances(before, used, p, mid) && Balances(mid, rest, q, after) && mid.cms <= 1 && mid.ax <= 1
    ensures Balances(before, Joined(used, rest), p + q, after)
  {
    CmsReadyJoins(used.selects, rest.selects);
    EmptiesJoin(used.cms, rest.cms);
    EmptiesJoin(used.ax, rest.ax);
  }

  lemma {:induction false} CoursePays(b: Buffer, paclen: nat, at: Place, h: History, i: Inputs) returns (d: Debt)
    requires paclen > 0
    ensures var e := Course(b, paclen, at, h, i);
      CanOwe(e, d) && Balances(DebtAt(at), UsedOf(i, e.left), Passes(e.h) - Passes(h), d)
    decreases |i.selects|, Rank(at), |i.cms| + |i.ax|
  {
    hide UsesInOrder, UsedOf, Balances, CanOwe, DebtAt, TurnOf, Reason, Drained, Calm, Passes;
    TurnPays(b, paclen, at, h, i);
    TurnKeeps(b, paclen, at, h, i);
    TurnShrinks(b, paclen, at, h, i);
    match TurnOf(b, paclen, at, h, i)
    case Stop(e) =>
      Stops(b, paclen, at, h, i, e);
      d :| Balances(DebtAt(at), UsedOf(i, e.left), Passes(e.h) - Passes(h), d) && CanOwe(e, d);
    case Go(next, g, left) =>
      Goes(b, paclen, at, h, i, next, g, left);
      d := CoursePays(b, paclen, next, g, left);
      CourseMeans(b, paclen, next, g, left);
      var e := Course(b, paclen, next, g, left);
      UsesMore(i, left, e.left);
      BalancesAdd(DebtAt(at), UsedOf(i, left), Passes(g) - Passes(h), DebtAt(next), UsedOf(left, e.left),
                  Passes(e.h) - Passes(g), d);
  }

  /**
    A relay that ends idle has peeked at the socket once, and read it until there was nothing more once, for each select
    that reported it, and the client likewise; and each select was followed by the end of a pass.
   */
  predicate AllServed(used: Inputs, passes: nat) {
    && |used.peeks| == Empties(used.cms) == CmsReady(used.selects)
    && Empties(used.ax) == AxReady(used.selects) && passes == |used.selects|
  }

  /** In the last pass the socket is being read: this is missing, and the client if that select reported it too. */
  predicate CmsUnserved(used: Inputs, passes: nat) {
    && |used.peeks| == Empties(used.cms) + 1 == CmsReady(used.selects)
    && passes + 1 == |used.selects| && used.selects[passes].cms
    && AxReady(used.selects) == Empties(used.ax) + (if used.selects[passes].ax then 1 else 0)
  }

  /** In the last pass the client is being read, and nothing else is missing. */
  predicate AxUnserved(used: Inputs, passes: nat) {
    && |used.peeks| == Empties(used.cms) == CmsReady(used.selects)
    && passes + 1 == |used.selects| && used.selects[passes].ax && Empties(used.ax) + 1 == AxReady(used.selects)
  }

  /** In the last pass the socket has not been peeked at yet. */
  predicate Unpeeked(used: Inputs, passes: nat) {
    && |used.peeks| + 1 == Empties(used.cms) + 1 == CmsReady(used.selects)
    && passes + 1 == |used.selects| && used.selects[passes].cms
    && AxReady(used.selects) == Empties(used.ax) + (if used.selects[passes].ax then 1 else 0)
  }

  /** Which descriptors were served, for each way out. */
  predicate Serves(used: Inputs, e: End) {
    var passes := Passes(e.h);
    match e.flow
    case Idle(_) => AllServed(used, passes)
    case CmsFailed => AxUnserved(used, passes)
    case Waiting =>
      || (AllServed(used, passes) && e.left.selects == [])
      || (Unpeeked(used, passes) && e.left.peeks == [])
      || (CmsUnserved(used, passes) && (e.left.cms == [] || e.left.axWrites == []))
      || (AxUnserved(used, passes) && (e.left.ax == [] || e.left.cmsWrites == []))
    case _ => CmsUnserved(used, passes)
  }

  /** Every descriptor that a select reports is read until there is nothing more, but for those of the last pass. */
  lemma EveryReadyIsServed(b: Buffer, paclen: nat, i: Inputs)
    requires paclen > 0
    ensures var e := Course(b, paclen, Selecting, [], i);
      Serves(UsedOf(i, e.left), e)
  {
    hide Course, UsedOf, CmsReady, AxReady, Empties;
    var d := CoursePays(b, paclen, Selecting, [], i);
    assert Passes([]) == 0;
  }

  // ----- The order of a pass -----

  /** A peek comes before the chunks of the CMS, and these before those of the client. */
  function Stage(e: Event): nat {
    match e
    case Peeked(_) => 1
    case FromCms(_, _) => 2
    case FromAx(_, _) => 3
    case PassEnd => 0
  }

  /** Within a pass the stages do not go back, and there is one peek at most. */
  predicate InOrder(h: History, k: nat)
    requires k + 1 < |h|
  {
    h[k + 1] == PassEnd || (Stage(h[k]) <= Stage(h[k + 1]) && !(h[k].Peeked? && h[k + 1].Peeked?))
  }

  predicate AllInOrder(h: History) {
    forall k: nat :: k < |h| - 1 ==> InOrder(h, k)
  }

  /** How far the pass has come, at each place. */
  predicate StandsAt(at: Place, h: History) {
    h != [] ==>
      var stage := Stage(h[|h| - 1]);
      match at
      case Selecting => stage == 0
      case Peeking(_) => stage == 0
      case ReadingCms(_) => stage <= 2
      case _ => true
  }

  lemma OneMoreInOrder(h: History, e: Event)
    requires AllInOrder(h)
    requires h != [] && e != PassEnd ==> Stage(h[|h| - 1]) <= Stage(e) && !(h[|h| - 1].Peeked? && e.Peeked?)
    ensures AllInOrder(h + [e])
  {
    forall k: nat | k < |h + [e]| - 1
      ensures InOrder(h + [e], k)
    {
      if k < |h| - 1 {
        assert InOrder(h, k);
      }
    }
  }

  lemma TurnInOrder(b: Buffer, paclen: nat, at: Place, h: History, i: Inputs)
    requires paclen > 0 && AllInOrder(h) && StandsAt(at, h)
    ensures var t := TurnOf(b, paclen, at, h, i);
      match t
      case Go(next, g, _) => AllInOrder(g) && StandsAt(next, g)
      case Stop(e) => AllInOrder(e.h)
  {
    hide AxSend, CmsSend, Eaten, IdleCount, Closed, AllInOrder;
    match at
    case Selecting =>
    case Peeking(ax) =>
      if i.peeks != [] && i.peeks[0].Next? {
        OneMoreInOrder(h, Peeked(i.peeks[0].c));
      }
    case ReadingCms(ax) =>
      if i.cms != [] && i.cms[0].Data? {
        OneMoreInOrder(h, FromCms(i.cms[0].data, i.cms[0].below));
      }
    case ReadingAx =>
      if i.ax != [] && i.ax[0].Data? {
        OneMoreInOrder(h, FromAx(i.ax[0].data, i.ax[0].below));
      }
    case Ending => OneMoreInOrder(h, PassEnd);
  }

  /** In each pass the CMS is peeked at and read before the client is. */
  lemma {:induction false} CourseInOrder(b: Buffer, paclen: nat, at: Place, h: History, i: Inputs)
    requires paclen > 0 && AllInOrder(h) && StandsAt(at, h)
    ensures AllInOrder(Course(b, paclen, at, h, i).h)
    decreases |i.selects|, Rank(at), |i.cms| + |i.ax|
  {
    hide TurnOf, AllInOrder, StandsAt;
    TurnInOrder(b, paclen, at, h, i);
    TurnShrinks(b, paclen, at, h, i);
    match TurnOf(b, paclen, at, h, i)
    case Stop(e) => Stops(b, paclen, at, h, i, e);
    case Go(next, g, left) =>
      Goes(b, paclen, at, h, i, next, g, left);
      CourseInOrder(b, paclen, next, g, left);
  }

  lemma OrderFromStart(b: Buffer, paclen: nat, i: Inputs)
    requires paclen > 0
    ensures AllInOrder(Course(b, paclen, Selecting, [], i).h)
  {
    CourseInOrder(b, paclen, Selecting, [], i);
  }

  // ----- Writes -----

  /** The same to select, peek and read, whatever becomes of the writes. */
  predicate SameReads(i: Inputs, j: Inputs) {
    i.selects == j.selects && i.peeks == j.peeks && i.cms == j.cms && i.ax == j.ax
  }

  /** One of two histories is where the other was before. */
  predicate Comparable(g: History, h: History) {
    g <= h || h <= g
  }

  lemma SameTurn(b: Buffer, paclen: nat, at: Place, h: History, i: Inputs, j: Inputs)
    requires paclen > 0 && SameReads(i, j)
    ensures
      var s, t := TurnOf(b, paclen, at, h, i), TurnOf(b, paclen, at, h, j);
      var g := if s.Go? then s.h else s.end.h;
      && g == (if t.Go? then t.h else t.end.h)
      && (s.Go? && t.Go? ==> s.at == t.at && SameReads(s.left, t.left))
  {
    hide AxSend, CmsSend, Eaten, IdleCount, Closed;
  }

  /** What is selected, peeked at and read dictates the history; a write that fails or hangs only cuts it short. */
  lemma {:induction false} WritesOnlyCut(b: Buffer, paclen: nat, at: Place, h: History, i: Inputs, j: Inputs)
    requires paclen > 0 && SameReads(i, j)
    ensures Comparable(Course(b, paclen, at, h, i).h, Course(b, paclen, at, h, j).h)
    decreases |i.selects|, Rank(at), |i.cms| + |i.ax|
  {
    hide TurnOf, UsesInOrder, Reason, Drained, Course, SameReads;
    SameTurn(b, paclen, at, h, i, j);
    TurnShrinks(b, paclen, at, h, i);
    var s, t := TurnOf(b, paclen, at, h, i), TurnOf(b, paclen, at, h, j);
    if s.Go? {
      Goes(b, paclen, at, h, i, s.at, s.h, s.left);
      CourseMeans(b, paclen, s.at, s.h, s.left);
    } else {
      Stops(b, paclen, at, h, i, s.end);
    }
    if t.Go? {
      Goes(b, paclen, at, h, j, t.at, t.h, t.left);
      CourseMeans(b, paclen, t.at, t.h, t.left);
    } else {
      Stops(b, paclen, at, h, j, t.end);
    }
    if s.Go? && t.Go? {
      WritesOnlyCut(b, paclen, s.at, s.h, s.left, t.left);
    }
  }
}
