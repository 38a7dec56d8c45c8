/**
  Writing one chunk to a descriptor that may take part of it, ask for a retry or fail: the inner loops of the relay.
  What they do depends on the number of bytes only, so the specifications are about numbers; the methods in Relay say
  which bytes went.
 */
module AxWrite {
  import opened Text

  /** What one write call does: take at least one byte and at most the given count, EAGAIN, or another error. */
  datatype WriteResult = Wrote(count: nat) | Again | Failed

  datatype Status = Done | GaveUp | Broken | Pending

  /** The sizes of the pieces written and their sum, how it ended, the calls made and the seconds slept. */
  datatype Sent = Sent(sizes: seq<nat>, bytes: nat, status: Status, calls: nat, slept: nat)

  const MAX_RETRIES: nat := 15
  const MAX_SLEEP: nat := 10

  /** The number of bytes a write of `request` bytes takes. */
  function Taken(count: nat, request: nat): (m: nat)
    requires request > 0
    ensures 1 <= m <= request
  {
    if count == 0 then 1 else Min(count, request)
  }

  /** The back-off before retry number `retry` + 1. */
  function Pause(retry: nat): nat { Min(retry, MAX_SLEEP) }

  /** The AX.25 side: fragments of at most paclen bytes, and a bounded number of retries in a row. */
  function AxSend(n: nat, paclen: nat, retry: nat, results: seq<WriteResult>): (r: Sent)
    requires paclen > 0
    ensures r.calls <= |results|
    decreases |results|
  {
    if n == 0 then Sent([], 0, Done, 0, 0)
    else if results == [] then Sent([], 0, Pending, 0, 0)
    else
      match results[0]
      case Failed => Sent([], 0, Broken, 1, 0)
      case Again =>
        if retry + 1 > MAX_RETRIES then Sent([], 0, GaveUp, 1, 0)
        else
          var r := AxSend(n, paclen, retry + 1, results[1..]);
          r.(calls := 1 + r.calls, slept := Pause(retry) + r.slept)
      case Wrote(count) =>
        var m := Taken(count, Min(paclen, n));
        var r := AxSend(n - m, paclen, 0, results[1..]);
        r.(sizes := [m] + r.sizes, bytes := m + r.bytes, calls := 1 + r.calls)
  }

  /** The CMS side: whole requests, and as many retries as it takes. */
  function CmsSend(n: nat, results: seq<WriteResult>): (r: Sent)
    ensures r.calls <= |results|
    decreases |results|
  {
    if n == 0 then Sent([], 0, Done, 0, 0)
    else if results == [] then Sent([], 0, Pending, 0, 0)
    else
      match results[0]
      case Failed => Sent([], 0, Broken, 1, 0)
      case Again =>
        var r := CmsSend(n, results[1..]);
        r.(calls := 1 + r.calls)
      case Wrote(count) =>
        var m := Taken(count, n);
        var r := CmsSend(n - m, results[1..]);
        r.(sizes := [m] + r.sizes, bytes := m + r.bytes, calls := 1 + r.calls)
  }

  // ----- All of the chunk or part of it -----

  lemma CallsFromFront(results: seq<WriteResult>, k: nat)
    requires 0 < k <= |results|
    ensures results[..k] == [results[0]] + results[1..][..k - 1]
  {
  }

  /** All bytes go exactly when the loop ends normally, and never more than paclen of them in one piece. */
  lemma {:induction false} AxSendExact(n: nat, paclen: nat, retry: nat, results: seq<WriteResult>)
    requires paclen > 0
    ensures
      var r := AxSend(n, paclen, retry, results);
      && r.calls <= |results| && r.bytes <= n
      && (r.status == Done <==> r.bytes == n)
      && (forall m :: m in r.sizes ==> 1 <= m <= paclen)
      && (r.status == Pending ==> r.calls == |results|)
      && (r.status == Broken <==> Failed in results[..r.calls])
    decreases |results|
  {
    if n != 0 && results != [] {
      CallsFromFront(results, AxSend(n, paclen, retry, results).calls);
      match results[0]
      case Failed =>
      case Again =>
        AxSendExact(n, paclen, retry + 1, results[1..]);
      case Wrote(count) =>
        AxSendExact(n - Taken(count, Min(paclen, n)), paclen, 0, results[1..]);
    }
  }

  /** The CMS side never gives up: it ends when all bytes have gone or the socket breaks. */
  lemma {:induction false} CmsSendExact(n: nat, results: seq<WriteResult>)
    ensures
      var r := CmsSend(n, results);
      && r.calls <= |results| && r.bytes <= n
      && (r.status == Done <==> r.bytes == n)
      && r.status != GaveUp && r.slept == 0
      && (r.status == Pending ==> r.calls == |results|)
      && (r.status == Broken <==> Failed in results[..r.calls])
    decreases |results|
  {
    if n != 0 && results != [] {
      CallsFromFront(results, CmsSend(n, results).calls);
      match results[0]
      case Failed =>
      case Again =>
        CmsSendExact(n, results[1..]);
      case Wrote(count) =>
        CmsSendExact(n - Taken(count, n), results[1..]);
    }
  }

  // ----- Giving up -----

  /** How many EAGAINs in a row end a sequence of results, `before` of them having gone before it. */
  function AgainsAtEnd(before: nat, results: seq<WriteResult>): nat {
    if results == [] then before
    else if results[|results| - 1] == Again then AgainsAtEnd(before, results[..|results| - 1]) + 1
    else 0
  }

  lemma {:induction false} AgainsFromFront(before: nat, results: seq<WriteResult>)
    requires results != []
    ensures AgainsAtEnd(before, results) == AgainsAtEnd(if results[0] == Again then before + 1 else 0, results[1..])
  {
    var n := |results| - 1;
    if n > 0 {
      AgainsFromFront(before, results[..n]);
      assert results[..n][1..] == results[1..][..n - 1];
    }
  }

  lemma {:induction false} LastAreAgains(results: seq<WriteResult>, n: nat)
    requires AgainsAtEnd(0, results) >= n
    ensures n <= |results| && forall k :: |results| - n <= k < |results| ==> results[k] == Again
  {
    if n > 0 && results != [] {
      LastAreAgains(results[..|results| - 1], n - 1);
    }
  }

  /** The runs of EAGAINs in the prefixes of some results, told from those of the rest. */
  lemma AgainsInPrefixes(before: nat, next: nat, results: seq<WriteResult>)
    requires results != [] && next == (if results[0] == Again then before + 1 else 0)
    ensures AgainsAtEnd(before, results[..0]) == before && AgainsAtEnd(next, results[1..][..0]) == next
    ensures forall k :: 1 <= k <= |results| ==>
      AgainsAtEnd(before, results[..k]) == AgainsAtEnd(next, results[1..][..k - 1])
  {
    forall k | 1 <= k <= |results|
      ensures AgainsAtEnd(before, results[..k]) == AgainsAtEnd(next, results[1..][..k - 1])
    {
      AgainsFromFront(before, results[..k]);
      assert results[..k][1..] == results[1..][..k - 1];
    }
  }

  /** Fifteen EAGAINs in a row are tolerated wherever they come; the loop gives up exactly on the sixteenth. */
  lemma {:induction false} GivesUpOnSixteenth(n: nat, paclen: nat, retry: nat, results: seq<WriteResult>)
    requires paclen > 0 && retry <= MAX_RETRIES
    ensures
      var r := AxSend(n, paclen, retry, results);
      && r.calls <= |results|
      && (r.status == GaveUp <==> AgainsAtEnd(retry, results[..r.calls]) == 16)
      && (forall k :: 0 <= k < r.calls ==> AgainsAtEnd(retry, results[..k]) <= 15)
    decreases |results|
  {
    if n == 0 || results == [] {
      assert results[..0] == [];
    } else {
      hide AgainsAtEnd;
      var next := if results[0] == Again then retry + 1 else 0;
      AgainsInPrefixes(retry, next, results);
      match results[0]
      case Failed =>
      case Again =>
        if next <= MAX_RETRIES {
          GivesUpOnSixteenth(n, paclen, next, results[1..]);
        }
      case Wrote(count) =>
        GivesUpOnSixteenth(n - Taken(count, Min(paclen, n)), paclen, 0, results[1..]);
    }
  }

  // ----- The time it can take -----

  /** The seconds slept over the first `retries` EAGAINs of a run. */
  function RunSleep(retries: nat): nat {
    if retries == 0 then 0 else RunSleep(retries - 1) + Pause(retries - 1)
  }

  lemma {:induction false} RunSleepAtMost(retries: nat)
    requires retries <= MAX_RETRIES
    ensures RunSleep(retries) <= 95 && RunSleep(MAX_RETRIES) == 95
  {
    assert RunSleep(5) == 10 && RunSleep(10) == 45 && RunSleep(15) == 95;
    SleepGrows(retries, MAX_RETRIES);
  }

  lemma {:induction false} SleepGrows(a: nat, b: nat)
    requires a <= b
    ensures RunSleep(a) <= RunSleep(b)
    decreases b
  {
    if a < b {
      SleepGrows(a, b - 1);
    }
  }

  function Agains(k: nat): seq<WriteResult> {
    seq(k, _ => Again)
  }

  /** The seconds that k EAGAINs in a row cost: none, then one more each time, and ten from the eleventh on. */
  function BackOff(k: nat): nat {
    if k <= 11 then k * (k - 1) / 2 else 55 + 10 * (k - 11)
  }

  lemma OneMoreAgain(n: nat, paclen: nat, retry: nat, k: nat, rest: seq<WriteResult>)
    requires paclen > 0 && n > 0 && k > 0 && retry < MAX_RETRIES
    ensures AxSend(n, paclen, retry, Agains(k) + rest).slept ==
            (if retry < 10 then retry else 10) + AxSend(n, paclen, retry + 1, Agains(k - 1) + rest).slept
    ensures AxSend(n, paclen, retry, Agains(k) + rest).calls ==
            1 + AxSend(n, paclen, retry + 1, Agains(k - 1) + rest).calls
    ensures AxSend(n, paclen, retry, Agains(k) + rest).status ==
            AxSend(n, paclen, retry + 1, Agains(k - 1) + rest).status
  {
    assert (Agains(k) + rest)[1..] == Agains(k - 1) + rest;
  }

  lemma BackOffStep(retry: nat)
    ensures BackOff(retry + 1) == BackOff(retry) + if retry < 10 then retry else 10
  {
    if retry < 10 {
      assert (retry + 1) * retry == retry * (retry - 1) + 2 * retry;
    }
  }

  /** What a run of EAGAINs sleeps, exactly, and nothing else of the loop is touched by it. */
  lemma {:induction false} RunSleepExactly(n: nat, paclen: nat, retry: nat, k: nat, rest: seq<WriteResult>)
    requires paclen > 0 && n > 0 && retry + k <= 15
    ensures
      var r, after := AxSend(n, paclen, retry, Agains(k) + rest), AxSend(n, paclen, retry + k, rest);
      && BackOff(retry) + r.slept == BackOff(retry + k) + after.slept
      && r.calls == k + after.calls && r.status == after.status
    decreases k
  {
    hide AxSend, BackOff;
    if k == 0 {
      assert Agains(0) + rest == rest;
    } else {
      OneMoreAgain(n, paclen, retry, k, rest);
      BackOffStep(retry);
      RunSleepExactly(n, paclen, retry + 1, k - 1, rest);
    }
  }

  /** k EAGAINs and a write that takes everything: the first retry comes at once, and each of the others later. */
  lemma RetriesThenWrites(n: nat, paclen: nat, k: nat, count: nat)
    requires 0 < n <= paclen && n <= count && k <= 15
    ensures
      var r := AxSend(n, paclen, 0, Agains(k) + [Wrote(count)]);
      && r.slept == (if k <= 11 then k * (k - 1) / 2 else 55 + 10 * (k - 11))
      && r.status == Done && r.calls == k + 1
  {
    RunSleepExactly(n, paclen, 0, k, [Wrote(count)]);
    WritesAll(n, paclen, k, count);
  }

  lemma WritesAll(n: nat, paclen: nat, retry: nat, count: nat)
    requires 0 < n <= paclen && n <= count
    ensures AxSend(n, paclen, retry, [Wrote(count)]) == Sent([n], n, Done, 1, 0)
  {
    assert [Wrote(count)][1..] == [];
    assert AxSend(0, paclen, 0, []) == Sent([], 0, Done, 0, 0);
  }

  /** Sixteen of them are too many, and cost 95 seconds. */
  lemma RetriesThenGivesUp(n: nat, paclen: nat, rest: seq<WriteResult>)
    requires 0 < n && paclen > 0
    ensures
      var r := AxSend(n, paclen, 0, Agains(16) + rest);
      r.slept == 95 && r.status == GaveUp && r.calls == 16 && r.bytes == 0
  {
    assert Agains(16) + rest == Agains(15) + ([Again] + rest);
    RunSleepExactly(n, paclen, 0, 15, [Again] + rest);
    GivesUpWith(n, paclen, rest);
    NothingWritten(n, paclen, 0, 16, rest);
  }

  lemma GivesUpWith(n: nat, paclen: nat, rest: seq<WriteResult>)
    requires 0 < n && paclen > 0
    ensures AxSend(n, paclen, 15, [Again] + rest) == Sent([], 0, GaveUp, 1, 0)
  {
  }

  lemma {:induction false} NothingWritten(n: nat, paclen: nat, retry: nat, k: nat, rest: seq<WriteResult>)
    requires 0 < n && paclen > 0 && k > 0 && retry + k == 16
    ensures AxSend(n, paclen, retry, Agains(k) + rest).bytes == 0
    decreases k
  {
    assert (Agains(k) + rest)[1..] == Agains(k - 1) + rest;
    if k > 1 {
      NothingWritten(n, paclen, retry + 1, k - 1, rest);
    }
  }

  // ----- Writes that take a part, or all they are given -----

  /** A write that takes m bytes advances by these, and the next one starts with a fresh count of retries. */
  lemma PartIsTaken(n: nat, paclen: nat, retry: nat, m: nat, rest: seq<WriteResult>)
    requires 0 < m <= paclen && m <= n
    ensures
      var r, after := AxSend(n, paclen, retry, [Wrote(m)] + rest), AxSend(n - m, paclen, 0, rest);
      r == after.(sizes := [m] + after.sizes, bytes := m + after.bytes, calls := 1 + after.calls)
  {
    assert ([Wrote(m)] + rest)[1..] == rest;
  }

  lemma PartGoesToCms(n: nat, m: nat, rest: seq<WriteResult>)
    requires 0 < m <= n
    ensures
      var r, after := CmsSend(n, [Wrote(m)] + rest), CmsSend(n - m, rest);
      r == after.(sizes := [m] + after.sizes, bytes := m + after.bytes, calls := 1 + after.calls)
  {
    assert ([Wrote(m)] + rest)[1..] == rest;
  }

  predicate AllTaken(size: nat, results: seq<WriteResult>) {
    forall j :: 0 <= j < |results| ==> results[j].Wrote? && results[j].count >= size
  }

  /** The pieces towards AX.25 are as long as a packet, but for the last one. */
  lemma {:induction false} FullPackets(n: nat, paclen: nat, retry: nat, results: seq<WriteResult>)
    requires paclen > 0 && n > 0 && AllTaken(paclen, results) && n <= |results| * paclen
    ensures
      var r := AxSend(n, paclen, retry, results);
      && r.status == Done && r.slept == 0 && 0 < r.calls == |r.sizes|
      && (forall j :: 0 <= j < r.calls - 1 ==> r.sizes[j] == paclen)
      && n == (r.calls - 1) * paclen + r.sizes[r.calls - 1]
    decreases |results|
  {
    Multiple(|results|, paclen);
    if n <= paclen {
      OnePacket(n, paclen, retry, results);
    } else {
      PacketFirst(n, paclen, retry, results);
      FullPackets(n - paclen, paclen, 0, results[1..]);
      Multiple(AxSend(n - paclen, paclen, 0, results[1..]).calls, paclen);
    }
  }

  lemma Multiple(k: nat, p: nat)
    ensures k > 0 ==> k * p == (k - 1) * p + p
    ensures k == 0 ==> k * p == 0
  {
  }

  lemma OnePacket(n: nat, paclen: nat, retry: nat, results: seq<WriteResult>)
    requires 0 < n <= paclen && AllTaken(paclen, results) && results != []
    ensures AxSend(n, paclen, retry, results) == Sent([n], n, Done, 1, 0)
  {
    assert AxSend(0, paclen, 0, results[1..]) == Sent([], 0, Done, 0, 0);
  }

  lemma PacketFirst(n: nat, paclen: nat, retry: nat, results: seq<WriteResult>)
    requires 0 < paclen < n && AllTaken(paclen, results) && results != []
    ensures
      var rest := AxSend(n - paclen, paclen, 0, results[1..]);
      AxSend(n, paclen, retry, results) ==
        rest.(sizes := [paclen] + rest.sizes, bytes := paclen + rest.bytes, calls := 1 + rest.calls)
  {
  }

  /** To the CMS everything is offered at once. */
  lemma WholeRequests(n: nat, count: nat, rest: seq<WriteResult>)
    requires 0 < n <= count
    ensures CmsSend(n, [Wrote(count)] + rest) == Sent([n], n, Done, 1, 0)
  {
    assert CmsSend(0, rest) == Sent([], 0, Done, 0, 0);
    assert ([Wrote(count)] + rest)[1..] == rest;
  }

  /** A chunk never costs more than 95 seconds of sleep for every one of its bytes. */
  lemma {:induction false} SleepBound(n: nat, paclen: nat, retry: nat, results: seq<WriteResult>)
    requires paclen > 0 && retry <= MAX_RETRIES && n > 0
    ensures RunSleep(retry) + AxSend(n, paclen, retry, results).slept <= 95 * n
    decreases |results|
  {
    RunSleepAtMost(retry);
    if results != [] {
      match results[0]
      case Failed =>
      case Again =>
        if retry + 1 <= MAX_RETRIES {
          SleepBound(n, paclen, retry + 1, results[1..]);
        }
      case Wrote(count) =>
        var m := Taken(count, Min(paclen, n));
        if m < n {
          SleepBound(n - m, paclen, 0, results[1..]);
        }
    }
  }

  /** So it is for a chunk from its first byte on. */
  lemma ChunkSleep(n: nat, paclen: nat, results: seq<WriteResult>)
    requires paclen > 0
    ensures AxSend(n, paclen, 0, results).slept <= 95 * n
  {
    if n > 0 {
      SleepBound(n, paclen, 0, results);
    }
  }

  // ----- The loops, one call at a time -----

  /** What has gone before, and the rest. */
  function After(acc: Sent, rest: Sent): Sent {
    Sent(acc.sizes + rest.sizes, acc.bytes + rest.bytes, rest.status, acc.calls + rest.calls, acc.slept + rest.slept)
  }

  const NOTHING := Sent([], 0, Done, 0, 0)

  lemma AfterNothing(rest: Sent)
    ensures After(NOTHING, rest) == rest
  {
  }

  lemma AfterEnd(acc: Sent, status: Status, calls: nat)
    ensures After(acc, Sent([], 0, status, calls, 0)) == acc.(status := status, calls := acc.calls + calls)
  {
  }

  lemma AfterPiece(acc: Sent, m: nat, rest: Sent)
    ensures After(acc, rest.(sizes := [m] + rest.sizes, bytes := m + rest.bytes, calls := 1 + rest.calls))
         == After(acc.(sizes := acc.sizes + [m], bytes := acc.bytes + m, calls := acc.calls + 1), rest)
  {
    assert acc.sizes + ([m] + rest.sizes) == acc.sizes + [m] + rest.sizes;
  }

  /** f is AxSend for a packet length, under a name that keeps its definition out of the proof of the loop. */
  ghost predicate Sends(f: (nat, nat, seq<WriteResult>) -> Sent, paclen: nat)
    requires paclen > 0
  {
    forall n, retry, results {:trigger AxSend(n, paclen, retry, results)} ::
      f(n, retry, results) == AxSend(n, paclen, retry, results)
  }

  lemma AxEnds(f: (nat, nat, seq<WriteResult>) -> Sent, acc: Sent, n: nat, paclen: nat, retry: nat,
               results: seq<WriteResult>)
    requires paclen > 0 && Sends(f, paclen)
    ensures n == 0 ==> After(acc, f(n, retry, results)) == acc.(status := Done)
    ensures n > 0 && results == [] ==> After(acc, f(n, retry, results)) == acc.(status := Pending)
  {
    assert f(n, retry, results) == AxSend(n, paclen, retry, results);
    AfterEnd(acc, Done, 0);
    AfterEnd(acc, Pending, 0);
  }

  lemma AxTurn(f: (nat, nat, seq<WriteResult>) -> Sent, acc: Sent, n: nat, paclen: nat, retry: nat,
               results: seq<WriteResult>)
    requires paclen > 0 && Sends(f, paclen) && n > 0 && results != []
    ensures
      var all := After(acc, f(n, retry, results));
      var next := acc.(calls := acc.calls + 1);
      match results[0]
      case Failed => all == next.(status := Broken)
      case Again =>
        if retry + 1 > MAX_RETRIES then all == next.(status := GaveUp)
        else all == After(next.(slept := acc.slept + Pause(retry)), f(n, retry + 1, results[1..]))
      case Wrote(count) =>
        var m := Taken(count, Min(paclen, n));
        all == After(next.(sizes := acc.sizes + [m], bytes := acc.bytes + m), f(n - m, 0, results[1..]))
  {
    assert f(n, retry, results) == AxSend(n, paclen, retry, results);
    match results[0]
    case Failed => AfterEnd(acc, Broken, 1);
    case Again =>
      if retry + 1 > MAX_RETRIES {
        AfterEnd(acc, GaveUp, 1);
      } else {
        assert f(n, retry + 1, results[1..]) == AxSend(n, paclen, retry + 1, results[1..]);
      }
    case Wrote(count) =>
      var m := Taken(count, Min(paclen, n));
      assert f(n - m, 0, results[1..]) == AxSend(n - m, paclen, 0, results[1..]);
      AfterPiece(acc, m, AxSend(n - m, paclen, 0, results[1..]));
  }

  lemma CmsEnds(acc: Sent, n: nat, results: seq<WriteResult>)
    ensures n == 0 ==> After(acc, CmsSend(n, results)) == acc.(status := Done)
    ensures n > 0 && results == [] ==> After(acc, CmsSend(n, results)) == acc.(status := Pending)
  {
    AfterEnd(acc, Done, 0);
    AfterEnd(acc, Pending, 0);
  }

  lemma CmsTurn(acc: Sent, n: nat, results: seq<WriteResult>)
    requires n > 0 && results != []
    ensures
      var all := After(acc, CmsSend(n, results));
      var next := acc.(calls := acc.calls + 1);
      match results[0]
      case Failed => all == next.(status := Broken)
      case Again => all == After(next, CmsSend(n, results[1..]))
      case Wrote(count) =>
        var m := Taken(count, n);
        all == After(next.(sizes := acc.sizes + [m], bytes := acc.bytes + m), CmsSend(n - m, results[1..]))
  {
    match results[0]
    case Failed => AfterEnd(acc, Broken, 1);
    case Again =>
    case Wrote(count) =>
      var m := Taken(count, n);
      AfterPiece(acc, m, CmsSend(n - m, results[1..]));
  }
}
