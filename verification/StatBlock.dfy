/**
  The shared status block: ten slots for gateway call signs and ten for CMS hosts, found by name, with the counters
  that the gateway and the check-in client keep in them.
 */
module StatBlock {
  import opened Text
  import opened Word32
  import opened SlotNames
  import opened SlotTable

  const TABLE_SIZE: nat := 10
  const MAXCALL: nat := 9
  const MAXHOSTNAME: nat := 64

  /** unsigned long and unsigned long long */
  type Word64 = x: nat | x < TWO64

  function Wrap(x: int): Word64 { x % TWO64 }

  // ----- Gateways -----

  datatype GwRec = GwRec(pid: int, state: int, client: CString, cms: CString,
                           connects: Word64, bytesIn: Word64, bytesOut: Word64)

  datatype GwOp =
    | SetState(call: CString, state: int)
    | SetPid(call: CString, pid: int)
    | SetUser(call: CString, user: CString)
    | SetCms(call: CString, cms: CString)
    | Connected(call: CString)
    | BytesIn(call: CString, count: int)
    | BytesOut(call: CString, count: int)

  function GwUpdate(r: GwRec, op: GwOp): GwRec {
    match op
    case SetState(_, s) => r.(state := s)
    case SetPid(_, p) => r.(pid := p)
    case SetUser(_, user) => r.(client := Key(user, MAXCALL))
    case SetCms(_, cms) => r.(cms := Key(cms, MAXHOSTNAME))
    case Connected(_) => r.(connects := Wrap(r.connects + 1))
    case BytesIn(_, count) => r.(bytesIn := Wrap(r.bytesIn + count))
    case BytesOut(_, count) => r.(bytesOut := Wrap(r.bytesOut + count))
  }

  const GATEWAYS: Kind<GwRec, GwOp> := Kind((op: GwOp) => op.call, GwUpdate, MAXCALL)

  const NEW_GATEWAY: GwRec := GwRec(-1, 0, "", "", 0, 0, 0)

  function ConnectsField(r: GwRec): Word64 { r.connects }

  function InField(r: GwRec): Word64 { r.bytesIn }

  function OutField(r: GwRec): Word64 { r.bytesOut }

  function ConnectsOf(op: GwOp): int { if op.Connected? then 1 else 0 }

  function InOf(op: GwOp): int { if op.BytesIn? then op.count else 0 }

  function OutOf(op: GwOp): int { if op.BytesOut? then op.count else 0 }

  // ----- CMS hosts -----

  datatype HostRec = HostRec(lastCi: int, ciCount: Word64, lastFailure: int, totFail: Word64, curFail: Word64,
                             updates: Word, errors: Word)

  datatype HostOp =
    | Failed(host: CString, time: int)
    | CheckedIn(host: CString, time: int)
    | Channels(host: CString, updates: int, errors: int)
    | LookedUp(host: CString)

  function HostUpdate(r: HostRec, op: HostOp): HostRec {
    match op
    case Failed(_, now) => r.(lastFailure := now, totFail := Wrap(r.totFail + 1), curFail := Wrap(r.curFail + 1))
    case CheckedIn(_, now) => r.(lastCi := now, ciCount := Wrap(r.ciCount + 1), curFail := 0)
    case Channels(_, u, e) => r.(updates := u % TWO32, errors := e % TWO32)
    case LookedUp(_) => r
  }

  const HOSTS: Kind<HostRec, HostOp> := Kind((op: HostOp) => op.host, HostUpdate, MAXHOSTNAME)

  const NEW_HOST: HostRec := HostRec(0, 0, 0, 0, 0, 0, 0)

  function FailuresField(r: HostRec): Word64 { r.totFail }

  function CheckinsField(r: HostRec): Word64 { r.ciCount }

  function FailuresOf(op: HostOp): int { if op.Failed? then 1 else 0 }

  function CheckinsOf(op: HostOp): int { if op.CheckedIn? then 1 else 0 }

  /** The operations after the last check-in. */
  function SinceCheckin(ops: seq<HostOp>): seq<HostOp> {
    if ops == [] || ops[|ops| - 1].CheckedIn? then []
    else SinceCheckin(ops[..|ops| - 1]) + [ops[|ops| - 1]]
  }

  // ----- What the counters count -----

  lemma WrapSum(x: int, y: int)
    ensures Wrap(Wrap(x) + y) == Wrap(x + y)
  {
  }

  /** A field that every operation increases by its weight, mod 2^64. */
  ghost predicate Counts<R(!new), O(!new)>(k: Kind<R, O>, field: R -> Word64, weight: O -> int) {
    forall r, op :: field(k.update(r, op)) == Wrap(field(r) + weight(op))
  }

  lemma {:induction false} CounterIsSum<R(!new), O(!new)>(
    k: Kind<R, O>, field: R -> Word64, weight: O -> int, r: R, ops: seq<O>)
    requires Counts(k, field, weight)
    ensures field(Accumulated(k, r, ops)) == Wrap(field(r) + Sum(weight, ops))
  {
    if ops != [] {
      var n := |ops| - 1;
      CounterIsSum(k, field, weight, r, ops[..n]);
      WrapSum(field(r) + Sum(weight, ops[..n]), weight(ops[n]));
    }
  }

  lemma CounterOfSlot<R(!new), O(!new)>(k: Kind<R, O>, field: R -> Word64, weight: O -> int,
                                       start: Table<R>, ops: seq<O>, i: nat)
    requires Counts(k, field, weight)
    requires Sized(start) && Shaped(start.names) && Named(k, ops) && k.cap > 0 && i < |start.names|
    ensures
      var t := Replay(k, start, ops);
      field(t.recs[i]) == Wrap(field(start.recs[i]) + Sum(weight, Mine(k, t.names, i, ops)))
  {
    RecordIsItsOperations(k, start, ops, i);
    CounterIsSum(k, field, weight, start.recs[i], Mine(k, Replay(k, start, ops).names, i, ops));
  }

  lemma GatewayFieldsCount()
    ensures Counts(GATEWAYS, ConnectsField, ConnectsOf)
    ensures Counts(GATEWAYS, InField, InOf)
    ensures Counts(GATEWAYS, OutField, OutOf)
  {
  }

  lemma HostFieldsCount()
    ensures Counts(HOSTS, CheckinsField, CheckinsOf)
    ensures Counts(HOSTS, FailuresField, FailuresOf)
  {
  }

  lemma {:induction false} SinceCheckinIsLess(ops: seq<HostOp>)
    ensures 0 <= Sum(FailuresOf, SinceCheckin(ops)) <= Sum(FailuresOf, ops)
  {
    if ops != [] {
      var n := |ops| - 1;
      SinceCheckinIsLess(ops[..n]);
      SumOfMore(FailuresOf, SinceCheckin(ops[..n]), ops[n]);
    }
  }

  lemma FailureStep(r: HostRec, op: HostOp)
    ensures HOSTS.update(r, op).curFail ==
            if op.CheckedIn? then 0 else if op.Failed? then Wrap(r.curFail + 1) else r.curFail
  {
  }

  lemma NoFailures()
    ensures Sum(FailuresOf, []) == 0 && Wrap(0) == 0
  {
  }

  lemma {:induction false} CurrentFailures(r: HostRec, ops: seq<HostOp>)
    requires r.curFail == 0
    ensures Accumulated(HOSTS, r, ops).curFail == Wrap(Sum(FailuresOf, SinceCheckin(ops)))
  {
    hide Sum, HostUpdate, Wrap;
    NoFailures();
    if ops != [] {
      var n := |ops| - 1;
      var since := SinceCheckin(ops[..n]);
      CurrentFailures(r, ops[..n]);
      FailureStep(Accumulated(HOSTS, r, ops[..n]), ops[n]);
      SumOfMore(FailuresOf, since, ops[n]);
      WrapSum(Sum(FailuresOf, since), 1);
    }
  }

  // ----- Whole runs -----

  function Fresh<R>(r: R): (t: Table<R>)
    ensures Sized(t) && |t.names| == TABLE_SIZE
  {
    Table(seq(TABLE_SIZE, _ => ""), seq(TABLE_SIZE, _ => r))
  }

  // Each counter of a slot is, mod 2^64, the sum over the operations whose name resolves to that slot at the end.

  lemma ConnectionsAreSums(k: Kind<GwRec, GwOp>, start: Table<GwRec>, ops: seq<GwOp>, i: nat)
    requires k == GATEWAYS && Sized(start) && Shaped(start.names) && Named(k, ops) && i < |start.names|
    ensures var t := Replay(k, start, ops);
      t.recs[i].connects == Wrap(start.recs[i].connects + Sum(ConnectsOf, Mine(k, t.names, i, ops)))
  {
    hide Replay, Mine, Sum, Named, Shaped;
    assert Counts(k, ConnectsField, ConnectsOf) by { GatewayFieldsCount(); }
    CounterOfSlot(k, ConnectsField, ConnectsOf, start, ops, i);
  }

  lemma BytesInAreSums(k: Kind<GwRec, GwOp>, start: Table<GwRec>, ops: seq<GwOp>, i: nat)
    requires k == GATEWAYS && Sized(start) && Shaped(start.names) && Named(k, ops) && i < |start.names|
    ensures var t := Replay(k, start, ops);
      t.recs[i].bytesIn == Wrap(start.recs[i].bytesIn + Sum(InOf, Mine(k, t.names, i, ops)))
  {
    hide Replay, Mine, Sum, Named, Shaped;
    assert Counts(k, InField, InOf) by { GatewayFieldsCount(); }
    CounterOfSlot(k, InField, InOf, start, ops, i);
  }

  lemma BytesOutAreSums(k: Kind<GwRec, GwOp>, start: Table<GwRec>, ops: seq<GwOp>, i: nat)
    requires k == GATEWAYS && Sized(start) && Shaped(start.names) && Named(k, ops) && i < |start.names|
    ensures var t := Replay(k, start, ops);
      t.recs[i].bytesOut == Wrap(start.recs[i].bytesOut + Sum(OutOf, Mine(k, t.names, i, ops)))
  {
    hide Replay, Mine, Sum, Named, Shaped;
    assert Counts(k, OutField, OutOf) by { GatewayFieldsCount(); }
    CounterOfSlot(k, OutField, OutOf, start, ops, i);
  }

  lemma FailuresAreSums(k: Kind<HostRec, HostOp>, start: Table<HostRec>, ops: seq<HostOp>, i: nat)
    requires k == HOSTS && Sized(start) && Shaped(start.names) && Named(k, ops) && i < |start.names|
    ensures var t := Replay(k, start, ops);
      t.recs[i].totFail == Wrap(start.recs[i].totFail + Sum(FailuresOf, Mine(k, t.names, i, ops)))
  {
    hide Replay, Mine, Sum, Named, Shaped;
    assert Counts(k, FailuresField, FailuresOf) by { HostFieldsCount(); }
    CounterOfSlot(k, FailuresField, FailuresOf, start, ops, i);
  }

  lemma CheckinsAreSums(k: Kind<HostRec, HostOp>, start: Table<HostRec>, ops: seq<HostOp>, i: nat)
    requires k == HOSTS && Sized(start) && Shaped(start.names) && Named(k, ops) && i < |start.names|
    ensures var t := Replay(k, start, ops);
      t.recs[i].ciCount == Wrap(start.recs[i].ciCount + Sum(CheckinsOf, Mine(k, t.names, i, ops)))
  {
    hide Replay, Mine, Sum, Named, Shaped;
    assert Counts(k, CheckinsField, CheckinsOf) by { HostFieldsCount(); }
    CounterOfSlot(k, CheckinsField, CheckinsOf, start, ops, i);
  }

  /** The current failures of a host are the errors since its last check-in. */
  lemma CurrentFailuresAreSums(k: Kind<HostRec, HostOp>, start: Table<HostRec>, ops: seq<HostOp>, i: nat)
    requires k == HOSTS && Sized(start) && Shaped(start.names) && Named(k, ops) && i < |start.names|
    requires start.recs[i].curFail == 0
    ensures var t := Replay(k, start, ops);
      t.recs[i].curFail == Wrap(Sum(FailuresOf, SinceCheckin(Mine(k, t.names, i, ops))))
  {
    RecordIsItsOperations(k, start, ops, i);
    CurrentFailures(start.recs[i], Mine(k, Replay(k, start, ops).names, i, ops));
  }

  /** ... and never exceed its failures in all while no counter has wrapped. */
  lemma CurrentWithinTotal(k: Kind<HostRec, HostOp>, start: Table<HostRec>, ops: seq<HostOp>, i: nat)
    requires k == HOSTS && Sized(start) && Shaped(start.names) && Named(k, ops) && i < |start.names|
    requires start.recs[i].curFail == 0
    requires start.recs[i].totFail + Sum(FailuresOf, Mine(k, Replay(k, start, ops).names, i, ops)) < TWO64
    ensures var t := Replay(k, start, ops);
      t.recs[i].curFail <= t.recs[i].totFail
  {
    hide Replay, Mine, Sum, Named, Shaped, SinceCheckin;
    CurrentFailuresAreSums(k, start, ops, i);
    FailuresAreSums(k, start, ops, i);
    SinceCheckinIsLess(Mine(k, Replay(k, start, ops).names, i, ops));
  }

  // ----- What is shown -----

  /** The first n characters of a text, or all of it. */
  function Front(s: string, n: nat): string { if |s| <= n then s else s[..n] }

  // The fields that operations set, and what they set them to.

  function ClientOf(r: GwRec): string { r.client }
  function CmsOf(r: GwRec): string { r.cms }
  function StateOf(r: GwRec): int { r.state }
  function PidOf(r: GwRec): int { r.pid }

  function ClientSet(op: GwOp): Option<string> { if op.SetUser? then Some(Front(op.user, 9)) else None }
  function CmsSet(op: GwOp): Option<string> { if op.SetCms? then Some(Front(op.cms, 64)) else None }
  function StateSet(op: GwOp): Option<int> { if op.SetState? then Some(op.state) else None }
  function PidSet(op: GwOp): Option<int> { if op.SetPid? then Some(op.pid) else None }

  function UpdatesOf(r: HostRec): int { r.updates }
  function ErrorsOf(r: HostRec): int { r.errors }
  function LastCheckin(r: HostRec): int { r.lastCi }
  function LastFailure(r: HostRec): int { r.lastFailure }

  function UpdatesSet(op: HostOp): Option<int> {
    if op.Channels? then Some(op.updates % 0x1_0000_0000) else None
  }

  function ErrorsSet(op: HostOp): Option<int> {
    if op.Channels? then Some(op.errors % 0x1_0000_0000) else None
  }

  function CheckinSet(op: HostOp): Option<int> { if op.CheckedIn? then Some(op.time) else None }
  function FailureSet(op: HostOp): Option<int> { if op.Failed? then Some(op.time) else None }

  lemma GatewayFieldsAreSet()
    ensures Sets(GATEWAYS, ClientOf, ClientSet) && Sets(GATEWAYS, CmsOf, CmsSet)
    ensures Sets(GATEWAYS, StateOf, StateSet) && Sets(GATEWAYS, PidOf, PidSet)
  {
    forall r: GwRec, op
      ensures ClientOf(GwUpdate(r, op)) == if ClientSet(op).Some? then ClientSet(op).value else ClientOf(r)
      ensures CmsOf(GwUpdate(r, op)) == if CmsSet(op).Some? then CmsSet(op).value else CmsOf(r)
    {
      if op.SetUser? {
        FrontIsKey(op.user, 9);
      }
      if op.SetCms? {
        FrontIsKey(op.cms, 64);
      }
    }
  }

  lemma FrontIsKey(s: CString, n: nat)
    ensures Key(s, n) == Front(s, n)
  {
  }

  lemma HostFieldsAreSet()
    ensures Sets(HOSTS, UpdatesOf, UpdatesSet) && Sets(HOSTS, ErrorsOf, ErrorsSet)
    ensures Sets(HOSTS, LastCheckin, CheckinSet) && Sets(HOSTS, LastFailure, FailureSet)
  {
  }

  /** A slot shows the client, host, state and process that were set last for it. */
  lemma GatewayShows(k: Kind<GwRec, GwOp>, start: Table<GwRec>, ops: seq<GwOp>, i: nat)
    requires k == GATEWAYS && Sized(start) && Shaped(start.names) && Named(k, ops) && i < |start.names|
    ensures
      var t := Replay(k, start, ops);
      var mine, r := Mine(k, t.names, i, ops), start.recs[i];
      && t.recs[i].client == Last(ClientSet, mine, r.client) && t.recs[i].cms == Last(CmsSet, mine, r.cms)
      && t.recs[i].state == Last(StateSet, mine, r.state) && t.recs[i].pid == Last(PidSet, mine, r.pid)
  {
    hide Replay, Mine, Last, Named, Shaped, Sets;
    assert Sets(k, ClientOf, ClientSet) && Sets(k, CmsOf, CmsSet) by { GatewayFieldsAreSet(); }
    assert Sets(k, StateOf, StateSet) && Sets(k, PidOf, PidSet) by { GatewayFieldsAreSet(); }
    SetInSlot(k, ClientOf, ClientSet, start, ops, i);
    SetInSlot(k, CmsOf, CmsSet, start, ops, i);
    SetInSlot(k, StateOf, StateSet, start, ops, i);
    SetInSlot(k, PidOf, PidSet, start, ops, i);
  }

  /** A host shows the channel counts of its last run, and the times of its last check-in and failure. */
  lemma HostShows(k: Kind<HostRec, HostOp>, start: Table<HostRec>, ops: seq<HostOp>, i: nat)
    requires k == HOSTS && Sized(start) && Shaped(start.names) && Named(k, ops) && i < |start.names|
    ensures
      var t := Replay(k, start, ops);
      var mine, r := Mine(k, t.names, i, ops), start.recs[i];
      && t.recs[i].updates == Last(UpdatesSet, mine, r.updates) && t.recs[i].errors == Last(ErrorsSet, mine, r.errors)
      && t.recs[i].lastCi == Last(CheckinSet, mine, r.lastCi)
      && t.recs[i].lastFailure == Last(FailureSet, mine, r.lastFailure)
  {
    hide Replay, Mine, Last, Named, Shaped, Sets;
    assert Sets(k, UpdatesOf, UpdatesSet) && Sets(k, ErrorsOf, ErrorsSet) by { HostFieldsAreSet(); }
    assert Sets(k, LastCheckin, CheckinSet) && Sets(k, LastFailure, FailureSet) by { HostFieldsAreSet(); }
    SetInSlot(k, UpdatesOf, UpdatesSet, start, ops, i);
    SetInSlot(k, ErrorsOf, ErrorsSet, start, ops, i);
    SetInSlot(k, LastCheckin, CheckinSet, start, ops, i);
    SetInSlot(k, LastFailure, FailureSet, start, ops, i);
  }

  /** Ten slots for either kind; the first name looked up is stored up to its ninth or sixty-fourth character. */
  lemma FirstLookup(call: CString, host: CString)
    requires call != "" && host != ""
    ensures
      var g, h := Apply(GATEWAYS, Fresh(NEW_GATEWAY), Connected(call)), Apply(HOSTS, Fresh(NEW_HOST), LookedUp(host));
      && |g.names| == |h.names| == 10 && g.names[0] == Front(call, 9) && h.names[0] == Front(host, 64)
      && g.recs[0].connects == 1 && g.recs[0].pid == -1
      && forall i :: 1 <= i < 10 ==> g.names[i] == h.names[i] == ""
  {
    FrontIsKey(call, 9);
    FrontIsKey(host, 64);
    FindIs(Fresh(NEW_GATEWAY).names, call, 9, 0);
    FindIs(Fresh(NEW_HOST).names, host, 64, 0);
  }

  // ----- Conservation over the table -----

  /** A counter, added up over records. */
  function FieldTotal<R>(field: R -> Word64, recs: seq<R>): nat {
    if recs == [] then 0 else FieldTotal(field, recs[..|recs| - 1]) + field(recs[|recs| - 1])
  }

  lemma FieldTotalMore<R>(field: R -> Word64, recs: seq<R>, n: nat)
    requires n < |recs|
    ensures FieldTotal(field, recs[..n + 1]) == FieldTotal(field, recs[..n]) + field(recs[n])
  {
    assert recs[..n + 1][..n] == recs[..n];
  }

  lemma WrapBoth(x: int, a: int, y: int, b: int)
    requires Wrap(x) == Wrap(y)
    ensures Wrap(x + Wrap(a + b)) == Wrap(y + a + b)
  {
    WrapSum(x, Wrap(a + b));
    WrapSum(y, Wrap(a + b));
    WrapSum(a + b, y);
  }

  /** The first n records hold what they held at the start and the shares of their slots. */
  lemma {:induction false} TotalsSoFar<R(!new), O(!new)>(k: Kind<R, O>, field: R -> Word64, weight: O -> int,
                                                        start: Table<R>, ops: seq<O>, t: Table<R>, n: nat)
    requires Counts(k, field, weight) && n <= |start.names|
    requires Sized(start) && Shaped(start.names) && Named(k, ops) && k.cap > 0 && t == Replay(k, start, ops)
    ensures Wrap(FieldTotal(field, t.recs[..n]) + Sum(weight, Mine(k, t.names, -1, ops))) ==
            Wrap(FieldTotal(field, start.recs[..n]) + Total(Shares(k, t.names, weight, ops), n))
  {
    hide Replay, Mine, Sum, Counts, Named, Shaped, FieldTotal;
    var f := Shares(k, t.names, weight, ops);
    if n == 0 {
      assert t.recs[..0] == start.recs[..0] == [];
    } else {
      var i := n - 1;
      var refused := Sum(weight, Mine(k, t.names, -1, ops));
      TotalsSoFar(k, field, weight, start, ops, t, i);
      CounterOfSlot(k, field, weight, start, ops, i);
      FieldTotalMore(field, t.recs, i);
      FieldTotalMore(field, start.recs, i);
      WrapBoth(FieldTotal(field, t.recs[..i]) + refused, field(start.recs[i]),
               FieldTotal(field, start.recs[..i]) + Total(f, i), f(i));
    }
  }

  /** A counter over the whole table and the operations that were refused: nothing is lost or counted twice. */
  lemma TotalsAddUp<R(!new), O(!new)>(k: Kind<R, O>, field: R -> Word64, weight: O -> int,
                                     start: Table<R>, ops: seq<O>)
    requires Counts(k, field, weight)
    requires Sized(start) && Shaped(start.names) && Named(k, ops) && k.cap > 0
    ensures var t := Replay(k, start, ops);
      Wrap(FieldTotal(field, t.recs) + Sum(weight, Mine(k, t.names, -1, ops))) ==
      Wrap(FieldTotal(field, start.recs) + Sum(weight, ops))
  {
    hide Replay, Mine, Sum, Counts, Named, Shaped, FieldTotal;
    var t, n := Replay(k, start, ops), |start.names|;
    TotalsSoFar(k, field, weight, start, ops, t, n);
    SharesAreTheWhole(k, t.names, weight, ops);
    assert t.recs[..n] == t.recs && start.recs[..n] == start.recs;
  }

  /** The connections in all slots and the refused ones are all the connections there were. */
  lemma ConnectionsAddUp(k: Kind<GwRec, GwOp>, start: Table<GwRec>, ops: seq<GwOp>)
    requires k == GATEWAYS && Sized(start) && Shaped(start.names) && Named(k, ops)
    ensures var t := Replay(k, start, ops);
      (FieldTotal(ConnectsField, t.recs) + Sum(ConnectsOf, Mine(k, t.names, -1, ops))) % 0x1_0000_0000_0000_0000 ==
      (FieldTotal(ConnectsField, start.recs) + Sum(ConnectsOf, ops)) % 0x1_0000_0000_0000_0000
  {
    hide Replay, Mine, Sum, Named, Shaped, FieldTotal;
    assert Counts(k, ConnectsField, ConnectsOf) by { GatewayFieldsCount(); }
    TotalsAddUp(k, ConnectsField, ConnectsOf, start, ops);
  }

  /** So are the bytes, in either direction. */
  lemma BytesAddUp(k: Kind<GwRec, GwOp>, start: Table<GwRec>, ops: seq<GwOp>)
    requires k == GATEWAYS && Sized(start) && Shaped(start.names) && Named(k, ops)
    ensures var t := Replay(k, start, ops);
      && (FieldTotal(InField, t.recs) + Sum(InOf, Mine(k, t.names, -1, ops))) % 0x1_0000_0000_0000_0000 ==
         (FieldTotal(InField, start.recs) + Sum(InOf, ops)) % 0x1_0000_0000_0000_0000
      && (FieldTotal(OutField, t.recs) + Sum(OutOf, Mine(k, t.names, -1, ops))) % 0x1_0000_0000_0000_0000 ==
         (FieldTotal(OutField, start.recs) + Sum(OutOf, ops)) % 0x1_0000_0000_0000_0000
  {
    hide Replay, Mine, Sum, Named, Shaped, FieldTotal;
    assert Counts(k, InField, InOf) && Counts(k, OutField, OutOf) by { GatewayFieldsCount(); }
    TotalsAddUp(k, InField, InOf, start, ops);
    TotalsAddUp(k, OutField, OutOf, start, ops);
  }

  /** aci_hostidx after a lookup: the slot that was found, if there is one. */
  function Pointed(t: Table<HostRec>, idx: int, host: CString): int {
    var i := Slot(t.names, host, MAXHOSTNAME);
    if i == -1 then idx else i
  }

  function HostIndex(t: Table<HostRec>, ops: seq<HostOp>): int
    requires Sized(t)
  {
    if ops == [] then -1
    else
      var n := |ops| - 1;
      Pointed(Replay(HOSTS, t, ops[..n]), HostIndex(t, ops[..n]), ops[n].host)
  }

  lemma {:induction false} HostIndexIsOccupied(ops: seq<HostOp>)
    requires Named(HOSTS, ops)
    ensures
      var names, i := Replay(HOSTS, Fresh(NEW_HOST), ops).names, HostIndex(Fresh(NEW_HOST), ops);
      i == -1 || (0 <= i < TABLE_SIZE && names[i] != "")
  {
    if ops != [] {
      var n := |ops| - 1;
      var names := Replay(HOSTS, Fresh(NEW_HOST), ops[..n]).names;
      HostIndexIsOccupied(ops[..n]);
      AllKnown(HOSTS, Fresh(NEW_HOST), ops[..n]);
      ClaimKeepsShape(names, ops[n].host, MAXHOSTNAME);
      if Slot(names, ops[n].host, MAXHOSTNAME) != -1 {
        ClaimSettles(names, ops[n].host, MAXHOSTNAME);
      }
    }
  }

  // ----- The block -----

  lemma FindIs(names: Names, query: CString, cap: nat, i: nat)
    requires i <= |names|
    requires i < |names| ==> Offers(names, query, cap, i)
    requires forall j :: 0 <= j < i ==> !Offers(names, query, cap, j)
    ensures Find(names, query, cap) == i
  {
  }

  class RmsStatus {
    const gwCall: array<CString>
    const gw: array<GwRec>
    const aciHost: array<CString>
    const aci: array<HostRec>
    var hostIdx: int

    predicate Valid()
      reads this
    {
      && gwCall.Length == gw.Length == aciHost.Length == aci.Length == TABLE_SIZE
      && gwCall != aciHost
    }

    function Gateways(): (t: Table<GwRec>)
      requires Valid()
      reads this, gwCall, gw
      ensures Sized(t)
    {
      Table(gwCall[..], gw[..])
    }

    function Hosts(): (t: Table<HostRec>)
      requires Valid()
      reads this, aciHost, aci
      ensures Sized(t)
    {
      Table(aciHost[..], aci[..])
    }

    constructor ()
      ensures Valid() && fresh(gwCall) && fresh(gw) && fresh(aciHost) && fresh(aci)
      ensures Gateways() == Fresh(NEW_GATEWAY) && Hosts() == Fresh(NEW_HOST) && hostIdx == -1
    {
      gwCall := new CString[TABLE_SIZE](_ => "");
      gw := new GwRec[TABLE_SIZE](_ => NEW_GATEWAY);
      aciHost := new CString[TABLE_SIZE](_ => "");
      aci := new HostRec[TABLE_SIZE](_ => NEW_HOST);
      hostIdx := -1;
      new;
      assert gwCall[..] == Fresh(NEW_GATEWAY).names && gw[..] == Fresh(NEW_GATEWAY).recs;
      assert aciHost[..] == Fresh(NEW_HOST).names && aci[..] == Fresh(NEW_HOST).recs;
    }

    method GetCmsSlot(host: CString) returns (slot: int)
      requires Valid() && |host| < MAXHOSTNAME
      modifies aciHost, this`hostIdx
      ensures slot == Slot(old(aciHost[..]), host, MAXHOSTNAME)
      ensures aciHost[..] == Claim(old(aciHost[..]), host, MAXHOSTNAME)
      ensures Hosts() == Apply(HOSTS, old(Hosts()), LookedUp(host))
      ensures hostIdx == if slot == -1 then old(hostIdx) else slot
    {
      ghost var names := aciHost[..];
      var i := 0;
      while i < aciHost.Length
        invariant 0 <= i <= aciHost.Length && aciHost[..] == names && hostIdx == old(hostIdx)
        invariant forall j :: 0 <= j < i ==> !Offers(names, host, MAXHOSTNAME, j)
      {
        if |aciHost[i]| <= 0 {
          FindIs(names, host, MAXHOSTNAME, i);
          aciHost[i] := Key(host, MAXHOSTNAME);
          break;
        }
        if Matches(host, MAXHOSTNAME, aciHost[i]) {
          break;
        }
        i := i + 1;
      }
      FindIs(names, host, MAXHOSTNAME, i);
      if i >= aciHost.Length {
        return -1;
      }
      hostIdx := i;
      return i;
    }

    method GetGwSlot(call: CString) returns (slot: int)
      requires Valid()
      modifies gwCall
      ensures slot == Slot(old(gwCall[..]), call, MAXCALL)
      ensures gwCall[..] == Claim(old(gwCall[..]), call, MAXCALL)
    {
      ghost var names := gwCall[..];
      var i := 0;
      while i < gwCall.Length
        invariant 0 <= i <= gwCall.Length && gwCall[..] == names
        invariant forall j :: 0 <= j < i ==> !Offers(names, call, MAXCALL, j)
      {
        if |gwCall[i]| <= 0 {
          FindIs(names, call, MAXCALL, i);
          gwCall[i] := Key(call, MAXCALL);
          break;
        }
        if Matches(call, MAXCALL, gwCall[i]) {
          break;
        }
        i := i + 1;
      }
      FindIs(names, call, MAXCALL, i);
      return if i >= gwCall.Length then -1 else i;
    }

    method IncrAciError(host: CString, now: int)
      requires Valid() && |host| < MAXHOSTNAME
      modifies aciHost, aci, this`hostIdx
      ensures Hosts() == Apply(HOSTS, old(Hosts()), Failed(host, now))
      ensures hostIdx == Pointed(old(Hosts()), old(hostIdx), host)
    {
      var i := GetCmsSlot(host);
      if i < 0 {
        return;
      }
      aci[i] := aci[i].(lastFailure := now, totFail := Wrap(aci[i].totFail + 1), curFail := Wrap(aci[i].curFail + 1));
    }

    method IncrAciCheckin(host: CString, now: int)
      requires Valid() && |host| < MAXHOSTNAME
      modifies aciHost, aci, this`hostIdx
      ensures Hosts() == Apply(HOSTS, old(Hosts()), CheckedIn(host, now))
      ensures hostIdx == Pointed(old(Hosts()), old(hostIdx), host)
    {
      var i := GetCmsSlot(host);
      if i < 0 {
        return;
      }
      aci[i] := aci[i].(lastCi := now, ciCount := Wrap(aci[i].ciCount + 1), curFail := 0);
    }

    method SetChannelStats(host: CString, updates: int, errors: int)
      requires Valid() && |host| < MAXHOSTNAME
      modifies aciHost, aci, this`hostIdx
      ensures Hosts() == Apply(HOSTS, old(Hosts()), Channels(host, updates, errors))
      ensures hostIdx == Pointed(old(Hosts()), old(hostIdx), host)
    {
      var i := GetCmsSlot(host);
      if i < 0 {
        return;
      }
      aci[i] := aci[i].(updates := updates % TWO32, errors := errors % TWO32);
    }

    method SetGwState(state: int, call: CString)
      requires Valid()
      modifies gwCall, gw
      ensures Gateways() == Apply(GATEWAYS, old(Gateways()), SetState(call, state))
    {
      var i := GetGwSlot(call);
      if i < 0 {
        return;
      }
      gw[i] := gw[i].(state := state);
    }

    method SetGwPid(call: CString, pid: int)
      requires Valid()
      modifies gwCall, gw
      ensures Gateways() == Apply(GATEWAYS, old(Gateways()), SetPid(call, pid))
    {
      var i := GetGwSlot(call);
      if i < 0 {
        return;
      }
      gw[i] := gw[i].(pid := pid);
    }

    method SetGwUsercall(call: CString, user: CString)
      requires Valid()
      modifies gwCall, gw
      ensures Gateways() == Apply(GATEWAYS, old(Gateways()), SetUser(call, user))
    {
      var i := GetGwSlot(call);
      if i < 0 {
        return;
      }
      gw[i] := gw[i].(client := Key(user, MAXCALL));
    }

    method SetGwCms(call: CString, cms: CString)
      requires Valid() && |cms| < MAXHOSTNAME
      modifies gwCall, gw
      ensures Gateways() == Apply(GATEWAYS, old(Gateways()), SetCms(call, cms))
    {
      var i := GetGwSlot(call);
      if i < 0 {
        return;
      }
      gw[i] := gw[i].(cms := Key(cms, MAXHOSTNAME));
    }

    method IncrGwConnects(call: CString)
      requires Valid()
      modifies gwCall, gw
      ensures Gateways() == Apply(GATEWAYS, old(Gateways()), Connected(call))
    {
      var i := GetGwSlot(call);
      if i < 0 {
        return;
      }
      gw[i] := gw[i].(connects := Wrap(gw[i].connects + 1));
    }

    method AddGwBytesIn(call: CString, count: int)
      requires Valid()
      modifies gwCall, gw
      ensures Gateways() == Apply(GATEWAYS, old(Gateways()), BytesIn(call, count))
    {
      var i := GetGwSlot(call);
      if i < 0 {
        return;
      }
      gw[i] := gw[i].(bytesIn := Wrap(gw[i].bytesIn + count));
    }

    method AddGwBytesOut(call: CString, count: int)
      requires Valid()
      modifies gwCall, gw
      ensures Gateways() == Apply(GATEWAYS, old(Gateways()), BytesOut(call, count))
    {
      var i := GetGwSlot(call);
      if i < 0 {
        return;
      }
      gw[i] := gw[i].(bytesOut := Wrap(gw[i].bytesOut + count));
    }
  }
}
