/** One run of the gateway: the hosts are tried in order, and the return codes of each session decide what happens. */
module HostTrial {
  import opened Text
  import CmsList
  import CmsNode
  import GetCms
  import HostLines
  import Word32
  import ReadLn
  import SglChallenge
  import opened LoginMachine
  import opened CmsLogin
  import opened RelayHistory
  import opened RelayCourse
  import opened AxWrite
  import opened Relay
  import opened SlotTable
  import opened StatBlock

  const ERR_GW_LOGIN: int := -1
  const ERR_GW_FATAL: int := -101
  const ERR_GW_SOCK: int := -101
  const ERR_GW_AX25: int := -102
  const ERR_SESS_CONNECT: int := -1
  const ERR_SESS_GWSKIP: int := -2
  const ERR_SESS_FATAL: int := -999

  type Secret = s: CString | |s| + 8 + 64 < Word32.TWO31 witness ""

  datatype Channel = Channel(callsign: CString, password: Secret)

  /** The configuration of a run: the port and the channel that was found for it. */
  datatype Config = Config(gwcall: CString, port: CString, channel: Option<Channel>, paclen: int)

  const DFLTPACLEN: nat := 128

  /** The packet length that was asked for, or the default if it makes no sense. */
  function PacketLength(paclen: int): (p: nat)
    ensures p > 0
  {
    if paclen < 1 then DFLTPACLEN else paclen
  }

  predicate Usable(cfg: Config) {
    cfg.port != "" && cfg.channel.Some? && cfg.channel.value.password != ""
  }

  /** What the system calls will give in a session with one host. */
  datatype Peer = Peer(connects: bool, input: ByteString, broken: bool, writes: nat -> int, sockOk: bool, ax25Ok: bool,
                       buffer: Buffer, selects: seq<Ready>, peeks: seq<Peek>, cmsReads: seq<Read>, axReads: seq<Read>,
                       axWrites: seq<WriteResult>, cmsWrites: seq<WriteResult>)

  /** What the relay is given of it. */
  function InputsOf(peer: Peer): Inputs {
    Inputs(peer.selects, peer.peeks, peer.cmsReads, peer.axReads, peer.axWrites, peer.cmsWrites)
  }

  type HostName = s: CString | |s| < MAXHOSTNAME witness ""

  datatype Host = Host(name: HostName, peer: Peer)

  /** What gateway returns, unless it never does. */
  datatype Ust = Ust(errcode: int, sent: nat, recv: nat) | Hanging

  // ----- What becomes of a host -----

  /** The login succeeds: the lines of the host contain a handshake. */
  ghost predicate LoggedIn(ch: Channel, usercall: CString, peer: Peer) {
    var a := Account(CallMessage(usercall, ch.callsign), peer.writes);
    var ls := Looks(ReadLn.Lines(peer.input, peer.broken, RBUF, '\r'), ch.password);
    exists p: nat, q: nat :: Handshake(ls, p, q) && Qualifies(a, ls, p, 0, 0)
  }

  /** The run goes on to the next host: there was no connection, or no login. */
  ghost predicate PassedOver(cfg: Config, usercall: CString, peer: Peer) {
    Usable(cfg) && !(peer.connects && LoggedIn(cfg.channel.value, usercall, peer))
  }

  /** The relay is started. */
  ghost predicate Reached(cfg: Config, usercall: CString, peer: Peer) {
    && Usable(cfg) && peer.connects && LoggedIn(cfg.channel.value, usercall, peer) && peer.sockOk && peer.ax25Ok
  }

  /** The operations on the status block for the hosts that are tried. */
  function Announced(call: CString, hosts: seq<Host>): (r: seq<GwOp>)
    ensures |r| == |hosts|
  {
    if hosts == [] then []
    else Announced(call, hosts[..|hosts| - 1]) + [SetCms(call, hosts[|hosts| - 1].name)]
  }

  function Credit(call: CString, u: Ust): seq<GwOp> {
    if u.Ust? && u.errcode >= 0 then [BytesOut(call, u.sent), BytesIn(call, u.recv)] else []
  }

  lemma RunMore(t: Table<GwRec>, ops: seq<GwOp>, op: GwOp)
    requires Sized(t)
    ensures Told(t, ops + [op]) == Apply(GATEWAYS, Told(t, ops), op)
  {
    assert (ops + [op])[..|ops|] == ops;
  }

  lemma Credited(t: Table<GwRec>, call: CString, u: Ust)
    requires Sized(t) && u.Ust? && u.errcode >= 0
    ensures Told(t, Credit(call, u)) ==
            Apply(GATEWAYS, Apply(GATEWAYS, t, BytesOut(call, u.sent)), BytesIn(call, u.recv))
  {
    hide Told, Apply;
    RunMore(t, [], BytesOut(call, u.sent));
    RunMore(t, [] + [BytesOut(call, u.sent)], BytesIn(call, u.recv));
    assert Credit(call, u) == [] + [BytesOut(call, u.sent)] + [BytesIn(call, u.recv)];
  }

  lemma NotCredited(t: Table<GwRec>, call: CString, u: Ust)
    requires Sized(t)
    ensures u.Hanging? || u.errcode < 0 ==> Told(t, Credit(call, u)) == t
  {
  }

  lemma AnnouncedMore(t: Table<GwRec>, call: CString, hosts: seq<Host>, i: nat)
    requires Sized(t) && i < |hosts|
    ensures Told(t, Announced(call, hosts[..i + 1])) ==
            Apply(GATEWAYS, Told(t, Announced(call, hosts[..i])), SetCms(call, hosts[i].name))
  {
    hide Told, Apply;
    assert hosts[..i + 1][..i] == hosts[..i];
    RunMore(t, Announced(call, hosts[..i]), SetCms(call, hosts[i].name));
  }

  /** The codes that can come out of the relay: success, or fatal to the run. */
  lemma RelayCodes(g: Gateway, flow: Flow)
    requires flow != Going && flow != Waiting && g.Outcome(flow)
    ensures ReturnCode(flow) >= 0 <==> flow.HungUp? || flow.Idle?
    ensures ReturnCode(flow) ==
      match flow
      case HungUp => 0
      case Idle(_) => if Closed(g.h) then 0 else 1
      case CmsFailed => -103
      case _ => -104
    ensures ReturnCode(flow) < 0 ==> ReturnCode(flow) <= -101
  {
  }

  /** A session that ends well credits what came from the CMS as bytes out, and what went to it as bytes in. */
  lemma CreditIs(call: CString, g: Gateway, flow: Flow)
    requires g.Outcome(flow)
    ensures Credit(call, Ended(g, flow)) ==
      if flow.HungUp? || flow.Idle? then
        [BytesOut(call, BytesFromCms(g.h) % 0x1_0000_0000_0000_0000),
         BytesIn(call, |ToCms(g.h)| % 0x1_0000_0000_0000_0000)]
      else []
  {
    if flow != Waiting {
      RelayCodes(g, flow);
    }
  }

  /** Each host that is tried is shown in turn. */
  lemma {:induction false} AnnouncedIs(call: CString, hosts: seq<Host>)
    ensures forall i :: 0 <= i < |hosts| ==> Announced(call, hosts)[i] == SetCms(call, hosts[i].name)
  {
    if hosts != [] {
      AnnouncedIs(call, hosts[..|hosts| - 1]);
    }
  }

  /** What the operations make of the gateway table. */
  function Told(t: Table<GwRec>, ops: seq<GwOp>): (r: Table<GwRec>)
    requires Sized(t)
    ensures Sized(r)
    ensures ops == [] ==> r == t
  {
    SlotTable.Replay(GATEWAYS, t, ops)
  }

  /**
    The first k hosts were tried: all but the last were passed over, and the list was exhausted exactly when the last
    one was too, or when there was none.
   */
  ghost predicate Verdict(cfg: Config, usercall: CString, hosts: seq<Host>, k: nat, exit: Option<int>) {
    && k <= |hosts|
    && (forall i :: 0 <= i < k - 1 ==> PassedOver(cfg, usercall, hosts[i].peer))
    && (if k == 0 || PassedOver(cfg, usercall, hosts[k - 1].peer) then k == |hosts| && exit == Some(1)
        else exit != Some(1))
  }

  /** So the number of tries is determined: it is that of the first host that is not passed over, or all. */
  lemma OneVerdict(cfg: Config, usercall: CString, hosts: seq<Host>, k: nat, exit: Option<int>,
                   j: nat, other: Option<int>)
    requires Verdict(cfg, usercall, hosts, k, exit) && Verdict(cfg, usercall, hosts, j, other)
    ensures k == j && (exit == Some(1) <==> other == Some(1))
  {
    hide PassedOver;
  }

  lemma StoppedHere(cfg: Config, usercall: CString, hosts: seq<Host>, k: nat)
    requires 0 < k <= |hosts| && !PassedOver(cfg, usercall, hosts[k - 1].peer)
    requires forall i :: 0 <= i < k - 1 ==> PassedOver(cfg, usercall, hosts[i].peer)
    ensures forall exit :: exit != Some(1) ==> Verdict(cfg, usercall, hosts, k, exit)
  {
    hide PassedOver;
  }

  lemma AllPassedOver(cfg: Config, usercall: CString, hosts: seq<Host>)
    requires forall i :: 0 <= i < |hosts| ==> PassedOver(cfg, usercall, hosts[i].peer)
    ensures Verdict(cfg, usercall, hosts, |hosts|, Some(1))
  {
    hide PassedOver;
  }

  /** What gateway returns when the relay ended this way. */
  ghost function Ended(g: Gateway, flow: Flow): Ust
    reads g
  {
    if flow == Going || flow == Waiting then Hanging else Ust(ReturnCode(flow), g.bytesSent, g.bytesRecv)
  }

  /** The hosts of a list, each with what its session will find. */
  predicate ShortNames(items: seq<CmsList.Item>) {
    forall x :: x in items ==> |x.entry.host| < MAXHOSTNAME
  }

  function HostsOf(items: seq<CmsList.Item>, peers: nat -> Peer): (hosts: seq<Host>)
    requires ShortNames(items)
    ensures |hosts| == |items|
    ensures forall i :: 0 <= i < |items| ==> hosts[i] == Host(items[i].entry.host, peers(i))
  {
    seq(|items|, (i: nat) requires i < |items| =>
      assert items[i] in items;
      Host(items[i].entry.host, peers(i)))
  }

  /** The times of the first k touches. */
  function Times(clock: nat -> int, k: nat): (ts: seq<int>)
    ensures |ts| == k
  {
    seq(k, (i: nat) => clock(i))
  }

  /** The status files after the first k hosts of the list were touched. */
  function Touched(files: CmsList.Files, items: seq<CmsList.Item>, clock: nat -> int, k: nat): CmsList.Files
    requires k <= |items|
  {
    CmsList.TouchAll(files, items[..k], Times(clock, k))
  }

  lemma TouchedMore(files: CmsList.Files, items: seq<CmsList.Item>, clock: nat -> int, k: nat)
    requires k < |items|
    ensures Touched(files, items, clock, k + 1) ==
            CmsList.Touch(Touched(files, items, clock, k), items[k].entry.host, clock(k))
  {
    assert items[..k + 1][..k] == items[..k] && Times(clock, k + 1)[..k] == Times(clock, k);
  }

  class Rmsgw {
    const cfg: Config
    const usercall: CString
    const status: RmsStatus
    /** The modification times of the status files. */
    var files: CmsList.Files
    /** The hosts with which the relay was started. */
    ghost var relayed: seq<Host>

    ghost predicate Valid()
      reads this, status
    {
      status.Valid()
    }

    constructor (cfg: Config, usercall: CString, status: RmsStatus, files: CmsList.Files)
      requires status.Valid()
      ensures Valid() && this.cfg == cfg && this.usercall == usercall && this.status == status
      ensures this.files == files && relayed == []
    {
      this.cfg, this.usercall, this.status, this.files := cfg, usercall, status, files;
      relayed := [];
    }

    /** The relay has taken its course on what the peer's system calls gave, and this is its result. */
    ghost predicate Conversed(g: Gateway, flow: Flow, peer: Peer, u: Ust)
      reads g
    {
      && g.paclen == (if cfg.paclen >= 1 then cfg.paclen else 128)
      && End(flow, g.h, g.Now()) == Course(peer.buffer, g.paclen, Selecting, [], InputsOf(peer))
      && g.Reasons(flow, InputsOf(peer)) && g.Attends(flow, InputsOf(peer))
      && flow != Going && g.Outcome(flow) && g.first == peer.buffer
      && g.cmsTaken + g.cmsReads == peer.cmsReads && g.axTaken + g.axReads == peer.axReads
      && u == Ended(g, flow)
    }

    method Login(peer: Peer, ch: Channel) returns (rc: int)
      ensures rc < 0 <==> !LoggedIn(ch, usercall, peer)
    {
      var reader := new ReadLn.Reader(peer.input, peer.broken);
      var line := new Connection(reader, peer.writes);
      rc := line.SglProcess(ch.password, usercall, ch.callsign);
    }

    /** gateway: login, non-blocking mode, relay. */
    method GatewayWith(host: Host, ch: Channel) returns (u: Ust, ghost g: Gateway?, ghost flow: Flow)
      requires Valid()
      modifies this`relayed
      ensures g == null <==> !(LoggedIn(ch, usercall, host.peer) && host.peer.sockOk && host.peer.ax25Ok)
      ensures g == null ==> relayed == old(relayed) && u.Ust?
      ensures g == null ==>
        u.errcode == (if !LoggedIn(ch, usercall, host.peer) then -1 else if !host.peer.sockOk then -101 else -102)
      ensures g != null ==> fresh(g) && relayed == old(relayed) + [host] && Conversed(g, flow, host.peer, u)
    {
      hide LoggedIn, Course, Gateway.Reasons, Gateway.Attends, Gateway.Outcome;
      var peer := host.peer;
      g, flow := null, Going;
      var rc := Login(peer, ch);
      if rc < 0 {
        u := Ust(ERR_GW_LOGIN, 0, 0);
        return;
      }
      if !peer.sockOk {
        u := Ust(ERR_GW_SOCK, 0, 0);
        return;
      }
      if !peer.ax25Ok {
        u := Ust(ERR_GW_AX25, 0, 0);
        return;
      }
      relayed := relayed + [host];
      u, g, flow := Relay(peer);
    }

    method Relay(peer: Peer) returns (u: Ust, ghost g: Gateway, ghost flow: Flow)
      requires Valid()
      ensures fresh(g) && Conversed(g, flow, peer, u)
    {
      hide Course, Gateway.Reasons, Gateway.Attends, Gateway.Outcome;
      var gateway := new Gateway(PacketLength(cfg.paclen), peer.buffer, peer.selects, peer.peeks, peer.cmsReads,
                                 peer.axReads, peer.axWrites, peer.cmsWrites);
      var ended := gateway.Run();
      u := if ended == Waiting then Hanging else Ust(ReturnCode(ended), gateway.bytesSent, gateway.bytesRecv);
      g, flow := gateway, ended;
    }

    /** cmsSession: the checks, the connection, the gateway, and what its code means. */
    method CmsSession(host: Host) returns (rc: Option<int>, ghost u: Ust, ghost g: Gateway?, ghost flow: Flow)
      requires Valid()
      modifies this`relayed, status.gwCall, status.gw
      ensures Valid()
      ensures status.Gateways() == Told(old(status.Gateways()), Credit(cfg.gwcall, u))
      ensures g == null <==> !Reached(cfg, usercall, host.peer)
      ensures g == null ==> relayed == old(relayed) && rc.Some? && Credit(cfg.gwcall, u) == []
      ensures g == null ==>
        rc.value == (if cfg.port == "" || cfg.channel.None? || cfg.channel.value.password == "" then -999
                     else if !host.peer.connects then -1
                     else if !LoggedIn(cfg.channel.value, usercall, host.peer) then -2 else -999)
      ensures g == null ==> rc.value < 0 && (rc.value == -999 <==> !PassedOver(cfg, usercall, host.peer))
      ensures g != null ==> fresh(g) && relayed == old(relayed) + [host] && Conversed(g, flow, host.peer, u)
      ensures g != null ==> u == Ended(g, flow)
      ensures g != null ==>
        rc == if flow == Waiting then None else if flow.HungUp? || flow.Idle? then Some(0) else Some(-999)
      ensures g != null ==> !PassedOver(cfg, usercall, host.peer)
    {
      hide LoggedIn, Course, Gateway.Reasons, Gateway.Attends, Gateway.Outcome, Told;
      g, flow, u := null, Going, Hanging;
      if |cfg.port| <= 0 {
        return Some(ERR_SESS_FATAL), u, g, flow;
      }
      if cfg.channel.None? {
        return Some(ERR_SESS_FATAL), u, g, flow;
      }
      if |cfg.channel.value.password| < 1 {
        return Some(ERR_SESS_FATAL), u, g, flow;
      }
      if !host.peer.connects {
        return Some(ERR_SESS_CONNECT), u, g, flow;
      }
      var ust: Ust;
      ust, g, flow := GatewayWith(host, cfg.channel.value);
      u := ust;
      if g != null && flow != Waiting {
        RelayCodes(g, flow);
      }
      rc := Judge(ust);
    }

    /** What the error code of the gateway means for the session; a success is credited to the gateway's slot. */
    method Judge(ust: Ust) returns (rc: Option<int>)
      requires Valid()
      modifies status.gwCall, status.gw
      ensures status.Gateways() == Told(old(status.Gateways()), Credit(cfg.gwcall, ust))
      ensures rc == if ust.Hanging? then None else if ust.errcode >= 0 then Some(0)
                    else if ust.errcode <= -101 then Some(-999) else Some(-2)
    {
      hide Told, Apply, Credit;
      ghost var t := status.Gateways();
      NotCredited(t, cfg.gwcall, ust);
      if ust.Hanging? {
        return None;
      }
      var code := 0;
      if ust.errcode >= 0 {
        status.AddGwBytesOut(cfg.gwcall, ust.sent);
        status.AddGwBytesIn(cfg.gwcall, ust.recv);
        Credited(t, cfg.gwcall, ust);
      } else if ust.errcode <= ERR_GW_FATAL {
        code := ERR_SESS_FATAL;
      } else {
        code := ERR_SESS_GWSKIP;
      }
      return Some(code);
    }

    /** The host goes into the status block and its status file is touched. */
    method ListHost(name: HostName, now: int, ghost hosts: seq<Host>, ghost i: nat, ghost t: Table<GwRec>)
      requires Valid() && i < |hosts| && Sized(t) && name == hosts[i].name
      requires status.Gateways() == Told(t, Announced(cfg.gwcall, hosts[..i]))
      modifies this`files, status.gwCall, status.gw
      ensures Valid() && files == CmsList.Touch(old(files), name, now)
      ensures status.Gateways() == Told(t, Announced(cfg.gwcall, hosts[..i + 1]))
    {
      hide Told, Announced;
      status.SetGwCms(cfg.gwcall, name);
      AnnouncedMore(t, cfg.gwcall, hosts, i);
      files := CmsList.Touch(files, name, now);
    }

    /** One try: the host is listed, and there is a session with it. */
    method TryHost(host: Host, now: int, ghost hosts: seq<Host>, ghost i: nat, ghost t: Table<GwRec>)
      returns (rc: Option<int>, ghost g: Gateway?, ghost flow: Flow)
      requires Valid() && i < |hosts| && Sized(t) && host == hosts[i]
      requires status.Gateways() == Told(t, Announced(cfg.gwcall, hosts[..i]))
      modifies this`files, this`relayed, status.gwCall, status.gw
      ensures Valid() && files == CmsList.Touch(old(files), host.name, now)
      ensures g == null ==> rc.Some? && rc.value < 0 && (rc.value == -999 <==> !PassedOver(cfg, usercall, host.peer))
      ensures g == null ==> relayed == old(relayed) && !Reached(cfg, usercall, host.peer)
      ensures g == null ==> status.Gateways() == Told(t, Announced(cfg.gwcall, hosts[..i + 1]))
      ensures g != null ==> fresh(g) && relayed == old(relayed) + [host] && !PassedOver(cfg, usercall, host.peer)
      ensures g != null ==>
        rc == if flow == Waiting then None else if flow.HungUp? || flow.Idle? then Some(0) else Some(-999)
      ensures g != null ==> Conversed(g, flow, host.peer, Ended(g, flow))
      ensures g != null ==>
        status.Gateways() == Told(Told(t, Announced(cfg.gwcall, hosts[..i + 1])), Credit(cfg.gwcall, Ended(g, flow)))
    {
      hide PassedOver, Reached, LoggedIn, Conversed, Told, Credit, Announced;
      ListHost(host.name, now, hosts, i, t);
      ghost var u;
      rc, u, g, flow := CmsSession(host);
      if g == null {
        NothingTold(Told(t, Announced(cfg.gwcall, hosts[..i + 1])));
      }
    }

    /**
      The host loop of main. k is the number of hosts that were tried; the exit code is 0 after a session, 1 when the
      list is exhausted and 99 when the run cannot go on.
     */
    method TryHosts(cmslist: CmsNode.Node?, peers: nat -> Peer, clock: nat -> int, ghost nodes: seq<CmsNode.Node>,
                    ghost items: seq<CmsList.Item>, ghost hosts: seq<Host>)
      returns (exit: Option<int>, ghost k: nat, ghost g: Gateway?, ghost flow: Flow)
      requires Valid() && CmsNode.IsList(cmslist, nodes) && items == CmsNode.Views(nodes)
      requires ShortNames(items) && hosts == HostsOf(items, peers)
      modifies this, status.gwCall, status.gw
      ensures Valid() && Verdict(cfg, usercall, hosts, k, exit)
      ensures files == Touched(old(files), items, clock, k)
      ensures g == null ==> exit == Some(1) || exit == Some(99)
      ensures g == null ==> relayed == old(relayed) && !(k > 0 && Reached(cfg, usercall, hosts[k - 1].peer))
      ensures g == null ==> status.Gateways() == Told(old(status.Gateways()), Announced(cfg.gwcall, hosts[..k]))
      ensures g != null ==> k > 0 && relayed == old(relayed) + [hosts[k - 1]]
      ensures g != null ==>
        exit == if flow == Waiting then None else if flow.HungUp? || flow.Idle? then Some(0) else Some(99)
      ensures g != null ==> Conversed(g, flow, hosts[k - 1].peer, Ended(g, flow))
      ensures g != null ==>
        status.Gateways() == Told(Told(old(status.Gateways()), Announced(cfg.gwcall, hosts[..k])),
                                  Credit(cfg.gwcall, Ended(g, flow)))
    {
      hide PassedOver, Reached, LoggedIn, Conversed, Verdict, Told, Credit, Announced, Touched;
      hide HostsOf, CmsNode.IsList, CmsNode.Views;
      exit, k, g, flow := Some(1), 0, null, Going;
      ghost var t := status.Gateways();
      var hostTries: nat, cmsp := 0, cmslist;
      NoneTouched(files, items, clock);
      CmsNode.Starts(cmslist, nodes);
      while cmsp != null
        invariant hostTries <= |hosts| && k == hostTries && Valid() && g == null && exit == Some(1)
        invariant CmsNode.IsList(cmslist, nodes) && cmsp == CmsNode.NodeAt(nodes, hostTries)
        invariant files == Touched(old(files), items, clock, hostTries) && relayed == old(relayed)
        invariant hostTries > 0 ==> !Reached(cfg, usercall, hosts[hostTries - 1].peer)
        invariant forall j :: 0 <= j < hostTries ==> PassedOver(cfg, usercall, hosts[j].peer)
        invariant status.Gateways() == Told(t, Announced(cfg.gwcall, hosts[..hostTries]))
        decreases |hosts| - hostTries
      {
        assert items[hostTries] in items;
        CmsNode.Walk(cmslist, nodes, hostTries);
        var host := Host(cmsp.host, peers(hostTries));
        TouchedMore(old(files), items, clock, hostTries);
        var rc;
        rc, g, flow := TryHost(host, clock(hostTries), hosts, hostTries, t);
        hostTries, k := hostTries + 1, hostTries + 1;
        if rc.None? || rc.value >= 0 || rc.value == ERR_SESS_FATAL {
          StoppedHere(cfg, usercall, hosts, k);
        }
        if rc.None? {
          exit := None;
          return;
        }
        if rc.value >= 0 {
          exit := Some(0);
          return;
        }
        if rc.value == ERR_SESS_FATAL {
          exit := Some(99);
          return;
        }
        CmsNode.Walk(cmslist, nodes, hostTries - 1);
        cmsp := cmsp.next;
      }
      AllPassedOver(cfg, usercall, hosts);
    }

    /**
      A run as a whole: the list is made from the host file and the status files, its hosts are tried, and with a clock
      that ticks between touches the next run will find them rotated by the number of tries.
     */
    method RunOnce(table: GetCms.HostTable, peers: nat -> Peer, clock: nat -> int,
                   ghost entries: seq<CmsList.Entry>, ghost l: seq<CmsList.Item>)
      returns (exit: Option<int>, ghost k: nat)
      requires Valid() && table.Valid() && HostLines.WellFormed(table.input)
      requires entries == HostLines.EntriesOf(table.input) && l == CmsList.Listed(entries, files) && ShortNames(l)
      modifies this, status.gwCall, status.gw, table, table.cbuf
      ensures Valid() && k <= |l| && (l != [] ==> k > 0) && Verdict(cfg, usercall, HostsOf(l, peers), k, exit)
      ensures old(relayed) <= relayed && |relayed| <= |old(relayed)| + 1
      ensures files == CmsList.After(entries, old(files), Times(clock, k))
      ensures (CmsList.DistinctHosts(l) || CmsList.Together(l, k)) && CmsList.Strict(l, Times(clock, k)) ==>
        CmsList.Entries(CmsList.Listed(entries, files)) == CmsList.Entries(l)[k..] + CmsList.Entries(l)[..k]
    {
      hide PassedOver, Reached, Conversed, Told, Credit, Announced, HostsOf, CmsNode.IsList, CmsNode.Views;
      hide CmsList.Listed, CmsList.DistinctHosts, CmsList.Together, CmsList.Strict, CmsList.Entries, CmsList.TouchAll;
      hide HostLines.WellFormed;
      var cmslist;
      ghost var nodes, g, flow;
      cmslist, nodes := CmsNode.GetCmsList(table, files);
      exit, k, g, flow := TryHosts(cmslist, peers, clock, nodes, l, HostsOf(l, peers));
      if CmsList.Strict(l, Times(clock, k)) {
        CmsList.LeastRecentlyTriedFirst(entries, old(files), Times(clock, k));
      }
    }
  }

  lemma NothingTold(t: Table<GwRec>)
    requires Sized(t)
    ensures Told(t, []) == t
  {
  }

  lemma NoneTouched(files: CmsList.Files, items: seq<CmsList.Item>, clock: nat -> int)
    ensures Touched(files, items, clock, 0) == files
  {
  }
}
