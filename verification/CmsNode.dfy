/** The linked list of hosts: sorted insertion in place, and the loop that builds the list from the host file. */
module CmsNode {
  import opened Text
  import opened CmsList
  import opened HostLines
  import opened GetCms

  class Node {
    const host: CString
    const port: int
    const passwd: CString
    const time: int
    var next: Node?
    /** The place of the entry in the host file. */
    ghost const line: nat

    constructor (e: Entry, time: int, ghost line: nat)
      ensures host == e.host && port == e.port && passwd == e.passwd
      ensures this.time == time && this.line == line && next == null
    {
      host, port, passwd := e.host, e.port, e.passwd;
      this.time, this.line, next := time, line, null;
    }

    ghost function View(): Item {
      Item(Entry(host, port, passwd), time, line)
    }
  }

  ghost function Next(nodes: seq<Node>, i: nat): Node? {
    if i + 1 < |nodes| then nodes[i + 1] else null
  }

  /** The nodes from head on, in order. */
  ghost predicate IsList(head: Node?, nodes: seq<Node>)
    reads nodes
  {
    && head == (if nodes == [] then null else nodes[0])
    && (forall i :: 0 <= i < |nodes| ==> nodes[i].next == Next(nodes, i))
    && (forall i, j :: 0 <= i < j < |nodes| ==> nodes[i] != nodes[j])
  }

  ghost function Views(nodes: seq<Node>): (items: seq<Item>)
    ensures |items| == |nodes|
  {
    seq(|nodes|, (i: nat) requires i < |nodes| => nodes[i].View())
  }

  ghost function NodeAt(nodes: seq<Node>, i: nat): Node? {
    if i < |nodes| then nodes[i] else null
  }

  lemma Starts(head: Node?, nodes: seq<Node>)
    requires IsList(head, nodes)
    ensures head == NodeAt(nodes, 0)
  {
  }

  /** A walk along the list meets the nodes one by one. */
  lemma Walk(head: Node?, nodes: seq<Node>, i: nat)
    requires IsList(head, nodes) && i < |nodes|
    ensures nodes[i].next == NodeAt(nodes, i + 1)
    ensures Views(nodes)[i] == nodes[i].View()
  {
    assert nodes[i].next == Next(nodes, i);
  }

  lemma PlaceIs(items: seq<Item>, t: int, p: nat)
    requires p <= |items| && (forall i :: 0 <= i < p ==> items[i].time <= t) && (p < |items| ==> items[p].time > t)
    ensures Place(items, t) == p
  {
  }

  /** The walk: q is the last node that is not later, or null. */
  method InsertionPoint(clist: Node?, stime: int, ghost nodes: seq<Node>) returns (q: Node?, ghost place: nat)
    requires IsList(clist, nodes)
    ensures place == Place(Views(nodes), stime)
    ensures q == if Place(Views(nodes), stime) == 0 then null else nodes[Place(Views(nodes), stime) - 1]
  {
    var p := clist;
    q, place := null, 0;
    while p != null && stime >= p.time
      invariant 0 <= place <= |nodes| && p == (if place < |nodes| then nodes[place] else null)
      invariant q == (if place == 0 then null else nodes[place - 1])
      invariant forall j :: 0 <= j < place ==> nodes[j].time <= stime
      decreases |nodes| - place
    {
      assert nodes[place].next == Next(nodes, place);
      q := p;
      p := p.next;
      place := place + 1;
    }
    PlaceIs(Views(nodes), stime, place);
  }

  /** The nodes with another one at place i. */
  ghost function With(nodes: seq<Node>, t: Node, i: nat): (all: seq<Node>)
    requires i <= |nodes|
    ensures |all| == |nodes| + 1
    ensures forall n :: n in all ==> n in nodes || n == t
  {
    nodes[..i] + [t] + nodes[i..]
  }

  lemma WithViews(nodes: seq<Node>, t: Node, i: nat)
    requires i <= |nodes|
    ensures Views(With(nodes, t, i)) == Views(nodes)[..i] + [t.View()] + Views(nodes)[i..]
  {
  }

  /** addcmsnode: the new node goes after the last node that is not later. */
  method AddCmsNode(clist: Node?, e: Entry, stime: int, ghost line: nat, ghost nodes: seq<Node>)
    returns (head: Node?, ghost all: seq<Node>)
    requires IsList(clist, nodes)
    modifies nodes
    ensures IsList(head, all) && Views(all) == Insert(Views(nodes), Item(e, stime, line))
    ensures forall i :: 0 <= i < |all| ==> all[i] in nodes || fresh(all[i])
  {
    var t := new Node(e, stime, line);
    ghost var i;
    var q;
    q, i := InsertionPoint(clist, stime, nodes);
    all := With(nodes, t, i);
    WithViews(nodes, t, i);
    Link(clist, t, q, nodes, i);
    head := if q == null then t else clist;
  }

  /** The new node is linked in, at the head or after q. */
  method Link(clist: Node?, t: Node, q: Node?, ghost nodes: seq<Node>, ghost i: nat)
    requires IsList(clist, nodes) && t !in nodes && i <= |nodes|
    requires q == (if i == 0 then null else nodes[i - 1])
    modifies nodes, t
    ensures IsList(if q == null then t else clist, With(nodes, t, i))
  {
    ghost var all := With(nodes, t, i);
    if q == null {
      t.next := clist;
    } else {
      t.next := q.next;
      q.next := t;
    }
    hide With;
    forall j | 0 <= j < |all|
      ensures all[j].next == Next(all, j)
    {
      var at := if j < i then j else j - 1;
      WithAt(nodes, t, i, j);
      if j + 1 < |all| {
        WithAt(nodes, t, i, j + 1);
      }
      assert j != i ==> old(nodes[at].next) == Next(nodes, at);
    }
    forall j, k | 0 <= j < k < |all|
      ensures all[j] != all[k]
    {
      WithAt(nodes, t, i, j);
      WithAt(nodes, t, i, k);
    }
    WithAt(nodes, t, i, 0);
  }

  lemma WithAt(nodes: seq<Node>, t: Node, i: nat, j: nat)
    requires i <= |nodes| && j <= |nodes|
    ensures With(nodes, t, i)[j] == if j < i then nodes[j] else if j == i then t else nodes[j - 1]
  {
  }

  /** One entry of the host file: skipped, or inserted at the time of its status file. */
  method Consider(clist: Node?, c: Entry, st: Stat, ghost line: nat, ghost nodes: seq<Node>)
    returns (head: Node?, ghost all: seq<Node>)
    requires IsList(clist, nodes)
    modifies nodes
    ensures IsList(head, all) && forall i :: 0 <= i < |all| ==> all[i] in nodes || fresh(all[i])
    ensures Views(all) ==
      if Acceptable(c) && st != Unreadable then Insert(Views(nodes), Item(c, TimeOf(st), line)) else Views(nodes)
  {
    head, all := clist, nodes;
    if |c.host| < 1 {
      return;
    }
    if c.port < 1024 || c.port > 65535 {
      return;
    }
    if |c.passwd| < 1 {
      return;
    }
    var atime;
    match st {
      case Absent => atime := 0;
      case At(t) => atime := t;
      case Unreadable => return;
    }
    head, all := AddCmsNode(clist, c, atime, line, nodes);
  }

  /** getcmslist: the entries of the host file that are kept, inserted one by one. */
  method GetCmsList(table: HostTable, files: Files) returns (cmslist: Node?, ghost nodes: seq<Node>)
    requires table.Valid() && WellFormed(table.input)
    modifies table, table.cbuf
    ensures IsList(cmslist, nodes) && Views(nodes) == Listed(old(EntriesOf(table.input)), files)
    ensures forall i :: 0 <= i < |nodes| ==> fresh(nodes[i])
  {
    hide Listed, IsList, Views, EntriesOf, WellFormed;
    ghost var entries := EntriesOf(table.input);
    cmslist, nodes := null, [];
    NoNodes();
    assert Listed(entries[..0], files) == [];
    var hostcnt := 0;
    var more := table.NextEnt();
    while more
      invariant 0 <= hostcnt <= |entries| && table.Valid() && WellFormed(table.input)
      invariant IsList(cmslist, nodes) && forall i :: 0 <= i < |nodes| ==> fresh(nodes[i])
      invariant Views(nodes) == Listed(entries[..hostcnt], files)
      invariant entries[hostcnt..] == (if more then [table.curent] else []) + EntriesOf(table.input)
      invariant !more ==> hostcnt == |entries|
      decreases |entries| - hostcnt, more
    {
      var c := table.curent;
      hostcnt := hostcnt + 1;
      assert entries[hostcnt..] == EntriesOf(table.input) && c == entries[hostcnt - 1];
      ListedMore(entries, files, hostcnt);
      cmslist, nodes := Consider(cmslist, c, files(c.host), hostcnt - 1, nodes);
      more := table.NextEnt();
    }
    assert entries[..hostcnt] == entries;
  }

  lemma NoNodes()
    ensures IsList(null, []) && Views([]) == []
    ensures forall entries: seq<Entry>, files :: entries == [] ==> Listed(entries, files) == []
  {
  }

  lemma ListedMore(entries: seq<Entry>, files: Files, n: nat)
    requires 0 < n <= |entries|
    ensures var before, e := Listed(entries[..n - 1], files), entries[n - 1];
      Listed(entries[..n], files) ==
      if Kept(files, e) then Insert(before, Item(e, TimeOf(files(e.host)), n - 1)) else before
  {
    var items := Selected(entries[..n - 1], files);
    var x := Item(entries[n - 1], TimeOf(files(entries[n - 1].host)), n - 1);
    assert entries[..n][..n - 1] == entries[..n - 1];
    assert (items + [x])[..|items|] == items && items + [] == items;
  }
}
