/** Symbol tables: a linked list in which the newest symbol comes first. */
module Symbols {
  import opened Text

  datatype Binding = Binding(name: CString, value: CString)

  type Bindings = seq<Binding>

  /** The place of the first symbol of that name, or the number of symbols. */
  function First(table: Bindings, name: CString): (i: nat)
    ensures i <= |table| && (i < |table| ==> table[i].name == name)
    ensures forall j :: 0 <= j < i ==> table[j].name != name
  {
    if table == [] || table[0].name == name then 0 else 1 + First(table[1..], name)
  }

  function Current(table: Bindings, name: CString): CString {
    var i := First(table, name);
    if i < |table| then table[i].value else ""
  }

  predicate Defined(table: Bindings, name: CString) {
    First(table, name) < |table|
  }

  lemma FirstIs(table: Bindings, name: CString, i: nat)
    requires i <= |table| && (i < |table| ==> table[i].name == name)
    requires forall j :: 0 <= j < i ==> table[j].name != name
    ensures First(table, name) == i
  {
  }

  /** A symbol that is added hides the older ones of its name, and no others. */
  lemma NewestWins(table: Bindings, b: Binding, name: CString)
    ensures Current([b] + table, name) == if name == b.name then b.value else Current(table, name)
    ensures Defined([b] + table, name) <==> name == b.name || Defined(table, name)
  {
    assert ([b] + table)[1..] == table;
  }

  /** The table after an assignment: the first symbol of the name gets the value, or a new one is put in front. */
  function Assigned(table: Bindings, name: CString, value: CString): Bindings {
    var i := First(table, name);
    if i < |table| then table[i := Binding(name, value)]
    else if name == "" then table
    else [Binding(name, value)] + table
  }

  /** An assignment changes the value of its name, and of no other; only the empty name cannot be given one. */
  lemma AssignedMeans(table: Bindings, name: CString, value: CString, other: CString)
    ensures Current(Assigned(table, name, value), other) ==
            if other == name && (name != "" || Defined(table, name)) then value else Current(table, other)
    ensures Defined(Assigned(table, name, value), other) <==> Defined(table, other) || (other == name && name != "")
  {
    var i, j := First(table, name), First(table, other);
    if i < |table| {
      FirstIs(table[i := Binding(name, value)], other, j);
    } else if name != "" {
      NewestWins(table, Binding(name, value), other);
    }
  }

  class Symbol {
    const name: CString
    var value: CString
    const next: Symbol?

    constructor (name: CString, value: CString, next: Symbol?)
      ensures this.name == name && this.value == value && this.next == next
    {
      this.name, this.value, this.next := name, value, next;
    }
  }

  ghost function Next(nodes: seq<Symbol>, i: nat): Symbol? {
    if i < |nodes| then nodes[i] else null
  }

  /** The symbols from the head of the table on, in order. */
  ghost predicate IsTable(symtab: Symbol?, nodes: seq<Symbol>) {
    && symtab == Next(nodes, 0)
    && (forall i :: 0 <= i < |nodes| ==> nodes[i].next == Next(nodes, i + 1))
    && (forall i, j :: 0 <= i < j < |nodes| ==> nodes[i] != nodes[j])
  }

  ghost function Contents(nodes: seq<Symbol>): (table: Bindings)
    reads nodes
    ensures |table| == |nodes|
    ensures forall i :: 0 <= i < |nodes| ==> table[i] == Binding(nodes[i].name, nodes[i].value)
  {
    if nodes == [] then [] else [Binding(nodes[0].name, nodes[0].value)] + Contents(nodes[1..])
  }

  method SymLookup(symtab: Symbol?, s: CString, ghost nodes: seq<Symbol>) returns (sp: Symbol?, ghost i: nat)
    requires IsTable(symtab, nodes)
    ensures i == First(Contents(nodes), s) && sp == Next(nodes, i)
    ensures Current(Contents(nodes), s) == if sp == null then "" else sp.value
  {
    sp, i := symtab, 0;
    while sp != null && sp.name != s
      invariant i <= |nodes| && sp == Next(nodes, i)
      invariant forall j :: 0 <= j < i ==> nodes[j].name != s
      decreases |nodes| - i
    {
      assert nodes[i].next == Next(nodes, i + 1);
      sp := sp.next;
      i := i + 1;
    }
    FirstIs(Contents(nodes), s, i);
  }

  /** symAdd: a symbol without a name is refused; any other goes to the front. */
  method SymAdd(symtab: Symbol?, s: CString, v: CString, ghost nodes: seq<Symbol>)
    returns (sp: Symbol?, head: Symbol?, ghost all: seq<Symbol>)
    requires IsTable(symtab, nodes)
    ensures IsTable(head, all) && (sp == null <==> s == "")
    ensures s == "" ==> head == symtab && all == nodes
    ensures s != "" ==> fresh(sp) && all == [sp] + nodes && Contents(all) == [Binding(s, v)] + Contents(nodes)
  {
    sp, head, all := null, symtab, nodes;
    if |s| < 1 {
      return;
    }
    sp := new Symbol(s, v, symtab);
    head := sp;
    all := [sp] + nodes;
    assert all[1..] == nodes;
    forall i | 0 <= i < |all|
      ensures all[i].next == Next(all, i + 1)
    {
      if i > 0 {
        assert nodes[i - 1].next == Next(nodes, i);
      }
    }
  }

  /** The value of a symbol is replaced in place. */
  method Replace(symp: Symbol, value: CString, ghost nodes: seq<Symbol>, ghost symtab: Symbol?, ghost i: nat)
    requires IsTable(symtab, nodes) && i < |nodes| && symp == nodes[i]
    modifies symp
    ensures Contents(nodes) == old(Contents(nodes))[i := Binding(symp.name, value)]
  {
    ghost var table := Contents(nodes);
    symp.value := value;
    assert |Contents(nodes)| == |table|;
    forall j | 0 <= j < |nodes|
      ensures Contents(nodes)[j] == table[i := Binding(symp.name, value)][j]
    {
    }
  }

  /** The lower half of an assignment, on names and values that are trimmed already. */
  method Assign(symtab: Symbol?, name: CString, value: CString, ghost nodes: seq<Symbol>)
    returns (rc: int, head: Symbol?, ghost all: seq<Symbol>)
    requires IsTable(symtab, nodes)
    modifies nodes
    ensures IsTable(head, all) && Contents(all) == Assigned(old(Contents(nodes)), name, value)
    ensures rc == if name == "" && !Defined(old(Contents(nodes)), name) then -1 else 0
  {
    hide First, Current, Contents, IsTable;
    head, all := symtab, nodes;
    var symp, i := SymLookup(symtab, name, nodes);
    if symp == null {
      symp, head, all := SymAdd(symtab, name, value, nodes);
      rc := if symp == null then -1 else 0;
    } else {
      Replace(symp, value, nodes, symtab, i);
      rc := 0;
    }
  }
}
