/** A table of named records and the operations on it: each operation goes to the record that its name resolves to. */
module SlotTable {
  import opened Text
  import opened SlotNames

  datatype Table<R> = Table(names: Names, recs: seq<R>)

  /** The kind of a table: the name an operation is for, what it does to the record, and how much of a name counts. */
  datatype Kind<!R, !O> = Kind(call: O -> CString, update: (R, O) -> R, cap: nat)

  predicate Sized<R>(t: Table<R>) { |t.names| == |t.recs| }

  function Apply<R, O>(k: Kind<R, O>, t: Table<R>, op: O): (r: Table<R>)
    requires Sized(t)
    ensures Sized(r) && |r.names| == |t.names|
  {
    var i := Slot(t.names, k.call(op), k.cap);
    Table(Claim(t.names, k.call(op), k.cap), if i == -1 then t.recs else t.recs[i := k.update(t.recs[i], op)])
  }

  function Replay<R, O>(k: Kind<R, O>, t: Table<R>, ops: seq<O>): (r: Table<R>)
    requires Sized(t)
    ensures Sized(r) && |r.names| == |t.names|
  {
    if ops == [] then t else Apply(k, Replay(k, t, ops[..|ops| - 1]), ops[|ops| - 1])
  }

  /** The operations that resolve to slot i of a table with these names, in order; i is -1 for the refused ones. */
  function Mine<R, O>(k: Kind<R, O>, names: Names, i: int, ops: seq<O>): seq<O> {
    if ops == [] then []
    else
      var op := ops[|ops| - 1];
      Mine(k, names, i, ops[..|ops| - 1]) + (if Slot(names, k.call(op), k.cap) == i then [op] else [])
  }

  function Accumulated<R, O>(k: Kind<R, O>, r: R, ops: seq<O>): R {
    if ops == [] then r else k.update(Accumulated(k, r, ops[..|ops| - 1]), ops[|ops| - 1])
  }

  predicate Named<R, O>(k: Kind<R, O>, ops: seq<O>) {
    forall i :: 0 <= i < |ops| ==> k.call(ops[i]) != ""
  }

  /** Looking the name up changes nothing any more. */
  predicate Known(names: Names, query: CString, cap: nat) {
    Slot(names, query, cap) == -1 || Settled(names, query, cap, Slot(names, query, cap))
  }

  lemma KnownStays(names: Names, query: CString, other: CString, cap: nat)
    requires Shaped(names) && Known(names, query, cap)
    ensures Known(Claim(names, other, cap), query, cap)
    ensures Slot(Claim(names, other, cap), query, cap) == Slot(names, query, cap)
  {
    var i := Slot(names, query, cap);
    ClaimKeepsShape(names, other, cap);
    if i == -1 {
      FullWithoutMatch(names, query, cap);
      FullWithoutMatch(Claim(names, other, cap), query, cap);
    } else {
      SettledIsSlot(Claim(names, other, cap), query, cap, i);
    }
  }

  lemma ClaimMakesKnown(names: Names, query: CString, cap: nat)
    requires Shaped(names) && query != "" && cap > 0
    ensures Known(Claim(names, query, cap), query, cap)
    ensures Slot(Claim(names, query, cap), query, cap) == Slot(names, query, cap)
  {
    var i := Slot(names, query, cap);
    if i != -1 {
      ClaimSettles(names, query, cap);
      SettledIsSlot(Claim(names, query, cap), query, cap, i);
    }
  }

  lemma {:induction false} AllKnown<R, O>(k: Kind<R, O>, t: Table<R>, ops: seq<O>)
    requires Sized(t) && Shaped(t.names) && Named(k, ops) && k.cap > 0
    ensures Shaped(Replay(k, t, ops).names)
    ensures forall i :: 0 <= i < |ops| ==> Known(Replay(k, t, ops).names, k.call(ops[i]), k.cap)
  {
    if ops != [] {
      var n := |ops| - 1;
      var names := Replay(k, t, ops[..n]).names;
      AllKnown(k, t, ops[..n]);
      ClaimKeepsShape(names, k.call(ops[n]), k.cap);
      ClaimMakesKnown(names, k.call(ops[n]), k.cap);
      forall i | 0 <= i < n
        ensures Known(Replay(k, t, ops).names, k.call(ops[i]), k.cap)
      {
        assert ops[..n][i] == ops[i];
        KnownStays(names, k.call(ops[i]), k.call(ops[n]), k.cap);
      }
    }
  }

  lemma {:induction false} SameMine<R, O>(k: Kind<R, O>, names: Names, names': Names, i: int, ops: seq<O>)
    requires forall j :: 0 <= j < |ops| ==> Slot(names, k.call(ops[j]), k.cap) == Slot(names', k.call(ops[j]), k.cap)
    ensures Mine(k, names, i, ops) == Mine(k, names', i, ops)
  {
    if ops != [] {
      SameMine(k, names, names', i, ops[..|ops| - 1]);
    }
  }

  /**
    Refinement: after any operations the record in slot i is what its own operations make of it, and these are the ones
    whose names resolve to slot i in the table as it is at the end.
   */
  lemma {:induction false} RecordIsItsOperations<R, O>(k: Kind<R, O>, t: Table<R>, ops: seq<O>, i: nat)
    requires Sized(t) && Shaped(t.names) && Named(k, ops) && k.cap > 0 && i < |t.names|
    ensures var r := Replay(k, t, ops);
      r.recs[i] == Accumulated(k, t.recs[i], Mine(k, r.names, i, ops))
  {
    if ops != [] {
      var n := |ops| - 1;
      var before, r, op := Replay(k, t, ops[..n]), Replay(k, t, ops), ops[n];
      RecordIsItsOperations(k, t, ops[..n], i);
      AllKnown(k, t, ops[..n]);
      ClaimMakesKnown(before.names, k.call(op), k.cap);
      forall j | 0 <= j < n
        ensures Slot(before.names, k.call(ops[..n][j]), k.cap) == Slot(r.names, k.call(ops[..n][j]), k.cap)
      {
        KnownStays(before.names, k.call(ops[..n][j]), k.call(op), k.cap);
      }
      SameMine(k, before.names, r.names, i, ops[..n]);
      var mine := Mine(k, r.names, i, ops[..n]);
      if Slot(r.names, k.call(op), k.cap) == i {
        assert (mine + [op])[..|mine|] == mine;
      } else {
        assert mine + [] == mine;
      }
    }
  }

  // ----- Fields that are set -----

  /** What was set last, or what was there at the start. */
  function Last<O, T>(value: O -> Option<T>, ops: seq<O>, start: T): T {
    if ops == [] then start
    else if value(ops[|ops| - 1]).Some? then value(ops[|ops| - 1]).value
    else Last(value, ops[..|ops| - 1], start)
  }

  /** A field that some operations set, and the others leave. */
  ghost predicate Sets<R(!new), O(!new), T>(k: Kind<R, O>, field: R -> T, value: O -> Option<T>) {
    forall r, op :: field(k.update(r, op)) == if value(op).Some? then value(op).value else field(r)
  }

  lemma {:induction false} FieldIsLastSet<R(!new), O(!new), T>(
    k: Kind<R, O>, field: R -> T, value: O -> Option<T>, r: R, ops: seq<O>)
    requires Sets(k, field, value)
    ensures field(Accumulated(k, r, ops)) == Last(value, ops, field(r))
  {
    if ops != [] {
      FieldIsLastSet(k, field, value, r, ops[..|ops| - 1]);
    }
  }

  /** In a slot such a field has what the last operation on that slot has set. */
  lemma SetInSlot<R(!new), O(!new), T>(
    k: Kind<R, O>, field: R -> T, value: O -> Option<T>, start: Table<R>, ops: seq<O>, i: nat)
    requires Sets(k, field, value)
    requires Sized(start) && Shaped(start.names) && Named(k, ops) && k.cap > 0 && i < |start.names|
    ensures
      var t := Replay(k, start, ops);
      field(t.recs[i]) == Last(value, Mine(k, t.names, i, ops), field(start.recs[i]))
  {
    RecordIsItsOperations(k, start, ops, i);
    FieldIsLastSet(k, field, value, start.recs[i], Mine(k, Replay(k, start, ops).names, i, ops));
  }

  // ----- Totals over a table -----

  function Sum<O>(weight: O -> int, ops: seq<O>): int {
    if ops == [] then 0 else Sum(weight, ops[..|ops| - 1]) + weight(ops[|ops| - 1])
  }

  /** f(-1) + f(0) + ... + f(n - 1) */
  function Total(f: int -> int, n: nat): int {
    if n == 0 then f(-1) else Total(f, n - 1) + f(n - 1)
  }

  lemma {:induction false} TotalMoves(f: int -> int, g: int -> int, n: nat, at: int, x: int)
    requires at >= -1 && forall i :: g(i) == f(i) + (if i == at then x else 0)
    ensures Total(g, n) == Total(f, n) + (if at < n then x else 0)
  {
    if n > 0 {
      TotalMoves(f, g, n - 1, at, x);
    }
  }

  lemma {:induction false} TotalOfNothing(f: int -> int, n: nat)
    requires forall i :: f(i) == 0
    ensures Total(f, n) == 0
  {
    if n > 0 {
      TotalOfNothing(f, n - 1);
    }
  }

  /** What the operations that resolve to slot i weigh. */
  function Shares<R, O>(k: Kind<R, O>, names: Names, weight: O -> int, ops: seq<O>): int -> int {
    (i: int) => Sum(weight, Mine(k, names, i, ops))
  }

  lemma {:induction false} SumOfMore<O>(weight: O -> int, ops: seq<O>, op: O)
    ensures Sum(weight, ops + [op]) == Sum(weight, ops) + weight(op)
  {
    assert (ops + [op])[..|ops|] == ops;
  }

  lemma {:induction false} MineOfMore<R, O>(k: Kind<R, O>, names: Names, weight: O -> int, i: int, ops: seq<O>, op: O)
    ensures Sum(weight, Mine(k, names, i, ops + [op])) ==
            Sum(weight, Mine(k, names, i, ops)) + (if Slot(names, k.call(op), k.cap) == i then weight(op) else 0)
  {
    var mine := Mine(k, names, i, ops);
    assert (ops + [op])[..|ops|] == ops && mine + [] == mine;
    SumOfMore(weight, mine, op);
  }

  /** Conservation: the shares of the slots and of the refused operations add up to the whole. */
  lemma {:induction false} SharesAreTheWhole<R, O>(k: Kind<R, O>, names: Names, weight: O -> int, ops: seq<O>)
    ensures Total(Shares(k, names, weight, ops), |names|) == Sum(weight, ops)
  {
    var shares := Shares(k, names, weight, ops);
    if ops == [] {
      TotalOfNothing(shares, |names|);
    } else {
      var n := |ops| - 1;
      var op := ops[n];
      var slot, before := Slot(names, k.call(op), k.cap), Shares(k, names, weight, ops[..n]);
      SharesAreTheWhole(k, names, weight, ops[..n]);
      forall i
        ensures shares(i) == before(i) + (if i == slot then weight(op) else 0)
      {
        assert ops[..n] + [op] == ops;
        MineOfMore(k, names, weight, i, ops[..n], op);
      }
      TotalMoves(before, shares, |names|, slot, weight(op));
    }
  }
}
