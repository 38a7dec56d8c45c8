/** The order in which the hosts are tried: a stable sort by the time of the last try, and what runs do to it. */
module CmsList {
  import opened Text

  datatype Entry = Entry(host: CString, port: int, passwd: CString)

  /** What stat says of the status file of a host. */
  datatype Stat = Absent | At(time: int) | Unreadable

  type Files = CString -> Stat

  /** A listed entry, with the time of its status file and its place among the entries of the host file. */
  datatype Item = Item(entry: Entry, time: int, line: nat)

  predicate Acceptable(e: Entry) {
    |e.host| >= 1 && 1024 <= e.port <= 65535 && |e.passwd| >= 1
  }

  /** A host without a status file counts as tried at time 0. */
  function TimeOf(s: Stat): int { if s.At? then s.time else 0 }

  predicate Kept(files: Files, e: Entry) {
    Acceptable(e) && files(e.host) != Unreadable
  }

  /** The entries that are kept, in the order of the host file. */
  function Selected(entries: seq<Entry>, files: Files): seq<Item> {
    if entries == [] then []
    else
      var n := |entries| - 1;
      Selected(entries[..n], files)
      + (if Kept(files, entries[n]) then [Item(entries[n], TimeOf(files(entries[n].host)), n)] else [])
  }

  /** The item is for an entry that is kept, at its place and with the time of its status file. */
  predicate IsSelected(entries: seq<Entry>, files: Files, x: Item) {
    x.line < |entries| && x.entry == entries[x.line] && Kept(files, x.entry) && x.time == TimeOf(files(x.entry.host))
  }

  /** The number of leading items that are not later than t. */
  function Place(items: seq<Item>, t: int): (p: nat)
    ensures p <= |items|
    ensures forall i :: 0 <= i < p ==> items[i].time <= t
    ensures p < |items| ==> items[p].time > t
  {
    if items == [] || t < items[0].time then 0 else 1 + Place(items[1..], t)
  }

  function Insert(items: seq<Item>, x: Item): (r: seq<Item>)
    ensures |r| == |items| + 1
  {
    var p := Place(items, x.time);
    items[..p] + [x] + items[p..]
  }

  function InsertAll(items: seq<Item>): (r: seq<Item>)
    ensures |r| == |items|
  {
    if items == [] then [] else Insert(InsertAll(items[..|items| - 1]), items[|items| - 1])
  }

  /** The list of hosts to be tried. */
  function Listed(entries: seq<Entry>, files: Files): seq<Item> {
    InsertAll(Selected(entries, files))
  }

  // ----- It is the stable sort -----

  predicate Before(a: Item, b: Item) {
    a.time < b.time || (a.time == b.time && a.line < b.line)
  }

  predicate Sorted(items: seq<Item>) {
    forall i, j :: 0 <= i < j < |items| ==> Before(items[i], items[j])
  }

  predicate InFileOrder(items: seq<Item>) {
    forall i, j :: 0 <= i < j < |items| ==> items[i].line < items[j].line
  }

  ghost predicate SameItems(a: seq<Item>, b: seq<Item>) {
    forall x :: x in a <==> x in b
  }

  lemma InsertKeeps(items: seq<Item>, x: Item)
    requires Sorted(items) && forall i :: 0 <= i < |items| ==> items[i].line < x.line
    ensures Sorted(Insert(items, x)) && SameItems(Insert(items, x), items + [x])
  {
    hide Place;
    var p, r := Place(items, x.time), Insert(items, x);
    forall i, j | 0 <= i < j < |r|
      ensures Before(r[i], r[j])
    {
      hide Sorted, Insert;
      InsertAt(items, x, i);
      InsertAt(items, x, j);
      LaterThan(items, x);
    }
    assert items == items[..p] + items[p..];
  }

  lemma InsertAt(items: seq<Item>, x: Item, i: nat)
    requires i <= |items|
    ensures var p := Place(items, x.time);
      Insert(items, x)[i] == if i < p then items[i] else if i == p then x else items[i - 1]
  {
  }

  /** Everything behind the place is later, as the first item there is. */
  lemma LaterThan(items: seq<Item>, x: Item)
    requires Sorted(items)
    ensures forall i, j :: 0 <= i < j < |items| ==> Before(items[i], items[j])
    ensures forall i :: Place(items, x.time) <= i < |items| ==> x.time < items[i].time
  {
    hide Place;
    var p := Place(items, x.time);
    forall i | p <= i < |items|
      ensures x.time < items[i].time
    {
      assert i == p || Before(items[p], items[i]);
    }
  }

  lemma {:induction false} SortsStably(items: seq<Item>)
    requires InFileOrder(items)
    ensures Sorted(InsertAll(items)) && SameItems(InsertAll(items), items)
  {
    if items != [] {
      var n := |items| - 1;
      var rest := InsertAll(items[..n]);
      SortsStably(items[..n]);
      forall i | 0 <= i < |rest|
        ensures rest[i].line < items[n].line
      {
        assert rest[i] in items[..n];
      }
      InsertKeeps(rest, items[n]);
      assert items == items[..n] + [items[n]];
    }
  }

  lemma {:induction false} SelectedMeans(entries: seq<Entry>, files: Files)
    ensures InFileOrder(Selected(entries, files))
    ensures forall x :: x in Selected(entries, files) <==> IsSelected(entries, files, x)
  {
    if entries != [] {
      var n := |entries| - 1;
      var before, after := Selected(entries[..n], files), Selected(entries, files);
      SelectedMeans(entries[..n], files);
      forall i | 0 <= i < |before|
        ensures before[i].line < n
      {
        assert before[i] in before;
      }
      forall x
        ensures x in after <==> IsSelected(entries, files, x)
      {
        assert x in before <==> x.line < n && IsSelected(entries, files, x);
        assert x in after <==> x in before || (Kept(files, entries[n]) && x == after[|after| - 1]);
      }
    }
  }

  /** Two sorted lists of the same items are the same list. */
  lemma {:induction false} SortedOnce(a: seq<Item>, b: seq<Item>)
    requires Sorted(a) && Sorted(b) && SameItems(a, b)
    ensures a == b
  {
    if b != [] {
      assert b[0] in b;
    }
    if a != [] {
      assert a[0] in b && b != [];
      assert b[0] in a;
      assert a[0] == b[0];
      forall x
        ensures x in a[1..] <==> x in b[1..]
      {
        TailOf(a, x);
        TailOf(b, x);
      }
      SortedOnce(a[1..], b[1..]);
    }
  }

  lemma TailOf(a: seq<Item>, x: Item)
    requires Sorted(a) && a != []
    ensures x in a[1..] <==> x in a && x != a[0]
  {
    assert a == [a[0]] + a[1..];
  }

  /**
    What the list is: exactly the acceptable entries whose status can be had, oldest try first and, for equal times, in
    the order of the host file. Nothing else is sorted in this way.
   */
  lemma ListedIsStableSort(entries: seq<Entry>, files: Files)
    ensures Sorted(Listed(entries, files))
    ensures forall x :: x in Listed(entries, files) <==> IsSelected(entries, files, x)
    ensures forall r :: Sorted(r) && SameItems(r, Listed(entries, files)) ==> r == Listed(entries, files)
  {
    SelectedMeans(entries, files);
    SortsStably(Selected(entries, files));
    forall r | Sorted(r) && SameItems(r, Listed(entries, files))
      ensures r == Listed(entries, files)
    {
      SortedOnce(r, Listed(entries, files));
    }
  }

  /** The list in full: which entries are on it, with which times, and in which order. */
  lemma ListedInFull(entries: seq<Entry>, files: Files)
    ensures var l := Listed(entries, files);
      && (forall x :: x in l <==>
            && x.line < |entries| && x.entry == entries[x.line]
            && x.entry.host != "" && 1024 <= x.entry.port < 65536 && x.entry.passwd != ""
            && files(x.entry.host) != Unreadable
            && x.time == (if files(x.entry.host) == Absent then 0 else files(x.entry.host).time))
      && (forall i, j :: 0 <= i < j < |l| ==>
            l[i].time < l[j].time || (l[i].time == l[j].time && l[i].line < l[j].line))
  {
    hide Listed;
    ListedIsStableSort(entries, files);
  }

  /** A host that was never tried comes before every host that was. */
  lemma UntriedFirst(entries: seq<Entry>, files: Files, i: nat, j: nat)
    requires i < |Listed(entries, files)| && j < |Listed(entries, files)|
    requires files(Listed(entries, files)[i].entry.host) == Absent
    requires files(Listed(entries, files)[j].entry.host).At? && files(Listed(entries, files)[j].entry.host).time > 0
    ensures i < j
  {
    hide Listed;
    ListedIsStableSort(entries, files);
    var l := Listed(entries, files);
    assert l[i] in l && l[j] in l;
    assert i != j && !Before(l[j], l[i]);
  }

  // ----- Runs -----

  function Touch(files: Files, host: CString, now: int): Files {
    (h: CString) => if h == host then At(now) else files(h)
  }

  /** A run touches the hosts it tries, the i-th one at clock[i]. */
  function TouchAll(files: Files, items: seq<Item>, clock: seq<int>): Files
    requires |items| == |clock|
  {
    if items == [] then files
    else
      var n := |items| - 1;
      Touch(TouchAll(files, items[..n], clock[..n]), items[n].entry.host, clock[n])
  }

  predicate DistinctHosts(items: seq<Item>) {
    forall i, j :: 0 <= i < j < |items| ==> items[i].entry.host != items[j].entry.host
  }

  lemma {:induction false} TouchedAt(files: Files, items: seq<Item>, clock: seq<int>)
    requires |items| == |clock| && DistinctHosts(items)
    ensures forall i :: 0 <= i < |items| ==> TouchAll(files, items, clock)(items[i].entry.host) == At(clock[i])
    ensures forall h :: (forall i :: 0 <= i < |items| ==> items[i].entry.host != h) ==>
              TouchAll(files, items, clock)(h) == files(h)
  {
    if items != [] {
      var n := |items| - 1;
      TouchedAt(files, items[..n], clock[..n]);
    }
  }

  lemma {:induction false} TouchedOrNot(files: Files, items: seq<Item>, clock: seq<int>, host: CString)
    requires |items| == |clock|
    ensures if exists i :: 0 <= i < |items| && items[i].entry.host == host
            then TouchAll(files, items, clock)(host).At? && TouchAll(files, items, clock)(host).time in clock
            else TouchAll(files, items, clock)(host) == files(host)
  {
    if items != [] {
      var n := |items| - 1;
      TouchedOrNot(files, items[..n], clock[..n], host);
      if i :| 0 <= i < |items| && items[i].entry.host == host {
        assert i < n ==> items[..n][i].entry.host == host;
      }
    }
  }

  /** The state after a run that tried one host for each tick of the clock. */
  function After(entries: seq<Entry>, files: Files, clock: seq<int>): Files
    requires |clock| <= |Listed(entries, files)|
  {
    TouchAll(files, Listed(entries, files)[..|clock|], clock)
  }

  /** The list with its first items moved to the end, at the times at which they were tried. */
  function Rotated(l: seq<Item>, clock: seq<int>): (r: seq<Item>)
    requires |clock| <= |l|
    ensures |r| == |l|
  {
    l[|clock|..] + seq(|clock|, (i: nat) requires i < |clock| => l[i].(time := clock[i]))
  }

  /** After a run the hosts that were tried have times of the run, the others what they had, and no entry is lost. */
  lemma AfterKeeps(entries: seq<Entry>, files: Files, clock: seq<int>)
    requires |clock| <= |Listed(entries, files)|
    ensures var l, files' := Listed(entries, files), After(entries, files, clock);
      && (forall i :: 0 <= i < |clock| ==> files'(l[i].entry.host).At? && files'(l[i].entry.host).time in clock)
      && (forall h :: (forall i :: 0 <= i < |clock| ==> l[i].entry.host != h) ==> files'(h) == files(h))
      && (forall e :: Kept(files', e) <==> Kept(files, e))
  {
    hide Listed;
    var l, k, files' := Listed(entries, files), |clock|, After(entries, files, clock);
    ListedIsStableSort(entries, files);
    forall i | 0 <= i < k
      ensures files'(l[i].entry.host).At? && files'(l[i].entry.host).time in clock
    {
      TouchedOrNot(files, l[..k], clock, l[i].entry.host);
      assert l[..k][i].entry.host == l[i].entry.host;
    }
    forall h | forall i :: 0 <= i < k ==> l[i].entry.host != h
      ensures files'(h) == files(h)
    {
      TouchedOrNot(files, l[..k], clock, h);
    }
    forall e
      ensures Kept(files', e) <==> Kept(files, e)
    {
      if i :| 0 <= i < k && l[i].entry.host == e.host {
        assert l[i] in l;
      }
    }
  }

  /** With distinct hosts they have the times of their own tries. */
  lemma AfterMeans(entries: seq<Entry>, files: Files, clock: seq<int>)
    requires |clock| <= |Listed(entries, files)| && DistinctHosts(Listed(entries, files))
    ensures var l, files' := Listed(entries, files), After(entries, files, clock);
      && (forall i :: 0 <= i < |clock| ==> files'(l[i].entry.host) == At(clock[i]))
      && (forall i :: |clock| <= i < |l| ==> files'(l[i].entry.host) == files(l[i].entry.host))
  {
    hide Listed;
    AfterKeeps(entries, files, clock);
    TouchedAt(files, Listed(entries, files)[..|clock|], clock);
    var l, k := Listed(entries, files), |clock|;
    assert forall i :: 0 <= i < k ==> l[..k][i] == l[i];
  }

  /** The list with its first k items moved to the end, all with the times of their status files. */
  function Moved(l: seq<Item>, files: Files, k: nat): (r: seq<Item>)
    requires k <= |l|
    ensures |r| == |l|
  {
    seq(|l|, (i: nat) requires i < |l| => Retimed(l[MovedFrom(|l|, k, i)], files))
  }

  function Retimed(x: Item, files: Files): Item {
    x.(time := TimeOf(files(x.entry.host)))
  }

  /** The place from which an item moves to place i. */
  function MovedFrom(n: nat, k: nat, i: nat): (j: nat)
    requires k <= n && i < n
    ensures j < n
  {
    if i < n - k then k + i else i - (n - k)
  }

  /** The next list has the items of the moved one. */
  lemma NextHasSameItems(entries: seq<Entry>, files: Files, clock: seq<int>)
    requires |clock| <= |Listed(entries, files)|
    ensures SameItems(Listed(entries, After(entries, files, clock)),
                      Moved(Listed(entries, files), After(entries, files, clock), |clock|))
  {
    hide Listed, After, Sorted, Moved;
    var l, k, files' := Listed(entries, files), |clock|, After(entries, files, clock);
    var next, r := Listed(entries, files'), Moved(l, files', k);
    AfterKeeps(entries, files, clock);
    ListedIsStableSort(entries, files);
    ListedIsStableSort(entries, files');
    forall x | x in r
      ensures x in next
    {
      var i: nat :| i < |r| && r[i] == x;
      MovedAt(l, files', k, i);
      assert l[if i < |l| - k then k + i else i - (|l| - k)] in l;
    }
    forall x | x in next
      ensures x in r
    {
      var before := x.(time := TimeOf(files(x.entry.host)));
      assert before in l;
      var p :| 0 <= p < |l| && l[p] == before;
      var at: nat := if p < k then |l| - k + p else p - k;
      MovedAt(l, files', k, at);
      assert x == r[at];
    }
  }

  lemma MovedAt(l: seq<Item>, files: Files, k: nat, i: nat)
    requires k <= |l| && i < |l|
    ensures var x := l[if i < |l| - k then k + i else i - (|l| - k)];
      Moved(l, files, k)[i] == x.(time := TimeOf(files(x.entry.host)))
  {
    hide TimeOf;
  }

  /** Touch i + 1 is later than touch i, or in the same second and further down in the host file. */
  predicate TouchedInOrder(l: seq<Item>, clock: seq<int>, i: nat)
    requires i + 1 < |clock| <= |l|
  {
    clock[i] < clock[i + 1] || (clock[i] == clock[i + 1] && l[i].line < l[i + 1].line)
  }

  /** Touches come in order, and the first of them behind the last host that is not tried. */
  predicate Agrees(l: seq<Item>, clock: seq<int>)
    requires |clock| <= |l|
  {
    && (forall i: nat :: i + 1 < |clock| ==> TouchedInOrder(l, clock, i))
    && (0 < |clock| < |l| ==>
          l[|l| - 1].time < clock[0] || (l[|l| - 1].time == clock[0] && l[|l| - 1].line < l[0].line))
  }

  predicate Follows(items: seq<Item>, i: nat)
    requires i + 1 < |items|
  {
    Before(items[i], items[i + 1])
  }

  predicate Ascends(items: seq<Item>) {
    forall i: nat :: i < |items| - 1 ==> Follows(items, i)
  }

  lemma SortedAscends(items: seq<Item>)
    requires Sorted(items)
    ensures Ascends(items)
  {
  }

  lemma {:induction false} BeforeLater(items: seq<Item>, i: nat, j: nat)
    requires Ascends(items) && i < j < |items|
    ensures Before(items[i], items[j])
    decreases j
  {
    assert Follows(items, j - 1);
    if i < j - 1 {
      BeforeLater(items, i, j - 1);
    }
  }

  lemma AscendingIsSorted(items: seq<Item>)
    requires Ascends(items)
    ensures Sorted(items)
  {
    forall i, j | 0 <= i < j < |items|
      ensures Before(items[i], items[j])
    {
      BeforeLater(items, i, j);
    }
  }

  lemma RotatedAt(l: seq<Item>, clock: seq<int>, i: nat)
    requires |clock| <= |l| && i < |l|
    ensures var rest := |l| - |clock|;
      Rotated(l, clock)[i] == if i < rest then l[|clock| + i] else l[i - rest].(time := clock[i - rest])
  {
  }

  lemma AgreesIfAscending(l: seq<Item>, clock: seq<int>)
    requires |clock| <= |l| && Ascends(Rotated(l, clock))
    ensures Agrees(l, clock)
  {
    hide Rotated;
    var rest, r := |l| - |clock|, Rotated(l, clock);
    forall i: nat | i + 1 < |clock|
      ensures TouchedInOrder(l, clock, i)
    {
      RotatedAt(l, clock, rest + i);
      RotatedAt(l, clock, rest + i + 1);
      assert Follows(r, rest + i);
    }
    if 0 < |clock| < |l| {
      RotatedAt(l, clock, rest - 1);
      RotatedAt(l, clock, rest);
      assert Follows(r, rest - 1);
    }
  }

  lemma AscendingIfAgrees(l: seq<Item>, clock: seq<int>)
    requires |clock| <= |l| && Sorted(l) && Agrees(l, clock)
    ensures Ascends(Rotated(l, clock))
  {
    hide Rotated;
    var rest, r := |l| - |clock|, Rotated(l, clock);
    forall i: nat | i < |l| - 1
      ensures Follows(r, i)
    {
      RotatedAt(l, clock, i);
      RotatedAt(l, clock, i + 1);
      if i >= rest {
        assert TouchedInOrder(l, clock, i - rest);
      }
    }
  }

  /** No entry occurs twice. */
  predicate DistinctEntries(items: seq<Item>) {
    forall i, j :: 0 <= i < j < |items| ==> items[i].entry != items[j].entry
  }

  /** With distinct hosts the times in the moved list are those of the tries. */
  lemma MovedIsRotated(entries: seq<Entry>, files: Files, clock: seq<int>)
    requires |clock| <= |Listed(entries, files)| && DistinctHosts(Listed(entries, files))
    ensures Moved(Listed(entries, files), After(entries, files, clock), |clock|) ==
            Rotated(Listed(entries, files), clock)
  {
    hide Listed, After, Moved, Rotated, DistinctHosts;
    var l, k, files' := Listed(entries, files), |clock|, After(entries, files, clock);
    AfterMeans(entries, files, clock);
    ListedIsStableSort(entries, files);
    forall i | 0 <= i < |l|
      ensures Moved(l, files', k)[i] == Rotated(l, clock)[i]
    {
      MovedAt(l, files', k, i);
      RotatedAt(l, clock, i);
      assert l[if i < |l| - k then k + i else i - (|l| - k)] in l;
    }
  }

  /**
    Whatever the clock does: a run that tries k hosts moves them to the end of the list exactly when the moved items, at
    the times that their status files then have, ascend. Where no host is named twice that is to say that the touches
    come in order and behind the last host that was not tried, those of the same second being ordered by the host file.
   */
  lemma RotatesExactly(entries: seq<Entry>, files: Files, clock: seq<int>)
    requires |clock| <= |Listed(entries, files)|
    ensures
      var l, files' := Listed(entries, files), After(entries, files, clock);
      var next, moved := Listed(entries, files'), Moved(l, files', |clock|);
      && (next == moved <==> Ascends(moved))
      && (DistinctEntries(l) ==>
            (Entries(next) == Entries(l)[|clock|..] + Entries(l)[..|clock|] <==> Ascends(moved)))
      && (DistinctHosts(l) ==> moved == Rotated(l, clock) && (Ascends(moved) <==> Agrees(l, clock)))
  {
    hide Listed, After, Moved, Rotated, Agrees, DistinctHosts, DistinctEntries, Entries, Ascends;
    var l, files' := Listed(entries, files), After(entries, files, clock);
    var next, moved := Listed(entries, files'), Moved(l, files', |clock|);
    ListedIsStableSort(entries, files);
    ListedIsStableSort(entries, files');
    NextHasSameItems(entries, files, clock);
    if next == moved {
      SortedAscends(moved);
    }
    if Ascends(moved) {
      AscendingIsSorted(moved);
      SortedOnce(next, moved);
    }
    MovedEntries(l, files', |clock|);
    if DistinctEntries(l) && Entries(next) == Entries(moved) {
      MovedDistinct(l, files', |clock|);
      EntriesTellItems(next, moved);
    }
    if DistinctHosts(l) {
      MovedIsRotated(entries, files, clock);
      if Ascends(moved) {
        AgreesIfAscending(l, clock);
      }
      if Agrees(l, clock) {
        AscendingIfAgrees(l, clock);
      }
    }
  }

  lemma MovedEntries(l: seq<Item>, files: Files, k: nat)
    requires k <= |l|
    ensures Entries(Moved(l, files, k)) == Entries(l)[k..] + Entries(l)[..k]
  {
  }

  lemma MovedDistinct(l: seq<Item>, files: Files, k: nat)
    requires k <= |l| && DistinctEntries(l)
    ensures DistinctEntries(Moved(l, files, k))
  {
    var r := Moved(l, files, k);
    forall i, j | 0 <= i < j < |l|
      ensures r[i].entry != r[j].entry
    {
      MovedAt(l, files, k, i);
      MovedAt(l, files, k, j);
    }
  }

  /** With distinct entries their order is the order of the items. */
  lemma EntriesTellItems(a: seq<Item>, b: seq<Item>)
    requires SameItems(a, b) && DistinctEntries(b) && Entries(a) == Entries(b)
    ensures a == b
  {
    assert |a| == |Entries(a)| == |b|;
    forall i | 0 <= i < |a|
      ensures a[i] == b[i]
    {
      assert a[i] in b && Entries(a)[i] == Entries(b)[i];
      var j :| 0 <= j < |b| && b[j] == a[i];
    }
  }

  /** A run that tries one entry of a host and not another never rotates the list, whatever the clock does. */
  lemma SplitHostNeverRotates(entries: seq<Entry>, files: Files, clock: seq<int>, i: nat, j: nat)
    requires i < |clock| <= j < |Listed(entries, files)|
    requires Listed(entries, files)[i].entry.host == Listed(entries, files)[j].entry.host
    ensures Listed(entries, After(entries, files, clock)) !=
            Moved(Listed(entries, files), After(entries, files, clock), |clock|)
  {
    hide Listed, After, Moved;
    var l, k, files' := Listed(entries, files), |clock|, After(entries, files, clock);
    var moved := Moved(l, files', k);
    ListedIsStableSort(entries, files);
    ListedIsStableSort(entries, files');
    assert l[i] in l && l[j] in l && Before(l[i], l[j]);
    MovedAt(l, files', k, j - k);
    MovedAt(l, files', k, |l| - k + i);
    assert !Before(moved[j - k], moved[|l| - k + i]);
  }

  function Entries(items: seq<Item>): seq<Entry> {
    seq(|items|, (i: nat) requires i < |items| => items[i].entry)
  }

  /** The clock ticks between any two touches. */
  predicate Strict(l: seq<Item>, clock: seq<int>) {
    && (forall i, j :: 0 <= i < j < |clock| ==> clock[i] < clock[j])
    && (clock != [] ==> forall x :: x in l ==> x.time < clock[0])
  }

  /** Among the first k items those of a host come one after the other. */
  predicate Contiguous(l: seq<Item>, k: nat)
    requires k <= |l|
  {
    forall i, m, j :: 0 <= i < m < j < k && l[i].entry.host == l[j].entry.host ==> l[m].entry.host == l[i].entry.host
  }

  /** The entries of a host are tried one after the other and all of them, or none. */
  predicate Together(l: seq<Item>, k: nat)
    requires k <= |l|
  {
    && (forall i, j :: 0 <= i < k <= j < |l| ==> l[i].entry.host != l[j].entry.host)
    && Contiguous(l, k)
  }

  /** With a clock that ticks the last touch of a host counts. */
  lemma {:induction false} LastTouch(files: Files, items: seq<Item>, clock: seq<int>, i: nat) returns (m: nat)
    requires |items| == |clock| && i < |items| && forall a, b :: 0 <= a < b < |clock| ==> clock[a] < clock[b]
    ensures i <= m < |items| && items[m].entry.host == items[i].entry.host
    ensures TouchAll(files, items, clock)(items[i].entry.host) == At(clock[m])
  {
    var n := |items| - 1;
    if items[n].entry.host == items[i].entry.host {
      m := n;
    } else {
      m := LastTouch(files, items[..n], clock[..n], i);
    }
  }

  /** After a run with a ticking clock the time of an entry that was tried is that of the last try of its host. */
  lemma TimeAfter(entries: seq<Entry>, files: Files, clock: seq<int>, i: nat) returns (m: nat)
    requires |clock| <= |Listed(entries, files)| && Strict(Listed(entries, files), clock) && i < |clock|
    ensures i <= m < |clock| && Listed(entries, files)[m].entry.host == Listed(entries, files)[i].entry.host
    ensures After(entries, files, clock)(Listed(entries, files)[i].entry.host) == At(clock[m])
  {
    hide Listed;
    m := LastTouch(files, Listed(entries, files)[..|clock|], clock, i);
  }

  lemma TriesAscend(entries: seq<Entry>, files: Files, clock: seq<int>, i: nat)
    requires |clock| <= |Listed(entries, files)| && Strict(Listed(entries, files), clock)
    requires Contiguous(Listed(entries, files), |clock|) && i + 1 < |clock|
    ensures var l, files' := Listed(entries, files), After(entries, files, clock);
      var s, t := TimeOf(files'(l[i].entry.host)), TimeOf(files'(l[i + 1].entry.host));
      s < t || (s == t && l[i].line < l[i + 1].line)
  {
    hide Listed, After;
    var l := Listed(entries, files);
    ListedIsStableSort(entries, files);
    var a := TimeAfter(entries, files, clock, i);
    var b := TimeAfter(entries, files, clock, i + 1);
    assert l[i] in l && l[i + 1] in l && Before(l[i], l[i + 1]);
  }

  /** An entry that is not tried keeps its time, which is before the run. */
  lemma RestKeepsTime(entries: seq<Entry>, files: Files, clock: seq<int>, j: nat)
    requires |clock| <= j < |Listed(entries, files)| && Together(Listed(entries, files), |clock|)
    requires Strict(Listed(entries, files), clock)
    ensures var x := Listed(entries, files)[j];
      TimeOf(After(entries, files, clock)(x.entry.host)) == x.time && (clock != [] ==> x.time < clock[0])
  {
    hide Listed, After, Kept;
    var l := Listed(entries, files);
    ListedIsStableSort(entries, files);
    AfterKeeps(entries, files, clock);
    assert l[j] in l;
  }

  lemma AscendsIfTogether(entries: seq<Entry>, files: Files, clock: seq<int>, i: nat)
    requires |clock| <= |Listed(entries, files)| && Strict(Listed(entries, files), clock)
    requires Together(Listed(entries, files), |clock|) && i + 1 < |Listed(entries, files)|
    ensures Follows(Moved(Listed(entries, files), After(entries, files, clock), |clock|), i)
  {
    hide Listed, After, Moved, Together, Strict, Kept, TimeOf;
    var l, k, files' := Listed(entries, files), |clock|, After(entries, files, clock);
    var rest := |l| - k;
    MovedAt(l, files', k, i);
    MovedAt(l, files', k, i + 1);
    if i + 1 < rest {
      ListedIsStableSort(entries, files);
      RestKeepsTime(entries, files, clock, k + i);
      RestKeepsTime(entries, files, clock, k + i + 1);
      assert Before(l[k + i], l[k + i + 1]);
    } else if i >= rest {
      TogetherIsContiguous(l, k);
      TriesAscend(entries, files, clock, i - rest);
    } else {
      RestKeepsTime(entries, files, clock, k + i);
      FirstTryIsLater(entries, files, clock);
    }
  }

  lemma TogetherIsContiguous(l: seq<Item>, k: nat)
    requires k <= |l| && Together(l, k)
    ensures Contiguous(l, k)
  {
  }

  lemma FirstTryIsLater(entries: seq<Entry>, files: Files, clock: seq<int>)
    requires 0 < |clock| <= |Listed(entries, files)| && Strict(Listed(entries, files), clock)
    ensures TimeOf(After(entries, files, clock)(Listed(entries, files)[0].entry.host)) >= clock[0]
  {
    hide Listed, After;
    var m := TimeAfter(entries, files, clock, 0);
  }

  lemma TogetherIfSorted(entries: seq<Entry>, files: Files, clock: seq<int>)
    requires |clock| <= |Listed(entries, files)| && Strict(Listed(entries, files), clock)
    requires Sorted(Moved(Listed(entries, files), After(entries, files, clock), |clock|))
    ensures Contiguous(Listed(entries, files), |clock|)
  {
    hide Listed, After, Moved;
    var l, k, files' := Listed(entries, files), |clock|, After(entries, files, clock);
    var rest, moved := |l| - k, Moved(l, files', k);
    forall i, m, j | 0 <= i < m < j < k && l[i].entry.host == l[j].entry.host
      ensures l[m].entry.host == l[i].entry.host
    {
      MovedAt(l, files', k, rest + i);
      MovedAt(l, files', k, rest + m);
      MovedAt(l, files', k, rest + j);
      assert Before(moved[rest + i], moved[rest + m]) && Before(moved[rest + m], moved[rest + j]);
      var a := TimeAfter(entries, files, clock, i);
      var b := TimeAfter(entries, files, clock, m);
      assert a == b;
    }
  }

  /**
    Least recently tried first: with a clock that ticks between touches the list is rotated exactly when the entries of
    each host are tried together or not at all; so it always is where no host is named twice.
   */
  lemma LeastRecentlyTriedFirst(entries: seq<Entry>, files: Files, clock: seq<int>)
    requires |clock| <= |Listed(entries, files)| && Strict(Listed(entries, files), clock)
    ensures
      var l, files' := Listed(entries, files), After(entries, files, clock);
      var next := Listed(entries, files');
      && (next == Moved(l, files', |clock|) <==> Together(l, |clock|))
      && (Together(l, |clock|) ==> Entries(next) == Entries(l)[|clock|..] + Entries(l)[..|clock|])
      && (DistinctHosts(l) ==> Together(l, |clock|) && next == Rotated(l, clock) && DistinctHosts(next))
  {
    hide Listed, After, Moved, Rotated, Entries, Strict;
    var l, k, files' := Listed(entries, files), |clock|, After(entries, files, clock);
    var next, moved := Listed(entries, files'), Moved(l, files', k);
    RotatesExactly(entries, files, clock);
    MovedEntries(l, files', k);
    if Together(l, k) {
      forall i: nat | i < |moved| - 1
        ensures Follows(moved, i)
      {
        AscendsIfTogether(entries, files, clock, i);
      }
      assert Ascends(moved);
    }
    if next == moved {
      AscendingIsSorted(moved);
      TogetherIfSorted(entries, files, clock);
      forall i, j | 0 <= i < k <= j < |l|
        ensures l[i].entry.host != l[j].entry.host
      {
        if l[i].entry.host == l[j].entry.host {
          SplitHostNeverRotates(entries, files, clock, i, j);
          assert false;
        }
      }
    }
    if DistinctHosts(l) {
      RotatedHosts(l, clock);
    }
  }

  lemma RotatedHosts(l: seq<Item>, clock: seq<int>)
    requires |clock| <= |l| && DistinctHosts(l)
    ensures DistinctHosts(Rotated(l, clock))
    ensures Entries(Rotated(l, clock)) == Entries(l)[|clock|..] + Entries(l)[..|clock|]
  {
    var k, n, r := |clock|, |l|, Rotated(l, clock);
    assert forall i :: 0 <= i < n ==> r[i].entry == l[if i < n - k then k + i else i - (n - k)].entry;
  }

  /** Two hosts that are touched within one second come out in file order, whatever order they were tried in. */
  lemma SameSecondKeepsFileOrder(first: Entry, second: Entry, files: Files, now: int)
    requires first.host != second.host && Acceptable(first) && Acceptable(second)
    requires files(first.host) == At(now - 1) && files(second.host) == At(now - 2)
    ensures
      var entries := [first, second];
      && Entries(Listed(entries, files)) == [second, first]
      && Entries(Listed(entries, After(entries, files, [now, now]))) == [first, second]
  {
    var entries := [first, second];
    var a, b := Item(first, now - 1, 0), Item(second, now - 2, 1);
    Two(entries, files, b, a);
    var files' := After(entries, files, [now, now]);
    AfterMeans(entries, files, [now, now]);
    assert Listed(entries, files)[0] == b && Listed(entries, files)[1] == a;
    Two(entries, files', a.(time := now), b.(time := now));
  }

  /** A clock that is set back between two touches turns their order round. */
  lemma ClockSetBackTurnsOrder(first: Entry, second: Entry, files: Files, now: int)
    requires first.host != second.host && Acceptable(first) && Acceptable(second)
    requires files(first.host) == At(now - 2) && files(second.host) == At(now - 1)
    ensures
      var entries := [first, second];
      && Entries(Listed(entries, files)) == [first, second]
      && Entries(Listed(entries, After(entries, files, [now + 2, now]))) == [second, first]
  {
    var entries := [first, second];
    var a, b := Item(first, now - 2, 0), Item(second, now - 1, 1);
    Two(entries, files, a, b);
    var files' := After(entries, files, [now + 2, now]);
    AfterMeans(entries, files, [now + 2, now]);
    assert Listed(entries, files)[0] == a && Listed(entries, files)[1] == b;
    Two(entries, files', b.(time := now), a.(time := now + 2));
  }

  /** So of two entries of one host runs of one try only ever try the first, under every clock. */
  lemma SecondEntryStarves(first: Entry, second: Entry, files: Files, now: int)
    requires first.host == second.host && Acceptable(first) && Acceptable(second) && files(first.host) != Unreadable
    ensures
      var entries := [first, second];
      && Entries(Listed(entries, files)) == [first, second]
      && After(entries, files, [now])(first.host) != Unreadable
      && Entries(Listed(entries, After(entries, files, [now]))) == [first, second]
  {
    var entries := [first, second];
    var t := TimeOf(files(first.host));
    Two(entries, files, Item(first, t, 0), Item(second, t, 1));
    var files' := After(entries, files, [now]);
    AfterKeeps(entries, files, [now]);
    assert Listed(entries, files)[0] == Item(first, t, 0);
    var u := TimeOf(files'(first.host));
    Two(entries, files', Item(first, u, 0), Item(second, u, 1));
  }

  lemma Two(entries: seq<Entry>, files: Files, a: Item, b: Item)
    requires |entries| == 2 && Before(a, b) && a.line + b.line == 1
    requires IsSelected(entries, files, a) && IsSelected(entries, files, b)
    ensures Listed(entries, files) == [a, b]
  {
    hide Listed;
    var l := Listed(entries, files);
    ListedIsStableSort(entries, files);
    forall x
      ensures x in [a, b] <==> x in l
    {
      assert x in [a, b] <==> x == a || x == b;
    }
    SortedOnce([a, b], l);
  }

  // ----- Every host gets its turn -----

  /** Runs that try at least one host each, under a clock that ticks between any two touches. */
  ghost predicate Ticks(entries: seq<Entry>, files: Files, runs: seq<seq<int>>) {
    runs == [] ||
    (&& 0 < |runs[0]| <= |Listed(entries, files)| && Strict(Listed(entries, files), runs[0])
     && Ticks(entries, After(entries, files, runs[0]), runs[1..]))
  }

  function Hosts(items: seq<Item>): seq<CString> {
    seq(|items|, (i: nat) requires i < |items| => items[i].entry.host)
  }

  /** Some run tries the host. */
  ghost predicate TriedIn(entries: seq<Entry>, files: Files, runs: seq<seq<int>>, host: CString)
    requires Ticks(entries, files, runs)
  {
    && runs != []
    && (host in Hosts(Listed(entries, files))[..|runs[0]|]
        || TriedIn(entries, After(entries, files, runs[0]), runs[1..], host))
  }

  lemma {:induction false} PartIsShorter(a: seq<Item>, b: seq<Item>)
    requires Sorted(a) && Sorted(b) && forall x :: x in a ==> x in b
    ensures |a| <= |b|
  {
    if a != [] {
      assert a[0] in b;
      var j :| 0 <= j < |b| && b[j] == a[0];
      forall x | x in a[1..]
        ensures x in b[j + 1..]
      {
        assert Before(a[0], x) && x in b;
        var m :| 0 <= m < |b| && b[m] == x;
        assert m > j;
      }
      PartIsShorter(a[1..], b[j + 1..]);
    }
  }

  /** A host that a run does not try moves up by the number of hosts that it tries, or more. */
  lemma MovesUp(entries: seq<Entry>, files: Files, clock: seq<int>, p: nat) returns (q: nat)
    requires 0 < |clock| <= p < |Listed(entries, files)| && Strict(Listed(entries, files), clock)
    requires Listed(entries, files)[p].entry.host !in Hosts(Listed(entries, files))[..|clock|]
    ensures q <= p - |clock| && q < |Listed(entries, After(entries, files, clock))|
    ensures Listed(entries, After(entries, files, clock))[q] == Listed(entries, files)[p]
  {
    hide Listed, After, Kept;
    var l, k, files' := Listed(entries, files), |clock|, After(entries, files, clock);
    var next, x := Listed(entries, files'), l[p];
    ListedIsStableSort(entries, files);
    ListedIsStableSort(entries, files');
    AfterKeeps(entries, files, clock);
    forall i | 0 <= i < k
      ensures l[i].entry.host != x.entry.host
    {
      assert Hosts(l)[..k][i] == l[i].entry.host;
    }
    assert x in l && x in next;
    q :| 0 <= q < |next| && next[q] == x;
    forall y | y in next[..q]
      ensures y in l[k..p]
    {
      hide Strict, Sorted;
      PrecedesIn(next, q, y);
      NotTouched(entries, files, clock, y, x);
      Between(l, k, p, y);
    }
    PartIsShorter(next[..q], l[k..p]);
  }

  lemma PrecedesIn(l: seq<Item>, q: nat, y: Item)
    requires Sorted(l) && q < |l| && y in l[..q]
    ensures y in l && Before(y, l[q])
  {
  }

  lemma Between(l: seq<Item>, k: nat, p: nat, y: Item)
    requires Sorted(l) && k <= p < |l| && y in l && y !in l[..k] && Before(y, l[p])
    ensures y in l[k..p]
  {
    var m :| 0 <= m < |l| && l[m] == y;
    assert k <= m < p && l[k..p][m - k] == y;
  }

  /** What precedes a host that was not tried in the next list has not been tried either. */
  lemma NotTouched(entries: seq<Entry>, files: Files, clock: seq<int>, y: Item, x: Item)
    requires 0 < |clock| <= |Listed(entries, files)| && Strict(Listed(entries, files), clock)
    requires y in Listed(entries, After(entries, files, clock)) && Before(y, x) && x in Listed(entries, files)
    ensures y in Listed(entries, files) && y !in Listed(entries, files)[..|clock|]
  {
    hide Listed, After, Kept;
    var l, k, files' := Listed(entries, files), |clock|, After(entries, files, clock);
    ListedIsStableSort(entries, files);
    ListedIsStableSort(entries, files');
    AfterKeeps(entries, files, clock);
    if i :| 0 <= i < k && l[i].entry.host == y.entry.host {
      assert false;
    }
  }

  /** The host in place p is tried within p + 1 runs, however many hosts each run tries. */
  lemma {:induction false} TriedInTime(entries: seq<Entry>, files: Files, runs: seq<seq<int>>, p: nat)
    requires Ticks(entries, files, runs) && p < |runs| && p < |Listed(entries, files)|
    ensures TriedIn(entries, files, runs, Listed(entries, files)[p].entry.host)
    decreases |runs|
  {
    hide Listed, After, Strict;
    var l, k := Listed(entries, files), |runs[0]|;
    assert p < k ==> Hosts(l)[..k][p] == l[p].entry.host;
    if l[p].entry.host !in Hosts(l)[..k] {
      var q := MovesUp(entries, files, runs[0], p);
      TriedInTime(entries, After(entries, files, runs[0]), runs[1..], q);
    }
  }

  /** Each host of a list of n entries is tried within n runs. */
  lemma EveryHostIsTried(entries: seq<Entry>, files: Files, runs: seq<seq<int>>, host: CString)
    requires Ticks(entries, files, runs) && |runs| >= |Listed(entries, files)| && host in Hosts(Listed(entries, files))
    ensures TriedIn(entries, files, runs, host)
  {
    hide Listed;
    var p :| 0 <= p < |Listed(entries, files)| && Hosts(Listed(entries, files))[p] == host;
    TriedInTime(entries, files, runs, p);
  }
}
