/**
  When two names share a slot. The lookups start from an empty table; two of them with different names end in one slot
  exactly if some name is looked up for the first time after a longer one that starts with it and has a slot.
 */
module SlotSharing {
  import opened Text
  import opened SlotNames

  function Empty(n: nat): (names: Names)
    ensures |names| == n
  {
    seq(n, _ => "")
  }

  /** The table before lookup number i. */
  function Before(n: nat, queries: seq<CString>, cap: nat, i: nat): (names: Names)
    requires i <= |queries|
    ensures |names| == n
  {
    ClaimAll(Empty(n), queries[..i], cap)
  }

  function SlotOf(n: nat, queries: seq<CString>, cap: nat, i: nat): (s: int)
    requires i < |queries|
    ensures -1 <= s < n
  {
    Slot(Before(n, queries, cap, i), queries[i], cap)
  }

  function KeyOf(queries: seq<CString>, cap: nat, i: nat): CString
    requires i < |queries|
  {
    Key(queries[i], cap)
  }

  /** The lookup is for a name and finds a slot; otherwise the table is full. */
  predicate Resolves(n: nat, queries: seq<CString>, cap: nat, i: nat)
    requires i < |queries|
  {
    cap > 0 && queries[i] != "" && SlotOf(n, queries, cap, i) != -1
  }

  predicate Share(n: nat, queries: seq<CString>, cap: nat, i: nat, j: nat)
    requires i < |queries| && j < |queries|
  {
    && KeyOf(queries, cap, i) != KeyOf(queries, cap, j)
    && SlotOf(n, queries, cap, i) == SlotOf(n, queries, cap, j) != -1
  }

  /** The name of lookup j has not been looked up before. */
  predicate FirstLookup(queries: seq<CString>, cap: nat, j: nat)
    requires j < |queries|
  {
    forall m :: 0 <= m < j ==> KeyOf(queries, cap, m) != KeyOf(queries, cap, j)
  }

  /** Lookup j is the first of its name, and comes after a longer name that starts with it and found a slot. */
  predicate ShorterLater(n: nat, queries: seq<CString>, cap: nat, i: nat, j: nat)
    requires i < |queries| && j < |queries|
  {
    && i < j && KeyOf(queries, cap, j) < KeyOf(queries, cap, i) && FirstLookup(queries, cap, j)
    && SlotOf(n, queries, cap, i) != -1
  }

  // ----- The table as it grows -----

  lemma BeforeNext(n: nat, queries: seq<CString>, cap: nat, i: nat)
    requires i < |queries|
    ensures Before(n, queries, cap, i + 1) == Claim(Before(n, queries, cap, i), queries[i], cap)
  {
    assert queries[..i + 1][..i] == queries[..i] && queries[..i + 1][i] == queries[i];
  }

  /** Starting empty, the table is always in shape. */
  lemma {:induction false} ShapedFromEmpty(n: nat, queries: seq<CString>, cap: nat, i: nat)
    requires i <= |queries|
    ensures Shaped(Before(n, queries, cap, i))
  {
    EmptyIsShaped(n);
    AlwaysShaped(Empty(n), queries[..i], cap);
  }

  /** A stored name stays. */
  lemma {:induction false} StoredStays(n: nat, queries: seq<CString>, cap: nat, i: nat, j: nat, s: nat)
    requires i <= j <= |queries| && s < n && Before(n, queries, cap, i)[s] != ""
    ensures Before(n, queries, cap, j)[s] == Before(n, queries, cap, i)[s]
    decreases j
  {
    hide Claim, ClaimAll;
    if i < j {
      StoredStays(n, queries, cap, i, j - 1, s);
      BeforeNext(n, queries, cap, j - 1);
      ShapedFromEmpty(n, queries, cap, j - 1);
      ClaimKeepsShape(Before(n, queries, cap, j - 1), queries[j - 1], cap);
    }
  }

  /** A slot that was found is settled from then on. */
  lemma {:induction false} StaysSettled(n: nat, queries: seq<CString>, cap: nat, i: nat, j: nat)
    requires i < j <= |queries| && Resolves(n, queries, cap, i)
    ensures Settled(Before(n, queries, cap, j), queries[i], cap, SlotOf(n, queries, cap, i))
    decreases j
  {
    hide Claim, Settled, Before, ClaimAll, Slot;
    BeforeNext(n, queries, cap, j - 1);
    ShapedFromEmpty(n, queries, cap, j - 1);
    if i == j - 1 {
      ClaimSettles(Before(n, queries, cap, i), queries[i], cap);
    } else {
      StaysSettled(n, queries, cap, i, j - 1);
      SettledStays(Before(n, queries, cap, j - 1), queries[i], cap, SlotOf(n, queries, cap, i), queries[j - 1]);
    }
  }

  lemma SettledStays(names: Names, query: CString, cap: nat, s: nat, other: CString)
    requires Shaped(names) && Settled(names, query, cap, s)
    ensures Settled(Claim(names, other, cap), query, cap, s)
  {
    ClaimKeepsShape(names, other, cap);
  }

  /** Every stored name is that of an earlier lookup, which found the slot empty. */
  lemma {:induction false} StoredByLookup(n: nat, queries: seq<CString>, cap: nat, t: nat, s: nat) returns (m: nat)
    requires t <= |queries| && s < n && Before(n, queries, cap, t)[s] != ""
    ensures m < t && Before(n, queries, cap, m)[s] == "" && Before(n, queries, cap, t)[s] == KeyOf(queries, cap, m)
    ensures SlotOf(n, queries, cap, m) == s
    decreases t
  {
    assert Before(n, queries, cap, 0) == Empty(n);
    if t > 0 {
      BeforeNext(n, queries, cap, t - 1);
      if Before(n, queries, cap, t - 1)[s] == "" {
        m := t - 1;
      } else {
        m := StoredByLookup(n, queries, cap, t - 1, s);
        StoredStays(n, queries, cap, t - 1, t, s);
      }
    }
  }

  /** A lookup takes an empty slot exactly if no stored name starts with its own. */
  lemma NewExactly(names: Names, query: CString, cap: nat)
    requires Shaped(names) && Slot(names, query, cap) != -1
    ensures names[Slot(names, query, cap)] == "" <==>
            forall i :: 0 <= i < |names| && names[i] != "" ==> !Matches(query, cap, names[i])
  {
    var f := Find(names, query, cap);
    forall i | 0 <= i < f
      ensures !Matches(query, cap, names[i])
    {
      assert !Offers(names, query, cap, i);
    }
  }

  /** Lookups of one name find one slot. */
  lemma SameKeySameSlot(n: nat, queries: seq<CString>, cap: nat, i: nat, j: nat)
    requires i < |queries| && j < |queries| && KeyOf(queries, cap, i) == KeyOf(queries, cap, j)
    requires Resolves(n, queries, cap, i) && Resolves(n, queries, cap, j)
    ensures SlotOf(n, queries, cap, i) == SlotOf(n, queries, cap, j)
  {
    var end := Before(n, queries, cap, |queries|);
    StaysSettled(n, queries, cap, i, |queries|);
    StaysSettled(n, queries, cap, j, |queries|);
    SettledOnce(end, queries[i], queries[j], cap, SlotOf(n, queries, cap, i), SlotOf(n, queries, cap, j));
  }

  lemma SettledOnce(names: Names, a: CString, b: CString, cap: nat, s: nat, t: nat)
    requires Settled(names, a, cap, s) && Settled(names, b, cap, t) && Key(a, cap) == Key(b, cap)
    ensures s == t
  {
    assert Matches(a, cap, names[s]) && Matches(b, cap, names[s]) && Matches(a, cap, names[t]);
  }

  ghost function FirstOf(queries: seq<CString>, cap: nat, x: nat): (j: nat)
    requires x < |queries|
    ensures j <= x && KeyOf(queries, cap, j) == KeyOf(queries, cap, x) && FirstLookup(queries, cap, j)
  {
    if m :| 0 <= m < x && KeyOf(queries, cap, m) == KeyOf(queries, cap, x) then FirstOf(queries, cap, m) else x
  }

  /** A lookup that finds the table full is not stored, and no later lookup of its name finds a slot. */
  lemma StaysRefused(n: nat, queries: seq<CString>, cap: nat, i: nat, j: nat)
    requires i <= j < |queries| && KeyOf(queries, cap, i) == KeyOf(queries, cap, j)
    requires SlotOf(n, queries, cap, i) == -1
    ensures SlotOf(n, queries, cap, j) == -1 && Before(n, queries, cap, j) == Before(n, queries, cap, i)
  {
    hide Claim, ClaimAll, Slot;
    var was, now := Before(n, queries, cap, i), Before(n, queries, cap, j);
    FullWithoutMatch(was, queries[i], cap);
    FullWithoutMatch(now, queries[j], cap);
    forall s | 0 <= s < n
      ensures now[s] == was[s]
    {
      StoredStays(n, queries, cap, i, j, s);
    }
  }

  // ----- Sharing -----

  /** Every lookup is for a name. */
  predicate Named(queries: seq<CString>, cap: nat) {
    cap > 0 && forall i :: 0 <= i < |queries| ==> queries[i] != ""
  }

  lemma SharedIfShorterLater(n: nat, queries: seq<CString>, cap: nat, i: nat, j: nat) returns (m: nat)
    requires Named(queries, cap) && i < |queries| && j < |queries| && ShorterLater(n, queries, cap, i, j)
    ensures m < |queries| && Share(n, queries, cap, m, j)
  {
    var names, s, t := Before(n, queries, cap, j), SlotOf(n, queries, cap, j), SlotOf(n, queries, cap, i);
    StaysSettled(n, queries, cap, i, j);
    assert Matches(queries[j], cap, names[t]);
    ShapedFromEmpty(n, queries, cap, j);
    FullWithoutMatch(names, queries[j], cap);
    NewExactly(names, queries[j], cap);
    m := StoredByLookup(n, queries, cap, j, s);
  }

  lemma ShorterLaterIfShared(n: nat, queries: seq<CString>, cap: nat, i: nat, j: nat) returns (m: nat, x: nat)
    requires Named(queries, cap) && i < |queries| && j < |queries| && Share(n, queries, cap, i, j)
    ensures m < |queries| && x < |queries| && ShorterLater(n, queries, cap, m, x)
  {
    var end, s := Before(n, queries, cap, |queries|), SlotOf(n, queries, cap, i);
    StaysSettled(n, queries, cap, i, |queries|);
    StaysSettled(n, queries, cap, j, |queries|);
    m := StoredByLookup(n, queries, cap, |queries|, s);
    var y := if KeyOf(queries, cap, i) == end[s] then j else i;
    x := FirstOf(queries, cap, y);
    if SlotOf(n, queries, cap, x) == -1 {
      StaysRefused(n, queries, cap, x, y);
      assert false;
    }
    SameKeySameSlot(n, queries, cap, x, y);
    assert KeyOf(queries, cap, x) < KeyOf(queries, cap, m);
    if x < m {
      StaysSettled(n, queries, cap, x, m);
      assert false;
    }
  }

  /**
    Two lookups share a slot under different names exactly if a name is first looked up after one that extends it and
    has a slot. Lookups that find the table full play no part.
   */
  lemma SharedExactly(n: nat, queries: seq<CString>, cap: nat)
    requires Named(queries, cap)
    ensures (exists i: nat, j: nat :: i < |queries| && j < |queries| && Share(n, queries, cap, i, j)) <==>
            (exists i: nat, j: nat :: i < |queries| && j < |queries| && ShorterLater(n, queries, cap, i, j))
  {
    if i: nat, j: nat :| i < |queries| && j < |queries| && Share(n, queries, cap, i, j) {
      var m, x := ShorterLaterIfShared(n, queries, cap, i, j);
    }
    if i: nat, j: nat :| i < |queries| && j < |queries| && ShorterLater(n, queries, cap, i, j) {
      var m := SharedIfShorterLater(n, queries, cap, i, j);
    }
  }

  /** Two call signs that do: the longer one first, then its prefix. */
  lemma CallSignsShare()
    ensures var queries := ["N0CALL-10", "N0CALL-1"]; Share(10, queries, 9, 0, 1)
  {
    hide Claim, Slot;
    var full: CString, short: CString := "N0CALL-10", "N0CALL-1";
    var queries := [full, short];
    assert full[..8] == short;
    PrefixSharesSlot(Empty(10), full, short, 9);
    assert queries[..0] == [];
    assert Before(10, queries, 9, 0) == Empty(10);
    BeforeNext(10, queries, 9, 0);
  }
}
