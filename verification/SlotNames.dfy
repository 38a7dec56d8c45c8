/** The names of a slot table: first-match lookup by prefix, with the first empty slot taken when nothing matches. */
module SlotNames {
  import opened Text

  type Names = seq<CString>

  /** The part of a name that is compared and stored. */
  function Key(query: CString, cap: nat): CString {
    var k := if |query| < cap then |query| else cap;
    assert forall c :: c in query[..k] ==> c in query;
    query[..k]
  }

  /** strncmp over the length of the query: a slot matches when its name starts with it. */
  predicate Matches(query: CString, cap: nat, name: CString) {
    Key(query, cap) <= name
  }

  predicate Offers(names: Names, query: CString, cap: nat, i: nat)
    requires i < |names|
  {
    names[i] == "" || Matches(query, cap, names[i])
  }

  /** The first slot that is empty or matches, or the size of the table. */
  function Find(names: Names, query: CString, cap: nat): (i: nat)
    ensures i <= |names|
    ensures i < |names| ==> Offers(names, query, cap, i)
    ensures forall j :: 0 <= j < i ==> !Offers(names, query, cap, j)
  {
    FindFrom(names, query, cap, 0)
  }

  function FindFrom(names: Names, query: CString, cap: nat, from: nat): (i: nat)
    requires from <= |names|
    ensures from <= i <= |names|
    ensures i < |names| ==> Offers(names, query, cap, i)
    ensures forall j :: from <= j < i ==> !Offers(names, query, cap, j)
    decreases |names| - from
  {
    if from == |names| || Offers(names, query, cap, from) then from else FindFrom(names, query, cap, from + 1)
  }

  /** The slot of a name, or -1. */
  function Slot(names: Names, query: CString, cap: nat): (s: int)
    ensures -1 <= s < |names|
  {
    var i := Find(names, query, cap);
    if i == |names| then -1 else i
  }

  /** The table after a lookup: an empty slot that was found is taken. */
  function Claim(names: Names, query: CString, cap: nat): (r: Names)
    ensures |r| == |names|
  {
    var i := Find(names, query, cap);
    if i < |names| && names[i] == "" then names[i := Key(query, cap)] else names
  }

  function ClaimAll(names: Names, queries: seq<CString>, cap: nat): (r: Names)
    ensures |r| == |names|
  {
    if queries == [] then names
    else Claim(ClaimAll(names, queries[..|queries| - 1], cap), queries[|queries| - 1], cap)
  }

  // ----- The shape of the table -----

  /** The occupied slots come first, and no name starts with the name of a later slot. */
  predicate Shaped(names: Names) {
    && (forall i, j :: 0 <= i < j < |names| && names[j] != "" ==> names[i] != "")
    && (forall i, j :: 0 <= i < j < |names| && names[j] != "" ==> !(names[j] <= names[i]))
  }

  lemma ClaimKeepsShape(names: Names, query: CString, cap: nat)
    requires Shaped(names)
    ensures Shaped(Claim(names, query, cap))
    ensures forall i :: 0 <= i < |names| && names[i] != "" ==> Claim(names, query, cap)[i] == names[i]
  {
    var i := Find(names, query, cap);
    if i < |names| && names[i] == "" {
      var r := Claim(names, query, cap);
      forall a, b | 0 <= a < b < |names| && r[b] != ""
        ensures r[a] != "" && !(r[b] <= r[a])
      {
        if b == i {
          assert !Offers(names, query, cap, a);
        } else {
          assert names[b] != "" && names[a] != "";
        }
      }
    }
  }

  /** Whatever names are looked up, the table keeps its shape and a name once stored stays where it is. */
  lemma {:induction false} AlwaysShaped(names: Names, queries: seq<CString>, cap: nat)
    requires Shaped(names)
    ensures Shaped(ClaimAll(names, queries, cap))
    ensures forall i :: 0 <= i < |names| && names[i] != "" ==> ClaimAll(names, queries, cap)[i] == names[i]
  {
    if queries != [] {
      var n := |queries| - 1;
      AlwaysShaped(names, queries[..n], cap);
      ClaimKeepsShape(ClaimAll(names, queries[..n], cap), queries[n], cap);
    }
  }

  lemma EmptyIsShaped(n: nat)
    ensures Shaped(seq(n, _ => ""))
  {
  }

  // ----- What a lookup answers, now and later -----

  /** -1 says exactly that every slot is taken and none matches. */
  lemma FullWithoutMatch(names: Names, query: CString, cap: nat)
    ensures Slot(names, query, cap) == -1 <==>
            forall i :: 0 <= i < |names| ==> names[i] != "" && !Matches(query, cap, names[i])
  {
    var f := Find(names, query, cap);
    if f == |names| {
      forall i | 0 <= i < |names|
        ensures names[i] != "" && !Matches(query, cap, names[i])
      {
        assert !Offers(names, query, cap, i);
      }
    }
  }

  /** Slot i is taken, it matches, and the slots before it are taken and do not. */
  predicate Settled(names: Names, query: CString, cap: nat, i: nat) {
    && i < |names| && names[i] != "" && Matches(query, cap, names[i])
    && forall j :: 0 <= j < i ==> names[j] != "" && !Matches(query, cap, names[j])
  }

  lemma SettledIsSlot(names: Names, query: CString, cap: nat, i: nat)
    requires Settled(names, query, cap, i)
    ensures Slot(names, query, cap) == i && Claim(names, query, cap) == names
  {
    var f := Find(names, query, cap);
    assert Offers(names, query, cap, i);
    assert f >= i;
  }

  lemma ClaimSettles(names: Names, query: CString, cap: nat)
    requires query != "" && cap > 0 && Slot(names, query, cap) != -1
    ensures Settled(Claim(names, query, cap), query, cap, Slot(names, query, cap))
  {
    var i := Find(names, query, cap);
    var r := Claim(names, query, cap);
    forall j | 0 <= j < i
      ensures r[j] != "" && !Matches(query, cap, r[j])
    {
      assert !Offers(names, query, cap, j);
    }
  }

  /** A name that was resolved once is resolved to the same slot ever after, whatever was looked up in between. */
  lemma ResolvedForGood(names: Names, query: CString, cap: nat, between: seq<CString>)
    requires Shaped(names) && query != "" && cap > 0
    ensures
      var i := Slot(names, query, cap);
      i != -1 ==> Slot(ClaimAll(Claim(names, query, cap), between, cap), query, cap) == i
  {
    var i := Slot(names, query, cap);
    if i != -1 {
      var now := Claim(names, query, cap);
      ClaimSettles(names, query, cap);
      ClaimKeepsShape(names, query, cap);
      AlwaysShaped(now, between, cap);
      SettledIsSlot(ClaimAll(now, between, cap), query, cap, i);
    }
  }

  /** A name that found the table full will always find it full. */
  lemma RefusedForGood(names: Names, query: CString, cap: nat, between: seq<CString>)
    requires Shaped(names) && Slot(names, query, cap) == -1
    ensures Slot(ClaimAll(names, between, cap), query, cap) == -1
  {
    FullWithoutMatch(names, query, cap);
    AlwaysShaped(names, between, cap);
    FullWithoutMatch(ClaimAll(names, between, cap), query, cap);
  }

  /** In a table that starts empty a name and a prefix of it that comes later share the first slot. */
  lemma PrefixSharesSlot(empty: Names, full: CString, short: CString, cap: nat)
    requires empty != [] && (forall i :: 0 <= i < |empty| ==> empty[i] == "")
    requires short != "" && short <= full && |full| <= cap
    ensures
      var names := Claim(empty, full, cap);
      Slot(empty, full, cap) == 0 && Slot(names, short, cap) == 0 && Claim(names, short, cap) == names
  {
    assert Offers(empty, full, cap, 0);
    assert Find(empty, full, cap) == 0;
    assert Key(full, cap) == full && Key(short, cap) == short;
    SettledIsSlot(Claim(empty, full, cap), short, cap, 0);
  }
}
