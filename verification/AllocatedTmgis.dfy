/** What an allocated TMGI has: the identity of an entry of the answer, and the expiry time of the answer. */
module AllocatedTmgis {
  import opened Options
  import opened TmgiAllocation

  /** The entry's service id and network, the time given, and that it has been allocated. */
  predicate Has(v: Value, e: Entry, expiry: int) {
    v.serviceId == e.serviceId && v.plmn == e.plmn && v.expiry == expiry && v.isAllocated
  }

  /** New identities: the blank TMGI at position i gets the entry with as many entries before it as there are blanks before. */
  lemma BlankGets(vs: seq<Value>, entries: seq<Entry>, expiry: int, i: nat)
    requires Unheld(vs, entries) && i < |vs|
    ensures var r, k := AssignAll(vs, Listed(entries), expiry), BlanksBefore(vs, i);
      if Blank(vs[i]) && k < |entries| then Has(r[i], entries[k], expiry) else r[i] == vs[i]
  {
    AllocationDeals(vs, entries, expiry);
    DealtAt(vs, entries, expiry, i);
  }

  /** The entry was one of the list, before any null one. */
  predicate Reached(entries: seq<Option<Entry>>, n: nat) {
    n < |entries| && forall i :: 0 <= i <= n ==> entries[i].Some?
  }

  /** In every allocation, a TMGI that is not as before has the identity of an entry and the expiry time of the answer. */
  lemma {:induction false} ChangedHas(vs: seq<Value>, entries: seq<Option<Entry>>, expiry: int, i: nat)
    requires i < |vs|
    ensures var r := AssignAll(vs, entries, expiry);
      r[i] == vs[i] || exists n: nat :: Reached(entries, n) && Has(r[i], entries[n].value, expiry)
    decreases |entries|
  {
    if entries != [] && entries[0].Some? {
      var e, ws, r := entries[0].value, Assign(vs, entries[0].value, expiry), AssignAll(vs, entries, expiry);
      ChangedHas(ws, entries[1..], expiry, i);
      if r[i] == ws[i] {
        if ws[i] != vs[i] {
          assert Reached(entries, 0) && Has(r[i], entries[0].value, expiry);
        }
      } else {
        var n: nat :| Reached(entries[1..], n) && Has(r[i], entries[1..][n].value, expiry);
        forall m | 0 <= m <= n + 1
          ensures entries[m].Some?
        {
          assert m > 0 ==> entries[m] == entries[1..][m - 1];
        }
        assert Reached(entries, n + 1) && entries[n + 1] == entries[1..][n];
      }
    }
  }

  /** One entry: its first match has it afterwards, and every other TMGI is as before. */
  lemma FirstMatchHas(vs: seq<Value>, e: Entry, expiry: int, i: nat)
    requires i < |vs|
    ensures var r := AssignAll(vs, [Some(e)], expiry);
      if Matches(vs[i], e) && forall j :: 0 <= j < i ==> !Matches(vs[j], e) then Has(r[i], e, expiry) else r[i] == vs[i]
  {
    var r := AssignAll(vs, [Some(e)], expiry);
    var none: seq<Option<Entry>> := [Some(e)][1..];
    assert none == [] && AssignAll(Assign(vs, e, expiry), none, expiry) == Assign(vs, e, expiry);
    assert r == Assign(vs, e, expiry);
    if Matches(vs[i], e) && forall j :: 0 <= j < i ==> !Matches(vs[j], e) {
      FirstMatchIs(vs, e, i);
    }
  }

  /** Who is told of a failed request, in the order of its entries. */
  lemma {:induction false} ToldInOrder(vs: seq<Value>, x: seq<Option<Entry>>, y: seq<Option<Entry>>)
    ensures Told(vs, x + y) == Told(vs, x) + Told(vs, y)
  {
    if x == [] {
      assert x + y == y;
    } else {
      assert (x + y)[0] == x[0] && (x + y)[1..] == x[1..] + y;
      ToldInOrder(vs, x[1..], y);
      ToldNext(vs, x + y, 0);
      ToldNext(vs, x, 0);
      assert (x + y)[0..] == x + y && x[0..] == x;
    }
  }

  /** A deallocation takes out the first match and closes the gap; without a match nothing is taken out. */
  lemma RemovedIs(vs: seq<Value>, e: Entry, i: nat)
    ensures (forall j :: 0 <= j < |vs| ==> !Matches(vs[j], e)) ==> Removed(vs, e) == vs
    ensures i < |vs| && Matches(vs[i], e) && (forall j :: 0 <= j < i ==> !Matches(vs[j], e)) ==>
              && |Removed(vs, e)| == |vs| - 1
              && forall j :: 0 <= j < |vs| - 1 ==> Removed(vs, e)[j] == vs[if j < i then j else j + 1]
  {
    if i < |vs| && Matches(vs[i], e) && forall j :: 0 <= j < i ==> !Matches(vs[j], e) {
      FirstMatchIs(vs, e, i);
    }
  }
}
