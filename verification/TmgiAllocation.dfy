/**
 Assignment of allocated TMGIs. The answer to an allocation request lists TMGIs; each entry goes to the first
 TMGI of the context that matches it. Deallocation removes the first match of each entry.
 */
module TmgiAllocation {
  import opened Options
  import opened ServiceAreas
  import opened ListEquality
  import Sequences

  /** What is known of a TMGI; one that has been given any attribute counts as allocated. */
  datatype Value = Value(serviceId: Option<string>, plmn: Plmn, expiry: int, isAllocated: bool)

  datatype Entry = Entry(serviceId: Option<string>, plmn: Plmn)

  class Tmgi {
    var serviceId: Option<string>
    var plmn: Plmn
    var expiry: int
    var isAllocated: bool

    function Get(): Value
      reads this
    {
      Value(serviceId, plmn, expiry, isAllocated)
    }

    constructor ()
      ensures Get() == Value(None, Plmn(0, 0), 0, false)
    {
      serviceId, plmn, expiry, isAllocated := None, Plmn(0, 0), 0, false;
    }

    method SetServiceId(id: Option<string>)
      modifies this
      ensures Get() == old(Get()).(serviceId := id, isAllocated := true)
    {
      isAllocated := true;
      if serviceId != id {
        serviceId := id;
      }
    }

    method SetPlmn(p: Plmn)
      modifies this
      ensures Get() == old(Get()).(plmn := p, isAllocated := true)
    {
      isAllocated := true;
      if plmn.mcc != p.mcc || plmn.mnc != p.mnc {
        plmn := p;
      }
    }

    method SetExpiry(time: int)
      modifies this
      ensures Get() == old(Get()).(expiry := time, isAllocated := true)
    {
      isAllocated := true;
      if expiry != time {
        expiry := time;
      }
    }

    /** A copy takes over the attributes, but not that they have been allocated. */
    method CopyFrom(src: Tmgi)
      modifies this
      ensures Get() == old(src.Get()).(isAllocated := old(isAllocated))
    {
      if src == this {
        return;
      }
      serviceId, plmn, expiry := src.serviceId, src.plmn, src.expiry;
    }
  }

  // ---------- Matching ----------

  /** An entry with an id matches a TMGI with that id, or one that has neither an id nor anything else yet. */
  predicate Matches(v: Value, e: Entry) {
    && (if e.serviceId.Some? then (if v.serviceId.Some? then v.serviceId == e.serviceId else !v.isAllocated)
        else v.serviceId.None?)
    && (v.isAllocated ==> v.plmn == e.plmn)
  }

  function FirstMatch(vs: seq<Value>, e: Entry): (r: Option<nat>)
    ensures r.Some? ==> r.value < |vs| && Matches(vs[r.value], e) && forall i :: 0 <= i < r.value ==> !Matches(vs[i], e)
    ensures r.None? ==> forall i :: 0 <= i < |vs| ==> !Matches(vs[i], e)
  {
    if vs == [] then None
    else if Matches(vs[0], e) then Some(0)
    else
      var i :- FirstMatch(vs[1..], e);
      Some(i + 1)
  }

  function Assigned(e: Entry, expiry: int): Value {
    Value(e.serviceId, e.plmn, expiry, true)
  }

  function Assign(vs: seq<Value>, e: Entry, expiry: int): (r: seq<Value>)
    ensures |r| == |vs|
  {
    var i := FirstMatch(vs, e);
    if i.None? then vs else vs[i.value := Assigned(e, expiry)]
  }

  /** Entries are handled in order up to the first that is null. */
  function AssignAll(vs: seq<Value>, entries: seq<Option<Entry>>, expiry: int): (r: seq<Value>)
    ensures |r| == |vs|
    decreases |entries|
  {
    if entries == [] || entries[0].None? then vs
    else AssignAll(Assign(vs, entries[0].value, expiry), entries[1..], expiry)
  }

  // ---------- The context's list ----------

  predicate Distinct(tmgis: seq<Tmgi>) {
    forall i, j :: 0 <= i < j < |tmgis| ==> tmgis[i] != tmgis[j]
  }

  function Values(tmgis: seq<Tmgi>): (r: seq<Value>)
    reads tmgis
    ensures |r| == |tmgis|
    ensures forall i :: 0 <= i < |tmgis| ==> r[i] == tmgis[i].Get()
  {
    if tmgis == [] then [] else [tmgis[0].Get()] + Values(tmgis[1..])
  }

  method FindMatching(tmgis: seq<Tmgi>, e: Entry) returns (found: Option<nat>)
    ensures found == FirstMatch(Values(tmgis), e)
  {
    var i := 0;
    while i < |tmgis|
      invariant 0 <= i <= |tmgis|
      invariant forall j :: 0 <= j < i ==> !Matches(tmgis[j].Get(), e)
    {
      var t := tmgis[i];
      if e.serviceId.Some? {
        if t.serviceId.Some? {
          if e.serviceId != t.serviceId {
            i := i + 1;
            continue;
          }
        } else if t.isAllocated {
          i := i + 1;
          continue;
        }
      } else if t.serviceId.Some? {
        i := i + 1;
        continue;
      }
      if t.isAllocated && t.plmn != e.plmn {
        i := i + 1;
        continue;
      }
      FirstMatchIs(Values(tmgis), e, i);
      return Some(i);
    }
    return None;
  }

  lemma FirstMatchIs(vs: seq<Value>, e: Entry, i: nat)
    requires i < |vs| && Matches(vs[i], e) && forall j :: 0 <= j < i ==> !Matches(vs[j], e)
    ensures FirstMatch(vs, e) == Some(i)
  {
  }

  /** The list of a successful answer; a null entry ends it with an error. */
  method Allocate(tmgis: seq<Tmgi>, entries: seq<Option<Entry>>, expiry: int) returns (ok: bool)
    requires Distinct(tmgis)
    modifies tmgis
    ensures Values(tmgis) == AssignAll(old(Values(tmgis)), entries, expiry)
    ensures ok <==> None !in entries
  {
    for i := 0 to |entries|
      invariant AssignAll(Values(tmgis), entries[i..], expiry) == AssignAll(old(Values(tmgis)), entries, expiry)
      invariant None !in entries[..i]
    {
      assert entries[i..][1..] == entries[i + 1..] && entries[..i + 1] == entries[..i] + [entries[i]];
      if entries[i].None? {
        return false;
      }
      AssignOne(tmgis, entries[i].value, expiry);
    }
    assert entries[..|entries|] == entries;
    return true;
  }

  method AssignOne(tmgis: seq<Tmgi>, e: Entry, expiry: int)
    requires Distinct(tmgis)
    modifies tmgis
    ensures Values(tmgis) == Assign(old(Values(tmgis)), e, expiry)
  {
    var found := FindMatching(tmgis, e);
    if found.Some? {
      var t := tmgis[found.value];
      t.SetServiceId(e.serviceId);
      t.SetPlmn(e.plmn);
      t.SetExpiry(expiry);
      assert forall i :: 0 <= i < |tmgis| && i != found.value ==> tmgis[i] != t;
    }
  }

  /** The body of a successful answer: the list may be missing, the expiry time missing or malformed. */
  datatype Answer = Answer(list: Option<seq<Option<Entry>>>, expiry: Option<int>)

  predicate Usable(status: int, answer: Option<Answer>) {
    200 <= status < 300 && answer.Some? && answer.value.list.Some? && answer.value.list.value != []
  }

  /** The positions of the TMGIs that are told that the request failed: the first match of each entry of the request. */
  function Told(vs: seq<Value>, entries: seq<Option<Entry>>): seq<nat> {
    if entries == [] then []
    else
      var i := if entries[0].Some? then FirstMatch(vs, entries[0].value) else None;
      (if i.Some? then [i.value] else []) + Told(vs, entries[1..])
  }

  lemma ToldNext(vs: seq<Value>, entries: seq<Option<Entry>>, n: nat)
    requires n < |entries|
    ensures var i := if entries[n].Some? then FirstMatch(vs, entries[n].value) else None;
      Told(vs, entries[n..]) == (if i.Some? then [i.value] else []) + Told(vs, entries[n + 1..])
  {
    assert entries[n..][0] == entries[n] && entries[n..][1..] == entries[n + 1..];
  }

  method TellFailed(tmgis: seq<Tmgi>, entries: seq<Option<Entry>>) returns (failed: seq<nat>)
    ensures failed == Told(Values(tmgis), entries)
  {
    failed := [];
    assert entries[0..] == entries;
    for n := 0 to |entries|
      invariant failed + Told(Values(tmgis), entries[n..]) == Told(Values(tmgis), entries)
    {
      ToldNext(Values(tmgis), entries, n);
      var told := TellOne(tmgis, entries[n]);
      Sequences.Regroup(failed, told, Told(Values(tmgis), entries[n + 1..]));
      failed := failed + told;
    }
    assert entries[|entries|..] == [] && failed + [] == failed;
  }

  method TellOne(tmgis: seq<Tmgi>, entry: Option<Entry>) returns (told: seq<nat>)
    ensures told == var i := if entry.Some? then FirstMatch(Values(tmgis), entry.value) else None;
                    if i.Some? then [i.value] else []
  {
    told := [];
    if entry.Some? {
      var i := FindMatching(tmgis, entry.value);
      if i.Some? {
        told := [i.value];
      }
    }
  }

  /** A TMGI is told if and only if it is the first match of an entry. */
  lemma {:induction false} ToldMeans(vs: seq<Value>, entries: seq<Option<Entry>>, i: nat)
    ensures i in Told(vs, entries) <==>
            exists n :: 0 <= n < |entries| && entries[n].Some? && FirstMatch(vs, entries[n].value) == Some(i)
  {
    if entries != [] {
      ToldMeans(vs, entries[1..], i);
      assert forall n :: 1 <= n < |entries| ==> entries[n] == entries[1..][n - 1];
    }
  }

  /**
   Only a success with entries assigns anything; an expiry time that is not understood counts as 0. On an error the
   entries of the request, if it can be read back, are told.
   */
  method AllocationResponse(tmgis: seq<Tmgi>, status: int, answer: Option<Answer>, request: Option<seq<Option<Entry>>>)
    returns (ok: bool, failed: seq<nat>)
    requires Distinct(tmgis)
    modifies tmgis
    ensures Values(tmgis) == if Usable(status, answer)
                             then AssignAll(old(Values(tmgis)), answer.value.list.value,
                                            if answer.value.expiry.Some? then answer.value.expiry.value else 0)
                             else old(Values(tmgis))
    ensures ok <==> if 200 <= status < 300 then Usable(status, answer) && None !in answer.value.list.value else request.Some?
    ensures failed == if !(200 <= status < 300) && request.Some? then Told(old(Values(tmgis)), request.value) else []
  {
    if status < 200 || status >= 300 {
      if request.None? {
        return false, [];
      }
      failed := TellFailed(tmgis, request.value);
      return true, failed;
    }
    failed := [];
    if answer.None? || answer.value.list.None? || |answer.value.list.value| < 1 {
      return false, [];
    }
    var expiry := 0;
    if answer.value.expiry.Some? {
      expiry := answer.value.expiry.value;
    }
    ok := Allocate(tmgis, answer.value.list.value, expiry);
  }

  // ---------- What an allocation assigns ----------

  /** Identified by service id and network. */
  predicate Holds(v: Value, e: Entry) {
    v.isAllocated && v.serviceId == e.serviceId && v.plmn == e.plmn
  }

  /** No two TMGIs with a service id have the same identity. */
  predicate Unique(vs: seq<Value>) {
    forall i, j :: 0 <= i < j < |vs| && vs[i].isAllocated && vs[i].serviceId.Some? ==>
      !Holds(vs[j], Entry(vs[i].serviceId, vs[i].plmn))
  }

  /** A TMGI that waits for its allocation. */
  predicate Blank(v: Value) {
    !v.isAllocated && v.serviceId.None?
  }

  /** Not allocated, but with the id: a copy of a TMGI. The network is not looked at. */
  predicate Twin(v: Value, e: Entry) {
    !v.isAllocated && e.serviceId.Some? && v.serviceId == e.serviceId
  }

  /** What an entry with an id matches: its holder, a blank TMGI, or a copy with its id. */
  lemma MatchesMeans(v: Value, e: Entry)
    requires e.serviceId.Some?
    ensures Matches(v, e) <==> Holds(v, e) || Blank(v) || Twin(v, e)
  {
  }

  /** Position of the first blank TMGI, or the length. */
  function FirstBlank(vs: seq<Value>): (n: nat)
    ensures n <= |vs|
    ensures forall i :: 0 <= i < n ==> !Blank(vs[i])
    ensures n < |vs| ==> Blank(vs[n])
  {
    if vs == [] then 0 else if Blank(vs[0]) then 0 else 1 + FirstBlank(vs[1..])
  }

  /** The entries go, in order, to the blank TMGIs, in order, one each, as long as both last. */
  function Dealt(vs: seq<Value>, entries: seq<Entry>, expiry: int): (r: seq<Value>)
    ensures |r| == |vs|
  {
    if vs == [] || entries == [] then vs
    else if Blank(vs[0]) then [Assigned(entries[0], expiry)] + Dealt(vs[1..], entries[1..], expiry)
    else [vs[0]] + Dealt(vs[1..], entries, expiry)
  }

  function Listed(entries: seq<Entry>): (r: seq<Option<Entry>>)
    ensures |r| == |entries|
  {
    seq(|entries|, i requires 0 <= i < |entries| => Some(entries[i]))
  }

  /** Entries with different identities that no TMGI of the context holds yet, and that no copy has the id of. */
  predicate Unheld(vs: seq<Value>, entries: seq<Entry>) {
    && (forall i :: 0 <= i < |entries| ==> entries[i].serviceId.Some?)
    && (forall i, j :: 0 <= i < j < |entries| ==> entries[i] != entries[j])
    && (forall i, j :: 0 <= i < |vs| && 0 <= j < |entries| ==> !Holds(vs[i], entries[j]) && !Twin(vs[i], entries[j]))
  }

  /**
   An entry goes to the first blank TMGI, or to nobody when there is none, if and only if neither its holder nor a copy
   with its id comes earlier in the context.
   */
  lemma GoesToFirstBlank(vs: seq<Value>, e: Entry)
    requires e.serviceId.Some?
    ensures FirstMatch(vs, e) == (if FirstBlank(vs) < |vs| then Some(FirstBlank(vs)) else None) <==>
            forall i :: 0 <= i < FirstBlank(vs) ==> !Holds(vs[i], e) && !Twin(vs[i], e)
  {
    var n := FirstBlank(vs);
    forall i | 0 <= i < |vs|
      ensures Matches(vs[i], e) <==> Holds(vs[i], e) || Blank(vs[i]) || Twin(vs[i], e)
    {
      MatchesMeans(vs[i], e);
    }
    if forall i :: 0 <= i < n ==> !Holds(vs[i], e) && !Twin(vs[i], e) {
      if n < |vs| {
        FirstMatchIs(vs, e, n);
      }
    }
  }

  /** A copy with the entry's id takes it, whatever its network, if it comes before any blank TMGI, holder or other copy. */
  lemma TwinTakes(vs: seq<Value>, e: Entry, t: nat)
    requires t < |vs| && Twin(vs[t], e)
    ensures FirstMatch(vs, e) == Some(t) <==>
            forall i :: 0 <= i < t ==> !Holds(vs[i], e) && !Blank(vs[i]) && !Twin(vs[i], e)
  {
    forall i | 0 <= i < |vs|
      ensures Matches(vs[i], e) <==> Holds(vs[i], e) || Blank(vs[i]) || Twin(vs[i], e)
    {
      MatchesMeans(vs[i], e);
    }
    if forall i :: 0 <= i < t ==> !Holds(vs[i], e) && !Blank(vs[i]) && !Twin(vs[i], e) {
      FirstMatchIs(vs, e, t);
    }
  }

  lemma {:induction false} DealtOneFirst(vs: seq<Value>, entries: seq<Entry>, expiry: int)
    requires entries != []
    ensures var n := FirstBlank(vs);
      Dealt(vs, entries, expiry) ==
      if n == |vs| then vs else Dealt(vs[n := Assigned(entries[0], expiry)], entries[1..], expiry)
  {
    if vs != [] {
      var n := FirstBlank(vs);
      if Blank(vs[0]) {
        var ws := vs[0 := Assigned(entries[0], expiry)];
        assert ws[1..] == vs[1..];
        if entries[1..] == [] {
          assert [ws[0]] + ws[1..] == ws;
        }
      } else {
        DealtOneFirst(vs[1..], entries, expiry);
        if n < |vs| {
          var ws := vs[n := Assigned(entries[0], expiry)];
          assert ws[1..] == vs[1..][n - 1 := Assigned(entries[0], expiry)];
          if entries[1..] == [] {
            assert [ws[0]] + ws[1..] == ws;
          }
        } else {
          assert [vs[0]] + vs[1..] == vs;
        }
      }
    }
  }

  lemma {:induction false} DealtToNobody(vs: seq<Value>, entries: seq<Entry>, expiry: int)
    requires FirstBlank(vs) == |vs|
    ensures Dealt(vs, entries, expiry) == vs
  {
    if vs != [] && entries != [] {
      DealtToNobody(vs[1..], entries, expiry);
    }
  }

  lemma FirstEntryDealt(vs: seq<Value>, entries: seq<Entry>, expiry: int)
    requires entries != [] && Unheld(vs, entries)
    ensures var ws := Assign(vs, entries[0], expiry);
      && Unheld(ws, entries[1..])
      && Dealt(vs, entries, expiry) == Dealt(ws, entries[1..], expiry)
  {
    GoesToFirstBlank(vs, entries[0]);
    DealtOneFirst(vs, entries, expiry);
    if FirstBlank(vs) == |vs| {
      DealtToNobody(vs, entries[1..], expiry);
    }
  }

  /**
   New identities are dealt out to the blank TMGIs of the context in its order, one each; all other TMGIs, copies
   included, stay as they are, and identities stay unique.
   */
  lemma {:induction false} AllocationDeals(vs: seq<Value>, entries: seq<Entry>, expiry: int)
    requires Unheld(vs, entries)
    ensures AssignAll(vs, Listed(entries), expiry) == Dealt(vs, entries, expiry)
    ensures Unique(vs) ==> Unique(Dealt(vs, entries, expiry))
    decreases |entries|
  {
    if entries != [] {
      FirstEntryDealt(vs, entries, expiry);
      if Unique(vs) {
        AssignKeepsUnique(vs, entries[0], expiry);
      }
      assert Listed(entries)[1..] == Listed(entries[1..]);
      AllocationDeals(Assign(vs, entries[0], expiry), entries[1..], expiry);
    } else {
      assert Dealt(vs, entries, expiry) == vs;
    }
  }

  /** Who gets what, position by position. */
  lemma {:induction false} DealtAt(vs: seq<Value>, entries: seq<Entry>, expiry: int, i: nat)
    requires i < |vs|
    ensures var k := BlanksBefore(vs, i);
      Dealt(vs, entries, expiry)[i] == if !Blank(vs[i]) || k >= |entries| then vs[i] else Assigned(entries[k], expiry)
  {
    if entries != [] && i > 0 {
      DealtAt(vs[1..], if Blank(vs[0]) then entries[1..] else entries, expiry, i - 1);
    }
  }

  /** How many of the first i TMGIs are blank. */
  function BlanksBefore(vs: seq<Value>, i: nat): nat
    requires i <= |vs|
  {
    if i == 0 then 0 else (if Blank(vs[0]) then 1 else 0) + BlanksBefore(vs[1..], i - 1)
  }

  /**
   In general an entry keeps identities unique if and only if nobody but the TMGI it goes to holds it already; a blank
   TMGI or a copy earlier in the list takes an entry away from its holder.
   */
  lemma AssignKeepsUnique(vs: seq<Value>, e: Entry, expiry: int)
    requires Unique(vs) && e.serviceId.Some?
    ensures Unique(Assign(vs, e, expiry)) <==> forall j :: 0 <= j < |vs| && Holds(vs[j], e) ==> FirstMatch(vs, e) == Some(j)
  {
    var ws, f := Assign(vs, e, expiry), FirstMatch(vs, e);
    if f.Some? {
      var i := f.value;
      if j :| 0 <= j < |vs| && Holds(vs[j], e) && j != i {
        assert Holds(ws[j], e) && Holds(ws[i], e);
        assert !Unique(ws);
      } else {
        forall x, y | 0 <= x < y < |ws| && ws[x].isAllocated && ws[x].serviceId.Some?
          ensures !Holds(ws[y], Entry(ws[x].serviceId, ws[x].plmn))
        {
          if x != i && y != i {
            assert ws[x] == vs[x] && ws[y] == vs[y];
          }
        }
      }
    }
  }

  // ---------- Deallocation ----------

  function Removed(vs: seq<Value>, e: Entry): seq<Value> {
    var i := FirstMatch(vs, e);
    if i.None? then vs else Without(vs, i.value)
  }

  lemma ValuesWithout(tmgis: seq<Tmgi>, i: nat)
    requires i < |tmgis|
    ensures Values(Without(tmgis, i)) == Without(Values(tmgis), i)
  {
    var x, y := Values(Without(tmgis, i)), Without(Values(tmgis), i);
    forall j | 0 <= j < |x|
      ensures x[j] == y[j]
    {
      assert x[j] == Without(tmgis, i)[j].Get();
      assert Without(tmgis, i)[j] == tmgis[if j < i then j else j + 1];
      assert y[j] == Values(tmgis)[if j < i then j else j + 1];
    }
    SameValues(x, y);
  }

  lemma SameValues(x: seq<Value>, y: seq<Value>)
    requires |x| == |y| && forall j :: 0 <= j < |x| ==> x[j] == y[j]
    ensures x == y
  {
  }

  /** Removes the first match from the context, whether the MB-SMF accepted the request or not. */
  method Remove(tmgis: seq<Tmgi>, e: Entry) returns (left: seq<Tmgi>)
    ensures Values(left) == Removed(Values(tmgis), e)
  {
    var i := FindMatching(tmgis, e);
    if i.None? {
      return tmgis;
    }
    ValuesWithout(tmgis, i.value);
    left := Without(tmgis, i.value);
  }

  /** The holder of an entry is the one removed if and only if no TMGI before it is unallocated and without an id. */
  lemma {:induction false} DeallocationFindsHolder(vs: seq<Value>, e: Entry, j: nat)
    requires Unique(vs) && e.serviceId.Some? && j < |vs| && Holds(vs[j], e)
    ensures FirstMatch(vs, e) == Some(j) <==>
            forall i :: 0 <= i < j && !vs[i].isAllocated ==> vs[i].serviceId.Some? && vs[i].serviceId != e.serviceId
  {
    if forall i :: 0 <= i < j && !vs[i].isAllocated ==> vs[i].serviceId.Some? && vs[i].serviceId != e.serviceId {
      forall i | 0 <= i < j
        ensures !Matches(vs[i], e)
      {
        assert vs[i].isAllocated && vs[i].serviceId.Some? ==> !Holds(vs[j], Entry(vs[i].serviceId, vs[i].plmn));
      }
      FirstMatchIs(vs, e, j);
    }
  }
}
