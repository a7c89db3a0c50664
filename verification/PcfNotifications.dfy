/** The event notification callbacks of an AF application session. */
module PcfNotifications {
  import opened Options
  import opened PcfEvents
  import Sequences

  type Callback = nat
  type UserData = nat

  datatype Entry = Entry(callback: Callback, userData: Option<UserData>, events: Mask)

  // ---------- Adding and removing ----------

  /** No callback stands for all of them; no user data for all of the callback's. */
  predicate Selects(callback: Option<Callback>, userData: Option<UserData>, e: Entry) {
    callback.None? || (e.callback == callback.value && (userData.None? || e.userData == userData))
  }

  function Left(e: Entry, mask: Mask): Mask {
    e.events & !mask
  }

  /** What is left of one entry, if anything. */
  function Kept(e: Entry, mask: Mask, callback: Option<Callback>, userData: Option<UserData>): seq<Entry> {
    if !Selects(callback, userData, e) then [e]
    else if Left(e, mask) == 0 then []
    else [e.(events := Left(e, mask))]
  }

  /** Takes the events of the mask away from the selected entries, and the entries that are left with none. */
  function Removed(entries: seq<Entry>, mask: Mask, callback: Option<Callback>, userData: Option<UserData>): seq<Entry> {
    if entries == [] then []
    else
      Removed(entries[..|entries| - 1], mask, callback, userData) + Kept(entries[|entries| - 1], mask, callback, userData)
  }

  // ---------- Notifying ----------

  /** The entries that a notification with these events is passed to, in order. */
  function Called(entries: seq<Entry>, events: Mask): seq<Entry> {
    if entries == [] then []
    else
      var init, e := entries[..|entries| - 1], entries[|entries| - 1];
      Called(init, events) + (if Meets(e.events, events) then [e] else [])
  }

  predicate AllSucceed(entries: seq<Entry>, succeeds: Entry -> bool) {
    forall i :: 0 <= i < |entries| ==> succeeds(entries[i])
  }

  class Registry {
    var entries: seq<Entry>
    ghost var calls: seq<Entry>

    constructor ()
      ensures entries == [] && calls == []
    {
      entries, calls := [], [];
    }

    method Add(mask: Mask, callback: Option<Callback>, userData: Option<UserData>) returns (ok: bool)
      modifies this`entries
      ensures ok == callback.Some?
      ensures entries == if ok then old(entries) + [Entry(callback.value, userData, mask)] else old(entries)
    {
      if callback.None? {
        return false;
      }
      entries := entries + [Entry(callback.value, userData, mask)];
      return true;
    }

    method Remove(mask: Mask, callback: Option<Callback>, userData: Option<UserData>)
      modifies this`entries
      ensures entries == Removed(old(entries), mask, callback, userData)
    {
      var kept: seq<Entry> := [];
      for i := 0 to |entries|
        invariant entries == old(entries)
        invariant kept == Removed(entries[..i], mask, callback, userData)
      {
        var e := entries[i];
        assert entries[..i + 1][..i] == entries[..i];
        var rest := Narrow(e, mask, callback, userData);
        kept := kept + rest;
      }
      assert entries[..|entries|] == entries;
      entries := kept;
    }

    method Narrow(e: Entry, mask: Mask, callback: Option<Callback>, userData: Option<UserData>) returns (rest: seq<Entry>)
      ensures rest == Kept(e, mask, callback, userData)
    {
      if callback.None? || (e.callback == callback.value && (userData.None? || e.userData == userData)) {
        var left := Left(e, mask);
        rest := if left == 0 then [] else [e.(events := left)];
      } else {
        rest := [e];
      }
    }

    /** Every entry that wants one of the events is called, even after one has failed. */
    method Dispatch(events: Mask, succeeds: Entry -> bool) returns (ok: bool)
      modifies this`calls
      ensures calls == old(calls) + Called(entries, events)
      ensures ok == AllSucceed(Called(entries, events), succeeds)
    {
      ok := true;
      for i := 0 to |entries|
        invariant calls == old(calls) + Called(entries[..i], events)
        invariant ok == AllSucceed(Called(entries[..i], events), succeeds)
      {
        var e := entries[i];
        CalledMore(entries, events, i, succeeds);
        if Meets(e.events, events) {
          calls := calls + [e];
          ok := ok && succeeds(e);
        }
      }
      assert entries[..|entries|] == entries;
    }
  }

  lemma CalledMore(entries: seq<Entry>, events: Mask, i: nat, succeeds: Entry -> bool)
    requires i < |entries|
    ensures Called(entries[..i + 1], events) ==
            Called(entries[..i], events) + (if Meets(entries[i].events, events) then [entries[i]] else [])
    ensures AllSucceed(Called(entries[..i + 1], events), succeeds) ==
            (AllSucceed(Called(entries[..i], events), succeeds) && (Meets(entries[i].events, events) ==> succeeds(entries[i])))
  {
    assert entries[..i + 1][..i] == entries[..i];
    var before, more: seq<Entry> := Called(entries[..i], events), if Meets(entries[i].events, events) then [entries[i]] else [];
    AllMore(before, more, succeeds);
    assert more != [] ==> more[0] == entries[i];
  }

  lemma AllMore(entries: seq<Entry>, more: seq<Entry>, succeeds: Entry -> bool)
    ensures AllSucceed(entries + more, succeeds) == (AllSucceed(entries, succeeds) && AllSucceed(more, succeeds))
  {
    var all := entries + more;
    assert forall i :: 0 <= i < |entries| ==> all[i] == entries[i];
    assert forall i :: 0 <= i < |more| ==> all[|entries| + i] == more[i];
  }

  // ---------- What a removal does to later notifications ----------

  /** How an entry is called: by its callback and user data. */
  function Names(entries: seq<Entry>): (r: seq<(Callback, Option<UserData>)>)
    ensures |r| == |entries|
  {
    seq(|entries|, i requires 0 <= i < |entries| => (entries[i].callback, entries[i].userData))
  }

  /** Those of the events that entry e is still to hear of after the removal. */
  function Heard(e: Entry, events: Mask, mask: Mask, callback: Option<Callback>, userData: Option<UserData>): Mask {
    if Selects(callback, userData, e) then events & !mask else events
  }

  /** The entries that are called if each hears only of the events that are left for it. */
  function Reached(entries: seq<Entry>, events: Mask, mask: Mask, callback: Option<Callback>, userData: Option<UserData>): seq<Entry> {
    if entries == [] then []
    else
      var e := entries[|entries| - 1];
      Reached(entries[..|entries| - 1], events, mask, callback, userData) +
      (if Meets(e.events, Heard(e, events, mask, callback, userData)) then [e] else [])
  }

  lemma NamesAppend(a: seq<Entry>, b: seq<Entry>)
    ensures Names(a + b) == Names(a) + Names(b)
  {
  }

  lemma {:induction false} CalledAppend(a: seq<Entry>, b: seq<Entry>, events: Mask)
    ensures Called(a + b, events) == Called(a, events) + Called(b, events)
  {
    if b == [] {
      assert a + b == a;
    } else {
      var init, e := b[..|b| - 1], b[|b| - 1];
      assert (a + b)[..|a + b| - 1] == a + init;
      CalledAppend(a, init, events);
      Sequences.Regroup(Called(a, events), Called(init, events), if Meets(e.events, events) then [e] else []);
    }
  }

  lemma CalledOne(e: Entry, events: Mask)
    ensures Called([e], events) == if Meets(e.events, events) then [e] else []
  {
    assert [e][..0] == [];
  }

  lemma KeptFilters(e: Entry, mask: Mask, callback: Option<Callback>, userData: Option<UserData>, events: Mask)
    ensures Names(Called(Kept(e, mask, callback, userData), events)) ==
            if Meets(e.events, Heard(e, events, mask, callback, userData)) then [(e.callback, e.userData)] else []
  {
    if !Selects(callback, userData, e) {
      CalledOne(e, events);
    } else {
      var f := e.(events := Left(e, mask));
      LeftMeets(e, mask, events);
      CalledOne(f, events);
    }
  }

  lemma LeftMeets(e: Entry, mask: Mask, events: Mask)
    ensures Meets(Left(e, mask), events) <==> Meets(e.events, events & !mask)
    ensures Left(e, mask) == 0 ==> !Meets(e.events, events & !mask)
  {
    MeetsMoves(e.events, mask, events);
    if Left(e, mask) == 0 {
      NoneLeft(e.events, mask, events);
    }
  }

  lemma MeetsMoves(x: Mask, mask: Mask, events: Mask)
    ensures Meets(x & !mask, events) <==> Meets(x, events & !mask)
  {
    assert (x & !mask) & events == x & (events & !mask);
  }

  lemma NoneLeft(x: Mask, mask: Mask, events: Mask)
    requires x & !mask == 0
    ensures !Meets(x, events & !mask)
  {
    assert x & (events & !mask) == (x & !mask) & events;
  }

  /**
   After a removal every notification, whatever its events, is passed to the same callbacks in the same order as before,
   except that the selected ones no longer hear of the removed events.
   */
  lemma {:induction false} RemovalFilters(entries: seq<Entry>, mask: Mask, callback: Option<Callback>, userData: Option<UserData>,
                                          events: Mask)
    ensures Names(Called(Removed(entries, mask, callback, userData), events)) ==
            Names(Reached(entries, events, mask, callback, userData))
  {
    if entries != [] {
      var init, e := entries[..|entries| - 1], entries[|entries| - 1];
      RemovalFilters(init, mask, callback, userData, events);
      var before, rest := Removed(init, mask, callback, userData), Kept(e, mask, callback, userData);
      CalledAppend(before, rest, events);
      NamesAppend(Called(before, events), Called(rest, events));
      KeptFilters(e, mask, callback, userData, events);
      NamesAppend(Reached(init, events, mask, callback, userData),
                  if Meets(e.events, Heard(e, events, mask, callback, userData)) then [e] else []);
    }
  }

  /** Hence no entry that the removal selects is called for removed events only. */
  lemma {:induction false} RemovedNotCalled(entries: seq<Entry>, mask: Mask, callback: Option<Callback>, userData: Option<UserData>,
                                            events: Mask, e: Entry)
    requires events & !mask == 0 && Selects(callback, userData, e)
    ensures e !in Called(Removed(entries, mask, callback, userData), events)
  {
    if entries != [] {
      var init, last := entries[..|entries| - 1], entries[|entries| - 1];
      RemovedNotCalled(init, mask, callback, userData, events, e);
      CalledAppend(Removed(init, mask, callback, userData), Kept(last, mask, callback, userData), events);
      KeptNotCalled(last, mask, callback, userData, events, e);
    }
  }

  lemma KeptNotCalled(last: Entry, mask: Mask, callback: Option<Callback>, userData: Option<UserData>, events: Mask, e: Entry)
    requires events & !mask == 0 && Selects(callback, userData, e)
    ensures e !in Called(Kept(last, mask, callback, userData), events)
  {
    LeftMeets(last, mask, events);
    CalledOne(last, events);
    CalledOne(last.(events := Left(last, mask)), events);
    NothingMeets(last.events);
  }

  lemma NothingMeets(x: Mask)
    ensures x & 0 == 0
  {
  }

  /** And a notification without removed events is passed on exactly as before. */
  lemma OthersConserved(entries: seq<Entry>, mask: Mask, callback: Option<Callback>, userData: Option<UserData>, events: Mask)
    requires events & mask == 0
    ensures Names(Called(Removed(entries, mask, callback, userData), events)) == Names(Called(entries, events))
  {
    RemovalFilters(entries, mask, callback, userData, events);
    OutsideMask(events, mask);
    ReachedAll(entries, mask, callback, userData, events);
  }

  lemma OutsideMask(events: Mask, mask: Mask)
    requires events & mask == 0
    ensures events & !mask == events
  {
  }

  lemma {:induction false} ReachedAll(entries: seq<Entry>, mask: Mask, callback: Option<Callback>, userData: Option<UserData>,
                                      events: Mask)
    requires events & !mask == events
    ensures Reached(entries, events, mask, callback, userData) == Called(entries, events)
  {
    if entries != [] {
      ReachedAll(entries[..|entries| - 1], mask, callback, userData, events);
    }
  }

  // ---------- Which entries are called, and which a removal is for ----------

  /** A notification is passed to the entries that want one of its events, and to no others. */
  lemma {:induction false} CalledMeans(entries: seq<Entry>, events: Mask, e: Entry)
    ensures e in Called(entries, events) <==> e in entries && Meets(e.events, events)
  {
    if entries != [] {
      var init, last := entries[..|entries| - 1], entries[|entries| - 1];
      assert entries == init + [last];
      CalledMeans(init, events, e);
    }
  }

  /** A removal is for all entries, for those of a callback, or for those of a callback and user data. */
  predicate IsFor(callback: Option<Callback>, userData: Option<UserData>, e: Entry) {
    match callback
    case None => true
    case Some(c) =>
      match userData
      case None => e.callback == c
      case Some(u) => e.callback == c && e.userData == Some(u)
  }

  /** Entry f becomes e: one the removal is for loses the events, and goes if none is left; any other stays as it is. */
  predicate Becomes(f: Entry, mask: Mask, callback: Option<Callback>, userData: Option<UserData>, e: Entry) {
    if IsFor(callback, userData, f)
    then e.events != 0 && e.callback == f.callback && e.userData == f.userData && e.events == f.events & !mask
    else e == f
  }

  /** The entries after a removal are what those before it become. */
  lemma {:induction false} RemovalLeaves(entries: seq<Entry>, mask: Mask, callback: Option<Callback>, userData: Option<UserData>,
                                         e: Entry)
    ensures e in Removed(entries, mask, callback, userData) <==>
            exists i :: 0 <= i < |entries| && Becomes(entries[i], mask, callback, userData, e)
  {
    if entries != [] {
      var init, last := entries[..|entries| - 1], entries[|entries| - 1];
      RemovalLeaves(init, mask, callback, userData, e);
      KeptIs(last, mask, callback, userData, e);
      assert forall i :: 0 <= i < |init| ==> init[i] == entries[i];
    }
  }

  lemma KeptIs(f: Entry, mask: Mask, callback: Option<Callback>, userData: Option<UserData>, e: Entry)
    ensures e in Kept(f, mask, callback, userData) <==> Becomes(f, mask, callback, userData, e)
  {
    assert Selects(callback, userData, f) <==> IsFor(callback, userData, f);
  }
}
