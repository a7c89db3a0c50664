/**
 Reference-counted SBI objects. TMGIs and sessions hold them, the event in progress may hold one for a while,
 and transactions point to them; the last one to let go frees the object with all its transactions.
 */
module SbiObjects {
  import opened Options

  type ObjId = nat
  type XactId = nat

  datatype Holder = TmgiHolder(tmgi: nat) | SessionHolder(session: nat)

  datatype State = State(
    counts: map<ObjId, nat>,
    holders: map<Holder, ObjId>,
    xacts: map<XactId, ObjId>,
    next: ObjId,
    freed: seq<ObjId>)

  const EMPTY := State(map[], map[], map[], 0, [])

  // ---------- new, ref, unref, and setting the pointer of a holder ----------

  function New(s: State): State {
    s.(counts := s.counts[s.next := 1], next := s.next + 1)
  }

  function Ref(s: State, o: ObjId): State {
    if o in s.counts then s.(counts := s.counts[o := s.counts[o] + 1]) else s
  }

  /** Drops one reference; with the last one the object goes, and its transactions with it. */
  function Unref(s: State, o: ObjId): State {
    if o !in s.counts then s
    else if s.counts[o] > 1 then s.(counts := s.counts[o := s.counts[o] - 1])
    else s.(counts := s.counts - {o}, xacts := map x | x in s.xacts && s.xacts[x] != o :: s.xacts[x], freed := s.freed + [o])
  }

  /** A holder's pointer is set, or cleared. */
  function Take(s: State, h: Holder, o: ObjId): State {
    s.(holders := s.holders[h := o])
  }

  function Clear(s: State, h: Holder): State {
    s.(holders := s.holders - {h})
  }

  // ---------- The invariant: counts match the references there are ----------

  function HoldersOf(s: State, o: ObjId): set<Holder> {
    set h | h in s.holders && s.holders[h] == o
  }

  /** `extra` are the references that are held by local variables rather than by TMGIs and sessions. */
  ghost predicate Balanced(s: State, extra: multiset<ObjId>) {
    CountsMatch(s, extra) && HoldersLive(s) && (forall o :: o in extra ==> o in s.counts)
  }

  predicate CountsMatch(s: State, extra: multiset<ObjId>) {
    forall o :: o in s.counts ==> s.counts[o] == |HoldersOf(s, o)| + extra[o] && s.counts[o] > 0
  }

  predicate HoldersLive(s: State) {
    forall h :: h in s.holders ==> s.holders[h] in s.counts
  }

  /** Transactions point to live objects; every object ever made is either live or was freed, once. */
  ghost predicate Sound(s: State) {
    && (forall x :: x in s.xacts ==> s.xacts[x] in s.counts)
    && (forall o: ObjId :: o < s.next <==> o in s.counts || o in s.freed)
    && (forall o :: o in s.freed ==> o !in s.counts)
    && (forall i, j :: 0 <= i < j < |s.freed| ==> s.freed[i] != s.freed[j])
  }

  lemma NewBalance(s: State, extra: multiset<ObjId>)
    requires Balanced(s, extra) && Sound(s)
    ensures Balanced(New(s), extra + multiset{s.next}) && Sound(New(s))
  {
    var s' := New(s);
    assert s.next !in s.counts;
    forall o | o in s'.counts
      ensures HoldersOf(s', o) == HoldersOf(s, o)
    {
    }
    assert HoldersOf(s, s.next) == {};
  }

  lemma RefBalance(s: State, o: ObjId, extra: multiset<ObjId>)
    requires Balanced(s, extra) && Sound(s) && o in s.counts
    ensures Balanced(Ref(s, o), extra + multiset{o}) && Sound(Ref(s, o))
  {
    forall p | p in s.counts
      ensures HoldersOf(Ref(s, o), p) == HoldersOf(s, p)
    {
    }
  }

  /** A reference is dropped; the object is freed if and only if it was the last one of all. */
  lemma UnrefBalance(s: State, o: ObjId, extra: multiset<ObjId>)
    requires Balanced(s, extra) && o in extra
    ensures Balanced(Unref(s, o), extra - multiset{o})
    ensures Unref(s, o).freed == if HoldersOf(s, o) == {} && extra[o] == 1 then s.freed + [o] else s.freed
  {
    var s' := Unref(s, o);
    SameHolders(s, s');
    NoneLeft(s, o);
    assert forall p :: p in s'.counts ==> s'.counts[p] == s.counts[p] - (if p == o then 1 else 0);
  }

  lemma UnrefSound(s: State, o: ObjId)
    requires Sound(s)
    ensures Sound(Unref(s, o))
  {
  }

  lemma SameHolders(s: State, s': State)
    requires s'.holders == s.holders
    ensures forall p :: HoldersOf(s', p) == HoldersOf(s, p)
  {
  }

  lemma NoneLeft(s: State, o: ObjId)
    ensures HoldersOf(s, o) == {} <==> forall h :: h in s.holders ==> s.holders[h] != o
    ensures HoldersOf(s, o) == {} <==> |HoldersOf(s, o)| == 0
  {
    if HoldersOf(s, o) == {} {
      assert forall h :: h in s.holders && s.holders[h] == o ==> h in HoldersOf(s, o);
    }
  }

  /** A cleared pointer leaves one reference over. */
  lemma ClearBalance(s: State, h: Holder, extra: multiset<ObjId>)
    requires Balanced(s, extra) && h in s.holders
    ensures Balanced(Clear(s, h), extra + multiset{s.holders[h]})
  {
    var o := s.holders[h];
    forall p | p in s.counts
      ensures |HoldersOf(Clear(s, h), p)| == |HoldersOf(s, p)| - (if p == o then 1 else 0)
    {
      assert HoldersOf(Clear(s, h), p) == HoldersOf(s, p) - {h};
      assert h in HoldersOf(s, p) <==> p == o;
    }
  }

  lemma HoldersTaken(s: State, h: Holder, o: ObjId, p: ObjId)
    requires h !in s.holders
    ensures |HoldersOf(Take(s, h, o), p)| == |HoldersOf(s, p)| + (if p == o then 1 else 0)
  {
    assert HoldersOf(Take(s, h, o), p) == if p == o then HoldersOf(s, p) + {h} else HoldersOf(s, p);
  }

  /** A pointer that was not set takes over one of the references that are over. */
  lemma TakeBalance(s: State, h: Holder, o: ObjId, extra: multiset<ObjId>)
    requires Balanced(s, extra) && h !in s.holders && o in extra
    ensures Balanced(Take(s, h, o), extra - multiset{o})
  {
    var s', less := Take(s, h, o), extra - multiset{o};
    forall p | p in s'.counts
      ensures s'.counts[p] == |HoldersOf(s', p)| + less[p] && s'.counts[p] > 0
    {
      HoldersTaken(s, h, o, p);
    }
    assert HoldersLive(s');
  }

  // ---------- What the library does with them ----------

  /** A holder is freed, or lets go. */
  function Release(s: State, h: Holder): State {
    if h in s.holders then Unref(Clear(s, h), s.holders[h]) else s
  }

  /** A session is given a TMGI: the new object is referenced before the old one is dropped. */
  function SetTmgi(s: State, h: Holder, g: Holder): State {
    var s1 := if g in s.holders then Take(Clear(Ref(s, s.holders[g]), h), h, s.holders[g]) else Clear(s, h);
    if h in s.holders then Unref(s1, s.holders[h]) else s1
  }

  /** A TMGI takes over the object of another holder: its own is dropped first. */
  function ReplaceObject(s: State, h: Holder, g: Holder): State
    requires h != g
  {
    var s1 := Release(s, h);
    if g in s1.holders then Take(Ref(s1, s1.holders[g]), h, s1.holders[g]) else s1
  }

  function Give(s: State, h: Holder, o: ObjId): State {
    Take(Ref(Release(s, h), o), h, o)
  }

  function GiveAll(s: State, hs: seq<Holder>, o: ObjId): State
    decreases |hs|
  {
    if hs == [] then s else GiveAll(Give(s, hs[0], o), hs[1..], o)
  }

  /** An allocation request: one new object for all the TMGIs; the request's own reference is dropped again. */
  function Allocate(s: State, hs: seq<Holder>, x: XactId): State {
    var o := s.next;
    var s' := Unref(GiveAll(New(s), hs, o), o);
    s'.(xacts := s'.xacts[x := o])
  }

  /** A request on behalf of a holder, which gets an object if it has none. */
  function Request(s: State, h: Holder, x: XactId): State {
    var s' := if h in s.holders then s else Take(New(s), h, s.next);
    s'.(xacts := s'.xacts[x := s'.holders[h]])
  }

  function ReleaseAll(s: State, hs: seq<Holder>): State
    decreases |hs|
  {
    if hs == [] then s else ReleaseAll(Release(s, hs[0]), hs[1..])
  }

  function RemoveXact(s: State, x: XactId): State {
    s.(xacts := s.xacts - {x})
  }

  /** The response to a transaction, handled under a reference to its object: some holders go, then the transaction. */
  function DeleteResponse(s: State, x: XactId, gone: seq<Holder>): State
    requires x in s.xacts
  {
    var o := s.xacts[x];
    Unref(RemoveXact(ReleaseAll(Ref(s, o), gone), x), o)
  }

  // ---------- Each of them keeps the balance ----------

  lemma ReleaseBalance(s: State, h: Holder, extra: multiset<ObjId>)
    requires Balanced(s, extra) && Sound(s)
    ensures Balanced(Release(s, h), extra) && Sound(Release(s, h))
  {
    if h in s.holders {
      var o, s1 := s.holders[h], Clear(s, h);
      ClearBalance(s, h, extra);
      UnrefBalance(s1, o, extra + multiset{o});
      UnrefSound(s1, o);
      assert extra + multiset{o} - multiset{o} == extra;
    }
  }

  /** An object is freed exactly when the last TMGI, session or local variable lets go of it. */
  lemma ReleaseFrees(s: State, h: Holder, extra: multiset<ObjId>)
    requires Balanced(s, extra) && h in s.holders
    ensures var o := s.holders[h];
      Release(s, h).freed == if HoldersOf(s, o) == {h} && o !in extra then s.freed + [o] else s.freed
  {
    var o, s1 := s.holders[h], Clear(s, h);
    ClearBalance(s, h, extra);
    UnrefBalance(s1, o, extra + multiset{o});
    assert HoldersOf(s1, o) == HoldersOf(s, o) - {h} && h in HoldersOf(s, o);
  }

  lemma RefTake(s: State, h: Holder, o: ObjId, extra: multiset<ObjId>)
    requires Balanced(s, extra) && Sound(s) && o in s.counts && h !in s.holders
    ensures Balanced(Take(Ref(s, o), h, o), extra) && Sound(Take(Ref(s, o), h, o))
  {
    RefBalance(s, o, extra);
    TakeBalance(Ref(s, o), h, o, extra + multiset{o});
    assert extra + multiset{o} - multiset{o} == extra;
  }

  lemma SetTmgiBalance(s: State, h: Holder, g: Holder)
    requires Balanced(s, multiset{}) && Sound(s)
    ensures Balanced(SetTmgi(s, h, g), multiset{}) && Sound(SetTmgi(s, h, g))
  {
    var s1, e: multiset<ObjId> := s, multiset{};
    if g in s.holders {
      s1, e := Ref(s, s.holders[g]), multiset{s.holders[g]};
      RefBalance(s, s.holders[g], multiset{});
      assert multiset{} + e == e;
    }
    var s2, f := Clear(s1, h), e;
    if h in s.holders {
      f := e + multiset{s.holders[h]};
      ClearBalance(s1, h, e);
    } else {
      assert s2.holders == s1.holders;
    }
    SetTmgiEnds(s, s2, h, g, f);
  }

  lemma SetTmgiEnds(s: State, s2: State, h: Holder, g: Holder, f: multiset<ObjId>)
    requires Balanced(s2, f) && Sound(s2) && h !in s2.holders
    requires f == (if g in s.holders then multiset{s.holders[g]} else multiset{})
                  + (if h in s.holders then multiset{s.holders[h]} else multiset{})
    ensures var s3 := if g in s.holders then Take(s2, h, s.holders[g]) else s2;
      var s4 := if h in s.holders then Unref(s3, s.holders[h]) else s3;
      Balanced(s4, multiset{}) && Sound(s4)
  {
    var s3 := s2;
    var rest: multiset<ObjId> := if h in s.holders then multiset{s.holders[h]} else multiset{};
    if g in s.holders {
      s3 := Take(s2, h, s.holders[g]);
      TakeBalance(s2, h, s.holders[g], f);
      assert f - multiset{s.holders[g]} == rest;
    } else {
      assert f == rest;
    }
    if h in s.holders {
      UnrefBalance(s3, s.holders[h], rest);
      UnrefSound(s3, s.holders[h]);
      assert rest - multiset{s.holders[h]} == multiset{};
    }
  }

  lemma ReplaceBalance(s: State, h: Holder, g: Holder)
    requires Balanced(s, multiset{}) && Sound(s) && h != g
    ensures Balanced(ReplaceObject(s, h, g), multiset{}) && Sound(ReplaceObject(s, h, g))
  {
    ReleaseBalance(s, h, multiset{});
    var s1 := Release(s, h);
    if g in s1.holders {
      RefTake(s1, h, s1.holders[g], multiset{});
    }
  }

  lemma GiveBalance(s: State, h: Holder, o: ObjId)
    requires Balanced(s, multiset{o}) && Sound(s)
    ensures Balanced(Give(s, h, o), multiset{o}) && Sound(Give(s, h, o))
  {
    ReleaseBalance(s, h, multiset{o});
    var s1 := Release(s, h);
    assert o in multiset{o};
    RefTake(s1, h, o, multiset{o});
  }

  lemma {:induction false} GiveAllBalance(s: State, hs: seq<Holder>, o: ObjId)
    requires Balanced(s, multiset{o}) && Sound(s)
    ensures Balanced(GiveAll(s, hs, o), multiset{o}) && Sound(GiveAll(s, hs, o))
    decreases |hs|
  {
    if hs != [] {
      GiveBalance(s, hs[0], o);
      GiveAllBalance(Give(s, hs[0], o), hs[1..], o);
    }
  }

  lemma {:induction false} GiveAllGives(s: State, hs: seq<Holder>, o: ObjId, h: Holder)
    ensures var r := GiveAll(s, hs, o);
      if h in hs then h in r.holders && r.holders[h] == o
      else (h in r.holders <==> h in s.holders) && (h in r.holders ==> r.holders[h] == s.holders[h])
    decreases |hs|
  {
    if hs != [] {
      GiveAllGives(Give(s, hs[0], o), hs[1..], o, h);
    }
  }

  lemma AddXact(s: State, x: XactId, o: ObjId)
    requires Balanced(s, multiset{}) && Sound(s)
    ensures var s' := s.(xacts := s.xacts[x := o]);
      Balanced(s', multiset{}) && (Sound(s') <==> o in s.counts)
  {
    var s' := s.(xacts := s.xacts[x := o]);
    SameHolders(s, s');
    assert s'.xacts[x] == o;
  }

  /**
   An allocation request leaves one reference for each of its TMGIs. Its transaction points to a live object if and
   only if there is a TMGI to allocate at all.
   */
  lemma AllocateBalance(s: State, hs: seq<Holder>, x: XactId)
    requires Balanced(s, multiset{}) && Sound(s)
    ensures Balanced(Allocate(s, hs, x), multiset{})
    ensures forall h :: h in hs ==> h in Allocate(s, hs, x).holders && Allocate(s, hs, x).holders[h] == s.next
    ensures Sound(Allocate(s, hs, x)) <==> hs != []
  {
    var o := s.next;
    NewBalance(s, multiset{});
    assert multiset{} + multiset{o} == multiset{o};
    GiveAllBalance(New(s), hs, o);
    var r := GiveAll(New(s), hs, o);
    UnrefBalance(r, o, multiset{o});
    UnrefSound(r, o);
    assert multiset{o} - multiset{o} == multiset{};
    forall h | h in hs
      ensures h in r.holders && r.holders[h] == o
    {
      GiveAllGives(New(s), hs, o, h);
    }
    FreedOrLive(r, o);
    HeldAfterGiving(s, hs);
    AddXact(Unref(r, o), x, o);
  }

  lemma HeldAfterGiving(s: State, hs: seq<Holder>)
    requires Balanced(s, multiset{}) && Sound(s)
    ensures HoldersOf(GiveAll(New(s), hs, s.next), s.next) != {} <==> hs != []
  {
    if hs != [] {
      GiveAllGives(New(s), hs, s.next, hs[0]);
      assert hs[0] in HoldersOf(GiveAll(New(s), hs, s.next), s.next);
    }
  }

  lemma FreedOrLive(s: State, o: ObjId)
    requires Balanced(s, multiset{o})
    ensures o in Unref(s, o).counts <==> HoldersOf(s, o) != {}
  {
    NoneLeft(s, o);
  }

  lemma RequestBalance(s: State, h: Holder, x: XactId)
    requires Balanced(s, multiset{}) && Sound(s)
    ensures Balanced(Request(s, h, x), multiset{}) && Sound(Request(s, h, x))
  {
    if h !in s.holders {
      NewBalance(s, multiset{});
      assert multiset{} + multiset{s.next} == multiset{s.next};
      TakeBalance(New(s), h, s.next, multiset{s.next});
      assert multiset{s.next} - multiset{s.next} == multiset{};
    }
  }

  lemma {:induction false} ReleaseAllBalance(s: State, hs: seq<Holder>, extra: multiset<ObjId>)
    requires Balanced(s, extra) && Sound(s)
    ensures Balanced(ReleaseAll(s, hs), extra) && Sound(ReleaseAll(s, hs))
    ensures forall x :: x in s.xacts && s.xacts[x] in extra ==>
              x in ReleaseAll(s, hs).xacts && ReleaseAll(s, hs).xacts[x] == s.xacts[x]
    decreases |hs|
  {
    if hs != [] {
      ReleaseBalance(s, hs[0], extra);
      ReleaseAllBalance(Release(s, hs[0]), hs[1..], extra);
    }
  }

  /**
   However many holders a delete response makes go, the temporary reference keeps the object and its transaction until
   the dispatcher has removed the transaction itself.
   */
  lemma DeleteResponseBalance(s: State, x: XactId, gone: seq<Holder>)
    requires Balanced(s, multiset{}) && Sound(s) && x in s.xacts
    ensures var held := ReleaseAll(Ref(s, s.xacts[x]), gone); x in held.xacts && held.xacts[x] == s.xacts[x]
    ensures Balanced(DeleteResponse(s, x, gone), multiset{}) && Sound(DeleteResponse(s, x, gone))
  {
    var o := s.xacts[x];
    RefBalance(s, o, multiset{});
    assert multiset{} + multiset{o} == multiset{o};
    ReleaseAllBalance(Ref(s, o), gone, multiset{o});
    var r := RemoveXact(ReleaseAll(Ref(s, o), gone), x);
    SameHolders(ReleaseAll(Ref(s, o), gone), r);
    UnrefBalance(r, o, multiset{o});
    UnrefSound(r, o);
    assert multiset{o} - multiset{o} == multiset{};
  }

  /** Without the temporary reference the transaction would be gone already if and only if the one holder was the last. */
  lemma WithoutTemporaryReference(s: State, x: XactId, h: Holder)
    requires Balanced(s, multiset{}) && Sound(s) && x in s.xacts && h in s.holders && s.holders[h] == s.xacts[x]
    ensures x in Release(s, h).xacts <==> HoldersOf(s, s.xacts[x]) != {h}
  {
    var o, s1 := s.holders[h], Clear(s, h);
    ClearBalance(s, h, multiset{});
    assert multiset{} + multiset{o} == multiset{o};
    FreedOrLive(s1, o);
    assert HoldersOf(s1, o) == HoldersOf(s, o) - {h} && h in HoldersOf(s, o);
  }

  // ---------- All runs ----------

  datatype Event =
    | Allocation(tmgis: seq<Holder>, xact: XactId)
    | OnBehalf(holder: Holder, xact: XactId)
    | TmgiSet(holder: Holder, tmgi: Holder)
    | Replaced(holder: Holder, source: Holder)
    | Freed(holder: Holder)
    | DeleteAnswered(xact: XactId, gone: seq<Holder>)
    | OtherAnswered(xact: XactId)

  function Step(s: State, e: Event): State {
    match e
    case Allocation(hs, x) => Allocate(s, hs, x)
    case OnBehalf(h, x) => Request(s, h, x)
    case TmgiSet(h, g) => SetTmgi(s, h, g)
    case Replaced(h, g) => if h == g then s else ReplaceObject(s, h, g)
    case Freed(h) => Release(s, h)
    case DeleteAnswered(x, gone) => if x in s.xacts then DeleteResponse(s, x, gone) else s
    case OtherAnswered(x) => RemoveXact(s, x)
  }

  function Run(s: State, es: seq<Event>): State
    decreases |es|
  {
    if es == [] then s else Run(Step(s, es[0]), es[1..])
  }

  lemma StepBalance(s: State, e: Event)
    requires Balanced(s, multiset{}) && Sound(s)
    ensures Balanced(Step(s, e), multiset{})
    ensures Sound(Step(s, e)) <==> (e.Allocation? ==> e.tmgis != [])
  {
    match e
    case Allocation(hs, x) => AllocateBalance(s, hs, x);
    case OnBehalf(h, x) => RequestBalance(s, h, x);
    case TmgiSet(h, g) => SetTmgiBalance(s, h, g);
    case Replaced(h, g) =>
      if h != g {
        ReplaceBalance(s, h, g);
      }
    case Freed(h) => ReleaseBalance(s, h, multiset{});
    case DeleteAnswered(x, gone) =>
      if x in s.xacts {
        DeleteResponseBalance(s, x, gone);
      }
    case OtherAnswered(x) => SameHolders(s, RemoveXact(s, x));
  }

  /**
   After any run in which every allocation is for at least one TMGI: each live object's count is the number of TMGIs and
   sessions holding it, an object is live exactly while someone holds it, each object ever made that is not live was
   freed exactly once, and no transaction points to a freed object.
   */
  lemma {:induction false} RunBalance(s: State, es: seq<Event>)
    requires Balanced(s, multiset{}) && Sound(s)
    requires forall e :: e in es && e.Allocation? ==> e.tmgis != []
    ensures Balanced(Run(s, es), multiset{}) && Sound(Run(s, es))
    decreases |es|
  {
    if es != [] {
      assert es[0] in es && forall e :: e in es[1..] ==> e in es;
      StepBalance(s, es[0]);
      RunBalance(Step(s, es[0]), es[1..]);
    }
  }

  lemma LiveIffHeld(s: State, o: ObjId)
    requires Balanced(s, multiset{}) && Sound(s) && o < s.next
    ensures if HoldersOf(s, o) == {} then o in s.freed else o in s.counts && s.counts[o] == |HoldersOf(s, o)|
  {
    NoneLeft(s, o);
  }

  lemma EmptyBalance()
    ensures Balanced(EMPTY, multiset{}) && Sound(EMPTY)
  {
  }

  // ---------- The same, step by step ----------

  class Registry {
    var counts: map<ObjId, nat>
    var holders: map<Holder, ObjId>
    var xacts: map<XactId, ObjId>
    var next: ObjId
    ghost var freed: seq<ObjId>

    ghost function Abs(): State
      reads this
    {
      State(counts, holders, xacts, next, freed)
    }

    constructor ()
      ensures Abs() == EMPTY
    {
      counts, holders, xacts, next, freed := map[], map[], map[], 0, [];
    }

    method NewObject() returns (o: ObjId)
      modifies this
      ensures o == old(next) && Abs() == New(old(Abs()))
    {
      o := next;
      counts, next := counts[o := 1], next + 1;
    }

    method RefObject(o: ObjId)
      requires o in counts
      modifies this`counts
      ensures Abs() == Ref(old(Abs()), o)
    {
      counts := counts[o := counts[o] + 1];
    }

    method UnrefObject(o: ObjId)
      requires o in counts && counts[o] > 0
      modifies this
      ensures Abs() == Unref(old(Abs()), o)
    {
      counts := counts[o := counts[o] - 1];
      if counts[o] == 0 {
        xacts := map x | x in xacts && xacts[x] != o :: xacts[x];
        counts := counts - {o};
        freed := freed + [o];
        assert counts == old(counts) - {o};
      }
    }

    method ReleaseHolder(h: Holder, ghost extra: multiset<ObjId>)
      requires Balanced(Abs(), extra)
      modifies this
      ensures Abs() == Release(old(Abs()), h)
    {
      if h in holders {
        var o := holders[h];
        holders := holders - {h};
        UnrefObject(o);
      }
    }

    /** The session refers to the object of its new TMGI before it lets go of its own. */
    method SetSessionTmgi(h: Holder, g: Holder)
      requires Balanced(Abs(), multiset{}) && Sound(Abs())
      modifies this
      ensures Abs() == SetTmgi(old(Abs()), h, g)
    {
      var before: Option<ObjId> := if h in holders then Some(holders[h]) else None;
      if g in holders {
        var o := holders[g];
        RefObject(o);
        holders := holders - {h};
        holders := holders[h := o];
      } else {
        holders := holders - {h};
      }
      if before.Some? {
        UnrefObject(before.value);
      }
    }

    /** The TMGI lets go of its object before it refers to the other one, which its holder keeps alive meanwhile. */
    method ReplaceTmgiObject(h: Holder, g: Holder)
      requires Balanced(Abs(), multiset{}) && Sound(Abs()) && h != g
      modifies this
      ensures Abs() == ReplaceObject(old(Abs()), h, g)
    {
      ReleaseBalance(Abs(), h, multiset{});
      ReleaseHolder(h, multiset{});
      if g in holders {
        var o := holders[g];
        RefObject(o);
        holders := holders[h := o];
      }
    }

    method GiveTo(h: Holder, o: ObjId)
      requires Balanced(Abs(), multiset{o}) && Sound(Abs())
      modifies this
      ensures Abs() == Give(old(Abs()), h, o)
    {
      ReleaseBalance(Abs(), h, multiset{o});
      assert o in multiset{o};
      ReleaseHolder(h, multiset{o});
      RefObject(o);
      holders := holders[h := o];
    }

    method AllocateTmgis(tmgis: seq<Holder>, x: XactId)
      requires Balanced(Abs(), multiset{}) && Sound(Abs())
      modifies this
      ensures Abs() == Allocate(old(Abs()), tmgis, x)
    {
      NewBalance(Abs(), multiset{});
      var o := NewObject();
      assert multiset{} + multiset{o} == multiset{o};
      for i := 0 to |tmgis|
        invariant Balanced(Abs(), multiset{o}) && Sound(Abs())
        invariant GiveAll(Abs(), tmgis[i..], o) == GiveAll(New(old(Abs())), tmgis, o)
      {
        assert tmgis[i..][1..] == tmgis[i + 1..];
        GiveBalance(Abs(), tmgis[i], o);
        GiveTo(tmgis[i], o);
      }
      assert o in multiset{o};
      UnrefObject(o);
      xacts := xacts[x := o];
    }

    /** The dispatcher holds the object while the holders go, and until it has removed the transaction. */
    method AnswerDelete(x: XactId, gone: seq<Holder>)
      requires Balanced(Abs(), multiset{}) && Sound(Abs()) && x in xacts
      modifies this
      ensures Abs() == DeleteResponse(old(Abs()), x, gone)
    {
      var o := xacts[x];
      RefBalance(Abs(), o, multiset{});
      assert multiset{} + multiset{o} == multiset{o};
      RefObject(o);
      for i := 0 to |gone|
        invariant Balanced(Abs(), multiset{o}) && Sound(Abs())
        invariant ReleaseAll(Abs(), gone[i..]) == ReleaseAll(Ref(old(Abs()), o), gone)
      {
        assert gone[i..][1..] == gone[i + 1..];
        ReleaseBalance(Abs(), gone[i], multiset{o});
        ReleaseHolder(gone[i], multiset{o});
      }
      assert o in multiset{o};
      xacts := xacts - {x};
      UnrefObject(o);
    }
  }
}
