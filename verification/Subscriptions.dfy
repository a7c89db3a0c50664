/**
 Status subscriptions of one MBS Session. Pointers to subscription objects are ids; an object that has
 been freed is no longer in `subs`. An attached subscription waits in the list of new ones, or is in the
 hash of active ones under the id that the MB-SMF gave it, or waits in the list of those to be deleted.
 */
module Subscriptions {
  import opened Options
  import JsonDocument
  import JsonPatch
  import Sequences

  type SubId = nat

  datatype Attributes = Attributes(areaSessionId: nat, flags: int, correlationId: Option<string>, expiry: int)

  datatype Sub = Sub(id: Option<string>, attached: bool, changed: bool, attributes: Attributes)

  type Body = seq<JsonPatch.Patch>

  /** The body of a creation may carry a subscription; both kinds of update carry a patch list. */
  datatype Request =
    | CreateSession(document: JsonDocument.Json, carried: Option<SubId>)
    | UpdateSession(session: Option<string>, patches: Body)
    | RemoveSession(session: Option<string>)
    | CreateSub(sub: SubId)
    | UpdateSub(sub: SubId, id: Option<string>, patches: Body)
    | DeleteSub(sub: SubId, id: Option<string>)

  datatype State = State(
    subs: map<SubId, Sub>,
    pending: seq<SubId>,
    active: map<string, SubId>,
    doomed: seq<SubId>,
    deleted: bool,
    sent: seq<Request>)

  // ---------- Steps ----------

  /** A new subscription object, not yet attached. */
  function NewSub(s: State, k: SubId, attributes: Attributes): State {
    s.(subs := s.subs[k := Sub(None, false, false, attributes)])
  }

  /** Attach; an active subscription is first deleted at the MB-SMF and loses its id. */
  function AddSub(s: State, k: SubId): State
    requires k in s.subs
  {
    if s.deleted then s
    else
      var sub := s.subs[k];
      var s' := if sub.id.None? then s
                else s.(active := s.active - {sub.id.value}, sent := s.sent + [DeleteSub(k, sub.id)]);
      s'.(subs := s'.subs[k := sub.(id := None, attached := true, changed := true)], pending := s'.pending + [k])
  }

  /** Position of the first occurrence, or the length of the list. */
  function IndexOf(list: seq<SubId>, k: SubId): (i: nat)
    ensures i <= |list|
    ensures i < |list| ==> list[i] == k
    ensures k !in list[..i]
  {
    if list == [] then 0
    else if list[0] == k then 0
    else 1 + IndexOf(list[1..], k)
  }

  function Unlinked(list: seq<SubId>, k: SubId): seq<SubId> {
    var i := IndexOf(list, k);
    if i < |list| then list[..i] + list[i + 1..] else list
  }

  /** Detach: an active subscription is queued for deletion, a new one is unlinked and freed. */
  function RemoveSub(s: State, k: SubId): State
    requires k in s.subs
  {
    var sub := s.subs[k];
    if s.deleted || !sub.attached then s
    else if sub.id.Some? then
      s.(active := s.active - {sub.id.value}, doomed := s.doomed + [k], subs := s.subs[k := sub.(changed := true)])
    else if k in s.pending then s.(pending := Unlinked(s.pending, k), subs := s.subs - {k})
    else s
  }

  /** The setters: an attribute that really changes marks the subscription as changed. */
  function SetAttributes(s: State, k: SubId, attributes: Attributes): State
    requires k in s.subs
  {
    if s.subs[k].attributes == attributes then s
    else s.(subs := s.subs[k := s.subs[k].(attributes := attributes, changed := true)])
  }

  /** The subscription with a correlation id: the first such new one, else the first such active one visited. */
  function Find(s: State, correlationId: Option<string>, order: seq<string>): Option<SubId> {
    if s.deleted then None
    else
      var i := FirstCorrelated(s, s.pending, correlationId);
      if i.Some? then i else FirstCorrelated(s, Entries(s.active, order), correlationId)
  }

  function Entries(active: map<string, SubId>, order: seq<string>): seq<SubId> {
    if order == [] then []
    else (if order[0] in active then [active[order[0]]] else []) + Entries(active, order[1..])
  }

  function FirstCorrelated(s: State, list: seq<SubId>, correlationId: Option<string>): (r: Option<SubId>)
    ensures r.Some? ==> r.value in list && r.value in s.subs && s.subs[r.value].attributes.correlationId == correlationId
    ensures r.None? ==> forall k :: k in list && k in s.subs ==> s.subs[k].attributes.correlationId != correlationId
  {
    if list == [] then None
    else if list[0] in s.subs && s.subs[list[0]].attributes.correlationId == correlationId then Some(list[0])
    else FirstCorrelated(s, list[1..], correlationId)
  }

  /** The handler gets through a successful response unless a subscription is found and there is no location to read. */
  predicate Readable(s: State, correlationId: Option<string>, location: Option<string>, order: seq<string>) {
    location.Some? || Find(s, correlationId, order).None?
  }

  /**
   A successful response to a subscription request: the found subscription gets the id in the location, and becomes
   active.
   */
  function Subscribed(s: State, correlationId: Option<string>, location: Option<string>, order: seq<string>): State {
    var found := Find(s, correlationId, order);
    if found.None? || found.value !in s.subs || location.None? then s
    else
      var k, id := found.value, location.value;
      var s' := s.(subs := s.subs[k := s.subs[k].(id := Some(id))]);
      if k in s.pending then s'.(pending := Unlinked(s.pending, k), active := s.active[id := k]) else s'
  }

  function Acknowledge(s: State, k: SubId, request: Request): State {
    if k !in s.subs then s
    else s.(subs := s.subs[k := s.subs[k].(changed := false)],
            sent := if s.subs[k].changed then s.sent + [request] else s.sent)
  }

  /** The first n new subscriptions have been requested. */
  function Creates(s: State, n: nat): (r: State)
    requires n <= |s.pending|
    ensures r.pending == s.pending && r.active == s.active && r.doomed == s.doomed && r.deleted == s.deleted
  {
    if n == 0 then s
    else
      var k := s.pending[n - 1];
      Acknowledge(Creates(s, n - 1), k, CreateSub(k))
  }

  /** The first n entries visited in the hash of active subscriptions have been updated. */
  function Updates(s: State, order: seq<string>, body: Body, n: nat): (r: State)
    requires n <= |order|
    ensures r.pending == s.pending && r.active == s.active && r.doomed == s.doomed && r.deleted == s.deleted
  {
    if n == 0 then s
    else
      var s' := Updates(s, order, body, n - 1);
      if order[n - 1] !in s.active then s'
      else
        var k := s.active[order[n - 1]];
        if k !in s'.subs then s' else Acknowledge(s', k, UpdateSub(k, s'.subs[k].id, body))
  }

  /** The first n subscriptions waiting for deletion have been deleted and freed. */
  function Deletes(s: State, n: nat): (r: State)
    requires n <= |s.doomed|
    ensures r.pending == s.pending && r.active == s.active && r.doomed == s.doomed[n..] && r.deleted == s.deleted
  {
    if n == 0 then s
    else
      var s', k := Deletes(s, n - 1), s.doomed[n - 1];
      s'.(doomed := s.doomed[n..], subs := s'.subs - {k},
          sent := s'.sent + [DeleteSub(k, if k in s'.subs then s'.subs[k].id else None)])
  }

  /** The first subscription waiting for deletion is deleted and freed. */
  function DeleteFirst(s: State): State
    requires s.doomed != []
  {
    var k := s.doomed[0];
    s.(doomed := s.doomed[1..], subs := s.subs - {k},
       sent := s.sent + [DeleteSub(k, if k in s.subs then s.subs[k].id else None)])
  }

  lemma DeletesNext(s: State, n: nat)
    requires n < |s.doomed|
    ensures Deletes(s, n).doomed != [] && Deletes(s, n + 1) == DeleteFirst(Deletes(s, n))
  {
    assert s.doomed[n..][1..] == s.doomed[n + 1..];
  }

  function UpdateSubs(s: State, order: seq<string>, body: Body): State {
    var s1 := Creates(s, |s.pending|);
    var s2 := Updates(s1, order, body, |order|);
    Deletes(s2, |s2.doomed|)
  }

  // ---------- The subscription that a creation carries ----------

  /** The lowest three bits stand for the events that can be asked for. */
  predicate HasEvents(flags: int) {
    flags % 8 != 0
  }

  /** The first new subscription or, when there is none, the first active one visited. */
  function FirstInLine(s: State, order: seq<string>): Option<SubId> {
    if s.pending != [] then Some(s.pending[0])
    else if order != [] && order[0] in s.active then Some(s.active[order[0]])
    else None
  }

  /** A first one that asks for no event is not carried, and no other is tried in its place. */
  function Carried(s: State, order: seq<string>): Option<SubId> {
    var k := FirstInLine(s, order);
    if k.Some? && k.value in s.subs && HasEvents(s.subs[k.value].attributes.flags) then k else None
  }

  // ---------- Events and runs ----------

  datatype Event =
    | New(k: SubId, attributes: Attributes)
    | Add(k: SubId)
    | Remove(k: SubId)
    | Set(k: SubId, attributes: Attributes)
    | Response(correlationId: Option<string>, location: Option<string>, order: seq<string>)
    | Update(order: seq<string>, body: Body)
    | DeleteSession

  /** An event can only name an object that exists; a hash is visited entry by entry; a response must be readable. */
  ghost predicate Possible(s: State, e: Event) {
    match e
    case New(k, _) => k !in s.subs
    case Add(k) => k in s.subs
    case Remove(k) => k in s.subs
    case Set(k, _) => k in s.subs
    case Response(correlationId, location, order) => VisitsAll(order, s.active) && Readable(s, correlationId, location, order)
    case Update(order, _) => !s.deleted && VisitsAll(order, s.active)
    case DeleteSession => true
  }

  ghost predicate VisitsAll(order: seq<string>, active: map<string, SubId>) {
    && (forall id :: id in order <==> id in active)
    && (forall i, j :: 0 <= i < j < |order| ==> order[i] != order[j])
  }

  function Step(s: State, e: Event): State {
    match e
    case New(k, attributes) => NewSub(s, k, attributes)
    case Add(k) => if k in s.subs then AddSub(s, k) else s
    case Remove(k) => if k in s.subs then RemoveSub(s, k) else s
    case Set(k, attributes) => if k in s.subs then SetAttributes(s, k, attributes) else s
    case Response(correlationId, location, order) => Subscribed(s, correlationId, location, order)
    case Update(order, body) => UpdateSubs(s, order, body)
    case DeleteSession => s.(deleted := true)
  }

  function Run(s: State, es: seq<Event>): State
    decreases |es|
  {
    if es == [] then s else Run(Step(s, es[0]), es[1..])
  }

  // ---------- The invariant ----------

  predicate Distinct(list: seq<SubId>) {
    forall i, j :: 0 <= i < j < |list| ==> list[i] != list[j]
  }

  predicate IsActive(s: State, k: SubId) {
    k in s.subs && s.subs[k].id.Some? && s.subs[k].id.value in s.active && s.active[s.subs[k].id.value] == k
  }

  /** An attached subscription is in exactly one container: without id it is new, with id it is active or doomed. */
  predicate Placed(s: State, k: SubId)
    requires k in s.subs
  {
    var sub := s.subs[k];
    if !sub.attached then sub.id.None? && k !in s.pending && k !in s.doomed
    else if sub.id.None? then k in s.pending && k !in s.doomed
    else k !in s.pending && (k in s.doomed <==> !IsActive(s, k))
  }

  predicate Live(s: State, list: seq<SubId>) {
    Distinct(list) && forall k :: k in list ==> k in s.subs
  }

  /** The hash finds every active subscription under its own id. */
  predicate KeyedById(s: State) {
    forall id :: id in s.active ==> s.active[id] in s.subs && s.subs[s.active[id]].id == Some(id)
  }

  predicate Inv(s: State) {
    && Live(s, s.pending) && Live(s, s.doomed) && KeyedById(s)
    && forall k :: k in s.subs ==> Placed(s, k)
  }

  const EMPTY := State(map[], [], map[], [], false, [])

  lemma EmptyInv()
    ensures Inv(EMPTY)
  {
  }

  /** What callers and the MB-SMF must respect; a session marked as deleted ignores additions and removals. */
  predicate Legal(s: State, e: Event) {
    match e
    case Add(k) => s.deleted || (k !in s.pending && k !in s.doomed)
    case Remove(k) => s.deleted || k !in s.doomed
    case Response(correlationId, location, order) =>
      var found := Find(s, correlationId, order);
      found.Some? && found.value in s.subs && location.Some? ==>
        if found.value in s.pending then location.value !in s.active else s.subs[found.value].id == location
    case _ => true
  }

  lemma {:induction false} UnlinkedIs(list: seq<SubId>, k: SubId)
    requires Distinct(list)
    ensures Distinct(Unlinked(list, k))
    ensures forall x :: x in Unlinked(list, k) <==> x in list && x != k
  {
    var i := IndexOf(list, k);
    if i < |list| {
      TakenOut(list, i);
    } else {
      assert list[..i] == list;
    }
  }

  lemma TakenOut(list: seq<SubId>, i: nat)
    requires Distinct(list) && i < |list|
    ensures Distinct(list[..i] + list[i + 1..])
    ensures forall x :: x in list[..i] + list[i + 1..] <==> x in list && x != list[i]
  {
    var r := list[..i] + list[i + 1..];
    assert forall m :: 0 <= m < |r| ==> r[m] == list[if m < i then m else m + 1];
    forall x | x in list && x != list[i]
      ensures x in r
    {
      var j :| 0 <= j < |list| && list[j] == x;
      assert r[if j < i then j else j - 1] == x;
    }
  }

  lemma AppendedList(list: seq<SubId>, k: SubId)
    requires Distinct(list)
    ensures Distinct(list + [k]) <==> k !in list
    ensures forall x :: x in list + [k] <==> x in list || x == k
  {
    if k in list {
      var i :| 0 <= i < |list| && list[i] == k;
      assert (list + [k])[i] == (list + [k])[|list|];
    }
  }

  /** The other subscriptions keep their place when only k and the entry under one id of k's change. */
  lemma OthersStay(s: State, s': State, k: SubId)
    requires Inv(s)
    requires forall j :: j in s'.subs && j != k ==> j in s.subs && s'.subs[j] == s.subs[j]
    requires forall j :: j != k ==> (j in s'.pending <==> j in s.pending) && (j in s'.doomed <==> j in s.doomed)
    requires forall j :: j in s'.subs && j != k ==> (IsActive(s', j) <==> IsActive(s, j))
    ensures forall j :: j in s'.subs && j != k ==> Placed(s', j)
  {
    forall j | j in s'.subs && j != k
      ensures Placed(s', j)
    {
      assert Placed(s, j);
    }
  }

  lemma LegalAddKeepsInv(s: State, k: SubId)
    requires Inv(s) && k in s.subs && !s.deleted && k !in s.pending && k !in s.doomed
    ensures Inv(AddSub(s, k))
  {
    var s' := AddSub(s, k);
    AppendedList(s.pending, k);
    assert Placed(s, k);
    OthersStay(s, s', k);
  }

  lemma AddKeepsInv(s: State, k: SubId)
    requires Inv(s) && k in s.subs
    ensures Inv(AddSub(s, k)) <==> Legal(s, Add(k))
  {
    if !s.deleted {
      AppendedList(s.pending, k);
      if k !in s.pending && k !in s.doomed {
        LegalAddKeepsInv(s, k);
      } else if k in s.doomed {
        assert !Placed(AddSub(s, k), k);
      }
    }
  }

  lemma LegalRemoveKeepsInv(s: State, k: SubId)
    requires Inv(s) && k in s.subs && !s.deleted && k !in s.doomed
    ensures Inv(RemoveSub(s, k))
  {
    var s' := RemoveSub(s, k);
    UnlinkedIs(s.pending, k);
    AppendedList(s.doomed, k);
    assert Placed(s, k);
    OthersStay(s, s', k);
  }

  lemma RemoveKeepsInv(s: State, k: SubId)
    requires Inv(s) && k in s.subs
    ensures Inv(RemoveSub(s, k)) <==> Legal(s, Remove(k))
  {
    if !s.deleted {
      assert Placed(s, k);
      if k !in s.doomed {
        LegalRemoveKeepsInv(s, k);
      } else {
        AppendedList(s.doomed, k);
      }
    }
  }

  lemma {:induction false} EntriesAre(active: map<string, SubId>, order: seq<string>)
    ensures forall k :: k in Entries(active, order) ==> exists id :: id in active && active[id] == k
  {
    if order != [] {
      EntriesAre(active, order[1..]);
    }
  }

  lemma ActivationKeepsInv(s: State, k: SubId, id: string)
    requires Inv(s) && k in s.pending && id !in s.active
    ensures Inv(s.(subs := s.subs[k := s.subs[k].(id := Some(id))], pending := Unlinked(s.pending, k), active := s.active[id := k]))
  {
    var s' := s.(subs := s.subs[k := s.subs[k].(id := Some(id))], pending := Unlinked(s.pending, k), active := s.active[id := k]);
    UnlinkedIs(s.pending, k);
    assert Placed(s, k);
    OthersStay(s, s', k);
  }

  lemma StolenIdBreaksInv(s: State, k: SubId, id: string)
    requires Inv(s) && k in s.pending && id in s.active
    ensures !Inv(s.(subs := s.subs[k := s.subs[k].(id := Some(id))], pending := Unlinked(s.pending, k), active := s.active[id := k]))
  {
    var s' := s.(subs := s.subs[k := s.subs[k].(id := Some(id))], pending := Unlinked(s.pending, k), active := s.active[id := k]);
    var other := s.active[id];
    assert Placed(s, other) && Placed(s, k);
    assert !Placed(s', other);
  }

  lemma ResponseKeepsInv(s: State, correlationId: Option<string>, location: Option<string>, order: seq<string>)
    requires Inv(s)
    ensures Inv(Subscribed(s, correlationId, location, order)) <==> Legal(s, Response(correlationId, location, order))
  {
    var found := Find(s, correlationId, order);
    if found.Some? && location.Some? {
      var k, id := found.value, location.value;
      if k in s.pending {
        if id in s.active {
          StolenIdBreaksInv(s, k, id);
        } else {
          ActivationKeepsInv(s, k, id);
        }
      } else {
        EntriesAre(s.active, order);
        var s' := Subscribed(s, correlationId, location, order);
        var key :| key in s.active && s.active[key] == k;
        if s.subs[k].id == Some(id) {
          assert s' == s;
        } else {
          assert s'.subs[s'.active[key]].id != Some(key);
        }
      }
    }
  }

  // ---------- A push ----------

  /** Nothing but changed marks differ. */
  predicate SameButMarks(s: State, s': State) {
    && s'.pending == s.pending && s'.active == s.active && s'.doomed == s.doomed && s'.deleted == s.deleted
    && s'.subs.Keys == s.subs.Keys
    && forall k :: k in s.subs ==> s'.subs[k] == s.subs[k].(changed := s'.subs[k].changed)
  }

  lemma MarksKeepInv(s: State, s': State)
    requires SameButMarks(s, s')
    ensures Inv(s) <==> Inv(s')
  {
    assert forall k :: k in s.subs ==> (Placed(s, k) <==> Placed(s', k));
  }

  function CreateRequests(s: State, n: nat): seq<Request>
    requires n <= |s.pending| && forall k :: k in s.pending ==> k in s.subs
  {
    if n == 0 then []
    else CreateRequests(s, n - 1) + (if s.subs[s.pending[n - 1]].changed then [CreateSub(s.pending[n - 1])] else [])
  }

  function UpdateRequests(s: State, order: seq<string>, body: Body, n: nat): seq<Request>
    requires n <= |order| && forall id :: id in order ==> id in s.active && s.active[id] in s.subs
  {
    if n == 0 then []
    else
      var id := order[n - 1];
      UpdateRequests(s, order, body, n - 1) + (if s.subs[s.active[id]].changed then [UpdateSub(s.active[id], Some(id), body)] else [])
  }

  function DeleteRequests(s: State, n: nat): seq<Request>
    requires n <= |s.doomed| && forall k :: k in s.doomed ==> k in s.subs
  {
    if n == 0 then [] else DeleteRequests(s, n - 1) + [DeleteSub(s.doomed[n - 1], s.subs[s.doomed[n - 1]].id)]
  }

  /** The requests of a push: creations, then updates in the order of the visit, then deletions. */
  function PushRequests(s: State, order: seq<string>, body: Body): seq<Request>
    requires Inv(s) && forall id :: id in order ==> id in s.active
  {
    CreateRequests(s, |s.pending|) + UpdateRequests(s, order, body, |order|) + DeleteRequests(s, |s.doomed|)
  }

  lemma AcknowledgeIs(s: State, k: SubId, request: Request)
    requires k in s.subs
    ensures var r := Acknowledge(s, k, request);
      && SameButMarks(s, r)
      && r.sent == s.sent + (if s.subs[k].changed then [request] else [])
      && forall j :: j in s.subs ==> r.subs[j].changed == (s.subs[j].changed && j != k)
  {
  }

  lemma SameButMarksTransitive(x: State, y: State, z: State)
    requires SameButMarks(x, y) && SameButMarks(y, z)
    ensures SameButMarks(x, z)
  {
  }

  lemma {:induction false} CreatesMark(s: State, n: nat)
    requires Inv(s) && n <= |s.pending|
    ensures SameButMarks(s, Creates(s, n))
    ensures forall k :: k in s.subs ==> Creates(s, n).subs[k].changed == (s.subs[k].changed && k !in s.pending[..n])
  {
    if n > 0 {
      CreatesMark(s, n - 1);
      var k := s.pending[n - 1];
      assert s.pending[..n] == s.pending[..n - 1] + [k];
      assert k in s.pending;
      AcknowledgeIs(Creates(s, n - 1), k, CreateSub(k));
      SameButMarksTransitive(s, Creates(s, n - 1), Creates(s, n));
    }
  }

  lemma {:induction false} CreatesSend(s: State, n: nat)
    requires Inv(s) && n <= |s.pending|
    ensures Creates(s, n).sent == s.sent + CreateRequests(s, n)
  {
    if n > 0 {
      CreatesSend(s, n - 1);
      CreatesMark(s, n - 1);
      var r, k := Creates(s, n - 1), s.pending[n - 1];
      assert k in s.pending && k !in s.pending[..n - 1];
      AcknowledgeIs(r, k, CreateSub(k));
      Sequences.Regroup(s.sent, CreateRequests(s, n - 1), if s.subs[k].changed then [CreateSub(k)] else []);
    }
  }

  lemma {:induction false} UpdatesMark(s: State, order: seq<string>, body: Body, n: nat)
    requires Inv(s) && n <= |order|
    requires forall id :: id in order ==> id in s.active
    ensures SameButMarks(s, Updates(s, order, body, n))
    ensures forall k :: k in s.subs ==>
              Updates(s, order, body, n).subs[k].changed == (s.subs[k].changed && !(IsActive(s, k) && s.subs[k].id.value in order[..n]))
  {
    if n > 0 {
      UpdatesMark(s, order, body, n - 1);
      var r, id := Updates(s, order, body, n - 1), order[n - 1];
      assert order[..n] == order[..n - 1] + [id];
      assert id in order;
      var k := s.active[id];
      AcknowledgeIs(r, k, UpdateSub(k, r.subs[k].id, body));
      SameButMarksTransitive(s, r, Updates(s, order, body, n));
    }
  }

  lemma {:induction false} UpdatesSend(s: State, order: seq<string>, body: Body, n: nat)
    requires Inv(s) && n <= |order|
    requires forall id :: id in order ==> id in s.active
    requires forall i, j :: 0 <= i < j < |order| ==> order[i] != order[j]
    ensures Updates(s, order, body, n).sent == s.sent + UpdateRequests(s, order, body, n)
  {
    if n > 0 {
      UpdatesSend(s, order, body, n - 1);
      UpdatesMark(s, order, body, n - 1);
      var r, id := Updates(s, order, body, n - 1), order[n - 1];
      assert id in order && id !in order[..n - 1];
      var k := s.active[id];
      AcknowledgeIs(r, k, UpdateSub(k, r.subs[k].id, body));
      Sequences.Regroup(s.sent, UpdateRequests(s, order, body, n - 1), if s.subs[k].changed then [UpdateSub(k, Some(id), body)] else []);
    }
  }

  lemma {:induction false} DeletesFree(s: State, n: nat)
    requires n <= |s.doomed|
    ensures forall k :: k in Deletes(s, n).subs <==> k in s.subs && k !in s.doomed[..n]
    ensures forall k :: k in Deletes(s, n).subs ==> Deletes(s, n).subs[k] == s.subs[k]
  {
    if n > 0 {
      DeletesFree(s, n - 1);
      assert s.doomed[..n] == s.doomed[..n - 1] + [s.doomed[n - 1]];
      assert Deletes(s, n).subs == Deletes(s, n - 1).subs - {s.doomed[n - 1]};
    }
  }

  lemma {:induction false} DeletesSend(s: State, n: nat)
    requires Inv(s) && n <= |s.doomed|
    ensures Deletes(s, n).sent == s.sent + DeleteRequests(s, n)
  {
    if n > 0 {
      DeletesSend(s, n - 1);
      DeletesFree(s, n - 1);
      var k := s.doomed[n - 1];
      assert k in s.doomed && k !in s.doomed[..n - 1];
      Sequences.Regroup(s.sent, DeleteRequests(s, n - 1), [DeleteSub(k, s.subs[k].id)]);
    }
  }

  /** What the three loops of a push leave of each subscription. */
  ghost predicate Pushed(s: State, r: State) {
    && r.pending == s.pending && r.active == s.active && r.doomed == [] && r.deleted == s.deleted
    && (forall k :: k in r.subs <==> k in s.subs && k !in s.doomed)
    && (forall k :: k in r.subs ==>
          r.subs[k] == s.subs[k].(changed := s.subs[k].changed && k !in s.pending && !IsActive(s, k)))
  }

  /**
   All that a push of the subscriptions does, whatever order the hash is visited in: a creation request for
   each changed new one, an update request under its id for each changed active one, a deletion request for
   each doomed one; nothing stays marked as changed, and the doomed ones are freed.
   */
  lemma UpdateSubsIs(s: State, order: seq<string>, body: Body)
    requires Inv(s) && VisitsAll(order, s.active)
    ensures Pushed(s, UpdateSubs(s, order, body))
    ensures UpdateSubs(s, order, body).sent == s.sent + PushRequests(s, order, body)
  {
    PushMarks(s, order, body);
    PushSendsAll(s, order, body);
  }

  lemma PushMarks(s: State, order: seq<string>, body: Body)
    requires Inv(s) && VisitsAll(order, s.active)
    ensures Pushed(s, UpdateSubs(s, order, body))
  {
    var s1 := Creates(s, |s.pending|);
    CreatePhase(s);
    UpdatePhase(s1, order, body);
    var s2 := Updates(s1, order, body, |order|);
    SameButMarksTransitive(s, s1, s2);
    DeletesFree(s2, |s2.doomed|);
    assert s.doomed[..|s.doomed|] == s.doomed;
    assert forall k :: k in s.subs ==> IsActive(s1, k) == IsActive(s, k);
    assert forall k :: k in s.subs ==> s2.subs[k] == s1.subs[k].(changed := s1.subs[k].changed && !IsActive(s1, k));
  }

  lemma PushSendsAll(s: State, order: seq<string>, body: Body)
    requires Inv(s) && VisitsAll(order, s.active)
    ensures UpdateSubs(s, order, body).sent == s.sent + PushRequests(s, order, body)
  {
    var s1 := Creates(s, |s.pending|);
    var s2 := Updates(s1, order, body, |order|);
    CreatesSend(s, |s.pending|);
    UpdatesSendAll(s, order, body);
    DeletesSendAll(s, order, body);
    var c, u, d := CreateRequests(s, |s.pending|), UpdateRequests(s, order, body, |order|), DeleteRequests(s, |s.doomed|);
    Sequences.Regroup(s.sent, c, u);
    Sequences.Regroup(s.sent, c + u, d);
  }

  lemma UpdatesSendAll(s: State, order: seq<string>, body: Body)
    requires Inv(s) && VisitsAll(order, s.active)
    ensures var s1 := Creates(s, |s.pending|);
      Updates(s1, order, body, |order|).sent == s1.sent + UpdateRequests(s, order, body, |order|)
  {
    var s1 := Creates(s, |s.pending|);
    CreatePhase(s);
    UpdatesSend(s1, order, body, |order|);
    UpdateRequestsAgree(s, s1, order, body, |order|);
  }

  lemma DeletesSendAll(s: State, order: seq<string>, body: Body)
    requires Inv(s) && VisitsAll(order, s.active)
    ensures var s1 := Creates(s, |s.pending|); var s2 := Updates(s1, order, body, |order|);
      Deletes(s2, |s.doomed|).sent == s2.sent + DeleteRequests(s, |s.doomed|)
  {
    var s1 := Creates(s, |s.pending|);
    var s2 := Updates(s1, order, body, |order|);
    CreatePhase(s);
    UpdatePhase(s1, order, body);
    SameButMarksTransitive(s, s1, s2);
    DeletesSend(s2, |s.doomed|);
    DeleteRequestsAgree(s, s2, |s.doomed|);
  }

  lemma UpdatePhase(s: State, order: seq<string>, body: Body)
    requires Inv(s) && VisitsAll(order, s.active)
    ensures var s2 := Updates(s, order, body, |order|);
      && Inv(s2) && SameButMarks(s, s2)
      && (forall k :: k in s.subs ==> s2.subs[k] == s.subs[k].(changed := s.subs[k].changed && !IsActive(s, k)))
  {
    UpdatesMark(s, order, body, |order|);
    MarksKeepInv(s, Updates(s, order, body, |order|));
    assert order[..|order|] == order;
  }

  lemma CreatePhase(s: State)
    requires Inv(s)
    ensures var s1 := Creates(s, |s.pending|);
      && Inv(s1) && SameButMarks(s, s1)
      && (forall k :: k in s.subs && IsActive(s, k) ==> k !in s.pending)
      && (forall k :: k in s.subs ==> s1.subs[k] == s.subs[k].(changed := s.subs[k].changed && k !in s.pending))
  {
    CreatesMark(s, |s.pending|);
    MarksKeepInv(s, Creates(s, |s.pending|));
    assert s.pending[..|s.pending|] == s.pending;
    forall k | k in s.subs && IsActive(s, k)
      ensures k !in s.pending
    {
      assert Placed(s, k);
    }
  }

  lemma {:induction false} UpdateRequestsAgree(s: State, s': State, order: seq<string>, body: Body, n: nat)
    requires Inv(s) && SameButMarks(s, s') && n <= |order| && forall id :: id in order ==> id in s.active
    requires forall k :: k in s.subs && IsActive(s, k) ==> s'.subs[k] == s.subs[k]
    ensures UpdateRequests(s', order, body, n) == UpdateRequests(s, order, body, n)
  {
    if n > 0 {
      UpdateRequestsAgree(s, s', order, body, n - 1);
      assert order[n - 1] in order;
      assert IsActive(s, s.active[order[n - 1]]);
    }
  }

  lemma {:induction false} DeleteRequestsAgree(s: State, s': State, n: nat)
    requires Inv(s) && SameButMarks(s, s') && n <= |s.doomed|
    ensures DeleteRequests(s', n) == DeleteRequests(s, n)
  {
    if n > 0 {
      DeleteRequestsAgree(s, s', n - 1);
      assert s.doomed[n - 1] in s.doomed;
    }
  }

  lemma PushKeepsInv(s: State, order: seq<string>, body: Body)
    requires Inv(s) && VisitsAll(order, s.active)
    ensures Inv(UpdateSubs(s, order, body))
  {
    var r := UpdateSubs(s, order, body);
    UpdateSubsIs(s, order, body);
    forall k | k in r.subs
      ensures Placed(r, k)
    {
      assert Placed(s, k);
      assert IsActive(r, k) <==> IsActive(s, k);
    }
    forall k | k in s.pending
      ensures k in r.subs
    {
      assert Placed(s, k);
    }
    forall id | id in s.active
      ensures s.active[id] in r.subs
    {
      assert IsActive(s, s.active[id]) && Placed(s, s.active[id]);
    }
  }

  // ---------- All runs ----------

  /** An event that can happen keeps the containers consistent if and only if it is legal. */
  lemma StepKeepsInv(s: State, e: Event)
    requires Inv(s) && Possible(s, e)
    ensures Inv(Step(s, e)) <==> Legal(s, e)
  {
    match e
    case New(k, attributes) =>
      var s' := NewSub(s, k, attributes);
      OthersStay(s, s', k);
    case Add(k) => AddKeepsInv(s, k);
    case Remove(k) => RemoveKeepsInv(s, k);
    case Set(k, attributes) =>
      var s' := SetAttributes(s, k, attributes);
      OthersStay(s, s', k);
      assert Placed(s, k);
    case Response(correlationId, location, order) => ResponseKeepsInv(s, correlationId, location, order);
    case Update(order, body) => PushKeepsInv(s, order, body);
    case DeleteSession =>
      assert forall k :: k in s.subs ==> (Placed(s, k) <==> Placed(Step(s, e), k));
  }

  ghost predicate LegalRun(s: State, es: seq<Event>)
    decreases |es|
  {
    es != [] ==> Possible(s, es[0]) && Legal(s, es[0]) && LegalRun(Step(s, es[0]), es[1..])
  }

  lemma {:induction false} RunKeepsInv(s: State, es: seq<Event>)
    requires Inv(s) && LegalRun(s, es)
    ensures Inv(Run(s, es))
    decreases |es|
  {
    if es != [] {
      StepKeepsInv(s, es[0]);
      RunKeepsInv(Step(s, es[0]), es[1..]);
    }
  }

  // ---------- What a push sends ----------

  lemma {:induction false} CreateRequestsMean(s: State, n: nat, r: Request)
    requires Inv(s) && n <= |s.pending|
    ensures r in CreateRequests(s, n) <==>
            r.CreateSub? && r.sub in s.pending[..n] && s.subs[r.sub].changed
  {
    if n > 0 {
      CreateRequestsMean(s, n - 1, r);
      assert s.pending[..n] == s.pending[..n - 1] + [s.pending[n - 1]];
      assert s.pending[n - 1] in s.pending;
    }
  }

  lemma {:induction false} UpdateRequestsMean(s: State, order: seq<string>, body: Body, n: nat, r: Request)
    requires Inv(s) && n <= |order| && forall id :: id in order ==> id in s.active
    ensures r in UpdateRequests(s, order, body, n) <==>
            && r.UpdateSub? && r.patches == body && r.id.Some? && r.id.value in order[..n]
            && s.active[r.id.value] == r.sub && s.subs[r.sub].changed
  {
    if n > 0 {
      UpdateRequestsMean(s, order, body, n - 1, r);
      assert order[..n] == order[..n - 1] + [order[n - 1]];
      assert order[n - 1] in order;
    }
  }

  lemma {:induction false} DeleteRequestsMean(s: State, n: nat, r: Request)
    requires Inv(s) && n <= |s.doomed|
    ensures r in DeleteRequests(s, n) <==> r.DeleteSub? && r.sub in s.doomed[..n] && s.subs[r.sub].id == r.id
  {
    if n > 0 {
      DeleteRequestsMean(s, n - 1, r);
      assert s.doomed[..n] == s.doomed[..n - 1] + [s.doomed[n - 1]];
      assert s.doomed[n - 1] in s.doomed;
    }
  }

  /**
   The requests of a push, exactly: creations go out for changed new subscriptions only, updates for changed
   active ones only and under the id the MB-SMF knows, deletions for doomed ones only and under their id.
   */
  lemma PushSends(s: State, order: seq<string>, body: Body, r: Request)
    requires Inv(s) && VisitsAll(order, s.active)
    ensures UpdateSubs(s, order, body).sent == s.sent + PushRequests(s, order, body)
    ensures r in PushRequests(s, order, body) <==>
            match r
            case CreateSub(k) => k in s.pending && s.subs[k].changed
            case UpdateSub(k, id, patches) => IsActive(s, k) && s.subs[k].id == id && s.subs[k].changed && patches == body
            case DeleteSub(k, id) => k in s.doomed && s.subs[k].id == id
            case _ => false
  {
    UpdateSubsIs(s, order, body);
    RequestsMean(s, order, body, r);
  }

  lemma RequestsMean(s: State, order: seq<string>, body: Body, r: Request)
    requires Inv(s) && VisitsAll(order, s.active)
    ensures r in CreateRequests(s, |s.pending|) <==> r.CreateSub? && r.sub in s.pending && s.subs[r.sub].changed
    ensures r in UpdateRequests(s, order, body, |order|) <==>
            r.UpdateSub? && IsActive(s, r.sub) && s.subs[r.sub].id == r.id && s.subs[r.sub].changed && r.patches == body
    ensures r in DeleteRequests(s, |s.doomed|) <==> r.DeleteSub? && r.sub in s.doomed && s.subs[r.sub].id == r.id
  {
    CreateRequestsMean(s, |s.pending|, r);
    UpdateRequestsMean(s, order, body, |order|, r);
    DeleteRequestsMean(s, |s.doomed|, r);
    assert s.pending[..|s.pending|] == s.pending && order[..|order|] == order && s.doomed[..|s.doomed|] == s.doomed;
  }

  // ---------- What a response does ----------

  /** A legal response makes the new subscription that it is for active under the id it brings, and no longer new. */
  lemma AnsweredIsActive(s: State, correlationId: Option<string>, location: Option<string>, order: seq<string>)
    requires Inv(s) && Possible(s, Response(correlationId, location, order)) && Legal(s, Response(correlationId, location, order))
    requires var found := Find(s, correlationId, order); found.Some? && found.value in s.pending
    ensures var k, r := Find(s, correlationId, order).value, Subscribed(s, correlationId, location, order);
      location.Some? && IsActive(r, k) && r.subs[k].id == location && k !in r.pending && Inv(r)
  {
    UnlinkedIs(s.pending, Find(s, correlationId, order).value);
    ResponseKeepsInv(s, correlationId, location, order);
  }

  /** A response that repeats the correlation id of a waiting subscription can be read if and only if it has a location. */
  lemma EchoNeedsLocation(s: State, k: SubId, location: Option<string>, order: seq<string>)
    requires Inv(s) && !s.deleted && k in s.pending && VisitsAll(order, s.active)
    ensures k in s.subs && (Possible(s, Response(s.subs[k].attributes.correlationId, location, order)) <==> location.Some?)
  {
    assert k in s.subs;
    if FirstCorrelated(s, s.pending, s.subs[k].attributes.correlationId).None? {
      assert false;
    }
  }

  /** No subscription is active or waits to be deleted, and none has been updated or deleted at the MB-SMF. */
  predicate NoneActive(s: State) {
    s.active == map[] && s.doomed == [] && forall r :: r in s.sent ==> !r.UpdateSub? && !r.DeleteSub?
  }

  lemma NoneActiveNoIds(s: State)
    requires Inv(s) && NoneActive(s)
    ensures forall k :: k in s.subs ==> s.subs[k].id.None?
  {
    forall k | k in s.subs
      ensures s.subs[k].id.None?
    {
      assert Placed(s, k);
    }
  }

  lemma PushActivatesNone(s: State, order: seq<string>, body: Body)
    requires Inv(s) && NoneActive(s) && VisitsAll(order, s.active)
    ensures NoneActive(UpdateSubs(s, order, body))
  {
    UpdateSubsIs(s, order, body);
    forall r | r in PushRequests(s, order, body)
      ensures !r.UpdateSub? && !r.DeleteSub?
    {
      RequestsMean(s, order, body, r);
    }
  }

  /** Without a location no event activates a subscription. */
  lemma StepActivatesNone(s: State, e: Event)
    requires Inv(s) && NoneActive(s) && Possible(s, e) && (e.Response? ==> e.location.None?)
    ensures NoneActive(Step(s, e))
  {
    NoneActiveNoIds(s);
    match e
    case Update(order, body) => PushActivatesNone(s, order, body);
    case _ =>
  }

  // ---------- How often a subscription has been asked for ----------

  /** A subscription is asked for by a request of its own, or within the creation of the session. */
  datatype Way = Directly | WithSession

  predicate Asks(r: Request, k: SubId, way: Way) {
    match way
    case Directly => r == CreateSub(k)
    case WithSession => r.CreateSession? && r.carried == Some(k)
  }

  function Asked(sent: seq<Request>, k: SubId, way: Way): nat {
    if sent == [] then 0
    else Asked(sent[..|sent| - 1], k, way) + (if Asks(sent[|sent| - 1], k, way) then 1 else 0)
  }

  lemma {:induction false} AskedAppend(x: seq<Request>, y: seq<Request>, k: SubId, way: Way)
    ensures Asked(x + y, k, way) == Asked(x, k, way) + Asked(y, k, way)
  {
    if y == [] {
      assert x + y == x;
    } else {
      assert (x + y)[..|x + y| - 1] == x + y[..|y| - 1];
      AskedAppend(x, y[..|y| - 1], k, way);
    }
  }

  lemma {:induction false} NotAsked(y: seq<Request>, k: SubId, way: Way)
    requires forall r :: r in y ==> !Asks(r, k, way)
    ensures Asked(y, k, way) == 0
  {
    if y != [] {
      NotAsked(y[..|y| - 1], k, way);
    }
  }

  lemma AskedOne(r: Request, k: SubId, way: Way)
    ensures Asked([r], k, way) == if Asks(r, k, way) then 1 else 0
  {
    assert [r][..0] == [];
  }

  lemma {:induction false} AskedByCreates(s: State, n: nat, k: SubId)
    requires Live(s, s.pending) && n <= |s.pending|
    ensures Asked(CreateRequests(s, n), k, Directly) == if k in s.pending[..n] && s.subs[k].changed then 1 else 0
  {
    if n > 0 {
      AskedByCreates(s, n - 1, k);
      var last := s.pending[n - 1];
      assert s.pending[..n] == s.pending[..n - 1] + [last];
      assert last in s.pending && last !in s.pending[..n - 1];
      if s.subs[last].changed {
        AskedAppend(CreateRequests(s, n - 1), [CreateSub(last)], k, Directly);
        AskedOne(CreateSub(last), k, Directly);
      } else {
        assert CreateRequests(s, n) == CreateRequests(s, n - 1);
      }
    }
  }

  lemma AskedByThree(c: seq<Request>, u: seq<Request>, d: seq<Request>, k: SubId, way: Way)
    requires forall r :: r in u || r in d ==> !Asks(r, k, way)
    ensures Asked(c + u + d, k, way) == Asked(c, k, way)
  {
    AskedAppend(c + u, d, k, way);
    AskedAppend(c, u, k, way);
    NotAsked(u, k, way);
    NotAsked(d, k, way);
  }

  lemma OnlyCreatesAsk(s: State, order: seq<string>, body: Body, k: SubId, way: Way)
    requires Inv(s) && VisitsAll(order, s.active)
    ensures Asked(PushRequests(s, order, body), k, way) == Asked(CreateRequests(s, |s.pending|), k, way)
    ensures way == WithSession ==> Asked(PushRequests(s, order, body), k, way) == 0
  {
    var c, u, d := CreateRequests(s, |s.pending|), UpdateRequests(s, order, body, |order|), DeleteRequests(s, |s.doomed|);
    forall r | r in u || r in d
      ensures !Asks(r, k, way)
    {
      RequestsMean(s, order, body, r);
    }
    AskedByThree(c, u, d, k, way);
    if way == WithSession {
      forall r | r in c
        ensures !Asks(r, k, way)
      {
        RequestsMean(s, order, body, r);
      }
      NotAsked(c, k, way);
    }
  }

  /** An update of the subscriptions asks directly for each new one that is marked as changed, once. */
  lemma AskedByUpdate(s: State, order: seq<string>, body: Body, k: SubId)
    requires Inv(s) && VisitsAll(order, s.active)
    ensures Asked(UpdateSubs(s, order, body).sent, k, Directly)
         == Asked(s.sent, k, Directly) + (if k in s.pending && s.subs[k].changed then 1 else 0)
    ensures Asked(UpdateSubs(s, order, body).sent, k, WithSession) == Asked(s.sent, k, WithSession)
  {
    PushSendsAll(s, order, body);
    AskedAppend(s.sent, PushRequests(s, order, body), k, Directly);
    AskedAppend(s.sent, PushRequests(s, order, body), k, WithSession);
    OnlyCreatesAsk(s, order, body, k, Directly);
    OnlyCreatesAsk(s, order, body, k, WithSession);
    AskedByCreates(s, |s.pending|, k);
    assert s.pending[..|s.pending|] == s.pending;
  }
}
