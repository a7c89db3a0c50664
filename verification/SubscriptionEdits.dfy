/**
 What the application's calls do to a subscription: its attributes over all runs, how it is found, which one a creation
 carries, and what is left of all that once the session has been deleted.
 */
module SubscriptionEdits {
  import opened Options
  import opened Subscriptions
  import opened Reconciler
  import opened SessionRuns
  import opened ServiceInfo

  // ---------- Attributes ----------

  /** The attributes that the last event about k gives it, if one does. */
  function LastGiven(es: seq<Event>, k: SubId): Option<Attributes> {
    if es == [] then None
    else
      match es[|es| - 1]
      case New(j, attributes) => if j == k then Some(attributes) else LastGiven(es[..|es| - 1], k)
      case Set(j, attributes) => if j == k then Some(attributes) else LastGiven(es[..|es| - 1], k)
      case _ => LastGiven(es[..|es| - 1], k)
  }

  lemma {:induction false} LastGivenFirst(e: Event, es: seq<Event>, k: SubId)
    ensures LastGiven([e] + es, k) == if LastGiven(es, k).Some? then LastGiven(es, k) else LastGiven([e], k)
  {
    if es == [] {
      assert [e] + es == [e];
    } else {
      assert ([e] + es)[..|es|] == [e] + es[..|es| - 1];
      LastGivenFirst(e, es[..|es| - 1], k);
    }
  }

  /** Nothing but its own calls changes the attributes of a subscription, and no other subscription gets them. */
  lemma StepGives(s: State, e: Event, k: SubId)
    requires Inv(s) && Possible(s, e) && k in Step(s, e).subs
    ensures var given := LastGiven([e], k);
      if given.Some? then Step(s, e).subs[k].attributes == given.value
      else k in s.subs && Step(s, e).subs[k].attributes == s.subs[k].attributes
  {
    assert [e][..0] == [];
    if e.Update? {
      UpdateSubsIs(s, e.order, e.body);
    }
  }

  /** Over every run each subscription has the attributes that it was given last. */
  lemma {:induction false} HasLastGiven(s: State, es: seq<Event>, k: SubId)
    requires Inv(s) && LegalRun(s, es) && k in Run(s, es).subs
    ensures LastGiven(es, k).Some? || k in s.subs
    ensures Run(s, es).subs[k].attributes == if LastGiven(es, k).Some? then LastGiven(es, k).value else s.subs[k].attributes
    decreases |es|
  {
    if es != [] {
      StepKeepsInv(s, es[0]);
      HasLastGiven(Step(s, es[0]), es[1..], k);
      LastGivenFirst(es[0], es[1..], k);
      assert [es[0]] + es[1..] == es;
      if LastGiven(es[1..], k).None? {
        StepGives(s, es[0], k);
      }
    }
  }

  /** A call that sets attributes marks the subscription exactly if they are others, and touches nothing else. */
  lemma SetTouches(s: State, k: SubId, attributes: Attributes)
    requires k in s.subs
    ensures var r := SetAttributes(s, k, attributes);
      && r == s.(subs := r.subs) && r.subs.Keys == s.subs.Keys
      && (forall j :: j in s.subs && j != k ==> r.subs[j] == s.subs[j])
      && r.subs[k].attributes == attributes && r.subs[k].id == s.subs[k].id && r.subs[k].attached == s.subs[k].attached
      && (r.subs[k].changed <==> s.subs[k].changed || s.subs[k].attributes != attributes)
  {
  }

  // ---------- Finding ----------

  predicate Correlated(s: State, k: SubId, correlationId: Option<string>) {
    k in s.subs && s.subs[k].attributes.correlationId == correlationId
  }

  lemma {:induction false} FirstCorrelatedIs(s: State, list: seq<SubId>, correlationId: Option<string>, i: nat)
    requires i < |list| && Correlated(s, list[i], correlationId)
    requires forall j :: 0 <= j < i ==> !Correlated(s, list[j], correlationId)
    ensures FirstCorrelated(s, list, correlationId) == Some(list[i])
  {
    if i > 0 {
      assert !Correlated(s, list[0], correlationId);
      FirstCorrelatedIs(s, list[1..], correlationId, i - 1);
    }
  }

  lemma {:induction false} EntriesOf(active: map<string, SubId>, order: seq<string>)
    requires forall id :: id in order ==> id in active
    ensures |Entries(active, order)| == |order| && forall i :: 0 <= i < |order| ==> Entries(active, order)[i] == active[order[i]]
  {
    if order != [] {
      assert order[0] in order && forall id :: id in order[1..] ==> id in order;
      EntriesOf(active, order[1..]);
    }
  }

  /** The first new subscription with the correlation id is found, whatever the active ones. */
  lemma FindsNew(s: State, correlationId: Option<string>, order: seq<string>, i: nat)
    requires !s.deleted && i < |s.pending| && Correlated(s, s.pending[i], correlationId)
    requires forall j :: 0 <= j < i ==> !Correlated(s, s.pending[j], correlationId)
    ensures Find(s, correlationId, order) == Some(s.pending[i])
  {
    FirstCorrelatedIs(s, s.pending, correlationId, i);
  }

  /** When no new one has it, the first active one that the visit of the hash meets. */
  lemma FindsActive(s: State, correlationId: Option<string>, order: seq<string>, i: nat)
    requires Inv(s) && !s.deleted && VisitsAll(order, s.active)
    requires forall k :: k in s.pending ==> !Correlated(s, k, correlationId)
    requires i < |order| && Correlated(s, s.active[order[i]], correlationId)
    requires forall j :: 0 <= j < i ==> !Correlated(s, s.active[order[j]], correlationId)
    ensures Find(s, correlationId, order) == Some(s.active[order[i]])
  {
    EntriesOf(s.active, order);
    NoneCorrelated(s, s.pending, correlationId);
    FirstCorrelatedIs(s, Entries(s.active, order), correlationId, i);
  }

  lemma {:induction false} NoneCorrelated(s: State, list: seq<SubId>, correlationId: Option<string>)
    requires forall k :: k in list ==> !Correlated(s, k, correlationId)
    ensures FirstCorrelated(s, list, correlationId).None?
  {
    if list != [] {
      assert list[0] in list && forall k :: k in list[1..] ==> k in list;
      NoneCorrelated(s, list[1..], correlationId);
    }
  }

  /** Nothing is found if neither list nor hash has it, or if the session has been deleted. */
  lemma FindsNone(s: State, correlationId: Option<string>, order: seq<string>)
    requires Inv(s) && VisitsAll(order, s.active)
    requires s.deleted || forall k :: k in s.pending || IsActive(s, k) ==> !Correlated(s, k, correlationId)
    ensures Find(s, correlationId, order).None?
  {
    if !s.deleted {
      EntriesOf(s.active, order);
      NoneCorrelated(s, s.pending, correlationId);
      forall k | k in Entries(s.active, order)
        ensures !Correlated(s, k, correlationId)
      {
        var i :| 0 <= i < |order| && Entries(s.active, order)[i] == k;
        assert order[i] in order && IsActive(s, k);
      }
      NoneCorrelated(s, Entries(s.active, order), correlationId);
    }
  }

  // ---------- The subscription that a creation carries ----------

  /** Bit n of a number in two's complement. */
  predicate HasBit(flags: int, value: nat)
    requires value > 0
  {
    flags / value % 2 == 1
  }

  const TMGI_EXPIRY := 1
  const DELIVERY_STATUS := 2
  const TUNNEL_CHANGE := 4

  /** The bits of the three events that there are. */
  predicate WantsEvent(flags: int) {
    HasBit(flags, TMGI_EXPIRY) || HasBit(flags, DELIVERY_STATUS) || HasBit(flags, TUNNEL_CHANGE)
  }

  lemma EventsAreBits(flags: int)
    ensures HasEvents(flags) <==> WantsEvent(flags)
  {
  }

  /** The first new subscription is carried, or the first active one that is visited if there is no new one, if it asks for an event. */
  lemma CarriedMeans(s: State, order: seq<string>, k: SubId)
    requires Inv(s) && VisitsAll(order, s.active)
    ensures Carried(s, order) == Some(k) <==>
            && k in s.subs && WantsEvent(s.subs[k].attributes.flags)
            && if s.pending != [] then s.pending[0] == k else order != [] && order[0] in s.active && s.active[order[0]] == k
  {
    EventsAreBits(if k in s.subs then s.subs[k].attributes.flags else 0);
    if s.pending != [] {
      assert s.pending[0] in s.pending;
      EventsAreBits(s.subs[s.pending[0]].attributes.flags);
    } else if order != [] {
      assert order[0] in order;
      EventsAreBits(s.subs[s.active[order[0]]].attributes.flags);
    }
  }

  // ---------- A deleted session ----------

  /**
   Once the session has been deleted, calls about subscriptions that would attach or detach one are refused, no response
   finds one, and every push sends the removal of the session and nothing else.
   */
  lemma DeletedOnlyRemoved(l: Local, k: SubId, correlationId: Option<string>, order: seq<string>, orders: Orders)
    ensures var d := LocalStep(l, OnSubs(DeleteSession));
      && d == l.(subs := l.subs.(deleted := true))
      && SessionRequests(d, order, orders) == [RemoveSession(l.id)]
      && AfterPush(d, order, orders) == d.(subs := d.subs.(sent := l.subs.sent + [RemoveSession(l.id)]))
      && Find(d.subs, correlationId, order).None?
      && (k in d.subs.subs ==> AddSub(d.subs, k) == d.subs && RemoveSub(d.subs, k) == d.subs)
  {
  }
}
