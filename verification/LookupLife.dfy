/** The whole life of a look-up that the cache cannot answer: made, sent, answered, and called back. */
module LookupLife {
  import opened Options
  import opened BindingCache
  import opened BsfLookup

  /** The transaction stands for a request of the session. */
  predicate PointsTo(s: State, x: XactId, k: SessId) {
    x in s.xacts && s.xacts[x] == k
  }

  /**
   After the local event the transaction points to its session if and only if the session is active and the request
   could be sent, or it did so before; all other transactions, and all else, are as before.
   */
  lemma RequestPointsTo(s: State, k: SessId, x: XactId, sent: bool)
    requires s.running
    ensures var r := Step(s, BsfLookup.LocalEvent(k, x, sent));
      && (PointsTo(r, x, k) <==> (k in s.active && sent) || PointsTo(s, x, k))
      && (forall y: XactId, j: SessId :: y != x ==> (PointsTo(r, y, j) <==> PointsTo(s, y, j)))
      && (forall j: SessId :: j != k ==> (PointsTo(r, x, j) <==> PointsTo(s, x, j) && !(k in s.active && sent)))
      && r == s.(xacts := r.xacts)
  {
  }

  /** The answers that end a look-up, and what its callback is given. */
  predicate Ends(e: BsfLookup.Event, x: XactId) {
    match e
    case Response(y, answer) => y == x && (answer.Answered? || answer.Refused?)
    case Timeout(y) => y == x
    case _ => false
  }

  function Given(e: BsfLookup.Event): Option<Binding> {
    if e.Response? && e.answer.Answered? then Some(e.answer.binding) else None
  }

  function Life(s: State, a: Address, now: Time, x: XactId, e: BsfLookup.Event): seq<BsfLookup.Event> {
    [BsfLookup.Lookup(a, now)] + ([BsfLookup.LocalEvent(s.next, x, true)] + ([e] + []))
  }

  lemma RunOne(s: State, e: BsfLookup.Event, es: seq<BsfLookup.Event>)
    ensures BsfLookup.Run(s, [e] + es) == BsfLookup.Run(Step(s, e), es)
  {
    assert ([e] + es)[1..] == es;
  }

  lemma {:induction false} RemoveLast(list: seq<SessId>, k: SessId)
    requires k !in list
    ensures Remove(list + [k], k) == list
  {
    if list != [] {
      assert (list + [k])[1..] == list[1..] + [k] && list[0] in list;
      RemoveLast(list[1..], k);
    }
  }

  /** The new session before it is answered: active under its address, with its request under way, and not called back. */
  predicate Waiting(r: State, s: State, a: Address, now: Time, x: XactId) {
    && r.running && r.active == s.active + [s.next] && r.addresses == s.addresses[s.next := a] && r.xacts == s.xacts[x := s.next]
    && r.store == AfterFind(s.store, a, now) && r.calls == s.calls && r.next == s.next + 1
  }

  lemma MadeAndSent(s: State, a: Address, now: Time, x: XactId)
    requires s.running && Found(s.store, a, now).None?
    ensures Waiting(Step(Step(s, BsfLookup.Lookup(a, now)), BsfLookup.LocalEvent(s.next, x, true)), s, a, now, x)
  {
    assert s.next in s.active + [s.next];
  }

  /** With its retirement the session and its request are gone without a trace. */
  lemma RetireUndoes(r: State, s: State, a: Address, x: XactId)
    requires Inv(s) && x !in s.xacts
    requires r.active == s.active + [s.next] && r.addresses == s.addresses[s.next := a] && r.xacts == s.xacts[x := s.next]
    ensures Retire(r, s.next) == r.(active := s.active, addresses := s.addresses, xacts := s.xacts)
  {
    assert s.next !in s.active && s.next !in s.addresses;
    RemoveLast(s.active, s.next);
    assert r.addresses - {s.next} == s.addresses;
    RequestGone(s, x);
  }

  lemma RequestGone(s: State, x: XactId)
    requires Inv(s) && x !in s.xacts
    ensures var m := s.xacts[x := s.next]; (map y | y in m && m[y] != s.next :: m[y]) == s.xacts
  {
    var m := s.xacts[x := s.next];
    var left := map y | y in m && m[y] != s.next :: m[y];
    forall y | y in s.xacts.Keys
      ensures y in left.Keys && left[y] == s.xacts[y]
    {
      assert y in s.xacts && s.xacts[y] in s.active && s.xacts[y] < s.next;
    }
    assert left.Keys == s.xacts.Keys;
  }

  lemma AnswerEnds(r: State, s: State, a: Address, now: Time, x: XactId, e: BsfLookup.Event)
    requires Inv(s) && Waiting(r, s, a, now, x) && x !in s.xacts && Ends(e, x)
    ensures Step(r, e) ==
            State(s.active, s.addresses, s.xacts,
                  if Given(e).Some? then AfterFind(s.store, a, now)[a := CacheEntry(Given(e).value, e.answer.expires)]
                  else AfterFind(s.store, a, now),
                  s.calls + [Call(Some(s.next), Given(e))], s.next + 1, true)
  {
    assert s.next in r.active;
    var c := CallBack(r, s.next, Given(e));
    RetireUndoes(c, s, a, x);
    if Given(e).Some? {
      RetireUndoes(c.(store := AfterAdd(c.store, a, Given(e).value, e.answer.expires)), s, a, x);
    }
  }

  /**
   From any running state: a look-up of an address that is not validly cached makes a session, its request is sent under
   a new transaction, and the answer to that calls the session back, once, with the answered binding, or with none for a
   refusal or a timeout. Nothing is left of it but the call and, if there was one, the cached binding.
   */
  lemma WholeLife(s: State, a: Address, now: Time, x: XactId, e: BsfLookup.Event)
    requires Inv(s) && s.running && Found(s.store, a, now).None? && x !in s.xacts && Ends(e, x)
    ensures var r := BsfLookup.Run(s, Life(s, a, now, x, e));
      && Inv(r) && r.calls == s.calls + [Call(Some(s.next), Given(e))] && CallsOf(r.calls, s.next) == 1
      && r.active == s.active && r.addresses == s.addresses && r.xacts == s.xacts && r.running && r.next == s.next + 1
      && (Given(e).Some? ==> r.store == AfterFind(s.store, a, now)[a := CacheEntry(Given(e).value, e.answer.expires)])
      && (Given(e).None? ==> r.store == AfterFind(s.store, a, now))
  {
    var w1 := Step(s, BsfLookup.Lookup(a, now));
    var w2 := Step(w1, BsfLookup.LocalEvent(s.next, x, true));
    RunInv(s, Life(s, a, now, x, e));
    RunOne(s, BsfLookup.Lookup(a, now), [BsfLookup.LocalEvent(s.next, x, true)] + ([e] + []));
    RunOne(w1, BsfLookup.LocalEvent(s.next, x, true), [e] + []);
    RunOne(w2, e, []);
    MadeAndSent(s, a, now, x);
    AnswerEnds(w2, s, a, now, x, e);
    CallsMore(s.calls, Call(Some(s.next), Given(e)), s.next);
  }

  /** A request that cannot be sent leaves its session in the active list, and nothing will answer it. */
  lemma UnsentWaits(s: State, a: Address, now: Time, x: XactId)
    requires Inv(s) && s.running && Found(s.store, a, now).None?
    ensures var r := BsfLookup.Run(s, [BsfLookup.Lookup(a, now)] + ([BsfLookup.LocalEvent(s.next, x, false)] + []));
      s.next in r.active && CallsOf(r.calls, s.next) == 0 && forall y :: y in r.xacts ==> r.xacts[y] != s.next
  {
    var w1 := Step(s, BsfLookup.Lookup(a, now));
    RunOne(s, BsfLookup.Lookup(a, now), [BsfLookup.LocalEvent(s.next, x, false)] + []);
    RunOne(w1, BsfLookup.LocalEvent(s.next, x, false), []);
    assert s.next in s.active + [s.next];
    assert forall y :: y in s.xacts ==> s.xacts[y] in s.active && s.xacts[y] < s.next;
  }

  lemma {:induction false} StoppedStays(s: State, es: seq<BsfLookup.Event>)
    requires !s.running
    ensures BsfLookup.Run(s, es) == s
    decreases |es|
  {
    if es != [] {
      StoppedStays(s, es[1..]);
    }
  }

  /** After the final cleanup there is no session, request or cached binding, and nothing that happens then has any effect. */
  lemma NothingAfterFinal(s: State, es: seq<BsfLookup.Event>)
    requires s.running
    ensures BsfLookup.Run(s, [BsfLookup.Final] + es) == State([], map[], map[], map[], s.calls, s.next, false)
  {
    RunOne(s, BsfLookup.Final, es);
    StoppedStays(Step(s, BsfLookup.Final), es);
  }
}
