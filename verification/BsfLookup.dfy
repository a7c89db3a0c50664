/**
 Looking up a PCF binding at the BSF. A look-up that the cache cannot answer makes a session, which stays in the
 active list until its callback has been called. Session objects are ids; an id is never used again.
 */
module BsfLookup {
  import opened Options
  import opened BindingCache

  type SessId = nat
  type XactId = nat

  /** A call of the callback of a session, or of a look-up that the cache answered. */
  datatype Call = Call(session: Option<SessId>, binding: Option<Binding>)

  datatype State = State(
    active: seq<SessId>,
    addresses: map<SessId, Address>,
    xacts: map<XactId, SessId>,
    store: Store,
    calls: seq<Call>,
    next: SessId,
    running: bool)

  const EMPTY := State([], map[], map[], map[], [], 0, true)

  /** What a response turns out to be; `Discovered` and `Other` are not answers to the look-up. */
  datatype Answer = BadHeader | Discovered | Other | Unreadable | Refused | Answered(binding: Binding, expires: Time)

  datatype Event =
    | Lookup(address: Address, now: Time)
    | LocalEvent(session: SessId, xact: XactId, sent: bool)
    | Response(xact: XactId, answer: Answer)
    | Timeout(xact: XactId)
    | Final

  // ---------- Steps ----------

  function Remove(list: seq<SessId>, k: SessId): seq<SessId> {
    if list == [] then [] else if list[0] == k then list[1..] else [list[0]] + Remove(list[1..], k)
  }

  /** The session leaves the list, and its transactions go with it. */
  function Retire(s: State, k: SessId): State {
    s.(active := Remove(s.active, k), addresses := s.addresses - {k}, xacts := map x | x in s.xacts && s.xacts[x] != k :: s.xacts[x])
  }

  function CallBack(s: State, k: SessId, b: Option<Binding>): State {
    s.(calls := s.calls + [Call(Some(k), b)])
  }

  /** A cached binding is passed on at once; otherwise a session is made, and a request is queued for it. */
  function LookedUpAt(s: State, a: Address, now: Time): State {
    var found, store := Found(s.store, a, now), AfterFind(s.store, a, now);
    if found.Some? then s.(store := store, calls := s.calls + [Call(None, found)])
    else s.(store := store, active := s.active + [s.next], addresses := s.addresses[s.next := a], next := s.next + 1)
  }

  /** The queued request is sent only if its session is still active; a transaction that cannot be sent is removed. */
  function Sent(s: State, k: SessId, x: XactId, sent: bool): State {
    if k in s.active && sent then s.(xacts := s.xacts[x := k]) else s
  }

  function Responded(s: State, x: XactId, answer: Answer): State {
    if x !in s.xacts || s.xacts[x] !in s.active then s
    else
      var k := s.xacts[x];
      match answer
      case Refused => Retire(CallBack(s, k, None), k)
      case Answered(b, expires) =>
        var s' := if k in s.addresses then s.(store := AfterAdd(s.store, s.addresses[k], b, expires)) else s;
        Retire(CallBack(s', k, Some(b)), k)
      case _ => s
  }

  function TimedOut(s: State, x: XactId): State {
    if x !in s.xacts || s.xacts[x] !in s.active then s else Retire(CallBack(s, s.xacts[x], None), s.xacts[x])
  }

  /** All sessions are freed; nobody is called back. */
  function Finalised(s: State): State {
    s.(active := [], addresses := map[], xacts := map[], store := map[], running := false)
  }

  function Step(s: State, e: Event): State {
    if !s.running then s
    else
      match e
      case Lookup(a, now) => LookedUpAt(s, a, now)
      case LocalEvent(k, x, sent) => Sent(s, k, x, sent)
      case Response(x, answer) => Responded(s, x, answer)
      case Timeout(x) => TimedOut(s, x)
      case Final => Finalised(s)
  }

  function Run(s: State, es: seq<Event>): State
    decreases |es|
  {
    if es == [] then s else Run(Step(s, es[0]), es[1..])
  }

  // ---------- The client ----------

  class BsfClient {
    var active: seq<SessId>
    var addresses: map<SessId, Address>
    var xacts: map<XactId, SessId>
    var cache: Cache
    var next: SessId
    var running: bool
    ghost var calls: seq<Call>

    ghost function Abs(): State
      reads this, cache
    {
      State(active, addresses, xacts, cache.entries, calls, next, running)
    }

    constructor ()
      ensures Abs() == EMPTY && fresh(cache)
    {
      active, addresses, xacts, next, running, calls := [], map[], map[], 0, true, [];
      cache := new Cache();
    }

    method IsActive(k: SessId) returns (found: bool)
      ensures found == (k in active)
    {
      for i := 0 to |active|
        invariant k !in active[..i]
      {
        if active[i] == k {
          return true;
        }
      }
      assert active[..|active|] == active;
      return false;
    }

    method RemoveActive(k: SessId)
      modifies this`active
      ensures active == Remove(old(active), k)
    {
      var i := 0;
      while i < |active| && active[i] != k
        invariant 0 <= i <= |active|
        invariant Remove(active, k) == active[..i] + Remove(active[i..], k)
      {
        assert active[i..][1..] == active[i + 1..];
        i := i + 1;
      }
      if i < |active| {
        assert active[i..][1..] == active[i + 1..];
        active := active[..i] + active[i + 1..];
      } else {
        assert active[..i] == active;
      }
    }

    method FreeSession(k: SessId)
      modifies this`active, this`addresses, this`xacts
      ensures Abs() == Retire(old(Abs()), k)
    {
      RemoveActive(k);
      xacts := map x | x in xacts && xacts[x] != k :: xacts[x];
      addresses := addresses - {k};
    }

    method Retrieve(a: Address, now: Time)
      requires running
      modifies this, cache
      ensures cache == old(cache) && Abs() == LookedUpAt(old(Abs()), a, now)
    {
      var found := cache.Find(a, now);
      if found.Some? {
        calls := calls + [Call(None, found)];
        return;
      }
      active := active + [next];
      addresses := addresses[next := a];
      next := next + 1;
    }

    method ProcessLocalEvent(k: SessId, x: XactId, sent: bool) returns (handled: bool)
      modifies this`xacts
      ensures Abs() == Sent(old(Abs()), k, x, sent) && handled == (k in active)
    {
      handled := IsActive(k);
      if handled && sent {
        xacts := xacts[x := k];
      }
    }

    method ProcessResponse(x: XactId, answer: Answer) returns (handled: bool)
      modifies this, cache
      ensures cache == old(cache) && Abs() == Responded(old(Abs()), x, answer)
      ensures handled == (x in old(xacts) && old(xacts)[x] in old(active) && (answer.Discovered? || answer.Refused? || answer.Answered?))
    {
      if x !in xacts {
        return false;
      }
      var k := xacts[x];
      var ours := IsActive(k);
      if !ours {
        return false;
      }
      match answer
      case BadHeader => handled := false;
      case Other => handled := false;
      case Unreadable => handled := false;
      case Discovered => handled := true;
      case Refused =>
        calls := calls + [Call(Some(k), None)];
        xacts := xacts - {x};
        FreeSession(k);
        handled := true;
      case Answered(b, expires) =>
        if k in addresses {
          cache.Add(addresses[k], b, expires);
        }
        calls := calls + [Call(Some(k), Some(b))];
        xacts := xacts - {x};
        FreeSession(k);
        handled := true;
    }

    method ProcessTimeout(x: XactId) returns (handled: bool)
      modifies this`active, this`addresses, this`xacts, this`calls
      ensures Abs() == TimedOut(old(Abs()), x)
      ensures handled == (x in old(xacts) && old(xacts)[x] in old(active))
    {
      if x !in xacts {
        return false;
      }
      var k := xacts[x];
      handled := IsActive(k);
      if handled {
        calls := calls + [Call(Some(k), None)];
        xacts := xacts - {x};
        FreeSession(k);
      }
    }

    /** The configuration, the cache and every session left are freed. */
    method Finalise()
      requires Consistent(Abs())
      modifies this, cache
      ensures cache == old(cache) && Abs() == Finalised(old(Abs()))
    {
      cache.entries := map[];
      while active != []
        invariant cache == old(cache) && next == old(next) && calls == old(calls) && cache.entries == map[]
        invariant Consistent(Abs())
        decreases |active|
      {
        RetireConsistent(Abs(), active[0]);
        FreeSession(active[0]);
      }
      NothingLeft(Abs());
      running := false;
    }

    /** The dispatcher; nothing is handled once the client has been finalised. */
    method ProcessEvent(e: Event) returns (handled: bool)
      requires !e.Lookup? && !e.Final?
      modifies this, cache
      ensures cache == old(cache) && Abs() == Step(old(Abs()), e)
      ensures handled == (old(running) &&
                          match e
                          case LocalEvent(k, _, _) => k in old(active)
                          case Response(x, answer) =>
                            && x in old(xacts) && old(xacts)[x] in old(active)
                            && (answer.Discovered? || answer.Refused? || answer.Answered?)
                          case Timeout(x) => x in old(xacts) && old(xacts)[x] in old(active)
                          case _ => false)
    {
      if !running {
        return false;
      }
      match e
      case LocalEvent(k, x, sent) => handled := ProcessLocalEvent(k, x, sent);
      case Response(x, answer) => handled := ProcessResponse(x, answer);
      case Timeout(x) => handled := ProcessTimeout(x);
    }
  }

  // ---------- Invariants ----------

  predicate Distinct(list: seq<SessId>) {
    forall i, j :: 0 <= i < j < |list| ==> list[i] != list[j]
  }

  /** Each active session has its address once in the list; transactions belong to active sessions. */
  ghost predicate Consistent(s: State) {
    && Distinct(s.active)
    && (forall k :: k in s.active <==> k in s.addresses)
    && (forall x :: x in s.xacts ==> s.xacts[x] in s.active)
    && (forall k :: k in s.active ==> k < s.next)
  }

  lemma {:induction false} RemoveIs(list: seq<SessId>, k: SessId)
    requires Distinct(list)
    ensures Distinct(Remove(list, k)) && forall j :: j in Remove(list, k) <==> j in list && j != k
    ensures |Remove(list, k)| == if k in list then |list| - 1 else |list|
  {
    if list != [] {
      assert list == [list[0]] + list[1..];
      assert list[0] !in list[1..];
      if list[0] != k {
        RemoveIs(list[1..], k);
      }
    }
  }

  lemma RetireConsistent(s: State, k: SessId)
    requires Consistent(s) && k in s.active
    ensures Consistent(Retire(s, k)) && k !in Retire(s, k).active && |Retire(s, k).active| < |s.active|
  {
    RemoveIs(s.active, k);
  }

  lemma NothingLeft(s: State)
    requires Consistent(s) && s.active == []
    ensures s.addresses == map[] && s.xacts == map[]
  {
    assert forall k :: k !in s.addresses.Keys;
    assert forall x :: x !in s.xacts;
    assert forall x :: x !in s.xacts.Keys;
  }

  function CallsOf(calls: seq<Call>, k: SessId): nat {
    if calls == [] then 0
    else CallsOf(calls[..|calls| - 1], k) + (if calls[|calls| - 1].session == Some(k) then 1 else 0)
  }

  lemma CallsMore(calls: seq<Call>, c: Call, k: SessId)
    ensures CallsOf(calls + [c], k) == CallsOf(calls, k) + (if c.session == Some(k) then 1 else 0)
  {
    assert (calls + [c])[..|calls|] == calls;
  }

  /** No active session has been called back, no session has been called back twice, and none before it was made. */
  ghost predicate CalledRight(s: State) {
    && (forall k :: k in s.active ==> CallsOf(s.calls, k) == 0)
    && (forall k: SessId :: CallsOf(s.calls, k) <= if k < s.next then 1 else 0)
  }

  ghost predicate Inv(s: State) {
    Consistent(s) && CalledRight(s)
  }

  lemma EmptyInv()
    ensures Inv(EMPTY)
  {
  }

  lemma LookupInv(s: State, a: Address, now: Time)
    requires Inv(s)
    ensures Inv(LookedUpAt(s, a, now))
  {
    var found := Found(s.store, a, now);
    if found.Some? {
      forall k: SessId
        ensures CallsOf(s.calls + [Call(None, found)], k) == CallsOf(s.calls, k)
      {
        CallsMore(s.calls, Call(None, found), k);
      }
    } else {
      assert CallsOf(s.calls, s.next) == 0;
      forall i | 0 <= i < |s.active|
        ensures s.active[i] != s.next
      {
        assert s.active[i] in s.active;
      }
      assert forall k :: k in s.active + [s.next] <==> k in s.active || k == s.next;
    }
  }

  /** Calling back an active session and retiring it. */
  lemma AnswerInv(s: State, k: SessId, b: Option<Binding>)
    requires Inv(s) && k in s.active
    ensures var r := Retire(CallBack(s, k, b), k);
      && Inv(r) && k !in r.active && CallsOf(r.calls, k) == 1
      && (forall j :: j in r.active <==> j in s.active && j != k)
      && (forall j: SessId :: j != k ==> CallsOf(r.calls, j) == CallsOf(s.calls, j))
  {
    var c := Call(Some(k), b);
    RetireConsistent(CallBack(s, k, b), k);
    RemoveIs(s.active, k);
    forall j: SessId
      ensures CallsOf(s.calls + [c], j) == CallsOf(s.calls, j) + (if j == k then 1 else 0)
    {
      CallsMore(s.calls, c, j);
    }
  }

  lemma StepInv(s: State, e: Event)
    requires Inv(s)
    ensures Inv(Step(s, e))
  {
    if s.running {
      match e
      case Lookup(a, now) => LookupInv(s, a, now);
      case LocalEvent(k, x, sent) =>
      case Response(x, answer) =>
        if x in s.xacts {
          var k := s.xacts[x];
          match answer
          case Refused => AnswerInv(s, k, None);
          case Answered(b, expires) => AnswerInv(s.(store := AfterAdd(s.store, s.addresses[k], b, expires)), k, Some(b));
          case _ =>
        }
      case Timeout(x) =>
        if x in s.xacts {
          AnswerInv(s, s.xacts[x], None);
        }
      case Final =>
    }
  }

  /** Over every run: no active session has been called back, and no session is ever called back twice. */
  lemma {:induction false} RunInv(s: State, es: seq<Event>)
    requires Inv(s)
    ensures Inv(Run(s, es))
    decreases |es|
  {
    if es != [] {
      StepInv(s, es[0]);
      RunInv(Step(s, es[0]), es[1..]);
    }
  }

  predicate Answers(s: State, e: Event) {
    s.running &&
    match e
    case Response(x, answer) => x in s.xacts && (answer.Refused? || answer.Answered?)
    case Timeout(x) => x in s.xacts
    case _ => false
  }

  function Asking(s: State, e: Event): SessId
    requires Answers(s, e)
  {
    match e case Response(x, _) => s.xacts[x] case Timeout(x) => s.xacts[x]
  }

  /**
   The answer to a look-up, or the end of the wait for it, calls the session back exactly once, retires it, and
   touches no other session. A binding that is passed on is then also in the cache, for the session's address.
   */
  lemma AnswerCallsOnce(s: State, e: Event)
    requires Inv(s) && Answers(s, e)
    ensures var k, r := Asking(s, e), Step(s, e);
      && k in s.active && CallsOf(s.calls, k) == 0
      && k !in r.active && CallsOf(r.calls, k) == 1
      && (forall j :: j in r.active <==> j in s.active && j != k)
      && (forall j: SessId :: j != k ==> CallsOf(r.calls, j) == CallsOf(s.calls, j))
      && |r.calls| == |s.calls| + 1
    ensures var k, c := Asking(s, e), Step(s, e).calls[|s.calls|];
      if e.Response? && e.answer.Answered?
      then c == Call(Some(k), Some(e.answer.binding))
           && Step(s, e).store == s.store[s.addresses[k] := CacheEntry(e.answer.binding, e.answer.expires)]
      else c == Call(Some(k), None) && Step(s, e).store == s.store
  {
    var k := Asking(s, e);
    match e
    case Response(x, answer) =>
      if answer.Refused? {
        AnswerInv(s, k, None);
      } else {
        AnswerInv(s.(store := AfterAdd(s.store, s.addresses[k], answer.binding, answer.expires)), k, Some(answer.binding));
      }
    case Timeout(x) => AnswerInv(s, k, None);
  }

  /** Nothing else calls a session back or retires it, but for the final cleanup, which retires all without a call. */
  lemma OthersDoNotAnswer(s: State, e: Event, k: SessId)
    requires Inv(s) && (Answers(s, e) ==> Asking(s, e) != k)
    ensures CallsOf(Step(s, e).calls, k) == CallsOf(s.calls, k)
    ensures k in s.active ==> (k in Step(s, e).active <==> !(s.running && e.Final?))
  {
    if Answers(s, e) {
      AnswerCallsOnce(s, e);
    } else if s.running && e.Lookup? {
      CallsMore(s.calls, Call(None, Found(s.store, e.address, e.now)), k);
    }
  }

  /** A retired session stays retired, and no later event has any effect on it. */
  lemma {:induction false} RetiredForGood(s: State, es: seq<Event>, k: SessId)
    requires Inv(s) && k < s.next && k !in s.active
    ensures k !in Run(s, es).active && CallsOf(Run(s, es).calls, k) == CallsOf(s.calls, k)
    decreases |es|
  {
    if es != [] {
      var e := es[0];
      StepInv(s, e);
      OthersDoNotAnswer(s, e, k);
      if Answers(s, e) {
        AnswerCallsOnce(s, e);
      }
      RetiredForGood(Step(s, e), es[1..], k);
    }
  }

  /** An answered binding is passed on at once to a later look-up of the address, without a session, until it expires. */
  lemma AnswerIsReused(s: State, e: Event, now: Time)
    requires Inv(s) && Answers(s, e) && e.Response? && e.answer.Answered?
    ensures var answered := Step(s, e); var a := s.addresses[Asking(s, e)];
      var r := Step(answered, Lookup(a, now));
      if now <= e.answer.expires
      then r == answered.(calls := answered.calls + [Call(None, Some(e.answer.binding))])
      else r.calls == answered.calls && r.active == answered.active + [answered.next] && a !in r.store
  {
    AnswerCallsOnce(s, e);
  }
}
