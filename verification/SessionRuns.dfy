/**
 Runs of one session on the client: what the application does, the pushes, and the answers of the MB-SMF.
 The subscriptions' part in them: which requests a push sends, and how often each subscription is asked for.
 */
module SessionRuns {
  import opened Options
  import opened SessionDiff
  import opened ServiceInfo
  import opened SessionCopy
  import opened Subscriptions
  import opened Reconciler
  import opened UnchangedSession
  import Sequences

  // ---------- Events ----------

  /** The answer to an update is known by the status that the handler is handed. */
  datatype LocalEvent =
    | OnSubs(event: Event)
    | Edited(session: Session)
    | Pushed(order: seq<string>, orders: Orders)
    | CreateAnswered(status: int, reply: Reply, order: seq<string>, orders: Orders)
    | PatchAnswered(handed: int)

  datatype Pushing = Pushing(at: Local, order: seq<string>, orders: Orders)

  /** The push within an event: one that the application asks for, or the one that follows an accepted creation. */
  function PushIn(l: Local, e: LocalEvent): Option<Pushing> {
    match e
    case Pushed(order, orders) => Some(Pushing(l, order, orders))
    case CreateAnswered(status, r, order, orders) =>
      if 200 <= status < 300 && Accepted(l.session, r) then Some(Pushing(ReadReply(l, r), order, orders)) else None
    case _ => None
  }

  /** Subscriptions are brought up to date by pushes only; hashes are visited entry by entry. */
  ghost predicate CanHappen(l: Local, e: LocalEvent) {
    && (e.OnSubs? ==> !e.event.Update? && Subscriptions.Possible(l.subs, e.event))
    && var p := PushIn(l, e);
       p.Some? ==>
         && VisitsAll(p.value.order, l.subs.active)
         && (p.value.at.previous.Some? ==> SessionVisits(p.value.orders, p.value.at.previous.value, p.value.at.session))
  }

  ghost function LocalStep(l: Local, e: LocalEvent): Local {
    match e
    case OnSubs(event) => l.(subs := Subscriptions.Step(l.subs, event))
    case Edited(x) => l.(session := x)
    case Pushed(order, orders) => AfterPush(l, order, orders)
    case CreateAnswered(status, r, order, orders) => AfterCreate(l, status, r, order, orders)
    case PatchAnswered(handed) => AfterPatch(l, handed)
  }

  ghost predicate Proper(l: Local, e: LocalEvent) {
    CanHappen(l, e) && (e.OnSubs? ==> Legal(l.subs, e.event))
  }

  ghost predicate ProperRun(l: Local, es: seq<LocalEvent>)
    decreases |es|
  {
    es != [] ==> Proper(l, es[0]) && ProperRun(LocalStep(l, es[0]), es[1..])
  }

  ghost function LocalRun(l: Local, es: seq<LocalEvent>): Local
    decreases |es|
  {
    if es == [] then l else LocalRun(LocalStep(l, es[0]), es[1..])
  }

  // ---------- A push and the subscriptions ----------

  /** The state of the subscriptions once the requests about the session have been sent. */
  ghost function Noted(l: Local, order: seq<string>, orders: Orders): State {
    l.subs.(sent := l.subs.sent + SessionRequests(l, order, orders))
  }

  /** A push keeps the containers consistent, and either brings the subscriptions up to date or leaves them alone. */
  lemma PushKeepsSubs(l: Local, order: seq<string>, orders: Orders)
    requires Inv(l.subs) && VisitsAll(order, l.subs.active)
    ensures Inv(Noted(l, order, orders)) && Inv(AfterPush(l, order, orders).subs)
    ensures var s := Noted(l, order, orders);
      AfterPush(l, order, orders).subs ==
      if PushesSubs(l) then UpdateSubs(s, order, Patches(l.previous.value, l.session, orders)) else s
  {
    var s := Noted(l, order, orders);
    MarksKeepInv(l.subs, s);
    if PushesSubs(l) {
      PushKeepsInv(s, order, Patches(l.previous.value, l.session, orders));
    }
  }

  lemma LocalStepKeepsSubs(l: Local, e: LocalEvent)
    requires Inv(l.subs) && Proper(l, e)
    ensures Inv(LocalStep(l, e).subs)
  {
    match e
    case OnSubs(event) => StepKeepsInv(l.subs, event);
    case Pushed(order, orders) => PushKeepsSubs(l, order, orders);
    case CreateAnswered(status, r, order, orders) =>
      if PushIn(l, e).Some? {
        PushKeepsSubs(ReadReply(l, r), order, orders);
      }
    case _ =>
  }

  /** A creation is sent if nothing has been accepted yet, or if the address or the TMGI changed. */
  predicate CreatesSession(l: Local) {
    && !l.subs.deleted
    && (l.previous.Some? ==>
          var p, x := l.previous.value, l.session;
          !SessionEqual(p, x) && !(SsmEqual(p.ssm, x.ssm) && TmgiEqual(p.tmgi, x.tmgi)))
  }

  /** A push of a session that is not deleted either creates it or brings its subscriptions up to date. */
  lemma CreatesOrUpdates(l: Local, order: seq<string>, orders: Orders)
    ensures !l.subs.deleted ==> CreatesSession(l) == !PushesSubs(l)
    ensures CreatesSession(l) <==> Creation(l, order) in SessionRequests(l, order, orders)
    ensures forall r :: r in SessionRequests(l, order, orders) ==>
              r.RemoveSession? || r.UpdateSession? || (r == Creation(l, order) && CreatesSession(l))
  {
    var rs := SessionRequests(l, order, orders);
    if CreatesSession(l) {
      CreationIsLast(l, order, orders);
      assert rs[|rs| - 1] in rs;
    } else {
      assert |rs| <= 1;
    }
  }

  lemma CreationIsLast(l: Local, order: seq<string>, orders: Orders)
    requires CreatesSession(l)
    ensures var rs := SessionRequests(l, order, orders);
      1 <= |rs| <= 2 && rs[|rs| - 1] == Creation(l, order) && (|rs| == 2 ==> rs[0].RemoveSession?)
  {
  }

  ghost function NewRequests(l: Local, order: seq<string>, orders: Orders): seq<Request> {
    var x, y := l.subs.sent, AfterPush(l, order, orders).subs.sent;
    if x <= y then y[|x|..] else []
  }

  /**
   The requests of a push, exactly: those about the session and, if it is neither created nor removed, a creation for
   each changed new subscription, an update for each changed active one that carries the patch list of the session, and
   a deletion for each doomed one.
   */
  lemma PushSendsExactly(l: Local, order: seq<string>, orders: Orders, r: Request)
    requires Inv(l.subs) && VisitsAll(order, l.subs.active)
    ensures AfterPush(l, order, orders).subs.sent == l.subs.sent + NewRequests(l, order, orders)
    ensures r in NewRequests(l, order, orders) <==>
            match r
            case CreateSub(k) => PushesSubs(l) && k in l.subs.pending && l.subs.subs[k].changed
            case UpdateSub(k, id, patches) =>
              && PushesSubs(l) && IsActive(l.subs, k) && l.subs.subs[k].id == id && l.subs.subs[k].changed
              && patches == Patches(l.previous.value, l.session, orders)
            case DeleteSub(k, id) => PushesSubs(l) && k in l.subs.doomed && l.subs.subs[k].id == id
            case _ => r in SessionRequests(l, order, orders)
  {
    var s, rs := Noted(l, order, orders), SessionRequests(l, order, orders);
    PushKeepsSubs(l, order, orders);
    CreatesOrUpdates(l, order, orders);
    if PushesSubs(l) {
      var body := Patches(l.previous.value, l.session, orders);
      PushSends(s, order, body, r);
      SentAfter(l.subs.sent, rs, PushRequests(s, order, body));
    } else {
      SentAfter(l.subs.sent, rs, []);
      assert l.subs.sent + rs + [] == l.subs.sent + rs;
    }
  }

  lemma SentAfter(x: seq<Request>, y: seq<Request>, z: seq<Request>)
    ensures x <= x + y + z && (x + y + z)[|x|..] == y + z && x + y + z == x + (y + z)
  {
  }

  // ---------- What an event makes the next push send ----------

  ghost function Having(l: Local, s: State): Local {
    l.(subs := s)
  }

  /**
   A subscription that is added is asked for by the next push: directly, if the push does not create the session; else
   within the creation if it is the first in line, and if not, not at all.
   */
  lemma AddedIsRequested(l: Local, k: SubId, order: seq<string>, orders: Orders)
    requires Inv(l.subs) && k in l.subs.subs && !l.subs.deleted && Legal(l.subs, Add(k))
    requires VisitsAll(order, AddSub(l.subs, k).active)
    ensures var l' := Having(l, AddSub(l.subs, k));
      && Inv(l'.subs)
      && (CreateSub(k) in NewRequests(l', order, orders) <==> !CreatesSession(l))
      && ((exists r :: r in NewRequests(l', order, orders) && Asks(r, k, WithSession)) <==>
          CreatesSession(l) && Carried(l'.subs, order) == Some(k))
    ensures AddSub(l.subs, k).sent == l.subs.sent + (if l.subs.subs[k].id.Some? then [DeleteSub(k, l.subs.subs[k].id)] else [])
  {
    var l' := Having(l, AddSub(l.subs, k));
    AddKeepsInv(l.subs, k);
    PushSendsExactly(l', order, orders, CreateSub(k));
    PushSendsExactly(l', order, orders, Creation(l', order));
    CreatesOrUpdates(l', order, orders);
    forall r | r in NewRequests(l', order, orders) && Asks(r, k, WithSession)
      ensures r == Creation(l', order) && CreatesSession(l')
    {
      PushSendsExactly(l', order, orders, r);
    }
    assert l.subs.sent + [] == l.subs.sent;
  }

  /**
   An active subscription that is removed is deleted under its id and freed by the next push, unless that push creates
   the session; a new one is freed at once. Either way it is neither created nor updated.
   */
  lemma RemovedIsDeleted(l: Local, k: SubId, order: seq<string>, orders: Orders)
    requires Inv(l.subs) && k in l.subs.subs && l.subs.subs[k].attached && !l.subs.deleted && Legal(l.subs, Remove(k))
    requires VisitsAll(order, RemoveSub(l.subs, k).active)
    ensures var l', id := Having(l, RemoveSub(l.subs, k)), l.subs.subs[k].id;
      && Inv(l'.subs)
      && (id.Some? ==> (DeleteSub(k, id) in NewRequests(l', order, orders) <==> !CreatesSession(l)))
      && (id.None? ==> k !in l'.subs.subs)
      && (k in AfterPush(l', order, orders).subs.subs <==> id.Some? && CreatesSession(l))
      && CreateSub(k) !in NewRequests(l', order, orders)
      && forall i, patches :: UpdateSub(k, i, patches) !in NewRequests(l', order, orders)
  {
    var l', id := Having(l, RemoveSub(l.subs, k)), l.subs.subs[k].id;
    RemoveKeepsInv(l.subs, k);
    assert Placed(l.subs, k);
    UnlinkedIs(l.subs.pending, k);
    CreatesOrUpdates(l', order, orders);
    PushSendsExactly(l', order, orders, DeleteSub(k, id));
    PushSendsExactly(l', order, orders, CreateSub(k));
    forall i, patches
      ensures UpdateSub(k, i, patches) !in NewRequests(l', order, orders)
    {
      PushSendsExactly(l', order, orders, UpdateSub(k, i, patches));
    }
    FreedByPush(l', order, orders, k);
  }

  lemma FreedByPush(l: Local, order: seq<string>, orders: Orders, k: SubId)
    requires Inv(l.subs) && VisitsAll(order, l.subs.active)
    ensures k in AfterPush(l, order, orders).subs.subs <==> k in l.subs.subs && !(PushesSubs(l) && k in l.subs.doomed)
  {
    PushKeepsSubs(l, order, orders);
    if PushesSubs(l) {
      PushMarks(Noted(l, order, orders), order, Patches(l.previous.value, l.session, orders));
    }
  }

  /**
   A changed attribute of an active subscription makes the next push send an update, unless it creates the session; but
   the update carries the patch list of the session, whatever the attribute, and the mark is cleared.
   */
  lemma ChangedSendsSessionPatches(l: Local, k: SubId, attributes: Attributes, order: seq<string>, orders: Orders,
                                   patches: Body)
    requires Inv(l.subs) && IsActive(l.subs, k) && !l.subs.subs[k].changed && !l.subs.deleted
    requires VisitsAll(order, l.subs.active)
    ensures var l', id := Having(l, SetAttributes(l.subs, k, attributes)), l.subs.subs[k].id;
      && Inv(l'.subs)
      && (UpdateSub(k, id, patches) in NewRequests(l', order, orders) <==>
          && !CreatesSession(l) && l.subs.subs[k].attributes != attributes
          && patches == Patches(l.previous.value, l.session, orders))
      && (!CreatesSession(l) ==> k in AfterPush(l', order, orders).subs.subs
                                 && !AfterPush(l', order, orders).subs.subs[k].changed)
  {
    var l' := Having(l, SetAttributes(l.subs, k, attributes));
    StepKeepsInv(l.subs, Set(k, attributes));
    CreatesOrUpdates(l', order, orders);
    PushSendsExactly(l', order, orders, UpdateSub(k, l.subs.subs[k].id, patches));
    PushKeepsSubs(l', order, orders);
    assert Placed(l.subs, k) && Placed(l'.subs, k);
    if PushesSubs(l') {
      PushMarks(Noted(l', order, orders), order, Patches(l.previous.value, l.session, orders));
    }
  }

  /** When the session has not changed since it was accepted, that list is empty, unless there is an application id. */
  lemma ChangedSendsNothing(l: Local, dst: Option<Session>, orders: Orders)
    requires l.previous == Some(PublicCopy(dst, l.session)) && SessionVisits(orders, l.previous.value, l.session)
    ensures Patches(l.previous.value, l.session, orders) == [] <==> !RestatesAppId(l.session.serviceInfo)
  {
    UnchangedPatches(dst, l.session, orders);
  }

  // ---------- How often a subscription is asked for ----------

  /** The events that edit the subscription or change which container it is in, as the application does. */
  predicate Touches(e: LocalEvent, k: SubId) {
    e.OnSubs? &&
    match e.event
    case New(j, _) => j == k
    case Add(j) => j == k
    case Remove(j) => j == k
    case Set(j, _) => j == k
    case _ => false
  }

  /** The event brings the subscriptions up to date. */
  predicate BringsUpToDate(l: Local, e: LocalEvent) {
    var p := PushIn(l, e);
    p.Some? && PushesSubs(p.value.at)
  }

  /** The event sends a creation of the session that carries k. */
  predicate Carries(l: Local, e: LocalEvent, k: SubId) {
    var p := PushIn(l, e);
    p.Some? && CreatesSession(p.value.at) && Carried(l.subs, p.value.order) == Some(k)
  }

  /** The subscriptions are brought up to date while k still waits in the list of new ones. */
  ghost predicate ReachedWaiting(l: Local, es: seq<LocalEvent>, k: SubId)
    decreases |es|
  {
    es != [] && k in l.subs.pending && (BringsUpToDate(l, es[0]) || ReachedWaiting(LocalStep(l, es[0]), es[1..], k))
  }

  ghost function TimesCarried(l: Local, es: seq<LocalEvent>, k: SubId): nat
    decreases |es|
  {
    if es == [] then 0
    else (if Carries(l, es[0], k) then 1 else 0) + TimesCarried(LocalStep(l, es[0]), es[1..], k)
  }

  predicate Due(s: State, k: SubId) {
    k in s.pending && k in s.subs && s.subs[k].changed
  }

  lemma AskedBySession(l: Local, order: seq<string>, orders: Orders, k: SubId)
    ensures Asked(SessionRequests(l, order, orders), k, Directly) == 0
    ensures Asked(SessionRequests(l, order, orders), k, WithSession) ==
            if CreatesSession(l) && Carried(l.subs, order) == Some(k) then 1 else 0
  {
    var rs := SessionRequests(l, order, orders);
    CreatesOrUpdates(l, order, orders);
    NotAsked(rs, k, Directly);
    if CreatesSession(l) {
      CreationIsLast(l, order, orders);
      AskedByLast(rs, k);
    } else {
      NotAsked(rs, k, WithSession);
    }
  }

  lemma AskedByLast(rs: seq<Request>, k: SubId)
    requires 1 <= |rs| <= 2 && (|rs| == 2 ==> rs[0].RemoveSession?)
    ensures Asked(rs, k, WithSession) == if Asks(rs[|rs| - 1], k, WithSession) then 1 else 0
  {
    var n := |rs| - 1;
    NotAsked(rs[..n], k, WithSession);
  }

  lemma AskedByPush(l: Local, order: seq<string>, orders: Orders, k: SubId)
    requires Inv(l.subs) && VisitsAll(order, l.subs.active)
    ensures var l' := AfterPush(l, order, orders);
      && Asked(l'.subs.sent, k, Directly) == Asked(l.subs.sent, k, Directly) + (if PushesSubs(l) && Due(l.subs, k) then 1 else 0)
      && Asked(l'.subs.sent, k, WithSession) == Asked(l.subs.sent, k, WithSession)
                                                + (if CreatesSession(l) && Carried(l.subs, order) == Some(k) then 1 else 0)
      && l'.subs.pending == l.subs.pending
      && (k in l.subs.pending ==> k in l.subs.subs && k in l'.subs.subs
                                  && l'.subs.subs[k].changed == (l.subs.subs[k].changed && !PushesSubs(l)))
  {
    var s, rs := Noted(l, order, orders), SessionRequests(l, order, orders);
    PushKeepsSubs(l, order, orders);
    AskedBySession(l, order, orders, k);
    AskedAppend(l.subs.sent, rs, k, Directly);
    AskedAppend(l.subs.sent, rs, k, WithSession);
    if k in l.subs.pending {
      assert Placed(l.subs, k);
    }
    if PushesSubs(l) {
      var body := Patches(l.previous.value, l.session, orders);
      AskedByUpdate(s, order, body, k);
      PushMarks(s, order, body);
    }
  }

  /** What happens to the waiting subscription k in an event of the containers that does not touch it. */
  lemma OthersLeaveAlone(s: State, e: Event, k: SubId)
    requires Inv(s) && Subscriptions.Possible(s, e) && Legal(s, e) && !e.Update? && !Touches(OnSubs(e), k)
    ensures k in Step(s, e).pending ==> k in s.pending && k in Step(s, e).subs && Step(s, e).subs[k].changed == s.subs[k].changed
    ensures Asked(Step(s, e).sent, k, Directly) == Asked(s.sent, k, Directly)
    ensures Asked(Step(s, e).sent, k, WithSession) == Asked(s.sent, k, WithSession)
  {
    if k in s.pending {
      assert Placed(s, k);
    }
    match e
    case Add(j) =>
      if !s.deleted && s.subs[j].id.Some? {
        var r := DeleteSub(j, s.subs[j].id);
        AskedAppend(s.sent, [r], k, Directly);
        AskedAppend(s.sent, [r], k, WithSession);
        AskedOne(r, k, Directly);
        AskedOne(r, k, WithSession);
      }
    case Remove(j) => UnlinkedIs(s.pending, j);
    case Response(correlationId, _, order) =>
      var found := Find(s, correlationId, order);
      if found.Some? {
        UnlinkedIs(s.pending, found.value);
      }
    case _ =>
  }

  /** What an event adds to the count, and what it leaves of a waiting subscription that it does not touch. */
  ghost predicate Counts(l: Local, l': Local, k: SubId, updates: bool, carries: bool) {
    && Asked(l'.subs.sent, k, Directly) == Asked(l.subs.sent, k, Directly) + (if updates && Due(l.subs, k) then 1 else 0)
    && Asked(l'.subs.sent, k, WithSession) == Asked(l.subs.sent, k, WithSession) + (if carries then 1 else 0)
    && (k in l'.subs.pending ==> k in l.subs.pending && Due(l'.subs, k) == (Due(l.subs, k) && !updates))
  }

  lemma PushCounts(l: Local, order: seq<string>, orders: Orders, k: SubId)
    requires Inv(l.subs) && VisitsAll(order, l.subs.active)
    ensures Counts(l, AfterPush(l, order, orders), k, PushesSubs(l), CreatesSession(l) && Carried(l.subs, order) == Some(k))
  {
    AskedByPush(l, order, orders, k);
  }

  lemma ReadKeepsSubs(l: Local, r: Reply)
    ensures ReadReply(l, r).subs == l.subs
  {
  }

  /** What counts is the state of the subscriptions, which reading a reply leaves alone. */
  lemma CountsFrom(l: Local, read: Local, l': Local, k: SubId, updates: bool, carries: bool)
    requires read.subs == l.subs && Counts(read, l', k, updates, carries)
    ensures Counts(l, l', k, updates, carries)
  {
  }

  lemma AnswerPushes(l: Local, status: int, r: Reply, order: seq<string>, orders: Orders, k: SubId)
    requires 200 <= status < 300 && Accepted(l.session, r)
    ensures var e, read := CreateAnswered(status, r, order, orders), ReadReply(l, r);
      && AfterCreate(l, status, r, order, orders) == AfterPush(read, order, orders)
      && BringsUpToDate(l, e) == PushesSubs(read)
      && Carries(l, e, k) == (CreatesSession(read) && Carried(l.subs, order) == Some(k))
  {
    assert PushIn(l, CreateAnswered(status, r, order, orders)) == Some(Pushing(ReadReply(l, r), order, orders));
  }

  lemma AnswerCounts(l: Local, status: int, r: Reply, order: seq<string>, orders: Orders, k: SubId)
    requires Inv(l.subs) && VisitsAll(order, l.subs.active) && 200 <= status < 300 && Accepted(l.session, r)
    ensures var e := CreateAnswered(status, r, order, orders);
      Counts(l, AfterCreate(l, status, r, order, orders), k, BringsUpToDate(l, e), Carries(l, e, k))
  {
    var read := ReadReply(l, r);
    ReadKeepsSubs(l, r);
    AnswerPushes(l, status, r, order, orders, k);
    PushCounts(read, order, orders, k);
    CountsFrom(l, read, AfterPush(read, order, orders), k, PushesSubs(read),
               CreatesSession(read) && Carried(read.subs, order) == Some(k));
  }

  lemma SameSubsCount(l: Local, l': Local, k: SubId)
    requires l'.subs == l.subs
    ensures Counts(l, l', k, false, false)
  {
  }

  lemma AskedByStep(l: Local, e: LocalEvent, k: SubId)
    requires Inv(l.subs) && Proper(l, e) && !Touches(e, k)
    ensures Counts(l, LocalStep(l, e), k, BringsUpToDate(l, e), Carries(l, e, k))
  {
    match e
    case OnSubs(event) => OthersLeaveAlone(l.subs, event, k);
    case Pushed(order, orders) => PushCounts(l, order, orders, k);
    case CreateAnswered(status, r, order, orders) =>
      if 200 <= status < 300 && Accepted(l.session, r) {
        AnswerCounts(l, status, r, order, orders, k);
      } else {
        SameSubsCount(l, LocalStep(l, e), k);
      }
    case _ => SameSubsCount(l, LocalStep(l, e), k);
  }

  /**
   How often a subscription that the application leaves alone is asked for in a run, exactly. Directly: once if it
   waits marked as changed and the subscriptions are brought up to date before it leaves the list of new ones, else not
   at all. With the session: once for each creation that finds it first in line.
   */
  lemma {:induction false} AskedExactly(l: Local, es: seq<LocalEvent>, k: SubId)
    requires Inv(l.subs) && ProperRun(l, es) && forall e :: e in es ==> !Touches(e, k)
    ensures Asked(LocalRun(l, es).subs.sent, k, Directly)
         == Asked(l.subs.sent, k, Directly) + (if Due(l.subs, k) && ReachedWaiting(l, es, k) then 1 else 0)
    ensures Asked(LocalRun(l, es).subs.sent, k, WithSession) == Asked(l.subs.sent, k, WithSession) + TimesCarried(l, es, k)
    decreases |es|
  {
    if es != [] {
      var e := es[0];
      assert e in es;
      AskedByStep(l, e, k);
      LocalStepKeepsSubs(l, e);
      assert forall x :: x in es[1..] ==> x in es;
      AskedExactly(LocalStep(l, e), es[1..], k);
    }
  }

  // ---------- Responses to subscription requests, as they are dispatched ----------

  /** The dispatcher parses only the header of such a response, and hands no location on. */
  predicate AsDispatched(e: LocalEvent) {
    e.OnSubs? && e.event.Response? ==> e.event.location.None?
  }

  lemma NotedActivatesNone(l: Local, order: seq<string>, orders: Orders)
    requires NoneActive(l.subs)
    ensures NoneActive(Noted(l, order, orders))
  {
    CreatesOrUpdates(l, order, orders);
  }

  lemma PushedActivatesNone(l: Local, order: seq<string>, orders: Orders)
    requires Inv(l.subs) && NoneActive(l.subs) && VisitsAll(order, l.subs.active)
    ensures NoneActive(AfterPush(l, order, orders).subs)
  {
    PushKeepsSubs(l, order, orders);
    NotedActivatesNone(l, order, orders);
    if PushesSubs(l) {
      PushActivatesNone(Noted(l, order, orders), order, Patches(l.previous.value, l.session, orders));
    }
  }

  lemma LocalStepActivatesNone(l: Local, e: LocalEvent)
    requires Inv(l.subs) && NoneActive(l.subs) && Proper(l, e) && AsDispatched(e)
    ensures NoneActive(LocalStep(l, e).subs)
  {
    match e
    case OnSubs(event) => StepActivatesNone(l.subs, event);
    case Pushed(order, orders) => PushedActivatesNone(l, order, orders);
    case CreateAnswered(status, r, order, orders) =>
      if PushIn(l, e).Some? {
        ReadKeepsSubs(l, r);
        PushedActivatesNone(ReadReply(l, r), order, orders);
      }
    case _ =>
  }

  /**
   Over every run with the responses as they are dispatched, no subscription ever becomes active, and none is ever updated
   or deleted at the MB-SMF.
   */
  lemma {:induction false} NoneBecomesActive(l: Local, es: seq<LocalEvent>)
    requires Inv(l.subs) && NoneActive(l.subs) && ProperRun(l, es) && forall e :: e in es ==> AsDispatched(e)
    ensures NoneActive(LocalRun(l, es).subs)
    decreases |es|
  {
    if es != [] {
      assert es[0] in es && forall e :: e in es[1..] ==> e in es;
      LocalStepActivatesNone(l, es[0]);
      LocalStepKeepsSubs(l, es[0]);
      NoneBecomesActive(LocalStep(l, es[0]), es[1..]);
    }
  }

  // ---------- The ordinary path ----------

  ghost function Pushes(n: nat, order: seq<string>, orders: Orders): seq<LocalEvent> {
    if n == 0 then [] else [Pushed(order, orders)] + Pushes(n - 1, order, orders)
  }

  lemma PushOfNew(l: Local, order: seq<string>, orders: Orders)
    requires !l.subs.deleted && l.previous.None?
    ensures AfterPush(l, order, orders) == Sent(l, [Creation(l, order)])
  {
  }

  function Repeated(r: Request, n: nat): (rs: seq<Request>)
    ensures |rs| == n
  {
    if n == 0 then [] else [r] + Repeated(r, n - 1)
  }

  lemma SentTwice(l: Local, r: Request, rs: seq<Request>, order: seq<string>)
    ensures Sent(Sent(l, [r]), rs) == Sent(l, [r] + rs)
    ensures Creation(Sent(l, [r]), order) == Creation(l, order)
  {
    Sequences.Regroup(l.subs.sent, [r], rs);
  }

  lemma SentNothing(l: Local)
    ensures Sent(l, []) == l
  {
    assert l.subs.sent + [] == l.subs.sent;
  }

  /** Until the first answer every push sends the same creation and changes nothing else. */
  lemma {:induction false} PushesOfNew(l: Local, n: nat, order: seq<string>, orders: Orders)
    requires !l.subs.deleted && l.previous.None?
    ensures LocalRun(l, Pushes(n, order, orders)) == Sent(l, Repeated(Creation(l, order), n))
    decreases n
  {
    if n == 0 {
      SentNothing(l);
    } else {
      var r := Creation(l, order);
      var first := Sent(l, [r]);
      PushOfNew(l, order, orders);
      PushesFirst(l, n, order, orders);
      SentTwice(l, r, Repeated(r, n - 1), order);
      assert !first.subs.deleted && first.previous.None?;
      PushesOfNew(first, n - 1, order, orders);
    }
  }

  function Sent(l: Local, rs: seq<Request>): Local {
    l.(subs := l.subs.(sent := l.subs.sent + rs))
  }

  lemma {:induction false} RepeatedAsks(r: Request, n: nat, k: SubId)
    requires r.CreateSession? && r.carried == Some(k)
    ensures Asked(Repeated(r, n), k, WithSession) == n && Asked(Repeated(r, n), k, Directly) == 0
  {
    if n > 0 {
      AskedAppend([r], Repeated(r, n - 1), k, WithSession);
      AskedAppend([r], Repeated(r, n - 1), k, Directly);
      AskedOne(r, k, WithSession);
      AskedOne(r, k, Directly);
      RepeatedAsks(r, n - 1, k);
    }
  }

  lemma PushesFirst(l: Local, n: nat, order: seq<string>, orders: Orders)
    requires n > 0
    ensures LocalRun(l, Pushes(n, order, orders)) == LocalRun(AfterPush(l, order, orders), Pushes(n - 1, order, orders))
  {
    assert Pushes(n, order, orders)[1..] == Pushes(n - 1, order, orders);
  }

  /** After an accepted creation the push creates the session again if and only if its address has no family. */
  lemma AcceptedCreatesAgain(l: Local, r: Reply)
    requires !l.subs.deleted && Accepted(l.session, r)
    ensures var ssm := SsmAfter(l.session.ssm, r.body.value.value.ssm);
      CreatesSession(ReadReply(l, r)) <==> ssm.Some? && ssm.value.family.NoFamily?
  {
    var read := ReadReply(l, r);
    assert read.previous == Some(PublicCopy(l.previous, read.session));
    assert TmgiEqual(read.previous.value.tmgi, read.session.tmgi);
  }

  /**
   The ordinary path of a first subscription: it is added to a new session, changes are pushed n times, and the MB-SMF
   accepts the creation. By then it has been asked for n times with the session and, if the answered address has a
   family or there is none, once more directly.
   */
  lemma AskedTwice(l: Local, n: nat, order: seq<string>, orders: Orders, status: int, r: Reply, again: seq<string>,
                   visits: Orders, k: SubId)
    requires Inv(l.subs) && !l.subs.deleted && l.previous.None?
    requires VisitsAll(order, l.subs.active) && VisitsAll(again, l.subs.active)
    requires Due(l.subs, k) && l.subs.pending[0] == k && HasEvents(l.subs.subs[k].attributes.flags)
    requires 200 <= status < 300 && Accepted(l.session, r)
    ensures var l' := AfterCreate(LocalRun(l, Pushes(n, order, orders)), status, r, again, visits);
      var ssm := SsmAfter(l.session.ssm, r.body.value.value.ssm);
      && Asked(l'.subs.sent, k, WithSession) ==
         Asked(l.subs.sent, k, WithSession) + n + (if ssm.Some? && ssm.value.family.NoFamily? then 1 else 0)
      && Asked(l'.subs.sent, k, Directly) ==
         Asked(l.subs.sent, k, Directly) + (if ssm.Some? && ssm.value.family.NoFamily? then 0 else 1)
  {
    var rs := Repeated(Creation(l, order), n);
    PushesOfNew(l, n, order, orders);
    MarksKeepInv(l.subs, Sent(l, rs).subs);
    AskedAppend(l.subs.sent, rs, k, WithSession);
    AskedAppend(l.subs.sent, rs, k, Directly);
    RepeatedAsks(Creation(l, order), n, k);
    AskedOnAccept(Sent(l, rs), status, r, again, visits, k);
  }

  lemma AskedOnAccept(l: Local, status: int, r: Reply, order: seq<string>, orders: Orders, k: SubId)
    requires Inv(l.subs) && !l.subs.deleted && VisitsAll(order, l.subs.active)
    requires Due(l.subs, k) && l.subs.pending[0] == k && HasEvents(l.subs.subs[k].attributes.flags)
    requires 200 <= status < 300 && Accepted(l.session, r)
    ensures var l', ssm := AfterCreate(l, status, r, order, orders), SsmAfter(l.session.ssm, r.body.value.value.ssm);
      && Asked(l'.subs.sent, k, WithSession) ==
         Asked(l.subs.sent, k, WithSession) + (if ssm.Some? && ssm.value.family.NoFamily? then 1 else 0)
      && Asked(l'.subs.sent, k, Directly) ==
         Asked(l.subs.sent, k, Directly) + (if ssm.Some? && ssm.value.family.NoFamily? then 0 else 1)
  {
    AcceptedCreatesAgain(l, r);
    ReadKeepsSubs(l, r);
    CreatesOrUpdates(ReadReply(l, r), order, orders);
    AnswerPushes(l, status, r, order, orders, k);
    AnswerCounts(l, status, r, order, orders, k);
  }
}
