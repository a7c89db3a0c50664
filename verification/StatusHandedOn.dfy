/**
 What would hold if the dispatcher handed the status of an answer on to the handler of updates, in runs in which the
 application waits for its answers: the accepted copy of the session stands for its document at the MB-SMF, through
 updates, removals, creations and re-creations, accepted or refused.
 */
module StatusHandedOn {
  import opened Options
  import opened JsonDocument
  import opened JsonPatch
  import opened ServiceInfo
  import opened SessionDiff
  import opened SessionCopy
  import opened Subscriptions
  import opened Reconciler
  import opened SessionRuns
  import opened Reconciliation
  import opened SessionProtocol

  // ---------- The invariant ----------

  /** A request that creates or changes the document of the session. */
  predicate Writes(x: Xact) {
    x.request.CreateSession? || x.request.UpdateSession?
  }

  /** An open creation or update speaks of the session as it is, and if it succeeded the document is stored. */
  ghost predicate Current(w: World, l: Local, x: Xact) {
    match x.request
    case CreateSession(document, _) =>
      && document == CreationDoc(l.session) && CreatesExactly(l)
      && (Success(x) ==> Stored(w, x.outcome.value.id, document))
    case UpdateSession(id, patches) =>
      && id.Some? && id == l.id && l.previous.Some?
      && Exact(l.previous.value, l.session) && IsUpdateOf(l.previous.value, l.session, patches)
      && Stored(w, id.value, if Success(x) then SessionDoc(l.session) else SessionDoc(l.previous.value))
    case RemoveSession(_) => true
    case _ => false
  }

  /** While no update is open, the document is that of the accepted copy. */
  ghost predicate Stands(w: World, l: Local) {
    l.previous.Some? ==>
      && l.id.Some? && NoCells(l.previous.value.serviceArea)
      && ((forall i :: 0 <= i < |w.open| ==> !w.open[i].request.UpdateSession?) ==>
            Stored(w, l.id.value, SessionDoc(l.previous.value)))
  }

  predicate OneWriter(open: seq<Xact>) {
    forall i, j :: 0 <= i < j < |open| ==> !(Writes(open[i]) && Writes(open[j]))
  }

  ghost predicate InStep(w: World) {
    w.dispatcher.StatusHandedOn? &&
    (w.local.Some? ==>
      && Stands(w, w.local.value) && OneWriter(w.open)
      && forall i :: 0 <= i < |w.open| ==> Current(w, w.local.value, w.open[i]))
  }

  // ---------- Orderly events ----------

  /** An update that is sent is exact, and so is a creation. */
  predicate PushesExactly(l: Local) {
    l.subs.deleted ||
    if CreatesSession(l) then CreatesExactly(l)
    else SessionEqual(l.previous.value, l.session) || Exact(l.previous.value, l.session)
  }

  /**
   The application edits and pushes only while no creation or update is open, and then only what can be sent exactly. The
   reply to a creation keeps the address and, if the session was accepted before, is usable. No answer of a removal or
   update that was carried out gets lost.
   */
  ghost predicate Orderly(w: World, e: WorldEvent) {
    CanOccur(w, e) &&
    match e
    case Here(event) =>
      (event.Edited? ==> Idle(w)) && (event.Pushed? ==> Idle(w) && PushesExactly(w.local.value))
    case Handled(_, _) => true
    case Answered(i, r, _, _) =>
      (w.local.Some? && w.open[i].request.CreateSession? && Success(w.open[i]) ==>
         GoodReply(w.local.value, r))
    case TimedOut(i) => Success(w.open[i]) ==> w.open[i].request.CreateSession?
  }

  ghost predicate OrderlyRun(w: World, es: seq<WorldEvent>)
    decreases |es|
  {
    es != [] ==> Orderly(w, es[0]) && OrderlyRun(Next(w, es[0]), es[1..])
  }

  lemma {:induction false} OrderlyIsPossible(w: World, es: seq<WorldEvent>)
    requires OrderlyRun(w, es)
    ensures PossibleRun(w, es)
    decreases |es|
  {
    if es != [] {
      OrderlyIsPossible(Next(w, es[0]), es[1..]);
    }
  }

  // ---------- What a push opens ----------

  lemma OpenedWrites(l: Local, order: seq<string>, orders: Orders)
    requires l.previous.Some? ==> SessionVisits(orders, l.previous.value, l.session)
    requires l.previous.Some? ==> l.id.Some?
    requires PushesExactly(l)
    ensures var open := Opened(SessionRequests(l, order, orders));
      && OneWriter(open)
      && forall i :: 0 <= i < |open| ==> open[i].outcome.None? && NewRequest(l, open[i].request)
  {
    var rs := SessionRequests(l, order, orders);
    forall i | 0 <= i < |rs|
      ensures Opened(rs)[i] == Xact(rs[i], None)
    {
      OpenedAt(rs, i);
    }
  }

  /** What a push may send, given that it sends nothing but what is exact. */
  ghost predicate NewRequest(l: Local, r: Request) {
    match r
    case CreateSession(document, _) => document == CreationDoc(l.session) && CreatesExactly(l)
    case UpdateSession(id, patches) =>
      && id.Some? && id == l.id && l.previous.Some? && Exact(l.previous.value, l.session)
      && IsUpdateOf(l.previous.value, l.session, patches)
    case RemoveSession(_) => true
    case _ => false
  }

  lemma AppendIdle(w: World, l: Local, more: seq<Xact>)
    requires w.dispatcher.StatusHandedOn?
    requires Idle(w) && Stands(w, l) && OneWriter(more)
    requires forall i :: 0 <= i < |more| ==> more[i].outcome.None? && NewRequest(l, more[i].request)
    ensures InStep(World(w.dispatcher, Some(l), w.documents, w.open + more))
  {
    var w' := World(w.dispatcher, Some(l), w.documents, w.open + more);
    LeavingAppend(w.open, more);
    forall i | 0 <= i < |w'.open|
      ensures Current(w', l, w'.open[i])
    {
      if i < |w.open| {
        assert w.open[i].request.RemoveSession?;
      } else {
        assert w'.open[i] == more[i - |w.open|];
      }
    }
  }

  // ---------- Every step ----------

  lemma HereKeeps(w: World, event: LocalEvent)
    requires InStep(w) && Orderly(w, Here(event))
    ensures InStep(Next(w, Here(event)))
  {
    var l := w.local.value;
    match event
    case Pushed(order, orders) => PushedKeeps(w, order, orders);
    case OnSubs(e) =>
      SameFace(w, l, LocalStep(l, event));
      assert w.open + [] == w.open;
    case Edited(x) =>
      EditKeeps(w, x);
      assert w.open + [] == w.open;
    case _ =>
  }

  lemma EditKeeps(w: World, x: Session)
    requires w.dispatcher.StatusHandedOn?
    requires w.local.Some? && Stands(w, w.local.value) && Idle(w)
    ensures InStep(w.(local := Some(w.local.value.(session := x))))
  {
    IdleInStep(w.(local := Some(w.local.value.(session := x))));
  }

  lemma PushedKeeps(w: World, order: seq<string>, orders: Orders)
    requires InStep(w) && Orderly(w, Here(Pushed(order, orders)))
    ensures InStep(Next(w, Here(Pushed(order, orders))))
  {
    var l := w.local.value;
    PushOpens(l, order, orders);
    PushStands(w, l, order, orders);
    AppendIdle(w, AfterPush(l, order, orders), Opened(SessionRequests(l, order, orders)));
  }

  lemma PushStands(w: World, l: Local, order: seq<string>, orders: Orders)
    ensures Stands(w, l) ==> Stands(w, AfterPush(l, order, orders))
  {
    PushKeeps(l, order, orders);
  }

  lemma PushOpens(l: Local, order: seq<string>, orders: Orders)
    requires l.previous.Some? ==> SessionVisits(orders, l.previous.value, l.session) && l.id.Some?
    requires PushesExactly(l)
    ensures var open, l' := Opened(SessionRequests(l, order, orders)), AfterPush(l, order, orders);
      && OneWriter(open)
      && forall i :: 0 <= i < |open| ==> open[i].outcome.None? && NewRequest(l', open[i].request)
  {
    OpenedWrites(l, order, orders);
    PushKeeps(l, order, orders);
    var l', open := AfterPush(l, order, orders), Opened(SessionRequests(l, order, orders));
    forall i | 0 <= i < |open|
      ensures NewRequest(l', open[i].request)
    {
      SameNewRequest(l, l', open[i].request);
    }
  }

  lemma SameNewRequest(l: Local, l': Local, r: Request)
    requires l'.id == l.id && l'.session == l.session && l'.previous == l.previous
    ensures NewRequest(l, r) ==> NewRequest(l', r)
  {
  }

  lemma IdleInStep(w: World)
    requires w.dispatcher.StatusHandedOn?
    requires w.local.Some? && Idle(w) && Stands(w, w.local.value)
    ensures InStep(w)
  {
  }

  /** Only the id, the session and its accepted copy matter. */
  lemma SameFace(w: World, l: Local, l': Local)
    requires l'.id == l.id && l'.session == l.session && l'.previous == l.previous
    ensures InStep(w.(local := Some(l))) ==> InStep(w.(local := Some(l')))
  {
    var v, v' := w.(local := Some(l)), w.(local := Some(l'));
    if InStep(v) {
      forall i | 0 <= i < |w.open|
        ensures Current(v', l', w.open[i])
      {
        assert Current(v, l, w.open[i]);
      }
    }
  }

  /** An update that is carried out makes the document that of the session. */
  lemma HandledUpdate(w: World, l: Local, i: nat, outcome: Outcome)
    requires CanOccur(w, Handled(i, outcome)) && w.open[i].request.UpdateSession?
    requires Current(w, l, w.open[i])
    ensures var w' := Next(w, Handled(i, outcome)); Current(w', l, w'.open[i])
  {
    var x := w.open[i].(outcome := Some(outcome));
    HandledLeaving(w.open, i, outcome);
    if Success(x) {
      var p, id := l.previous.value, x.request.session.value;
      var orders: Orders :| SessionVisits(orders, p, l.session) && x.request.patches == SessionPatches(p, l.session, orders);
      AcceptedUpdate(p, l.session, l.session, orders);
    }
  }

  lemma HandledKeeps(w: World, i: nat, outcome: Outcome)
    requires InStep(w) && CanOccur(w, Handled(i, outcome))
    ensures InStep(Next(w, Handled(i, outcome)))
  {
    if w.local.Some? {
      if w.open[i].request.UpdateSession? {
        HandledUpdateKeeps(w, i, outcome);
      } else {
        HandledOtherKeeps(w, i, outcome);
      }
    }
  }

  lemma HandledUpdateKeeps(w: World, i: nat, outcome: Outcome)
    requires InStep(w) && CanOccur(w, Handled(i, outcome)) && w.local.Some? && w.open[i].request.UpdateSession?
    ensures InStep(Next(w, Handled(i, outcome)))
  {
    var l, w' := w.local.value, Next(w, Handled(i, outcome));
    HandledUpdate(w, l, i, outcome);
    assert w'.open[i].request.UpdateSession?;
    forall j | 0 <= j < |w'.open|
      ensures Current(w', l, w'.open[j])
    {
      if j != i {
        assert Writes(w.open[i]) && !Writes(w.open[j]);
      }
    }
  }

  lemma HandledOtherKeeps(w: World, i: nat, outcome: Outcome)
    requires InStep(w) && CanOccur(w, Handled(i, outcome)) && w.local.Some? && !w.open[i].request.UpdateSession?
    ensures InStep(Next(w, Handled(i, outcome)))
  {
    var l, w' := w.local.value, Next(w, Handled(i, outcome));
    HandledOtherStands(w, l, i, outcome);
    forall j | 0 <= j < |w'.open|
      ensures Current(w', l, w'.open[j])
    {
      assert Current(w, l, w.open[j]);
      HandledOtherCurrent(w, l, i, outcome, j);
    }
  }

  lemma HandledOtherStands(w: World, l: Local, i: nat, outcome: Outcome)
    requires Stands(w, l) && CanOccur(w, Handled(i, outcome)) && !w.open[i].request.UpdateSession?
    ensures Stands(Next(w, Handled(i, outcome)), l)
  {
    var w' := Next(w, Handled(i, outcome));
    assert forall j :: 0 <= j < |w.open| ==> w'.open[j].request == w.open[j].request;
    if l.previous.Some? && forall j :: 0 <= j < |w.open| ==> !w.open[j].request.UpdateSession? {
      HandledStored(w, i, outcome, l.id.value, SessionDoc(l.previous.value));
    }
  }

  lemma HandledOtherCurrent(w: World, l: Local, i: nat, outcome: Outcome, j: nat)
    requires CanOccur(w, Handled(i, outcome)) && !w.open[i].request.UpdateSession? && j < |w.open|
    requires Current(w, l, w.open[j])
    ensures var w' := Next(w, Handled(i, outcome)); Current(w', l, w'.open[j])
  {
    var x := w.open[j];
    if j != i {
      if x.request.CreateSession? && Success(x) {
        HandledStored(w, i, outcome, x.outcome.value.id, x.request.document);
      } else if x.request.UpdateSession? {
        HandledStored(w, i, outcome, x.request.session.value,
                      if Success(x) then SessionDoc(l.session) else SessionDoc(l.previous.value));
      }
    }
  }

  // ---------- Answers ----------

  /** Once its one creation or update is answered, the session waits for nothing but removals. */
  lemma OthersIdle(w: World, i: nat)
    requires InStep(w) && w.local.Some? && i < |w.open| && Writes(w.open[i])
    ensures forall j :: 0 <= j < |w.open| - 1 ==> Without(w.open, i)[j].request.RemoveSession?
  {
    var rest := Without(w.open, i);
    forall j | 0 <= j < |rest|
      ensures rest[j].request.RemoveSession?
    {
      var n := if j < i then j else j + 1;
      assert rest[j] == w.open[n];
      assert Current(w, w.local.value, w.open[n]) && !Writes(w.open[n]);
    }
  }

  /** A request that no longer matters is dropped. */
  lemma DropKeeps(w: World, i: nat)
    requires InStep(w) && i < |w.open| && w.local.Some?
    requires Success(w.open[i]) ==> !RemovesResource(w.open[i])
    requires w.open[i].request.UpdateSession? ==> !Success(w.open[i])
    ensures InStep(World(w.dispatcher, w.local, w.documents, Without(w.open, i)))
  {
    var l, w' := w.local.value, World(w.dispatcher, w.local, w.documents, Without(w.open, i));
    LeavingWithout(w.open, i);
    forall j | 0 <= j < |w'.open|
      ensures w'.open[j] == w.open[if j < i then j else j + 1]
      ensures Current(w', l, w'.open[j])
    {
      assert Current(w, l, w.open[if j < i then j else j + 1]);
    }
    DropStands(w, l, i);
  }

  lemma DropStands(w: World, l: Local, i: nat)
    requires Stands(w, l) && OneWriter(w.open) && i < |w.open| && Current(w, l, w.open[i])
    requires Success(w.open[i]) ==> !RemovesResource(w.open[i]) && !w.open[i].request.UpdateSession?
    ensures Stands(World(w.dispatcher, Some(l), w.documents, Without(w.open, i)), l)
  {
    var w' := World(w.dispatcher, Some(l), w.documents, Without(w.open, i));
    LeavingWithout(w.open, i);
    if l.previous.Some? && !w.open[i].request.UpdateSession? {
      if forall j :: 0 <= j < |w'.open| ==> !w'.open[j].request.UpdateSession? {
        forall j | 0 <= j < |w.open|
          ensures !w.open[j].request.UpdateSession?
        {
          if j != i {
            assert w'.open[if j < i then j else j - 1] == w.open[j];
          }
        }
      }
    }
  }

  lemma UpdateNext(w: World, i: nat, reply: Reply, order: seq<string>, orders: Orders)
    requires w.dispatcher.StatusHandedOn?
    requires w.local.Some? && CanOccur(w, Answered(i, reply, order, orders))
    requires w.open[i].request.UpdateSession? && w.open[i].request.session.Some?
    ensures Next(w, Answered(i, reply, order, orders)) ==
            World(w.dispatcher, Some(AfterPatch(w.local.value, w.open[i].outcome.value.status)), w.documents, Without(w.open, i))
  {
    assert Without(w.open, i) + [] == Without(w.open, i);
  }

  lemma UpdateAnswerKeeps(w: World, i: nat, reply: Reply, order: seq<string>, orders: Orders)
    requires InStep(w) && w.local.Some? && CanOccur(w, Answered(i, reply, order, orders)) && w.open[i].request.UpdateSession?
    ensures InStep(Next(w, Answered(i, reply, order, orders)))
  {
    var l, x, w' := w.local.value, w.open[i], Next(w, Answered(i, reply, order, orders));
    assert Current(w, l, x);
    UpdateNext(w, i, reply, order, orders);
    OthersIdle(w, i);
    LeavingWithout(w.open, i);
    if Success(x) {
      SucceededStands(w, w', l, x);
    } else {
      FailedStands(w, w', l, x);
    }
    IdleInStep(w');
  }

  /** An update succeeds and the session becomes the accepted copy. */
  lemma SucceededStands(w: World, w': World, l: Local, x: Xact)
    requires x.request.UpdateSession? && Success(x) && Current(w, l, x)
    requires w'.documents == w.documents && forall id :: Leaving(w.open, id) ==> Leaving(w'.open, id)
    ensures Stands(w', AfterPatch(l, x.outcome.value.status))
  {
    CopyKeepsDocument(l.previous, l.session);
    NoCellsInCopy(l.previous, l.session);
  }

  /** Or it does not, and the copy stays. */
  lemma FailedStands(w: World, w': World, l: Local, x: Xact)
    requires x.request.UpdateSession? && x.outcome.Some? && !Success(x) && Current(w, l, x)
    requires NoCells(l.previous.value.serviceArea)
    requires w'.documents == w.documents && forall id :: Leaving(w.open, id) ==> Leaving(w'.open, id)
    ensures Stands(w', AfterPatch(l, x.outcome.value.status))
  {
  }

  /** After an accepted creation the push that follows is exact. */
  lemma FollowUpIsExact(l: Local, r: Reply)
    requires CreatesExactly(l) && Accepted(l.session, r)
    ensures PushesExactly(ReadReply(l, r))
  {
    var read := ReadReply(l, r);
    AcceptedReply(l, r);
    RepliedIs(l.session, r.body.value.value);
    CopyIsExact(l.previous, read.session);
  }

  lemma CreateAnswerKeeps(w: World, i: nat, r: Reply, order: seq<string>, orders: Orders)
    requires InStep(w) && w.local.Some? && Orderly(w, Answered(i, r, order, orders)) && w.open[i].request.CreateSession?
    ensures InStep(Next(w, Answered(i, r, order, orders)))
  {
    if Success(w.open[i]) && Accepted(w.local.value.session, r) {
      AcceptedAnswerKeeps(w, i, r, order, orders);
    } else {
      OtherAnswerKeeps(w, i, r, order, orders);
    }
  }

  lemma FollowUpOpens(l: Local, r: Reply, order: seq<string>, orders: Orders)
    requires CreatesExactly(l) && Accepted(l.session, r)
    requires var read := ReadReply(l, r); SessionVisits(orders, read.previous.value, read.session)
    ensures var read := ReadReply(l, r);
      var l', open := AfterPush(read, order, orders), Opened(SessionRequests(read, order, orders));
      && OneWriter(open)
      && forall i :: 0 <= i < |open| ==> open[i].outcome.None? && NewRequest(l', open[i].request)
  {
    AcceptedReply(l, r);
    FollowUpIsExact(l, r);
    PushOpens(ReadReply(l, r), order, orders);
  }

  lemma AcceptedAnswerKeeps(w: World, i: nat, r: Reply, order: seq<string>, orders: Orders)
    requires InStep(w) && w.local.Some? && Orderly(w, Answered(i, r, order, orders)) && w.open[i].request.CreateSession?
    requires Success(w.open[i]) && Accepted(w.local.value.session, r)
    ensures InStep(Next(w, Answered(i, r, order, orders)))
  {
    var l, read := w.local.value, ReadReply(w.local.value, r);
    AcceptedNext(w, i, r, order, orders);
    AcceptedIdle(w, i, r, order, orders);
    assert Current(w, l, w.open[i]);
    FollowUpOpens(l, r, order, orders);
    var l' := AfterPush(read, order, orders);
    AppendIdle(World(w.dispatcher, Some(l'), w.documents, Without(w.open, i)), l', Opened(SessionRequests(read, order, orders)));
  }

  lemma AcceptedIdle(w: World, i: nat, r: Reply, order: seq<string>, orders: Orders)
    requires InStep(w) && w.local.Some? && Orderly(w, Answered(i, r, order, orders)) && w.open[i].request.CreateSession?
    requires Success(w.open[i]) && Accepted(w.local.value.session, r)
    ensures var read := ReadReply(w.local.value, r);
      var l' := AfterPush(read, order, orders);
      var idle := World(w.dispatcher, Some(l'), w.documents, Without(w.open, i));
      && Idle(idle) && Stands(idle, l')
      && SessionVisits(orders, read.previous.value, read.session)
  {
    var l := w.local.value;
    assert Current(w, l, w.open[i]);
    AcceptedVisits(w, i, r, order, orders);
    OthersIdle(w, i);
    PushKeeps(ReadReply(l, r), order, orders);
    AcceptedStands(w, l, i, r, AfterPush(ReadReply(l, r), order, orders));
  }

  lemma AcceptedVisits(w: World, i: nat, r: Reply, order: seq<string>, orders: Orders)
    requires w.local.Some? && CanOccur(w, Answered(i, r, order, orders)) && w.open[i].request.CreateSession?
    requires Success(w.open[i]) && Accepted(w.local.value.session, r)
    ensures var read := ReadReply(w.local.value, r); SessionVisits(orders, read.previous.value, read.session)
    ensures r.location.id == w.open[i].outcome.value.id
  {
  }

  lemma AcceptedStands(w: World, l: Local, i: nat, r: Reply, l': Local)
    requires i < |w.open| && Current(w, l, w.open[i]) && w.open[i].request.CreateSession? && Success(w.open[i])
    requires Accepted(l.session, r) && r.location.id == w.open[i].outcome.value.id
    requires SsmAfter(l.session.ssm, r.body.value.value.ssm) == l.session.ssm
    requires l'.id == ReadReply(l, r).id && l'.previous == ReadReply(l, r).previous
    ensures Stands(World(w.dispatcher, Some(l'), w.documents, Without(w.open, i)), l')
  {
    LeavingWithout(w.open, i);
    CreatedStands(w, World(w.dispatcher, Some(l'), w.documents, Without(w.open, i)), l, w.open[i], r, l');
  }

  lemma CreatedStands(w: World, w': World, l: Local, x: Xact, r: Reply, l': Local)
    requires x.request.CreateSession? && Success(x) && Current(w, l, x) && Accepted(l.session, r)
    requires r.location.id == x.outcome.value.id
    requires SsmAfter(l.session.ssm, r.body.value.value.ssm) == l.session.ssm
    requires w'.documents == w.documents && forall id :: Leaving(w.open, id) ==> Leaving(w'.open, id)
    requires l'.id == ReadReply(l, r).id && l'.previous == ReadReply(l, r).previous
    ensures Stands(w', l')
  {
    CreationSyncs(l, r);
    AcceptedReply(l, r);
    NoCellsInCopy(l.previous, ReadReply(l, r).session);
  }

  lemma OtherAnswerKeeps(w: World, i: nat, r: Reply, order: seq<string>, orders: Orders)
    requires InStep(w) && w.local.Some? && Orderly(w, Answered(i, r, order, orders)) && w.open[i].request.CreateSession?
    requires !(Success(w.open[i]) && Accepted(w.local.value.session, r))
    ensures InStep(Next(w, Answered(i, r, order, orders)))
  {
    var l, w' := w.local.value, Next(w, Answered(i, r, order, orders));
    UnusedNext(w, i, r, order, orders);
    OthersIdle(w, i);
    if w'.local.value == l {
      DropStands(w, l, i);
    }
    IdleInStep(w');
  }

  /** A creation that failed, or whose reply is of no use, opens no request; a usable copy stays, or there is none. */
  lemma UnusedNext(w: World, i: nat, r: Reply, order: seq<string>, orders: Orders)
    requires w.local.Some? && Orderly(w, Answered(i, r, order, orders)) && w.open[i].request.CreateSession?
    requires !(Success(w.open[i]) && Accepted(w.local.value.session, r))
    ensures var l, w' := w.local.value, Next(w, Answered(i, r, order, orders));
      && w'.open == Without(w.open, i) && w'.documents == w.documents && w'.local.Some?
      && (w'.local.value == l || w'.local.value.previous.None?)
  {
    assert Without(w.open, i) + [] == Without(w.open, i);
  }

  lemma AnsweredKeeps(w: World, i: nat, r: Reply, order: seq<string>, orders: Orders)
    requires InStep(w) && Orderly(w, Answered(i, r, order, orders))
    ensures InStep(Next(w, Answered(i, r, order, orders)))
  {
    if w.local.Some? {
      var x := w.open[i];
      assert Current(w, w.local.value, x);
      if x.request.UpdateSession? {
        UpdateAnswerKeeps(w, i, r, order, orders);
      } else if x.request.CreateSession? {
        CreateAnswerKeeps(w, i, r, order, orders);
      } else if Unaddressed(x) {
        DropKeeps(w, i);
      }
    }
  }

  /** An orderly event keeps the session in step. */
  lemma StepStaysInStep(w: World, e: WorldEvent)
    requires InStep(w) && Orderly(w, e)
    ensures InStep(Next(w, e))
  {
    match e
    case Here(event) => HereKeeps(w, event);
    case Handled(i, outcome) => HandledKeeps(w, i, outcome);
    case Answered(i, r, order, orders) => AnsweredKeeps(w, i, r, order, orders);
    case TimedOut(i) =>
      if w.local.Some? {
        DropKeeps(w, i);
      }
  }

  // ---------- All orderly runs ----------

  /**
   Over every orderly run, however requests are handled, refused, answered or lost: while no creation or update is open
   and the session lives, the document at the MB-SMF is that of the accepted copy, unless a removal of it has been
   carried out whose answer is on its way.
   */
  lemma {:induction false} RunStaysInStep(w: World, es: seq<WorldEvent>)
    requires InStep(w) && OrderlyRun(w, es)
    ensures PossibleRun(w, es) && InStep(WorldRun(w, es))
    ensures var v := WorldRun(w, es);
      v.local.Some? && v.local.value.previous.Some? && Idle(v) ==>
        && v.local.value.id.Some?
        && Stored(v, v.local.value.id.value, SessionDoc(v.local.value.previous.value))
    decreases |es|
  {
    OrderlyIsPossible(w, es);
    if es != [] {
      StepStaysInStep(w, es[0]);
      RunStaysInStep(Next(w, es[0]), es[1..]);
    }
  }

  /** A session that was just made is in step with any MB-SMF. */
  lemma NewIsInStep(x: Session, documents: map<string, Json>)
    ensures InStep(World(Dispatcher.StatusHandedOn, Some(Local(None, x, None, EMPTY)), documents, []))
  {
  }

  /**
   When an update has succeeded or failed, and its answer has arrived, the session stands for the document: it is the
   session that was sent after a success, and the one accepted before after an error.
   */
  lemma AnswerSettles(w: World, i: nat, reply: Reply, order: seq<string>, orders: Orders)
    requires InStep(w) && w.local.Some? && CanOccur(w, Answered(i, reply, order, orders)) && w.open[i].request.UpdateSession?
    requires Success(w.open[i]) || w.open[i].outcome.value.status >= 400
    ensures var w', l := Next(w, Answered(i, reply, order, orders)), w.local.value;
      && w'.local.Some? && w'.local.value.id.Some?
      && Stored(w', w'.local.value.id.value, SessionDoc(w'.local.value.session))
      && (Success(w.open[i]) ==> w'.local.value.session == l.session)
      && (!Success(w.open[i]) ==> l.previous.Some? && SessionDoc(w'.local.value.session) == SessionDoc(l.previous.value))
  {
    var l, x := w.local.value, w.open[i];
    assert Current(w, l, x);
    UpdateNext(w, i, reply, order, orders);
    LeavingWithout(w.open, i);
    PatchedDocument(l, x.outcome.value.status);
  }

  lemma PatchedDocument(l: Local, status: int)
    requires l.previous.Some? && Exact(l.previous.value, l.session) && NoCells(l.previous.value.serviceArea)
    ensures 200 <= status <= 299 ==> AfterPatch(l, status).session == l.session
    ensures status >= 400 ==> SessionDoc(AfterPatch(l, status).session) == SessionDoc(l.previous.value)
  {
    CopyKeepsDocument(Some(l.session), l.previous.value);
  }

  /**
   A push that sends nothing leaves the MB-SMF up to date if and only if there was no change of the kind that the
   comparison does not see.
   */
  lemma QuietIsUpToDate(w: World, order: seq<string>, orders: Orders)
    requires InStep(w) && w.local.Some? && Idle(w) && w.local.value.id.Some? && !Leaving(w.open, w.local.value.id.value)
    requires SessionRequests(w.local.value, order, orders) == []
    ensures var l := w.local.value;
      l.previous.Some? &&
      (Stored(w, l.id.value, SessionDoc(l.session)) <==>
       && l.previous.value.serviceArea == l.session.serviceArea
       && l.previous.value.extServiceArea == l.session.extServiceArea
       && SeesInfo(l.previous.value.serviceInfo, l.session.serviceInfo))
  {
    var l := w.local.value;
    QuietPush(l, order, orders);
    EqualSessionsDocs(l.previous.value, l.session);
  }

  /** An update whose answer gets lost after it was carried out: in step if and only if it changed nothing. */
  lemma LostAnswerShows(w: World, i: nat)
    requires InStep(w) && w.local.Some? && i < |w.open| && w.open[i].request.UpdateSession? && Success(w.open[i])
    requires w.local.value.id.Some? && !Leaving(w.open, w.local.value.id.value)
    ensures var l := w.local.value;
      l.previous.Some? &&
      (InStep(Next(w, TimedOut(i))) <==> SessionDoc(l.session) == SessionDoc(l.previous.value))
  {
    var l, w' := w.local.value, Next(w, TimedOut(i));
    assert Current(w, l, w.open[i]);
    OthersIdle(w, i);
    NothingLeft(w.open, i, l.id.value);
    assert l.previous.Some? && w.documents[l.id.value] == SessionDoc(l.session);
    StandsAlone(w', l);
    if Stands(w', l) {
      IdleInStep(w');
    }
  }

  lemma EditThenAnswer(w: World, i: nat, later: Session, reply: Reply, order: seq<string>, orders: Orders)
    requires w.dispatcher.StatusHandedOn?
    requires w.local.Some? && i < |w.open| && w.open[i].request.UpdateSession? && w.open[i].request.session.Some?
    requires w.open[i].outcome.Some?
    ensures CanOccur(w, Here(Edited(later)))
    ensures var w1, e := Next(w, Here(Edited(later))), Answered(i, reply, order, orders);
      && CanOccur(w1, e)
      && Next(w1, e) == World(w.dispatcher, Some(AfterPatch(w.local.value.(session := later), w.open[i].outcome.value.status)),
                              w.documents, Without(w.open, i))
  {
    var w1 := Next(w, Here(Edited(later)));
    assert w.open + [] == w.open;
    assert w1 == World(w.dispatcher, Some(w.local.value.(session := later)), w.documents, w.open);
    UpdateNext(w1, i, reply, order, orders);
  }

  /**
   An edit made while an update that succeeds is under way: both stay in step if and only if the copy of the later session
   stands for the document of the one that was sent.
   */
  lemma EditMeanwhileShows(w: World, i: nat, later: Session, reply: Reply, order: seq<string>, orders: Orders)
    requires InStep(w) && w.local.Some? && i < |w.open| && w.open[i].request.UpdateSession? && Success(w.open[i])
    requires w.local.value.id.Some? && !Leaving(w.open, w.local.value.id.value)
    ensures CanOccur(w, Here(Edited(later)))
    ensures var w1, e := Next(w, Here(Edited(later))), Answered(i, reply, order, orders);
      && CanOccur(w1, e)
      && (InStep(Next(w1, e)) <==>
          SessionDoc(PublicCopy(w.local.value.previous, later)) == SessionDoc(w.local.value.session))
  {
    var l := w.local.value;
    assert Current(w, l, w.open[i]);
    EditThenAnswer(w, i, later, reply, order, orders);
    var w2 := Next(Next(w, Here(Edited(later))), Answered(i, reply, order, orders));
    OthersIdle(w, i);
    NothingLeft(w.open, i, l.id.value);
    NoCellsInCopy(l.previous, later);
    StandsAlone(w2, w2.local.value);
    if Stands(w2, w2.local.value) {
      IdleInStep(w2);
    }
  }

  /** With nothing but removals open and none of them carried out, to be in step is to have the document of the copy. */
  lemma StandsAlone(w: World, l: Local)
    requires Idle(w) && l.previous.Some? && l.id.Some? && NoCells(l.previous.value.serviceArea)
    requires !Leaving(w.open, l.id.value) && l.id.value in w.documents
    ensures Stands(w, l) <==> w.documents[l.id.value] == SessionDoc(l.previous.value)
  {
  }
}
