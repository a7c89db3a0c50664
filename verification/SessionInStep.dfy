/**
 The session and its document at the MB-SMF, with the dispatcher as it is written: the accepted copy stands for
 the document until an update that changes it is carried out, and no answer to an update makes up for that.
 */
module SessionInStep {
  import opened Options
  import opened JsonDocument
  import opened JsonPatch
  import opened ServiceInfo
  import opened SessionDiff
  import opened SessionCopy
  import opened Subscriptions
  import opened Reconciler
  import opened SessionRuns
  import opened Reconciliation
  import opened SessionProtocol

  // ---------- The invariant ----------

  /** The accepted copy stands for the document of the session. */
  predicate Stands(w: World, l: Local) {
    l.previous.Some? ==> l.id.Some? && Stored(w, l.id.value, SessionDoc(l.previous.value))
  }

  /** While a creation is open, nothing else is but removals. */
  predicate CreatesAlone(open: seq<Xact>) {
    forall i, j :: 0 <= i < |open| && 0 <= j < |open| && i != j && open[i].request.CreateSession? ==>
      open[j].request.RemoveSession?
  }

  /** An open creation speaks of the session as it is, and if it succeeded its document is stored. */
  predicate Current(w: World, l: Local, x: Xact) {
    x.request.CreateSession? ==>
      && x.request.document == CreationDoc(l.session) && CreatesExactly(l)
      && (Success(x) ==> Stored(w, x.outcome.value.id, x.request.document))
  }

  predicate InStep(w: World) {
    w.dispatcher.AsWritten? &&
    (w.local.Some? ==>
      && Stands(w, w.local.value) && CreatesAlone(w.open)
      && forall i :: 0 <= i < |w.open| ==> Current(w, w.local.value, w.open[i]))
  }

  // ---------- Orderly events ----------

  predicate NoCreation(open: seq<Xact>) {
    forall i :: 0 <= i < |open| ==> !open[i].request.CreateSession?
  }

  /**
   The application edits and pushes only while no creation is open, and creates only what can be created exactly and only
   while no update is open. The reply to a creation is a good one. No answer of a removal that was carried out gets lost.
   Updates may be of any kind, and any of their answers may get lost.
   */
  ghost predicate Orderly(w: World, e: WorldEvent) {
    CanOccur(w, e) &&
    match e
    case Here(event) =>
      && (event.Edited? || event.Pushed? ==> NoCreation(w.open))
      && (event.Pushed? && CreatesSession(w.local.value) ==> Idle(w) && CreatesExactly(w.local.value))
    case Handled(_, _) => true
    case Answered(i, r, _, _) =>
      w.local.Some? && w.open[i].request.CreateSession? && Success(w.open[i]) ==> GoodReply(w.local.value, r)
    case TimedOut(i) => Success(w.open[i]) ==> !RemovesResource(w.open[i])
  }

  ghost predicate OrderlyRun(w: World, es: seq<WorldEvent>)
    decreases |es|
  {
    es != [] ==> Orderly(w, es[0]) && OrderlyRun(Next(w, es[0]), es[1..])
  }

  lemma {:induction false} OrderlyIsPossible(w: World, es: seq<WorldEvent>)
    requires OrderlyRun(w, es)
    ensures PossibleRun(w, es)
    decreases |es|
  {
    if es != [] {
      OrderlyIsPossible(Next(w, es[0]), es[1..]);
    }
  }

  /** The MB-SMF carries out an update of the accepted session's document, and the document becomes another. */
  predicate ChangesDocument(w: World, e: WorldEvent) {
    && w.local.Some? && w.local.value.previous.Some? && w.local.value.id.Some? && e.Handled? && e.i < |w.open|
    && var x, id := w.open[e.i].(outcome := Some(e.outcome)), w.local.value.id.value;
       && x.request.UpdateSession? && x.request.session == Some(id) && Success(x) && Serves(w.documents, x)
       && !Leaving(w.open, id) && Served(w.documents, x)[id] != w.documents[id]
  }

  // ---------- The client's events ----------

  /** Only the id, the session and its accepted copy matter. */
  lemma SameFace(w: World, l: Local, l': Local)
    requires l'.id == l.id && l'.session == l.session && l'.previous == l.previous
    ensures InStep(w.(local := Some(l))) ==> InStep(w.(local := Some(l')))
  {
    var v, v' := w.(local := Some(l)), w.(local := Some(l'));
    if InStep(v) {
      forall i | 0 <= i < |w.open|
        ensures Current(v', l', w.open[i])
      {
        assert Current(v, l, w.open[i]);
      }
    }
  }

  lemma EditKeeps(w: World, x: Session)
    requires InStep(w) && w.local.Some? && NoCreation(w.open)
    ensures InStep(w.(local := Some(w.local.value.(session := x))))
  {
  }

  /** What a push opens has no outcome, and a creation in it is exact. */
  predicate Fresh(l: Local, x: Xact) {
    x.outcome.None? && (x.request.CreateSession? ==> x.request.document == CreationDoc(l.session) && CreatesExactly(l))
  }

  lemma PushOpens(l: Local, order: seq<string>, orders: Orders)
    requires CreatesSession(l) ==> CreatesExactly(l)
    ensures var open := Opened(SessionRequests(l, order, orders));
      && CreatesAlone(open) && (forall i :: 0 <= i < |open| ==> Fresh(l, open[i]))
      && (!CreatesSession(l) ==> NoCreation(open))
  {
    var rs := SessionRequests(l, order, orders);
    CreatesOrUpdates(l, order, orders);
    if CreatesSession(l) {
      CreationIsLast(l, order, orders);
    }
    forall i | 0 <= i < |rs|
      ensures Opened(rs)[i] == Xact(rs[i], None) && rs[i] in rs
    {
      OpenedAt(rs, i);
    }
  }

  lemma AppendFresh(w: World, l: Local, more: seq<Xact>)
    requires w.dispatcher.AsWritten? && Stands(w, l) && NoCreation(w.open) && CreatesAlone(more)
    requires forall i :: 0 <= i < |more| ==> Fresh(l, more[i])
    requires Idle(w) || NoCreation(more)
    ensures InStep(World(w.dispatcher, Some(l), w.documents, w.open + more))
  {
    var open := w.open + more;
    LeavingAppend(w.open, more);
    forall i | 0 <= i < |open|
      ensures open[i] == if i < |w.open| then w.open[i] else more[i - |w.open|]
    {
    }
    forall i, j | 0 <= i < |open| && 0 <= j < |open| && i != j && open[i].request.CreateSession?
      ensures open[j].request.RemoveSession?
    {
      assert i >= |w.open|;
    }
  }

  lemma PushedKeeps(w: World, order: seq<string>, orders: Orders)
    requires InStep(w) && Orderly(w, Here(Pushed(order, orders)))
    ensures InStep(Next(w, Here(Pushed(order, orders))))
  {
    var l := w.local.value;
    PushOpens(l, order, orders);
    AppendFresh(w, l, Opened(SessionRequests(l, order, orders)));
    PushKeeps(l, order, orders);
    SameFace(Next(w, Here(Pushed(order, orders))), l, AfterPush(l, order, orders));
  }

  lemma HereKeeps(w: World, event: LocalEvent)
    requires InStep(w) && Orderly(w, Here(event))
    ensures InStep(Next(w, Here(event)))
  {
    match event
    case Pushed(order, orders) => PushedKeeps(w, order, orders);
    case OnSubs(e) =>
      SameFace(w, w.local.value, LocalStep(w.local.value, event));
      assert w.open + [] == w.open;
    case Edited(x) =>
      EditKeeps(w, x);
      assert w.open + [] == w.open;
    case _ =>
  }

  // ---------- The MB-SMF's events ----------

  /** An update of the session's document breaks the step if and only if it changes the document. */
  lemma HandledUpdate(w: World, i: nat, outcome: Outcome)
    requires InStep(w) && CanOccur(w, Handled(i, outcome)) && w.local.Some? && w.open[i].request.UpdateSession?
    ensures InStep(Next(w, Handled(i, outcome))) <==> !ChangesDocument(w, Handled(i, outcome))
  {
    var l, w' := w.local.value, Next(w, Handled(i, outcome));
    HandledLeaving(w.open, i, outcome);
    UpdateLeavesNothing(w.open, i, outcome);
    assert NoCreation(w.open) by {
      assert w.open[i].request.UpdateSession?;
    }
    assert forall j :: 0 <= j < |w.open| ==> w'.open[j].request == w.open[j].request;
  }

  lemma UpdateLeavesNothing(open: seq<Xact>, i: nat, outcome: Outcome)
    requires i < |open| && open[i].request.UpdateSession?
    ensures forall id :: Leaving(open[i := open[i].(outcome := Some(outcome))], id) ==> Leaving(open, id)
  {
    var after := open[i := open[i].(outcome := Some(outcome))];
    forall id | Leaving(after, id)
      ensures Leaving(open, id)
    {
      var j :| 0 <= j < |after| && after[j].request == RemoveSession(Some(id)) && Success(after[j]);
      assert open[j] == after[j];
    }
  }

  lemma HandledOther(w: World, i: nat, outcome: Outcome)
    requires InStep(w) && CanOccur(w, Handled(i, outcome)) && w.local.Some? && !w.open[i].request.UpdateSession?
    ensures InStep(Next(w, Handled(i, outcome)))
  {
    var l, w' := w.local.value, Next(w, Handled(i, outcome));
    if l.previous.Some? {
      HandledStored(w, i, outcome, l.id.value, SessionDoc(l.previous.value));
    }
    assert forall j :: 0 <= j < |w.open| ==> w'.open[j].request == w.open[j].request;
    forall j | 0 <= j < |w'.open|
      ensures Current(w', l, w'.open[j])
    {
      HandledCurrent(w, l, i, outcome, j);
    }
  }

  lemma HandledCurrent(w: World, l: Local, i: nat, outcome: Outcome, j: nat)
    requires CanOccur(w, Handled(i, outcome)) && !w.open[i].request.UpdateSession? && j < |w.open|
    requires Current(w, l, w.open[j])
    ensures var w' := Next(w, Handled(i, outcome)); Current(w', l, w'.open[j])
  {
    var x := w.open[j];
    if j != i && x.request.CreateSession? && Success(x) {
      HandledStored(w, i, outcome, x.outcome.value.id, x.request.document);
    }
  }

  // ---------- Answers ----------

  /** A request that was not a removal that was carried out is dropped. */
  lemma DropKeeps(w: World, i: nat)
    requires InStep(w) && i < |w.open| && (Success(w.open[i]) ==> !RemovesResource(w.open[i]))
    ensures InStep(World(w.dispatcher, w.local, w.documents, Without(w.open, i)))
  {
    if w.local.Some? {
      var l, w' := w.local.value, World(w.dispatcher, w.local, w.documents, Without(w.open, i));
      LeavingWithout(w.open, i);
      forall j | 0 <= j < |w'.open|
        ensures w'.open[j] == w.open[if j < i then j else j + 1] && Current(w', l, w'.open[j])
      {
        assert Current(w, l, w.open[if j < i then j else j + 1]);
      }
    }
  }

  /** As the dispatcher is written, the answer to an update leaves the session and its accepted copy alone, whatever it is. */
  lemma UpdateAnswered(w: World, i: nat, r: Reply, order: seq<string>, orders: Orders)
    requires w.dispatcher.AsWritten? && CanOccur(w, Answered(i, r, order, orders)) && w.open[i].request.UpdateSession?
    ensures Next(w, Answered(i, r, order, orders)) == World(w.dispatcher, w.local, w.documents, Without(w.open, i))
  {
    assert Without(w.open, i) + [] == Without(w.open, i);
  }

  lemma RestIdle(w: World, i: nat)
    requires InStep(w) && w.local.Some? && i < |w.open| && w.open[i].request.CreateSession?
    ensures forall j :: 0 <= j < |w.open| - 1 ==> Without(w.open, i)[j].request.RemoveSession?
  {
    var rest := Without(w.open, i);
    forall j | 0 <= j < |rest|
      ensures rest[j].request.RemoveSession?
    {
      assert rest[j] == w.open[if j < i then j else j + 1];
    }
  }

  lemma AcceptedStands(w: World, i: nat, r: Reply)
    requires InStep(w) && w.local.Some? && i < |w.open| && w.open[i].request.CreateSession? && Success(w.open[i])
    requires Accepted(w.local.value.session, r) && GoodReply(w.local.value, r)
    requires r.location.id == w.open[i].outcome.value.id
    ensures var read := ReadReply(w.local.value, r);
      && CreatesExactly(read)
      && Stands(World(w.dispatcher, Some(read), w.documents, Without(w.open, i)), read)
  {
    var l := w.local.value;
    assert Current(w, l, w.open[i]);
    LeavingWithout(w.open, i);
    CreationSyncs(l, r);
    AcceptedReply(l, r);
    RepliedIs(l.session, r.body.value.value);
  }

  lemma AcceptedKeeps(w: World, i: nat, r: Reply, order: seq<string>, orders: Orders)
    requires InStep(w) && w.local.Some? && Orderly(w, Answered(i, r, order, orders)) && w.open[i].request.CreateSession?
    requires Success(w.open[i]) && Accepted(w.local.value.session, r)
    ensures InStep(Next(w, Answered(i, r, order, orders)))
  {
    var read := ReadReply(w.local.value, r);
    AcceptedStands(w, i, r);
    RestIdle(w, i);
    AcceptedNext(w, i, r, order, orders);
    PushOpens(read, order, orders);
    AppendFresh(World(w.dispatcher, Some(read), w.documents, Without(w.open, i)), read,
                Opened(SessionRequests(read, order, orders)));
    PushKeeps(read, order, orders);
    SameFace(Next(w, Answered(i, r, order, orders)), read, AfterPush(read, order, orders));
  }

  /** A creation that failed, or whose reply is of no use, opens no request; a usable copy stays, or there is none. */
  lemma UnusedKeeps(w: World, i: nat, r: Reply, order: seq<string>, orders: Orders)
    requires InStep(w) && w.local.Some? && Orderly(w, Answered(i, r, order, orders)) && w.open[i].request.CreateSession?
    requires !(Success(w.open[i]) && Accepted(w.local.value.session, r))
    ensures InStep(Next(w, Answered(i, r, order, orders)))
  {
    DropKeeps(w, i);
    RestIdle(w, i);
    var l', rest := Next(w, Answered(i, r, order, orders)).local.value, Without(w.open, i);
    UnusedNext(w, i, r, order, orders);
    assert World(w.dispatcher, Some(l'), w.documents, rest).open == rest;
  }

  lemma UnusedNext(w: World, i: nat, r: Reply, order: seq<string>, orders: Orders)
    requires w.local.Some? && Orderly(w, Answered(i, r, order, orders)) && w.open[i].request.CreateSession?
    requires !(Success(w.open[i]) && Accepted(w.local.value.session, r))
    ensures var w' := Next(w, Answered(i, r, order, orders));
      && w'.local.Some? && (w'.local == w.local || w'.local.value.previous.None?)
      && w' == World(w.dispatcher, w'.local, w.documents, Without(w.open, i))
  {
    assert Without(w.open, i) + [] == Without(w.open, i);
  }

  lemma AnsweredKeeps(w: World, i: nat, r: Reply, order: seq<string>, orders: Orders)
    requires InStep(w) && Orderly(w, Answered(i, r, order, orders))
    ensures InStep(Next(w, Answered(i, r, order, orders)))
  {
    if w.local.Some? {
      var x := w.open[i];
      if x.request.CreateSession? {
        if Success(x) && Accepted(w.local.value.session, r) {
          AcceptedKeeps(w, i, r, order, orders);
        } else {
          UnusedKeeps(w, i, r, order, orders);
        }
      } else if !RemovesResource(x) {
        DropKeeps(w, i);
        assert Without(w.open, i) + [] == Without(w.open, i);
      }
    }
  }

  // ---------- Every step and every run ----------

  /** An orderly event keeps the session in step if and only if it does not carry out an update that changes the document. */
  lemma StepStaysInStep(w: World, e: WorldEvent)
    requires InStep(w) && Orderly(w, e)
    ensures InStep(Next(w, e)) <==> !ChangesDocument(w, e)
  {
    match e
    case Here(event) => HereKeeps(w, event);
    case Handled(i, outcome) =>
      if w.local.Some? {
        if w.open[i].request.UpdateSession? {
          HandledUpdate(w, i, outcome);
        } else {
          HandledOther(w, i, outcome);
        }
      }
    case Answered(i, r, order, orders) => AnsweredKeeps(w, i, r, order, orders);
    case TimedOut(i) => DropKeeps(w, i);
  }

  ghost predicate InStepThroughout(w: World, es: seq<WorldEvent>)
    requires PossibleRun(w, es)
    decreases |es|
  {
    InStep(w) && (es != [] ==> InStepThroughout(Next(w, es[0]), es[1..]))
  }

  ghost predicate DocumentChanged(w: World, es: seq<WorldEvent>)
    requires PossibleRun(w, es)
    decreases |es|
  {
    es != [] && (ChangesDocument(w, es[0]) || DocumentChanged(Next(w, es[0]), es[1..]))
  }

  /**
   Over every orderly run, however requests are handled, refused, answered or lost: the accepted copy stands for the
   document at the MB-SMF all the time if and only if no update that was carried out changed the document.
   */
  lemma {:induction false} RunStaysInStep(w: World, es: seq<WorldEvent>)
    requires InStep(w) && OrderlyRun(w, es)
    ensures PossibleRun(w, es)
    ensures InStepThroughout(w, es) <==> !DocumentChanged(w, es)
    ensures !DocumentChanged(w, es) ==> InStep(WorldRun(w, es))
    decreases |es|
  {
    OrderlyIsPossible(w, es);
    if es != [] {
      StepStaysInStep(w, es[0]);
      if InStep(Next(w, es[0])) {
        RunStaysInStep(Next(w, es[0]), es[1..]);
      }
    }
  }

  /** A session that was just made is in step with any MB-SMF. */
  lemma NewIsInStep(x: Session, documents: map<string, Json>)
    ensures InStep(World(AsWritten, Some(Local(None, x, None, EMPTY)), documents, []))
  {
  }

  // ---------- An update that is carried out, or refused ----------

  lemma HandleThenAnswer(w: World, i: nat, outcome: Outcome, reply: Reply, order: seq<string>, orders: Orders)
    requires InStep(w) && CanOccur(w, Handled(i, outcome)) && w.open[i].request.UpdateSession?
    ensures var w1, e := Next(w, Handled(i, outcome)), Answered(i, reply, order, orders);
      CanOccur(w1, e) && Next(w1, e) == World(w.dispatcher, w.local, w1.documents, Without(w.open, i))
  {
    var w1 := Next(w, Handled(i, outcome));
    assert Without(w1.open, i) == Without(w.open, i);
    UpdateAnswered(w1, i, reply, order, orders);
  }

  /**
   An exact update that is carried out, and answered with whatever success: the document is that of the session that was
   sent, the local session and its accepted copy are as before, and both are in step if and only if the update changed
   nothing.
   */
  lemma CarriedOutUpdateShows(w: World, i: nat, x: Session, outcome: Outcome, reply: Reply, order: seq<string>, orders: Orders)
    requires InStep(w) && w.local.Some? && CanOccur(w, Handled(i, outcome)) && w.open[i].request.UpdateSession?
    requires w.local.value.previous.Some? && !Leaving(w.open, w.local.value.id.value)
    requires w.open[i].request.session == w.local.value.id && Success(w.open[i].(outcome := Some(outcome)))
    requires Exact(w.local.value.previous.value, x) && IsUpdateOf(w.local.value.previous.value, x, w.open[i].request.patches)
    ensures var w1, e, l := Next(w, Handled(i, outcome)), Answered(i, reply, order, orders), w.local.value;
      && CanOccur(w1, e) && Next(w1, e).local == Some(l)
      && Next(w1, e).documents == w.documents[l.id.value := SessionDoc(x)]
      && (InStep(Next(w1, e)) <==> SessionDoc(x) == SessionDoc(l.previous.value))
  {
    var w1, l := Next(w, Handled(i, outcome)), w.local.value;
    var p, id := l.previous.value, l.id.value;
    var visits: Orders :| SessionVisits(visits, p, x) && w.open[i].request.patches == SessionPatches(p, x, visits);
    AcceptedUpdate(p, x, x, visits);
    HandleThenAnswer(w, i, outcome, reply, order, orders);
    HandledUpdate(w, i, outcome);
    NothingLeft(w.open, i, id);
    if InStep(w1) {
      DropKeeps(w1, i);
      assert Without(w1.open, i) == Without(w.open, i);
    }
  }

  /** An update that is refused, with whatever status: nothing is rolled back. */
  lemma RefusedUpdateStays(w: World, i: nat, outcome: Outcome, reply: Reply, order: seq<string>, orders: Orders)
    requires InStep(w) && CanOccur(w, Handled(i, outcome)) && w.open[i].request.UpdateSession?
    requires !Success(w.open[i].(outcome := Some(outcome)))
    ensures var w1, e := Next(w, Handled(i, outcome)), Answered(i, reply, order, orders);
      CanOccur(w1, e) && Next(w1, e) == World(w.dispatcher, w.local, w.documents, Without(w.open, i))
  {
    HandleThenAnswer(w, i, outcome, reply, order, orders);
  }

  /**
   A push that sends nothing leaves the MB-SMF up to date if and only if there was no change of the kind that the
   comparison does not see.
   */
  lemma QuietIsUpToDate(w: World, order: seq<string>, orders: Orders)
    requires InStep(w) && w.local.Some? && w.local.value.id.Some? && !Leaving(w.open, w.local.value.id.value)
    requires SessionRequests(w.local.value, order, orders) == []
    ensures var l := w.local.value;
      l.previous.Some? &&
      (Stored(w, l.id.value, SessionDoc(l.session)) <==>
       && l.previous.value.serviceArea == l.session.serviceArea
       && l.previous.value.extServiceArea == l.session.extServiceArea
       && SeesInfo(l.previous.value.serviceInfo, l.session.serviceInfo))
  {
    var l := w.local.value;
    QuietPush(l, order, orders);
    EqualSessionsDocs(l.previous.value, l.session);
  }

  // ---------- What orderly runs leave out ----------

  /**
   The application edits the session while its creation is under way: the copy that the reply makes stands for the created
   document if and only if the copy of the later session does.
   */
  lemma EditWhileCreating(w: World, i: nat, later: Session, r: Reply, order: seq<string>, orders: Orders)
    requires InStep(w) && w.local.Some? && i < |w.open| && w.open[i].request.CreateSession? && Success(w.open[i])
    requires !Leaving(w.open, w.open[i].outcome.value.id) && Accepted(later, r)
    requires CanOccur(w.(local := Some(w.local.value.(session := later))), Answered(i, r, order, orders))
    ensures var edited, e := w.(local := Some(w.local.value.(session := later))), Answered(i, r, order, orders);
      && CanOccur(w, Here(Edited(later))) && Next(w, Here(Edited(later))) == edited
      && Next(edited, e).local.Some?
      && (Stands(Next(edited, e), Next(edited, e).local.value) <==>
          SessionDoc(PublicCopy(w.local.value.previous, WithReply(later, r.body.value.value))) == CreationDoc(w.local.value.session))
  {
    var edited, l := w.(local := Some(w.local.value.(session := later))), w.local.value.(session := later);
    assert w.open + [] == w.open;
    assert Current(w, w.local.value, w.open[i]);
    AcceptedNext(edited, i, r, order, orders);
    AcceptedReply(l, r);
    PushKeeps(ReadReply(l, r), order, orders);
    var more := Opened(SessionRequests(ReadReply(l, r), order, orders));
    NothingLeft(w.open, i, r.location.id);
    NothingComes(Without(w.open, i), ReadReply(l, r), order, orders, r.location.id);
  }

  /** What a push opens has not been carried out. */
  lemma NothingComes(open: seq<Xact>, l: Local, order: seq<string>, orders: Orders, id: string)
    requires !Leaving(open, id)
    ensures !Leaving(open + Opened(SessionRequests(l, order, orders)), id)
  {
    var rs := SessionRequests(l, order, orders);
    var all := open + Opened(rs);
    forall i | 0 <= i < |all|
      ensures !(all[i].request == RemoveSession(Some(id)) && Success(all[i]))
    {
      if i < |open| {
        assert all[i] == open[i];
      } else {
        OpenedAt(rs, i - |open|);
      }
    }
  }

  lemma StillLeaving(open: seq<Xact>, i: nat, id: string)
    requires i < |open| && open[i].request == RemoveSession(Some(id)) && Success(open[i])
    ensures Leaving(Without(open, i), id) <==>
            exists j :: 0 <= j < |open| && j != i && open[j].request == open[i].request && Success(open[j])
  {
    var rest := Without(open, i);
    if j :| 0 <= j < |open| && j != i && open[j].request == open[i].request && Success(open[j]) {
      assert rest[if j < i then j else j - 1] == open[j];
    }
    if j :| 0 <= j < |rest| && rest[j].request == open[i].request && Success(rest[j]) {
      assert open[if j < i then j else j + 1] == rest[j];
    }
  }

  /**
   The answer to a removal that was carried out is lost: the copy still stands for the document if and only if another
   removal of it was carried out too, whose answer is still to come.
   */
  lemma LostRemovalShows(w: World, i: nat)
    requires InStep(w) && w.local.Some? && w.local.value.previous.Some? && i < |w.open|
    requires w.open[i].request == RemoveSession(w.local.value.id) && Success(w.open[i])
    requires w.local.value.id.value !in w.documents
    ensures Stands(Next(w, TimedOut(i)), w.local.value) <==>
            exists j :: 0 <= j < |w.open| && j != i && w.open[j].request == w.open[i].request && Success(w.open[j])
  {
    StillLeaving(w.open, i, w.local.value.id.value);
  }
}
