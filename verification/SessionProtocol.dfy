/**
 One session and the MB-SMF as a state machine. Requests about the session travel, are handled by the MB-SMF in any
 order, and are answered, or time out, in any order. An update changes a document as a whole or not at all.
 */
module SessionProtocol {
  import opened Options
  import opened JsonDocument
  import opened JsonPatch
  import opened ServiceInfo
  import opened SessionDiff
  import opened SessionCopy
  import opened Subscriptions
  import opened Reconciler
  import opened SessionRuns
  import opened Reconciliation

  /** The status that the MB-SMF answers with and, for a creation, the id of the new document. */
  datatype Outcome = Outcome(status: int, id: string)

  /** A request that is not answered yet; without an outcome the MB-SMF has not handled it. */
  datatype Xact = Xact(request: Request, outcome: Option<Outcome>)

  /**
   How an answer reaches the handler of updates. The dispatcher, as it is written, parses only the header of the answer,
   and the handler finds the status 0 of an empty message; it could hand the status of the answer on.
   */
  datatype Dispatcher = AsWritten | StatusHandedOn

  /** The local session, until it is freed; the documents at the MB-SMF; and the open requests about the session. */
  datatype World = World(dispatcher: Dispatcher, local: Option<Local>, documents: map<string, Json>, open: seq<Xact>)

  datatype WorldEvent =
    | Here(event: LocalEvent)
    | Handled(i: nat, outcome: Outcome)
    | Answered(i: nat, reply: Reply, order: seq<string>, orders: Orders)
    | TimedOut(i: nat)

  predicate Success(x: Xact) {
    x.outcome.Some? && 200 <= x.outcome.value.status < 300
  }

  // ---------- The MB-SMF ----------

  /** Only a request that can be carried out succeeds. */
  predicate Serves(documents: map<string, Json>, x: Xact) {
    Success(x) ==>
      match x.request
      case CreateSession(_, _) => x.outcome.value.id !in documents
      case UpdateSession(id, patches) => id.Some? && id.value in documents && ApplyAll(documents[id.value], patches).Some?
      case RemoveSession(id) => id.Some? && id.value in documents
      case _ => true
  }

  function Served(documents: map<string, Json>, x: Xact): map<string, Json>
    requires Serves(documents, x)
  {
    if !Success(x) then documents
    else
      match x.request
      case CreateSession(document, _) => documents[x.outcome.value.id := document]
      case UpdateSession(id, patches) => documents[id.value := ApplyAll(documents[id.value], patches).value]
      case RemoveSession(id) => documents - {id.value}
      case _ => documents
  }

  // ---------- Steps ----------

  /** Nothing but removals is open. */
  predicate Idle(w: World) {
    forall i :: 0 <= i < |w.open| ==> w.open[i].request.RemoveSession?
  }

  function Without(open: seq<Xact>, i: nat): seq<Xact>
    requires i < |open|
  {
    open[..i] + open[i + 1..]
  }

  function Opened(requests: seq<Request>): (r: seq<Xact>)
    ensures |r| == |requests|
  {
    if requests == [] then [] else [Xact(requests[0], None)] + Opened(requests[1..])
  }

  /** The requests about the session that an event of the client sends. */
  ghost function SentIn(l: Local, e: LocalEvent): seq<Xact> {
    var p := PushIn(l, e);
    if p.None? then [] else Opened(SessionRequests(p.value.at, p.value.order, p.value.orders))
  }

  /** An update or removal of a session without an id names no resource, and its answer is passed over. */
  predicate Unaddressed(x: Xact) {
    (x.request.UpdateSession? || x.request.RemoveSession?) && x.request.session.None?
  }

  /** What the answer to a creation or an update is to the session: the handler of creations sees the real status. */
  function AnswerTo(d: Dispatcher, x: Xact, reply: Reply, order: seq<string>, orders: Orders): LocalEvent
    requires x.outcome.Some?
  {
    if x.request.CreateSession? then CreateAnswered(x.outcome.value.status, reply, order, orders)
    else PatchAnswered(if d.StatusHandedOn? then x.outcome.value.status else UNPARSED)
  }

  ghost predicate CanOccur(w: World, e: WorldEvent) {
    match e
    case Here(event) =>
      w.local.Some? && !event.CreateAnswered? && !event.PatchAnswered? && Proper(w.local.value, event)
    case Handled(i, outcome) =>
      i < |w.open| && w.open[i].outcome.None? && Serves(w.documents, w.open[i].(outcome := Some(outcome)))
    case Answered(i, reply, order, orders) =>
      && i < |w.open| && w.open[i].outcome.Some?
      && (w.open[i].request.CreateSession? && Success(w.open[i]) && reply.location.Resource? ==>
            reply.location.id == w.open[i].outcome.value.id)
      && (w.local.Some? && !w.open[i].request.RemoveSession? ==>
            Proper(w.local.value, AnswerTo(w.dispatcher, w.open[i], reply, order, orders)))
    case TimedOut(i) => i < |w.open|
  }

  /** The answer to a removal that named the session's resource frees the session, whatever the status. */
  ghost function Next(w: World, e: WorldEvent): World
    requires CanOccur(w, e)
  {
    match e
    case Here(event) =>
      World(w.dispatcher, Some(LocalStep(w.local.value, event)), w.documents, w.open + SentIn(w.local.value, event))
    case Handled(i, outcome) =>
      var x := w.open[i].(outcome := Some(outcome));
      World(w.dispatcher, w.local, Served(w.documents, x), w.open[i := x])
    case Answered(i, reply, order, orders) =>
      var x, rest := w.open[i], Without(w.open, i);
      if w.local.None? || Unaddressed(x) then World(w.dispatcher, w.local, w.documents, rest)
      else if x.request.RemoveSession? then World(w.dispatcher, None, w.documents, rest)
      else
        var event := AnswerTo(w.dispatcher, x, reply, order, orders);
        World(w.dispatcher, Some(LocalStep(w.local.value, event)), w.documents, rest + SentIn(w.local.value, event))
    case TimedOut(i) => World(w.dispatcher, w.local, w.documents, Without(w.open, i))
  }

  ghost predicate PossibleRun(w: World, es: seq<WorldEvent>)
    decreases |es|
  {
    es != [] ==> CanOccur(w, es[0]) && PossibleRun(Next(w, es[0]), es[1..])
  }

  ghost function WorldRun(w: World, es: seq<WorldEvent>): World
    requires PossibleRun(w, es)
    decreases |es|
  {
    if es == [] then w else WorldRun(Next(w, es[0]), es[1..])
  }

  // ---------- When the local session survives ----------

  predicate RemovesResource(x: Xact) {
    x.request.RemoveSession? && x.request.session.Some?
  }

  predicate FreesSession(w: World, e: WorldEvent) {
    e.Answered? && e.i < |w.open| && RemovesResource(w.open[e.i])
  }

  ghost predicate RemovalAnswered(w: World, es: seq<WorldEvent>)
    requires PossibleRun(w, es)
    decreases |es|
  {
    es != [] && (FreesSession(w, es[0]) || RemovalAnswered(Next(w, es[0]), es[1..]))
  }

  /** The local session survives a run if and only if no removal of its resource is answered in it. */
  lemma {:induction false} SurvivesUnlessAnswered(w: World, es: seq<WorldEvent>)
    requires w.local.Some? && PossibleRun(w, es)
    ensures WorldRun(w, es).local.Some? <==> !RemovalAnswered(w, es)
    decreases |es|
  {
    if es != [] {
      if FreesSession(w, es[0]) {
        StaysGone(Next(w, es[0]), es[1..]);
      } else {
        SurvivesUnlessAnswered(Next(w, es[0]), es[1..]);
      }
    }
  }

  lemma {:induction false} StaysGone(w: World, es: seq<WorldEvent>)
    requires w.local.None? && PossibleRun(w, es)
    ensures WorldRun(w, es).local.None?
    decreases |es|
  {
    if es != [] {
      StaysGone(Next(w, es[0]), es[1..]);
    }
  }

  /** The push within an event of the world, if there is one. */
  ghost function PushOf(w: World, e: WorldEvent): Option<Pushing>
    requires CanOccur(w, e)
  {
    if w.local.None? then None
    else
      match e
      case Here(event) => PushIn(w.local.value, event)
      case Answered(i, reply, order, orders) =>
        if w.open[i].request.RemoveSession? || Unaddressed(w.open[i]) then None
        else PushIn(w.local.value, AnswerTo(w.dispatcher, w.open[i], reply, order, orders))
      case _ => None
  }

  ghost predicate RemovalPushed(w: World, es: seq<WorldEvent>)
    requires PossibleRun(w, es)
    decreases |es|
  {
    es != [] &&
    var p := PushOf(w, es[0]);
    (p.Some? && Removes(p.value.at)) || RemovalPushed(Next(w, es[0]), es[1..])
  }

  predicate NoRemoval(open: seq<Xact>) {
    forall i :: 0 <= i < |open| ==> !open[i].request.RemoveSession?
  }

  lemma {:induction false} OpenedAt(requests: seq<Request>, i: nat)
    requires i < |requests|
    ensures Opened(requests)[i] == Xact(requests[i], None)
  {
    if i > 0 {
      OpenedAt(requests[1..], i - 1);
    }
  }

  lemma SentHasNoRemoval(l: Local, e: LocalEvent)
    requires var p := PushIn(l, e); p.Some? ==> !Removes(p.value.at)
    ensures NoRemoval(SentIn(l, e))
  {
    var p := PushIn(l, e);
    if p.Some? {
      var rs := SessionRequests(p.value.at, p.value.order, p.value.orders);
      RemovalIsSent(p.value.at, p.value.order, p.value.orders);
      forall i | 0 <= i < |rs|
        ensures !Opened(rs)[i].request.RemoveSession?
      {
        OpenedAt(rs, i);
        assert rs[i] in rs;
      }
    }
  }

  lemma StepAddsNoRemoval(w: World, e: WorldEvent)
    requires CanOccur(w, e) && NoRemoval(w.open)
    requires var p := PushOf(w, e); p.Some? ==> !Removes(p.value.at)
    ensures NoRemoval(Next(w, e).open)
  {
    match e
    case Here(event) => SentHasNoRemoval(w.local.value, event);
    case Answered(i, reply, order, orders) =>
      if w.local.Some? {
        SentHasNoRemoval(w.local.value, AnswerTo(w.dispatcher, w.open[i], reply, order, orders));
      }
    case _ =>
  }

  /** As long as no removal is open and no push sends one, the local session survives whatever is answered. */
  lemma {:induction false} SurvivesWithoutRemoval(w: World, es: seq<WorldEvent>)
    requires w.local.Some? && PossibleRun(w, es) && NoRemoval(w.open) && !RemovalPushed(w, es)
    ensures WorldRun(w, es).local.Some?
    decreases |es|
  {
    if es != [] {
      StepAddsNoRemoval(w, es[0]);
      SurvivesWithoutRemoval(Next(w, es[0]), es[1..]);
    }
  }

  const REFUSED := Outcome(404, "")
  const NO_REPLY := Reply(NoLocation, None)

  /** The MB-SMF refuses open removal i, unless it has handled it, and the answer arrives. */
  ghost function RemovalRefused(w: World, i: nat): seq<WorldEvent>
    requires i < |w.open|
  {
    (if w.open[i].outcome.None? then [Handled(i, REFUSED)] else []) + [Answered(i, NO_REPLY, [], Orders([], []))]
  }

  /** Once a removal of the resource is open, an answer to it, even a refusal, frees the local session. */
  lemma RemovalFrees(w: World, i: nat)
    requires w.local.Some? && i < |w.open| && RemovesResource(w.open[i])
    ensures PossibleRun(w, RemovalRefused(w, i)) && WorldRun(w, RemovalRefused(w, i)).local.None?
  {
    var es := RemovalRefused(w, i);
    var last := Answered(i, NO_REPLY, [], Orders([], []));
    if w.open[i].outcome.None? {
      assert es[0] == Handled(i, REFUSED) && es[1..] == [last];
      assert CanOccur(w, es[0]);
      FreesAtOnce(Next(w, es[0]), i, last);
    } else {
      assert es == [last];
      FreesAtOnce(w, i, last);
    }
  }

  lemma FreesAtOnce(w: World, i: nat, e: WorldEvent)
    requires w.local.Some? && i < |w.open| && RemovesResource(w.open[i]) && w.open[i].outcome.Some?
    requires e.Answered? && e.i == i
    ensures PossibleRun(w, [e]) && WorldRun(w, [e]).local.None?
  {
    assert [e][1..] == [];
    assert CanOccur(w, e);
  }

  /**
   A push puts the local session at the mercy of an answer if and only if it sends a removal of the resource:
   otherwise the session survives every run without a further push that removes.
   */
  lemma PushSurvives(w: World, push: LocalEvent, es: seq<WorldEvent>)
    requires w.local.Some? && NoRemoval(w.open) && push.Pushed? && CanOccur(w, Here(push))
    requires PossibleRun(Next(w, Here(push)), es) && !RemovalPushed(Next(w, Here(push)), es)
    ensures !Removes(w.local.value) ==> WorldRun(Next(w, Here(push)), es).local.Some?
    ensures Removes(w.local.value) && w.local.value.id.Some? ==>
              var w', i := Next(w, Here(push)), |w.open|;
              && i < |w'.open| && RemovesResource(w'.open[i])
              && PossibleRun(w', RemovalRefused(w', i)) && WorldRun(w', RemovalRefused(w', i)).local.None?
  {
    var l, w' := w.local.value, Next(w, Here(push));
    if Removes(l) {
      if l.id.Some? {
        RemovalIsSent(l, push.order, push.orders);
        OpenedAt(SessionRequests(l, push.order, push.orders), 0);
        assert w'.open[|w.open|] == SentIn(l, push)[0];
        RemovalFrees(w', |w.open|);
      }
    } else {
      StepAddsNoRemoval(w, Here(push));
      SurvivesWithoutRemoval(w', es);
    }
  }

  // ---------- What is stored at the MB-SMF ----------

  /** A removal of the document has been carried out, and its answer, which frees the session, is on its way. */
  predicate Leaving(open: seq<Xact>, id: string) {
    exists i :: 0 <= i < |open| && open[i].request == RemoveSession(Some(id)) && Success(open[i])
  }

  predicate Stored(w: World, id: string, document: Json) {
    Leaving(w.open, id) || (id in w.documents && w.documents[id] == document)
  }

  lemma LeavingAppend(open: seq<Xact>, more: seq<Xact>)
    ensures forall id :: Leaving(open, id) ==> Leaving(open + more, id)
  {
    forall id | Leaving(open, id)
      ensures Leaving(open + more, id)
    {
      var i :| 0 <= i < |open| && open[i].request == RemoveSession(Some(id)) && Success(open[i]);
      assert (open + more)[i] == open[i];
    }
  }

  lemma HandledLeaving(open: seq<Xact>, i: nat, outcome: Outcome)
    requires i < |open| && open[i].outcome.None?
    ensures var x := open[i].(outcome := Some(outcome));
      && (forall id :: Leaving(open, id) ==> Leaving(open[i := x], id))
      && (forall id :: x.request == RemoveSession(Some(id)) && Success(x) ==> Leaving(open[i := x], id))
  {
    var x := open[i].(outcome := Some(outcome));
    forall id | Leaving(open, id)
      ensures Leaving(open[i := x], id)
    {
      var j :| 0 <= j < |open| && open[j].request == RemoveSession(Some(id)) && Success(open[j]);
      assert open[i := x][j] == open[j];
    }
    forall id | x.request == RemoveSession(Some(id)) && Success(x)
      ensures Leaving(open[i := x], id)
    {
      assert open[i := x][i] == x;
    }
  }

  /** What is stored stays so, unless an update of it is carried out. */
  lemma HandledStored(w: World, i: nat, outcome: Outcome, id: string, document: Json)
    requires CanOccur(w, Handled(i, outcome)) && Stored(w, id, document)
    requires w.open[i].request.UpdateSession? ==> !Success(w.open[i].(outcome := Some(outcome)))
    ensures Stored(Next(w, Handled(i, outcome)), id, document)
  {
    HandledLeaving(w.open, i, outcome);
  }

  lemma LeavingWithout(open: seq<Xact>, i: nat)
    requires i < |open| && !(RemovesResource(open[i]) && Success(open[i]))
    ensures forall id :: Leaving(open, id) ==> Leaving(Without(open, i), id)
  {
    forall id | Leaving(open, id)
      ensures Leaving(Without(open, i), id)
    {
      var j :| 0 <= j < |open| && open[j].request == RemoveSession(Some(id)) && Success(open[j]);
      assert Without(open, i)[if j < i then j else j - 1] == open[j];
    }
  }

  lemma NothingLeft(open: seq<Xact>, i: nat, id: string)
    requires i < |open| && !Leaving(open, id)
    ensures !Leaving(Without(open, i), id)
  {
    var rest := Without(open, i);
    forall j | 0 <= j < |rest|
      ensures !(rest[j].request == RemoveSession(Some(id)) && Success(rest[j]))
    {
      assert rest[j] == open[if j < i then j else j + 1];
    }
  }

  // ---------- The answer to a creation ----------

  lemma AnswerSends(l: Local, status: int, r: Reply, order: seq<string>, orders: Orders)
    requires 200 <= status < 300 && Accepted(l.session, r)
    ensures var e, read := CreateAnswered(status, r, order, orders), ReadReply(l, r);
      LocalStep(l, e) == AfterPush(read, order, orders) && SentIn(l, e) == Opened(SessionRequests(read, order, orders))
  {
    assert PushIn(l, CreateAnswered(status, r, order, orders)) == Some(Pushing(ReadReply(l, r), order, orders));
  }

  lemma AcceptedNext(w: World, i: nat, r: Reply, order: seq<string>, orders: Orders)
    requires w.local.Some? && CanOccur(w, Answered(i, r, order, orders)) && w.open[i].request.CreateSession?
    requires Success(w.open[i]) && Accepted(w.local.value.session, r)
    ensures var read := ReadReply(w.local.value, r);
      Next(w, Answered(i, r, order, orders)) ==
      World(w.dispatcher, Some(AfterPush(read, order, orders)), w.documents,
            Without(w.open, i) + Opened(SessionRequests(read, order, orders)))
  {
    AnswerSends(w.local.value, w.open[i].outcome.value.status, r, order, orders);
  }

  // ---------- Re-creation ----------

  lemma Follows(w: World, e: WorldEvent, es: seq<WorldEvent>)
    requires CanOccur(w, e) && PossibleRun(Next(w, e), es)
    ensures PossibleRun(w, [e] + es) && WorldRun(w, [e] + es) == WorldRun(Next(w, e), es)
  {
    assert ([e] + es)[1..] == es;
  }

  lemma {:induction false} RunAppend(w: World, xs: seq<WorldEvent>, ys: seq<WorldEvent>)
    requires PossibleRun(w, xs) && PossibleRun(WorldRun(w, xs), ys)
    ensures PossibleRun(w, xs + ys) && WorldRun(w, xs + ys) == WorldRun(WorldRun(w, xs), ys)
    decreases |xs|
  {
    if xs == [] {
      assert xs + ys == ys;
    } else {
      var e, rest := xs[0], xs[1..];
      assert (xs + ys)[0] == e && (xs + ys)[1..] == rest + ys;
      RunAppend(Next(w, e), rest, ys);
    }
  }

  /** Nothing is open, and a push is about to remove the session at the MB-SMF and to create it again. */
  predicate Recreates(w: World) {
    && w.local.Some? && w.open == [] && !w.local.value.subs.deleted && Removes(w.local.value)
    && w.local.value.id.Some? && w.local.value.id.value in w.documents
  }

  lemma RecreationSends(l: Local, order: seq<string>, orders: Orders)
    requires !l.subs.deleted && Removes(l)
    ensures SessionRequests(l, order, orders) == [RemoveSession(l.id), Creation(l, order)]
  {
  }

  lemma OpenedTwo(x: Request, y: Request)
    ensures Opened([x, y]) == [Xact(x, None), Xact(y, None)]
  {
    assert [x, y][1..] == [y] && [y][1..] == [];
    assert Opened([y]) == [Xact(y, None)] + Opened([y][1..]);
  }

  lemma RecreationOpens(w: World, order: seq<string>, orders: Orders)
    requires Recreates(w) && CanOccur(w, Here(Pushed(order, orders)))
    ensures var l := w.local.value;
      Next(w, Here(Pushed(order, orders))) ==
      World(w.dispatcher, Some(AfterPush(l, order, orders)), w.documents, [Xact(RemoveSession(l.id), None), Xact(Creation(l, order), None)])
  {
    var l := w.local.value;
    RecreationSends(l, order, orders);
    OpenedTwo(RemoveSession(l.id), Creation(l, order));
  }

  /** Both requests of a re-creation have been carried out. */
  function Exchanged(w: World, l: Local, request: Request, removed: Outcome, created: Outcome): World
    requires w.local.Some? && w.local.value.id.Some? && request.CreateSession?
  {
    World(w.dispatcher, Some(l), (w.documents - {w.local.value.id.value})[created.id := request.document],
          [Xact(RemoveSession(w.local.value.id), Some(removed)), Xact(request, Some(created))])
  }

  predicate Succeeds(o: Outcome) {
    200 <= o.status < 300
  }

  /** The MB-SMF carries out both. */
  lemma BothCarriedOut(w: World, l: Local, request: Request, removed: Outcome, created: Outcome, es: seq<WorldEvent>)
    requires w.local.Some? && w.local.value.id.Some? && w.local.value.id.value in w.documents && request.CreateSession?
    requires Succeeds(removed) && Succeeds(created) && created.id !in w.documents
    requires PossibleRun(Exchanged(w, l, request, removed, created), es)
    ensures var open := World(w.dispatcher, Some(l), w.documents, [Xact(RemoveSession(w.local.value.id), None), Xact(request, None)]);
      && PossibleRun(open, [Handled(0, removed)] + ([Handled(1, created)] + es))
      && WorldRun(open, [Handled(0, removed)] + ([Handled(1, created)] + es)) ==
         WorldRun(Exchanged(w, l, request, removed, created), es)
  {
    var open := World(w.dispatcher, Some(l), w.documents, [Xact(RemoveSession(w.local.value.id), None), Xact(request, None)]);
    var first := Next(open, Handled(0, removed));
    assert first.open == [Xact(RemoveSession(w.local.value.id), Some(removed)), Xact(request, None)];
    assert Next(first, Handled(1, created)) == Exchanged(w, l, request, removed, created);
    Follows(first, Handled(1, created), es);
    Follows(open, Handled(0, removed), [Handled(1, created)] + es);
  }

  /** The removal is answered first: the session is gone when the creation is answered. */
  lemma RemovalAnsweredFirst(w: World, l: Local, request: Request, removed: Outcome, created: Outcome, no: WorldEvent,
                             yes: WorldEvent)
    requires w.local.Some? && w.local.value.id.Some? && request.CreateSession?
    requires no.Answered? && no.i == 0 && yes.Answered? && yes.i == 0
    requires yes.reply.location.Resource? ==> yes.reply.location.id == created.id
    ensures var x := Exchanged(w, l, request, removed, created);
      && PossibleRun(x, [no] + ([yes] + []))
      && WorldRun(x, [no] + ([yes] + [])) == World(w.dispatcher, None, x.documents, [])
  {
    var x := Exchanged(w, l, request, removed, created);
    var gone := Next(x, no);
    assert gone == World(w.dispatcher, None, x.documents, [Xact(request, Some(created))]);
    Follows(gone, yes, []);
    Follows(x, no, [yes] + []);
  }

  /** The creation is answered first: the session lives under its new id until the removal of the old one is answered. */
  lemma CreationAnsweredFirst(w: World, l: Local, request: Request, removed: Outcome, created: Outcome, yes: WorldEvent,
                              no: WorldEvent)
    requires w.local.Some? && w.local.value.id.Some? && request.CreateSession?
    requires yes.Answered? && yes.i == 1 && no.Answered? && no.i == 0
    requires CanOccur(Exchanged(w, l, request, removed, created), yes)
    ensures var x := Exchanged(w, l, request, removed, created);
      && PossibleRun(x, [yes] + ([no] + []))
      && WorldRun(x, [yes] + ([no] + [])).local.None?
      && WorldRun(x, [yes] + ([no] + [])).documents == x.documents
  {
    var x := Exchanged(w, l, request, removed, created);
    var second := Next(x, yes);
    assert second.open[0] == x.open[0];
    Follows(second, no, []);
    Follows(x, yes, [no] + []);
  }

  /**
   A re-creation that the MB-SMF carries out loses the session, in whichever order it is answered: nothing is left of it on
   the client, while the MB-SMF has exchanged the old document for a new one that nobody knows.
   */
  lemma RecreationLoses(w: World, order: seq<string>, orders: Orders, removed: Outcome, created: Outcome, r: Reply,
                        again: seq<string>, visits: Orders)
    requires Recreates(w) && CanOccur(w, Here(Pushed(order, orders)))
    requires Succeeds(removed) && Succeeds(created) && created.id !in w.documents
    requires r.location.Resource? ==> r.location.id == created.id
    requires var l' := AfterPush(w.local.value, order, orders);
      CanHappen(l', CreateAnswered(created.status, r, again, visits))
    ensures var l, push, no := w.local.value, Here(Pushed(order, orders)), Answered(0, NO_REPLY, [], Orders([], []));
      var documents := (w.documents - {l.id.value})[created.id := CreationDoc(l.session)];
      var handled := (es: seq<WorldEvent>) => [Handled(0, removed)] + ([Handled(1, created)] + es);
      var a := [push] + handled([no] + ([Answered(0, r, again, visits)] + []));
      var b := [push] + handled([Answered(1, r, again, visits)] + ([no] + []));
      && PossibleRun(w, a) && WorldRun(w, a) == World(w.dispatcher, None, documents, [])
      && PossibleRun(w, b) && WorldRun(w, b).local.None? && WorldRun(w, b).documents == documents
  {
    var l, l', push := w.local.value, AfterPush(w.local.value, order, orders), Here(Pushed(order, orders));
    var no, first, second := Answered(0, NO_REPLY, [], Orders([], [])), Answered(0, r, again, visits), Answered(1, r, again, visits);
    var request := Creation(l, order);
    RecreationOpens(w, order, orders);
    RemovalAnsweredFirst(w, l', request, removed, created, no, first);
    BothCarriedOut(w, l', request, removed, created, [no] + ([first] + []));
    Follows(w, push, [Handled(0, removed)] + ([Handled(1, created)] + ([no] + ([first] + []))));
    CreationAnsweredFirst(w, l', request, removed, created, second, no);
    BothCarriedOut(w, l', request, removed, created, [second] + ([no] + []));
    Follows(w, push, [Handled(0, removed)] + ([Handled(1, created)] + ([second] + ([no] + []))));
  }

  /**
   A first address given to an accepted session, or a first TMGI to one without, creates the session again without
   removing it: the session lives on under the new id, and the old document stays at the MB-SMF.
   */
  lemma CreationLeavesOld(w: World, order: seq<string>, orders: Orders, created: Outcome, r: Reply, again: seq<string>,
                          visits: Orders)
    requires w.local.Some? && w.open == [] && w.local.value.id.Some? && w.local.value.previous.Some?
    requires CreatesSession(w.local.value) && !Removes(w.local.value)
    requires CanOccur(w, Here(Pushed(order, orders))) && Succeeds(created) && created.id !in w.documents
    requires Accepted(w.local.value.session, r) && r.location.id == created.id
    requires CanHappen(AfterPush(w.local.value, order, orders), CreateAnswered(created.status, r, again, visits))
    ensures var l := w.local.value;
      var es := [Here(Pushed(order, orders))] + ([Handled(0, created)] + ([Answered(0, r, again, visits)] + []));
      && PossibleRun(w, es)
      && WorldRun(w, es).local.Some? && WorldRun(w, es).local.value.id == Some(created.id)
      && WorldRun(w, es).documents == w.documents[created.id := CreationDoc(l.session)]
  {
    var l, l', push := w.local.value, AfterPush(w.local.value, order, orders), Here(Pushed(order, orders));
    var yes, request := Answered(0, r, again, visits), Creation(w.local.value, order);
    CreationOpens(w, order, orders);
    assert [] + [Xact(request, None)] == [Xact(request, None)];
    PushKeeps(l, order, orders);
    CreationCarriedOut(World(w.dispatcher, Some(l'), w.documents, [Xact(request, None)]), l', request, created, yes);
    Follows(w, push, [Handled(0, created)] + ([yes] + []));
  }

  lemma CreationOpens(w: World, order: seq<string>, orders: Orders)
    requires w.local.Some? && CreatesSession(w.local.value) && !Removes(w.local.value)
    requires CanOccur(w, Here(Pushed(order, orders)))
    ensures var l := w.local.value;
      Next(w, Here(Pushed(order, orders))) ==
      World(w.dispatcher, Some(AfterPush(l, order, orders)), w.documents, w.open + [Xact(Creation(l, order), None)])
  {
    var l := w.local.value;
    CreationSends(l, order, orders);
    OpenedOne(Creation(l, order));
  }

  lemma OpenedOne(x: Request)
    ensures Opened([x]) == [Xact(x, None)]
  {
    assert [x][1..] == [];
    assert Opened([x]) == [Xact(x, None)] + Opened([]);
  }

  lemma CreationSends(l: Local, order: seq<string>, orders: Orders)
    requires CreatesSession(l) && !Removes(l)
    ensures SessionRequests(l, order, orders) == [Creation(l, order)]
  {
  }

  lemma CreationAnswered(w: World, l: Local, yes: WorldEvent)
    requires w.local == Some(l) && |w.open| == 1 && w.open[0].request.CreateSession? && Success(w.open[0])
    requires yes.Answered? && yes.i == 0 && CanOccur(w, yes) && Accepted(l.session, yes.reply)
    ensures PossibleRun(w, [yes] + []) && WorldRun(w, [yes] + []).local.Some?
    ensures WorldRun(w, [yes] + []).local.value.id == Some(yes.reply.location.id)
    ensures WorldRun(w, [yes] + []).documents == w.documents
  {
    AcceptedNext(w, 0, yes.reply, yes.order, yes.orders);
    AcceptedReply(l, yes.reply);
    PushKeeps(ReadReply(l, yes.reply), yes.order, yes.orders);
    Follows(w, yes, []);
  }

  lemma CreationCarriedOut(w: World, l: Local, request: Request, created: Outcome, yes: WorldEvent)
    requires w == World(w.dispatcher, Some(l), w.documents, [Xact(request, None)]) && request.CreateSession?
    requires Succeeds(created) && created.id !in w.documents
    requires yes.Answered? && yes.i == 0 && Accepted(l.session, yes.reply) && yes.reply.location.id == created.id
    requires CanHappen(l, CreateAnswered(created.status, yes.reply, yes.order, yes.orders))
    ensures var es := [Handled(0, created)] + ([yes] + []);
      && PossibleRun(w, es)
      && WorldRun(w, es).local.Some? && WorldRun(w, es).local.value.id == Some(created.id)
      && WorldRun(w, es).documents == w.documents[created.id := request.document]
  {
    var made := World(w.dispatcher, Some(l), w.documents[created.id := request.document], [Xact(request, Some(created))]);
    assert Next(w, Handled(0, created)) == made;
    CreationAnswered(made, l, yes);
    Follows(w, Handled(0, created), [yes] + []);
  }

  /** Two pushes before the first answer, both creations carried out, and both answers accepted. */
  datatype Twice = Twice(order: seq<string>, orders: Orders, first: Outcome, second: Outcome, yes: WorldEvent, again: WorldEvent)

  ghost predicate CreatesTwice(w: World, t: Twice) {
    && w.local.Some? && w.open == [] && !w.local.value.subs.deleted && w.local.value.previous.None?
    && Succeeds(t.first) && Succeeds(t.second)
    && t.first.id !in w.documents && t.second.id !in w.documents && t.first.id != t.second.id
    && VisitsAll(t.order, w.local.value.subs.active)
    && AnswersFirst(PushedTwice(w, t), t.first, t.yes) && AnswersFirst(AnsweredOnce(w, t), t.second, t.again)
  }

  ghost predicate AnswersFirst(l: Local, created: Outcome, e: WorldEvent) {
    && e.Answered? && e.i == 0 && Accepted(l.session, e.reply) && e.reply.location.id == created.id
    && CanHappen(l, CreateAnswered(created.status, e.reply, e.order, e.orders))
  }

  ghost function PushedTwice(w: World, t: Twice): Local
    requires w.local.Some?
  {
    AfterPush(AfterPush(w.local.value, t.order, t.orders), t.order, t.orders)
  }

  ghost function AnsweredOnce(w: World, t: Twice): Local
    requires w.local.Some? && t.yes.Answered?
  {
    AfterPush(ReadReply(PushedTwice(w, t), t.yes.reply), t.yes.order, t.yes.orders)
  }

  function CreateTwice(t: Twice): seq<WorldEvent> {
    var push := Here(Pushed(t.order, t.orders));
    [push] + ([push] + ([Handled(0, t.first)] + ([Handled(1, t.second)] + ([t.yes] + ([t.again] + [])))))
  }

  /** A push of a session of which nothing has been accepted adds a creation to the open requests. */
  lemma NewOpens(w: World, order: seq<string>, orders: Orders)
    requires w.local.Some? && !w.local.value.subs.deleted && w.local.value.previous.None?
    requires VisitsAll(order, w.local.value.subs.active)
    ensures var l, push := w.local.value, Here(Pushed(order, orders));
      && CanOccur(w, push)
      && Next(w, push) == World(w.dispatcher, Some(Sent(l, [Creation(l, order)])), w.documents,
                                w.open + [Xact(Creation(l, order), None)])
      && Creation(Sent(l, [Creation(l, order)]), order) == Creation(l, order)
  {
    var l := w.local.value;
    PushOfNew(l, order, orders);
    SentTwice(l, Creation(l, order), [], order);
    CreationOpens(w, order, orders);
  }

  lemma CreatedFirst(w: World, l: Local, created: Outcome, e: WorldEvent)
    requires w.local == Some(l) && w.open != [] && w.open[0].request.CreateSession? && w.open[0].outcome == Some(created)
    requires Succeeds(created) && AnswersFirst(l, created, e)
    ensures CanOccur(w, e)
    ensures var read := ReadReply(l, e.reply);
      Next(w, e) == World(w.dispatcher, Some(AfterPush(read, e.order, e.orders)), w.documents,
                          w.open[1..] + Opened(SessionRequests(read, e.order, e.orders)))
  {
    AcceptedNext(w, 0, e.reply, e.order, e.orders);
    assert Without(w.open, 0) == w.open[1..];
  }

  /**
   A push that is repeated before the creation has been answered creates the session twice. The session ends under the id
   of the answer that comes last, and the other document stays behind.
   */
  lemma RepeatedCreationOrphans(w: World, t: Twice)
    requires CreatesTwice(w, t)
    ensures PossibleRun(w, CreateTwice(t))
    ensures var v, document := WorldRun(w, CreateTwice(t)), CreationDoc(w.local.value.session);
      && v.local.Some? && v.local.value.id == Some(t.second.id)
      && v.documents == w.documents[t.first.id := document][t.second.id := document]
  {
    var l, push := w.local.value, Here(Pushed(t.order, t.orders));
    var request := Creation(l, t.order);
    NewOpens(w, t.order, t.orders);
    var w1 := Next(w, push);
    NewOpens(w1, t.order, t.orders);
    PushOfNew(l, t.order, t.orders);
    PushOfNew(w1.local.value, t.order, t.orders);
    var w2 := Next(w1, push);
    assert w2.open == [Xact(request, None), Xact(request, None)];
    CarriedOutTwice(w2, PushedTwice(w, t), request, t, AnsweredOnce(w, t));
    Follows(w1, push, [Handled(0, t.first)] + ([Handled(1, t.second)] + ([t.yes] + ([t.again] + []))));
    Follows(w, push, [push] + ([Handled(0, t.first)] + ([Handled(1, t.second)] + ([t.yes] + ([t.again] + [])))));
  }

  lemma CarriedOutTwice(w: World, l: Local, request: Request, t: Twice, l': Local)
    requires w.local == Some(l) && request.CreateSession? && w.open == [Xact(request, None), Xact(request, None)]
    requires Succeeds(t.first) && Succeeds(t.second)
    requires t.first.id !in w.documents && t.second.id !in w.documents && t.first.id != t.second.id
    requires AnswersFirst(l, t.first, t.yes) && l' == AfterPush(ReadReply(l, t.yes.reply), t.yes.order, t.yes.orders)
    requires AnswersFirst(l', t.second, t.again)
    ensures var es := [Handled(0, t.first)] + ([Handled(1, t.second)] + ([t.yes] + ([t.again] + [])));
      && PossibleRun(w, es)
      && WorldRun(w, es).local.Some? && WorldRun(w, es).local.value.id == Some(t.second.id)
      && WorldRun(w, es).documents == w.documents[t.first.id := request.document][t.second.id := request.document]
  {
    var w1, w2 := Next(w, Handled(0, t.first)), Next(Next(w, Handled(0, t.first)), Handled(1, t.second));
    assert w2.open == [Xact(request, Some(t.first)), Xact(request, Some(t.second))];
    AnsweredTwice(w2, l, t, l');
    Follows(w1, Handled(1, t.second), [t.yes] + ([t.again] + []));
    Follows(w, Handled(0, t.first), [Handled(1, t.second)] + ([t.yes] + ([t.again] + [])));
  }

  lemma AnsweredTwice(w: World, l: Local, t: Twice, l': Local)
    requires w.local == Some(l) && |w.open| == 2 && w.open[0].request.CreateSession? && w.open[1].request.CreateSession?
    requires w.open[0].outcome == Some(t.first) && w.open[1].outcome == Some(t.second)
    requires Succeeds(t.first) && Succeeds(t.second) && AnswersFirst(l, t.first, t.yes)
    requires l' == AfterPush(ReadReply(l, t.yes.reply), t.yes.order, t.yes.orders) && AnswersFirst(l', t.second, t.again)
    ensures var es := [t.yes] + ([t.again] + []);
      && PossibleRun(w, es)
      && WorldRun(w, es).local.Some? && WorldRun(w, es).local.value.id == Some(t.second.id)
      && WorldRun(w, es).documents == w.documents
  {
    CreatedFirst(w, l, t.first, t.yes);
    var w1 := Next(w, t.yes);
    assert w1.open[0] == w.open[1];
    CreatedFirst(w1, l', t.second, t.again);
    AcceptedReply(l', t.again.reply);
    PushKeeps(ReadReply(l', t.again.reply), t.again.order, t.again.orders);
    Follows(w1, t.again, []);
    Follows(w, t.yes, [t.again] + []);
  }
}
