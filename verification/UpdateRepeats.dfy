/**
 What follows from an answer that never reaches the accepted copy: every push sends the same update again, and an
 update that appends to a list appends once more each time.
 */
module UpdateRepeats {
  import opened Options
  import opened JsonDocument
  import opened JsonPatch
  import opened ServiceInfo
  import opened SessionDiff
  import opened SessionCopy
  import opened Subscriptions
  import opened Reconciler
  import opened SessionRuns
  import opened Reconciliation
  import opened SessionProtocol
  import opened SessionInStep
  import opened GrowingLists
  import ServiceAreas
  import Sequences

  // ---------- The same update with every push ----------

  /** The session lives and differs from the accepted copy, but in neither address nor TMGI. */
  predicate Differs(l: Local) {
    && !l.subs.deleted && l.previous.Some?
    && var p, x := l.previous.value, l.session;
       !SessionEqual(p, x) && SsmEqual(p.ssm, x.ssm) && TmgiEqual(p.tmgi, x.tmgi)
  }

  predicate OnlyUpdates(open: seq<Xact>) {
    forall i :: 0 <= i < |open| ==> open[i].request.UpdateSession?
  }

  /** Any event but an edit of the session or its deletion. */
  predicate Leaves(e: WorldEvent) {
    e.Here? ==> !e.event.Edited? && !(e.event.OnSubs? && e.event.event.DeleteSession?)
  }

  predicate SameSession(l: Local, l': Local) {
    l'.id == l.id && l'.session == l.session && l'.previous == l.previous && l'.subs.deleted == l.subs.deleted
  }

  /** How many updates of the session have been sent. */
  function UpdatesIn(sent: seq<Request>): nat {
    if sent == [] then 0
    else UpdatesIn(sent[..|sent| - 1]) + (if sent[|sent| - 1].UpdateSession? then 1 else 0)
  }

  function PushesIn(es: seq<WorldEvent>): nat {
    if es == [] then 0 else (if es[0].Here? && es[0].event.Pushed? then 1 else 0) + PushesIn(es[1..])
  }

  lemma {:induction false} UpdatesAppend(x: seq<Request>, y: seq<Request>)
    ensures UpdatesIn(x + y) == UpdatesIn(x) + UpdatesIn(y)
  {
    if y == [] {
      assert x + y == x;
    } else {
      assert (x + y)[..|x + y| - 1] == x + y[..|y| - 1];
      UpdatesAppend(x, y[..|y| - 1]);
    }
  }

  lemma {:induction false} NoUpdatesIn(y: seq<Request>)
    requires forall r :: r in y ==> !r.UpdateSession?
    ensures UpdatesIn(y) == 0
  {
    if y != [] {
      NoUpdatesIn(y[..|y| - 1]);
    }
  }

  lemma PushSendsOne(l: Local, order: seq<string>, orders: Orders)
    requires Differs(l) && Inv(l.subs) && VisitsAll(order, l.subs.active)
    ensures var l' := AfterPush(l, order, orders);
      && SameSession(l, l') && Inv(l'.subs)
      && SessionRequests(l, order, orders) == [UpdateSession(l.id, Patches(l.previous.value, l.session, orders))]
      && UpdatesIn(l'.subs.sent) == UpdatesIn(l.subs.sent) + 1
  {
    var s, body := Noted(l, order, orders), Patches(l.previous.value, l.session, orders);
    UpdateIsSent(l, order, orders);
    PushKeeps(l, order, orders);
    PushKeepsSubs(l, order, orders);
    var rs := [UpdateSession(l.id, body)];
    UpdatesAppend(l.subs.sent, rs);
    assert rs[..0] == [];
    PushSendsAll(s, order, body);
    UpdatesAppend(s.sent, PushRequests(s, order, body));
    forall r | r in PushRequests(s, order, body)
      ensures !r.UpdateSession?
    {
      PushSends(s, order, body, r);
    }
    NoUpdatesIn(PushRequests(s, order, body));
  }

  lemma SubsSendNoUpdate(s: State, e: Event)
    requires Inv(s) && Subscriptions.Possible(s, e) && Legal(s, e) && !e.Update? && !e.DeleteSession?
    ensures UpdatesIn(Step(s, e).sent) == UpdatesIn(s.sent) && Step(s, e).deleted == s.deleted
  {
    if e.Add? && !s.deleted && s.subs[e.k].id.Some? {
      var rs := [DeleteSub(e.k, s.subs[e.k].id)];
      UpdatesAppend(s.sent, rs);
      NoUpdatesIn(rs);
    }
  }

  /** An event with another answer, or none, to updates alone. */
  lemma StepRepeats(w: World, e: WorldEvent)
    requires w.dispatcher.AsWritten? && w.local.Some? && Differs(w.local.value) && Inv(w.local.value.subs)
    requires OnlyUpdates(w.open) && CanOccur(w, e) && Leaves(e)
    ensures var w', l := Next(w, e), w.local.value;
      && w'.dispatcher.AsWritten? && w'.local.Some? && SameSession(l, w'.local.value) && Inv(w'.local.value.subs)
      && OnlyUpdates(w'.open)
      && UpdatesIn(w'.local.value.subs.sent) == UpdatesIn(l.subs.sent) + (if e.Here? && e.event.Pushed? then 1 else 0)
  {
    var l := w.local.value;
    match e
    case Here(event) => HereRepeats(w, event);
    case Handled(i, outcome) =>
    case Answered(i, r, order, orders) => UpdateAnswered(w, i, r, order, orders);
    case TimedOut(i) =>
  }

  lemma HereRepeats(w: World, event: LocalEvent)
    requires w.local.Some? && Differs(w.local.value) && Inv(w.local.value.subs)
    requires OnlyUpdates(w.open) && CanOccur(w, Here(event)) && Leaves(Here(event))
    ensures var w', l := Next(w, Here(event)), w.local.value;
      && w'.local.Some? && SameSession(l, w'.local.value) && Inv(w'.local.value.subs) && OnlyUpdates(w'.open)
      && UpdatesIn(w'.local.value.subs.sent) == UpdatesIn(l.subs.sent) + (if event.Pushed? then 1 else 0)
  {
    var l := w.local.value;
    LocalStepKeepsSubs(l, event);
    match event
    case OnSubs(e) => SubsSendNoUpdate(l.subs, e);
    case Pushed(order, orders) =>
      PushSendsOne(l, order, orders);
      OpenedAt(SessionRequests(l, order, orders), 0);
    case _ =>
  }

  lemma {:induction false} RunLeaves(w: World, es: seq<WorldEvent>)
    requires w.dispatcher.AsWritten? && w.local.Some? && Differs(w.local.value) && Inv(w.local.value.subs)
    requires OnlyUpdates(w.open) && PossibleRun(w, es) && forall e :: e in es ==> Leaves(e)
    ensures var v, l := WorldRun(w, es), w.local.value;
      && v.local.Some? && SameSession(l, v.local.value)
      && UpdatesIn(v.local.value.subs.sent) == UpdatesIn(l.subs.sent) + PushesIn(es)
    decreases |es|
  {
    if es != [] {
      assert es[0] in es && forall e :: e in es[1..] ==> e in es;
      StepRepeats(w, es[0]);
      RunLeaves(Next(w, es[0]), es[1..]);
    }
  }

  /**
   A session that differs from its accepted copy is updated with every push, whatever the MB-SMF makes of the updates and
   whatever it answers: over every run without an edit of the session or its deletion, as many updates are sent as there
   are pushes, and the next push sends the same one again.
   */
  lemma UpdateNeverSettles(w: World, es: seq<WorldEvent>, order: seq<string>, orders: Orders)
    requires w.dispatcher.AsWritten? && w.local.Some? && Differs(w.local.value) && Inv(w.local.value.subs)
    requires OnlyUpdates(w.open) && PossibleRun(w, es) && forall e :: e in es ==> Leaves(e)
    ensures var v, l := WorldRun(w, es), w.local.value;
      && v.local.Some? && v.local.value.session == l.session && v.local.value.previous == l.previous
      && UpdatesIn(v.local.value.subs.sent) == UpdatesIn(l.subs.sent) + PushesIn(es)
      && SessionRequests(v.local.value, order, orders) ==
         [UpdateSession(l.id, Patches(l.previous.value, l.session, orders))]
  {
    RunLeaves(w, es);
    UpdateIsSent(WorldRun(w, es).local.value, order, orders);
  }

  // ---------- The same update carried out again and again ----------

  /** A push, its update carried out, and the answer. */
  function Round(order: seq<string>, orders: Orders, outcome: Outcome): seq<WorldEvent> {
    [Here(Pushed(order, orders))] + ([Handled(0, outcome)] + ([Answered(0, NO_REPLY, [], Orders([], []))] + []))
  }

  function Rounds(n: nat, round: seq<WorldEvent>): seq<WorldEvent> {
    if n == 0 then [] else round + Rounds(n - 1, round)
  }

  lemma OneMoreRound(w: World, k: nat, round: seq<WorldEvent>)
    requires k > 0 && PossibleRun(w, round) && PossibleRun(WorldRun(w, round), Rounds(k - 1, round))
    ensures PossibleRun(w, Rounds(k, round))
    ensures WorldRun(w, Rounds(k, round)) == WorldRun(WorldRun(w, round), Rounds(k - 1, round))
  {
    RunAppend(w, round, Rounds(k - 1, round));
  }

  /** In state n a round can run, and it leads to state n + 1. */
  ghost predicate Advances(w: World, n: nat, round: seq<WorldEvent>, inState: (World, nat) -> bool) {
    PossibleRun(w, round) && inState(WorldRun(w, round), n + 1)
  }

  lemma {:induction false} RoundsAdvance(w: World, n: nat, k: nat, round: seq<WorldEvent>, inState: (World, nat) -> bool)
    requires forall v, m {:trigger Advances(v, m, round, inState)} :: inState(v, m) ==> Advances(v, m, round, inState)
    requires inState(w, n)
    ensures PossibleRun(w, Rounds(k, round)) && inState(WorldRun(w, Rounds(k, round)), n + k)
    decreases k
  {
    if k > 0 {
      assert Advances(w, n, round, inState);
      RoundsAdvance(WorldRun(w, round), n + 1, k - 1, round, inState);
      OneMoreRound(w, k, round);
      assert n + 1 + (k - 1) == n + k;
    }
  }

  /** The hashes can be visited in these orders. */
  ghost predicate Visitable(l: Local, order: seq<string>, orders: Orders) {
    && VisitsAll(order, l.subs.active)
    && (l.previous.Some? ==> SessionVisits(orders, l.previous.value, l.session))
  }

  /** The session is as l is; it has the document, and nothing is open. */
  ghost predicate Has(w: World, l: Local, documents: map<string, Json>, document: Json)
    requires l.id.Some?
  {
    && w.dispatcher.AsWritten? && w.local.Some? && w.open == []
    && SameSession(l, w.local.value) && Inv(w.local.value.subs) && w.local.value.subs.active == l.subs.active
    && w.documents == documents[l.id.value := document]
  }

  /** A push of a session that differs from its accepted copy opens just the update. */
  lemma PushOpensUpdate(w: World, order: seq<string>, orders: Orders)
    requires w.local.Some? && w.open == [] && Differs(w.local.value) && Inv(w.local.value.subs)
    requires Visitable(w.local.value, order, orders)
    ensures var l, push := w.local.value, Here(Pushed(order, orders));
      var update := UpdateSession(l.id, SessionPatches(l.previous.value, l.session, orders));
      CanOccur(w, push)
      && Next(w, push) == World(w.dispatcher, Some(AfterPush(l, order, orders)), w.documents, [Xact(update, None)])
  {
    var l := w.local.value;
    UpdateIsSent(l, order, orders);
    var update := UpdateSession(l.id, Patches(l.previous.value, l.session, orders));
    assert [update][1..] == [];
    assert Opened([update]) == [Xact(update, None)] + Opened([]);
  }

  lemma PushKeepsActive(l: Local, order: seq<string>, orders: Orders)
    requires Differs(l) && Inv(l.subs) && VisitsAll(order, l.subs.active)
    ensures var l' := AfterPush(l, order, orders); SameSession(l, l') && Inv(l'.subs) && l'.subs.active == l.subs.active
  {
    PushSendsOne(l, order, orders);
    PushKeepsSubs(l, order, orders);
    PushMarks(Noted(l, order, orders), order, Patches(l.previous.value, l.session, orders));
  }

  /** An update that succeeds is carried out and answered: only the document is another. */
  lemma UpdateCarriedOut(w: World, id: string, patches: seq<Patch>, document: Json, outcome: Outcome)
    requires w.dispatcher.AsWritten? && w.local.Some? && id in w.documents && 200 <= outcome.status < 300
    requires w.open == [Xact(UpdateSession(Some(id), patches), None)] && ApplyAll(w.documents[id], patches) == Some(document)
    ensures var es := [Handled(0, outcome)] + ([Answered(0, NO_REPLY, [], Orders([], []))] + []);
      && PossibleRun(w, es)
      && WorldRun(w, es) == World(w.dispatcher, w.local, w.documents[id := document], [])
  {
    var last := Answered(0, NO_REPLY, [], Orders([], []));
    var w1 := Next(w, Handled(0, outcome));
    UpdateAnswered(w1, 0, NO_REPLY, [], Orders([], []));
    assert Without(w1.open, 0) == [];
    Follows(w1, last, []);
    Follows(w, Handled(0, outcome), [last] + []);
  }

  lemma RoundLeadsTo(w: World, id: string, after: Json, order: seq<string>, orders: Orders, outcome: Outcome)
    requires w.dispatcher.AsWritten? && w.local.Some? && w.open == [] && Differs(w.local.value) && Inv(w.local.value.subs)
    requires Visitable(w.local.value, order, orders) && 200 <= outcome.status < 300
    requires w.local.value.id == Some(id) && id in w.documents
    requires ApplyAll(w.documents[id], SessionPatches(w.local.value.previous.value, w.local.value.session, orders)) == Some(after)
    ensures var round := Round(order, orders, outcome);
      && PossibleRun(w, round)
      && WorldRun(w, round) ==
         World(w.dispatcher, Some(AfterPush(w.local.value, order, orders)), w.documents[id := after], [])
  {
    var l, push := w.local.value, Here(Pushed(order, orders));
    PushOpensUpdate(w, order, orders);
    UpdateCarriedOut(Next(w, push), id, SessionPatches(l.previous.value, l.session, orders), after, outcome);
    Follows(w, push, [Handled(0, outcome)] + ([Answered(0, NO_REPLY, [], Orders([], []))] + []));
  }

  /** One round: the document is what the update makes of it, and all else that matters is as before. */
  lemma RoundRuns(w: World, l: Local, documents: map<string, Json>, before: Json, after: Json, order: seq<string>,
                  orders: Orders, outcome: Outcome)
    requires Differs(l) && l.id.Some? && Visitable(l, order, orders) && 200 <= outcome.status < 300
    requires Has(w, l, documents, before)
    requires ApplyAll(before, SessionPatches(l.previous.value, l.session, orders)) == Some(after)
    ensures PossibleRun(w, Round(order, orders, outcome))
    ensures Has(WorldRun(w, Round(order, orders, outcome)), l, documents, after)
  {
    RoundLeadsTo(w, l.id.value, after, order, orders, outcome);
    HasAfterPush(w, l, documents, before, after, order, orders);
  }

  lemma HasAfterPush(w: World, l: Local, documents: map<string, Json>, before: Json, after: Json, order: seq<string>,
                     orders: Orders)
    requires Differs(l) && l.id.Some? && Visitable(l, order, orders) && Has(w, l, documents, before)
    ensures Has(World(w.dispatcher, Some(AfterPush(w.local.value, order, orders)), w.documents[l.id.value := after], []),
                l, documents, after)
  {
    PushKeepsActive(w.local.value, order, orders);
    assert documents[l.id.value := before][l.id.value := after] == documents[l.id.value := after];
  }

  /** The patch list leads from each of the documents to the next one. */
  predicate LeadsOn(document: nat -> Json, patches: seq<Patch>, n: nat) {
    ApplyAll(document(n), patches) == Some(document(n + 1))
  }

  lemma AgainFrom(w: World, document: nat -> Json, n: nat, k: nat, order: seq<string>, orders: Orders, outcome: Outcome)
    requires w.dispatcher.AsWritten? && w.local.Some? && w.open == [] && Inv(w.local.value.subs) && Differs(w.local.value)
    requires w.local.value.id.Some? && w.local.value.id.value in w.documents
    requires w.documents[w.local.value.id.value] == document(n)
    requires Visitable(w.local.value, order, orders) && 200 <= outcome.status < 300
    requires forall m :: LeadsOn(document, SessionPatches(w.local.value.previous.value, w.local.value.session, orders), m)
    ensures var es := Rounds(k, Round(order, orders, outcome));
      PossibleRun(w, es) && Has(WorldRun(w, es), w.local.value, w.documents, document(n + k))
  {
    var l, round := w.local.value, Round(order, orders, outcome);
    var inState := (v: World, m: nat) => Has(v, l, w.documents, document(m));
    forall v: World, m: nat | inState(v, m)
      ensures Advances(v, m, round, inState)
    {
      assert LeadsOn(document, SessionPatches(l.previous.value, l.session, orders), m);
      RoundRuns(v, l, w.documents, document(m), document(m + 1), order, orders, outcome);
    }
    assert w.documents[l.id.value := w.documents[l.id.value]] == w.documents;
    RoundsAdvance(w, n, k, round, inState);
  }

  /**
   An update that is carried out and answered again and again: if its patch list leads from each of the documents to the
   next one, then k pushes take the MB-SMF k documents on, while the session and its accepted copy stay as they are.
   */
  lemma UpdateAgainAndAgain(w: World, document: nat -> Json, k: nat, order: seq<string>, orders: Orders, outcome: Outcome)
    requires w.dispatcher.AsWritten? && w.local.Some? && w.open == [] && Inv(w.local.value.subs) && Differs(w.local.value)
    requires w.local.value.id.Some? && w.local.value.id.value in w.documents
    requires w.documents[w.local.value.id.value] == document(0)
    requires Visitable(w.local.value, order, orders) && 200 <= outcome.status < 300
    requires forall m :: LeadsOn(document, SessionPatches(w.local.value.previous.value, w.local.value.session, orders), m)
    ensures var es := Rounds(k, Round(order, orders, outcome));
      PossibleRun(w, es) && Has(WorldRun(w, es), w.local.value, w.documents, document(k))
  {
    AgainFrom(w, document, 0, k, order, orders, outcome);
    assert 0 + k == k;
  }

  // ---------- A list that grows with every push ----------

  /** The session has one more tracking area t than its accepted copy. */
  predicate GainedTai(l: Local, t: ServiceAreas.Tai) {
    && !l.subs.deleted && l.previous.Some? && ListsTais(l.previous.value)
    && l.session == Grown(l.previous.value, t, 1) && SsmEqual(l.previous.value.ssm, l.previous.value.ssm)
  }

  lemma GainDiffers(l: Local, t: ServiceAreas.Tai)
    requires GainedTai(l, t)
    ensures Differs(l)
  {
    GrownDiffers(l.previous.value, t);
  }

  function GrownDocs(p: Session, t: ServiceAreas.Tai): nat -> Json
    requires ListsTais(p)
  {
    (n: nat) => SessionDoc(Grown(p, t, n))
  }

  lemma StartsGrown(p: Session, t: ServiceAreas.Tai)
    requires ListsTais(p)
    ensures GrownDocs(p, t)(0) == SessionDoc(p)
  {
    GrownOnce(p, t);
  }

  lemma GrowsOn(p: Session, t: ServiceAreas.Tai, orders: Orders)
    requires ListsTais(p) && SessionVisits(orders, p, Grown(p, t, 1))
    ensures forall m :: LeadsOn(GrownDocs(p, t), SessionPatches(p, Grown(p, t, 1), orders), m)
  {
    forall m: nat
      ensures LeadsOn(GrownDocs(p, t), SessionPatches(p, Grown(p, t, 1), orders), m)
    {
      UpdateAppendsAgain(p, t, m, orders);
    }
  }

  lemma TooMany(p: Session, t: ServiceAreas.Tai, k: nat)
    requires ListsTais(p) && k > 1
    ensures SessionDoc(Grown(p, t, k)) != SessionDoc(Grown(p, t, 1)) && SessionDoc(Grown(p, t, k)) != SessionDoc(p)
  {
    GrownOnce(p, t);
    if SessionDoc(Grown(p, t, k)) == SessionDoc(Grown(p, t, 1)) {
      GrownApart(p, t, k, 1);
    }
    if SessionDoc(Grown(p, t, k)) == SessionDoc(Grown(p, t, 0)) {
      GrownApart(p, t, k, 0);
    }
  }

  /**
   One tracking area is added to an accepted session, and changes are pushed k times; the MB-SMF carries out every update
   and answers it. Then the document has the tracking area k times, while the session still has it once and its accepted
   copy not at all; from the second time on it is the document of neither.
   */
  lemma DocumentGrows(w: World, t: ServiceAreas.Tai, k: nat, order: seq<string>, orders: Orders, outcome: Outcome)
    requires w.dispatcher.AsWritten? && w.local.Some? && w.open == [] && Inv(w.local.value.subs) && GainedTai(w.local.value, t)
    requires w.local.value.id.Some? && w.local.value.id.value in w.documents
    requires w.documents[w.local.value.id.value] == SessionDoc(w.local.value.previous.value)
    requires Visitable(w.local.value, order, orders) && 200 <= outcome.status < 300
    ensures var es, l := Rounds(k, Round(order, orders, outcome)), w.local.value;
      && PossibleRun(w, es)
      && Has(WorldRun(w, es), l, w.documents, GrownDocs(l.previous.value, t)(k))
      && (k > 1 ==> SessionDoc(Grown(l.previous.value, t, k)) != SessionDoc(l.session)
                    && SessionDoc(Grown(l.previous.value, t, k)) != SessionDoc(l.previous.value))
  {
    var l := w.local.value;
    var p := l.previous.value;
    GainDiffers(l, t);
    StartsGrown(p, t);
    GrowsOn(p, t, orders);
    UpdateAgainAndAgain(w, GrownDocs(p, t), k, order, orders, outcome);
    if k > 1 {
      TooMany(p, t, k);
    }
  }

  // ---------- One session ----------

  const HOME := ServiceAreas.Tai(ServiceAreas.Plmn(1, 1), 7, None)
  const AWAY := ServiceAreas.Tai(ServiceAreas.Plmn(1, 1), 8, None)

  /** A broadcast session at home. */
  const AT_HOME := Session(Broadcast, None, None, None, false, false, false, false, false, None,
                           Some(ServiceAreas.Area([], [HOME])), None, None, None, None, None, None, None, [], None)

  const BOTH := AT_HOME.(serviceArea := Some(ServiceAreas.Area([], [HOME, AWAY])))
  const AWAY_TWICE := AT_HOME.(serviceArea := Some(ServiceAreas.Area([], [HOME, AWAY, AWAY])))

  /** It has been accepted, and gets a second tracking area. */
  const ADDED_AREA := World(AsWritten, Some(Local(Some("1"), BOTH, Some(AT_HOME), EMPTY)), map["1" := SessionDoc(AT_HOME)], [])

  const ONE_PUSH := Round([], Orders([], []), Outcome(204, ""))

  lemma BothIsGrown()
    ensures Grown(AT_HOME, AWAY, 1) == BOTH && Grown(AT_HOME, AWAY, 2) == AWAY_TWICE
  {
    assert Sequences.Copies(AWAY, 1) == [AWAY] by {
      assert Sequences.Copies(AWAY, 0) == [];
    }
    assert Sequences.Copies(AWAY, 2) == [AWAY, AWAY];
    assert [HOME] + [AWAY] == [HOME, AWAY] && [HOME] + [AWAY, AWAY] == [HOME, AWAY, AWAY];
  }

  lemma AddedAreaGrows(k: nat)
    ensures PossibleRun(ADDED_AREA, Rounds(k, ONE_PUSH))
    ensures Has(WorldRun(ADDED_AREA, Rounds(k, ONE_PUSH)), ADDED_AREA.local.value, ADDED_AREA.documents, GrownDocs(AT_HOME, AWAY)(k))
  {
    BothIsGrown();
    EmptyInv();
    DocumentGrows(ADDED_AREA, AWAY, k, [], Orders([], []), Outcome(204, ""));
  }

  lemma OutOfStep(w: World, l: Local, documents: map<string, Json>, document: Json)
    requires l.id.Some? && l.previous.Some? && Has(w, l, documents, document) && document != SessionDoc(l.previous.value)
    ensures !InStep(w)
  {
    assert !Leaving(w.open, l.id.value);
  }

  lemma StartsInStep()
    ensures InStep(ADDED_AREA)
  {
  }

  lemma AddedOnce(es: seq<WorldEvent>)
    requires es == Rounds(1, ONE_PUSH)
    ensures PossibleRun(ADDED_AREA, es) && !InStep(WorldRun(ADDED_AREA, es))
  {
    AddedAreaGrows(1);
    GrownOnce(AT_HOME, AWAY);
    if SessionDoc(Grown(AT_HOME, AWAY, 1)) == SessionDoc(Grown(AT_HOME, AWAY, 0)) {
      GrownApart(AT_HOME, AWAY, 1, 0);
    }
    OutOfStep(WorldRun(ADDED_AREA, es), ADDED_AREA.local.value, ADDED_AREA.documents, GrownDocs(AT_HOME, AWAY)(1));
  }

  lemma AddedAgain(es: seq<WorldEvent>)
    requires es == Rounds(2, ONE_PUSH)
    ensures PossibleRun(ADDED_AREA, es) && WorldRun(ADDED_AREA, es).documents == map["1" := SessionDoc(AWAY_TWICE)]
  {
    AddedAreaGrows(2);
    BothIsGrown();
    var grown := GrownDocs(AT_HOME, AWAY)(2);
    OnlyDocument(WorldRun(ADDED_AREA, es), "1", ADDED_AREA.local.value, SessionDoc(AT_HOME), grown);
  }

  lemma OnlyDocument(w: World, id: string, l: Local, first: Json, document: Json)
    requires l.id == Some(id) && Has(w, l, map[id := first], document)
    ensures w.documents == map[id := document]
  {
  }

  /**
   The session is in step to begin with. The update is carried out and answered with a success, and from then on it is
   not; a second push adds the second tracking area once more.
   */
  lemma AddedAreaIsAddedTwice(once: seq<WorldEvent>, twice: seq<WorldEvent>)
    requires once == Rounds(1, ONE_PUSH) && twice == Rounds(2, ONE_PUSH)
    ensures InStep(ADDED_AREA)
    ensures PossibleRun(ADDED_AREA, once) && !InStep(WorldRun(ADDED_AREA, once))
    ensures PossibleRun(ADDED_AREA, twice) && WorldRun(ADDED_AREA, twice).documents == map["1" := SessionDoc(AWAY_TWICE)]
  {
    StartsInStep();
    AddedOnce(once);
    AddedAgain(twice);
  }
}
