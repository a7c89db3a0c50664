/**
 The reconciler of one MBS Session: what the application sets, what the MB-SMF last accepted, and the
 requests that a push sends to bring the MB-SMF up to date.
 */
module Reconciler {
  import opened Options
  import opened JsonDocument
  import opened JsonPatch
  import opened ServiceInfo
  import opened ServiceAreas
  import opened SessionDiff
  import opened SessionCopy
  import opened Subscriptions

  /** The private part of a session: its id at the MB-SMF, the public part, and the copy of the accepted public part. */
  datatype Local = Local(id: Option<string>, session: Session, previous: Option<Session>, subs: State)

  // ---------- Responses of the MB-SMF ----------

  datatype Location = NoLocation | BadLocation | NoResource | Resource(id: string)

  datatype TunnelAddress = TunnelAddress(ipv4: Option<string>, ipv6: Option<string>)

  datatype ReplyAddress = ReplyAddress(ipv4: Option<nat>, ipv6: Option<nat>)

  datatype ReplySsm = ReplySsm(source: Option<ReplyAddress>, dest: Option<ReplyAddress>)

  /** The expiry time is a time stamp, which may be malformed. */
  datatype Expiry = GoodTime(seconds: int) | BadTime

  datatype ReplySession = ReplySession(
    tunnels: Option<seq<TunnelAddress>>,
    tmgi: Option<(string, Plmn)>,
    expiry: Option<Expiry>,
    ssm: Option<ReplySsm>)

  /** The body may be missing, or lack the session. */
  datatype Reply = Reply(location: Location, body: Option<Option<ReplySession>>)

  function TunnelText(addresses: seq<TunnelAddress>): string {
    if addresses == [] then ""
    else
      var a := addresses[0];
      (if a.ipv4.Some? then a.ipv4.value + ";" else if a.ipv6.Some? then a.ipv6.value + ";" else "") + TunnelText(addresses[1..])
  }

  function TunnelOf(addresses: seq<TunnelAddress>): Option<string> {
    var text := TunnelText(addresses);
    if text == "" then None else Some(text)
  }

  /** Addresses of one family on both sides; otherwise an existing address stays and a new one has no family. */
  function SsmAfter(ssm: Option<Ssm>, reply: Option<ReplySsm>): Option<Ssm> {
    if reply.None? || reply.value.source.None? || reply.value.dest.None? then ssm
    else
      var s, d := reply.value.source.value, reply.value.dest.value;
      if s.ipv4.Some? && d.ipv4.Some? then Some(Ssm(IPv4, s.ipv4.value, d.ipv4.value))
      else if s.ipv6.Some? && d.ipv6.Some? then Some(Ssm(IPv6, s.ipv6.value, d.ipv6.value))
      else if ssm.None? then Some(Ssm(NoFamily, 0, 0))
      else ssm
  }

  predicate LacksTunnel(x: Session, r: ReplySession) {
    x.tunnelReq && r.tunnels.None?
  }

  predicate LacksTmgi(x: Session, r: ReplySession) {
    x.tmgiReq && (r.tmgi.None? || r.expiry.None? || r.expiry.value.BadTime?)
  }

  /** The session after the reply has been read, as far as it could be read. */
  function WithReply(x: Session, r: ReplySession): Session {
    if LacksTunnel(x, r) then x
    else
      var y := if x.tunnelReq then x.(udpTunnel := TunnelOf(r.tunnels.value)) else x;
      if LacksTmgi(x, r) then y
      else
        y.(tmgi := if x.tmgiReq then Some(Tmgi(Some(r.tmgi.value.0), r.tmgi.value.1, r.expiry.value.seconds)) else x.tmgi,
           ssm := SsmAfter(x.ssm, r.ssm))
  }

  predicate Accepted(x: Session, r: Reply) {
    && r.location.Resource? && r.body.Some? && r.body.value.Some?
    && !LacksTunnel(x, r.body.value.value) && !LacksTmgi(x, r.body.value.value)
  }

  /** Reading the reply to a create request. The id is kept even when the rest of the reply is of no use. */
  function ReadReply(l: Local, r: Reply): Local {
    if !r.location.Resource? then l
    else
      var named := l.(id := Some(r.location.id));
      if r.body.None? || r.body.value.None? then named
      else
        var after := named.(session := WithReply(l.session, r.body.value.value));
        if Accepted(l.session, r) then after.(previous := Some(PublicCopy(l.previous, after.session))) else after
  }

  // ---------- Pushing changes ----------

  /** A creation does not send the PCF indication, which is then false at the MB-SMF. */
  function CreationDoc(x: Session): Json {
    SessionDoc(x.(contactPcfInd := false))
  }

  function Creation(l: Local, order: seq<string>): Request {
    CreateSession(CreationDoc(l.session), Carried(l.subs, order))
  }

  /** The patch list that every update carries, for a possible visit of the hashes. */
  ghost function Patches(p: Session, x: Session, orders: Orders): seq<Patch> {
    if SessionVisits(orders, p, x) then SessionPatches(p, x, orders) else []
  }

  /** The requests about the session itself. */
  ghost function SessionRequests(l: Local, order: seq<string>, orders: Orders): seq<Request> {
    if l.subs.deleted then [RemoveSession(l.id)]
    else if l.previous.None? then [Creation(l, order)]
    else
      var p, x := l.previous.value, l.session;
      if SessionEqual(p, x) then []
      else if !SsmEqual(p.ssm, x.ssm) then (if p.ssm.Some? then [RemoveSession(l.id)] else []) + [Creation(l, order)]
      else if !TmgiEqual(p.tmgi, x.tmgi) then (if p.tmgi.Some? then [RemoveSession(l.id)] else []) + [Creation(l, order)]
      else [UpdateSession(l.id, Patches(p, x, orders))]
  }

  /** Subscriptions are brought up to date unless the session is removed or created. */
  predicate PushesSubs(l: Local) {
    !l.subs.deleted && l.previous.Some? &&
    var p, x := l.previous.value, l.session;
    SessionEqual(p, x) || (SsmEqual(p.ssm, x.ssm) && TmgiEqual(p.tmgi, x.tmgi))
  }

  ghost function AfterPush(l: Local, order: seq<string>, orders: Orders): Local {
    var sent := l.(subs := l.subs.(sent := l.subs.sent + SessionRequests(l, order, orders)));
    if PushesSubs(l) then sent.(subs := UpdateSubs(sent.subs, order, Patches(l.previous.value, l.session, orders))) else sent
  }

  /** A successful create response is followed by a push. */
  ghost function AfterCreate(l: Local, status: int, r: Reply, order: seq<string>, orders: Orders): Local {
    if status < 200 || status >= 300 then l
    else
      var read := ReadReply(l, r);
      if Accepted(l.session, r) then AfterPush(read, order, orders) else read
  }

  /** Success makes the current session the accepted one, an error restores the accepted one. */
  function AfterPatch(l: Local, status: int): Local {
    if 200 <= status <= 299 then l.(previous := Some(PublicCopy(l.previous, l.session)))
    else if status >= 400 && l.previous.Some? then l.(session := PublicCopy(Some(l.session), l.previous.value))
    else l
  }

  /** The status in a message of which only the header has been parsed. */
  const UNPARSED := 0

  // ---------- The session object ----------

  class MbsSession {
    var id: Option<string>
    var session: Session
    var previous: Option<Session>
    var subs: map<SubId, Sub>
    var pending: seq<SubId>
    var active: map<string, SubId>
    var doomed: seq<SubId>
    var deleted: bool
    ghost var sent: seq<Request>

    ghost function SubState(): State
      reads this
    {
      State(subs, pending, active, doomed, deleted, sent)
    }

    ghost function Abs(): Local
      reads this
    {
      Local(id, session, previous, SubState())
    }

    constructor (initial: Session)
      ensures Abs() == Local(None, initial, None, EMPTY)
    {
      id, session, previous := None, initial, None;
      subs, pending, active, doomed, deleted, sent := map[], [], map[], [], false, [];
    }

    method Delete()
      modifies this
      ensures Abs() == old(Abs()).(subs := Step(old(SubState()), DeleteSession))
    {
      deleted := true;
    }

    method AddSubscription(k: SubId) returns (ok: bool)
      requires k in subs
      modifies this
      ensures ok == !old(deleted)
      ensures Abs() == old(Abs()).(subs := AddSub(old(SubState()), k))
    {
      if deleted {
        return false;
      }
      var sub := subs[k];
      if sub.id.Some? {
        active := active - {sub.id.value};
        sent := sent + [DeleteSub(k, sub.id)];
        sub := sub.(id := None);
      }
      pending := pending + [k];
      subs := subs[k := sub.(attached := true, changed := true)];
      return true;
    }

    method RemoveSubscription(k: SubId) returns (ok: bool)
      requires k in subs
      modifies this
      ensures ok == (!old(deleted) && old(subs)[k].attached)
      ensures Abs() == old(Abs()).(subs := RemoveSub(old(SubState()), k))
    {
      if deleted || !subs[k].attached {
        return false;
      }
      if subs[k].id.Some? {
        active := active - {subs[k].id.value};
        doomed := doomed + [k];
        subs := subs[k := subs[k].(changed := true)];
      } else {
        var i := 0;
        while i < |pending| && pending[i] != k
          invariant 0 <= i <= |pending|
          invariant k !in pending[..i]
        {
          i := i + 1;
        }
        UnlinkedAt(pending, k, i);
        if i < |pending| {
          pending := pending[..i] + pending[i + 1..];
          subs := subs - {k};
        }
      }
      return true;
    }

    method NewSubscription(k: SubId, attributes: Attributes)
      requires k !in subs
      modifies this`subs
      ensures Abs() == old(Abs()).(subs := NewSub(old(SubState()), k, attributes))
    {
      subs := subs[k := Sub(None, false, false, attributes)];
    }

    method SetSubscription(k: SubId, attributes: Attributes)
      requires k in subs
      modifies this`subs
      ensures Abs() == old(Abs()).(subs := SetAttributes(old(SubState()), k, attributes))
    {
      if subs[k].attributes != attributes {
        subs := subs[k := subs[k].(attributes := attributes, changed := true)];
      }
    }

    /** First the list of new subscriptions, then the hash in the order in which it is visited. */
    method FindSubscription(correlationId: Option<string>, order: seq<string>) returns (found: Option<SubId>)
      ensures found == Find(SubState(), correlationId, order)
    {
      if deleted {
        return None;
      }
      found := FindIn(pending, correlationId);
      if found.None? {
        var visited := Visit(order);
        found := FindIn(visited, correlationId);
      }
    }

    method Visit(order: seq<string>) returns (visited: seq<SubId>)
      ensures visited == Entries(active, order)
    {
      visited := [];
      for i := 0 to |order|
        invariant visited + Entries(active, order[i..]) == Entries(active, order)
      {
        assert order[i..][1..] == order[i + 1..];
        if order[i] in active {
          visited := visited + [active[order[i]]];
        }
      }
      assert visited + [] == visited;
    }

    method FindIn(list: seq<SubId>, correlationId: Option<string>) returns (found: Option<SubId>)
      ensures found == FirstCorrelated(SubState(), list, correlationId)
    {
      for i := 0 to |list|
        invariant FirstCorrelated(SubState(), list[i..], correlationId) == FirstCorrelated(SubState(), list, correlationId)
      {
        assert list[i..][1..] == list[i + 1..];
        if list[i] in subs && subs[list[i]].attributes.correlationId == correlationId {
          return Some(list[i]);
        }
      }
      return None;
    }

    /**
     The response to the creation of a subscription; its body may be unreadable. It cannot be dealt with if there is no
     location to take the id of the found subscription from.
     */
    method SubscriptionResponse(status: int, body: Option<Option<string>>, location: Option<string>, order: seq<string>)
      returns (ok: bool)
      modifies this
      ensures ok == (200 <= status < 300 && body.Some? ==> Readable(old(SubState()), body.value, location, order))
      ensures Abs() == if 200 <= status < 300 && body.Some?
                       then old(Abs()).(subs := Subscribed(old(SubState()), body.value, location, order))
                       else old(Abs())
    {
      if body.None? || status < 200 || status >= 300 {
        return true;
      }
      var found := FindSubscription(body.value, order);
      if found.None? || found.value !in subs {
        return true;
      }
      if location.None? {
        return false;
      }
      var k, newId := found.value, location.value;
      subs := subs[k := subs[k].(id := Some(newId))];
      var i := 0;
      while i < |pending| && pending[i] != k
        invariant 0 <= i <= |pending|
        invariant k !in pending[..i]
      {
        i := i + 1;
      }
      UnlinkedAt(pending, k, i);
      if i < |pending| {
        pending := pending[..i] + pending[i + 1..];
        active := active[newId := k];
      }
      return true;
    }

    /** As the dispatcher is written: only the header is parsed, and it holds no location. */
    method DispatchSubscriptionAnswer(status: int, body: Option<Option<string>>, order: seq<string>) returns (ok: bool)
      modifies this
      ensures ok == (200 <= status < 300 && body.Some? ==> Find(old(SubState()), body.value, order).None?)
      ensures Abs() == old(Abs())
    {
      ok := SubscriptionResponse(status, body, None, order);
    }

    /** The three loops over new, active and deleted subscriptions. */
    method SubscriptionsUpdate(order: seq<string>, orders: Orders)
      requires previous.Some? && SessionVisits(orders, previous.value, session)
      modifies this
      ensures Abs() == old(Abs()).(subs := UpdateSubs(old(SubState()), order,
                                                      Patches(old(previous).value, old(session), orders)))
    {
      RequestNew();
      RequestUpdates(order, orders);
      RequestDeletions();
    }

    method RequestNew()
      modifies this
      ensures Abs() == old(Abs()).(subs := Creates(old(SubState()), |old(pending)|))
    {
      for i := 0 to |pending|
        invariant Abs() == old(Abs()).(subs := Creates(old(SubState()), i))
      {
        Notify(pending[i], CreateSub(pending[i]));
      }
    }

    /** An update of a subscription sends the patch list of the session. */
    method RequestUpdates(order: seq<string>, orders: Orders)
      requires previous.Some? && SessionVisits(orders, previous.value, session)
      modifies this
      ensures Abs() == old(Abs()).(subs := Updates(old(SubState()), order,
                                                   Patches(old(previous).value, old(session), orders), |order|))
    {
      ghost var body := Patches(previous.value, session, orders);
      for i := 0 to |order|
        invariant Abs() == old(Abs()).(subs := Updates(old(SubState()), order, body, i))
      {
        if order[i] in active {
          var k := active[order[i]];
          if k in subs {
            var patches := BuildSessionPatches(previous.value, session, orders);
            Notify(k, UpdateSub(k, subs[k].id, patches));
          }
        }
      }
    }

    method RequestDeletions()
      modifies this
      ensures Abs() == old(Abs()).(subs := Deletes(old(SubState()), |old(doomed)|))
    {
      for n := 0 to |doomed|
        invariant Abs() == old(Abs()).(subs := Deletes(old(SubState()), n))
      {
        DeletesNext(old(SubState()), n);
        DeleteDoomed();
      }
    }

    method DeleteDoomed()
      requires doomed != []
      modifies this
      ensures Abs() == old(Abs()).(subs := DeleteFirst(old(SubState())))
    {
      var k := doomed[0];
      sent := sent + [DeleteSub(k, if k in subs then subs[k].id else None)];
      doomed := doomed[1..];
      subs := subs - {k};
    }

    /** Sends the request if the subscription has changed, and marks it as unchanged. */
    method Notify(k: SubId, request: Request)
      modifies this
      ensures Abs() == old(Abs()).(subs := Acknowledge(old(SubState()), k, request))
    {
      if k in subs {
        if subs[k].changed {
          sent := sent + [request];
        }
        subs := subs[k := subs[k].(changed := false)];
      }
    }

    method Send(request: Request)
      modifies this`sent
      ensures sent == old(sent) + [request]
    {
      sent := sent + [request];
    }

    /** The creation carries the first subscription, if that one asks for an event. */
    method SendCreate(order: seq<string>)
      modifies this`sent
      ensures sent == old(sent) + [Creation(old(Abs()), order)]
    {
      var carried: Option<SubId> := None;
      if pending != [] {
        carried := Some(pending[0]);
      } else if order != [] && order[0] in active {
        carried := Some(active[order[0]]);
      }
      if carried.Some? && !(carried.value in subs && HasEvents(subs[carried.value].attributes.flags)) {
        carried := None;
      }
      Send(CreateSession(CreationDoc(session), carried));
    }

    method Recreate(remove: bool, order: seq<string>)
      modifies this`sent
      ensures sent == old(sent) + ((if remove then [RemoveSession(id)] else []) + [Creation(old(Abs()), order)])
    {
      if remove {
        Send(RemoveSession(id));
      }
      SendCreate(order);
    }

    method PushChanges(order: seq<string>, orders: Orders)
      requires previous.Some? ==> SessionVisits(orders, previous.value, session)
      modifies this
      ensures Abs() == AfterPush(old(Abs()), order, orders)
    {
      if deleted {
        Send(RemoveSession(id));
        return;
      }
      if previous.None? {
        SendCreate(order);
        return;
      }
      if !SessionEqual(previous.value, session) {
        if !SsmEqual(previous.value.ssm, session.ssm) {
          Recreate(previous.value.ssm.Some?, order);
          return;
        }
        if !TmgiEqual(previous.value.tmgi, session.tmgi) {
          Recreate(previous.value.tmgi.Some?, order);
          return;
        }
        var patches := BuildSessionPatches(previous.value, session, orders);
        Send(UpdateSession(id, patches));
      } else {
        assert sent + [] == sent;
      }
      SubscriptionsUpdate(order, orders);
    }

    method ReadCreateReply(r: Reply) returns (ok: bool)
      modifies this
      ensures ok == Accepted(old(session), r)
      ensures Abs() == ReadReply(old(Abs()), r)
    {
      if !r.location.Resource? {
        return false;
      }
      id := Some(r.location.id);
      if r.body.None? || r.body.value.None? {
        return false;
      }
      var reply := r.body.value.value;
      if session.tunnelReq {
        if reply.tunnels.None? {
          return false;
        }
        session := session.(udpTunnel := TunnelOf(reply.tunnels.value));
      }
      if session.tmgiReq {
        if reply.tmgi.None? || reply.expiry.None? || reply.expiry.value.BadTime? {
          return false;
        }
        session := session.(tmgi := Some(Tmgi(Some(reply.tmgi.value.0), reply.tmgi.value.1, reply.expiry.value.seconds)));
      }
      session := session.(ssm := SsmAfter(session.ssm, reply.ssm));
      previous := Some(PublicCopy(previous, session));
      return true;
    }

    method CreateResponse(status: int, r: Reply, order: seq<string>, orders: Orders)
      requires 200 <= status < 300 && Accepted(session, r) ==>
                 var after := ReadReply(Abs(), r); SessionVisits(orders, after.previous.value, after.session)
      modifies this
      ensures Abs() == AfterCreate(old(Abs()), status, r, order, orders)
    {
      if 200 <= status < 300 {
        var ok := ReadCreateReply(r);
        if ok {
          PushChanges(order, orders);
        }
      }
    }

    method PatchResponse(status: int)
      modifies this
      ensures Abs() == AfterPatch(old(Abs()), status)
    {
      if 200 <= status <= 299 {
        previous := Some(PublicCopy(previous, session));
      } else if status <= 199 || 300 <= status <= 399 {
      } else if status >= 400 {
        if previous.Some? {
          session := PublicCopy(Some(session), previous.value);
        }
      }
    }

    /** As the dispatcher is written: only the header is parsed, and the handler finds the status of an empty message. */
    method DispatchUpdateAnswer(status: int)
      modifies this
      ensures Abs() == old(Abs())
    {
      PatchResponse(UNPARSED);
    }
  }

  lemma {:induction false} UnlinkedAt(list: seq<SubId>, k: SubId, i: nat)
    requires i <= |list| && k !in list[..i] && (i < |list| ==> list[i] == k)
    ensures Unlinked(list, k) == if i < |list| then list[..i] + list[i + 1..] else list
    ensures k in list <==> i < |list|
  {
    NotBefore(list, k, i);
    NotBefore(list, k, IndexOf(list, k));
    assert list[..|list|] == list;
  }

  lemma NotBefore(list: seq<SubId>, k: SubId, i: nat)
    requires i <= |list| && k !in list[..i]
    ensures forall m :: 0 <= m < i ==> list[m] != k
  {
    forall m | 0 <= m < i
      ensures list[m] != k
    {
      assert list[m] == list[..i][m];
    }
  }
}
