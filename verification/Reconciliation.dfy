/**
 What the reconciler of one session achieves: when a push has nothing more to send about the session, when it sends
 an update or a removal, and when the accepted copy stands for the document at the MB-SMF.
 */
module Reconciliation {
  import opened Options
  import opened JsonDocument
  import opened JsonPatch
  import opened ObjectDiff
  import opened Structure
  import opened ListDiff
  import opened QosRequirements
  import opened MediaComponents
  import opened ServiceInfo
  import opened ServiceAreas
  import opened SessionDiff
  import opened SessionCopy
  import opened Subscriptions
  import opened Reconciler

  // ---------- Nothing more to send ----------

  lemma EqualBothWays(a: Session, b: Session)
    ensures SessionEqual(a, b) <==> SessionEqual(b, a)
  {
    if SessionEqual(a, b) {
      ComparesBothWays(a, b);
    }
    if SessionEqual(b, a) {
      ComparesBothWays(b, a);
    }
  }

  /** Nothing is sent about the session if and only if it lives and compares equal to the accepted one. */
  lemma QuietPush(l: Local, order: seq<string>, orders: Orders)
    ensures SessionRequests(l, order, orders) == [] <==>
            !l.subs.deleted && l.previous.Some? && SessionEqual(l.previous.value, l.session)
  {
  }

  /** After a success, a push sends nothing about the session if and only if the session copies well over the old copy. */
  lemma SettlesAfterAccept(l: Local, status: int, order: seq<string>, orders: Orders)
    requires !l.subs.deleted && 200 <= status <= 299
    ensures SessionRequests(AfterPatch(l, status), order, orders) == [] <==> CopiesWell(l.previous, l.session)
  {
    QuietPush(AfterPatch(l, status), order, orders);
    CopyEquals(l.previous, l.session);
  }

  /** After an error, a push sends nothing about the session if and only if the accepted one copies well over the session. */
  lemma SettlesAfterReject(l: Local, status: int, order: seq<string>, orders: Orders)
    requires !l.subs.deleted && status >= 400 && l.previous.Some?
    ensures SessionRequests(AfterPatch(l, status), order, orders) == [] <==> CopiesWell(Some(l.session), l.previous.value)
  {
    QuietPush(AfterPatch(l, status), order, orders);
    CopyEquals(Some(l.session), l.previous.value);
    EqualBothWays(AfterPatch(l, status).session, l.previous.value);
  }

  /** Any other status changes nothing at all. */
  lemma OtherStatusKeeps(l: Local, status: int)
    ensures status < 200 || 300 <= status < 400 ==> AfterPatch(l, status) == l
  {
  }

  predicate BothAddresses(r: ReplySession) {
    r.ssm.Some? && r.ssm.value.source.Some? && r.ssm.value.dest.Some?
  }

  predicate NoFamilyAnswer(r: ReplySession) {
    BothAddresses(r) &&
    var s, d := r.ssm.value.source.value, r.ssm.value.dest.value;
    (s.ipv4.None? || d.ipv4.None?) && (s.ipv6.None? || d.ipv6.None?)
  }

  /** The address that the session has, or is answered, has a family. */
  predicate SettledAddress(x: Session, r: ReplySession) {
    if NoFamilyAnswer(r) then x.ssm.Some? && !x.ssm.value.family.NoFamily?
    else BothAddresses(r) || (x.ssm.Some? ==> !x.ssm.value.family.NoFamily?)
  }

  /** The attributes outside the document, and the address, are what a reply changes. */
  lemma RepliedIs(x: Session, r: ReplySession)
    requires !LacksTunnel(x, r) && !LacksTmgi(x, r)
    ensures var y := WithReply(x, r); y == x.(udpTunnel := y.udpTunnel, tmgi := y.tmgi, ssm := SsmAfter(x.ssm, r.ssm))
  {
  }

  lemma ReplyCopiesWell(p: Option<Session>, x: Session, r: ReplySession)
    requires !LacksTunnel(x, r) && !LacksTmgi(x, r)
    ensures CopiesWell(p, WithReply(x, r)) <==>
            && x.terminationTime == (if p.Some? then p.value.terminationTime else None)
            && (x.associatedId.Some? ==> !x.associatedId.value.ssm.family.NoFamily?)
            && SettledAddress(x, r)
            && (p.Some? ==> KeepsHash(p.value.serviceInfo, x.serviceInfo))
  {
    RepliedIs(x, r);
    var ssm := SsmAfter(x.ssm, r.ssm);
    assert SettledAddress(x, r) <==> (ssm.Some? ==> !ssm.value.family.NoFamily?);
  }

  /**
   The push right after an accepted creation, a first one or one after a re-creation, sends nothing about the session if
   and only if the termination time is that of the old copy, or none if there was no copy; the addresses have a
   family; and an old copy with a hash of components is not followed by a session without one.
   */
  lemma SettlesAfterCreate(l: Local, r: Reply, order: seq<string>, orders: Orders)
    requires !l.subs.deleted && Accepted(l.session, r)
    ensures SessionRequests(ReadReply(l, r), order, orders) == [] <==>
            var x, reply, p := l.session, r.body.value.value, l.previous;
            && x.terminationTime == (if p.Some? then p.value.terminationTime else None)
            && (x.associatedId.Some? ==> !x.associatedId.value.ssm.family.NoFamily?)
            && SettledAddress(x, reply)
            && (p.Some? ==> KeepsHash(p.value.serviceInfo, x.serviceInfo))
  {
    var y := WithReply(l.session, r.body.value.value);
    AcceptedReply(l, r);
    QuietPush(ReadReply(l, r), order, orders);
    CopyEquals(l.previous, y);
    ReplyCopiesWell(l.previous, l.session, r.body.value.value);
  }

  lemma AcceptedReply(l: Local, r: Reply)
    requires Accepted(l.session, r)
    ensures var y := WithReply(l.session, r.body.value.value);
      ReadReply(l, r) == l.(id := Some(r.location.id), session := y, previous := Some(PublicCopy(l.previous, y)))
  {
  }

  /** An answered address of unknown family makes the push remove and create the session again, each time. */
  lemma UnknownFamilyRecreates(l: Local, r: Reply, order: seq<string>, orders: Orders)
    requires !l.subs.deleted && Accepted(l.session, r)
    requires l.session.ssm.None? && NoFamilyAnswer(r.body.value.value)
    ensures var after := ReadReply(l, r);
      SessionRequests(after, order, orders) == [RemoveSession(Some(r.location.id)), Creation(after, order)]
  {
    AcceptedReply(l, r);
    RepliedIs(l.session, r.body.value.value);
    DifferentAddress(ReadReply(l, r), order, orders);
  }

  lemma DifferentAddress(l: Local, order: seq<string>, orders: Orders)
    requires !l.subs.deleted && l.previous.Some? && l.previous.value.ssm.Some?
    requires !SsmEqual(l.previous.value.ssm, l.session.ssm)
    ensures SessionRequests(l, order, orders) == [RemoveSession(l.id), Creation(l, order)]
  {
  }

  /** Until a response comes, every further push sends the same about the session again. */
  lemma PushRepeats(l: Local, order: seq<string>, orders: Orders)
    ensures SessionRequests(AfterPush(l, order, orders), order, orders) == SessionRequests(l, order, orders)
    ensures AfterPush(l, order, orders).session == l.session && AfterPush(l, order, orders).previous == l.previous
  {
    var l' := AfterPush(l, order, orders);
    PushKeeps(l, order, orders);
    SameRequests(l, l', order, orders);
  }

  lemma PushKeeps(l: Local, order: seq<string>, orders: Orders)
    ensures var l' := AfterPush(l, order, orders);
      && l'.id == l.id && l'.session == l.session && l'.previous == l.previous && l'.subs.deleted == l.subs.deleted
      && (!PushesSubs(l) ==> Creation(l', order) == Creation(l, order))
  {
  }

  lemma SameRequests(l: Local, l': Local, order: seq<string>, orders: Orders)
    requires l'.id == l.id && l'.session == l.session && l'.previous == l.previous && l'.subs.deleted == l.subs.deleted
    requires !PushesSubs(l) ==> Creation(l', order) == Creation(l, order)
    ensures SessionRequests(l', order, orders) == SessionRequests(l, order, orders)
  {
  }

  // ---------- Which requests are sent ----------

  /** An update is sent if and only if the session differs, but in neither address nor TMGI. */
  lemma UpdateIsSent(l: Local, order: seq<string>, orders: Orders)
    requires !l.subs.deleted && l.previous.Some?
    ensures var p, x := l.previous.value, l.session;
      SessionRequests(l, order, orders) == [UpdateSession(l.id, Patches(p, x, orders))] <==>
      !SessionEqual(p, x) && SsmEqual(p.ssm, x.ssm) && TmgiEqual(p.tmgi, x.tmgi)
  {
    var rs := SessionRequests(l, order, orders);
    assert |rs| > 0 ==> rs[|rs| - 1].CreateSession? || rs[|rs| - 1].UpdateSession?;
  }

  /** The push removes the session: it is deleted, or its accepted address, or else its accepted TMGI, has changed. */
  predicate Removes(l: Local) {
    || l.subs.deleted
    || (l.previous.Some? &&
        var p, x := l.previous.value, l.session;
        if !SsmEqual(p.ssm, x.ssm) then p.ssm.Some? else !TmgiEqual(p.tmgi, x.tmgi) && p.tmgi.Some?)
  }

  /** A removal is sent if and only if that is so, and then it is the first request. */
  lemma RemovalIsSent(l: Local, order: seq<string>, orders: Orders)
    ensures var rs := SessionRequests(l, order, orders);
      && ((exists r :: r in rs && r.RemoveSession?) <==> Removes(l))
      && (Removes(l) <==> rs != [] && rs[0] == RemoveSession(l.id))
  {
    var rs := SessionRequests(l, order, orders);
    if Removes(l) {
      assert rs[0] == RemoveSession(l.id);
    } else {
      assert forall r :: r in rs ==> r.CreateSession? || r.UpdateSession?;
    }
  }

  // ---------- An update and the document at the MB-SMF ----------

  /** No attribute differs that an update cannot change, for a session of the service type of prev. */
  predicate OnlyUpdatable(prev: Session, x: Session) {
    SameFixed(prev, x) && if prev.serviceType.Broadcast? then x.activityStatus == prev.activityStatus else x.fsaIds == prev.fsaIds
  }

  /** An edit of attributes that an update can change exactly. */
  predicate Exact(prev: Session, x: Session) {
    OnlyUpdatable(prev, x) && SessionExact(prev, x) && NoCells(x.serviceArea)
  }

  lemma UpdatedIsNew(prev: Session, x: Session)
    requires OnlyUpdatable(prev, x)
    ensures SessionDoc(Updated(prev, x)) == SessionDoc(x)
  {
    SameDocs(Updated(prev, x), x);
  }

  /**
   One update that is accepted, while the application may have gone on editing: the document at the MB-SMF is the
   one that was sent, and the new accepted copy stands for it if and only if the later session does.
   */
  lemma AcceptedUpdate(prev: Session, x: Session, later: Session, orders: Orders)
    requires SessionVisits(orders, prev, x) && SessionExact(prev, x) && OnlyUpdatable(prev, x)
    requires NoCells(later.serviceArea) && later.terminationTime == prev.terminationTime
    ensures var remote := ApplyAll(SessionDoc(prev), SessionPatches(prev, x, orders));
      && remote == Some(SessionDoc(x))
      && (remote == Some(SessionDoc(PublicCopy(Some(prev), later))) <==> SessionDoc(later) == SessionDoc(x))
  {
    SessionPatchesApply(prev, x, orders);
    UpdatedIsNew(prev, x);
    CopyKeepsDocument(Some(prev), later);
  }

  lemma NoCellsInCopy(dst: Option<Session>, x: Session)
    ensures NoCells(PublicCopy(dst, x).serviceArea)
  {
  }

  lemma CopiedCompExact(x: MediaComp)
    ensures CompExact(CopyComp(x), x)
  {
  }

  lemma CopiedCompsExact(m: Comps)
    ensures CompsExact(CopyComps(m), m)
  {
    forall k | k in CopyComps(m) && k in m
      ensures CompExact(CopyComps(m)[k], m[k])
    {
      CopiedCompExact(m[k]);
    }
  }

  /** An update that only repeats what was copied is exact. */
  lemma CopyIsExact(dst: Option<Session>, x: Session)
    requires NoCells(x.serviceArea) && x.terminationTime == (if dst.Some? then dst.value.terminationTime else None)
    ensures Exact(PublicCopy(dst, x), x)
  {
    if x.serviceInfo.Some? {
      CopiedCompsExact(CompsOf(x.serviceInfo.value));
      var c := CopyInfo(if dst.Some? then dst.value.serviceInfo else None, x.serviceInfo).value;
      assert CompsOf(c) == CopyComps(CompsOf(x.serviceInfo.value));
    }
  }

  ghost predicate IsUpdateOf(p: Session, x: Session, patches: seq<Patch>) {
    exists orders: Orders :: SessionVisits(orders, p, x) && patches == SessionPatches(p, x, orders)
  }

  // ---------- A creation and the document at the MB-SMF ----------

  lemma SsmDocInjective(a: Ssm, b: Ssm)
    requires SsmDoc(a) == SsmDoc(b)
    ensures a == b
  {
    var x, y := SsmDoc(a).members, SsmDoc(b).members;
    assert x["family"] == y["family"] && x["sourceIpAddr"] == y["sourceIpAddr"] && x["destIpAddr"] == y["destIpAddr"];
    assert "ipv4Addr"[3] != "ipv6Addr"[3];
  }

  lemma SsmOf(x: Session)
    ensures Member(FixedMembers(x), "ssm") == SlotOf(x.ssm, SsmDoc)
  {
    var slots := [FlagSlot(x.tmgiReq), FlagSlot(x.tunnelReq), FlagSlot(x.locationDependent), FlagSlot(x.anyUeInd),
       SlotOf(x.ssm, SsmDoc), SlotOf(x.dnn, TextDoc), SlotOf(x.snssai, SnssaiDoc),
       SlotOf(x.startTime, TimeDoc), SlotOf(x.terminationTime, TimeDoc)];
    assert FIXED_NAMES[4] == "ssm" && |"ssm"| == 3;
    MembersAt(map[], FIXED_NAMES, slots, 4);
  }

  lemma SsmOfDoc(x: Session)
    ensures Member(SessionDoc(x).members, "ssm") == SlotOf(x.ssm, SsmDoc)
  {
    assert |"ssm"| == 3;
    MembersElsewhere(FixedMembers(x), UPDATABLE_NAMES, UpdatableSlots(x), "ssm");
    SsmOf(x);
  }

  lemma PcfIndOfDoc(x: Session)
    ensures Member(SessionDoc(x).members, UPDATABLE_NAMES[0]) == Some(Bool(x.contactPcfInd))
  {
    UpdatableNames();
    MembersAt(FixedMembers(x), UPDATABLE_NAMES, UpdatableSlots(x), 0);
  }

  lemma SsmSlotInjective(a: Option<Ssm>, b: Option<Ssm>)
    requires SlotOf(a, SsmDoc) == SlotOf(b, SsmDoc)
    ensures a == b
  {
    if a.Some? {
      SsmDocInjective(a.value, b.value);
    }
  }

  /** What a document tells of the session that it stands for. */
  lemma DocumentTells(a: Session, b: Session)
    requires SessionDoc(a) == SessionDoc(b)
    ensures a.terminationTime == b.terminationTime && a.ssm == b.ssm && a.contactPcfInd == b.contactPcfInd
  {
    SameTermination(a, b);
    SsmOfDoc(a);
    SsmOfDoc(b);
    SsmSlotInjective(a.ssm, b.ssm);
    PcfIndOfDoc(a);
    PcfIndOfDoc(b);
  }

  lemma SameExceptArea(c: Session, x: Session)
    requires SameFixed(c, x) && SameSimple(c, x) && ExtSlot(c.extServiceArea) == ExtSlot(x.extServiceArea)
    requires SlotOf(c.serviceInfo, InfoDoc) == SlotOf(x.serviceInfo, InfoDoc)
    requires AreaSlot(c.serviceArea) == AreaSlot(x.serviceArea) <==> NoCells(x.serviceArea)
    ensures SessionDoc(c) == SessionDoc(x) <==> NoCells(x.serviceArea)
  {
    SameDocs(c, x);
  }

  lemma CopyOfCreated(p: Option<Session>, x: Session, tunnel: Option<string>, tmgi: Option<Tmgi>, ssm: Option<Ssm>)
    ensures var c := PublicCopy(p, x.(udpTunnel := tunnel, tmgi := tmgi, ssm := ssm));
      SessionDoc(c) == CreationDoc(x) <==>
      && x.terminationTime == (if p.Some? then p.value.terminationTime else None)
      && NoCells(x.serviceArea) && !x.contactPcfInd && ssm == x.ssm
  {
    var c, sent := PublicCopy(p, x.(udpTunnel := tunnel, tmgi := tmgi, ssm := ssm)), x.(contactPcfInd := false);
    if c.terminationTime == x.terminationTime && c.ssm == x.ssm && !c.contactPcfInd {
      CopiedAreaSlot(x.serviceArea);
      CopiedInfoEqual(if p.Some? then p.value.serviceInfo else None, x.serviceInfo);
      SameExceptArea(c, sent);
    } else if SessionDoc(c) == SessionDoc(sent) {
      DocumentTells(c, sent);
    }
  }

  /**
   After an accepted creation, a first one or one after a re-creation, the accepted copy stands for the document that was
   created if and only if the termination time is that of the old copy, or none if there was no copy; no cell is listed;
   the PCF indication is not set; and the answered address, if any, is the one that was sent.
   */
  lemma CreationSyncs(l: Local, r: Reply)
    requires Accepted(l.session, r)
    ensures SessionDoc(ReadReply(l, r).previous.value) == CreationDoc(l.session) <==>
            && l.session.terminationTime == (if l.previous.Some? then l.previous.value.terminationTime else None)
            && NoCells(l.session.serviceArea) && !l.session.contactPcfInd
            && SsmAfter(l.session.ssm, r.body.value.value.ssm) == l.session.ssm
  {
    var reply := r.body.value.value;
    var y := WithReply(l.session, reply);
    AcceptedReply(l, r);
    RepliedIs(l.session, reply);
    CopyOfCreated(l.previous, l.session, y.udpTunnel, y.tmgi, y.ssm);
  }

  /** The session is one whose creation makes the document that the copy of it will stand for. */
  predicate CreatesExactly(l: Local) {
    && NoCells(l.session.serviceArea) && !l.session.contactPcfInd
    && l.session.terminationTime == (if l.previous.Some? then l.previous.value.terminationTime else None)
  }

  /** The reply to a creation keeps the address; one that is of no use comes only while nothing has been accepted. */
  predicate GoodReply(l: Local, r: Reply) {
    if Accepted(l.session, r) then SsmAfter(l.session.ssm, r.body.value.value.ssm) == l.session.ssm
    else r.location.Resource? ==> l.previous.None?
  }

  /** An unusable reply to a re-creation leaves the old copy under the id of the new document. */
  lemma UnusableReplyMisnames(l: Local, r: Reply, order: seq<string>, orders: Orders)
    requires !Accepted(l.session, r) && r.location.Resource?
    ensures ReadReply(l, r).id == Some(r.location.id) && ReadReply(l, r).previous == l.previous
    ensures forall q :: q in SessionRequests(ReadReply(l, r), order, orders) && !q.CreateSession? ==>
              (q.UpdateSession? || q.RemoveSession?) && q.session == Some(r.location.id)
  {
  }
}
