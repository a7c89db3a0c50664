/**
 The public part of an MBS Session, the document the MB-SMF holds for it, and the patch list that an
 update sends.
 */
module SessionDiff {
  import opened Options
  import opened JsonDocument
  import opened JsonPatch
  import opened ObjectDiff
  import opened Structure
  import opened QosRequirements
  import opened MediaComponents
  import opened ServiceInfo
  import opened ServiceAreas

  datatype ServiceType = Broadcast | Multicast

  datatype ActivityStatus = Active | Inactive

  datatype AddressFamily = IPv4 | IPv6 | NoFamily

  datatype Ssm = Ssm(family: AddressFamily, source: nat, dest: nat)

  datatype Tmgi = Tmgi(serviceId: Option<string>, plmn: Plmn, expiry: int)

  datatype Snssai = Snssai(sst: nat, sd: nat)

  datatype AssociatedId = AssociatedId(ssm: Ssm, text: Option<string>)

  datatype Session = Session(
    serviceType: ServiceType,
    ssm: Option<Ssm>,
    tmgi: Option<Tmgi>,
    udpTunnel: Option<string>,
    tunnelReq: bool,
    tmgiReq: bool,
    locationDependent: bool,
    anyUeInd: bool,
    contactPcfInd: bool,
    areaSessionId: Option<nat>,
    serviceArea: Option<Area>,
    extServiceArea: Option<ExtArea>,
    dnn: Option<string>,
    snssai: Option<Snssai>,
    startTime: Option<int>,
    terminationTime: Option<int>,
    serviceInfo: Option<Info>,
    activityStatus: Option<ActivityStatus>,
    fsaIds: seq<nat>,
    associatedId: Option<AssociatedId>)

  // ---------- The document ----------

  function BoolDoc(b: bool): Json {
    Bool(b)
  }

  /** A flag that is sent only when it is set. */
  function FlagSlot(b: bool): Slot {
    if b then Some(Bool(true)) else None
  }

  function TimeDoc(t: int): Json {
    Number(t as real)
  }

  function SsmDoc(x: Ssm): Json {
    Object(map["family" := Str(match x.family case IPv4 => "ipv4Addr" case IPv6 => "ipv6Addr" case NoFamily => ""),
               "sourceIpAddr" := NatDoc(x.source), "destIpAddr" := NatDoc(x.dest)])
  }

  function SnssaiDoc(x: Snssai): Json {
    Object(map["sst" := NatDoc(x.sst), "sd" := HexDoc(x.sd, 6)])
  }

  function ActivityDoc(x: ActivityStatus): Json {
    Str(if x.Active? then "ACTIVE" else "INACTIVE")
  }

  const FIXED_NAMES := ["tmgiAllocReq", "ingressTunAddrReq", "locationDependent", "anyUeInd", "ssm", "dnn", "snssai",
                        "startTime", "terminationTime"]

  /** The attributes that an update never changes. */
  function FixedMembers(x: Session): map<string, Json> {
    Members(FIXED_NAMES,
      [FlagSlot(x.tmgiReq), FlagSlot(x.tunnelReq), FlagSlot(x.locationDependent), FlagSlot(x.anyUeInd),
       SlotOf(x.ssm, SsmDoc), SlotOf(x.dnn, TextDoc), SlotOf(x.snssai, SnssaiDoc),
       SlotOf(x.startTime, TimeDoc), SlotOf(x.terminationTime, TimeDoc)])
  }

  const UPDATABLE_NAMES := ["contactPcfInd", "mbsServiceArea", "extMbsServiceArea", "mbsServInfo", "mbsFsaIdList",
                            "activityStatus"]

  function UpdatableSlots(x: Session): (r: seq<Slot>)
    ensures |r| == |UPDATABLE_NAMES|
  {
    [Some(Bool(x.contactPcfInd)), AreaSlot(x.serviceArea), ExtSlot(x.extServiceArea), SlotOf(x.serviceInfo, InfoDoc),
     ListDiff.ListSlot(x.fsaIds, FsaIdDoc), SlotOf(x.activityStatus, ActivityDoc)]
  }

  function SessionDoc(x: Session): Json {
    Object(MembersOver(FixedMembers(x), UPDATABLE_NAMES, UpdatableSlots(x)))
  }

  // ---------- The patch list ----------

  ghost predicate SessionVisits(orders: Orders, a: Session, b: Session) {
    InfoVisits(orders, a.serviceInfo, b.serviceInfo)
  }

  function SessionDiffs(a: Session, b: Session, orders: Orders): (r: seq<seq<Patch>>)
    requires SessionVisits(orders, a, b)
    ensures |r| == |UPDATABLE_NAMES|
  {
    [MandatoryDiff(a.contactPcfInd, b.contactPcfInd, BoolDoc),
     AreaDiff(a.serviceArea, b.serviceArea),
     ExtDiff(a.extServiceArea, b.extServiceArea),
     InfoDiff(a.serviceInfo, b.serviceInfo, orders),
     if a.serviceType.Broadcast? then FsaIdsDiff(a.fsaIds, b.fsaIds) else [],
     if a.serviceType.Broadcast? then [] else OptionalDiff(a.activityStatus, b.activityStatus, ActivityDoc)]
  }

  function SessionPatches(a: Session, b: Session, orders: Orders): seq<Patch>
    requires SessionVisits(orders, a, b)
  {
    Assemble(EditsOf(UPDATABLE_NAMES, SessionDiffs(a, b, orders)))
  }

  lemma AssembleSix(names: seq<string>, ds: seq<seq<Patch>>)
    requires |names| == |ds| == 6
    ensures Assemble(EditsOf(names, ds)) ==
            Lift(ds[0], "/" + names[0]) + (Lift(ds[1], "/" + names[1]) + (Lift(ds[2], "/" + names[2]) +
            (Lift(ds[3], "/" + names[3]) + (Lift(ds[4], "/" + names[4]) + Lift(ds[5], "/" + names[5])))))
  {
    var es := EditsOf(names, ds);
    forall i | 0 <= i < 6
      ensures Assemble(es[i..]) == Lift(ds[i], "/" + names[i]) + Assemble(es[i + 1..])
    {
      assert es[i..][1..] == es[i + 1..];
    }
    assert es[0..] == es && es[6..] == [];
    assert Assemble(es[5..]) == Lift(ds[5], "/" + names[5]);
  }

  lemma AssembleSixInOrder(names: seq<string>, ds: seq<seq<Patch>>)
    requires |names| == |ds| == 6
    ensures Assemble(EditsOf(names, ds)) ==
            Lift(ds[0], "/" + names[0]) + Lift(ds[1], "/" + names[1]) + Lift(ds[2], "/" + names[2]) +
            Lift(ds[3], "/" + names[3]) + Lift(ds[4], "/" + names[4]) + Lift(ds[5], "/" + names[5])
  {
    AssembleSix(names, ds);
    Concatenate(Lift(ds[0], "/" + names[0]), Lift(ds[1], "/" + names[1]), Lift(ds[2], "/" + names[2]),
                Lift(ds[3], "/" + names[3]), Lift(ds[4], "/" + names[4]), Lift(ds[5], "/" + names[5]));
  }

  lemma Concatenate(a: seq<Patch>, b: seq<Patch>, c: seq<Patch>, d: seq<Patch>, e: seq<Patch>, f: seq<Patch>)
    ensures a + b + c + d + e + f == a + (b + (c + (d + (e + f))))
  {
  }

  /** Appends the child diff of one attribute after another to the patch list. */
  method BuildSessionPatches(a: Session, b: Session, orders: Orders) returns (patches: seq<Patch>)
    requires SessionVisits(orders, a, b)
    ensures patches == SessionPatches(a, b, orders)
  {
    patches := BuildUnderNames(UPDATABLE_NAMES, a, b, orders);
  }

  method BuildUnderNames(names: seq<string>, a: Session, b: Session, orders: Orders) returns (patches: seq<Patch>)
    requires |names| == 6 && SessionVisits(orders, a, b)
    ensures patches == Assemble(EditsOf(names, SessionDiffs(a, b, orders)))
  {
    ghost var ds := SessionDiffs(a, b, orders);
    patches := AppendLifted([], MandatoryDiff(a.contactPcfInd, b.contactPcfInd, BoolDoc), "/" + names[0]);
    assert patches == Lift(ds[0], "/" + names[0]);
    patches := AppendLifted(patches, AreaDiff(a.serviceArea, b.serviceArea), "/" + names[1]);
    patches := AppendLifted(patches, ExtDiff(a.extServiceArea, b.extServiceArea), "/" + names[2]);
    patches := AppendLifted(patches, InfoDiff(a.serviceInfo, b.serviceInfo, orders), "/" + names[3]);
    patches := AppendByServiceType(patches, a, b, names[4], names[5]);
    AssembleSixInOrder(names, ds);
  }

  /** The attribute that only a broadcast session, or only a multicast session, may change. */
  method AppendByServiceType(before: seq<Patch>, a: Session, b: Session, fsaName: string, activityName: string)
    returns (patches: seq<Patch>)
    ensures patches == before
                       + Lift(if a.serviceType.Broadcast? then FsaIdsDiff(a.fsaIds, b.fsaIds) else [], "/" + fsaName)
                       + Lift(if a.serviceType.Broadcast? then []
                              else OptionalDiff(a.activityStatus, b.activityStatus, ActivityDoc), "/" + activityName)
  {
    if a.serviceType.Broadcast? {
      patches := AppendLifted(before, FsaIdsDiff(a.fsaIds, b.fsaIds), "/" + fsaName);
      assert patches + [] == patches;
    } else {
      patches := AppendLifted(before, OptionalDiff(a.activityStatus, b.activityStatus, ActivityDoc), "/" + activityName);
      assert before + [] == before;
    }
  }

  // ---------- What the update achieves ----------

  /** Session a with the attributes of b that an update of a session of a's service type may change. */
  function Updated(a: Session, b: Session): Session {
    a.(contactPcfInd := b.contactPcfInd,
       serviceArea := b.serviceArea,
       extServiceArea := b.extServiceArea,
       serviceInfo := b.serviceInfo,
       fsaIds := if a.serviceType.Broadcast? then b.fsaIds else a.fsaIds,
       activityStatus := if a.serviceType.Broadcast? then a.activityStatus else b.activityStatus)
  }

  /** The condition on the two sessions, attribute by attribute, under which an update is exact. */
  predicate SessionExact(a: Session, b: Session) {
    && AreaExact(a.serviceArea, b.serviceArea)
    && ExtExact(a.extServiceArea, b.extServiceArea)
    && InfoExact(a.serviceInfo, b.serviceInfo)
  }

  lemma UpdatableNamesPlain()
    ensures forall i :: 0 <= i < |UPDATABLE_NAMES| ==> Plain(UPDATABLE_NAMES[i]) && UPDATABLE_NAMES[i] != ""
  {
  }

  lemma UpdatableNamesDistinct()
    ensures forall i, j :: 0 <= i < j < |UPDATABLE_NAMES| ==> UPDATABLE_NAMES[i] != UPDATABLE_NAMES[j]
  {
    var n := UPDATABLE_NAMES;
    assert |n[0]| == 13 && |n[1]| == 14 && |n[2]| == 17 && |n[3]| == 11 && |n[4]| == 12 && |n[5]| == 14;
    assert n[1][0] == 'm' && n[5][0] == 'a';
  }

  lemma UpdatableNames()
    ensures GoodNames(UPDATABLE_NAMES)
  {
    UpdatableNamesPlain();
    UpdatableNamesDistinct();
  }

  /** The attributes whose diff is always exact. */
  lemma SimpleAttributes(a: Session, b: Session, orders: Orders)
    requires SessionVisits(orders, a, b)
    ensures var x, ds, y := UpdatableSlots(a), SessionDiffs(a, b, orders), UpdatableSlots(Updated(a, b));
      && ExactAt(x, ds, y, 0) && ExactAt(x, ds, y, 4) && ExactAt(x, ds, y, 5)
      && Relative(ds[0]) && Relative(ds[4]) && Relative(ds[5])
  {
    MandatoryDiffApplies(a.contactPcfInd, b.contactPcfInd, BoolDoc);
    ListDiff.PlainDiffApplies(a.fsaIds, b.fsaIds, SameFsaId, FsaIdDoc, ListDiff.AtPosition);
    OptionalDiffApplies(a.activityStatus, b.activityStatus, ActivityDoc);
  }

  lemma SlotsAt(x: Session)
    ensures UpdatableSlots(x)[1] == AreaSlot(x.serviceArea)
    ensures UpdatableSlots(x)[2] == ExtSlot(x.extServiceArea)
    ensures UpdatableSlots(x)[3] == SlotOf(x.serviceInfo, InfoDoc)
  {
  }

  lemma DiffsAt(a: Session, b: Session, orders: Orders)
    requires SessionVisits(orders, a, b)
    ensures SessionDiffs(a, b, orders)[1] == AreaDiff(a.serviceArea, b.serviceArea)
    ensures SessionDiffs(a, b, orders)[2] == ExtDiff(a.extServiceArea, b.extServiceArea)
    ensures SessionDiffs(a, b, orders)[3] == InfoDiff(a.serviceInfo, b.serviceInfo, orders)
  {
  }

  /** The structured attributes, each with its own condition. */
  lemma StructuredAttributes(a: Session, b: Session, orders: Orders)
    requires SessionVisits(orders, a, b)
    ensures var x, ds, y := UpdatableSlots(a), SessionDiffs(a, b, orders), UpdatableSlots(Updated(a, b));
      && (ExactAt(x, ds, y, 1) <==> AreaExact(a.serviceArea, b.serviceArea))
      && (ExactAt(x, ds, y, 2) <==> ExtExact(a.extServiceArea, b.extServiceArea))
      && (ExactAt(x, ds, y, 3) <==> InfoExact(a.serviceInfo, b.serviceInfo))
      && Relative(ds[1]) && Relative(ds[2]) && Relative(ds[3])
  {
    SlotsAt(a);
    SlotsAt(Updated(a, b));
    DiffsAt(a, b, orders);
    AreaDiffApplies(a.serviceArea, b.serviceArea);
    ExtDiffApplies(a.extServiceArea, b.extServiceArea);
    InfoDiffApplies(a.serviceInfo, b.serviceInfo, orders);
  }

  lemma SessionAttributes(a: Session, b: Session, orders: Orders)
    requires SessionVisits(orders, a, b)
    ensures AllRelative(SessionDiffs(a, b, orders))
    ensures AllExact(UpdatableSlots(a), SessionDiffs(a, b, orders), UpdatableSlots(Updated(a, b))) <==> SessionExact(a, b)
  {
    SimpleAttributes(a, b, orders);
    StructuredAttributes(a, b, orders);
  }

  /**
   The update is exact: applied in order to the document of the previous session, the patch list meets
   no error and leaves the document in which every updatable attribute has its current value and every
   other one is as before, if and only if the condition on the two sessions holds.
   */
  lemma SessionPatchesApply(a: Session, b: Session, orders: Orders)
    requires SessionVisits(orders, a, b)
    ensures ApplyAll(SessionDoc(a), SessionPatches(a, b, orders)) == Some(SessionDoc(Updated(a, b))) <==> SessionExact(a, b)
  {
    SessionAttributes(a, b, orders);
    UpdatableNames();
    UpdatedKeepsFixed(a, b);
    SmallStructureReaches(FixedMembers(a), UPDATABLE_NAMES, UpdatableSlots(a), UpdatableSlots(Updated(a, b)),
                          SessionDiffs(a, b, orders));
    SlotIsDocument(SessionDoc(a), SessionPatches(a, b, orders));
  }

  lemma UpdatedKeepsFixed(a: Session, b: Session)
    ensures FixedMembers(Updated(a, b)) == FixedMembers(a)
  {
  }

  lemma SessionEditsWellFormed(a: Session, b: Session, orders: Orders)
    requires SessionVisits(orders, a, b)
    ensures WellFormed(EditsOf(UPDATABLE_NAMES, SessionDiffs(a, b, orders)))
  {
    var ds := SessionDiffs(a, b, orders);
    SessionAttributes(a, b, orders);
    UpdatableNames();
    forall i | 0 <= i < |ds| ensures Relative(ds[i]) {
      assert i == 0 || i == 1 || i == 2 || i == 3 || i == 4 || i == 5;
    }
    EditsOfWellFormed(UPDATABLE_NAMES, ds);
  }

  /** Exact or not, a patch list that is accepted leaves every other attribute alone. */
  lemma SessionPatchesKeepOthers(a: Session, b: Session, orders: Orders, key: string)
    requires SessionVisits(orders, a, b)
    requires key !in UPDATABLE_NAMES
    ensures var r := ApplyAll(SessionDoc(a), SessionPatches(a, b, orders));
      r.Some? ==> r.value.Object? && Member(r.value.members, key) == Member(FixedMembers(a), key)
  {
    SessionEditsWellFormed(a, b, orders);
    NotEdited(UPDATABLE_NAMES, SessionDiffs(a, b, orders), key);
    AssembleKeepsOthers(SessionDoc(a).members, EditsOf(UPDATABLE_NAMES, SessionDiffs(a, b, orders)), key);
    MembersElsewhere(FixedMembers(a), UPDATABLE_NAMES, UpdatableSlots(a), key);
  }

  lemma NotEdited(names: seq<string>, diffs: seq<seq<Patch>>, key: string)
    requires |names| == |diffs| && key !in names
    ensures !Edits(key, EditsOf(names, diffs))
    ensures forall i :: 0 <= i < |names| ==> names[i] != key
  {
    assert forall i :: 0 <= i < |names| ==> names[i] in names;
  }

  /** No path that is sent is a bare "/", and every path is a pointer. */
  lemma SessionPathsAreReal(a: Session, b: Session, orders: Orders)
    requires SessionVisits(orders, a, b)
    ensures forall p :: p in SessionPatches(a, b, orders) ==> p.path != WHOLE && ParsePointer(p.path).Some?
  {
    SessionEditsWellFormed(a, b, orders);
    AssembleRelative(EditsOf(UPDATABLE_NAMES, SessionDiffs(a, b, orders)));
  }

  // ---------- Updates that go wrong ----------

  const PLAIN_COMP := MediaComp(1, None, 0, None, None, None)
  const NO_CODEC := PLAIN_COMP.(mediaInfo := Some(MediaInfo(Some(Audio), None, None, None, None)))
  const ONE_CODEC := PLAIN_COMP.(mediaInfo := Some(MediaInfo(Some(Audio), None, None, Some("EVS"), None)))
  const GOLD := PLAIN_COMP.(qosRef := Some("gold"))
  const SILVER := PLAIN_COMP.(qosRef := Some("silver"))

  /** A component's first codec is appended to an array that is not there. */
  lemma FirstCodecMisses()
    ensures ApplyAllToSlot(Some(CompDoc(NO_CODEC)), CompDiff(NO_CODEC, ONE_CODEC)) != Some(Some(CompDoc(ONE_CODEC)))
  {
    assert Codecs(NO_CODEC.mediaInfo.value) == [] && Codecs(ONE_CODEC.mediaInfo.value) == ["EVS"];
    CompDiffApplies(NO_CODEC, ONE_CODEC);
  }

  /** A changed QoS reference is not sent. */
  lemma ChangedQosRefMisses()
    ensures ApplyAllToSlot(Some(CompDoc(GOLD)), CompDiff(GOLD, SILVER)) != Some(Some(CompDoc(SILVER)))
  {
    assert |"gold"| != |"silver"|;
    CompDiffApplies(GOLD, SILVER);
  }

  const GOLD_MEDIA := GOLD.(mediaInfo := Some(MediaInfo(Some(Audio), None, None, None, None)))

  /** Media information given to a component with a QoS reference is sent, but the reference stays beside it. */
  lemma ChangedAlternativeMisses()
    ensures ApplyAllToSlot(Some(CompDoc(GOLD)), CompDiff(GOLD, GOLD_MEDIA)) != Some(Some(CompDoc(GOLD_MEDIA)))
  {
    assert GOLD.qosRef == GOLD_MEDIA.qosRef == Some("gold");
    assert !QosRefExact(GOLD, GOLD_MEDIA);
    CompDiffApplies(GOLD, GOLD_MEDIA);
  }

  const HOME_TAI := Tai(Plmn(1, 1), 7, None)
  const NO_AREA_LISTED := Some(Area([], []))
  const ONE_CELL := Some(Area([NcgiTai(HOME_TAI, [Ncgi(Plmn(1, 1), 5, None)])], []))
  const OTHER_CELL := Some(Area([NcgiTai(HOME_TAI, [Ncgi(Plmn(1, 1), 6, None)])], []))

  /** A changed cell list of an unchanged tracking area is not sent. */
  lemma ChangedCellMisses()
    ensures ApplyAllToSlot(AreaSlot(ONE_CELL), AreaDiff(ONE_CELL, OTHER_CELL)) != Some(AreaSlot(OTHER_CELL))
  {
    var x, y := ONE_CELL.value.ncgiTais, OTHER_CELL.value.ncgiTais;
    assert x[0].tai == y[0].tai && x[0].cells[0] != y[0].cells[0];
    assert !NcgiTaisExact(x, y);
    AreaDiffApplies(ONE_CELL, OTHER_CELL);
  }

  /** The first entry of an area that was set but empty is patched into an area that was never sent. */
  lemma FirstAreaEntryMisses()
    ensures ApplyAllToSlot(AreaSlot(NO_AREA_LISTED), AreaDiff(NO_AREA_LISTED, ONE_CELL)) != Some(AreaSlot(ONE_CELL))
  {
    assert Hollow(NO_AREA_LISTED) && !Hollow(ONE_CELL);
    AreaDiffApplies(NO_AREA_LISTED, ONE_CELL);
  }
}
