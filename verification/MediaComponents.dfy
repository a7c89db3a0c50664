/** Media components: media information, flow descriptions, and the three alternative QoS attributes. */
module MediaComponents {
  import opened Options
  import opened JsonDocument
  import opened JsonPatch
  import opened ObjectDiff
  import opened Structure
  import opened ListDiff
  import opened QosRequirements
  import Sequences
  import Text

  datatype MediaType = Audio | Video | Data | Application | Control | TextMedia | Message | Other

  datatype MediaInfo = MediaInfo(
    mediaType: Option<MediaType>,
    maxBandwidth: Option<nat>,
    minBandwidth: Option<nat>,
    codec0: Option<string>,
    codec1: Option<string>)

  /** A component keyed by its id; a reserve priority of 0 means none. */
  datatype MediaComp = MediaComp(
    id: int,
    flows: Option<seq<string>>,
    reservePriority: nat,
    mediaInfo: Option<MediaInfo>,
    qosRef: Option<string>,
    qosReq: Option<QosReq>)

  function MediaTypeDoc(t: MediaType): Json {
    Str(match t
        case Audio => "AUDIO" case Video => "VIDEO" case Data => "DATA" case Application => "APPLICATION"
        case Control => "CONTROL" case TextMedia => "TEXT" case Message => "MESSAGE" case Other => "OTHER")
  }

  // ---------- Codecs ----------

  /** The codecs that are set, in slot order. */
  function Codecs(x: MediaInfo): (r: seq<string>)
    ensures |r| <= 2
  {
    (if x.codec0.Some? then [x.codec0.value] else []) + (if x.codec1.Some? then [x.codec1.value] else [])
  }

  /** Codec i of the two, where a codec alone in the second slot counts as the first. */
  function Codec(x: MediaInfo, i: nat): Option<string> {
    if i < |Codecs(x)| then Some(Codecs(x)[i]) else None
  }

  function FirstCodecDiff(a: Option<string>, b: Option<string>): seq<Patch> {
    if a == b then []
    else if a.None? then [Add("/-", TextDoc(b.value))]
    else if b.None? then [Remove(WHOLE)]
    else [Replace("/0", TextDoc(b.value))]
  }

  function SecondCodecDiff(a: Option<string>, b: Option<string>, firstOfB: Option<string>): seq<Patch> {
    if a == b then []
    else if a.None? then [Add("/-", TextDoc(b.value))]
    else if b.None? then (if firstOfB.Some? then [Remove("/1")] else [])
    else [Replace("/1", TextDoc(b.value))]
  }

  function CodecsDiff(a: MediaInfo, b: MediaInfo): seq<Patch> {
    FirstCodecDiff(Codec(a, 0), Codec(b, 0)) + SecondCodecDiff(Codec(a, 1), Codec(b, 1), Codec(b, 0))
  }

  /** The codecs diff fails when a first codec appears: it appends to an array that does not exist. */
  predicate CodecsExact(a: MediaInfo, b: MediaInfo) {
    Codecs(a) == [] ==> Codecs(b) == []
  }

  lemma CodecOperations(xs: seq<Json>, v: Json)
    ensures |xs| >= 1 ==> Apply(Array(xs), Replace("/0", v)) == Some(Array(xs[0 := v]))
    ensures |xs| >= 2 ==> Apply(Array(xs), Replace("/1", v)) == Some(Array(xs[1 := v]))
    ensures |xs| >= 2 ==> Apply(Array(xs), Remove("/1")) == Some(Array(xs[..1] + xs[2..]))
    ensures Apply(Array(xs), Add("/-", v)) == Some(Array(xs + [v]))
  {
    assert IndexPath(0) == "/0" && IndexPath(1) == "/1";
    if |xs| >= 1 {
      ReplaceAt(xs, 0, v);
    }
    if |xs| >= 2 {
      ReplaceAt(xs, 1, v);
      RemoveAt(xs, 1);
    }
    AddAtEnd(xs, v, AtDash);
  }

  lemma FirstCodecDiffApplies(x: seq<string>, y: seq<string>)
    requires x != [] && y != []
    ensures ApplyAllToSlot(ListSlot(x, TextDoc), FirstCodecDiff(Some(x[0]), Some(y[0])))
         == Some(ListSlot(x[0 := y[0]], TextDoc))
  {
    var xs, ps := Docs(x, TextDoc), FirstCodecDiff(Some(x[0]), Some(y[0]));
    assert xs[0 := TextDoc(y[0])] == Docs(x[0 := y[0]], TextDoc);
    if x[0] == y[0] {
      assert x[0 := y[0]] == x;
    } else {
      CodecOperations(xs, TextDoc(y[0]));
      OnePatch(Some(Array(xs)), ps[0]);
    }
  }

  lemma SecondCodecGoes(x: seq<string>, y: seq<string>)
    requires |x| == 2 && |y| == 1 && x[0] == y[0]
    ensures ApplyAllToSlot(ListSlot(x, TextDoc), [Remove("/1")]) == Some(ListSlot(y, TextDoc))
  {
    var xs := Docs(x, TextDoc);
    CodecOperations(xs, Null);
    OnePatch(Some(Array(xs)), Remove("/1"));
    assert xs[..1] + xs[2..] == Docs(y, TextDoc);
  }

  lemma SecondCodecComes(x: seq<string>, y: seq<string>)
    requires |x| == 1 && |y| == 2 && x[0] == y[0]
    ensures ApplyAllToSlot(ListSlot(x, TextDoc), [Add("/-", TextDoc(y[1]))]) == Some(ListSlot(y, TextDoc))
  {
    var xs := Docs(x, TextDoc);
    CodecOperations(xs, TextDoc(y[1]));
    OnePatch(Some(Array(xs)), Add("/-", TextDoc(y[1])));
    assert xs + [TextDoc(y[1])] == Docs(y, TextDoc);
  }

  lemma SecondCodecChanges(x: seq<string>, y: seq<string>)
    requires |x| == 2 && |y| == 2 && x[0] == y[0]
    ensures ApplyAllToSlot(ListSlot(x, TextDoc), [Replace("/1", TextDoc(y[1]))]) == Some(ListSlot(y, TextDoc))
  {
    var xs := Docs(x, TextDoc);
    CodecOperations(xs, TextDoc(y[1]));
    OnePatch(Some(Array(xs)), Replace("/1", TextDoc(y[1])));
    assert xs[1 := TextDoc(y[1])] == Docs(y, TextDoc);
  }

  lemma SecondCodecDiffApplies(x: seq<string>, y: seq<string>)
    requires 1 <= |x| <= 2 && 1 <= |y| <= 2 && x[0] == y[0]
    ensures var ps := SecondCodecDiff(if |x| == 2 then Some(x[1]) else None, if |y| == 2 then Some(y[1]) else None, Some(y[0]));
      ApplyAllToSlot(ListSlot(x, TextDoc), ps) == Some(ListSlot(y, TextDoc))
  {
    if x == y {
    } else if |y| == 1 {
      SecondCodecGoes(x, y);
    } else if |x| == 1 {
      SecondCodecComes(x, y);
    } else {
      SecondCodecChanges(x, y);
    }
  }

  lemma CodecsDiffApplies(a: MediaInfo, b: MediaInfo)
    ensures ApplyAllToSlot(ListSlot(Codecs(a), TextDoc), CodecsDiff(a, b)) == Some(ListSlot(Codecs(b), TextDoc))
            <==> CodecsExact(a, b)
    ensures Relative(CodecsDiff(a, b))
  {
    var x, y := Codecs(a), Codecs(b);
    var slot := ListSlot(x, TextDoc);
    var first, second := FirstCodecDiff(Codec(a, 0), Codec(b, 0)), SecondCodecDiff(Codec(a, 1), Codec(b, 1), Codec(b, 0));
    SlotAppend(slot, first, second);
    if x == [] || y == [] {
      if first != [] {
        OnePatch(slot, first[0]);
      }
    } else {
      FirstCodecDiffApplies(x, y);
      SecondCodecDiffApplies(x[0 := y[0]], y);
    }
  }

  lemma {:induction false} SlotAppend(slot: Slot, x: seq<Patch>, y: seq<Patch>)
    ensures ApplyAllToSlot(slot, x + y) ==
            if ApplyAllToSlot(slot, x).None? then None else ApplyAllToSlot(ApplyAllToSlot(slot, x).value, y)
    decreases |x|
  {
    if x == [] {
      assert x + y == y;
    } else {
      assert (x + y)[1..] == x[1..] + y;
      var s := ApplyToSlot(slot, x[0]);
      if s.Some? {
        SlotAppend(s.value, x[1..], y);
      }
    }
  }

  // ---------- Media information ----------

  const MEDIA_NAMES := ["mbsMedType", "maxReqMbsBwDl", "minReqMbsBwDl", "codecs"]

  function MediaInfoSlots(x: MediaInfo): (r: seq<Slot>)
    ensures |r| == |MEDIA_NAMES|
  {
    [SlotOf(x.mediaType, MediaTypeDoc), SlotOf(x.maxBandwidth, BitRateDoc), SlotOf(x.minBandwidth, BitRateDoc),
     ListSlot(Codecs(x), TextDoc)]
  }

  function MediaInfoDoc(x: MediaInfo): Json {
    Object(Members(MEDIA_NAMES, MediaInfoSlots(x)))
  }

  function MediaInfoDiffs(a: MediaInfo, b: MediaInfo): (r: seq<seq<Patch>>)
    ensures |r| == |MEDIA_NAMES|
  {
    [OptionalDiff(a.mediaType, b.mediaType, MediaTypeDoc),
     OptionalDiff(a.maxBandwidth, b.maxBandwidth, BitRateDoc),
     OptionalDiff(a.minBandwidth, b.minBandwidth, BitRateDoc),
     CodecsDiff(a, b)]
  }

  function MediaInfoAttributeDiff(a: MediaInfo, b: MediaInfo): seq<Patch> {
    Assemble(EditsOf(MEDIA_NAMES, MediaInfoDiffs(a, b)))
  }

  function MediaInfoDiff(a: Option<MediaInfo>, b: Option<MediaInfo>): seq<Patch> {
    StructureDiff(a, b, MediaInfoDoc, if a.Some? && b.Some? then MediaInfoAttributeDiff(a.value, b.value) else [])
  }

  predicate MediaInfoExact(a: Option<MediaInfo>, b: Option<MediaInfo>) {
    a.Some? && b.Some? ==> CodecsExact(a.value, b.value)
  }

  lemma MediaNames()
    ensures GoodNames(MEDIA_NAMES)
  {
  }

  lemma MediaInfoAttributeDiffApplies(x: MediaInfo, y: MediaInfo)
    ensures ApplyAllToSlot(Some(MediaInfoDoc(x)), MediaInfoAttributeDiff(x, y)) == Some(Some(MediaInfoDoc(y)))
            <==> CodecsExact(x, y)
    ensures Relative(MediaInfoAttributeDiff(x, y))
  {
    OptionalDiffApplies(x.mediaType, y.mediaType, MediaTypeDoc);
    OptionalDiffApplies(x.maxBandwidth, y.maxBandwidth, BitRateDoc);
    OptionalDiffApplies(x.minBandwidth, y.minBandwidth, BitRateDoc);
    CodecsDiffApplies(x, y);
    MediaNames();
    SmallStructureReaches(map[], MEDIA_NAMES, MediaInfoSlots(x), MediaInfoSlots(y), MediaInfoDiffs(x, y));
  }

  lemma MediaInfoDiffApplies(a: Option<MediaInfo>, b: Option<MediaInfo>)
    ensures ApplyAllToSlot(SlotOf(a, MediaInfoDoc), MediaInfoDiff(a, b)) == Some(SlotOf(b, MediaInfoDoc))
            <==> MediaInfoExact(a, b)
    ensures Relative(MediaInfoDiff(a, b))
  {
    if a.Some? && b.Some? {
      MediaInfoAttributeDiffApplies(a.value, b.value);
    }
    StructureDiffApplies(a, b, MediaInfoDoc, if a.Some? && b.Some? then MediaInfoAttributeDiff(a.value, b.value) else [],
                         MediaInfoExact(a, b));
  }

  // ---------- Flow descriptions ----------

  function Flows(x: MediaComp): seq<string> {
    if x.flows.Some? then x.flows.value else []
  }

  predicate SameFlow(a: string, b: string) {
    a == b
  }

  /** The diff of one flow description, lifted under its position by the list diff. */
  function FlowDiff(a: string, b: string): seq<Patch> {
    if a == b then [] else [Replace(WHOLE, TextDoc(b))]
  }

  function FlowsDiff(a: seq<string>, b: seq<string>): seq<Patch> {
    PlainDiff(a, b, SameFlow, TextDoc, AtDash)
  }

  /** What one round of the loop appends: the lifted diff of one element, an addition or a removal. */
  function FlowRound(a: seq<string>, b: seq<string>, i: nat, j: nat, idx: nat): seq<Patch>
    requires i < |a| || j < |b|
  {
    if i >= |a| then [Add("/-", TextDoc(b[j]))]
    else if j >= |b| then [Remove(IndexPath(idx))]
    else Lift(FlowDiff(a[i], b[j]), IndexPath(idx))
  }

  lemma FlowRoundIs(a: seq<string>, b: seq<string>, i: nat, j: nat, idx: nat)
    requires i <= |a| && j <= |b| && (i < |a| || j < |b|)
    ensures TailDiff(a[i..], b[j..], idx, SameFlow, TextDoc, AtDash) ==
            FlowRound(a, b, i, j, idx) + TailDiff(a[Next(a, i)..], b[Next(b, j)..], if j < |b| then idx + 1 else idx,
                                                  SameFlow, TextDoc, AtDash)
  {
    TailDiffRound(a, b, i, j, idx, SameFlow, TextDoc, AtDash);
    if i < |a| && j < |b| {
      LiftedFlowDiff(a[i], b[j], idx);
    }
  }

  /** The list diff of flow descriptions appends lifted element diffs, which makes it the plain diff. */
  method BuildFlowsDiff(a: seq<string>, b: seq<string>) returns (patches: seq<Patch>)
    ensures patches == FlowsDiff(a, b)
  {
    if a == [] && b == [] {
      return [];
    } else if a == [] {
      return [Add(WHOLE, Array(Docs(b, TextDoc)))];
    } else if b == [] {
      return [Remove(WHOLE)];
    }
    patches := BuildFlowsTail(a, b);
  }

  method BuildFlowsTail(a: seq<string>, b: seq<string>) returns (patches: seq<Patch>)
    ensures patches == TailDiff(a, b, 0, SameFlow, TextDoc, AtDash)
  {
    patches := [];
    var idx: int, i: nat, j: nat := 0, 0, 0;
    ghost var goal := TailDiff(a, b, 0, SameFlow, TextDoc, AtDash);
    assert a[0..] == a && b[0..] == b;
    while i < |a| || j < |b|
      invariant 0 <= idx && i <= |a| && j <= |b|
      invariant patches + TailDiff(a[i..], b[j..], idx, SameFlow, TextDoc, AtDash) == goal
      decreases |a| - i + |b| - j
    {
      FlowRoundIs(a, b, i, j, idx);
      Sequences.Regroup(patches, FlowRound(a, b, i, j, idx),
                        TailDiff(a[Next(a, i)..], b[Next(b, j)..], if j < |b| then idx + 1 else idx,
                                 SameFlow, TextDoc, AtDash));
      if i == |a| {
        patches := patches + [Add("/-", TextDoc(b[j]))];
      } else if j == |b| {
        patches := patches + [Remove(IndexPath(idx))];
        idx := idx - 1;
      } else {
        patches := AppendLifted(patches, FlowDiff(a[i], b[j]), IndexPath(idx));
      }
      idx := idx + 1;
      i := if i < |a| then i + 1 else i;
      j := if j < |b| then j + 1 else j;
    }
    assert a[i..] == [] && b[j..] == [];
  }

  lemma LiftedFlowDiff(a: string, b: string, idx: nat)
    ensures Lift(FlowDiff(a, b), IndexPath(idx)) == if SameFlow(a, b) then [] else [Replace(IndexPath(idx), TextDoc(b))]
  {
    if a != b {
      var p := Replace(WHOLE, TextDoc(b));
      assert [p][1..] == [];
      assert Lift([p], IndexPath(idx)) == [WithPrefix(p, IndexPath(idx))];
    }
  }

  // ---------- Components ----------

  const COMP_NAMES := ["mbsMedCompNum", "mbsFlowDescs", "mbsSdfResPrio", "mbsMediaInfo", "qosRef", "mbsQoSReq"]

  function Priority(p: nat): Option<nat> {
    if p == 0 then None else Some(p)
  }

  function PriorityDoc(p: nat): Json {
    Str("PRIO_" + Text.Decimal(p))
  }

  function IdDoc(id: int): Json {
    Number(id as real)
  }

  /** Only one of media information, QoS reference and QoS requirements is sent. */
  function SentQosRef(x: MediaComp): Option<string> {
    if x.mediaInfo.Some? then None else x.qosRef
  }

  function SentQosReq(x: MediaComp): Option<QosReq> {
    if x.mediaInfo.Some? || x.qosRef.Some? then None else x.qosReq
  }

  function CompSlots(x: MediaComp): (r: seq<Slot>)
    ensures |r| == |COMP_NAMES|
  {
    [Some(IdDoc(x.id)), ListSlot(Flows(x), TextDoc), SlotOf(Priority(x.reservePriority), PriorityDoc),
     SlotOf(x.mediaInfo, MediaInfoDoc), SlotOf(SentQosRef(x), TextDoc), SlotOf(SentQosReq(x), QosReqDoc)]
  }

  function CompDoc(x: MediaComp): Json {
    Object(Members(COMP_NAMES, CompSlots(x)))
  }

  /** A change between two QoS references that are both set is not noticed. */
  function QosRefDiff(a: Option<string>, b: Option<string>): seq<Patch> {
    if a.Some? == b.Some? then []
    else if a.None? then [Add(WHOLE, TextDoc(b.value))]
    else [Remove(WHOLE)]
  }

  function CompDiffs(a: MediaComp, b: MediaComp): (r: seq<seq<Patch>>)
    ensures |r| == |COMP_NAMES|
  {
    [MandatoryDiff(a.id, b.id, IdDoc),
     FlowsDiff(Flows(a), Flows(b)),
     OptionalDiff(Priority(a.reservePriority), Priority(b.reservePriority), PriorityDoc),
     MediaInfoDiff(a.mediaInfo, b.mediaInfo),
     QosRefDiff(a.qosRef, b.qosRef),
     QosReqDiff(a.qosReq, b.qosReq)]
  }

  function CompDiff(a: MediaComp, b: MediaComp): seq<Patch> {
    Assemble(EditsOf(COMP_NAMES, CompDiffs(a, b)))
  }

  /** When the diff of the QoS reference, made on the stored values, does to the sent ones what it should. */
  predicate QosRefExact(a: MediaComp, b: MediaComp) {
    match (a.qosRef, b.qosRef)
    case (None, None) => true
    case (None, Some(_)) => b.mediaInfo.None?
    case (Some(_), None) => a.mediaInfo.None?
    case (Some(x), Some(y)) => a.mediaInfo.Some? == b.mediaInfo.Some? && (a.mediaInfo.None? ==> x == y)
  }

  predicate SendsQosReq(x: MediaComp) {
    x.mediaInfo.None? && x.qosRef.None?
  }

  predicate QosReqExact(a: MediaComp, b: MediaComp) {
    match (a.qosReq, b.qosReq)
    case (None, None) => true
    case (None, Some(_)) => SendsQosReq(b)
    case (Some(_), None) => SendsQosReq(a)
    case (Some(x), Some(y)) => if x == y then SendsQosReq(a) == SendsQosReq(b) else SendsQosReq(a) && SendsQosReq(b)
  }

  predicate CompExact(a: MediaComp, b: MediaComp) {
    MediaInfoExact(a.mediaInfo, b.mediaInfo) && QosRefExact(a, b) && QosReqExact(a, b)
  }

  lemma QosRefDiffApplies(a: MediaComp, b: MediaComp)
    ensures ApplyAllToSlot(SlotOf(SentQosRef(a), TextDoc), QosRefDiff(a.qosRef, b.qosRef)) == Some(SlotOf(SentQosRef(b), TextDoc))
            <==> QosRefExact(a, b)
    ensures Relative(QosRefDiff(a.qosRef, b.qosRef))
  {
    var ps := QosRefDiff(a.qosRef, b.qosRef);
    if ps != [] {
      OnePatch(SlotOf(SentQosRef(a), TextDoc), ps[0]);
    }
  }

  lemma {:induction false} AssembleEmpty(edits: seq<Edit>)
    ensures Assemble(edits) == [] <==> forall i :: 0 <= i < |edits| ==> edits[i].diff == []
  {
    if edits != [] {
      AssembleEmpty(edits[1..]);
      assert forall i :: 1 <= i < |edits| ==> edits[i] == edits[1..][i - 1];
    }
  }

  lemma QosReqDiffEmpty(x: QosReq, y: QosReq)
    ensures QosReqAttributeDiff(x, y) == [] <==> x == y
  {
    var ds := QosReqDiffs(x, y);
    var edits := EditsOf(QOS_NAMES, ds);
    AssembleEmpty(edits);
    ArpDiffEmpty(x.arp, y.arp);
    assert edits[0].diff == ds[0] && edits[1].diff == ds[1] && edits[2].diff == ds[2] && edits[3].diff == ds[3]
        && edits[4].diff == ds[4];
  }

  lemma ArpDiffEmpty(x: Option<Arp>, y: Option<Arp>)
    ensures ArpDiff(x, y) == [] <==> x == y
  {
    if x.Some? && y.Some? {
      var ds := ArpDiffs(x.value, y.value);
      var edits := EditsOf(ARP_NAMES, ds);
      AssembleEmpty(edits);
      assert edits[0].diff == ds[0] && edits[1].diff == ds[1] && edits[2].diff == ds[2];
    }
  }

  lemma QosReqDiffAppliesToSent(a: MediaComp, b: MediaComp)
    ensures ApplyAllToSlot(SlotOf(SentQosReq(a), QosReqDoc), QosReqDiff(a.qosReq, b.qosReq)) == Some(SlotOf(SentQosReq(b), QosReqDoc))
            <==> QosReqExact(a, b)
    ensures Relative(QosReqDiff(a.qosReq, b.qosReq))
  {
    QosReqDiffApplies(a.qosReq, b.qosReq);
    var slot, ps := SlotOf(SentQosReq(a), QosReqDoc), QosReqDiff(a.qosReq, b.qosReq);
    if a.qosReq.Some? && b.qosReq.Some? {
      var x, y := a.qosReq.value, b.qosReq.value;
      QosReqDiffEmpty(x, y);
      QosReqAttributeDiffApplies(x, y);
      if ps != [] && slot.None? {
        assert ApplyToSlot(slot, ps[0]) == None;
      }
    } else if ps != [] {
      OnePatch(slot, ps[0]);
    }
  }

  lemma CompNames()
    ensures GoodNames(COMP_NAMES)
  {
    CompNamesDistinct();
  }

  lemma CompNamesDistinct()
    ensures forall i, j :: 0 <= i < j < |COMP_NAMES| ==> COMP_NAMES[i] != COMP_NAMES[j]
  {
    var n := COMP_NAMES;
    assert |n[0]| == 13 && |n[1]| == 12 && |n[2]| == 13 && |n[3]| == 12 && |n[4]| == 6 && |n[5]| == 9;
    assert n[0][3] == 'M' && n[1][3] == 'F' && n[2][3] == 'S' && n[3][3] == 'M';
  }

  lemma CommonAttributes(a: MediaComp, b: MediaComp)
    ensures var x, ds, y := CompSlots(a), CompDiffs(a, b), CompSlots(b);
      && ExactAt(x, ds, y, 0) && ExactAt(x, ds, y, 1) && ExactAt(x, ds, y, 2)
      && Relative(ds[0]) && Relative(ds[1]) && Relative(ds[2])
  {
    MandatoryDiffApplies(a.id, b.id, IdDoc);
    PlainDiffApplies(Flows(a), Flows(b), SameFlow, TextDoc, AtDash);
    OptionalDiffApplies(Priority(a.reservePriority), Priority(b.reservePriority), PriorityDoc);
  }

  lemma AlternativeAttributes(a: MediaComp, b: MediaComp)
    ensures var x, ds, y := CompSlots(a), CompDiffs(a, b), CompSlots(b);
      && (ExactAt(x, ds, y, 3) <==> MediaInfoExact(a.mediaInfo, b.mediaInfo))
      && (ExactAt(x, ds, y, 4) <==> QosRefExact(a, b))
      && (ExactAt(x, ds, y, 5) <==> QosReqExact(a, b))
      && Relative(ds[3]) && Relative(ds[4]) && Relative(ds[5])
  {
    MediaInfoDiffApplies(a.mediaInfo, b.mediaInfo);
    QosRefDiffApplies(a, b);
    QosReqDiffAppliesToSent(a, b);
  }

  /** The diff of a component is exact if and only if the three conditions on its alternatives hold. */
  lemma CompDiffApplies(a: MediaComp, b: MediaComp)
    ensures ApplyAllToSlot(Some(CompDoc(a)), CompDiff(a, b)) == Some(Some(CompDoc(b))) <==> CompExact(a, b)
    ensures Relative(CompDiff(a, b))
  {
    CommonAttributes(a, b);
    AlternativeAttributes(a, b);
    CompNames();
    SmallStructureReaches(map[], COMP_NAMES, CompSlots(a), CompSlots(b), CompDiffs(a, b));
  }
}
