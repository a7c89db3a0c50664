/**
 Reading documents: each structure that a request carries is read back from its JSON document, attribute by attribute.
 What comes out is what was put in, but for rates, which are sent rounded, and for what is not sent at all.
 */
module DocumentReading {
  import opened Options
  import opened JsonDocument
  import opened JsonPatch
  import opened Structure
  import opened ListDiff
  import opened QosRequirements
  import opened MediaComponents
  import opened RateReading
  import Text

  // ---------- Values ----------

  function ReadNat(j: Json): Option<nat> {
    if j.Number? && j.n >= 0.0 && j.n.Floor as real == j.n then Some(j.n.Floor) else None
  }

  function ReadText(j: Json): Option<string> {
    if j.Str? then Some(j.s) else None
  }

  function ReadBool(j: Json): Option<bool> {
    if j.Bool? then Some(j.b) else None
  }

  /** A numeral in the base, with just so many digits or without leading zeros. */
  function ReadNumeral(s: string, base: nat, width: nat): Option<nat>
    requires base == 10 || base == 16
  {
    var n := Text.NumeralValue(s, base);
    if s == Text.Numeral(n, base, width) then Some(n) else None
  }

  function ReadBitRate(j: Json): Option<nat> {
    var s :- ReadText(j);
    var r :- ReadRate(s);
    Some(BitsPerSecond(r))
  }

  lemma NatReads(n: nat)
    ensures ReadNat(NatDoc(n)) == Some(n)
  {
    assert (n as real).Floor == n;
  }

  lemma NumeralReads(n: nat, base: nat, width: nat)
    requires base == 10 || base == 16
    ensures ReadNumeral(Text.Numeral(n, base, width), base, width) == Some(n)
  {
    Text.NumeralReadsBack(n, base, width);
  }

  lemma BitRateReads(bps: nat)
    ensures ReadBitRate(BitRateDoc(bps)) == Some(Printable(bps))
  {
    RateReadsPrintable(bps);
  }

  // ---------- Attributes ----------

  type Reader<T> = Json -> Option<T>

  function Required<T>(m: map<string, Json>, name: string, read: Reader<T>): Option<T> {
    var j :- Member(m, name);
    read(j)
  }

  /** An absent attribute has no value; one that is present must be readable. */
  function Optional<T>(m: map<string, Json>, name: string, read: Reader<T>): Option<Option<T>> {
    if Member(m, name).None? then Some(None)
    else
      var v :- read(Member(m, name).value);
      Some(Some(v))
  }

  function ReadItems<T>(items: seq<Json>, read: Reader<T>): Option<seq<T>> {
    if items == [] then Some([])
    else
      var init :- ReadItems(items[..|items| - 1], read);
      var last :- read(items[|items| - 1]);
      Some(init + [last])
  }

  /** An absent list is empty. */
  function ReadList<T>(m: map<string, Json>, name: string, read: Reader<T>): Option<seq<T>> {
    if Member(m, name).None? then Some([])
    else if Member(m, name).value.Array? then ReadItems(Member(m, name).value.items, read)
    else None
  }

  function Mapped<S, T>(s: seq<S>, f: S -> T): (r: seq<T>)
    ensures |r| == |s|
  {
    seq(|s|, i requires 0 <= i < |s| => f(s[i]))
  }

  lemma {:induction false} ItemsRead<S, T>(s: seq<S>, doc: S -> Json, read: Reader<T>, shown: S -> T)
    requires forall i :: 0 <= i < |s| ==> read(doc(s[i])) == Some(shown(s[i]))
    ensures ReadItems(Docs(s, doc), read) == Some(Mapped(s, shown))
  {
    if s != [] {
      var init := s[..|s| - 1];
      assert Docs(s, doc)[..|s| - 1] == Docs(init, doc);
      ItemsRead(init, doc, read, shown);
      assert Mapped(s, shown) == Mapped(init, shown) + [shown(s[|s| - 1])];
    } else {
      assert Docs(s, doc) == [];
    }
  }

  lemma ListReads<S, T>(m: map<string, Json>, name: string, s: seq<S>, doc: S -> Json, read: Reader<T>, shown: S -> T)
    requires Member(m, name) == ListSlot(s, doc)
    requires forall i :: 0 <= i < |s| ==> read(doc(s[i])) == Some(shown(s[i]))
    ensures ReadList(m, name, read) == Some(Mapped(s, shown))
  {
    ItemsRead(s, doc, read, shown);
  }

  // ---------- Priorities and QoS requirements ----------

  function ReadCapability(j: Json): Option<PreemptionCapability> {
    if j == Str("NULL") then Some(NoCapability)
    else if j == Str("NOT_PREEMPT") then Some(NotPreempt)
    else if j == Str("MAY_PREEMPT") then Some(MayPreempt)
    else None
  }

  function ReadVulnerability(j: Json): Option<PreemptionVulnerability> {
    if j == Str("NULL") then Some(NoVulnerability)
    else if j == Str("NOT_PREEMPTABLE") then Some(NotPreemptable)
    else if j == Str("PREEMPTABLE") then Some(Preemptable)
    else None
  }

  lemma CapabilityReads(x: PreemptionCapability)
    ensures ReadCapability(CapabilityDoc(x)) == Some(x)
  {
    assert |"NULL"| == 4 && |"NOT_PREEMPT"| == 11 && |"MAY_PREEMPT"| == 11 && "NOT_PREEMPT"[0] == 'N' && "MAY_PREEMPT"[0] == 'M';
  }

  lemma VulnerabilityReads(x: PreemptionVulnerability)
    ensures ReadVulnerability(VulnerabilityDoc(x)) == Some(x)
  {
    assert |"NULL"| == 4 && |"NOT_PREEMPTABLE"| == 15 && |"PREEMPTABLE"| == 11;
  }

  function ReadArp(j: Json): Option<Arp> {
    if !j.Object? then None
    else
      var level :- Required(j.members, "priorityLevel", ReadNat);
      var capability :- Required(j.members, "preemptCap", ReadCapability);
      var vulnerability :- Required(j.members, "preemptVuln", ReadVulnerability);
      Some(Arp(level, capability, vulnerability))
  }

  lemma ArpMembers(x: Arp)
    ensures var m := Members(ARP_NAMES, ArpSlots(x));
      && Member(m, "priorityLevel") == Some(NatDoc(x.priorityLevel))
      && Member(m, "preemptCap") == Some(CapabilityDoc(x.capability))
      && Member(m, "preemptVuln") == Some(VulnerabilityDoc(x.vulnerability))
  {
    ArpNames();
    assert ARP_NAMES[0] == "priorityLevel" && ARP_NAMES[1] == "preemptCap" && ARP_NAMES[2] == "preemptVuln";
    MembersAt(map[], ARP_NAMES, ArpSlots(x), 0);
    MembersAt(map[], ARP_NAMES, ArpSlots(x), 1);
    MembersAt(map[], ARP_NAMES, ArpSlots(x), 2);
  }

  /** A priority is read back as it is. */
  lemma ArpReads(x: Arp)
    ensures ReadArp(ArpDoc(x)) == Some(x)
  {
    ArpMembers(x);
    NatReads(x.priorityLevel);
    CapabilityReads(x.capability);
    VulnerabilityReads(x.vulnerability);
  }

  function ShownRate(x: Option<nat>): Option<nat> {
    if x.None? then None else Some(Printable(x.value))
  }

  function ReadQosReq(j: Json): Option<QosReq> {
    if !j.Object? then None
    else
      var fiveQi :- Required(j.members, "5Qi", ReadNat);
      var guaranteed :- Optional(j.members, "guarBitRate", ReadBitRate);
      var max :- Optional(j.members, "maxBitRate", ReadBitRate);
      var window :- Optional(j.members, "averWindow", ReadNat);
      var arp :- Optional(j.members, "regMbsArp", ReadArp);
      Some(QosReq(fiveQi, guaranteed, max, window, arp))
  }

  function ShownQosReq(x: QosReq): QosReq {
    QosReq(x.fiveQi, ShownRate(x.guaranteedBitRate), ShownRate(x.maxBitRate), x.averagingWindow, x.arp)
  }

  lemma QosReqMembers(x: QosReq)
    ensures var m := Members(QOS_NAMES, QosReqSlots(x));
      && Member(m, "5Qi") == Some(NatDoc(x.fiveQi))
      && Member(m, "guarBitRate") == SlotOf(x.guaranteedBitRate, BitRateDoc)
      && Member(m, "maxBitRate") == SlotOf(x.maxBitRate, BitRateDoc)
      && Member(m, "averWindow") == SlotOf(x.averagingWindow, NatDoc)
      && Member(m, "regMbsArp") == SlotOf(x.arp, ArpDoc)
  {
    QosNames();
    assert QOS_NAMES[0] == "5Qi" && QOS_NAMES[1] == "guarBitRate" && QOS_NAMES[2] == "maxBitRate";
    assert QOS_NAMES[3] == "averWindow" && QOS_NAMES[4] == "regMbsArp";
    MembersAt(map[], QOS_NAMES, QosReqSlots(x), 0);
    MembersAt(map[], QOS_NAMES, QosReqSlots(x), 1);
    MembersAt(map[], QOS_NAMES, QosReqSlots(x), 2);
    MembersAt(map[], QOS_NAMES, QosReqSlots(x), 3);
    MembersAt(map[], QOS_NAMES, QosReqSlots(x), 4);
  }

  lemma RateAttributeReads(m: map<string, Json>, name: string, x: Option<nat>)
    requires Member(m, name) == SlotOf(x, BitRateDoc)
    ensures Optional(m, name, ReadBitRate) == Some(ShownRate(x))
  {
    if x.Some? {
      BitRateReads(x.value);
    }
  }

  lemma NatAttributeReads(m: map<string, Json>, name: string, x: Option<nat>)
    requires Member(m, name) == SlotOf(x, NatDoc)
    ensures Optional(m, name, ReadNat) == Some(x)
  {
    if x.Some? {
      NatReads(x.value);
    }
  }

  lemma TextAttributeReads(m: map<string, Json>, name: string, x: Option<string>)
    requires Member(m, name) == SlotOf(x, TextDoc)
    ensures Optional(m, name, ReadText) == Some(x)
  {
  }

  /** QoS requirements are read back as they are, with the rates as printed. */
  lemma QosReqReads(x: QosReq)
    ensures ReadQosReq(QosReqDoc(x)) == Some(ShownQosReq(x))
  {
    var m := Members(QOS_NAMES, QosReqSlots(x));
    QosReqMembers(x);
    NatReads(x.fiveQi);
    RateAttributeReads(m, "guarBitRate", x.guaranteedBitRate);
    RateAttributeReads(m, "maxBitRate", x.maxBitRate);
    NatAttributeReads(m, "averWindow", x.averagingWindow);
    if x.arp.Some? {
      ArpReads(x.arp.value);
    }
  }

  // ---------- Media components ----------

  function ReadMediaType(j: Json): Option<MediaType> {
    if j == Str("AUDIO") then Some(Audio)
    else if j == Str("VIDEO") then Some(Video)
    else if j == Str("DATA") then Some(Data)
    else if j == Str("APPLICATION") then Some(Application)
    else if j == Str("CONTROL") then Some(Control)
    else if j == Str("TEXT") then Some(TextMedia)
    else if j == Str("MESSAGE") then Some(Message)
    else if j == Str("OTHER") then Some(Other)
    else None
  }

  lemma MediaTypeReads(x: MediaType)
    ensures ReadMediaType(MediaTypeDoc(x)) == Some(x)
  {
    assert |"AUDIO"| == 5 && |"VIDEO"| == 5 && |"OTHER"| == 5 && |"DATA"| == 4 && |"TEXT"| == 4;
    assert |"APPLICATION"| == 11 && |"CONTROL"| == 7 && |"MESSAGE"| == 7;
    assert "AUDIO"[0] == 'A' && "VIDEO"[0] == 'V' && "OTHER"[0] == 'O' && "DATA"[0] == 'D' && "TEXT"[0] == 'T';
    assert "CONTROL"[0] == 'C' && "MESSAGE"[0] == 'M';
  }

  function ReadMediaInfo(j: Json): Option<MediaInfo> {
    if !j.Object? then None
    else
      var mediaType :- Optional(j.members, "mbsMedType", ReadMediaType);
      var max :- Optional(j.members, "maxReqMbsBwDl", ReadBitRate);
      var min :- Optional(j.members, "minReqMbsBwDl", ReadBitRate);
      var codecs :- ReadList(j.members, "codecs", ReadText);
      if |codecs| > 2 then None
      else
        Some(MediaInfo(mediaType, max, min, if |codecs| > 0 then Some(codecs[0]) else None,
                       if |codecs| > 1 then Some(codecs[1]) else None))
  }

  /** A codec alone in the second slot is sent as the first. */
  function ShownMediaInfo(x: MediaInfo): MediaInfo {
    MediaInfo(x.mediaType, ShownRate(x.maxBandwidth), ShownRate(x.minBandwidth),
              if x.codec0.Some? then x.codec0 else x.codec1, if x.codec0.Some? then x.codec1 else None)
  }

  lemma MediaInfoMembers(x: MediaInfo)
    ensures var m := Members(MEDIA_NAMES, MediaInfoSlots(x));
      && Member(m, "mbsMedType") == SlotOf(x.mediaType, MediaTypeDoc)
      && Member(m, "maxReqMbsBwDl") == SlotOf(x.maxBandwidth, BitRateDoc)
      && Member(m, "minReqMbsBwDl") == SlotOf(x.minBandwidth, BitRateDoc)
      && Member(m, "codecs") == ListSlot(Codecs(x), TextDoc)
  {
    MediaNames();
    assert MEDIA_NAMES[0] == "mbsMedType" && MEDIA_NAMES[1] == "maxReqMbsBwDl";
    assert MEDIA_NAMES[2] == "minReqMbsBwDl" && MEDIA_NAMES[3] == "codecs";
    MembersAt(map[], MEDIA_NAMES, MediaInfoSlots(x), 0);
    MembersAt(map[], MEDIA_NAMES, MediaInfoSlots(x), 1);
    MembersAt(map[], MEDIA_NAMES, MediaInfoSlots(x), 2);
    MembersAt(map[], MEDIA_NAMES, MediaInfoSlots(x), 3);
  }

  lemma TextsRead(m: map<string, Json>, name: string, s: seq<string>)
    requires Member(m, name) == ListSlot(s, TextDoc)
    ensures ReadList(m, name, ReadText) == Some(s)
  {
    ListReads(m, name, s, TextDoc, ReadText, (t: string) => t);
    assert Mapped(s, (t: string) => t) == s;
  }

  lemma MediaInfoReads(x: MediaInfo)
    ensures ReadMediaInfo(MediaInfoDoc(x)) == Some(ShownMediaInfo(x))
  {
    var m := Members(MEDIA_NAMES, MediaInfoSlots(x));
    MediaInfoMembers(x);
    if x.mediaType.Some? {
      MediaTypeReads(x.mediaType.value);
    }
    RateAttributeReads(m, "maxReqMbsBwDl", x.maxBandwidth);
    RateAttributeReads(m, "minReqMbsBwDl", x.minBandwidth);
    TextsRead(m, "codecs", Codecs(x));
  }

  /** "PRIO_" and a number. */
  function ReadPriority(j: Json): Option<nat> {
    var s :- ReadText(j);
    if |s| < 5 || s[..5] != "PRIO_" then None else ReadNumeral(s[5..], 10, 0)
  }

  function ReadId(j: Json): Option<int> {
    if j.Number? && j.n.Floor as real == j.n then Some(j.n.Floor) else None
  }

  function ReadComp(j: Json): Option<MediaComp> {
    if !j.Object? then None
    else
      var id :- Required(j.members, "mbsMedCompNum", ReadId);
      var flows :- ReadList(j.members, "mbsFlowDescs", ReadText);
      var priority :- Optional(j.members, "mbsSdfResPrio", ReadPriority);
      var mediaInfo :- Optional(j.members, "mbsMediaInfo", ReadMediaInfo);
      var qosRef :- Optional(j.members, "qosRef", ReadText);
      var qosReq :- Optional(j.members, "mbsQoSReq", ReadQosReq);
      Some(MediaComp(id, if flows == [] then None else Some(flows), if priority.Some? then priority.value else 0,
                     mediaInfo, qosRef, qosReq))
  }

  /** Media information is sent rather than a QoS reference, and that rather than QoS requirements. */
  function ShownComp(x: MediaComp): MediaComp {
    MediaComp(x.id,
              if x.flows.Some? && x.flows.value != [] then x.flows else None,
              x.reservePriority,
              if x.mediaInfo.Some? then Some(ShownMediaInfo(x.mediaInfo.value)) else None,
              if x.mediaInfo.Some? then None else x.qosRef,
              if x.mediaInfo.None? && x.qosRef.None? && x.qosReq.Some? then Some(ShownQosReq(x.qosReq.value)) else None)
  }

  lemma CompMembers(x: MediaComp)
    ensures var m := Members(COMP_NAMES, CompSlots(x));
      && Member(m, "mbsMedCompNum") == Some(IdDoc(x.id))
      && Member(m, "mbsFlowDescs") == ListSlot(Flows(x), TextDoc)
      && Member(m, "mbsSdfResPrio") == SlotOf(Priority(x.reservePriority), PriorityDoc)
      && Member(m, "mbsMediaInfo") == SlotOf(x.mediaInfo, MediaInfoDoc)
      && Member(m, "qosRef") == SlotOf(SentQosRef(x), TextDoc)
      && Member(m, "mbsQoSReq") == SlotOf(SentQosReq(x), QosReqDoc)
  {
    CompNames();
    assert COMP_NAMES[0] == "mbsMedCompNum" && COMP_NAMES[1] == "mbsFlowDescs" && COMP_NAMES[2] == "mbsSdfResPrio";
    assert COMP_NAMES[3] == "mbsMediaInfo" && COMP_NAMES[4] == "qosRef" && COMP_NAMES[5] == "mbsQoSReq";
    MembersAt(map[], COMP_NAMES, CompSlots(x), 0);
    MembersAt(map[], COMP_NAMES, CompSlots(x), 1);
    MembersAt(map[], COMP_NAMES, CompSlots(x), 2);
    MembersAt(map[], COMP_NAMES, CompSlots(x), 3);
    MembersAt(map[], COMP_NAMES, CompSlots(x), 4);
    MembersAt(map[], COMP_NAMES, CompSlots(x), 5);
  }

  lemma PriorityReads(p: nat)
    ensures ReadPriority(PriorityDoc(p)) == Some(p)
  {
    var s := "PRIO_" + Text.Decimal(p);
    assert |"PRIO_"| == 5 && s[..5] == "PRIO_" && s[5..] == Text.Decimal(p);
    NumeralReads(p, 10, 0);
  }

  lemma IdReads(id: int)
    ensures ReadId(IdDoc(id)) == Some(id)
  {
    assert (id as real).Floor == id;
  }

  lemma PriorityAttributeReads(m: map<string, Json>, name: string, p: nat)
    requires Member(m, name) == SlotOf(Priority(p), PriorityDoc)
    ensures Optional(m, name, ReadPriority) == Some(if p == 0 then None else Some(p))
  {
    if p > 0 {
      PriorityReads(p);
    }
  }

  lemma AlternativesRead(m: map<string, Json>, x: MediaComp)
    requires Member(m, "mbsMediaInfo") == SlotOf(x.mediaInfo, MediaInfoDoc)
    requires Member(m, "qosRef") == SlotOf(SentQosRef(x), TextDoc) && Member(m, "mbsQoSReq") == SlotOf(SentQosReq(x), QosReqDoc)
    ensures var y := ShownComp(x);
      && Optional(m, "mbsMediaInfo", ReadMediaInfo) == Some(y.mediaInfo)
      && Optional(m, "qosRef", ReadText) == Some(y.qosRef)
      && Optional(m, "mbsQoSReq", ReadQosReq) == Some(y.qosReq)
  {
    if x.mediaInfo.Some? {
      MediaInfoReads(x.mediaInfo.value);
    }
    if x.qosReq.Some? {
      QosReqReads(x.qosReq.value);
    }
  }

  /** A component is read back as it is, but for the alternatives that are not sent. */
  lemma CompReads(x: MediaComp)
    ensures ReadComp(CompDoc(x)) == Some(ShownComp(x))
  {
    var m := Members(COMP_NAMES, CompSlots(x));
    CompMembers(x);
    IdReads(x.id);
    TextsRead(m, "mbsFlowDescs", Flows(x));
    PriorityAttributeReads(m, "mbsSdfResPrio", x.reservePriority);
    AlternativesRead(m, x);
  }
}
