/** Allocation and retention priority, and QoS requirements: leaf structures and their diffs. */
module QosRequirements {
  import opened Options
  import opened JsonDocument
  import opened JsonPatch
  import opened ObjectDiff
  import opened Structure
  import Text

  datatype PreemptionCapability = NoCapability | NotPreempt | MayPreempt
  datatype PreemptionVulnerability = NoVulnerability | NotPreemptable | Preemptable

  datatype Arp = Arp(priorityLevel: nat, capability: PreemptionCapability, vulnerability: PreemptionVulnerability)

  datatype QosReq = QosReq(
    fiveQi: nat,
    guaranteedBitRate: Option<nat>,
    maxBitRate: Option<nat>,
    averagingWindow: Option<nat>,
    arp: Option<Arp>)

  function NatDoc(n: nat): Json {
    Number(n as real)
  }

  function TextDoc(s: string): Json {
    Str(s)
  }

  /** Bits per second that the unit of a printed bit rate stands for: the largest unit that the rate fills. */
  function Divisor(bps: nat): (d: nat)
    ensures d > 0
  {
    if bps >= 1_000_000_000_000 then 1_000_000_000_000
    else if bps >= 1_000_000_000 then 1_000_000_000
    else if bps >= 1_000_000 then 1_000_000
    else if bps >= 1_000 then 1_000
    else 1
  }

  function UnitName(bps: nat): string {
    if bps >= 1_000_000_000_000 then "Tbps"
    else if bps >= 1_000_000_000 then "Gbps"
    else if bps >= 1_000_000 then "Mbps"
    else if bps >= 1_000 then "Kbps"
    else "bps"
  }

  /** The rate in millionths of its unit, rounded to the nearest. */
  function Millionths(bps: nat): nat {
    (2 * bps * 1_000_000 + Divisor(bps)) / (2 * Divisor(bps))
  }

  /** Six places after the point, then the unit. */
  function RateText(bps: nat): string {
    var q := Millionths(bps);
    Text.Decimal(q / 1_000_000) + ("." + (Text.Numeral(q % 1_000_000, 10, 6) + (" " + UnitName(bps))))
  }

  /** A bit rate is sent as text. */
  function BitRateDoc(bps: nat): Json {
    Str(RateText(bps))
  }

  // ---------- Rates that print alike ----------

  predicate PrintAlike(m: nat, n: nat) {
    UnitName(m) == UnitName(n) && Millionths(m) == Millionths(n)
  }

  lemma SplitAt(c: char, x: string, s: string, y: string, t: string)
    requires x + ([c] + s) == y + ([c] + t) && c !in x && c !in y
    ensures x == y && s == t
  {
    var z := x + ([c] + s);
    assert z[|x|] == c && z[|y|] == c;
    assert |x| == |y|;
    assert x == z[..|x|] == y;
    assert [c] + s == z[|x|..] == [c] + t;
    assert s == ([c] + s)[1..] && t == ([c] + t)[1..];
  }

  lemma NoMarks(n: nat, width: nat)
    ensures '.' !in Text.Numeral(n, 10, width) && ' ' !in Text.Numeral(n, 10, width)
  {
    Text.NumeralReadsBack(n, 10, width);
    assert Text.DigitValue('.') == 16 && Text.DigitValue(' ') == 16;
  }

  /** Two rates are printed as the same text if and only if they agree in the unit and in its millionths. */
  lemma RateTextMeans(m: nat, n: nat)
    ensures RateText(m) == RateText(n) <==> PrintAlike(m, n)
  {
    if RateText(m) == RateText(n) {
      var p, q := Millionths(m), Millionths(n);
      var f, g := Text.Numeral(p % 1_000_000, 10, 6), Text.Numeral(q % 1_000_000, 10, 6);
      NoMarks(p / 1_000_000, 0);
      NoMarks(q / 1_000_000, 0);
      NoMarks(p % 1_000_000, 6);
      NoMarks(q % 1_000_000, 6);
      SplitAt('.', Text.Decimal(p / 1_000_000), f + (" " + UnitName(m)), Text.Decimal(q / 1_000_000), g + (" " + UnitName(n)));
      SplitAt(' ', f, UnitName(m), g, UnitName(n));
      Text.NumeralInjective(p / 1_000_000, q / 1_000_000, 10, 0);
      Text.NumeralInjective(p % 1_000_000, q % 1_000_000, 10, 6);
    }
  }

  /** Below a gigabit per second no two rates print alike. */
  lemma SmallRatesDiffer(m: nat, n: nat)
    requires m < 1_000_000_000 && n < 1_000_000_000
    ensures PrintAlike(m, n) <==> m == n
  {
    MillionthsOfSmall(m);
    MillionthsOfSmall(n);
    assert |"bps"| == 3 && |"Kbps"| == 4 && "Kbps"[0] == 'K' && "Mbps"[0] == 'M';
  }

  lemma MillionthsOfSmall(n: nat)
    requires n < 1_000_000_000
    ensures Millionths(n) == n * (if n >= 1_000_000 then 1 else if n >= 1_000 then 1_000 else 1_000_000)
  {
  }

  /** From a gigabit on, and below a terabit, rates print alike if and only if they round to the same kilobit. */
  lemma LargeRatesMeet(m: nat, n: nat)
    requires 1_000_000_000 <= m < 1_000_000_000_000 && 1_000_000_000 <= n < 1_000_000_000_000
    ensures PrintAlike(m, n) <==> (m + 500) / 1_000 == (n + 500) / 1_000
  {
    MillionthsOfLarge(m);
    MillionthsOfLarge(n);
  }

  lemma MillionthsOfLarge(n: nat)
    requires 1_000_000_000 <= n < 1_000_000_000_000
    ensures Millionths(n) == (n + 500) / 1_000
  {
    assert Divisor(n) == 1_000_000_000;
    assert 2 * n * 1_000_000 + 1_000_000_000 == 2_000_000 * (n + 500);
  }

  function CapabilityDoc(c: PreemptionCapability): Json {
    Str(match c case NoCapability => "NULL" case NotPreempt => "NOT_PREEMPT" case MayPreempt => "MAY_PREEMPT")
  }

  function VulnerabilityDoc(v: PreemptionVulnerability): Json {
    Str(match v case NoVulnerability => "NULL" case NotPreemptable => "NOT_PREEMPTABLE" case Preemptable => "PREEMPTABLE")
  }

  // ---------- Allocation and retention priority ----------

  const ARP_NAMES := ["priorityLevel", "preemptCap", "preemptVuln"]

  function ArpSlots(x: Arp): (r: seq<Slot>)
    ensures |r| == |ARP_NAMES|
  {
    [Some(NatDoc(x.priorityLevel)), Some(CapabilityDoc(x.capability)), Some(VulnerabilityDoc(x.vulnerability))]
  }

  function ArpDoc(x: Arp): Json {
    Object(Members(ARP_NAMES, ArpSlots(x)))
  }

  function ArpDiffs(a: Arp, b: Arp): (r: seq<seq<Patch>>)
    ensures |r| == |ARP_NAMES|
  {
    [MandatoryDiff(a.priorityLevel, b.priorityLevel, NatDoc),
     MandatoryDiff(a.capability, b.capability, CapabilityDoc),
     MandatoryDiff(a.vulnerability, b.vulnerability, VulnerabilityDoc)]
  }

  function ArpAttributeDiff(a: Arp, b: Arp): seq<Patch> {
    Assemble(EditsOf(ARP_NAMES, ArpDiffs(a, b)))
  }

  function ArpDiff(a: Option<Arp>, b: Option<Arp>): seq<Patch> {
    StructureDiff(a, b, ArpDoc, if a.Some? && b.Some? then ArpAttributeDiff(a.value, b.value) else [])
  }

  lemma ArpNames()
    ensures GoodNames(ARP_NAMES)
  {
  }

  lemma ArpAttributeDiffApplies(x: Arp, y: Arp)
    ensures ApplyAllToSlot(Some(ArpDoc(x)), ArpAttributeDiff(x, y)) == Some(Some(ArpDoc(y)))
    ensures Relative(ArpAttributeDiff(x, y))
  {
    MandatoryDiffApplies(x.priorityLevel, y.priorityLevel, NatDoc);
    MandatoryDiffApplies(x.capability, y.capability, CapabilityDoc);
    MandatoryDiffApplies(x.vulnerability, y.vulnerability, VulnerabilityDoc);
    ArpNames();
    SmallStructureReaches(map[], ARP_NAMES, ArpSlots(x), ArpSlots(y), ArpDiffs(x, y));
  }

  lemma ArpDiffApplies(a: Option<Arp>, b: Option<Arp>)
    ensures ApplyAllToSlot(SlotOf(a, ArpDoc), ArpDiff(a, b)) == Some(SlotOf(b, ArpDoc))
    ensures Relative(ArpDiff(a, b))
  {
    if a.Some? && b.Some? {
      ArpAttributeDiffApplies(a.value, b.value);
    }
    StructureDiffApplies(a, b, ArpDoc, if a.Some? && b.Some? then ArpAttributeDiff(a.value, b.value) else [], true);
  }

  // ---------- QoS requirements ----------

  const QOS_NAMES := ["5Qi", "guarBitRate", "maxBitRate", "averWindow", "regMbsArp"]

  function QosReqSlots(x: QosReq): (r: seq<Slot>)
    ensures |r| == |QOS_NAMES|
  {
    [Some(NatDoc(x.fiveQi)), SlotOf(x.guaranteedBitRate, BitRateDoc), SlotOf(x.maxBitRate, BitRateDoc),
     SlotOf(x.averagingWindow, NatDoc), SlotOf(x.arp, ArpDoc)]
  }

  function QosReqDoc(x: QosReq): Json {
    Object(Members(QOS_NAMES, QosReqSlots(x)))
  }

  function QosReqDiffs(a: QosReq, b: QosReq): (r: seq<seq<Patch>>)
    ensures |r| == |QOS_NAMES|
  {
    [MandatoryDiff(a.fiveQi, b.fiveQi, NatDoc),
     OptionalDiff(a.guaranteedBitRate, b.guaranteedBitRate, BitRateDoc),
     OptionalDiff(a.maxBitRate, b.maxBitRate, BitRateDoc),
     OptionalDiff(a.averagingWindow, b.averagingWindow, NatDoc),
     ArpDiff(a.arp, b.arp)]
  }

  function QosReqAttributeDiff(a: QosReq, b: QosReq): seq<Patch> {
    Assemble(EditsOf(QOS_NAMES, QosReqDiffs(a, b)))
  }

  function QosReqDiff(a: Option<QosReq>, b: Option<QosReq>): seq<Patch> {
    StructureDiff(a, b, QosReqDoc, if a.Some? && b.Some? then QosReqAttributeDiff(a.value, b.value) else [])
  }

  lemma QosNames()
    ensures GoodNames(QOS_NAMES)
  {
  }

  lemma RatesExact(x: QosReq, y: QosReq)
    ensures var a, d, b := QosReqSlots(x), QosReqDiffs(x, y), QosReqSlots(y);
      Relative(d[1]) && Relative(d[2]) && ExactAt(a, d, b, 1) && ExactAt(a, d, b, 2)
  {
    OptionalDiffApplies(x.guaranteedBitRate, y.guaranteedBitRate, BitRateDoc);
    OptionalDiffApplies(x.maxBitRate, y.maxBitRate, BitRateDoc);
  }

  lemma NumbersExact(x: QosReq, y: QosReq)
    ensures var a, d, b := QosReqSlots(x), QosReqDiffs(x, y), QosReqSlots(y);
      Relative(d[0]) && Relative(d[3]) && ExactAt(a, d, b, 0) && ExactAt(a, d, b, 3)
  {
    MandatoryDiffApplies(x.fiveQi, y.fiveQi, NatDoc);
    OptionalDiffApplies(x.averagingWindow, y.averagingWindow, NatDoc);
  }

  lemma PriorityExact(x: QosReq, y: QosReq)
    ensures var a, d, b := QosReqSlots(x), QosReqDiffs(x, y), QosReqSlots(y);
      Relative(d[4]) && ExactAt(a, d, b, 4)
  {
    ArpDiffApplies(x.arp, y.arp);
  }

  lemma QosReqAttributes(x: QosReq, y: QosReq)
    ensures AllRelative(QosReqDiffs(x, y)) && AllExact(QosReqSlots(x), QosReqDiffs(x, y), QosReqSlots(y))
  {
    NumbersExact(x, y);
    RatesExact(x, y);
    PriorityExact(x, y);
  }

  lemma QosReqAttributeDiffApplies(x: QosReq, y: QosReq)
    ensures ApplyAllToSlot(Some(QosReqDoc(x)), QosReqAttributeDiff(x, y)) == Some(Some(QosReqDoc(y)))
    ensures Relative(QosReqAttributeDiff(x, y))
    ensures forall p :: p in QosReqAttributeDiff(x, y) ==> p.path != WHOLE
  {
    QosReqAttributes(x, y);
    QosNames();
    SmallStructureReaches(map[], QOS_NAMES, QosReqSlots(x), QosReqSlots(y), QosReqDiffs(x, y));
  }

  lemma QosReqDiffApplies(a: Option<QosReq>, b: Option<QosReq>)
    ensures ApplyAllToSlot(SlotOf(a, QosReqDoc), QosReqDiff(a, b)) == Some(SlotOf(b, QosReqDoc))
    ensures Relative(QosReqDiff(a, b))
  {
    if a.Some? && b.Some? {
      QosReqAttributeDiffApplies(a.value, b.value);
    }
    StructureDiffApplies(a, b, QosReqDoc, if a.Some? && b.Some? then QosReqAttributeDiff(a.value, b.value) else [], true);
  }
}
