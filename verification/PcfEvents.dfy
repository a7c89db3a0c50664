/** Event subscriptions of an AF application session: lists of subscriptions and masks of event bits. */
module PcfEvents {
  import opened Options

  /** The events a mask can hold, in the order of the conversion tables, and any other value. */
  datatype AfEvent =
    | AccessTypeChange | AniReport | AppDetection | ChargingCorrelation | EpsFallback | FailedQosUpdate
    | FailedResourcesAllocation | OutOfCredit | PduSessionStatus | PlmnChg | QosMonitoring | QosNotif | RanNasCause
    | ReallocationOfCredit | SatCategoryChg | SuccessfulQosUpdate | SuccessfulResourcesAllocation | TsnBridgeInfo
    | UpPathChgFailure | UsageReport
    | Unlisted

  datatype NotifMethod = EventDetection | OneTime | Periodic | PduSessionRelease | NoMethod

  datatype Subscription = Subscription(event: AfEvent, notifMethod: NotifMethod)

  type Mask = bv32

  const ALL: Mask := 0xFFFFF

  function Bit(e: AfEvent): Mask {
    match e
    case AccessTypeChange => 0x00001
    case AniReport => 0x00002
    case AppDetection => 0x00004
    case ChargingCorrelation => 0x00008
    case UpPathChgFailure => 0x00010
    case EpsFallback => 0x00020
    case FailedQosUpdate => 0x00040
    case FailedResourcesAllocation => 0x00080
    case OutOfCredit => 0x00100
    case PduSessionStatus => 0x00200
    case PlmnChg => 0x00400
    case QosNotif => 0x00800
    case QosMonitoring => 0x01000
    case RanNasCause => 0x02000
    case ReallocationOfCredit => 0x04000
    case SatCategoryChg => 0x08000
    case SuccessfulQosUpdate => 0x10000
    case SuccessfulResourcesAllocation => 0x20000
    case TsnBridgeInfo => 0x40000
    case UsageReport => 0x80000
    case Unlisted => 0
  }

  const TABLE := [AccessTypeChange, AniReport, AppDetection, ChargingCorrelation, EpsFallback, FailedQosUpdate,
                  FailedResourcesAllocation, OutOfCredit, PduSessionStatus, PlmnChg, QosMonitoring, QosNotif, RanNasCause,
                  ReallocationOfCredit, SatCategoryChg, SuccessfulQosUpdate, SuccessfulResourcesAllocation, TsnBridgeInfo,
                  UpPathChgFailure, UsageReport]

  predicate Meets(x: Mask, y: Mask) {
    x & y != 0
  }

  predicate Has(mask: Mask, e: AfEvent) {
    Meets(mask, Bit(e))
  }

  // ---------- Bits ----------

  lemma TableStart()
    ensures var t := TABLE;
      && t[0] == AccessTypeChange && t[1] == AniReport && t[2] == AppDetection && t[3] == ChargingCorrelation
      && t[4] == EpsFallback && t[5] == FailedQosUpdate && t[6] == FailedResourcesAllocation && t[7] == OutOfCredit
      && t[8] == PduSessionStatus && t[9] == PlmnChg
  {
  }

  lemma TableEnd()
    ensures var t := TABLE;
      && t[10] == QosMonitoring && t[11] == QosNotif && t[12] == RanNasCause && t[13] == ReallocationOfCredit
      && t[14] == SatCategoryChg && t[15] == SuccessfulQosUpdate && t[16] == SuccessfulResourcesAllocation
      && t[17] == TsnBridgeInfo && t[18] == UpPathChgFailure && t[19] == UsageReport
  {
  }

  lemma TableListsAll(e: AfEvent)
    ensures e in TABLE <==> !e.Unlisted?
  {
    TableStart();
    TableEnd();
  }

  lemma BitsApart(e: AfEvent, f: AfEvent)
    ensures Has(Bit(e), f) <==> e == f && !e.Unlisted?
  {
  }

  lemma BitInAll(e: AfEvent)
    ensures Bit(e) & ALL == Bit(e)
  {
  }

  lemma OrMeets(x: Mask, y: Mask, b: Mask)
    ensures Meets(x | y, b) <==> Meets(x, b) || Meets(y, b)
  {
    OrAnd(x, y, b);
    OrIsZero(x & b, y & b);
  }

  lemma OrAnd(x: Mask, y: Mask, b: Mask)
    ensures (x | y) & b == (x & b) | (y & b)
  {
  }

  lemma OrIsZero(x: Mask, y: Mask)
    ensures x | y == 0 <==> x == 0 && y == 0
  {
  }

  lemma OrHas(x: Mask, y: Mask, e: AfEvent)
    ensures Has(x | y, e) <==> Has(x, e) || Has(y, e)
  {
    OrMeets(x, y, Bit(e));
  }

  lemma AgreeAt(x: Mask, y: Mask, e: AfEvent, b: Mask)
    requires Agree(x, y) && Bit(e) == b
    ensures Meets(x, b) == Meets(y, b)
  {
    assert Has(x, e) == Has(y, e);
  }

  ghost predicate Agree(x: Mask, y: Mask) {
    forall e: AfEvent :: Has(x, e) == Has(y, e)
  }

  lemma AgreeOnFirst(x: Mask, y: Mask)
    requires Agree(x, y)
    ensures Meets(x, 0x1) == Meets(y, 0x1)
    ensures Meets(x, 0x2) == Meets(y, 0x2)
    ensures Meets(x, 0x4) == Meets(y, 0x4)
    ensures Meets(x, 0x8) == Meets(y, 0x8)
    ensures Meets(x, 0x10) == Meets(y, 0x10)
  {
    AgreeAt(x, y, AccessTypeChange, 0x1);
    AgreeAt(x, y, AniReport, 0x2);
    AgreeAt(x, y, AppDetection, 0x4);
    AgreeAt(x, y, ChargingCorrelation, 0x8);
    AgreeAt(x, y, UpPathChgFailure, 0x10);
  }

  lemma AgreeOnSecond(x: Mask, y: Mask)
    requires Agree(x, y)
    ensures Meets(x, 0x20) == Meets(y, 0x20)
    ensures Meets(x, 0x40) == Meets(y, 0x40)
    ensures Meets(x, 0x80) == Meets(y, 0x80)
    ensures Meets(x, 0x100) == Meets(y, 0x100)
    ensures Meets(x, 0x200) == Meets(y, 0x200)
  {
    AgreeAt(x, y, EpsFallback, 0x20);
    AgreeAt(x, y, FailedQosUpdate, 0x40);
    AgreeAt(x, y, FailedResourcesAllocation, 0x80);
    AgreeAt(x, y, OutOfCredit, 0x100);
    AgreeAt(x, y, PduSessionStatus, 0x200);
  }

  lemma AgreeOnThird(x: Mask, y: Mask)
    requires Agree(x, y)
    ensures Meets(x, 0x400) == Meets(y, 0x400)
    ensures Meets(x, 0x800) == Meets(y, 0x800)
    ensures Meets(x, 0x1000) == Meets(y, 0x1000)
    ensures Meets(x, 0x2000) == Meets(y, 0x2000)
    ensures Meets(x, 0x4000) == Meets(y, 0x4000)
  {
    AgreeAt(x, y, PlmnChg, 0x400);
    AgreeAt(x, y, QosNotif, 0x800);
    AgreeAt(x, y, QosMonitoring, 0x1000);
    AgreeAt(x, y, RanNasCause, 0x2000);
    AgreeAt(x, y, ReallocationOfCredit, 0x4000);
  }

  lemma AgreeOnFourth(x: Mask, y: Mask)
    requires Agree(x, y)
    ensures Meets(x, 0x8000) == Meets(y, 0x8000)
    ensures Meets(x, 0x10000) == Meets(y, 0x10000)
    ensures Meets(x, 0x20000) == Meets(y, 0x20000)
    ensures Meets(x, 0x40000) == Meets(y, 0x40000)
    ensures Meets(x, 0x80000) == Meets(y, 0x80000)
  {
    AgreeAt(x, y, SatCategoryChg, 0x8000);
    AgreeAt(x, y, SuccessfulQosUpdate, 0x10000);
    AgreeAt(x, y, SuccessfulResourcesAllocation, 0x20000);
    AgreeAt(x, y, TsnBridgeInfo, 0x40000);
    AgreeAt(x, y, UsageReport, 0x80000);
  }

  /** A mask of defined bits is determined by the events it has. */
  lemma SameEventsSameMask(x: Mask, y: Mask)
    requires x & ALL == x && y & ALL == y && Agree(x, y)
    ensures x == y
  {
    AgreeOnFirst(x, y);
    AgreeOnSecond(x, y);
    AgreeOnThird(x, y);
    AgreeOnFourth(x, y);
    TwentyBits(x, y);
  }

  lemma TwentyBits(x: Mask, y: Mask)
    requires x & 0xFFFFF == x && y & 0xFFFFF == y
    requires Meets(x, 0x1) == Meets(y, 0x1) && Meets(x, 0x2) == Meets(y, 0x2)
    requires Meets(x, 0x4) == Meets(y, 0x4) && Meets(x, 0x8) == Meets(y, 0x8)
    requires Meets(x, 0x10) == Meets(y, 0x10) && Meets(x, 0x20) == Meets(y, 0x20)
    requires Meets(x, 0x40) == Meets(y, 0x40) && Meets(x, 0x80) == Meets(y, 0x80)
    requires Meets(x, 0x100) == Meets(y, 0x100) && Meets(x, 0x200) == Meets(y, 0x200)
    requires Meets(x, 0x400) == Meets(y, 0x400) && Meets(x, 0x800) == Meets(y, 0x800)
    requires Meets(x, 0x1000) == Meets(y, 0x1000) && Meets(x, 0x2000) == Meets(y, 0x2000)
    requires Meets(x, 0x4000) == Meets(y, 0x4000) && Meets(x, 0x8000) == Meets(y, 0x8000)
    requires Meets(x, 0x10000) == Meets(y, 0x10000) && Meets(x, 0x20000) == Meets(y, 0x20000)
    requires Meets(x, 0x40000) == Meets(y, 0x40000) && Meets(x, 0x80000) == Meets(y, 0x80000)
    ensures x == y
  {
  }

  lemma AllHas(mask: Mask, e: AfEvent)
    ensures Has(mask & ALL, e) <==> Has(mask, e)
  {
    BitInAll(e);
    AndAnd(mask, ALL, Bit(e));
  }

  lemma AndAnd(x: Mask, y: Mask, b: Mask)
    requires b & y == b
    ensures (x & y) & b == x & b
  {
  }

  lemma OrWithin(x: Mask, y: Mask, all: Mask)
    requires x & all == x && y & all == y
    ensures (x | y) & all == x | y
  {
  }

  // ---------- From a list of events to a mask ----------

  function MaskOf(events: seq<AfEvent>): Mask {
    if events == [] then 0 else MaskOf(events[..|events| - 1]) | Bit(events[|events| - 1])
  }

  lemma HasMore(mask: Mask, f: AfEvent, e: AfEvent)
    ensures Has(mask | Bit(f), e) <==> Has(mask, e) || (e == f && !e.Unlisted?)
  {
    OrHas(mask, Bit(f), e);
    BitsApart(f, e);
  }

  lemma WithinMore(mask: Mask, f: AfEvent)
    requires mask & ALL == mask
    ensures (mask | Bit(f)) & ALL == mask | Bit(f)
  {
    BitInAll(f);
    OrWithin(mask, Bit(f), ALL);
  }

  lemma MaskOfMore(events: seq<AfEvent>)
    requires events != []
    ensures var init, last := events[..|events| - 1], events[|events| - 1];
      events == init + [last] && MaskOf(events) == MaskOf(init) | Bit(last)
  {
  }

  lemma LastHas(events: seq<AfEvent>, e: AfEvent)
    requires events != []
    ensures Has(MaskOf(events), e) <==>
            Has(MaskOf(events[..|events| - 1]), e) || (e == events[|events| - 1] && !e.Unlisted?)
  {
    MaskOfMore(events);
    HasMore(MaskOf(events[..|events| - 1]), events[|events| - 1], e);
  }

  lemma LastListed(events: seq<AfEvent>, e: AfEvent)
    requires events != []
    ensures e in events <==> e in events[..|events| - 1] || e == events[|events| - 1]
  {
    assert events == events[..|events| - 1] + [events[|events| - 1]];
  }

  /** The events of a list, whatever their order and however often they come; values that have no bit are dropped. */
  lemma {:induction false} MaskOfHas(events: seq<AfEvent>, e: AfEvent)
    ensures Has(MaskOf(events), e) <==> e in events && !e.Unlisted?
  {
    if events == [] {
      assert MaskOf(events) == 0;
    } else {
      MaskOfHas(events[..|events| - 1], e);
      LastHas(events, e);
      LastListed(events, e);
    }
  }

  lemma {:induction false} MaskOfWithin(events: seq<AfEvent>)
    ensures MaskOf(events) & ALL == MaskOf(events)
  {
    if events != [] {
      MaskOfWithin(events[..|events| - 1]);
      WithinMore(MaskOf(events[..|events| - 1]), events[|events| - 1]);
    }
  }

  lemma SameEvents(a: seq<AfEvent>, b: seq<AfEvent>)
    requires forall e :: e in a && !e.Unlisted? <==> e in b && !e.Unlisted?
    ensures MaskOf(a) == MaskOf(b)
  {
    forall e: AfEvent
      ensures Has(MaskOf(a), e) == Has(MaskOf(b), e)
    {
      MaskOfHas(a, e);
      MaskOfHas(b, e);
    }
    MaskOfWithin(a);
    MaskOfWithin(b);
    SameEventsSameMask(MaskOf(a), MaskOf(b));
  }

  function Events(list: seq<Subscription>): (r: seq<AfEvent>)
    ensures |r| == |list|
  {
    seq(|list|, i requires 0 <= i < |list| => list[i].event)
  }

  /** The fold over a list that may be missing. */
  method FoldToMask(list: Option<seq<Subscription>>) returns (mask: Mask)
    ensures mask == if list.Some? then MaskOf(Events(list.value)) else 0
  {
    mask := 0;
    if list.Some? {
      var events := Events(list.value);
      for i := 0 to |list.value|
        invariant mask == MaskOf(events[..i])
      {
        assert events[..i + 1][..i] == events[..i];
        mask := mask | Bit(list.value[i].event);
      }
      assert events[..|events|] == events;
    }
  }

  /** The events found so far by the nested loops: the first i of the table, and the next one among the first j nodes. */
  ghost predicate Collected(found: seq<AfEvent>, events: seq<AfEvent>, i: nat, j: nat)
    requires i <= |TABLE| && j <= |events|
  {
    forall e: AfEvent :: e in found <==> (e in TABLE[..i] && e in events) || (i < |TABLE| && e == TABLE[i] && e in events[..j])
  }

  lemma CollectNode(found: seq<AfEvent>, events: seq<AfEvent>, i: nat, j: nat)
    requires i < |TABLE| && j < |events| && Collected(found, events, i, j)
    ensures Collected(if events[j] == TABLE[i] then found + [TABLE[i]] else found, events, i, j + 1)
  {
    assert events[..j + 1] == events[..j] + [events[j]];
  }

  lemma CollectRow(found: seq<AfEvent>, events: seq<AfEvent>, i: nat)
    requires i < |TABLE| && Collected(found, events, i, |events|)
    ensures Collected(found, events, i + 1, 0)
  {
    assert events[..|events|] == events;
    assert TABLE[..i + 1] == TABLE[..i] + [TABLE[i]];
  }

  lemma CollectAll(found: seq<AfEvent>, events: seq<AfEvent>)
    requires Collected(found, events, |TABLE|, 0)
    ensures MaskOf(found) == MaskOf(events)
  {
    assert TABLE[..|TABLE|] == TABLE;
    forall e: AfEvent
      ensures e in found && !e.Unlisted? <==> e in events && !e.Unlisted?
    {
      TableListsAll(e);
    }
    SameEvents(found, events);
  }

  lemma MaskOfSnoc(events: seq<AfEvent>, e: AfEvent)
    ensures MaskOf(events + [e]) == MaskOf(events) | Bit(e)
  {
    assert (events + [e])[..|events|] == events;
  }

  /** The same mask by nested loops over the table and the list. */
  method NestedToMask(list: seq<Subscription>) returns (mask: Mask)
    ensures mask == MaskOf(Events(list))
  {
    ghost var events := Events(list);
    ghost var found: seq<AfEvent> := [];
    mask := 0;
    for i := 0 to |TABLE|
      invariant mask == MaskOf(found) && Collected(found, events, i, 0)
    {
      for j := 0 to |list|
        invariant mask == MaskOf(found) && Collected(found, events, i, j)
      {
        CollectNode(found, events, i, j);
        if list[j].event == TABLE[i] {
          MaskOfSnoc(found, TABLE[i]);
          mask := mask | Bit(TABLE[i]);
          found := found + [TABLE[i]];
        }
      }
      CollectRow(found, events, i);
    }
    CollectAll(found, events);
  }

  // ---------- From a mask to a list of events ----------

  function Selected(table: seq<AfEvent>, mask: Mask): seq<Subscription> {
    if table == [] then []
    else
      var last := table[|table| - 1];
      Selected(table[..|table| - 1], mask) + (if Has(mask, last) then [Subscription(last, EventDetection)] else [])
  }

  method EventsSubscCreate(mask: Mask) returns (list: seq<Subscription>)
    ensures list == Selected(TABLE, mask)
  {
    list := [];
    for i := 0 to |TABLE|
      invariant list == Selected(TABLE[..i], mask)
    {
      SelectedMore(TABLE, mask, i);
      if Has(mask, TABLE[i]) {
        list := list + [Subscription(TABLE[i], EventDetection)];
      }
    }
    assert TABLE[..|TABLE|] == TABLE;
  }

  lemma SelectedMore(table: seq<AfEvent>, mask: Mask, i: nat)
    requires i < |table|
    ensures Selected(table[..i + 1], mask) ==
            Selected(table[..i], mask) + (if Has(mask, table[i]) then [Subscription(table[i], EventDetection)] else [])
  {
    assert table[..i + 1][..i] == table[..i];
  }

  lemma {:induction false} SelectedAre(table: seq<AfEvent>, mask: Mask, s: Subscription)
    ensures s in Selected(table, mask) <==> s.event in table && Has(mask, s.event) && s.notifMethod.EventDetection?
  {
    if table != [] {
      var init := table[..|table| - 1];
      SelectedAre(init, mask, s);
      assert table == init + [table[|table| - 1]];
    }
  }

  lemma EventsOfList(list: seq<Subscription>, e: AfEvent)
    ensures e in Events(list) <==> exists m :: Subscription(e, m) in list
  {
    if e in Events(list) {
      var i :| 0 <= i < |list| && Events(list)[i] == e;
      assert list[i] == Subscription(e, list[i].notifMethod);
    }
    if m :| Subscription(e, m) in list {
      var i :| 0 <= i < |list| && list[i] == Subscription(e, m);
      assert Events(list)[i] == e;
    }
  }

  /** From a mask to a list and back: the mask restricted to the defined bits. */
  lemma RoundTrip(mask: Mask)
    ensures MaskOf(Events(Selected(TABLE, mask))) == mask & ALL
  {
    var events := Events(Selected(TABLE, mask));
    forall e: AfEvent
      ensures Has(MaskOf(events), e) == Has(mask & ALL, e)
    {
      MaskOfHas(events, e);
      EventsOfList(Selected(TABLE, mask), e);
      SelectedAre(TABLE, mask, Subscription(e, EventDetection));
      if m :| Subscription(e, m) in Selected(TABLE, mask) {
        SelectedAre(TABLE, mask, Subscription(e, m));
      }
      TableListsAll(e);
      AllHas(mask, e);
    }
    MaskOfWithin(events);
    AndAnd(mask, ALL, ALL);
    SameEventsSameMask(MaskOf(events), mask & ALL);
  }

  // ---------- The bits ----------

  /** The events in the order of their bits. */
  const BY_BIT := [AccessTypeChange, AniReport, AppDetection, ChargingCorrelation, UpPathChgFailure, EpsFallback, FailedQosUpdate,
                   FailedResourcesAllocation, OutOfCredit, PduSessionStatus, PlmnChg, QosNotif, QosMonitoring, RanNasCause,
                   ReallocationOfCredit, SatCategoryChg, SuccessfulQosUpdate, SuccessfulResourcesAllocation, TsnBridgeInfo,
                   UsageReport]

  function Doubled(i: nat): nat {
    if i == 0 then 1 else 2 * Doubled(i - 1)
  }

  lemma LowBits()
    ensures var t := BY_BIT;
      && Bit(t[0]) as int == 1 && Bit(t[1]) as int == 2 && Bit(t[2]) as int == 4 && Bit(t[3]) as int == 8
      && Bit(t[4]) as int == 16 && Bit(t[5]) as int == 32 && Bit(t[6]) as int == 64 && Bit(t[7]) as int == 128
      && Bit(t[8]) as int == 256 && Bit(t[9]) as int == 512
  {
  }

  lemma HighBits()
    ensures var t := BY_BIT;
      && Bit(t[10]) as int == 1024 && Bit(t[11]) as int == 2048 && Bit(t[12]) as int == 4096 && Bit(t[13]) as int == 8192
      && Bit(t[14]) as int == 16384 && Bit(t[15]) as int == 32768 && Bit(t[16]) as int == 65536 && Bit(t[17]) as int == 131072
      && Bit(t[18]) as int == 262144 && Bit(t[19]) as int == 524288
  {
  }

  lemma Doublings()
    ensures Doubled(0) == 1 && Doubled(1) == 2 && Doubled(2) == 4 && Doubled(3) == 8 && Doubled(4) == 16 && Doubled(5) == 32
    ensures Doubled(6) == 64 && Doubled(7) == 128 && Doubled(8) == 256 && Doubled(9) == 512 && Doubled(10) == 1024
    ensures Doubled(11) == 2048 && Doubled(12) == 4096 && Doubled(13) == 8192 && Doubled(14) == 16384 && Doubled(15) == 32768
    ensures Doubled(16) == 65536 && Doubled(17) == 131072 && Doubled(18) == 262144 && Doubled(19) == 524288
  {
  }

  /** Each event has the bit of its place in the order, and a value outside the tables has none. */
  lemma BitsInOrder(i: nat)
    requires i < |BY_BIT|
    ensures Bit(BY_BIT[i]) as int == Doubled(i) && Bit(Unlisted) == 0
  {
    LowBits();
    HighBits();
    Doublings();
    if i < 10 {
      assert i == 0 || i == 1 || i == 2 || i == 3 || i == 4 || i == 5 || i == 6 || i == 7 || i == 8 || i == 9;
    } else {
      assert i == 10 || i == 11 || i == 12 || i == 13 || i == 14 || i == 15 || i == 16 || i == 17 || i == 18 || i == 19;
    }
  }

  // ---------- The order of a list made of a mask ----------

  /** The list of two tables after each other is the two lists after each other. */
  lemma {:induction false} SelectedInOrder(x: seq<AfEvent>, y: seq<AfEvent>, mask: Mask)
    ensures Selected(x + y, mask) == Selected(x, mask) + Selected(y, mask)
  {
    if y == [] {
      assert x + y == x;
    } else {
      assert (x + y)[..|x + y| - 1] == x + y[..|y| - 1];
      SelectedInOrder(x, y[..|y| - 1], mask);
    }
  }
}
