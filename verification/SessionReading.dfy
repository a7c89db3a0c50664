/**
 Reading the document of a session back: the identifiers of areas and cells, the components, and the attributes of the
 session itself. The result is what the session sends.
 */
module SessionReading {
  import opened Options
  import opened JsonDocument
  import opened JsonPatch
  import opened Structure
  import opened ListDiff
  import opened QosRequirements
  import opened MediaComponents
  import opened ServiceInfo
  import opened ServiceAreas
  import opened SessionDiff
  import opened Reconciler
  import opened DocumentReading
  import Text

  // ---------- Networks, areas and cells ----------

  function ReadHex(j: Json, digits: nat): Option<nat> {
    var s :- ReadText(j);
    ReadNumeral(s, 16, digits)
  }

  function ReadSix(j: Json): Option<nat> {
    ReadHex(j, 6)
  }

  function ReadTac(j: Json): Option<Tac> {
    var n :- ReadHex(j, 4);
    if n < 0x100_0000 then Some(n) else None
  }

  function ReadCell(j: Json): Option<CellId> {
    var n :- ReadHex(j, 9);
    if n < 0x10_0000_0000 then Some(n) else None
  }

  /** Three digits for the country; for the network three, or two below a hundred. */
  function ReadPlmn(j: Json): Option<Plmn> {
    if !j.Object? then None
    else
      var mcc :- Required(j.members, "mcc", ReadText);
      var mnc :- Required(j.members, "mnc", ReadText);
      var c :- ReadNumeral(mcc, 10, 3);
      var n :- ReadNumeral(mnc, 10, |mnc|);
      if c < 1000 && n < 1000 && |mnc| == (if n < 100 then 2 else 3) then Some(Plmn(c, n)) else None
  }

  function ReadNetworkId(j: Json): Option<NetworkId> {
    var n :- ReadHex(j, 11);
    if n < 0x1000_0000_0000 then Some(n) else None
  }

  function ReadTai(j: Json): Option<Tai> {
    if !j.Object? then None
    else
      var plmn :- Required(j.members, "plmnId", ReadPlmn);
      var tac :- Required(j.members, "tac", ReadTac);
      var nid :- Optional(j.members, "nid", ReadNetworkId);
      Some(Tai(plmn, tac, nid))
  }

  function ReadNcgi(j: Json): Option<Ncgi> {
    if !j.Object? then None
    else
      var plmn :- Required(j.members, "plmnId", ReadPlmn);
      var cell :- Required(j.members, "nrCellId", ReadCell);
      var nid :- Optional(j.members, "nid", ReadNetworkId);
      Some(Ncgi(plmn, cell, nid))
  }

  function ReadNcgiTai(j: Json): Option<NcgiTai> {
    if !j.Object? || "cellList" !in j.members || !j.members["cellList"].Array? then None
    else
      var tai :- Required(j.members, "tai", ReadTai);
      var cells :- ReadItems(j.members["cellList"].items, ReadNcgi);
      Some(NcgiTai(tai, cells))
  }

  function ReadArea(j: Json): Option<Area> {
    if !j.Object? then None
    else
      var ncgiTais :- ReadList(j.members, "ncgiList", ReadNcgiTai);
      var tais :- ReadList(j.members, "taiList", ReadTai);
      Some(Area(ncgiTais, tais))
  }

  function ReadCivic(j: Json): Option<Civic> {
    if j.Object? && forall k :: k in j.members ==> j.members[k].Str?
    then Some(map k | k in j.members :: j.members[k].s) else None
  }

  function ReadExt(j: Json): Option<ExtArea> {
    if !j.Object? then None
    else
      var civics :- ReadList(j.members, "civicAddressList", ReadCivic);
      Some(ExtArea(civics))
  }

  lemma HexReads(n: nat, digits: nat)
    ensures ReadHex(HexDoc(n, digits), digits) == Some(n)
  {
    NumeralReads(n, 16, digits);
  }

  lemma {:induction false} DecimalWidth(n: nat, w: nat)
    requires n < 1000 && (w == 3 || (w == 2 && n < 100))
    ensures |Text.Numeral(n, 10, w)| == w
  {
    assert RateReading.Power(10, 1) == 10 && RateReading.Power(10, 2) == 100 && RateReading.Power(10, 3) == 1_000;
    RateReading.NumeralWidth(n, w);
  }

  lemma PlmnReads(p: Plmn)
    ensures ReadPlmn(PlmnDoc(p)) == Some(p)
  {
    var m, w := PlmnDoc(p).members, if p.mnc < 100 then 2 else 3;
    assert Member(m, "mcc") == Some(Str(Text.Numeral(p.mcc, 10, 3))) && Member(m, "mnc") == Some(Str(Text.Numeral(p.mnc, 10, w)));
    DecimalWidth(p.mnc, w);
    NumeralReads(p.mcc, 10, 3);
    NumeralReads(p.mnc, 10, w);
  }

  lemma NetworkIdReads(n: NetworkId)
    ensures ReadNetworkId(NetworkIdDoc(n)) == Some(n)
  {
    HexReads(n, 11);
  }

  lemma NidAttributeReads(m: map<string, Json>, x: Option<NetworkId>)
    requires Member(m, "nid") == SlotOf(x, NetworkIdDoc)
    ensures Optional(m, "nid", ReadNetworkId) == Some(x)
  {
    if x.Some? {
      NetworkIdReads(x.value);
    }
  }

  lemma TaiMembers(x: Tai)
    ensures var m := Members(TAI_NAMES, TaiSlots(x));
      && Member(m, "plmnId") == Some(PlmnDoc(x.plmn)) && Member(m, "tac") == Some(HexDoc(x.tac, 4))
      && Member(m, "nid") == SlotOf(x.nid, NetworkIdDoc)
  {
    AreaNames();
    assert TAI_NAMES[0] == "plmnId" && TAI_NAMES[1] == "tac" && TAI_NAMES[2] == "nid";
    MembersAt(map[], TAI_NAMES, TaiSlots(x), 0);
    MembersAt(map[], TAI_NAMES, TaiSlots(x), 1);
    MembersAt(map[], TAI_NAMES, TaiSlots(x), 2);
  }

  lemma TaiReads(x: Tai)
    ensures ReadTai(TaiDoc(x)) == Some(x)
  {
    TaiMembers(x);
    PlmnReads(x.plmn);
    HexReads(x.tac, 4);
    NidAttributeReads(Members(TAI_NAMES, TaiSlots(x)), x.nid);
  }

  lemma NcgiMembers(x: Ncgi)
    ensures var m := Members(NCGI_NAMES, NcgiSlots(x));
      && Member(m, "plmnId") == Some(PlmnDoc(x.plmn)) && Member(m, "nrCellId") == Some(HexDoc(x.cell, 9))
      && Member(m, "nid") == SlotOf(x.nid, NetworkIdDoc)
  {
    AreaNames();
    assert NCGI_NAMES[0] == "plmnId" && NCGI_NAMES[1] == "nrCellId" && NCGI_NAMES[2] == "nid";
    MembersAt(map[], NCGI_NAMES, NcgiSlots(x), 0);
    MembersAt(map[], NCGI_NAMES, NcgiSlots(x), 1);
    MembersAt(map[], NCGI_NAMES, NcgiSlots(x), 2);
  }

  lemma NcgiReads(x: Ncgi)
    ensures ReadNcgi(NcgiDoc(x)) == Some(x)
  {
    NcgiMembers(x);
    PlmnReads(x.plmn);
    HexReads(x.cell, 9);
    NidAttributeReads(Members(NCGI_NAMES, NcgiSlots(x)), x.nid);
  }

  lemma NcgiTaiReads(x: NcgiTai)
    ensures ReadNcgiTai(NcgiTaiDoc(x)) == Some(x)
  {
    var m := NcgiTaiDoc(x).members;
    assert Member(m, "tai") == Some(TaiDoc(x.tai)) && m["cellList"] == Array(Docs(x.cells, NcgiDoc));
    TaiReads(x.tai);
    forall i | 0 <= i < |x.cells|
      ensures ReadNcgi(NcgiDoc(x.cells[i])) == Some(x.cells[i])
    {
      NcgiReads(x.cells[i]);
    }
    ItemsRead(x.cells, NcgiDoc, ReadNcgi, (c: Ncgi) => c);
    assert Mapped(x.cells, (c: Ncgi) => c) == x.cells;
  }

  lemma CivicReads(x: Civic)
    ensures ReadCivic(CivicDoc(x)) == Some(x)
  {
    var m := CivicDoc(x).members;
    var r := ReadCivic(CivicDoc(x)).value;
    assert m.Keys == x.Keys && r.Keys == x.Keys;
    assert r == x;
  }

  lemma NcgiTaisRead(m: map<string, Json>, s: seq<NcgiTai>)
    requires Member(m, "ncgiList") == ListSlot(s, NcgiTaiDoc)
    ensures ReadList(m, "ncgiList", ReadNcgiTai) == Some(s)
  {
    forall i | 0 <= i < |s|
      ensures ReadNcgiTai(NcgiTaiDoc(s[i])) == Some(s[i])
    {
      NcgiTaiReads(s[i]);
    }
    ListReads(m, "ncgiList", s, NcgiTaiDoc, ReadNcgiTai, (x: NcgiTai) => x);
    assert Mapped(s, (x: NcgiTai) => x) == s;
  }

  lemma TaisRead(m: map<string, Json>, s: seq<Tai>)
    requires Member(m, "taiList") == ListSlot(s, TaiDoc)
    ensures ReadList(m, "taiList", ReadTai) == Some(s)
  {
    forall i | 0 <= i < |s|
      ensures ReadTai(TaiDoc(s[i])) == Some(s[i])
    {
      TaiReads(s[i]);
    }
    ListReads(m, "taiList", s, TaiDoc, ReadTai, (x: Tai) => x);
    assert Mapped(s, (x: Tai) => x) == s;
  }

  lemma AreaReads(x: Area)
    ensures ReadArea(AreaDoc(x)) == Some(x)
  {
    var m := Members(AREA_NAMES, AreaSlots(x));
    AreaNames();
    assert AREA_NAMES[0] == "ncgiList" && AREA_NAMES[1] == "taiList";
    MembersAt(map[], AREA_NAMES, AreaSlots(x), 0);
    MembersAt(map[], AREA_NAMES, AreaSlots(x), 1);
    NcgiTaisRead(m, x.ncgiTais);
    TaisRead(m, x.tais);
  }

  lemma ExtReads(x: ExtArea)
    ensures ReadExt(ExtDoc(x)) == Some(x)
  {
    var m := Members(EXT_NAMES, ExtSlots(x));
    AreaNames();
    assert EXT_NAMES[0] == "civicAddressList";
    MembersAt(map[], EXT_NAMES, ExtSlots(x), 0);
    forall i | 0 <= i < |x.civics|
      ensures ReadCivic(CivicDoc(x.civics[i])) == Some(x.civics[i])
    {
      CivicReads(x.civics[i]);
    }
    ListReads(m, "civicAddressList", x.civics, CivicDoc, ReadCivic, (c: Civic) => c);
    assert Mapped(x.civics, (c: Civic) => c) == x.civics;
  }

  // ---------- Service information ----------

  /** A whole number without leading zeros, possibly negative. */
  function ReadInt(s: string): Option<int> {
    if s != "" && s[0] == '-' then
      var n :- ReadNumeral(s[1..], 10, 0);
      if n > 0 then Some(-(n as int)) else None
    else
      var n :- ReadNumeral(s, 10, 0);
      Some(n)
  }

  lemma IntReads(i: int)
    ensures ReadInt(CompKey(i)) == Some(i)
  {
    NumeralReads(if i < 0 then -i else i, 10, 0);
    Text.NumeralReadsBack(if i < 0 then -i else i, 10, 0);
    assert Text.DigitValue('-') == 16;
    if i < 0 {
      assert CompKey(i)[0] == '-' && CompKey(i)[1..] == Text.Decimal(-i);
    }
  }

  /** Every member is a component under its printed id. */
  predicate IsHash(j: Json) {
    j.Object? && forall key :: key in j.members ==>
      ReadInt(key).Some? && key == CompKey(ReadInt(key).value) && ReadComp(j.members[key]).Some?
  }

  function ReadComps(j: Json): Option<Comps> {
    if !IsHash(j) then None
    else Some(HashOf(j.members))
  }

  function ShownComps(m: Comps): Comps {
    map k | k in m :: ShownComp(m[k])
  }

  lemma CompReadsAt(m: Comps, k: int)
    requires k in m
    ensures var members := CompsMembers(m);
      && CompKey(k) in members && ReadInt(CompKey(k)) == Some(k)
      && ReadComp(members[CompKey(k)]) == Some(ShownComp(m[k]))
  {
    IntReads(k);
    CompReads(m[k]);
    MemberOfComps(m, k);
  }

  lemma KeysOfComps(m: Comps)
    ensures forall key :: key in CompsMembers(m) ==> exists k :: k in m && key == CompKey(k)
  {
  }

  lemma CompsAreHash(m: Comps)
    ensures IsHash(Object(CompsMembers(m)))
    ensures forall key :: key in CompsMembers(m) ==> ReadInt(key).value in m && ReadComp(CompsMembers(m)[key]).value == ShownComp(m[ReadInt(key).value])
  {
    KeysOfComps(m);
    forall key | key in CompsMembers(m)
      ensures ReadInt(key).Some? && key == CompKey(ReadInt(key).value) && ReadInt(key).value in m
      ensures ReadComp(CompsMembers(m)[key]) == Some(ShownComp(m[ReadInt(key).value]))
    {
      var k :| k in m && key == CompKey(k);
      CompReadsAt(m, k);
    }
  }

  /** The hash that is read from a document. */
  function HashOf(members: map<string, Json>): Comps
    requires IsHash(Object(members))
  {
    map key | key in members :: ReadInt(key).value := ReadComp(members[key]).value
  }

  lemma HashHas(m: Comps, k: int)
    requires IsHash(Object(CompsMembers(m)))
    ensures k in HashOf(CompsMembers(m)) <==> k in m
    ensures k in m ==> HashOf(CompsMembers(m))[k] == ShownComp(m[k])
  {
    CompsAreHash(m);
    if k in m {
      CompReadsAt(m, k);
      assert CompKey(k) in CompsMembers(m);
    }
  }

  lemma CompsRead(m: Comps)
    ensures ReadComps(Object(CompsMembers(m))) == Some(ShownComps(m))
  {
    CompsAreHash(m);
    var r := HashOf(CompsMembers(m));
    forall k: int
      ensures Agree(r, m, k)
    {
      HashHas(m, k);
    }
    AllAgree(r, m);
  }

  predicate Agree(r: Comps, m: Comps, k: int) {
    (k in r <==> k in m) && (k in r && k in m ==> r[k] == ShownComp(m[k]))
  }

  lemma AllAgree(r: Comps, m: Comps)
    requires forall k: int :: Agree(r, m, k)
    ensures r == ShownComps(m)
  {
    forall k: int
      ensures k in r.Keys <==> k in ShownComps(m).Keys
      ensures k in r.Keys && k in ShownComps(m).Keys ==> r[k] == ShownComps(m)[k]
    {
      assert Agree(r, m, k);
    }
    assert r.Keys == ShownComps(m).Keys;
  }

  // ---------- The session ----------

  function ReadInfo(j: Json): Option<Info> {
    if !j.Object? then None
    else
      var comps :- Optional(j.members, "mbsMediaComps", ReadComps);
      var priority :- Optional(j.members, "mbsSdfResPrio", ReadPriority);
      var appId :- Optional(j.members, "afAppId", ReadText);
      var ambr :- Optional(j.members, "mbsSessionAmbr", ReadBitRate);
      Some(Info(comps, if priority.Some? then priority.value else 0, appId, ambr))
  }

  /** A hash without components is not sent. */
  function ShownInfo(x: Info): Info {
    Info(if x.comps.Some? && x.comps.value != map[] then Some(ShownComps(x.comps.value)) else None,
         x.reservePriority, x.afAppId, ShownRate(x.ambr))
  }

  lemma InfoMembers(x: Info)
    ensures var m := Members(INFO_NAMES, InfoSlots(x));
      && Member(m, "mbsMediaComps") == CompsSlot(CompsOf(x))
      && Member(m, "mbsSdfResPrio") == SlotOf(Priority(x.reservePriority), PriorityDoc)
      && Member(m, "afAppId") == SlotOf(x.afAppId, TextDoc)
      && Member(m, "mbsSessionAmbr") == SlotOf(x.ambr, BitRateDoc)
  {
    InfoNames();
    assert INFO_NAMES[0] == "mbsMediaComps" && INFO_NAMES[1] == "mbsSdfResPrio";
    assert INFO_NAMES[2] == "afAppId" && INFO_NAMES[3] == "mbsSessionAmbr";
    MembersAt(map[], INFO_NAMES, InfoSlots(x), 0);
    MembersAt(map[], INFO_NAMES, InfoSlots(x), 1);
    MembersAt(map[], INFO_NAMES, InfoSlots(x), 2);
    MembersAt(map[], INFO_NAMES, InfoSlots(x), 3);
  }

  lemma CompsAttributeReads(m: map<string, Json>, x: Info)
    requires Member(m, "mbsMediaComps") == CompsSlot(CompsOf(x))
    ensures Optional(m, "mbsMediaComps", ReadComps) == Some(ShownInfo(x).comps)
  {
    CompsRead(CompsOf(x));
  }

  lemma InfoReads(x: Info)
    ensures ReadInfo(InfoDoc(x)) == Some(ShownInfo(x))
  {
    var m := Members(INFO_NAMES, InfoSlots(x));
    InfoMembers(x);
    CompsAttributeReads(m, x);
    PriorityAttributeReads(m, "mbsSdfResPrio", x.reservePriority);
    TextAttributeReads(m, "afAppId", x.afAppId);
    RateAttributeReads(m, "mbsSessionAmbr", x.ambr);
  }

  /** What a session sends. */
  datatype Sent = Sent(
    tmgiReq: bool,
    tunnelReq: bool,
    locationDependent: bool,
    anyUeInd: bool,
    contactPcfInd: bool,
    ssm: Option<Ssm>,
    dnn: Option<string>,
    snssai: Option<Snssai>,
    startTime: Option<int>,
    terminationTime: Option<int>,
    serviceArea: Option<Area>,
    extServiceArea: Option<ExtArea>,
    serviceInfo: Option<Info>,
    fsaIds: seq<nat>,
    activityStatus: Option<ActivityStatus>)

  /** The last 24 bits. */
  function Cut(id: nat): nat {
    id % 0x100_0000
  }

  function ShownArea(x: Option<Area>): Option<Area> {
    if x.Some? && (x.value.ncgiTais != [] || x.value.tais != []) then x else None
  }

  function ShownExt(x: Option<ExtArea>): Option<ExtArea> {
    if x.Some? && x.value.civics != [] then x else None
  }

  /** Areas that list nothing are left out, and frequency selection areas are cut to 24 bits. */
  function Shown(x: Session): Sent {
    Sent(x.tmgiReq, x.tunnelReq, x.locationDependent, x.anyUeInd, x.contactPcfInd, x.ssm, x.dnn, x.snssai, x.startTime,
         x.terminationTime,
         ShownArea(x.serviceArea),
         ShownExt(x.extServiceArea),
         if x.serviceInfo.Some? then Some(ShownInfo(x.serviceInfo.value)) else None,
         Mapped(x.fsaIds, Cut),
         x.activityStatus)
  }

  function ReadFamily(j: Json): Option<AddressFamily> {
    if j == Str("ipv4Addr") then Some(IPv4)
    else if j == Str("ipv6Addr") then Some(IPv6)
    else if j == Str("") then Some(NoFamily)
    else None
  }

  function ReadSsm(j: Json): Option<Ssm> {
    if !j.Object? then None
    else
      var family :- Required(j.members, "family", ReadFamily);
      var source :- Required(j.members, "sourceIpAddr", ReadNat);
      var dest :- Required(j.members, "destIpAddr", ReadNat);
      Some(Ssm(family, source, dest))
  }

  function ReadSnssai(j: Json): Option<Snssai> {
    if !j.Object? then None
    else
      var sst :- Required(j.members, "sst", ReadNat);
      var sd :- Required(j.members, "sd", ReadSix);
      Some(Snssai(sst, sd))
  }

  function ReadActivity(j: Json): Option<ActivityStatus> {
    if j == Str("ACTIVE") then Some(Active) else if j == Str("INACTIVE") then Some(Inactive) else None
  }

  /** A flag that is absent is not set. */
  function Flag(m: map<string, Json>, name: string): bool {
    Member(m, name) == Some(Bool(true))
  }

  function ReadDocument(j: Json): Option<Sent> {
    if !j.Object? then None
    else
      var m := j.members;
      var contactPcfInd :- Required(m, "contactPcfInd", ReadBool);
      var ssm :- Optional(m, "ssm", ReadSsm);
      var dnn :- Optional(m, "dnn", ReadText);
      var snssai :- Optional(m, "snssai", ReadSnssai);
      var startTime :- Optional(m, "startTime", ReadId);
      var terminationTime :- Optional(m, "terminationTime", ReadId);
      var serviceArea :- Optional(m, "mbsServiceArea", ReadArea);
      var extServiceArea :- Optional(m, "extMbsServiceArea", ReadExt);
      var serviceInfo :- Optional(m, "mbsServInfo", ReadInfo);
      var fsaIds :- ReadList(m, "mbsFsaIdList", ReadSix);
      var activityStatus :- Optional(m, "activityStatus", ReadActivity);
      Some(Sent(Flag(m, "tmgiAllocReq"), Flag(m, "ingressTunAddrReq"), Flag(m, "locationDependent"), Flag(m, "anyUeInd"),
                contactPcfInd, ssm, dnn, snssai, startTime, terminationTime, serviceArea, extServiceArea, serviceInfo,
                fsaIds, activityStatus))
  }

  lemma SsmReads(x: Ssm)
    ensures ReadSsm(SsmDoc(x)) == Some(x)
  {
    var m := SsmDoc(x).members;
    assert Member(m, "sourceIpAddr") == Some(NatDoc(x.source)) && Member(m, "destIpAddr") == Some(NatDoc(x.dest));
    assert |"ipv4Addr"| == 8 && |"ipv6Addr"| == 8 && "ipv4Addr"[3] == '4' && "ipv6Addr"[3] == '6';
    NatReads(x.source);
    NatReads(x.dest);
  }

  lemma SnssaiReads(x: Snssai)
    ensures ReadSnssai(SnssaiDoc(x)) == Some(x)
  {
    var m := SnssaiDoc(x).members;
    assert Member(m, "sst") == Some(NatDoc(x.sst)) && Member(m, "sd") == Some(HexDoc(x.sd, 6));
    NatReads(x.sst);
    HexReads(x.sd, 6);
  }

  lemma ActivityReads(x: ActivityStatus)
    ensures ReadActivity(ActivityDoc(x)) == Some(x)
  {
    assert |"ACTIVE"| == 6 && |"INACTIVE"| == 8;
  }

  /** Where the attributes that an update never changes are. */
  lemma FixedAt(x: Session)
    ensures var m := FixedMembers(x);
      && Member(m, "tmgiAllocReq") == FlagSlot(x.tmgiReq) && Member(m, "ingressTunAddrReq") == FlagSlot(x.tunnelReq)
      && Member(m, "locationDependent") == FlagSlot(x.locationDependent) && Member(m, "anyUeInd") == FlagSlot(x.anyUeInd)
      && Member(m, "ssm") == SlotOf(x.ssm, SsmDoc) && Member(m, "dnn") == SlotOf(x.dnn, TextDoc)
      && Member(m, "snssai") == SlotOf(x.snssai, SnssaiDoc)
      && Member(m, "startTime") == SlotOf(x.startTime, TimeDoc)
      && Member(m, "terminationTime") == SlotOf(x.terminationTime, TimeDoc)
  {
    var slots := [FlagSlot(x.tmgiReq), FlagSlot(x.tunnelReq), FlagSlot(x.locationDependent), FlagSlot(x.anyUeInd),
       SlotOf(x.ssm, SsmDoc), SlotOf(x.dnn, TextDoc), SlotOf(x.snssai, SnssaiDoc),
       SlotOf(x.startTime, TimeDoc), SlotOf(x.terminationTime, TimeDoc)];
    FixedNames();
    MembersAt(map[], FIXED_NAMES, slots, 0);
    MembersAt(map[], FIXED_NAMES, slots, 1);
    MembersAt(map[], FIXED_NAMES, slots, 2);
    MembersAt(map[], FIXED_NAMES, slots, 3);
    MembersAt(map[], FIXED_NAMES, slots, 4);
    MembersAt(map[], FIXED_NAMES, slots, 5);
    MembersAt(map[], FIXED_NAMES, slots, 6);
    MembersAt(map[], FIXED_NAMES, slots, 7);
    MembersAt(map[], FIXED_NAMES, slots, 8);
  }

  lemma FixedNames()
    ensures var n := FIXED_NAMES;
      && n[0] == "tmgiAllocReq" && n[1] == "ingressTunAddrReq" && n[2] == "locationDependent" && n[3] == "anyUeInd"
      && n[4] == "ssm" && n[5] == "dnn" && n[6] == "snssai" && n[7] == "startTime" && n[8] == "terminationTime"
      && forall i, j :: 0 <= i < j < |n| ==> n[i] != n[j]
  {
    var n := FIXED_NAMES;
    assert |n[0]| == 12 && |n[1]| == 17 && |n[2]| == 17 && |n[3]| == 8 && |n[4]| == 3 && |n[5]| == 3 && |n[6]| == 6;
    assert |n[7]| == 9 && |n[8]| == 15 && n[1][0] == 'i' && n[2][0] == 'l' && n[4][0] == 's' && n[5][0] == 'd';
  }

  /** No attribute is both updatable and not. */
  lemma NamesApart(i: nat, j: nat)
    requires i < |UPDATABLE_NAMES| && j < |FIXED_NAMES|
    ensures UPDATABLE_NAMES[i] != FIXED_NAMES[j]
  {
    var n, m := UPDATABLE_NAMES, FIXED_NAMES;
    assert |n[0]| == 13 && |n[1]| == 14 && |n[2]| == 17 && |n[3]| == 11 && |n[4]| == 12 && |n[5]| == 14;
    assert |m[0]| == 12 && |m[1]| == 17 && |m[2]| == 17 && |m[3]| == 8 && |m[4]| == 3 && |m[5]| == 3 && |m[6]| == 6;
    assert |m[7]| == 9 && |m[8]| == 15;
    assert n[2][0] == 'e' && n[4][0] == 'm' && m[0][0] == 't' && m[1][0] == 'i' && m[2][0] == 'l';
  }

  lemma FixedInDocument(x: Session, j: nat)
    requires j < |FIXED_NAMES|
    ensures Member(SessionDoc(x).members, FIXED_NAMES[j]) == Member(FixedMembers(x), FIXED_NAMES[j])
  {
    forall i | 0 <= i < |UPDATABLE_NAMES|
      ensures UPDATABLE_NAMES[i] != FIXED_NAMES[j]
    {
      NamesApart(i, j);
    }
    MembersElsewhere(FixedMembers(x), UPDATABLE_NAMES, UpdatableSlots(x), FIXED_NAMES[j]);
  }

  lemma FlagsInDocument(x: Session)
    ensures var m := SessionDoc(x).members;
      && Member(m, "tmgiAllocReq") == FlagSlot(x.tmgiReq) && Member(m, "ingressTunAddrReq") == FlagSlot(x.tunnelReq)
      && Member(m, "locationDependent") == FlagSlot(x.locationDependent) && Member(m, "anyUeInd") == FlagSlot(x.anyUeInd)
  {
    FixedNames();
    FixedAt(x);
    FixedInDocument(x, 0);
    FixedInDocument(x, 1);
    FixedInDocument(x, 2);
    FixedInDocument(x, 3);
  }

  lemma OthersInDocument(x: Session)
    ensures var m := SessionDoc(x).members;
      && Member(m, "ssm") == SlotOf(x.ssm, SsmDoc) && Member(m, "dnn") == SlotOf(x.dnn, TextDoc)
      && Member(m, "snssai") == SlotOf(x.snssai, SnssaiDoc)
      && Member(m, "startTime") == SlotOf(x.startTime, TimeDoc)
      && Member(m, "terminationTime") == SlotOf(x.terminationTime, TimeDoc)
  {
    FixedNames();
    FixedAt(x);
    FixedInDocument(x, 4);
    FixedInDocument(x, 5);
    FixedInDocument(x, 6);
    FixedInDocument(x, 7);
    FixedInDocument(x, 8);
  }

  lemma UpdatableInDocument(x: Session)
    ensures var m := SessionDoc(x).members;
      && Member(m, "contactPcfInd") == Some(Bool(x.contactPcfInd))
      && Member(m, "mbsServiceArea") == AreaSlot(x.serviceArea) && Member(m, "extMbsServiceArea") == ExtSlot(x.extServiceArea)
      && Member(m, "mbsServInfo") == SlotOf(x.serviceInfo, InfoDoc)
      && Member(m, "mbsFsaIdList") == ListSlot(x.fsaIds, FsaIdDoc)
      && Member(m, "activityStatus") == SlotOf(x.activityStatus, ActivityDoc)
  {
    UpdatableNames();
    assert UPDATABLE_NAMES[0] == "contactPcfInd" && UPDATABLE_NAMES[1] == "mbsServiceArea";
    assert UPDATABLE_NAMES[2] == "extMbsServiceArea" && UPDATABLE_NAMES[3] == "mbsServInfo";
    assert UPDATABLE_NAMES[4] == "mbsFsaIdList" && UPDATABLE_NAMES[5] == "activityStatus";
    SlotsAt(x);
    MembersAt(FixedMembers(x), UPDATABLE_NAMES, UpdatableSlots(x), 0);
    MembersAt(FixedMembers(x), UPDATABLE_NAMES, UpdatableSlots(x), 1);
    MembersAt(FixedMembers(x), UPDATABLE_NAMES, UpdatableSlots(x), 2);
    MembersAt(FixedMembers(x), UPDATABLE_NAMES, UpdatableSlots(x), 3);
    MembersAt(FixedMembers(x), UPDATABLE_NAMES, UpdatableSlots(x), 4);
    MembersAt(FixedMembers(x), UPDATABLE_NAMES, UpdatableSlots(x), 5);
  }

  lemma FlagsRead(x: Session)
    ensures var m := SessionDoc(x).members;
      && Flag(m, "tmgiAllocReq") == x.tmgiReq && Flag(m, "ingressTunAddrReq") == x.tunnelReq
      && Flag(m, "locationDependent") == x.locationDependent && Flag(m, "anyUeInd") == x.anyUeInd
  {
    FlagsInDocument(x);
  }

  lemma TimeReads(m: map<string, Json>, name: string, x: Option<int>)
    requires Member(m, name) == SlotOf(x, TimeDoc)
    ensures Optional(m, name, ReadId) == Some(x)
  {
    if x.Some? {
      assert (x.value as real).Floor == x.value;
    }
  }

  lemma OthersRead(x: Session)
    ensures var m := SessionDoc(x).members;
      && Optional(m, "ssm", ReadSsm) == Some(x.ssm) && Optional(m, "dnn", ReadText) == Some(x.dnn)
      && Optional(m, "snssai", ReadSnssai) == Some(x.snssai)
      && Optional(m, "startTime", ReadId) == Some(x.startTime)
      && Optional(m, "terminationTime", ReadId) == Some(x.terminationTime)
  {
    var m := SessionDoc(x).members;
    OthersInDocument(x);
    SsmAttributeReads(m, x.ssm);
    TextAttributeReads(m, "dnn", x.dnn);
    SnssaiAttributeReads(m, x.snssai);
    TimeReads(m, "startTime", x.startTime);
    TimeReads(m, "terminationTime", x.terminationTime);
  }

  lemma SsmAttributeReads(m: map<string, Json>, x: Option<Ssm>)
    requires Member(m, "ssm") == SlotOf(x, SsmDoc)
    ensures Optional(m, "ssm", ReadSsm) == Some(x)
  {
    if x.Some? {
      SsmReads(x.value);
    }
  }

  lemma SnssaiAttributeReads(m: map<string, Json>, x: Option<Snssai>)
    requires Member(m, "snssai") == SlotOf(x, SnssaiDoc)
    ensures Optional(m, "snssai", ReadSnssai) == Some(x)
  {
    if x.Some? {
      SnssaiReads(x.value);
    }
  }

  lemma FsaIdsRead(m: map<string, Json>, s: seq<nat>)
    requires Member(m, "mbsFsaIdList") == ListSlot(s, FsaIdDoc)
    ensures ReadList(m, "mbsFsaIdList", ReadSix) == Some(Mapped(s, Cut))
  {
    forall i | 0 <= i < |s|
      ensures ReadSix(FsaIdDoc(s[i])) == Some(Cut(s[i]))
    {
      HexReads(Cut(s[i]), 6);
    }
    ListReads(m, "mbsFsaIdList", s, FsaIdDoc, ReadSix, Cut);
  }

  lemma AreasRead(x: Session)
    ensures var m, y := SessionDoc(x).members, Shown(x);
      && Optional(m, "mbsServiceArea", ReadArea) == Some(y.serviceArea)
      && Optional(m, "extMbsServiceArea", ReadExt) == Some(y.extServiceArea)
  {
    UpdatableInDocument(x);
    AreaAttributeReads(SessionDoc(x).members, x.serviceArea);
    ExtAttributeReads(SessionDoc(x).members, x.extServiceArea);
  }

  lemma AreaAttributeReads(m: map<string, Json>, x: Option<Area>)
    requires Member(m, "mbsServiceArea") == AreaSlot(x)
    ensures Optional(m, "mbsServiceArea", ReadArea) == Some(ShownArea(x))
  {
    if x.Some? {
      AreaReads(x.value);
    }
  }

  lemma ExtAttributeReads(m: map<string, Json>, x: Option<ExtArea>)
    requires Member(m, "extMbsServiceArea") == ExtSlot(x)
    ensures Optional(m, "extMbsServiceArea", ReadExt) == Some(ShownExt(x))
  {
    if x.Some? {
      ExtReads(x.value);
    }
  }

  lemma RestRead(x: Session)
    ensures var m, y := SessionDoc(x).members, Shown(x);
      && Required(m, "contactPcfInd", ReadBool) == Some(y.contactPcfInd)
      && Optional(m, "mbsServInfo", ReadInfo) == Some(y.serviceInfo)
      && ReadList(m, "mbsFsaIdList", ReadSix) == Some(y.fsaIds)
      && Optional(m, "activityStatus", ReadActivity) == Some(y.activityStatus)
  {
    UpdatableInDocument(x);
    FsaIdsRead(SessionDoc(x).members, x.fsaIds);
    if x.serviceInfo.Some? {
      InfoReads(x.serviceInfo.value);
    }
    if x.activityStatus.Some? {
      ActivityReads(x.activityStatus.value);
    }
  }

  /** The document of a session reads back as what the session sends. */
  lemma DocumentReads(x: Session)
    ensures ReadDocument(SessionDoc(x)) == Some(Shown(x))
  {
    FlagsRead(x);
    OthersRead(x);
    AreasRead(x);
    RestRead(x);
  }

  /** A creation sends the session without its PCF indication. */
  lemma CreationReads(x: Session)
    ensures ReadDocument(CreationDoc(x)) == Some(Shown(x).(contactPcfInd := false))
  {
    DocumentReads(x.(contactPcfInd := false));
  }

  /** Hence sessions with the same document send the same. */
  lemma SameDocumentSendsSame(a: Session, b: Session)
    requires SessionDoc(a) == SessionDoc(b)
    ensures Shown(a) == Shown(b)
  {
    DocumentReads(a);
    DocumentReads(b);
  }

  /** An exact update leaves a document that reads as the session with its updatable attributes renewed. */
  lemma UpdateReads(a: Session, b: Session, orders: Orders)
    requires SessionVisits(orders, a, b) && SessionExact(a, b)
    ensures var r := ApplyAll(SessionDoc(a), SessionPatches(a, b, orders));
      var x, y, broadcast := Shown(a), Shown(b), a.serviceType.Broadcast?;
      && r.Some?
      && ReadDocument(r.value) ==
         Some(x.(contactPcfInd := y.contactPcfInd, serviceArea := y.serviceArea, extServiceArea := y.extServiceArea,
                 serviceInfo := y.serviceInfo, fsaIds := if broadcast then y.fsaIds else x.fsaIds,
                 activityStatus := if broadcast then x.activityStatus else y.activityStatus))
  {
    SessionPatchesApply(a, b, orders);
    DocumentReads(Updated(a, b));
  }
}
