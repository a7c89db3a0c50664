/** Service areas: tracking areas, cells, civic addresses and frequency selection areas. */
module ServiceAreas {
  import opened Options
  import opened JsonDocument
  import opened JsonPatch
  import opened ObjectDiff
  import opened Structure
  import opened ListDiff
  import opened QosRequirements
  import Text

  type Code = n: nat | n < 1000                  // mobile country or network code
  type Tac = n: nat | n < 0x100_0000             // 24 bits
  type NetworkId = n: nat | n < 0x1000_0000_0000 // 44 bits
  type CellId = n: nat | n < 0x10_0000_0000      // 36 bits

  /** The network code is written with three digits only when it is at least 100. */
  datatype Plmn = Plmn(mcc: Code, mnc: Code)

  datatype Tai = Tai(plmn: Plmn, tac: Tac, nid: Option<NetworkId>)

  datatype Ncgi = Ncgi(plmn: Plmn, cell: CellId, nid: Option<NetworkId>)

  datatype NcgiTai = NcgiTai(tai: Tai, cells: seq<Ncgi>)

  datatype Area = Area(ncgiTais: seq<NcgiTai>, tais: seq<Tai>)

  /** The attributes of a civic address that are set, by name. */
  type Civic = map<string, string>

  datatype ExtArea = ExtArea(civics: seq<Civic>)

  // ---------- Documents ----------

  function HexDoc(n: nat, digits: nat): Json {
    Str(Text.Numeral(n, 16, digits))
  }

  function PlmnDoc(p: Plmn): Json {
    Object(map["mcc" := Str(Text.Numeral(p.mcc, 10, 3)),
               "mnc" := Str(Text.Numeral(p.mnc, 10, if p.mnc < 100 then 2 else 3))])
  }

  function NetworkIdDoc(n: NetworkId): Json {
    HexDoc(n, 11)
  }

  const TAI_NAMES := ["plmnId", "tac", "nid"]
  const NCGI_NAMES := ["plmnId", "nrCellId", "nid"]

  function TaiSlots(x: Tai): (r: seq<Slot>)
    ensures |r| == |TAI_NAMES|
  {
    [Some(PlmnDoc(x.plmn)), Some(HexDoc(x.tac, 4)), SlotOf(x.nid, NetworkIdDoc)]
  }

  function TaiDoc(x: Tai): Json {
    Object(Members(TAI_NAMES, TaiSlots(x)))
  }

  function NcgiSlots(x: Ncgi): (r: seq<Slot>)
    ensures |r| == |NCGI_NAMES|
  {
    [Some(PlmnDoc(x.plmn)), Some(HexDoc(x.cell, 9)), SlotOf(x.nid, NetworkIdDoc)]
  }

  function NcgiDoc(x: Ncgi): Json {
    Object(Members(NCGI_NAMES, NcgiSlots(x)))
  }

  function NcgiTaiDoc(x: NcgiTai): Json {
    Object(map["tai" := TaiDoc(x.tai), "cellList" := Array(Docs(x.cells, NcgiDoc))])
  }

  function CivicDoc(x: Civic): Json {
    Object(map k | k in x :: Str(x[k]))
  }

  /** Sent as six hexadecimal digits. */
  function FsaIdDoc(id: nat): Json {
    HexDoc(id % 0x100_0000, 6)
  }

  // ---------- The identifiers can be read back from their documents ----------

  lemma HexDocInjective(m: nat, n: nat, digits: nat)
    requires HexDoc(m, digits) == HexDoc(n, digits)
    ensures m == n
  {
    Text.NumeralInjective(m, n, 16, digits);
  }

  lemma PlmnDocInjective(p: Plmn, q: Plmn)
    requires PlmnDoc(p) == PlmnDoc(q)
    ensures p == q
  {
    assert PlmnDoc(p).members["mcc"] == PlmnDoc(q).members["mcc"];
    assert PlmnDoc(p).members["mnc"] == PlmnDoc(q).members["mnc"];
    Text.NumeralInjective(p.mcc, q.mcc, 10, 3);
    var v, w := if p.mnc < 100 then 2 else 3, if q.mnc < 100 then 2 else 3;
    Text.NumeralReadsBack(p.mnc, 10, v);
    Text.NumeralReadsBack(q.mnc, 10, w);
  }

  lemma {:induction false} MembersInjective(names: seq<string>, a: seq<Slot>, b: seq<Slot>, i: nat)
    requires i < |names| == |a| == |b| && GoodNames(names)
    requires Members(names, a) == Members(names, b)
    ensures a[i] == b[i]
  {
    MembersAt(map[], names, a, i);
    MembersAt(map[], names, b, i);
  }

  lemma NetworkIdInjective(m: Option<NetworkId>, n: Option<NetworkId>)
    requires SlotOf(m, NetworkIdDoc) == SlotOf(n, NetworkIdDoc)
    ensures m == n
  {
    if m.Some? {
      HexDocInjective(m.value, n.value, 11);
    }
  }

  lemma AreaNames()
    ensures GoodNames(TAI_NAMES) && GoodNames(NCGI_NAMES) && GoodNames(AREA_NAMES) && GoodNames(EXT_NAMES)
  {
  }

  lemma TaiDocInjective(a: Tai, b: Tai)
    requires TaiDoc(a) == TaiDoc(b)
    ensures a == b
  {
    AreaNames();
    MembersInjective(TAI_NAMES, TaiSlots(a), TaiSlots(b), 0);
    MembersInjective(TAI_NAMES, TaiSlots(a), TaiSlots(b), 1);
    MembersInjective(TAI_NAMES, TaiSlots(a), TaiSlots(b), 2);
    PlmnDocInjective(a.plmn, b.plmn);
    HexDocInjective(a.tac, b.tac, 4);
    NetworkIdInjective(a.nid, b.nid);
  }

  lemma NcgiDocInjective(a: Ncgi, b: Ncgi)
    requires NcgiDoc(a) == NcgiDoc(b)
    ensures a == b
  {
    AreaNames();
    MembersInjective(NCGI_NAMES, NcgiSlots(a), NcgiSlots(b), 0);
    MembersInjective(NCGI_NAMES, NcgiSlots(a), NcgiSlots(b), 1);
    MembersInjective(NCGI_NAMES, NcgiSlots(a), NcgiSlots(b), 2);
    PlmnDocInjective(a.plmn, b.plmn);
    HexDocInjective(a.cell, b.cell, 9);
    NetworkIdInjective(a.nid, b.nid);
  }

  lemma NcgiTaiDocInjective(a: NcgiTai, b: NcgiTai)
    requires NcgiTaiDoc(a) == NcgiTaiDoc(b)
    ensures a == b
  {
    var m, t := NcgiTaiDoc(a).members, NcgiTaiDoc(b).members;
    assert m["tai"] == t["tai"] && m["cellList"] == t["cellList"];
    TaiDocInjective(a.tai, b.tai);
    var x, y := Docs(a.cells, NcgiDoc), Docs(b.cells, NcgiDoc);
    assert x == y;
    forall i | 0 <= i < |a.cells|
      ensures a.cells[i] == b.cells[i]
    {
      assert x[i] == y[i];
      NcgiDocInjective(a.cells[i], b.cells[i]);
    }
  }

  // ---------- Comparisons and list diffs ----------

  predicate SameTai(a: Tai, b: Tai) {
    a == b
  }

  /** The cells are not compared. */
  predicate SameNcgiTai(a: NcgiTai, b: NcgiTai) {
    SameTai(a.tai, b.tai)
  }

  predicate SameNcgi(a: Ncgi, b: Ncgi) {
    a == b
  }

  predicate SameCivic(a: Civic, b: Civic) {
    a == b
  }

  predicate SameFsaId(a: nat, b: nat) {
    a == b
  }

  function TaisDiff(a: seq<Tai>, b: seq<Tai>): seq<Patch> {
    PrefixDiff(a, b, SameTai, TaiDoc, AtDash)
  }

  function NcgisDiff(a: seq<Ncgi>, b: seq<Ncgi>): seq<Patch> {
    PrefixDiff(a, b, SameNcgi, NcgiDoc, AtPosition)
  }

  function NcgiTaisDiff(a: seq<NcgiTai>, b: seq<NcgiTai>): seq<Patch> {
    PrefixDiff(a, b, SameNcgiTai, NcgiTaiDoc, AtPosition)
  }

  function CivicsDiff(a: seq<Civic>, b: seq<Civic>): seq<Patch> {
    PlainDiff(a, b, SameCivic, CivicDoc, AtDash)
  }

  function FsaIdsDiff(a: seq<nat>, b: seq<nat>): seq<Patch> {
    PlainDiff(a, b, SameFsaId, FsaIdDoc, AtPosition)
  }

  /** Cells may only change along with their tracking area, unless the first tracking areas differ. */
  predicate NcgiTaisExact(a: seq<NcgiTai>, b: seq<NcgiTai>) {
    KeepsPrefix(a, b, SameNcgiTai) ==>
      forall i :: 0 <= i < |a| && i < |b| && a[i].tai == b[i].tai ==> a[i].cells == b[i].cells
  }

  lemma NcgiTaisDiffApplies(a: seq<NcgiTai>, b: seq<NcgiTai>)
    ensures ApplyAllToSlot(ListSlot(a, NcgiTaiDoc), NcgiTaisDiff(a, b)) == Some(ListSlot(b, NcgiTaiDoc)) <==> NcgiTaisExact(a, b)
    ensures Relative(NcgiTaisDiff(a, b))
  {
    PrefixDiffApplies(a, b, SameNcgiTai, NcgiTaiDoc, AtPosition);
    forall i | 0 <= i < |a| && i < |b| && NcgiTaiDoc(a[i]) == NcgiTaiDoc(b[i])
      ensures a[i].cells == b[i].cells
    {
      NcgiTaiDocInjective(a[i], b[i]);
    }
    assert SameMeansEqual(a, b, SameNcgiTai, NcgiTaiDoc) <==>
           forall i :: 0 <= i < |a| && i < |b| && a[i].tai == b[i].tai ==> a[i].cells == b[i].cells;
  }

  /** The diff of a list of cells is always exact. */
  lemma NcgisDiffApplies(a: seq<Ncgi>, b: seq<Ncgi>)
    ensures ApplyAllToSlot(ListSlot(a, NcgiDoc), NcgisDiff(a, b)) == Some(ListSlot(b, NcgiDoc))
    ensures Relative(NcgisDiff(a, b))
  {
    PrefixDiffApplies(a, b, SameNcgi, NcgiDoc, AtPosition);
    assert SameMeansEqual(a, b, SameNcgi, NcgiDoc);
  }

  // ---------- Service areas ----------

  const AREA_NAMES := ["ncgiList", "taiList"]
  const EXT_NAMES := ["civicAddressList"]

  function AreaSlots(x: Area): (r: seq<Slot>)
    ensures |r| == |AREA_NAMES|
  {
    [ListSlot(x.ncgiTais, NcgiTaiDoc), ListSlot(x.tais, TaiDoc)]
  }

  function AreaDoc(x: Area): Json {
    Object(Members(AREA_NAMES, AreaSlots(x)))
  }

  /** An area that is set but lists nothing is not sent. */
  predicate Hollow(x: Option<Area>) {
    x.Some? && x.value.ncgiTais == [] && x.value.tais == []
  }

  function AreaSlot(x: Option<Area>): Slot {
    if x.None? || Hollow(x) then None else Some(AreaDoc(x.value))
  }

  function AreaDiffs(a: Area, b: Area): (r: seq<seq<Patch>>)
    ensures |r| == |AREA_NAMES|
  {
    [NcgiTaisDiff(a.ncgiTais, b.ncgiTais), TaisDiff(a.tais, b.tais)]
  }

  function AreaDiff(a: Option<Area>, b: Option<Area>): seq<Patch> {
    StructureDiff(a, b, AreaDoc, if a.Some? && b.Some? then Assemble(EditsOf(AREA_NAMES, AreaDiffs(a.value, b.value))) else [])
  }

  predicate AreaExact(a: Option<Area>, b: Option<Area>) {
    Hollow(a) == Hollow(b) && (a.Some? && b.Some? ==> NcgiTaisExact(a.value.ncgiTais, b.value.ncgiTais))
  }

  lemma AreaAttributes(a: Area, b: Area)
    ensures var x, ds, y := AreaSlots(a), AreaDiffs(a, b), AreaSlots(b);
      && AllRelative(ds)
      && (AllExact(x, ds, y) <==> NcgiTaisExact(a.ncgiTais, b.ncgiTais))
      && (ds[0] != [] || ds[1] != [] <==> Assemble(EditsOf(AREA_NAMES, ds)) != [])
  {
    NcgiTaisDiffApplies(a.ncgiTais, b.ncgiTais);
    PrefixDiffApplies(a.tais, b.tais, SameTai, TaiDoc, AtDash);
    var es := EditsOf(AREA_NAMES, AreaDiffs(a, b));
    assert Assemble(es) == Lift(es[0].diff, "/" + es[0].key) + Assemble(es[1..]);
    assert Assemble(es[1..]) == Lift(es[1].diff, "/" + es[1].key) + Assemble(es[2..]);
    assert es[2..] == [];
  }

  lemma AreaDiffApplies(a: Option<Area>, b: Option<Area>)
    ensures ApplyAllToSlot(AreaSlot(a), AreaDiff(a, b)) == Some(AreaSlot(b)) <==> AreaExact(a, b)
    ensures Relative(AreaDiff(a, b))
  {
    var ps := AreaDiff(a, b);
    if a.Some? && b.Some? {
      var x, y := a.value, b.value;
      AreaAttributes(x, y);
      AreaNames();
      SmallStructureReaches(map[], AREA_NAMES, AreaSlots(x), AreaSlots(y), AreaDiffs(x, y));
      if Hollow(a) {
        if ps != [] {
          assert ApplyToSlot(AreaSlot(a), ps[0]) == None;
        }
      } else {
        SlotIsDocument(AreaDoc(x), ps);
      }
    } else if ps != [] {
      OnePatch(AreaSlot(a), ps[0]);
    }
  }

  // ---------- External service areas (civic addresses) ----------

  function ExtSlots(x: ExtArea): (r: seq<Slot>)
    ensures |r| == |EXT_NAMES|
  {
    [ListSlot(x.civics, CivicDoc)]
  }

  function ExtDoc(x: ExtArea): Json {
    Object(Members(EXT_NAMES, ExtSlots(x)))
  }

  predicate ExtHollow(x: Option<ExtArea>) {
    x.Some? && x.value.civics == []
  }

  function ExtSlot(x: Option<ExtArea>): Slot {
    if x.None? || ExtHollow(x) then None else Some(ExtDoc(x.value))
  }

  function ExtDiffs(a: ExtArea, b: ExtArea): (r: seq<seq<Patch>>)
    ensures |r| == |EXT_NAMES|
  {
    [CivicsDiff(a.civics, b.civics)]
  }

  function ExtDiff(a: Option<ExtArea>, b: Option<ExtArea>): seq<Patch> {
    StructureDiff(a, b, ExtDoc, if a.Some? && b.Some? then Assemble(EditsOf(EXT_NAMES, ExtDiffs(a.value, b.value))) else [])
  }

  predicate ExtExact(a: Option<ExtArea>, b: Option<ExtArea>) {
    ExtHollow(a) == ExtHollow(b)
  }

  lemma ExtAttributes(a: ExtArea, b: ExtArea)
    ensures var ds := ExtDiffs(a, b);
      && AllRelative(ds) && AllExact(ExtSlots(a), ds, ExtSlots(b))
      && (ds[0] != [] <==> Assemble(EditsOf(EXT_NAMES, ds)) != [])
  {
    PlainDiffApplies(a.civics, b.civics, SameCivic, CivicDoc, AtDash);
    var es := EditsOf(EXT_NAMES, ExtDiffs(a, b));
    assert Assemble(es) == Lift(es[0].diff, "/" + es[0].key) + Assemble(es[1..]);
    assert es[1..] == [];
  }

  lemma ExtDiffApplies(a: Option<ExtArea>, b: Option<ExtArea>)
    ensures ApplyAllToSlot(ExtSlot(a), ExtDiff(a, b)) == Some(ExtSlot(b)) <==> ExtExact(a, b)
    ensures Relative(ExtDiff(a, b))
  {
    var ps := ExtDiff(a, b);
    if a.Some? && b.Some? {
      var x, y := a.value, b.value;
      ExtAttributes(x, y);
      AreaNames();
      SmallStructureReaches(map[], EXT_NAMES, ExtSlots(x), ExtSlots(y), ExtDiffs(x, y));
      if ExtHollow(a) {
        if ps != [] {
          assert ApplyToSlot(ExtSlot(a), ps[0]) == None;
        }
      } else {
        SlotIsDocument(ExtDoc(x), ps);
      }
    } else if ps != [] {
      OnePatch(ExtSlot(a), ps[0]);
    }
  }
}
