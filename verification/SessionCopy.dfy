/**
 The copy that is kept of what the MB-SMF accepted, and the comparison of the current session with it.
 The comparison is coarser than equality of the documents in some attributes, and the copy leaves some
 attributes out; what the reconciler may rely on is how the two fit together.
 */
module SessionCopy {
  import opened Options
  import opened JsonDocument
  import opened JsonPatch
  import opened ObjectDiff
  import opened Structure
  import opened QosRequirements
  import opened MediaComponents
  import opened ServiceInfo
  import opened ServiceAreas
  import opened SessionDiff
  import opened ListDiff
  import opened ListEquality
  import Text

  // ---------- Copies ----------

  /** A codec alone in the second slot moves to the first. */
  function CopyMediaInfo(x: Option<MediaInfo>): Option<MediaInfo> {
    if x.None? then None else Some(x.value.(codec0 := Codec(x.value, 0), codec1 := Codec(x.value, 1)))
  }

  function CopyComp(x: MediaComp): MediaComp {
    x.(mediaInfo := CopyMediaInfo(x.mediaInfo))
  }

  function CopyComps(m: Comps): Comps {
    map k | k in m :: CopyComp(m[k])
  }

  /** Every component is in the hash under its own id. */
  predicate KeyedById(m: Comps) {
    forall k :: k in m ==> m[k].id == k
  }

  /** Copies the hash entry by entry; each copy goes under its own id. */
  method CopyHash(m: Comps, order: seq<int>) returns (copy: Comps)
    requires KeyedById(m) && Visits(order, m)
    ensures copy == CopyComps(m)
  {
    copy := map[];
    for i := 0 to |order|
      invariant forall k :: k in copy <==> k in order[..i]
      invariant forall k :: k in copy ==> k in m && copy[k] == CopyComp(m[k])
    {
      var k := order[i];
      assert order[..i + 1] == order[..i] + [k];
      var comp := CopyComp(m[k]);
      copy := copy[comp.id := comp];
    }
    assert order[..|order|] == order;
    forall k | k in m.Keys
      ensures k in copy.Keys
    {
      assert k in m && k in order;
    }
    forall k | k in copy.Keys
      ensures k in m.Keys && copy[k] == CopyComps(m)[k]
    {
      assert k in copy;
    }
    assert copy.Keys == CopyComps(m).Keys;
  }

  /** An existing copy that has a hash keeps it, cleared, when the source has none. */
  function CopyInfo(dst: Option<Info>, src: Option<Info>): Option<Info> {
    if src.None? then None
    else
      Some(src.value.(comps :=
        if src.value.comps.Some? then Some(CopyComps(src.value.comps.value))
        else if dst.Some? && dst.value.comps.Some? then Some(map[])
        else None))
  }

  /** The cells are not copied. */
  function CopyNcgiTais(s: seq<NcgiTai>): (r: seq<NcgiTai>)
    ensures |r| == |s|
  {
    seq(|s|, i requires 0 <= i < |s| => NcgiTai(s[i].tai, []))
  }

  function CopyArea(x: Option<Area>): Option<Area> {
    if x.None? then None else Some(x.value.(ncgiTais := CopyNcgiTais(x.value.ncgiTais)))
  }

  /** A copy of src over dst, or a new one: the termination time is dst's own. */
  function PublicCopy(dst: Option<Session>, src: Session): Session {
    src.(serviceArea := CopyArea(src.serviceArea),
         serviceInfo := CopyInfo(if dst.Some? then dst.value.serviceInfo else None, src.serviceInfo),
         terminationTime := if dst.Some? then dst.value.terminationTime else None)
  }

  // ---------- Comparisons ----------

  function FlowsEqual(a: Option<seq<string>>, b: Option<seq<string>>): bool {
    a.Some? == b.Some? && (a.Some? ==> |a.value| == |b.value|)
  }

  /** The search for a partner starts out as found, so a missing partner is never reported. */
  method CompareFlows(a: seq<string>, b: seq<string>) returns (equal: bool)
    ensures equal == FlowsEqual(Some(a), Some(b)) == (|a| == |b|)
  {
    if |a| != |b| {
      return false;
    }
    var copy := b;
    for i := 0 to |a| {
      var found := true;
      var j := 0;
      while j < |copy|
        invariant 0 <= j <= |copy|
        invariant found
      {
        if a[i] == copy[j] {
          found := true;
          copy := copy[..j] + copy[j + 1..];
          break;
        }
        j := j + 1;
      }
      if !found {
        return false;
      }
    }
    return true;
  }

  /** Bit rates are compared for presence only; two codecs may come in either order. */
  function MediaInfoEqual(a: Option<MediaInfo>, b: Option<MediaInfo>): bool {
    if a.None? || b.None? then a.None? && b.None?
    else
      var x, y := a.value, b.value;
      && x.mediaType == y.mediaType
      && x.maxBandwidth.Some? == y.maxBandwidth.Some?
      && x.minBandwidth.Some? == y.minBandwidth.Some?
      && CodecsEqual(Codec(x, 0), Codec(x, 1), Codec(y, 0), Codec(y, 1))
  }

  function CodecsEqual(a1: Option<string>, a2: Option<string>, b1: Option<string>, b2: Option<string>): bool {
    if a1.Some? != b1.Some? || a2.Some? != b2.Some? then false
    else if a1.Some? && a1 != b1 then b2.Some? && a1 == b2 && (a2.Some? ==> a2 == b1)
    else a2.Some? ==> a2 == b2
  }

  /** The id is not compared. */
  function CompEqual(a: MediaComp, b: MediaComp): bool {
    && a.reservePriority == b.reservePriority
    && a.qosRef == b.qosRef
    && FlowsEqual(a.flows, b.flows)
    && MediaInfoEqual(a.mediaInfo, b.mediaInfo)
    && a.qosReq == b.qosReq
  }

  /** As many entries, and every entry of a has an equal one in b. */
  function CompsEqual(a: Comps, b: Comps): bool {
    |a| == |b| && forall k :: k in a ==> k in b && CompEqual(a[k], b[k])
  }

  method CompareComps(a: Comps, b: Comps, order: seq<int>) returns (equal: bool)
    requires Visits(order, a)
    ensures equal == CompsEqual(a, b)
  {
    if |a| != |b| {
      return false;
    }
    var i := 0;
    while i < |order|
      invariant 0 <= i <= |order|
      invariant forall k :: k in order[..i] ==> k in b && CompEqual(a[k], b[k])
    {
      var k := order[i];
      if k !in b || !CompEqual(a[k], b[k]) {
        assert k in a;
        break;
      }
      i := i + 1;
    }
    assert order[..|order|] == order;
    return i == |order|;
  }

  function InfoEqual(a: Option<Info>, b: Option<Info>): bool {
    if a.None? || b.None? then a.None? && b.None?
    else
      var x, y := a.value, b.value;
      && x.reservePriority == y.reservePriority
      && x.afAppId == y.afAppId
      && x.ambr == y.ambr
      && x.comps.Some? == y.comps.Some?
      && (x.comps.Some? ==> CompsEqual(x.comps.value, y.comps.value))
  }

  /** Both lists in any order; the second area is copied first. */
  function AreaEqual(a: Option<Area>, b: Option<Area>): bool {
    if a.None? || b.None? then a.None? && b.None?
    else
      && GreedyEqual(a.value.ncgiTais, CopyNcgiTais(b.value.ncgiTais), SameNcgiTai)
      && GreedyEqual(a.value.tais, b.value.tais, SameTai)
  }

  method CompareAreas(a: Area, b: Area) returns (equal: bool)
    ensures equal == AreaEqual(Some(a), Some(b))
  {
    if |a.ncgiTais| != |b.ncgiTais| || |a.tais| != |b.tais| {
      return false;
    }
    var x := CompareGreedily(a.ncgiTais, CopyNcgiTais(b.ncgiTais), SameNcgiTai);
    if !x {
      return false;
    }
    equal := CompareGreedily(a.tais, b.tais, SameTai);
  }

  function ExtEqual(a: Option<ExtArea>, b: Option<ExtArea>): bool {
    if a.None? || b.None? then a.None? && b.None? else GreedyEqual(a.value.civics, b.value.civics, SameCivic)
  }

  /** An address without a family is not even equal to itself. */
  function SsmEqual(a: Option<Ssm>, b: Option<Ssm>): bool {
    if a.None? || b.None? then a.None? && b.None? else AddressEqual(a.value, b.value)
  }

  function AddressEqual(a: Ssm, b: Ssm): bool {
    a.family == b.family && !a.family.NoFamily? && a.source == b.source && a.dest == b.dest
  }

  function AssociatedEqual(a: Option<AssociatedId>, b: Option<AssociatedId>): bool {
    if a.None? || b.None? then a.None? && b.None?
    else a.value.text == b.value.text && AddressEqual(a.value.ssm, b.value.ssm)
  }

  /** The expiry time is not compared. */
  function TmgiEqual(a: Option<Tmgi>, b: Option<Tmgi>): bool {
    if a.None? || b.None? then a.None? && b.None?
    else a.value.serviceId == b.value.serviceId && a.value.plmn == b.value.plmn
  }

  method CompareFsaIds(a: seq<nat>, b: seq<nat>) returns (equal: bool)
    ensures equal == (a == b)
  {
    if |a| != |b| {
      return false;
    }
    var i := 0;
    while i < |a|
      invariant 0 <= i <= |a|
      invariant a[..i] == b[..i]
    {
      if !SameFsaId(a[i], b[i]) {
        return false;
      }
      i := i + 1;
    }
    assert a[..|a|] == a && b[..|b|] == b;
    return true;
  }

  /** The UDP tunnel is compared for presence only. */
  function SessionEqual(a: Session, b: Session): bool {
    && a.serviceType == b.serviceType && a.tunnelReq == b.tunnelReq && a.tmgiReq == b.tmgiReq
    && a.locationDependent == b.locationDependent && a.anyUeInd == b.anyUeInd
    && a.contactPcfInd == b.contactPcfInd && a.activityStatus == b.activityStatus
    && a.udpTunnel.Some? == b.udpTunnel.Some?
    && a.areaSessionId == b.areaSessionId && a.startTime == b.startTime && a.terminationTime == b.terminationTime
    && a.dnn == b.dnn && a.snssai == b.snssai && a.fsaIds == b.fsaIds
    && SsmEqual(a.ssm, b.ssm)
    && TmgiEqual(a.tmgi, b.tmgi)
    && AreaEqual(a.serviceArea, b.serviceArea)
    && ExtEqual(a.extServiceArea, b.extServiceArea)
    && InfoEqual(a.serviceInfo, b.serviceInfo)
    && AssociatedEqual(a.associatedId, b.associatedId)
  }

  // ---------- What the comparisons mean ----------

  /** Two codecs in either order: equality of the codecs as multisets. */
  lemma MediaInfoEqualMeans(a: MediaInfo, b: MediaInfo)
    ensures MediaInfoEqual(Some(a), Some(b)) <==>
            && a.mediaType == b.mediaType
            && a.maxBandwidth.Some? == b.maxBandwidth.Some? && a.minBandwidth.Some? == b.minBandwidth.Some?
            && multiset(Codecs(a)) == multiset(Codecs(b))
  {
    CodecsEqualMeans(Codecs(a), Codecs(b));
  }

  function Nth(s: seq<string>, i: nat): Option<string> {
    if i < |s| then Some(s[i]) else None
  }

  lemma CodecsEqualMeans(x: seq<string>, y: seq<string>)
    requires |x| <= 2 && |y| <= 2
    ensures CodecsEqual(Nth(x, 0), Nth(x, 1), Nth(y, 0), Nth(y, 1)) <==> multiset(x) == multiset(y)
  {
    assert |multiset(x)| == |x| && |multiset(y)| == |y|;
    if |x| == |y| {
      SameFew(x, y);
    }
  }

  lemma SameFew(x: seq<string>, y: seq<string>)
    requires |x| == |y| <= 2
    ensures multiset(x) == multiset(y) <==>
            match |x|
            case 0 => true
            case 1 => x[0] == y[0]
            case _ => (x[0] == y[0] && x[1] == y[1]) || (x[0] == y[1] && x[1] == y[0])
  {
    if |x| == 0 {
      assert x == y;
    } else if |x| == 1 {
      assert x == [x[0]] && y == [y[0]];
      SameSingle(x[0], y[0]);
    } else {
      assert x == [x[0], x[1]] && y == [y[0], y[1]];
      SamePair(x[0], x[1], y[0], y[1]);
    }
  }

  lemma SameSingle(a: string, b: string)
    ensures multiset([a]) == multiset([b]) <==> a == b
  {
    assert a in multiset([a]);
  }

  lemma SamePair(a: string, b: string, c: string, d: string)
    ensures multiset([a, b]) == multiset([c, d]) <==> (a == c && b == d) || (a == d && b == c)
  {
    if multiset([a, b]) == multiset([c, d]) {
      assert multiset([a, b]) - multiset([a]) == multiset([b]);
      assert a in multiset([c, d]);
      assert a == c ==> multiset([c, d]) - multiset([a]) == multiset([d]);
      assert a == d ==> multiset([c, d]) - multiset([a]) == multiset([c]);
      SameSingle(b, c);
      SameSingle(b, d);
    }
  }

  /** Count and one-way lookup amount to the same keys with equal components. */
  lemma CompsEqualMeans(a: Comps, b: Comps)
    ensures CompsEqual(a, b) <==> a.Keys == b.Keys && forall k :: k in a ==> CompEqual(a[k], b[k])
  {
    assert |a| == |a.Keys| && |b| == |b.Keys|;
    if CompsEqual(a, b) {
      forall k | k in a.Keys
        ensures k in b.Keys
      {
        assert k in a;
      }
      if exists k :: k in b.Keys && k !in a.Keys {
        var k :| k in b.Keys && k !in a.Keys;
        SubsetCount(a.Keys, b.Keys - {k});
        assert false;
      }
    }
  }

  lemma SameRelations()
    ensures Equivalence(SameTai) && Equivalence(SameNcgiTai) && Equivalence(SameCivic)
  {
  }

  /** The two areas list the same in some order; copying does not get in the way. */
  lemma AreaEqualMeans(a: Area, b: Area)
    ensures AreaEqual(Some(a), Some(b)) <==>
            SameUpToOrder(a.ncgiTais, b.ncgiTais, SameNcgiTai) && SameUpToOrder(a.tais, b.tais, SameTai)
  {
    SameRelations();
    CopyTransparent(a.ncgiTais, b.ncgiTais);
    GreedyDecides(a.ncgiTais, b.ncgiTais, SameNcgiTai);
    GreedyDecides(a.tais, b.tais, SameTai);
  }

  /** An empty list diff means that the lists compare equal. */
  lemma EmptyDiffMeansEqual(x: seq<Tai>, y: seq<Tai>, c: seq<Civic>, d: seq<Civic>, m: seq<NcgiTai>, n: seq<NcgiTai>)
    ensures TaisDiff(x, y) == [] ==> GreedyEqual(x, y, SameTai)
    ensures CivicsDiff(c, d) == [] ==> GreedyEqual(c, d, SameCivic)
    ensures NcgiTaisDiff(m, n) == [] ==> GreedyEqual(m, n, SameNcgiTai)
  {
    SameRelations();
    DiffSize(x, y, SameTai, TaiDoc, AtDash);
    DiffSize(c, d, SameCivic, CivicDoc, AtDash);
    DiffSize(m, n, SameNcgiTai, NcgiTaiDoc, AtPosition);
    if TaisDiff(x, y) == [] {
      InOrderIsEqual(x, y, SameTai);
    }
    if CivicsDiff(c, d) == [] {
      InOrderIsEqual(c, d, SameCivic);
    }
    if NcgiTaisDiff(m, n) == [] {
      InOrderIsEqual(m, n, SameNcgiTai);
    }
  }

  // ---------- A copy equals its source ----------

  lemma CopiedCompEqual(x: MediaComp)
    ensures CompEqual(CopyComp(x), x) && CompDoc(CopyComp(x)) == CompDoc(x)
  {
    if x.mediaInfo.Some? {
      CopiedMediaInfo(x.mediaInfo.value);
    }
  }

  lemma CopiedMediaInfo(x: MediaInfo)
    ensures var c := CopyMediaInfo(Some(x)).value;
      Codecs(c) == Codecs(x) && MediaInfoDoc(c) == MediaInfoDoc(x) && MediaInfoEqual(Some(c), Some(x))
  {
  }

  lemma CopiedCompsEqual(m: Comps)
    ensures CompsEqual(CopyComps(m), m) && CompsSlot(CopyComps(m)) == CompsSlot(m)
  {
    assert CopyComps(m).Keys == m.Keys;
    forall k | k in m
      ensures CompEqual(CopyComps(m)[k], m[k]) && CompDoc(CopyComps(m)[k]) == CompDoc(m[k])
    {
      CopiedCompEqual(m[k]);
    }
    CompsEqualMeans(CopyComps(m), m);
    SameCompsDoc(CopyComps(m), m);
  }

  lemma SameCompsDoc(a: Comps, b: Comps)
    requires a.Keys == b.Keys && forall k :: k in a ==> CompDoc(a[k]) == CompDoc(b[k])
    ensures CompsSlot(a) == CompsSlot(b)
  {
    NoKeys(a);
    NoKeys(b);
    MembersIncluded(a, b);
    MembersIncluded(b, a);
    SameMembers(CompsMembers(a), CompsMembers(b));
  }

  lemma NoKeys(m: Comps)
    ensures m == map[] <==> m.Keys == {}
  {
  }

  lemma SameMembers(x: map<string, Json>, y: map<string, Json>)
    requires forall k :: k in x ==> k in y && y[k] == x[k]
    requires forall k :: k in y ==> k in x
    ensures x == y
  {
    assert x.Keys == y.Keys;
  }

  lemma MembersIncluded(a: Comps, b: Comps)
    requires a.Keys == b.Keys && forall k :: k in a ==> CompDoc(a[k]) == CompDoc(b[k])
    ensures forall key :: key in CompsMembers(a) ==> key in CompsMembers(b) && CompsMembers(b)[key] == CompsMembers(a)[key]
  {
    forall key | key in CompsMembers(a)
      ensures key in CompsMembers(b) && CompsMembers(b)[key] == CompsMembers(a)[key]
    {
      var k :| k in a && CompKey(k) == key;
      assert k in a.Keys;
      MemberOfComps(a, k);
      MemberOfComps(b, k);
    }
  }

  predicate KeepsHash(dst: Option<Info>, src: Option<Info>) {
    dst.Some? && src.Some? && dst.value.comps.Some? ==> src.value.comps.Some?
  }

  lemma CopiedInfoEqual(dst: Option<Info>, src: Option<Info>)
    ensures InfoEqual(CopyInfo(dst, src), src) <==> KeepsHash(dst, src)
    ensures SlotOf(CopyInfo(dst, src), InfoDoc) == SlotOf(src, InfoDoc)
  {
    if src.Some? {
      if src.value.comps.Some? {
        CopiedCompsEqual(src.value.comps.value);
      }
      assert CompsSlot(CompsOf(CopyInfo(dst, src).value)) == CompsSlot(CompsOf(src.value));
    }
  }

  lemma CopiedAreaEqual(x: Option<Area>)
    ensures AreaEqual(CopyArea(x), x)
  {
    if x.Some? {
      SameRelations();
      Reflexive(CopyNcgiTais(x.value.ncgiTais), SameNcgiTai);
      Reflexive(x.value.tais, SameTai);
    }
  }

  lemma ExtEqualItself(x: Option<ExtArea>)
    ensures ExtEqual(x, x)
  {
    if x.Some? {
      SameRelations();
      Reflexive(x.value.civics, SameCivic);
    }
  }

  predicate ValidAddresses(x: Session) {
    (x.ssm.Some? ==> !x.ssm.value.family.NoFamily?) && (x.associatedId.Some? ==> !x.associatedId.value.ssm.family.NoFamily?)
  }

  /** What must hold for a copy to compare equal to its source. */
  predicate CopiesWell(dst: Option<Session>, src: Session) {
    && src.terminationTime == (if dst.Some? then dst.value.terminationTime else None)
    && ValidAddresses(src)
    && KeepsHash(if dst.Some? then dst.value.serviceInfo else None, src.serviceInfo)
  }

  /** A copy, made anew or over an old one, compares equal to its source if and only if the source copies well. */
  lemma CopyEquals(dst: Option<Session>, src: Session)
    ensures SessionEqual(PublicCopy(dst, src), src) <==> CopiesWell(dst, src)
  {
    CopiedInfoEqual(if dst.Some? then dst.value.serviceInfo else None, src.serviceInfo);
    CopiedAreaEqual(src.serviceArea);
    ExtEqualItself(src.extServiceArea);
  }

  // ---------- The document of a copy ----------

  predicate NoCells(x: Option<Area>) {
    x.Some? ==> forall i :: 0 <= i < |x.value.ncgiTais| ==> x.value.ncgiTais[i].cells == []
  }

  lemma CopiedAreaSlot(x: Option<Area>)
    ensures AreaSlot(CopyArea(x)) == AreaSlot(x) <==> NoCells(x)
  {
    if x.Some? {
      var s, c := x.value.ncgiTais, CopyNcgiTais(x.value.ncgiTais);
      if NoCells(x) {
        assert c == s;
      } else if AreaSlot(CopyArea(x)) == AreaSlot(x) {
        AreaNames();
        MembersInjective(AREA_NAMES, AreaSlots(x.value), AreaSlots(CopyArea(x).value), 0);
        NcgiTaisInjective(s, c);
        assert false;
      }
    }
  }

  lemma ListSlotInjective<T>(a: seq<T>, b: seq<T>, doc: T -> Json)
    requires ListSlot(a, doc) == ListSlot(b, doc)
    requires forall i :: 0 <= i < |a| && i < |b| && doc(a[i]) == doc(b[i]) ==> a[i] == b[i]
    ensures a == b
  {
    var x, y := Docs(a, doc), Docs(b, doc);
    forall i | 0 <= i < |a|
      ensures i < |b| && a[i] == b[i]
    {
      assert x[i] == y[i];
    }
  }

  lemma NcgiTaisInjective(a: seq<NcgiTai>, b: seq<NcgiTai>)
    requires ListSlot(a, NcgiTaiDoc) == ListSlot(b, NcgiTaiDoc)
    ensures a == b
  {
    forall i | 0 <= i < |a| && i < |b| && NcgiTaiDoc(a[i]) == NcgiTaiDoc(b[i])
      ensures a[i] == b[i]
    {
      NcgiTaiDocInjective(a[i], b[i]);
    }
    ListSlotInjective(a, b, NcgiTaiDoc);
  }

  lemma StructuredOfDoc(x: Session)
    ensures var m := SessionDoc(x).members;
      && Member(m, UPDATABLE_NAMES[1]) == AreaSlot(x.serviceArea)
      && Member(m, UPDATABLE_NAMES[2]) == ExtSlot(x.extServiceArea)
      && Member(m, UPDATABLE_NAMES[3]) == SlotOf(x.serviceInfo, InfoDoc)
  {
    UpdatableNames();
    SlotsAt(x);
    MembersAt(FixedMembers(x), UPDATABLE_NAMES, UpdatableSlots(x), 1);
    MembersAt(FixedMembers(x), UPDATABLE_NAMES, UpdatableSlots(x), 2);
    MembersAt(FixedMembers(x), UPDATABLE_NAMES, UpdatableSlots(x), 3);
  }

  predicate SameSimple(a: Session, b: Session) {
    a.contactPcfInd == b.contactPcfInd && a.fsaIds == b.fsaIds && a.activityStatus == b.activityStatus
  }

  predicate SameStructured(a: Session, b: Session) {
    && AreaSlot(a.serviceArea) == AreaSlot(b.serviceArea)
    && ExtSlot(a.extServiceArea) == ExtSlot(b.extServiceArea)
    && SlotOf(a.serviceInfo, InfoDoc) == SlotOf(b.serviceInfo, InfoDoc)
  }

  lemma SameSlots(a: Session, b: Session)
    requires SameSimple(a, b) && SameStructured(a, b)
    ensures UpdatableSlots(a) == UpdatableSlots(b)
  {
  }

  predicate SameFixed(a: Session, b: Session) {
    && a.tmgiReq == b.tmgiReq && a.tunnelReq == b.tunnelReq && a.locationDependent == b.locationDependent
    && a.anyUeInd == b.anyUeInd && a.ssm == b.ssm && a.dnn == b.dnn && a.snssai == b.snssai
    && a.startTime == b.startTime && a.terminationTime == b.terminationTime
  }

  lemma SameFixedMembers(a: Session, b: Session)
    requires SameFixed(a, b)
    ensures FixedMembers(a) == FixedMembers(b)
  {
  }

  lemma SameDocs(a: Session, b: Session)
    requires SameFixed(a, b) && SameSimple(a, b)
    ensures SessionDoc(a) == SessionDoc(b) <==> SameStructured(a, b)
  {
    SameFixedMembers(a, b);
    if SameStructured(a, b) {
      SameSlots(a, b);
    }
    StructuredOfDoc(a);
    StructuredOfDoc(b);
  }

  lemma TerminationTimeOfDoc(x: Session)
    ensures Member(SessionDoc(x).members, "terminationTime") == SlotOf(x.terminationTime, TimeDoc)
  {
    assert |"terminationTime"| == 15;
    MembersElsewhere(FixedMembers(x), UPDATABLE_NAMES, UpdatableSlots(x), "terminationTime");
    TerminationTimeOf(x);
  }

  lemma TerminationTimeOf(x: Session)
    ensures Member(FixedMembers(x), "terminationTime") == SlotOf(x.terminationTime, TimeDoc)
  {
    var slots := [FlagSlot(x.tmgiReq), FlagSlot(x.tunnelReq), FlagSlot(x.locationDependent), FlagSlot(x.anyUeInd),
       SlotOf(x.ssm, SsmDoc), SlotOf(x.dnn, TextDoc), SlotOf(x.snssai, SnssaiDoc),
       SlotOf(x.startTime, TimeDoc), SlotOf(x.terminationTime, TimeDoc)];
    assert FIXED_NAMES[8] == "terminationTime" && |"terminationTime"| == 15;
    MembersAt(map[], FIXED_NAMES, slots, 8);
  }

  lemma CopySlots(dst: Option<Session>, src: Session)
    ensures var c := PublicCopy(dst, src);
      && SameSimple(c, src) && ExtSlot(c.extServiceArea) == ExtSlot(src.extServiceArea)
      && SlotOf(c.serviceInfo, InfoDoc) == SlotOf(src.serviceInfo, InfoDoc)
      && (AreaSlot(c.serviceArea) == AreaSlot(src.serviceArea) <==> NoCells(src.serviceArea))
      && (SameFixed(c, src) <==> c.terminationTime == src.terminationTime)
  {
    CopiedAreaSlot(src.serviceArea);
    CopiedInfoEqual(if dst.Some? then dst.value.serviceInfo else None, src.serviceInfo);
  }

  lemma SameTermination(a: Session, b: Session)
    requires SessionDoc(a) == SessionDoc(b)
    ensures a.terminationTime == b.terminationTime
  {
    TerminationTimeOfDoc(a);
    TerminationTimeOfDoc(b);
  }

  /** The copy stands for the same document if and only if no cells are listed and the termination time is already its own. */
  lemma CopyKeepsDocument(dst: Option<Session>, src: Session)
    ensures SessionDoc(PublicCopy(dst, src)) == SessionDoc(src) <==>
            NoCells(src.serviceArea) && src.terminationTime == (if dst.Some? then dst.value.terminationTime else None)
  {
    var c := PublicCopy(dst, src);
    if c.terminationTime == src.terminationTime {
      CopySlots(dst, src);
      SameDocs(c, src);
    } else if SessionDoc(c) == SessionDoc(src) {
      SameTermination(c, src);
    }
  }

  // ---------- What the comparison does not see ----------

  /** Two optional rates that print alike. */
  predicate SameRate(m: Option<nat>, n: Option<nat>) {
    m.Some? == n.Some? && (m.Some? ==> PrintAlike(m.value, n.value))
  }

  lemma BitRateSlots(m: Option<nat>, n: Option<nat>)
    ensures SlotOf(m, BitRateDoc) == SlotOf(n, BitRateDoc) <==> SameRate(m, n)
  {
    if m.Some? && n.Some? {
      RateTextMeans(m.value, n.value);
    }
  }

  /** Bit rates, as they are printed, and the order of the codecs. */
  predicate SeesMediaInfo(a: MediaInfo, b: MediaInfo) {
    SameRate(a.maxBandwidth, b.maxBandwidth) && SameRate(a.minBandwidth, b.minBandwidth) && Codecs(a) == Codecs(b)
  }

  lemma EqualMediaInfoDocs(a: MediaInfo, b: MediaInfo)
    requires MediaInfoEqual(Some(a), Some(b))
    ensures MediaInfoDoc(a) == MediaInfoDoc(b) <==> SeesMediaInfo(a, b)
  {
    BitRateSlots(a.maxBandwidth, b.maxBandwidth);
    BitRateSlots(a.minBandwidth, b.minBandwidth);
    if MediaInfoDoc(a) == MediaInfoDoc(b) {
      MediaNames();
      var x, y := MediaInfoSlots(a), MediaInfoSlots(b);
      MembersInjective(MEDIA_NAMES, x, y, 1);
      MembersInjective(MEDIA_NAMES, x, y, 2);
      MembersInjective(MEDIA_NAMES, x, y, 3);
      ListSlotInjective(Codecs(a), Codecs(b), TextDoc);
    }
  }

  /** The id, the texts of the flow descriptions, and what the comparison of media information leaves out. */
  predicate SeesComp(a: MediaComp, b: MediaComp) {
    && a.id == b.id && Flows(a) == Flows(b)
    && (a.mediaInfo.Some? && b.mediaInfo.Some? ==> SeesMediaInfo(a.mediaInfo.value, b.mediaInfo.value))
  }

  lemma EqualCompDocs(a: MediaComp, b: MediaComp)
    requires CompEqual(a, b)
    ensures CompDoc(a) == CompDoc(b) <==> SeesComp(a, b)
  {
    if a.mediaInfo.Some? {
      EqualMediaInfoDocs(a.mediaInfo.value, b.mediaInfo.value);
    }
    if CompDoc(a) == CompDoc(b) {
      CompNames();
      var x, y := CompSlots(a), CompSlots(b);
      MembersInjective(COMP_NAMES, x, y, 0);
      MembersInjective(COMP_NAMES, x, y, 1);
      MembersInjective(COMP_NAMES, x, y, 3);
      ListSlotInjective(Flows(a), Flows(b), TextDoc);
    } else {
      assert CompSlots(a) != CompSlots(b);
    }
  }

  predicate SeesInfo(a: Option<Info>, b: Option<Info>) {
    a.Some? && b.Some? ==>
      forall k :: k in CompsOf(a.value) && k in CompsOf(b.value) ==> SeesComp(CompsOf(a.value)[k], CompsOf(b.value)[k])
  }

  lemma EqualInfoDocs(a: Option<Info>, b: Option<Info>)
    requires InfoEqual(a, b)
    ensures SlotOf(a, InfoDoc) == SlotOf(b, InfoDoc) <==> SeesInfo(a, b)
  {
    if a.Some? {
      var x, y := CompsOf(a.value), CompsOf(b.value);
      CompsEqualMeans(x, y);
      EqualCompsSlots(x, y);
      if InfoDoc(a.value) == InfoDoc(b.value) {
        InfoNames();
        MembersInjective(INFO_NAMES, InfoSlots(a.value), InfoSlots(b.value), 0);
      } else {
        assert InfoSlots(a.value) != InfoSlots(b.value);
      }
    }
  }

  lemma EqualCompsSlots(x: Comps, y: Comps)
    requires CompsEqual(x, y)
    ensures CompsSlot(x) == CompsSlot(y) <==> forall k :: k in x && k in y ==> SeesComp(x[k], y[k])
  {
    CompsEqualMeans(x, y);
    forall k | k in x && k in y
      ensures CompDoc(x[k]) == CompDoc(y[k]) <==> SeesComp(x[k], y[k])
      ensures CompsSlot(x) == CompsSlot(y) ==> CompDoc(x[k]) == CompDoc(y[k])
    {
      EqualCompDocs(x[k], y[k]);
      MemberOfComps(x, k);
      MemberOfComps(y, k);
    }
    if forall k :: k in x && k in y ==> SeesComp(x[k], y[k]) {
      forall k | k in x
        ensures CompDoc(x[k]) == CompDoc(y[k])
      {
        assert k in x.Keys;
      }
      SameCompsDoc(x, y);
    }
  }

  lemma EqualAreaSlots(a: Option<Area>, b: Option<Area>)
    requires AreaEqual(a, b)
    ensures AreaSlot(a) == AreaSlot(b) <==> a == b
  {
    if a.Some? && AreaSlot(a) == AreaSlot(b) && !Hollow(a) {
      AreaNames();
      MembersInjective(AREA_NAMES, AreaSlots(a.value), AreaSlots(b.value), 0);
      MembersInjective(AREA_NAMES, AreaSlots(a.value), AreaSlots(b.value), 1);
      NcgiTaisInjective(a.value.ncgiTais, b.value.ncgiTais);
      TaisInjective(a.value.tais, b.value.tais);
    }
  }

  lemma TaisInjective(a: seq<Tai>, b: seq<Tai>)
    requires ListSlot(a, TaiDoc) == ListSlot(b, TaiDoc)
    ensures a == b
  {
    forall i | 0 <= i < |a| && i < |b| && TaiDoc(a[i]) == TaiDoc(b[i])
      ensures a[i] == b[i]
    {
      TaiDocInjective(a[i], b[i]);
    }
    ListSlotInjective(a, b, TaiDoc);
  }

  lemma CivicDocInjective(a: Civic, b: Civic)
    requires CivicDoc(a) == CivicDoc(b)
    ensures a == b
  {
    var x, y := CivicDoc(a).members, CivicDoc(b).members;
    assert x.Keys == a.Keys && y.Keys == b.Keys;
    forall k | k in a
      ensures k in b && a[k] == b[k]
    {
      assert x[k] == y[k];
    }
  }

  lemma EqualExtSlots(a: Option<ExtArea>, b: Option<ExtArea>)
    requires ExtEqual(a, b)
    ensures ExtSlot(a) == ExtSlot(b) <==> a == b
  {
    if a.Some? && ExtSlot(a) == ExtSlot(b) && !ExtHollow(a) {
      AreaNames();
      var x, y := a.value.civics, b.value.civics;
      MembersInjective(EXT_NAMES, ExtSlots(a.value), ExtSlots(b.value), 0);
      forall i | 0 <= i < |x| && i < |y| && CivicDoc(x[i]) == CivicDoc(y[i])
        ensures x[i] == y[i]
      {
        CivicDocInjective(x[i], y[i]);
      }
      ListSlotInjective(x, y, CivicDoc);
    }
  }

  /**
   What the comparison of sessions does not see. Sessions that compare equal stand for the same document
   if and only if also the areas list the same in the same order, cells included, and the components agree in their
   flow descriptions, bit rates and order of codecs.
   */
  lemma EqualSessionsDocs(a: Session, b: Session)
    requires SessionEqual(a, b)
    ensures SessionDoc(a) == SessionDoc(b) <==>
            && a.serviceArea == b.serviceArea
            && a.extServiceArea == b.extServiceArea
            && SeesInfo(a.serviceInfo, b.serviceInfo)
  {
    EqualAreaSlots(a.serviceArea, b.serviceArea);
    EqualExtSlots(a.extServiceArea, b.extServiceArea);
    EqualInfoDocs(a.serviceInfo, b.serviceInfo);
    SameDocs(a, b);
  }

  // ---------- The comparison is an equivalence of sessions with valid addresses ----------

  lemma ComparesWithItself(x: Session)
    ensures SessionEqual(x, x) <==> ValidAddresses(x)
  {
    AreaEqualItself(x.serviceArea);
    ExtEqualItself(x.extServiceArea);
  }

  lemma AreaEqualItself(x: Option<Area>)
    ensures AreaEqual(x, x)
  {
    if x.Some? {
      SameRelations();
      InOrderIsEqual(x.value.ncgiTais, CopyNcgiTais(x.value.ncgiTais), SameNcgiTai);
      Reflexive(x.value.tais, SameTai);
    }
  }

  lemma ComparesBothWays(a: Session, b: Session)
    requires SessionEqual(a, b)
    ensures SessionEqual(b, a)
  {
    AreaEqualBothWays(a.serviceArea, b.serviceArea);
    ExtEqualBothWays(a.extServiceArea, b.extServiceArea);
    InfoEqualBothWays(a.serviceInfo, b.serviceInfo);
  }

  lemma AreaEqualBothWays(a: Option<Area>, b: Option<Area>)
    requires AreaEqual(a, b)
    ensures AreaEqual(b, a)
  {
    if a.Some? {
      SameRelations();
      CopyTransparent(a.value.ncgiTais, b.value.ncgiTais);
      CopyTransparent(b.value.ncgiTais, a.value.ncgiTais);
      Symmetric(a.value.ncgiTais, b.value.ncgiTais, SameNcgiTai);
      Symmetric(a.value.tais, b.value.tais, SameTai);
    }
  }

  lemma CopyTransparent(x: seq<NcgiTai>, y: seq<NcgiTai>)
    ensures GreedyEqual(x, CopyNcgiTais(y), SameNcgiTai) <==> GreedyEqual(x, y, SameNcgiTai)
  {
    SameRelations();
    GreedyDecides(x, y, SameNcgiTai);
    GreedyDecides(x, CopyNcgiTais(y), SameNcgiTai);
    assert forall p :: Pairing(p, x, y, SameNcgiTai) <==> Pairing(p, x, CopyNcgiTais(y), SameNcgiTai);
  }

  lemma ExtEqualBothWays(a: Option<ExtArea>, b: Option<ExtArea>)
    requires ExtEqual(a, b)
    ensures ExtEqual(b, a)
  {
    if a.Some? {
      SameRelations();
      Symmetric(a.value.civics, b.value.civics, SameCivic);
    }
  }

  lemma InfoEqualBothWays(a: Option<Info>, b: Option<Info>)
    requires InfoEqual(a, b)
    ensures InfoEqual(b, a)
  {
    if a.Some? && a.value.comps.Some? {
      var x, y := a.value.comps.value, b.value.comps.value;
      CompsEqualMeans(x, y);
      CompsEqualMeans(y, x);
      forall k | k in y
        ensures CompEqual(y[k], x[k])
      {
        assert k in x.Keys && k in x;
      }
    }
  }

  lemma ComparesOnward(a: Session, b: Session, c: Session)
    requires SessionEqual(a, b) && SessionEqual(b, c)
    ensures SessionEqual(a, c)
  {
    AreaEqualOnward(a.serviceArea, b.serviceArea, c.serviceArea);
    if a.extServiceArea.Some? {
      SameRelations();
      Transitive(a.extServiceArea.value.civics, b.extServiceArea.value.civics, c.extServiceArea.value.civics, SameCivic);
    }
    InfoEqualOnward(a.serviceInfo, b.serviceInfo, c.serviceInfo);
  }

  lemma AreaEqualOnward(a: Option<Area>, b: Option<Area>, c: Option<Area>)
    requires AreaEqual(a, b) && AreaEqual(b, c)
    ensures AreaEqual(a, c)
  {
    if a.Some? {
      SameRelations();
      CopyTransparent(a.value.ncgiTais, b.value.ncgiTais);
      CopyTransparent(b.value.ncgiTais, c.value.ncgiTais);
      CopyTransparent(a.value.ncgiTais, c.value.ncgiTais);
      Transitive(a.value.ncgiTais, b.value.ncgiTais, c.value.ncgiTais, SameNcgiTai);
      Transitive(a.value.tais, b.value.tais, c.value.tais, SameTai);
    }
  }

  lemma InfoEqualOnward(a: Option<Info>, b: Option<Info>, c: Option<Info>)
    requires InfoEqual(a, b) && InfoEqual(b, c)
    ensures InfoEqual(a, c)
  {
    if a.Some? && a.value.comps.Some? {
      var x, y, z := a.value.comps.value, b.value.comps.value, c.value.comps.value;
      forall k | k in x
        ensures k in z && CompEqual(x[k], z[k])
      {
        assert k in y;
      }
    }
  }
}
