/**
 The patch list of a session that has not changed since it was copied. Every update sends this list,
 the update of a subscription included.
 */
module UnchangedSession {
  import opened Options
  import opened JsonDocument
  import opened JsonPatch
  import opened ObjectDiff
  import opened Structure
  import opened ListDiff
  import opened QosRequirements
  import opened MediaComponents
  import opened ServiceInfo
  import opened ServiceAreas
  import opened SessionDiff
  import opened SessionCopy

  /** A list diff has no operation when the lists compare equal in order. */
  lemma NoTailDiff<T>(a: seq<T>, b: seq<T>, same: (T, T) -> bool, doc: T -> Json, style: AddStyle)
    requires |a| == |b| && forall i :: 0 <= i < |a| ==> same(a[i], b[i])
    ensures PlainDiff(a, b, same, doc, style) == []
    ensures PrefixDiff(a, b, same, doc, style) == []
  {
    DiffSize(a, b, same, doc, style);
  }

  lemma NoAreaDiff(x: Option<Area>)
    ensures AreaDiff(CopyArea(x), x) == []
  {
    if x.Some? {
      var c := CopyArea(x).value;
      NoTailDiff(c.ncgiTais, x.value.ncgiTais, SameNcgiTai, NcgiTaiDoc, AtPosition);
      NoTailDiff(c.tais, x.value.tais, SameTai, TaiDoc, AtDash);
      var ds := AreaDiffs(c, x.value);
      AssembleEmpty(EditsOf(AREA_NAMES, ds));
      assert forall i :: 0 <= i < |AREA_NAMES| ==> EditsOf(AREA_NAMES, ds)[i].diff == ds[i];
      assert ds[0] == [] && ds[1] == [];
    }
  }

  lemma NoExtDiff(x: Option<ExtArea>)
    ensures ExtDiff(x, x) == []
  {
    if x.Some? {
      NoTailDiff(x.value.civics, x.value.civics, SameCivic, CivicDoc, AtDash);
      AssembleEmpty(EditsOf(EXT_NAMES, ExtDiffs(x.value, x.value)));
    }
  }

  lemma NoMediaInfoDiff(x: Option<MediaInfo>)
    ensures MediaInfoDiff(CopyMediaInfo(x), x) == []
  {
    if x.Some? {
      var c := CopyMediaInfo(x).value;
      assert Codecs(c) == Codecs(x.value);
      AssembleEmpty(EditsOf(MEDIA_NAMES, MediaInfoDiffs(c, x.value)));
    }
  }

  lemma NoQosReqDiff(x: Option<QosReq>)
    ensures QosReqDiff(x, x) == []
  {
    if x.Some? {
      QosReqDiffEmpty(x.value, x.value);
    }
  }

  lemma NoCompDiff(x: MediaComp)
    ensures CompDiff(CopyComp(x), x) == []
  {
    var c := CopyComp(x);
    NoTailDiff(Flows(c), Flows(x), SameFlow, TextDoc, AtDash);
    NoMediaInfoDiff(x.mediaInfo);
    NoQosReqDiff(x.qosReq);
    var ds := CompDiffs(c, x);
    assert ds[0] == [] && ds[1] == [] && ds[2] == [] && ds[3] == [] && ds[4] == [] && ds[5] == [];
    AssembleEmpty(EditsOf(COMP_NAMES, ds));
  }

  lemma CopiedAt(m: Comps, k: int)
    requires k in m
    ensures k in CopyComps(m) && CopyComps(m)[k] == CopyComp(m[k])
  {
  }

  predicate AllEmpty(edits: seq<Edit>) {
    forall i :: 0 <= i < |edits| ==> edits[i].diff == []
  }

  lemma {:induction false} NothingChangedOrRemoved(a: Comps, m: Comps, order: seq<int>)
    requires forall k :: k in order ==> k in m && k in a && CompDiff(a[k], m[k]) == []
    ensures AllEmpty(ChangedOrRemoved(a, m, order))
  {
    if order != [] {
      var k := order[0];
      assert k in order;
      NothingChangedOrRemoved(a, m, order[1..]);
      var es := ChangedOrRemoved(a, m, order);
      assert es == [Edit(CompKey(k), [])] + ChangedOrRemoved(a, m, order[1..]);
    }
  }

  lemma {:induction false} NothingAdded(a: Comps, m: Comps, order: seq<int>)
    requires forall k :: k in order ==> k in m && k in a
    ensures Added(a, m, order) == []
  {
    if order != [] {
      assert order[0] in order;
      NothingAdded(a, m, order[1..]);
    }
  }

  lemma CopyHasKeys(m: Comps, order: seq<int>)
    requires forall k :: k in order ==> k in m || k in CopyComps(m)
    ensures forall k :: k in order ==> k in m && k in CopyComps(m) && CompDiff(CopyComps(m)[k], m[k]) == []
  {
    forall k | k in order
      ensures k in m && k in CopyComps(m) && CompDiff(CopyComps(m)[k], m[k]) == []
    {
      CopiedAt(m, k);
      NoCompDiff(m[k]);
    }
  }

  lemma CopyIsEmpty(m: Comps)
    ensures CopyComps(m) == map[] <==> m == map[]
  {
    if k :| k in m {
      CopiedAt(m, k);
    }
  }

  lemma NoCompsDiff(m: Comps, orders: Orders)
    requires Visits(orders.first, CopyComps(m)) && Visits(orders.second, m)
    ensures CompsDiff(CopyComps(m), m, orders) == []
  {
    CopyIsEmpty(m);
    CopyHasKeys(m, orders.first);
    CopyHasKeys(m, orders.second);
    NothingDiffers(CopyComps(m), m, orders);
  }

  lemma NothingDiffers(a: Comps, m: Comps, orders: Orders)
    requires Visits(orders.first, a) && Visits(orders.second, m) && (a == map[] <==> m == map[])
    requires forall k :: k in orders.first ==> k in m && k in a && CompDiff(a[k], m[k]) == []
    requires forall k :: k in orders.second ==> k in m && k in a
    ensures CompsDiff(a, m, orders) == []
  {
    NothingChangedOrRemoved(a, m, orders.first);
    NothingAdded(a, m, orders.second);
    var es := ChangedOrRemoved(a, m, orders.first);
    AssembleEmpty(es);
    assert es + [] == es;
  }

  predicate RestatesAppId(x: Option<Info>) {
    x.Some? && x.value.afAppId.Some?
  }

  lemma InfoDiffRestates(dst: Option<Info>, x: Option<Info>, orders: Orders)
    requires InfoVisits(orders, CopyInfo(dst, x), x)
    ensures InfoDiff(CopyInfo(dst, x), x, orders) == [] <==> !RestatesAppId(x)
  {
    if x.Some? {
      var c := CopyInfo(dst, x).value;
      var m := CompsOf(x.value);
      assert CompsOf(c) == CopyComps(m);
      NoCompsDiff(m, orders);
      var ds := InfoDiffs(c, x.value, orders);
      AssembleEmpty(EditsOf(INFO_NAMES, ds));
      assert ds[0] == [] && ds[1] == [] && ds[3] == [];
      assert ds[2] == [] <==> x.value.afAppId.None?;
      assert forall i :: 0 <= i < |INFO_NAMES| ==> EditsOf(INFO_NAMES, ds)[i].diff == ds[i];
    }
  }

  lemma UnchangedAttributes(dst: Option<Session>, x: Session, orders: Orders)
    requires SessionVisits(orders, PublicCopy(dst, x), x)
    ensures var ds := SessionDiffs(PublicCopy(dst, x), x, orders);
      && ds[0] == [] && ds[1] == [] && ds[2] == [] && ds[4] == [] && ds[5] == []
      && (ds[3] == [] <==> !RestatesAppId(x.serviceInfo))
  {
    var c := PublicCopy(dst, x);
    NoAreaDiff(x.serviceArea);
    NoExtDiff(x.extServiceArea);
    InfoDiffRestates(if dst.Some? then dst.value.serviceInfo else None, x.serviceInfo, orders);
    NoTailDiff(c.fsaIds, x.fsaIds, SameFsaId, FsaIdDoc, AtPosition);
  }

  lemma SixEmpty(names: seq<string>, ds: seq<seq<Patch>>)
    requires |names| == |ds| == 6
    requires ds[0] == [] && ds[1] == [] && ds[2] == [] && ds[4] == [] && ds[5] == []
    ensures Assemble(EditsOf(names, ds)) == [] <==> ds[3] == []
  {
    AssembleEmpty(EditsOf(names, ds));
    assert forall i :: 0 <= i < 6 ==> EditsOf(names, ds)[i].diff == ds[i];
  }

  /**
   A session that is as it was when the copy was made has an empty patch list if and only if it has no application
   id: that one is compared by its address, so it is sent again every time.
   */
  lemma UnchangedPatches(dst: Option<Session>, x: Session, orders: Orders)
    requires SessionVisits(orders, PublicCopy(dst, x), x)
    ensures SessionPatches(PublicCopy(dst, x), x, orders) == [] <==> !RestatesAppId(x.serviceInfo)
  {
    UnchangedAttributes(dst, x, orders);
    SixEmpty(UPDATABLE_NAMES, SessionDiffs(PublicCopy(dst, x), x, orders));
  }
}
