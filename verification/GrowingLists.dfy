/**
 An update that appends an element to a list, applied again: the element is appended once more.
 */
module GrowingLists {
  import opened Options
  import opened JsonDocument
  import opened JsonPatch
  import opened ObjectDiff
  import opened Structure
  import opened ListDiff
  import opened QosRequirements
  import opened MediaComponents
  import opened ServiceInfo
  import opened ServiceAreas
  import opened SessionDiff
  import opened ListEquality
  import opened SessionCopy
  import opened UnchangedSession
  import Sequences

  /** The session has an area that lists tracking areas. */
  predicate ListsTais(p: Session) {
    p.serviceArea.Some? && p.serviceArea.value.tais != []
  }

  /** The session with n more tracking areas t at the end of its list. */
  function Grown(p: Session, t: Tai, n: nat): Session
    requires p.serviceArea.Some?
  {
    p.(serviceArea := Some(p.serviceArea.value.(tais := p.serviceArea.value.tais + Sequences.Copies(t, n))))
  }

  lemma GrownOnce(p: Session, t: Tai)
    requires p.serviceArea.Some?
    ensures Grown(p, t, 0) == p
    ensures Grown(p, t, 1).serviceArea.value.tais == p.serviceArea.value.tais + [t]
  {
    assert p.serviceArea.value.tais + [] == p.serviceArea.value.tais;
    assert Sequences.Copies(t, 0) + [t] == [t];
  }

  // ---------- The list ----------

  lemma {:induction false} WholePrefix<T>(a: seq<T>, b: seq<T>, same: (T, T) -> bool)
    requires |a| <= |b| && forall i :: 0 <= i < |a| ==> same(a[i], b[i])
    ensures CommonPrefix(a, b, same) == |a|
  {
    if a != [] {
      WholePrefix(a[1..], b[1..], same);
    }
  }

  lemma OneMoreDiff(s: seq<Tai>, t: Tai)
    requires s != []
    ensures TaisDiff(s, s + [t]) == [Add("/-", TaiDoc(t))]
  {
    WholePrefix(s, s + [t], SameTai);
    assert s[|s|..] == [] && (s + [t])[|s|..] == [t] && [t][1..] == [];
    assert TailDiff<Tai>([], [], |s| + 1, SameTai, TaiDoc, AtDash) == [];
  }

  /** The diff for one more element appends it to the list that is there, however long that is by now. */
  lemma AppendsOneMore(s: seq<Tai>, t: Tai, n: nat)
    requires s != []
    ensures ApplyAllToSlot(ListSlot(s + Sequences.Copies(t, n), TaiDoc), TaisDiff(s, s + [t]))
         == Some(ListSlot(s + Sequences.Copies(t, n + 1), TaiDoc))
  {
    var xs := Docs(s + Sequences.Copies(t, n), TaiDoc);
    OneMoreDiff(s, t);
    OnePatch(Some(Array(xs)), Add("/-", TaiDoc(t)));
    AddAtEnd(xs, TaiDoc(t), AtDash);
    assert xs + [TaiDoc(t)] == Docs(s + Sequences.Copies(t, n + 1), TaiDoc);
  }

  // ---------- The area and the session ----------

  lemma AreaGrows(a: Area, t: Tai, n: nat)
    requires a.tais != []
    ensures var more := a.(tais := a.tais + [t]);
      && Relative(AreaDiff(Some(a), Some(more)))
      && ApplyAllToSlot(AreaSlot(Some(a.(tais := a.tais + Sequences.Copies(t, n)))), AreaDiff(Some(a), Some(more)))
         == Some(AreaSlot(Some(a.(tais := a.tais + Sequences.Copies(t, n + 1)))))
  {
    var more, x, y := a.(tais := a.tais + [t]), a.(tais := a.tais + Sequences.Copies(t, n)), a.(tais := a.tais + Sequences.Copies(t, n + 1));
    AreaDiffApplies(Some(a), Some(more));
    AreaAttributes(a, more);
    AppendsOneMore(a.tais, t, n);
    NcgiTaisDiffApplies(a.ncgiTais, a.ncgiTais);
    NoTailDiff(a.ncgiTais, a.ncgiTais, SameNcgiTai, NcgiTaiDoc, AtPosition);
    AreaNames();
    SmallStructureReaches(map[], AREA_NAMES, AreaSlots(x), AreaSlots(y), AreaDiffs(a, more));
  }

  lemma CompExactItself(x: MediaComp)
    ensures CompExact(x, x)
  {
  }

  lemma InfoExactItself(x: Option<Info>)
    ensures InfoExact(x, x)
  {
    if x.Some? {
      forall k | k in CompsOf(x.value)
        ensures CompExact(CompsOf(x.value)[k], CompsOf(x.value)[k])
      {
        CompExactItself(CompsOf(x.value)[k]);
      }
    }
  }

  lemma ContactStands(p: Session, t: Tai, n: nat, orders: Orders)
    requires ListsTais(p) && SessionVisits(orders, p, Grown(p, t, 1))
    ensures ExactAt(UpdatableSlots(Grown(p, t, n)), SessionDiffs(p, Grown(p, t, 1), orders), UpdatableSlots(Grown(p, t, n + 1)), 0)
  {
    MandatoryDiffApplies(p.contactPcfInd, p.contactPcfInd, BoolDoc);
  }

  lemma ExtAreaStands(p: Session, t: Tai, n: nat, orders: Orders)
    requires ListsTais(p) && SessionVisits(orders, p, Grown(p, t, 1))
    ensures ExactAt(UpdatableSlots(Grown(p, t, n)), SessionDiffs(p, Grown(p, t, 1), orders), UpdatableSlots(Grown(p, t, n + 1)), 2)
  {
    ExtDiffApplies(p.extServiceArea, p.extServiceArea);
  }

  lemma FsaIdsAndActivityStand(p: Session, t: Tai, n: nat, orders: Orders)
    requires ListsTais(p) && SessionVisits(orders, p, Grown(p, t, 1))
    ensures var x, ds, y := UpdatableSlots(Grown(p, t, n)), SessionDiffs(p, Grown(p, t, 1), orders), UpdatableSlots(Grown(p, t, n + 1));
      ExactAt(x, ds, y, 4) && ExactAt(x, ds, y, 5)
  {
    ListDiff.PlainDiffApplies(p.fsaIds, p.fsaIds, SameFsaId, FsaIdDoc, ListDiff.AtPosition);
    OptionalDiffApplies(p.activityStatus, p.activityStatus, ActivityDoc);
  }

  lemma InfoStands(p: Session, t: Tai, n: nat, orders: Orders)
    requires ListsTais(p) && SessionVisits(orders, p, Grown(p, t, 1))
    ensures ExactAt(UpdatableSlots(Grown(p, t, n)), SessionDiffs(p, Grown(p, t, 1), orders), UpdatableSlots(Grown(p, t, n + 1)), 3)
  {
    InfoExactItself(p.serviceInfo);
    InfoDiffApplies(p.serviceInfo, p.serviceInfo, orders);
  }

  lemma AreaAt(p: Session, t: Tai, n: nat, orders: Orders)
    requires ListsTais(p) && SessionVisits(orders, p, Grown(p, t, 1))
    ensures ExactAt(UpdatableSlots(Grown(p, t, n)), SessionDiffs(p, Grown(p, t, 1), orders), UpdatableSlots(Grown(p, t, n + 1)), 1)
  {
    AreaGrows(p.serviceArea.value, t, n);
    GrownOnce(p, t);
  }

  lemma SameFixedMembersOf(p: Session, t: Tai, n: nat)
    requires p.serviceArea.Some?
    ensures FixedMembers(Grown(p, t, n)) == FixedMembers(p)
  {
  }

  /**
   The update that adds one tracking area, applied to the document of a session that has got n of it already, gives the
   document with n + 1 of it.
   */
  lemma UpdateAppendsAgain(p: Session, t: Tai, n: nat, orders: Orders)
    requires ListsTais(p) && SessionVisits(orders, p, Grown(p, t, 1))
    ensures ApplyAll(SessionDoc(Grown(p, t, n)), SessionPatches(p, Grown(p, t, 1), orders))
         == Some(SessionDoc(Grown(p, t, n + 1)))
  {
    var x, ds, y := UpdatableSlots(Grown(p, t, n)), SessionDiffs(p, Grown(p, t, 1), orders), UpdatableSlots(Grown(p, t, n + 1));
    ContactStands(p, t, n, orders);
    ExtAreaStands(p, t, n, orders);
    FsaIdsAndActivityStand(p, t, n, orders);
    InfoStands(p, t, n, orders);
    AreaAt(p, t, n, orders);
    SessionAttributes(p, Grown(p, t, 1), orders);
    UpdatableNames();
    SameFixedMembersOf(p, t, n);
    SameFixedMembersOf(p, t, n + 1);
    SmallStructureReaches(FixedMembers(p), UPDATABLE_NAMES, x, y, ds);
    SlotIsDocument(SessionDoc(Grown(p, t, n)), SessionPatches(p, Grown(p, t, 1), orders));
  }

  /** The comparison sees that a tracking area was added. */
  lemma GrownDiffers(p: Session, t: Tai)
    requires p.serviceArea.Some?
    ensures !SessionEqual(p, Grown(p, t, 1))
  {
    GrownOnce(p, t);
    var s := p.serviceArea.value.tais;
    SameRelations();
    GreedyDecides(s, s + [t], SameTai);
  }

  /** The documents of sessions with different numbers of it differ. */
  lemma GrownApart(p: Session, t: Tai, m: nat, n: nat)
    requires ListsTais(p) && SessionDoc(Grown(p, t, m)) == SessionDoc(Grown(p, t, n))
    ensures m == n
  {
    var a, b := Grown(p, t, m), Grown(p, t, n);
    StructuredOfDoc(a);
    StructuredOfDoc(b);
    var x, y := a.serviceArea.value, b.serviceArea.value;
    AreaNames();
    MembersInjective(AREA_NAMES, AreaSlots(x), AreaSlots(y), 1);
    TaisInjective(x.tais, y.tais);
    assert |x.tais| == |p.serviceArea.value.tais| + m;
  }
}
