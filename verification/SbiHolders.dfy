/** Who holds which SBI object, and which object a transaction points to, after each thing that the library does. */
module SbiHolders {
  import opened Options
  import opened SbiObjects

  function Held(s: State, h: Holder): Option<ObjId> {
    if h in s.holders then Some(s.holders[h]) else None
  }

  function PointedTo(s: State, x: XactId): Option<ObjId> {
    if x in s.xacts then Some(s.xacts[x]) else None
  }

  /**
   What holder h has after an event. A TMGI given to a session, or one that takes over an object, means the other holder's
   object from then on, or none if the other has none in the first case; in the second it keeps nothing either. A request
   makes a new object only for a holder without one, and an allocation one for all of its TMGIs.
   */
  function HeldAfter(s: State, e: Event, h: Holder): Option<ObjId> {
    match e
    case Allocation(hs, _) => if h in hs then Some(s.next) else Held(s, h)
    case OnBehalf(g, _) => if h == g && h !in s.holders then Some(s.next) else Held(s, h)
    case TmgiSet(g, tmgi) => if h == g then Held(s, tmgi) else Held(s, h)
    case Replaced(g, source) => if h == g then Held(s, source) else Held(s, h)
    case Freed(g) => if h == g then None else Held(s, h)
    case DeleteAnswered(x, gone) => if x in s.xacts && h in gone then None else Held(s, h)
    case OtherAnswered(_) => Held(s, h)
  }

  lemma UnrefHolders(s: State, o: ObjId)
    ensures Unref(s, o).holders == s.holders
  {
  }

  lemma {:induction false} ReleaseAllHolders(s: State, hs: seq<Holder>, h: Holder)
    ensures Held(ReleaseAll(s, hs), h) == if h in hs then None else Held(s, h)
    decreases |hs|
  {
    if hs != [] {
      ReleaseAllHolders(Release(s, hs[0]), hs[1..], h);
    }
  }

  lemma AllocationHolds(s: State, hs: seq<Holder>, x: XactId, h: Holder)
    ensures Held(Allocate(s, hs, x), h) == if h in hs then Some(s.next) else Held(s, h)
  {
    GiveAllGives(New(s), hs, s.next, h);
  }

  lemma RequestHolds(s: State, g: Holder, x: XactId, h: Holder)
    ensures Held(Request(s, g, x), h) == if h == g && h !in s.holders then Some(s.next) else Held(s, h)
  {
  }

  /** A session that is given a TMGI holds that one's object, and nothing if that one has none. */
  lemma SetTmgiHolds(s: State, g: Holder, tmgi: Holder, h: Holder)
    ensures Held(SetTmgi(s, g, tmgi), h) == if h == g then Held(s, tmgi) else Held(s, h)
  {
  }

  /** A TMGI that takes over the object of another holder holds it from then on. */
  lemma ReplaceHolds(s: State, g: Holder, source: Holder, h: Holder)
    requires g != source
    ensures Held(ReplaceObject(s, g, source), h) == if h == g then Held(s, source) else Held(s, h)
  {
  }

  lemma DeleteHolds(s: State, x: XactId, gone: seq<Holder>, h: Holder)
    requires x in s.xacts
    ensures Held(DeleteResponse(s, x, gone), h) == if h in gone then None else Held(s, h)
  {
    var r := ReleaseAll(Ref(s, s.xacts[x]), gone);
    ReleaseAllHolders(Ref(s, s.xacts[x]), gone, h);
    UnrefHolders(RemoveXact(r, x), s.xacts[x]);
  }

  /** The holders after every event, whatever the state. */
  lemma StepHolds(s: State, e: Event, h: Holder)
    ensures Held(Step(s, e), h) == HeldAfter(s, e, h)
  {
    match e
    case Allocation(hs, x) => AllocationHolds(s, hs, x, h);
    case OnBehalf(g, x) => RequestHolds(s, g, x, h);
    case TmgiSet(g, tmgi) => SetTmgiHolds(s, g, tmgi, h);
    case Replaced(g, source) =>
      if g != source {
        ReplaceHolds(s, g, source, h);
      }
    case Freed(g) =>
    case DeleteAnswered(x, gone) =>
      if x in s.xacts {
        DeleteHolds(s, x, gone, h);
      }
    case OtherAnswered(x) =>
  }

  /** A request points to the object of its holder, an allocation to the one of its TMGIs, and an answered transaction is gone. */
  lemma StepPoints(s: State, e: Event, x: XactId)
    ensures e.Allocation? && e.xact == x ==> PointedTo(Step(s, e), x) == Some(s.next)
    ensures e.OnBehalf? && e.xact == x ==>
              PointedTo(Step(s, e), x) == Held(Step(s, e), e.holder) && Held(Step(s, e), e.holder).Some?
    ensures (e.OtherAnswered? || e.DeleteAnswered?) && e.xact == x ==> PointedTo(Step(s, e), x).None?
  {
  }

}
