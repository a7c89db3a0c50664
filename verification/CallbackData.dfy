/**
 The data of a session's three result callbacks. The application may hand the same data to several callbacks;
 it is to be freed once, when the last of them lets go of it.
 */
module CallbackData {
  import opened Options

  type DataId = nat

  datatype Which = Create | Update | Delete

  /** The data of a callback, and whether there is a function to free it. */
  datatype Slot = Slot(data: Option<DataId>, frees: bool)

  datatype State = State(create: Slot, update: Slot, delete: Slot, freed: seq<DataId>)

  const UNSET := Slot(None, false)
  const EMPTY := State(UNSET, UNSET, UNSET, [])

  function Get(s: State, w: Which): Slot {
    match w case Create => s.create case Update => s.update case Delete => s.delete
  }

  function Put(s: State, w: Which, slot: Slot): State {
    match w
    case Create => s.(create := slot)
    case Update => s.(update := slot)
    case Delete => s.(delete := slot)
  }

  predicate Uses(s: State, d: DataId) {
    exists w: Which :: Get(s, w).data == Some(d)
  }

  predicate UsedElsewhere(s: State, w: Which, d: DataId) {
    exists v: Which :: v != w && Get(s, v).data == Some(d)
  }

  // ---------- Steps ----------

  function Release(s: State, w: Which): State {
    var slot := Get(s, w);
    if slot.data.None? then s
    else
      var d := slot.data.value;
      Put(s, w, slot.(data := None)).(freed := if slot.frees && !UsedElsewhere(s, w, d) then s.freed + [d] else s.freed)
  }

  function Set(s: State, w: Which, data: Option<DataId>, frees: bool): State {
    Put(if Get(s, w).data != data then Release(s, w) else s, w, Slot(data, frees))
  }

  function SetAll(s: State, data: Option<DataId>, frees: bool): State {
    Set(Set(Set(s, Create, data, frees), Update, data, frees), Delete, data, frees)
  }

  function ReleaseAll(s: State): State {
    Release(Release(Release(s, Create), Update), Delete)
  }

  class Callbacks {
    var createData: Option<DataId>
    var updateData: Option<DataId>
    var deleteData: Option<DataId>
    var createFrees: bool
    var updateFrees: bool
    var deleteFrees: bool
    var deleted: bool
    ghost var freed: seq<DataId>

    ghost function Abs(): State
      reads this
    {
      State(Slot(createData, createFrees), Slot(updateData, updateFrees), Slot(deleteData, deleteFrees), freed)
    }

    constructor ()
      ensures Abs() == EMPTY && !deleted
    {
      deleted := false;
      createData, updateData, deleteData := None, None, None;
      createFrees, updateFrees, deleteFrees, freed := false, false, false, [];
    }

    method ReleaseCreate()
      modifies this
      ensures Abs() == Release(old(Abs()), Create) && deleted == old(deleted)
    {
      if createData.None? {
        return;
      }
      assert UsedElsewhere(Abs(), Create, createData.value) <==> createData == deleteData || createData == updateData by {
        assert Get(Abs(), Delete).data == deleteData && Get(Abs(), Update).data == updateData;
      }
      if createFrees && createData != deleteData && createData != updateData {
        freed := freed + [createData.value];
      }
      createData := None;
    }

    method ReleaseUpdate()
      modifies this
      ensures Abs() == Release(old(Abs()), Update) && deleted == old(deleted)
    {
      if updateData.None? {
        return;
      }
      assert UsedElsewhere(Abs(), Update, updateData.value) <==> updateData == createData || updateData == deleteData by {
        assert Get(Abs(), Create).data == createData && Get(Abs(), Delete).data == deleteData;
      }
      if updateFrees && updateData != createData && updateData != deleteData {
        freed := freed + [updateData.value];
      }
      updateData := None;
    }

    method ReleaseDelete()
      modifies this
      ensures Abs() == Release(old(Abs()), Delete) && deleted == old(deleted)
    {
      if deleteData.None? {
        return;
      }
      assert UsedElsewhere(Abs(), Delete, deleteData.value) <==> deleteData == createData || deleteData == updateData by {
        assert Get(Abs(), Create).data == createData && Get(Abs(), Update).data == updateData;
      }
      if deleteFrees && deleteData != createData && deleteData != updateData {
        freed := freed + [deleteData.value];
      }
      deleteData := None;
    }

    method SetCreate(data: Option<DataId>, frees: bool)
      modifies this
      ensures Abs() == Set(old(Abs()), Create, data, frees) && deleted == old(deleted)
    {
      if createData != data {
        ReleaseCreate();
      }
      createData, createFrees := data, frees;
    }

    method SetUpdate(data: Option<DataId>, frees: bool)
      modifies this
      ensures Abs() == Set(old(Abs()), Update, data, frees) && deleted == old(deleted)
    {
      if updateData != data {
        ReleaseUpdate();
      }
      updateData, updateFrees := data, frees;
    }

    method SetDelete(data: Option<DataId>, frees: bool)
      modifies this
      ensures Abs() == Set(old(Abs()), Delete, data, frees) && deleted == old(deleted)
    {
      if deleteData != data {
        ReleaseDelete();
      }
      deleteData, deleteFrees := data, frees;
    }

    /** All three at once are refused for a session that has been marked as deleted; one at a time they are not. */
    method SetCallbacks(data: Option<DataId>, frees: bool) returns (ok: bool)
      modifies this
      ensures ok == !old(deleted) && deleted == old(deleted)
      ensures Abs() == if old(deleted) then old(Abs()) else SetAll(old(Abs()), data, frees)
    {
      if deleted {
        return false;
      }
      SetCreate(data, frees);
      SetUpdate(data, frees);
      SetDelete(data, frees);
      return true;
    }

    method ReleaseCallbacks()
      modifies this
      ensures Abs() == ReleaseAll(old(Abs())) && deleted == old(deleted)
    {
      ReleaseCreate();
      ReleaseUpdate();
      ReleaseDelete();
    }
  }

  // ---------- Never freed while in use, and never twice ----------

  predicate Once(freed: seq<DataId>) {
    forall i, j :: 0 <= i < j < |freed| ==> freed[i] != freed[j]
  }

  predicate Safe(s: State) {
    Once(s.freed) && forall w: Which :: Get(s, w).data.Some? ==> Get(s, w).data.value !in s.freed
  }

  lemma ReleaseSafe(s: State, w: Which)
    requires Safe(s)
    ensures Safe(Release(s, w)) && Get(Release(s, w), w).data.None?
    ensures forall v: Which :: v != w ==> Get(Release(s, w), v) == Get(s, v)
  {
    var r := Release(s, w);
    forall v: Which | v != w
      ensures Get(r, v) == Get(s, v)
    {
    }
    forall v: Which | Get(r, v).data.Some?
      ensures Get(r, v).data.value !in r.freed
    {
      assert v != w && Get(r, v) == Get(s, v);
    }
  }

  datatype Event =
    | SetOne(which: Which, data: Option<DataId>, frees: bool)
    | SetEvery(data: Option<DataId>, frees: bool)
    | ReleaseOne(which: Which)
    | ReleaseEvery

  function Step(s: State, e: Event): State {
    match e
    case SetOne(w, data, frees) => Set(s, w, data, frees)
    case SetEvery(data, frees) => SetAll(s, data, frees)
    case ReleaseOne(w) => Release(s, w)
    case ReleaseEvery => ReleaseAll(s)
  }

  /** Data that was freed is not handed over again. */
  predicate Alive(s: State, e: Event) {
    match e
    case SetOne(_, data, _) => data.Some? ==> data.value !in s.freed
    case SetEvery(data, _) => data.Some? ==> data.value !in s.freed
    case _ => true
  }

  lemma SetSafe(s: State, w: Which, data: Option<DataId>, frees: bool)
    requires Safe(s) && (data.Some? ==> data.value !in s.freed)
    ensures Safe(Set(s, w, data, frees))
    ensures data.Some? ==> data.value !in Set(s, w, data, frees).freed
    ensures Get(Set(s, w, data, frees), w) == Slot(data, frees)
    ensures forall v: Which :: v != w ==> Get(Set(s, w, data, frees), v) == Get(s, v)
  {
    var r := Set(s, w, data, frees);
    if Get(s, w).data != data {
      ReleaseSafe(s, w);
    }
    forall v: Which | v != w
      ensures Get(r, v) == Get(s, v)
    {
    }
  }

  /** Whatever the free functions: nothing is freed while a callback still has it, and nothing is freed twice. */
  lemma StepSafe(s: State, e: Event)
    requires Safe(s) && Alive(s, e)
    ensures Safe(Step(s, e))
  {
    match e
    case SetOne(w, data, frees) => SetSafe(s, w, data, frees);
    case SetEvery(data, frees) =>
      SetSafe(s, Create, data, frees);
      SetSafe(Set(s, Create, data, frees), Update, data, frees);
      SetSafe(Set(Set(s, Create, data, frees), Update, data, frees), Delete, data, frees);
    case ReleaseOne(w) => ReleaseSafe(s, w);
    case ReleaseEvery =>
      ReleaseSafe(s, Create);
      ReleaseSafe(Release(s, Create), Update);
      ReleaseSafe(Release(Release(s, Create), Update), Delete);
  }

  /** Handing data to all three callbacks leaves all three with it, whatever they had. */
  lemma SetAllReaches(s: State, data: Option<DataId>, frees: bool)
    ensures var r := SetAll(s, data, frees);
      r.create == Slot(data, frees) && r.update == Slot(data, frees) && r.delete == Slot(data, frees)
  {
    var s1 := Set(s, Create, data, frees);
    var s2 := Set(s1, Update, data, frees);
    assert s1.create == Slot(data, frees) && s2.create == Slot(data, frees) && s2.update == Slot(data, frees);
  }

  // ---------- Freed exactly once, by the last one to let go ----------

  /** Callbacks that share data agree on whether it is to be freed. */
  predicate Agreed(s: State) {
    forall v: Which, w: Which :: Get(s, v).data.Some? && Get(s, v).data == Get(s, w).data ==> Get(s, v).frees == Get(s, w).frees
  }

  predicate Owns(s: State, d: DataId) {
    exists w: Which :: Get(s, w) == Slot(Some(d), true)
  }

  /** The data handed over is alive, and its free function is the one with which other callbacks have it. */
  predicate Legal(s: State, e: Event) {
    Alive(s, e) &&
    match e
    case SetOne(w, Some(d), frees) => forall v: Which :: v != w && Get(s, v).data == Some(d) ==> Get(s, v).frees == frees
    case SetEvery(Some(d), frees) => forall v: Which :: Get(s, v).data == Some(d) ==> Get(s, v).frees == frees
    case _ => true
  }

  /** Let go by all: then owned data has just been freed. Kept by one, or not owned: then nothing happens to it. */
  predicate Settled(s: State, r: State, d: DataId) {
    d in r.freed <==> d in s.freed || (Owns(s, d) && !Uses(r, d))
  }

  lemma ReleaseSettles(s: State, w: Which, d: DataId)
    requires Safe(s) && Agreed(s)
    ensures var r := Release(s, w);
      && Agreed(r) && Settled(s, r, d)
      && (Uses(r, d) ==> Uses(s, d)) && (Owns(r, d) <==> Owns(s, d) && Uses(r, d))
  {
    var r := Release(s, w);
    ReleaseSafe(s, w);
    assert forall v: Which :: v != w ==> Get(r, v) == Get(s, v);
  }

  /** Callbacks that have the data already agree on its free function. */
  predicate Fits(s: State, data: Option<DataId>, frees: bool) {
    data.Some? ==> data.value !in s.freed && forall v: Which :: Get(s, v).data == data ==> Get(s, v).frees == frees
  }

  lemma SetSettles(s: State, w: Which, data: Option<DataId>, frees: bool, d: DataId)
    requires Safe(s) && Agreed(s) && Fits(s, data, frees)
    ensures var r := Set(s, w, data, frees);
      && Safe(r) && Agreed(r) && Settled(s, r, d) && Fits(r, data, frees)
      && (data == Some(d) ==> Uses(r, d) && (Owns(r, d) <==> frees))
      && (data != Some(d) ==> (Uses(r, d) ==> Uses(s, d)) && (Owns(r, d) <==> Owns(s, d) && Uses(r, d)))
  {
    var r := Set(s, w, data, frees);
    SetSafe(s, w, data, frees);
    assert forall v: Which :: v != w ==> Get(r, v) == Get(s, v);
    if Get(s, w).data != data {
      ReleaseSettles(s, w, d);
    }
  }

  /**
   Under legal use every datum is accounted for at every step: it is freed by this step if and only if it was owned
   and the last callback has just let go of it.
   */
  lemma StepSettles(s: State, e: Event, d: DataId)
    requires Safe(s) && Agreed(s) && Legal(s, e)
    ensures Agreed(Step(s, e)) && Settled(s, Step(s, e), d)
  {
    match e
    case SetOne(w, data, frees) => SetOneSettles(s, w, data, frees, d);
    case SetEvery(data, frees) =>
      var s1 := Set(s, Create, data, frees);
      var s2 := Set(s1, Update, data, frees);
      SetSettles(s, Create, data, frees, d);
      SetSettles(s1, Update, data, frees, d);
      SetSettles(s2, Delete, data, frees, d);
    case ReleaseOne(w) => ReleaseSettles(s, w, d);
    case ReleaseEvery =>
      var s1 := Release(s, Create);
      var s2 := Release(s1, Update);
      ReleaseSettles(s, Create, d);
      ReleaseSafe(s, Create);
      ReleaseSettles(s1, Update, d);
      ReleaseSafe(s1, Update);
      ReleaseSettles(s2, Delete, d);
  }

  /** A single callback may also be given another free function for the data that it alone has. */
  lemma SetOneSettles(s: State, w: Which, data: Option<DataId>, frees: bool, d: DataId)
    requires Safe(s) && Agreed(s) && Legal(s, SetOne(w, data, frees))
    ensures var r := Set(s, w, data, frees); Agreed(r) && Settled(s, r, d)
  {
    if Fits(s, data, frees) {
      SetSettles(s, w, data, frees, d);
    } else {
      var r := Set(s, w, data, frees);
      assert Get(s, w).data == data && Get(r, w) == Slot(data, frees);
      assert forall v: Which :: v != w ==> Get(r, v) == Get(s, v);
    }
  }

  // ---------- The full release ----------

  /** A release frees what its callback alone has, if there is a function to free it. */
  lemma ReleaseFrees(s: State, w: Which, d: DataId)
    ensures d in Release(s, w).freed <==> d in s.freed || (Get(s, w) == Slot(Some(d), true) && !UsedElsewhere(s, w, d))
  {
  }

  lemma Elsewhere(s: State, d: DataId)
    ensures UsedElsewhere(s, Create, d) <==> s.update.data == Some(d) || s.delete.data == Some(d)
    ensures UsedElsewhere(s, Update, d) <==> s.create.data == Some(d) || s.delete.data == Some(d)
    ensures UsedElsewhere(s, Delete, d) <==> s.create.data == Some(d) || s.update.data == Some(d)
  {
    assert Get(s, Create) == s.create && Get(s, Update) == s.update && Get(s, Delete) == s.delete;
  }

  lemma Released(s: State)
    ensures var r := Release(s, Create); r.create.data.None? && r.update == s.update && r.delete == s.delete
    ensures var r := Release(s, Update); r.update.data.None? && r.create == s.create && r.delete == s.delete
    ensures var r := Release(s, Delete); r.delete.data.None? && r.create == s.create && r.update == s.update
  {
  }

  lemma NothingUsed(s: State, d: DataId)
    ensures !Uses(ReleaseAll(s), d)
  {
    Released(s);
    Released(Release(s, Create));
    Released(Release(Release(s, Create), Update));
    var r := ReleaseAll(s);
    assert forall w: Which :: Get(r, w).data.None?;
  }

  /** In any state: the full release lets go in the order create, update, delete, and the last that has a datum decides. */
  lemma FullReleaseFrees(s: State, d: DataId)
    requires Safe(s)
    ensures d in ReleaseAll(s).freed <==>
            || d in s.freed
            || s.delete == Slot(Some(d), true)
            || (s.delete.data != Some(d) && s.update == Slot(Some(d), true))
            || (s.delete.data != Some(d) && s.update.data != Some(d) && s.create == Slot(Some(d), true))
    ensures !Uses(ReleaseAll(s), d) && Safe(ReleaseAll(s))
  {
    var s1 := Release(s, Create);
    var s2 := Release(s1, Update);
    StepSafe(s, ReleaseEvery);
    NothingUsed(s, d);
    Released(s);
    Released(s1);
    Elsewhere(s, d);
    Elsewhere(s1, d);
    Elsewhere(s2, d);
    ReleaseFrees(s, Create, d);
    ReleaseFrees(s1, Update, d);
    ReleaseFrees(s2, Delete, d);
  }

  // ---------- All runs ----------

  function Run(s: State, es: seq<Event>): State
    decreases |es|
  {
    if es == [] then s else Run(Step(s, es[0]), es[1..])
  }

  predicate Hands(e: Event, d: DataId) {
    match e
    case SetOne(_, data, _) => data == Some(d)
    case SetEvery(data, _) => data == Some(d)
    case _ => false
  }

  predicate FreesAre(e: Event, owned: set<DataId>) {
    match e
    case SetOne(_, data, frees) => data.Some? ==> frees == (data.value in owned)
    case SetEvery(data, frees) => data.Some? ==> frees == (data.value in owned)
    case _ => true
  }

  predicate SlotsAre(s: State, owned: set<DataId>) {
    forall w: Which :: Get(s, w).data.Some? ==> Get(s, w).frees == (Get(s, w).data.value in owned)
  }

  /** The data that is owned comes with a free function each time, the other never; no freed data is handed over. */
  ghost predicate ProperRun(s: State, es: seq<Event>, owned: set<DataId>)
    decreases |es|
  {
    es != [] ==> Alive(s, es[0]) && FreesAre(es[0], owned) && ProperRun(Step(s, es[0]), es[1..], owned)
  }

  lemma StepAccounts(s: State, e: Event, owned: set<DataId>, d: DataId)
    requires Safe(s) && SlotsAre(s, owned) && Alive(s, e) && FreesAre(e, owned)
    ensures var r := Step(s, e);
      && Safe(r) && SlotsAre(r, owned)
      && (d in owned ==> (d in r.freed || Uses(r, d) <==> d in s.freed || Uses(s, d) || Hands(e, d)))
      && (d !in owned ==> (d in r.freed <==> d in s.freed))
  {
    StepSafe(s, e);
    StepSettles(s, e, d);
    match e
    case SetOne(w, data, frees) => SetKeepsOwners(s, w, data, frees, owned, d);
    case SetEvery(data, frees) =>
      var s1 := Set(s, Create, data, frees);
      SetSafe(s, Create, data, frees);
      SetKeepsOwners(s, Create, data, frees, owned, d);
      SetSafe(s1, Update, data, frees);
      SetKeepsOwners(s1, Update, data, frees, owned, d);
      SetKeepsOwners(Set(s1, Update, data, frees), Delete, data, frees, owned, d);
    case ReleaseOne(w) => ReleaseKeepsOwners(s, w, owned, d);
    case ReleaseEvery =>
      ReleaseKeepsOwners(s, Create, owned, d);
      ReleaseKeepsOwners(Release(s, Create), Update, owned, d);
      ReleaseKeepsOwners(Release(Release(s, Create), Update), Delete, owned, d);
  }

  lemma ReleaseKeepsOwners(s: State, w: Which, owned: set<DataId>, d: DataId)
    requires Safe(s) && SlotsAre(s, owned)
    ensures Safe(Release(s, w)) && SlotsAre(Release(s, w), owned) && (Uses(Release(s, w), d) ==> Uses(s, d))
  {
    ReleaseSafe(s, w);
    ReleaseSettles(s, w, d);
    assert forall v: Which :: v != w ==> Get(Release(s, w), v) == Get(s, v);
  }

  lemma SetKeepsOwners(s: State, w: Which, data: Option<DataId>, frees: bool, owned: set<DataId>, d: DataId)
    requires Safe(s) && SlotsAre(s, owned) && (data.Some? ==> data.value !in s.freed && frees == (data.value in owned))
    ensures var r := Set(s, w, data, frees);
      && Safe(r) && SlotsAre(r, owned)
      && (Uses(r, d) ==> Uses(s, d) || data == Some(d)) && (data == Some(d) ==> Uses(r, d))
  {
    SetSafe(s, w, data, frees);
    SetSettles(s, w, data, frees, d);
    assert forall v: Which :: v != w ==> Get(Set(s, w, data, frees), v) == Get(s, v);
  }

  lemma {:induction false} RunAccounts(s: State, es: seq<Event>, owned: set<DataId>, d: DataId)
    requires Safe(s) && SlotsAre(s, owned) && ProperRun(s, es, owned)
    ensures var r := Run(s, es);
      && Safe(r) && SlotsAre(r, owned)
      && (d in owned ==> (d in r.freed || Uses(r, d) <==> d in s.freed || Uses(s, d) || exists e :: e in es && Hands(e, d)))
      && (d !in owned ==> (d in r.freed <==> d in s.freed))
    decreases |es|
  {
    if es != [] {
      StepAccounts(s, es[0], owned, d);
      RunAccounts(Step(s, es[0]), es[1..], owned, d);
      assert forall e :: e in es <==> e == es[0] || e in es[1..];
    }
  }

  /** After any proper run and the full release, exactly the owned data that was ever handed over is freed, each once. */
  lemma EverythingFreedOnce(es: seq<Event>, owned: set<DataId>, d: DataId)
    requires ProperRun(EMPTY, es, owned)
    ensures var r := ReleaseAll(Run(EMPTY, es));
      Once(r.freed) && (d in r.freed <==> d in owned && exists e :: e in es && Hands(e, d))
  {
    assert forall w: Which :: Get(EMPTY, w) == UNSET;
    RunAccounts(EMPTY, es, owned, d);
    var r := Run(EMPTY, es);
    StepAccounts(r, ReleaseEvery, owned, d);
    FullReleaseFrees(r, d);
  }
}
