/** MBS service information: a hash of media components, visited in whatever order the hash yields. */
module ServiceInfo {
  import opened Options
  import opened JsonDocument
  import opened JsonPatch
  import opened ObjectDiff
  import opened Structure
  import opened QosRequirements
  import opened MediaComponents
  import Sequences
  import Text

  type Comps = map<int, MediaComp>

  datatype Info = Info(comps: Option<Comps>, reservePriority: nat, afAppId: Option<string>, ambr: Option<nat>)

  /** A visit of the hash: every key once, in any order. */
  ghost predicate Visits(order: seq<int>, m: Comps) {
    && (forall k :: k in order <==> k in m)
    && (forall i, j :: 0 <= i < j < |order| ==> order[i] != order[j])
  }

  /** The orders in which the old hash and then the new hash happen to be visited. */
  datatype Orders = Orders(first: seq<int>, second: seq<int>)

  function CompKey(id: int): string {
    Text.SignedDecimal(id)
  }

  lemma CompKeyGood(id: int)
    ensures Plain(CompKey(id)) && CompKey(id) != ""
  {
    PrintedIndex(if id < 0 then -id else id);
  }

  function CompsMembers(m: Comps): map<string, Json> {
    assert forall i: int, j: int :: CompKey(i) == CompKey(j) ==> i == j by {
      forall i: int, j: int | CompKey(i) == CompKey(j) ensures i == j {
        Text.SignedDecimalInjective(i, j);
      }
    }
    map k | k in m :: CompKey(k) := CompDoc(m[k])
  }

  function CompsSlot(m: Comps): Slot {
    if m == map[] then None else Some(Object(CompsMembers(m)))
  }

  // ---------- The diff of two hashes ----------

  function ChangedOrRemoved(a: Comps, b: Comps, order: seq<int>): seq<Edit>
    requires forall k :: k in order ==> k in a
  {
    if order == [] then []
    else
      var k := order[0];
      [Edit(CompKey(k), if k in b then CompDiff(a[k], b[k]) else [Remove(WHOLE)])] + ChangedOrRemoved(a, b, order[1..])
  }

  function AddedAt(a: Comps, b: Comps, k: int): seq<Edit>
    requires k in b
  {
    if k in a then [] else [Edit(CompKey(k), [Add(WHOLE, CompDoc(b[k]))])]
  }

  function Added(a: Comps, b: Comps, order: seq<int>): seq<Edit>
    requires forall k :: k in order ==> k in b
  {
    if order == [] then [] else AddedAt(a, b, order[0]) + Added(a, b, order[1..])
  }

  function CompsDiff(a: Comps, b: Comps, orders: Orders): seq<Patch>
    requires Visits(orders.first, a) && Visits(orders.second, b)
  {
    if a == map[] && b == map[] then []
    else if a == map[] then [Add(WHOLE, Object(CompsMembers(b)))]
    else if b == map[] then [Remove(WHOLE)]
    else Assemble(ChangedOrRemoved(a, b, orders.first) + Added(a, b, orders.second))
  }

  lemma {:induction false} AssembleAppend(x: seq<Edit>, y: seq<Edit>)
    ensures Assemble(x + y) == Assemble(x) + Assemble(y)
  {
    if x == [] {
      assert x + y == y;
    } else {
      assert (x + y)[1..] == x[1..] + y;
      AssembleAppend(x[1..], y);
    }
  }

  lemma AssembleOne(e: Edit)
    ensures Assemble([e]) == Lift(e.diff, "/" + e.key)
  {
    assert [e][1..] == [];
  }

  lemma LiftWhole(p: Patch, prefix: string)
    requires p.path == WHOLE
    ensures Lift([p], prefix) == [WithPrefix(p, prefix)]
  {
    assert [p][1..] == [];
  }

  lemma {:induction false} ChangedOrRemovedAppend(a: Comps, b: Comps, x: seq<int>, k: int)
    requires k in a && forall i :: i in x ==> i in a
    ensures var diff := if k in b then CompDiff(a[k], b[k]) else [Remove(WHOLE)];
      Assemble(ChangedOrRemoved(a, b, x + [k])) == Assemble(ChangedOrRemoved(a, b, x)) + Lift(diff, "/" + CompKey(k))
  {
    var edit := Edit(CompKey(k), if k in b then CompDiff(a[k], b[k]) else [Remove(WHOLE)]);
    ChangedOrRemovedSnoc(a, b, x, k);
    AssembleAppend(ChangedOrRemoved(a, b, x), [edit]);
    AssembleOne(edit);
  }

  lemma {:induction false} ChangedOrRemovedSnoc(a: Comps, b: Comps, x: seq<int>, k: int)
    requires k in a && forall i :: i in x ==> i in a
    ensures ChangedOrRemoved(a, b, x + [k])
         == ChangedOrRemoved(a, b, x) + [Edit(CompKey(k), if k in b then CompDiff(a[k], b[k]) else [Remove(WHOLE)])]
  {
    if x == [] {
      assert (x + [k])[1..] == [];
    } else {
      assert (x + [k])[1..] == x[1..] + [k];
      ChangedOrRemovedSnoc(a, b, x[1..], k);
    }
  }

  lemma AddedAppend(a: Comps, b: Comps, x: seq<int>, k: int)
    requires k in b && forall i :: i in x ==> i in b
    ensures Assemble(Added(a, b, x + [k]))
         == Assemble(Added(a, b, x)) + (if k in a then [] else [Add("/" + CompKey(k), CompDoc(b[k]))])
  {
    AddedSnoc(a, b, x, k);
    var done := Added(a, b, x);
    if k in a {
      assert done + [] == done;
      assert Assemble(done) + [] == Assemble(done);
    } else {
      var p := Add(WHOLE, CompDoc(b[k]));
      var edit := Edit(CompKey(k), [p]);
      AssembleAppend(done, [edit]);
      AssembleOne(edit);
      LiftWhole(p, "/" + CompKey(k));
    }
  }

  lemma {:induction false} AddedSnoc(a: Comps, b: Comps, x: seq<int>, k: int)
    requires k in b && forall i :: i in x ==> i in b
    ensures Added(a, b, x + [k]) == Added(a, b, x) + AddedAt(a, b, k)
  {
    if x == [] {
      assert [k][1..] == [] && x + [k] == [k];
    } else {
      assert (x + [k])[0] == x[0] && (x + [k])[1..] == x[1..] + [k];
      AddedSnoc(a, b, x[1..], k);
      Sequences.Regroup(AddedAt(a, b, x[0]), Added(a, b, x[1..]), AddedAt(a, b, k));
    }
  }

  /** The pass over the old hash: removals, and the lifted diffs of the components that stay. */
  method BuildChangedOrRemoved(a: Comps, b: Comps, order: seq<int>) returns (patches: seq<Patch>)
    requires forall k :: k in order ==> k in a
    ensures patches == Assemble(ChangedOrRemoved(a, b, order))
  {
    patches := [];
    for i := 0 to |order|
      invariant patches == Assemble(ChangedOrRemoved(a, b, order[..i]))
    {
      var k := order[i];
      var path := "/" + CompKey(k);
      ChangedOnward(a, b, order, i);
      if k !in b {
        LiftWhole(Remove(WHOLE), path);
        patches := patches + [Remove(path)];
      } else {
        patches := AppendLifted(patches, CompDiff(a[k], b[k]), path);
      }
    }
    assert order[..|order|] == order;
  }

  lemma ChangedOnward(a: Comps, b: Comps, order: seq<int>, i: nat)
    requires i < |order| && forall k :: k in order ==> k in a
    ensures var k := order[i];
      Assemble(ChangedOrRemoved(a, b, order[..i + 1])) ==
      Assemble(ChangedOrRemoved(a, b, order[..i])) + Lift(if k in b then CompDiff(a[k], b[k]) else [Remove(WHOLE)], "/" + CompKey(k))
  {
    assert order[..i + 1] == order[..i] + [order[i]];
    ChangedOrRemovedAppend(a, b, order[..i], order[i]);
  }

  /** The pass over the new hash: the components that were not there before. */
  method BuildAdded(a: Comps, b: Comps, order: seq<int>, before: seq<Patch>) returns (patches: seq<Patch>)
    requires forall k :: k in order ==> k in b
    ensures patches == before + Assemble(Added(a, b, order))
  {
    patches := before;
    for i := 0 to |order|
      invariant patches == before + Assemble(Added(a, b, order[..i]))
    {
      var k := order[i];
      AddedOnward(a, b, order, i, before);
      if k !in a {
        patches := patches + [Add("/" + CompKey(k), CompDoc(b[k]))];
      }
    }
    assert order[..|order|] == order;
  }

  lemma AddedOnward(a: Comps, b: Comps, order: seq<int>, i: nat, before: seq<Patch>)
    requires i < |order| && forall k :: k in order ==> k in b
    ensures before + Assemble(Added(a, b, order[..i + 1])) ==
            before + Assemble(Added(a, b, order[..i]))
            + (if order[i] in a then [] else [Add("/" + CompKey(order[i]), CompDoc(b[order[i]]))])
  {
    var k := order[i];
    assert order[..i + 1] == order[..i] + [k];
    AddedAppend(a, b, order[..i], k);
    Sequences.Regroup(before, Assemble(Added(a, b, order[..i])),
                      if k in a then [] else [Add("/" + CompKey(k), CompDoc(b[k]))]);
  }

  method BuildCompsDiff(a: Comps, b: Comps, orders: Orders) returns (patches: seq<Patch>)
    requires Visits(orders.first, a) && Visits(orders.second, b)
    ensures patches == CompsDiff(a, b, orders)
  {
    if a == map[] && b == map[] {
      patches := [];
    } else if a == map[] {
      patches := [Add(WHOLE, Object(CompsMembers(b)))];
    } else if b == map[] {
      patches := [Remove(WHOLE)];
    } else {
      patches := BuildChangedOrRemoved(a, b, orders.first);
      patches := BuildAdded(a, b, orders.second, patches);
      AssembleAppend(ChangedOrRemoved(a, b, orders.first), Added(a, b, orders.second));
    }
  }

  // ---------- What the diff does ----------

  /** The edit that key k gets; a key of neither hash gets none. */
  function EditAt(a: Comps, b: Comps, k: int): Edit
    requires k in a || k in b
  {
    Edit(CompKey(k),
         if k !in a then [Add(WHOLE, CompDoc(b[k]))]
         else if k in b then CompDiff(a[k], b[k])
         else [Remove(WHOLE)])
  }

  /** The keys in the order in which they get an edit. */
  function EditedKeys(a: Comps, order: seq<int>): seq<int> {
    if order == [] then []
    else (if order[0] in a then [] else [order[0]]) + EditedKeys(a, order[1..])
  }

  lemma {:induction false} EditedKeysAre(a: Comps, order: seq<int>)
    ensures forall k :: k in EditedKeys(a, order) <==> k in order && k !in a
    ensures (forall i, j :: 0 <= i < j < |order| ==> order[i] != order[j]) ==>
              forall i, j :: 0 <= i < j < |EditedKeys(a, order)| ==> EditedKeys(a, order)[i] != EditedKeys(a, order)[j]
  {
    if order != [] {
      EditedKeysAre(a, order[1..]);
    }
  }

  /** The edits are those of the keys, one by one. */
  predicate EditsMatch(a: Comps, b: Comps, es: seq<Edit>, ks: seq<int>) {
    |es| == |ks| && forall i :: 0 <= i < |ks| ==> (ks[i] in a || ks[i] in b) && es[i] == EditAt(a, b, ks[i])
  }

  lemma MatchAppend(a: Comps, b: Comps, xs: seq<Edit>, js: seq<int>, ys: seq<Edit>, ks: seq<int>)
    requires EditsMatch(a, b, xs, js) && EditsMatch(a, b, ys, ks)
    ensures EditsMatch(a, b, xs + ys, js + ks)
  {
    forall i | 0 <= i < |js + ks|
      ensures ((js + ks)[i] in a || (js + ks)[i] in b) && (xs + ys)[i] == EditAt(a, b, (js + ks)[i])
    {
      if i >= |js| {
        assert (js + ks)[i] == ks[i - |js|] && (xs + ys)[i] == ys[i - |js|];
      } else {
        assert (js + ks)[i] == js[i] && (xs + ys)[i] == xs[i];
      }
    }
  }

  lemma MatchOne(a: Comps, b: Comps, k: int)
    requires k in a || k in b
    ensures EditsMatch(a, b, [EditAt(a, b, k)], [k])
  {
  }

  lemma {:induction false} ChangedOrRemovedIs(a: Comps, b: Comps, order: seq<int>)
    requires forall k :: k in order ==> k in a
    ensures EditsMatch(a, b, ChangedOrRemoved(a, b, order), order)
  {
    if order != [] {
      var k := order[0];
      assert k in order && k in a;
      ChangedOrRemovedIs(a, b, order[1..]);
      MatchOne(a, b, k);
      MatchAppend(a, b, [EditAt(a, b, k)], [k], ChangedOrRemoved(a, b, order[1..]), order[1..]);
      assert order == [k] + order[1..];
    }
  }

  lemma AddedFirst(a: Comps, b: Comps, order: seq<int>)
    requires order != [] && order[0] !in a && forall k :: k in order ==> k in b
    ensures order[0] in b && Added(a, b, order) == [EditAt(a, b, order[0])] + Added(a, b, order[1..])
    ensures EditedKeys(a, order) == [order[0]] + EditedKeys(a, order[1..])
  {
    var k := order[0];
    assert k in order && k in b;
  }

  lemma {:induction false} AddedIs(a: Comps, b: Comps, order: seq<int>)
    requires forall k :: k in order ==> k in b
    ensures EditsMatch(a, b, Added(a, b, order), EditedKeys(a, order))
  {
    if order != [] {
      AddedIs(a, b, order[1..]);
      if order[0] in a {
        assert Added(a, b, order) == Added(a, b, order[1..]) && EditedKeys(a, order) == EditedKeys(a, order[1..]);
      } else {
        AddedFirst(a, b, order);
        MatchOne(a, b, order[0]);
        MatchAppend(a, b, [EditAt(a, b, order[0])], [order[0]], Added(a, b, order[1..]), EditedKeys(a, order[1..]));
      }
    }
  }

  function CompsEdits(a: Comps, b: Comps, orders: Orders): seq<Edit>
    requires Visits(orders.first, a) && Visits(orders.second, b)
  {
    ChangedOrRemoved(a, b, orders.first) + Added(a, b, orders.second)
  }

  /** The keys in the order in which they get their edit. */
  function VisitedKeys(a: Comps, orders: Orders): seq<int> {
    orders.first + EditedKeys(a, orders.second)
  }

  lemma VisitedKeysAre(a: Comps, b: Comps, orders: Orders)
    requires Visits(orders.first, a) && Visits(orders.second, b)
    ensures var ks := VisitedKeys(a, orders);
      && (forall k :: k in ks <==> k in a || k in b)
      && (forall i, j :: 0 <= i < j < |ks| ==> ks[i] != ks[j])
  {
    var n, more := |orders.first|, EditedKeys(a, orders.second);
    var ks := orders.first + more;
    EditedKeysAre(a, orders.second);
    forall i, j | 0 <= i < j < |ks|
      ensures ks[i] != ks[j]
    {
      if i < n <= j {
        assert ks[i] in orders.first && more[j - n] in more;
      } else if n <= i {
        assert ks[i] == more[i - n] && ks[j] == more[j - n];
      }
    }
  }

  lemma CompsEditsByKey(a: Comps, b: Comps, orders: Orders)
    requires Visits(orders.first, a) && Visits(orders.second, b)
    ensures EditsMatch(a, b, CompsEdits(a, b, orders), VisitedKeys(a, orders))
  {
    ChangedOrRemovedIs(a, b, orders.first);
    AddedIs(a, b, orders.second);
    MatchAppend(a, b, ChangedOrRemoved(a, b, orders.first), orders.first,
                Added(a, b, orders.second), EditedKeys(a, orders.second));
  }

  lemma EditAtRelative(a: Comps, b: Comps, k: int)
    requires k in a || k in b
    ensures var e := EditAt(a, b, k); Plain(e.key) && e.key != "" && Relative(e.diff)
  {
    CompKeyGood(k);
    if k in a && k in b {
      CompDiffApplies(a[k], b[k]);
    }
  }

  /** Each key of either hash gets exactly one edit: its removal, its addition, or its child diff. */
  lemma CompsEditsAre(a: Comps, b: Comps, orders: Orders)
    requires Visits(orders.first, a) && Visits(orders.second, b)
    ensures forall e :: e in CompsEdits(a, b, orders) <==> exists k :: (k in a || k in b) && e == EditAt(a, b, k)
  {
    var es, ks := CompsEdits(a, b, orders), VisitedKeys(a, orders);
    CompsEditsByKey(a, b, orders);
    VisitedKeysAre(a, b, orders);
    forall k | k in a || k in b
      ensures EditAt(a, b, k) in es
    {
      assert k in ks;
      EditOfKey(a, b, es, ks, k);
    }
    forall e | e in es
      ensures exists k :: (k in a || k in b) && e == EditAt(a, b, k)
    {
      var k := KeyOfEdit(a, b, es, ks, e);
    }
  }

  lemma EditOfKey(a: Comps, b: Comps, es: seq<Edit>, ks: seq<int>, k: int)
    requires EditsMatch(a, b, es, ks) && k in ks && (k in a || k in b)
    ensures EditAt(a, b, k) in es
  {
    var i :| 0 <= i < |ks| && ks[i] == k;
    assert es[i] == EditAt(a, b, k);
  }

  lemma KeyOfEdit(a: Comps, b: Comps, es: seq<Edit>, ks: seq<int>, e: Edit) returns (k: int)
    requires EditsMatch(a, b, es, ks) && e in es
    ensures (k in a || k in b) && e == EditAt(a, b, k)
  {
    var i :| 0 <= i < |es| && es[i] == e;
    k := ks[i];
  }

  lemma CompsEditsWellFormed(a: Comps, b: Comps, orders: Orders)
    requires Visits(orders.first, a) && Visits(orders.second, b)
    ensures WellFormed(CompsEdits(a, b, orders))
  {
    var es, ks := CompsEdits(a, b, orders), VisitedKeys(a, orders);
    CompsEditsByKey(a, b, orders);
    VisitedKeysAre(a, b, orders);
    KeysDiffer(a, b, es, ks);
    forall e | e in es
      ensures Plain(e.key) && e.key != "" && Relative(e.diff)
    {
      EditRelative(a, b, es, ks, e);
    }
  }

  lemma EditRelative(a: Comps, b: Comps, es: seq<Edit>, ks: seq<int>, e: Edit)
    requires EditsMatch(a, b, es, ks) && e in es
    ensures Plain(e.key) && e.key != "" && Relative(e.diff)
  {
    var i :| 0 <= i < |es| && es[i] == e;
    EditAtRelative(a, b, ks[i]);
  }

  lemma KeysDiffer(a: Comps, b: Comps, es: seq<Edit>, ks: seq<int>)
    requires |es| == |ks| && forall i :: 0 <= i < |ks| ==> es[i].key == CompKey(ks[i])
    requires forall i, j :: 0 <= i < j < |ks| ==> ks[i] != ks[j]
    ensures forall i, j :: 0 <= i < j < |es| ==> es[i].key != es[j].key
  {
    forall i, j | 0 <= i < j < |es| && es[i].key == es[j].key
      ensures false
    {
      Text.SignedDecimalInjective(ks[i], ks[j]);
    }
  }

  predicate CompsExact(a: Comps, b: Comps) {
    forall k :: k in a && k in b ==> CompExact(a[k], b[k])
  }

  lemma MemberOfComps(m: Comps, k: int)
    ensures Member(CompsMembers(m), CompKey(k)) == if k in m then Some(CompDoc(m[k])) else None
  {
    forall i | CompKey(i) == CompKey(k) ensures i == k {
      Text.SignedDecimalInjective(i, k);
    }
    if k in m {
      assert CompKey(k) in CompsMembers(m);
    }
  }

  lemma EditAtReaches(a: Comps, b: Comps, k: int)
    requires k in a || k in b
    ensures var e := EditAt(a, b, k);
      ApplyAllToSlot(Member(CompsMembers(a), e.key), e.diff) == Some(Member(CompsMembers(b), e.key)) <==>
      (k in a && k in b ==> CompExact(a[k], b[k]))
  {
    MemberOfComps(a, k);
    MemberOfComps(b, k);
    if k in a && k in b {
      CompDiffApplies(a[k], b[k]);
    } else {
      WholeEditReaches(Member(CompsMembers(a), CompKey(k)), Member(CompsMembers(b), CompKey(k)));
    }
  }

  lemma WholeEditReaches(x: Slot, y: Slot)
    ensures x.None? && y.Some? ==> ApplyAllToSlot(x, [Add(WHOLE, y.value)]) == Some(y)
    ensures x.Some? && y.None? ==> ApplyAllToSlot(x, [Remove(WHOLE)]) == Some(y)
  {
    OnePatch(x, Remove(WHOLE));
    if y.Some? {
      OnePatch(x, Add(WHOLE, y.value));
    }
  }

  lemma OtherMembersAbsent(a: Comps, b: Comps, orders: Orders, key: string)
    requires Visits(orders.first, a) && Visits(orders.second, b)
    requires !Edits(key, CompsEdits(a, b, orders))
    ensures Member(CompsMembers(a), key) == None && Member(CompsMembers(b), key) == None
  {
    var es := CompsEdits(a, b, orders);
    CompsEditsAre(a, b, orders);
    forall k | k in a || k in b
      ensures CompKey(k) != key
    {
      var e := EditAt(a, b, k);
      assert e in es;
      var i :| 0 <= i < |es| && es[i] == e;
      assert es[i].key != key;
    }
  }

  /** Map a is turned into map b, in any visiting order, if and only if every common component's diff is exact. */
  lemma CompsDiffApplies(a: Comps, b: Comps, orders: Orders)
    requires Visits(orders.first, a) && Visits(orders.second, b)
    ensures ApplyAllToSlot(CompsSlot(a), CompsDiff(a, b, orders)) == Some(CompsSlot(b)) <==> CompsExact(a, b)
    ensures Relative(CompsDiff(a, b, orders))
  {
    var ps := CompsDiff(a, b, orders);
    if a == map[] || b == map[] {
      if ps != [] {
        OnePatch(CompsSlot(a), ps[0]);
      }
    } else {
      var es := CompsEdits(a, b, orders);
      CompsEditsAre(a, b, orders);
      CompsEditsWellFormed(a, b, orders);
      forall key | !Edits(key, es)
        ensures Member(CompsMembers(a), key) == Member(CompsMembers(b), key)
      {
        OtherMembersAbsent(a, b, orders, key);
      }
      AssembleReachesSlot(CompsMembers(a), CompsMembers(b), es);
      forall k | k in a || k in b
        ensures EditAt(a, b, k) in es
        ensures var e := EditAt(a, b, k);
          ApplyAllToSlot(Member(CompsMembers(a), e.key), e.diff) == Some(Member(CompsMembers(b), e.key)) <==>
          (k in a && k in b ==> CompExact(a[k], b[k]))
      {
        EditAtReaches(a, b, k);
      }
    }
  }

  /** Whatever the document, and whether or not it succeeds, the visiting order makes no difference. */
  lemma CompsDiffOrderFree(doc: map<string, Json>, a: Comps, b: Comps, x: Orders, y: Orders)
    requires Visits(x.first, a) && Visits(x.second, b) && Visits(y.first, a) && Visits(y.second, b)
    ensures ApplyAll(Object(doc), CompsDiff(a, b, x)) == ApplyAll(Object(doc), CompsDiff(a, b, y))
  {
    if a != map[] && b != map[] {
      CompsEditsAre(a, b, x);
      CompsEditsAre(a, b, y);
      CompsEditsWellFormed(a, b, x);
      CompsEditsWellFormed(a, b, y);
      AssembleOrderFree(doc, CompsEdits(a, b, x), CompsEdits(a, b, y));
    }
  }

  // ---------- Service information ----------

  const INFO_NAMES := ["mbsMediaComps", "mbsSdfResPrio", "afAppId", "mbsSessionAmbr"]

  function CompsOf(x: Info): Comps {
    if x.comps.Some? then x.comps.value else map[]
  }

  function InfoSlots(x: Info): (r: seq<Slot>)
    ensures |r| == |INFO_NAMES|
  {
    [CompsSlot(CompsOf(x)), SlotOf(Priority(x.reservePriority), PriorityDoc), SlotOf(x.afAppId, TextDoc),
     SlotOf(x.ambr, BitRateDoc)]
  }

  function InfoDoc(x: Info): Json {
    Object(Members(INFO_NAMES, InfoSlots(x)))
  }

  ghost predicate InfoVisits(orders: Orders, a: Option<Info>, b: Option<Info>) {
    a.Some? && b.Some? ==> Visits(orders.first, CompsOf(a.value)) && Visits(orders.second, CompsOf(b.value))
  }

  function InfoDiffs(a: Info, b: Info, orders: Orders): (r: seq<seq<Patch>>)
    requires InfoVisits(orders, Some(a), Some(b))
    ensures |r| == |INFO_NAMES|
  {
    [CompsDiff(CompsOf(a), CompsOf(b), orders),
     OptionalDiff(Priority(a.reservePriority), Priority(b.reservePriority), PriorityDoc),
     RestatedDiff(a.afAppId, b.afAppId, TextDoc),
     OptionalDiff(a.ambr, b.ambr, BitRateDoc)]
  }

  function InfoAttributeDiff(a: Info, b: Info, orders: Orders): seq<Patch>
    requires InfoVisits(orders, Some(a), Some(b))
  {
    Assemble(EditsOf(INFO_NAMES, InfoDiffs(a, b, orders)))
  }

  function InfoDiff(a: Option<Info>, b: Option<Info>, orders: Orders): seq<Patch>
    requires InfoVisits(orders, a, b)
  {
    StructureDiff(a, b, InfoDoc, if a.Some? && b.Some? then InfoAttributeDiff(a.value, b.value, orders) else [])
  }

  predicate InfoExact(a: Option<Info>, b: Option<Info>) {
    a.Some? && b.Some? ==> CompsExact(CompsOf(a.value), CompsOf(b.value))
  }

  lemma InfoNames()
    ensures GoodNames(INFO_NAMES)
  {
  }

  /** The attributes whose diff is always exact. */
  lemma InfoSimpleAttributes(x: Info, y: Info, orders: Orders)
    requires InfoVisits(orders, Some(x), Some(y))
    ensures var a, ds, b := InfoSlots(x), InfoDiffs(x, y, orders), InfoSlots(y);
      && ExactAt(a, ds, b, 1) && ExactAt(a, ds, b, 2) && ExactAt(a, ds, b, 3)
      && Relative(ds[1]) && Relative(ds[2]) && Relative(ds[3])
  {
    OptionalDiffApplies(Priority(x.reservePriority), Priority(y.reservePriority), PriorityDoc);
    RestatedDiffApplies(x.afAppId, y.afAppId, TextDoc);
    OptionalDiffApplies(x.ambr, y.ambr, BitRateDoc);
  }

  lemma InfoComponents(x: Info, y: Info, orders: Orders)
    requires InfoVisits(orders, Some(x), Some(y))
    ensures var a, ds, b := InfoSlots(x), InfoDiffs(x, y, orders), InfoSlots(y);
      Relative(ds[0]) && (ExactAt(a, ds, b, 0) <==> CompsExact(CompsOf(x), CompsOf(y)))
  {
    CompsDiffApplies(CompsOf(x), CompsOf(y), orders);
  }

  lemma InfoAttributes(x: Info, y: Info, orders: Orders)
    requires InfoVisits(orders, Some(x), Some(y))
    ensures var a, ds, b := InfoSlots(x), InfoDiffs(x, y, orders), InfoSlots(y);
      AllRelative(ds) && (AllExact(a, ds, b) <==> CompsExact(CompsOf(x), CompsOf(y)))
  {
    InfoSimpleAttributes(x, y, orders);
    InfoComponents(x, y, orders);
  }

  lemma InfoAttributeDiffApplies(x: Info, y: Info, orders: Orders)
    requires InfoVisits(orders, Some(x), Some(y))
    ensures ApplyAllToSlot(Some(InfoDoc(x)), InfoAttributeDiff(x, y, orders)) == Some(Some(InfoDoc(y)))
            <==> CompsExact(CompsOf(x), CompsOf(y))
    ensures Relative(InfoAttributeDiff(x, y, orders))
  {
    InfoAttributes(x, y, orders);
    InfoNames();
    SmallStructureReaches(map[], INFO_NAMES, InfoSlots(x), InfoSlots(y), InfoDiffs(x, y, orders));
  }

  lemma InfoDiffApplies(a: Option<Info>, b: Option<Info>, orders: Orders)
    requires InfoVisits(orders, a, b)
    ensures ApplyAllToSlot(SlotOf(a, InfoDoc), InfoDiff(a, b, orders)) == Some(SlotOf(b, InfoDoc)) <==> InfoExact(a, b)
    ensures Relative(InfoDiff(a, b, orders))
  {
    if a.Some? && b.Some? {
      InfoAttributeDiffApplies(a.value, b.value, orders);
    }
    StructureDiffApplies(a, b, InfoDoc, if a.Some? && b.Some? then InfoAttributeDiff(a.value, b.value, orders) else [],
                         InfoExact(a, b));
  }
}
