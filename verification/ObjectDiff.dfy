/**
 Diffs of structures. The patch list of a structure is the concatenation of the child diffs of its
 members, each lifted under the member's name. This module says exactly what such a list does.
 */
module ObjectDiff {
  import opened Options
  import opened JsonDocument
  import opened JsonPatch
  import Text

  datatype Edit = Edit(key: string, diff: seq<Patch>)

  function Assemble(edits: seq<Edit>): seq<Patch> {
    if edits == [] then [] else Lift(edits[0].diff, "/" + edits[0].key) + Assemble(edits[1..])
  }

  predicate Edits(key: string, edits: seq<Edit>) {
    exists i :: 0 <= i < |edits| && edits[i].key == key
  }

  predicate WellFormed(edits: seq<Edit>) {
    && (forall e :: e in edits ==> Plain(e.key) && e.key != "" && Relative(e.diff))
    && (forall i, j :: 0 <= i < j < |edits| ==> edits[i].key != edits[j].key)
  }

  /** Members without an edit keep their value, and the document stays an object. */
  lemma {:induction false} AssembleKeepsOthers(m: map<string, Json>, edits: seq<Edit>, key: string)
    requires WellFormed(edits) && !Edits(key, edits)
    ensures var r := ApplyAll(Object(m), Assemble(edits));
      r.Some? ==> r.value.Object? && Member(r.value.members, key) == Member(m, key)
    decreases |edits|
  {
    if edits != [] {
      var e := edits[0];
      FirstEdit(m, edits);
      var slot := ApplyAllToSlot(Member(m, e.key), e.diff);
      if slot.Some? {
        AssembleKeepsOthers(PutMember(m, e.key, slot.value), edits[1..], key);
      }
    }
  }

  /** Every child diff turns its own member of m into the same member of t. */
  predicate AllReach(m: map<string, Json>, t: map<string, Json>, edits: seq<Edit>) {
    forall e :: e in edits ==> ApplyAllToSlot(Member(m, e.key), e.diff) == Some(Member(t, e.key))
  }

  lemma FirstReaches(m: map<string, Json>, t: map<string, Json>, edits: seq<Edit>)
    requires edits != [] && WellFormed(edits)
    ensures AllReach(m, t, edits) <==>
            && ApplyAllToSlot(Member(m, edits[0].key), edits[0].diff) == Some(Member(t, edits[0].key))
            && AllReach(PutMember(m, edits[0].key, Member(t, edits[0].key)), t, edits[1..])
  {
    FirstOrRest(edits);
    OthersUnaffected(m, PutMember(m, edits[0].key, Member(t, edits[0].key)), edits[0].key, edits[1..]);
  }

  /**
   Exactness. An assembled patch list turns m into t if and only if every child diff turns its own
   member of m into the same member of t.
   */
  lemma {:induction false} AssembleReaches(m: map<string, Json>, t: map<string, Json>, edits: seq<Edit>)
    requires WellFormed(edits)
    requires forall k :: !Edits(k, edits) ==> Member(m, k) == Member(t, k)
    ensures ApplyAll(Object(m), Assemble(edits)) == Some(Object(t)) <==>
            forall e :: e in edits ==> ApplyAllToSlot(Member(m, e.key), e.diff) == Some(Member(t, e.key))
    decreases |edits|
  {
    if edits == [] {
      SameMembers(m, t);
    } else {
      var e := edits[0];
      var slot := ApplyAllToSlot(Member(m, e.key), e.diff);
      FirstEdit(m, edits);
      FirstReaches(m, t, edits);
      FirstOrRest(edits);
      assert AllReach(m, t, edits) <==>
             forall e :: e in edits ==> ApplyAllToSlot(Member(m, e.key), e.diff) == Some(Member(t, e.key));
      if slot.Some? {
        var m' := PutMember(m, e.key, slot.value);
        if slot.value == Member(t, e.key) {
          AgreeAfterFirst(m, t, edits, m');
          AssembleReaches(m', t, edits[1..]);
        } else {
          AssembleMisses(m', t, e.key, edits[1..]);
        }
      }
    }
  }

  /** A member that is wrong and not edited any more stays wrong. */
  lemma AssembleMisses(m: map<string, Json>, t: map<string, Json>, key: string, edits: seq<Edit>)
    requires WellFormed(edits) && !Edits(key, edits) && Member(m, key) != Member(t, key)
    ensures ApplyAll(Object(m), Assemble(edits)) != Some(Object(t))
  {
    AssembleKeepsOthers(m, edits, key);
  }

  lemma FirstOrRest(edits: seq<Edit>)
    requires edits != [] && WellFormed(edits)
    ensures forall e :: e in edits <==> e == edits[0] || e in edits[1..]
    ensures WellFormed(edits[1..]) && !Edits(edits[0].key, edits[1..])
  {
    assert edits == [edits[0]] + edits[1..];
  }

  lemma SameMembers(m: map<string, Json>, t: map<string, Json>)
    requires forall k :: Member(m, k) == Member(t, k)
    ensures m == t
  {
    forall k | k in m || k in t
      ensures k in m && k in t && m[k] == t[k]
    {
      assert Member(m, k) == Member(t, k);
    }
  }

  lemma FirstEdit(m: map<string, Json>, edits: seq<Edit>)
    requires edits != [] && WellFormed(edits)
    ensures ApplyAll(Object(m), Assemble(edits)) ==
            var slot := ApplyAllToSlot(Member(m, edits[0].key), edits[0].diff);
            if slot.None? then None
            else ApplyAll(Object(PutMember(m, edits[0].key, slot.value)), Assemble(edits[1..]))
  {
    LiftedDiffEditsMember(m, edits[0].key, edits[0].diff);
    ApplyAllAppend(Object(m), Lift(edits[0].diff, "/" + edits[0].key), Assemble(edits[1..]));
  }

  lemma AgreeAfterFirst(m: map<string, Json>, t: map<string, Json>, edits: seq<Edit>, m': map<string, Json>)
    requires edits != []
    requires forall k :: !Edits(k, edits) ==> Member(m, k) == Member(t, k)
    requires m' == PutMember(m, edits[0].key, Member(t, edits[0].key))
    ensures forall k :: !Edits(k, edits[1..]) ==> Member(m', k) == Member(t, k)
  {
    forall k | !Edits(k, edits[1..]) && k != edits[0].key
      ensures Member(m', k) == Member(t, k)
    {
      forall i | 0 <= i < |edits|
        ensures edits[i].key != k
      {
        if i > 0 {
          assert edits[1..][i - 1] == edits[i];
        }
      }
      assert !Edits(k, edits);
    }
  }

  lemma OthersUnaffected(m: map<string, Json>, m': map<string, Json>, key: string, edits: seq<Edit>)
    requires !Edits(key, edits)
    requires forall k :: k != key ==> Member(m, k) == Member(m', k)
    ensures forall e :: e in edits ==> Member(m, e.key) == Member(m', e.key)
  {
    forall e | e in edits
      ensures Member(m, e.key) == Member(m', e.key)
    {
      var i :| 0 <= i < |edits| && edits[i] == e;
      assert edits[i].key != key;
    }
  }

  /** The outcome, error or document, does not depend on the order in which the members are visited. */
  lemma AssembleOrderFree(m: map<string, Json>, x: seq<Edit>, y: seq<Edit>)
    requires WellFormed(x) && WellFormed(y)
    requires forall e :: e in x <==> e in y
    ensures ApplyAll(Object(m), Assemble(x)) == ApplyAll(Object(m), Assemble(y))
  {
    SuccessTransfers(m, x, y);
    SuccessTransfers(m, y, x);
  }

  lemma SuccessTransfers(m: map<string, Json>, x: seq<Edit>, y: seq<Edit>)
    requires WellFormed(x) && WellFormed(y)
    requires forall e :: e in x <==> e in y
    ensures var r := ApplyAll(Object(m), Assemble(x)); r.Some? ==> ApplyAll(Object(m), Assemble(y)) == r
  {
    var r := ApplyAll(Object(m), Assemble(x));
    if r.Some? {
      StaysObject(m, x);
      var t := r.value.members;
      forall k | !Edits(k, x)
        ensures Member(m, k) == Member(t, k)
      {
        AssembleKeepsOthers(m, x, k);
      }
      forall k | Edits(k, x)
        ensures Edits(k, y)
      {
        var i :| 0 <= i < |x| && x[i].key == k;
        assert x[i] in y;
      }
      AssembleReaches(m, t, x);
      AssembleReaches(m, t, y);
    }
  }

  lemma {:induction false} StaysObject(m: map<string, Json>, edits: seq<Edit>)
    requires WellFormed(edits)
    ensures var r := ApplyAll(Object(m), Assemble(edits)); r.Some? ==> r.value.Object?
    decreases |edits|
  {
    if edits != [] {
      var e := edits[0];
      FirstEdit(m, edits);
      var slot := ApplyAllToSlot(Member(m, e.key), e.diff);
      if slot.Some? {
        StaysObject(PutMember(m, e.key, slot.value), edits[1..]);
      }
    }
  }

  /** An assembled list is a child diff in its own right, and none of its paths is the bare "/". */
  lemma {:induction false} AssembleRelative(edits: seq<Edit>)
    requires WellFormed(edits)
    ensures Relative(Assemble(edits))
    ensures forall p :: p in Assemble(edits) ==> p.path != WHOLE
    decreases |edits|
  {
    if edits != [] {
      var e := edits[0];
      var prefix := "/" + e.key;
      LiftRelative(e.diff, prefix);
      LiftNotWhole(e.diff, prefix);
      AssembleRelative(edits[1..]);
    }
  }

  lemma {:induction false} LiftNotWhole(ps: seq<Patch>, prefix: string)
    requires |prefix| > 1
    ensures forall p :: p in Lift(ps, prefix) ==> p.path != WHOLE
  {
    if ps != [] {
      assert |WithPrefix(ps[0], prefix).path| > 1;
      LiftNotWhole(ps[1..], prefix);
    }
  }

  /** The same exactness for an assembled list used as the child diff of a present object. */
  lemma AssembleReachesSlot(m: map<string, Json>, t: map<string, Json>, edits: seq<Edit>)
    requires WellFormed(edits)
    requires forall k :: !Edits(k, edits) ==> Member(m, k) == Member(t, k)
    ensures ApplyAllToSlot(Some(Object(m)), Assemble(edits)) == Some(Some(Object(t))) <==>
            forall e :: e in edits ==> ApplyAllToSlot(Member(m, e.key), e.diff) == Some(Member(t, e.key))
    ensures Relative(Assemble(edits))
  {
    AssembleReaches(m, t, edits);
    AssembleRelative(edits);
    SlotIsDocument(Object(m), Assemble(edits));
  }

  // ---------- Lifting under the position of an element ----------

  /** One child patch at position i of a list: "/" with add inserts before that position, with remove it closes the gap. */
  function EditElementOnce(xs: seq<Json>, i: nat, p: Patch): Option<seq<Json>> {
    if p.path == WHOLE then
      (match p
       case Add(_, v) => if i <= |xs| then Some(xs[..i] + [v] + xs[i..]) else None
       case Remove(_) => if i < |xs| then Some(xs[..i] + xs[i + 1..]) else None
       case Replace(_, v) => if i < |xs| then Some(xs[i := v]) else None)
    else if i < |xs| then
      var v :- Apply(xs[i], p);
      Some(xs[i := v])
    else None
  }

  function EditElement(xs: seq<Json>, i: nat, ps: seq<Patch>): Option<seq<Json>>
    decreases |ps|
  {
    if ps == [] then Some(xs)
    else
      var ys :- EditElementOnce(xs, i, ps[0]);
      EditElement(ys, i, ps[1..])
  }

  function PositionPath(i: nat): string {
    "/" + Text.Decimal(i)
  }

  lemma PositionToken(i: nat)
    ensures ParsePointer(PositionPath(i)) == Some([Text.Decimal(i)])
    ensures ParseIndex(Text.Decimal(i)) == Some(i) && Text.Decimal(i) != "-"
    ensures |PositionPath(i)| > 1 && PositionPath(i)[0] == '/'
  {
    PrintedIndex(i);
    PointerToMember(Text.Decimal(i));
  }

  lemma LiftedPatchEditsElement(xs: seq<Json>, i: nat, p: Patch)
    requires p.path != "" && p.path[0] == '/'
    ensures Apply(Array(xs), WithPrefix(p, PositionPath(i))) ==
            var ys := EditElementOnce(xs, i, p);
            if ys.None? then None else Some(Array(ys.value))
  {
    if p.path == WHOLE {
      WholePatchEditsElement(xs, i, p);
    } else {
      DeepPatchEditsElement(xs, i, p);
    }
  }

  lemma WholePatchEditsElement(xs: seq<Json>, i: nat, p: Patch)
    requires p.path == WHOLE
    ensures Apply(Array(xs), WithPrefix(p, PositionPath(i))) ==
            var ys := EditElementOnce(xs, i, p);
            if ys.None? then None else Some(Array(ys.value))
  {
    PositionToken(i);
    assert Apply(Array(xs), WithPrefix(p, PositionPath(i))) == ActAt(Array(xs), [Text.Decimal(i)], ActionOf(p));
    assert ActAt(Array(xs), [Text.Decimal(i)], ActionOf(p)) == ActOn(Array(xs), Text.Decimal(i), ActionOf(p));
  }

  lemma DeepPatchEditsElement(xs: seq<Json>, i: nat, p: Patch)
    requires p.path != "" && p.path[0] == '/' && p.path != WHOLE
    ensures Apply(Array(xs), WithPrefix(p, PositionPath(i))) ==
            var ys := EditElementOnce(xs, i, p);
            if ys.None? then None else Some(Array(ys.value))
  {
    PositionToken(i);
    PointerAppend(PositionPath(i), p.path);
    var tail := ParsePointer(p.path).value;
    var path := [Text.Decimal(i)] + tail;
    assert |tail| >= 1 && path[0] == Text.Decimal(i) && path[1..] == tail;
    assert Apply(Array(xs), WithPrefix(p, PositionPath(i))) == ActAt(Array(xs), path, ActionOf(p));
  }

  /** A child diff lifted under the position of an element does to the list what each of its patches does in turn. */
  lemma {:induction false} LiftedDiffEditsElement(xs: seq<Json>, i: nat, ps: seq<Patch>)
    requires Relative(ps)
    ensures ApplyAll(Array(xs), Lift(ps, PositionPath(i))) ==
            var ys := EditElement(xs, i, ps);
            if ys.None? then None else Some(Array(ys.value))
    decreases |ps|
  {
    if ps != [] {
      LiftedPatchEditsElement(xs, i, ps[0]);
      var ys := EditElementOnce(xs, i, ps[0]);
      if ys.Some? {
        LiftedDiffEditsElement(ys.value, i, ps[1..]);
      }
    }
  }

  /** A child diff that neither adds nor removes the whole value does to the element what it does to the value. */
  lemma {:induction false} ElementAsValue(xs: seq<Json>, i: nat, ps: seq<Patch>)
    requires i < |xs| && forall p :: p in ps ==> p.path != WHOLE || p.Replace?
    ensures var slot := ApplyAllToSlot(Some(xs[i]), ps);
      && EditElement(xs, i, ps).Some? == slot.Some?
      && (slot.Some? ==> slot.value.Some? && EditElement(xs, i, ps) == Some(xs[i := slot.value.value]))
    decreases |ps|
  {
    if ps == [] {
      assert xs[i := xs[i]] == xs;
    } else {
      assert ps[0] in ps;
      var ys := EditElementOnce(xs, i, ps[0]);
      if ys.Some? {
        ElementAsValue(ys.value, i, ps[1..]);
        var slot := ApplyAllToSlot(Some(xs[i]), ps);
        if slot.Some? {
          SetTwice(xs, i, ys.value[i], slot.value.value);
        }
      }
    }
  }

  lemma SetTwice(xs: seq<Json>, i: nat, v: Json, w: Json)
    requires i < |xs|
    ensures xs[i := v][i := w] == xs[i := w]
  {
  }

  // ---------- Lifting under a longer prefix ----------

  /** One step into a document: a member of an object, or a position of a list. */
  datatype Leg = Key(name: string) | At(index: nat)

  function LegPath(leg: Leg): string {
    match leg
    case Key(name) => "/" + name
    case At(i) => PositionPath(i)
  }

  function PointerTo(legs: seq<Leg>): string {
    if legs == [] then "" else LegPath(legs[0]) + PointerTo(legs[1..])
  }

  predicate GoodLegs(legs: seq<Leg>) {
    forall leg :: leg in legs && leg.Key? ==> Plain(leg.name) && leg.name != ""
  }

  predicate Fits(doc: Json, leg: Leg) {
    if leg.Key? then doc.Object? else doc.Array?
  }

  function ChildAt(doc: Json, leg: Leg): Option<Json>
    requires Fits(doc, leg)
  {
    match leg
    case Key(name) => Member(doc.members, name)
    case At(i) => if i < |doc.items| then Some(doc.items[i]) else None
  }

  function PutChild(doc: Json, leg: Leg, child: Json): Json
    requires Fits(doc, leg) && ChildAt(doc, leg).Some?
  {
    match leg
    case Key(name) => Object(doc.members[name := child])
    case At(i) => Array(doc.items[i := child])
  }

  /** Every leg but the last leads to a value that is there; the last one may name a place that is empty. */
  predicate Leads(doc: Json, legs: seq<Leg>)
    decreases |legs|
  {
    legs != [] && Fits(doc, legs[0]) &&
    (|legs| > 1 ==> ChildAt(doc, legs[0]).Some? && Leads(ChildAt(doc, legs[0]).value, legs[1..]))
  }

  /** What the child diff does at the end of the legs, put back into the whole document. */
  function EditSubtree(doc: Json, legs: seq<Leg>, ps: seq<Patch>): Option<Json>
    requires Leads(doc, legs)
    decreases |legs|
  {
    if |legs| > 1 then
      var child :- EditSubtree(ChildAt(doc, legs[0]).value, legs[1..], ps);
      Some(PutChild(doc, legs[0], child))
    else
      match legs[0]
      case Key(name) =>
        var slot :- ApplyAllToSlot(Member(doc.members, name), ps);
        Some(Object(PutMember(doc.members, name, slot)))
      case At(i) =>
        var ys :- EditElement(doc.items, i, ps);
        Some(Array(ys))
  }

  /** Patches that never speak of the whole value act below one leg. */
  lemma LiftedBelow(doc: Json, leg: Leg, ps: seq<Patch>)
    requires Fits(doc, leg) && ChildAt(doc, leg).Some? && Relative(ps) && forall p :: p in ps ==> p.path != WHOLE
    requires leg.Key? ==> Plain(leg.name)
    ensures ApplyAll(doc, Lift(ps, LegPath(leg))) ==
            var child := ApplyAll(ChildAt(doc, leg).value, ps);
            if child.None? then None else Some(PutChild(doc, leg, child.value))
  {
    SlotIsDocument(ChildAt(doc, leg).value, ps);
    match leg
    case Key(name) => LiftedDiffEditsMember(doc.members, name, ps);
    case At(i) =>
      LiftedDiffEditsElement(doc.items, i, ps);
      ElementAsValue(doc.items, i, ps);
  }

  lemma PointerToLegs(legs: seq<Leg>)
    requires legs != [] && GoodLegs(legs)
    ensures |PointerTo(legs)| > 1 && PointerTo(legs)[0] == '/'
  {
    assert legs[0] in legs;
    if legs[0].At? {
      PositionToken(legs[0].index);
    }
  }

  /** The lifting lemma at any depth, through members of objects and positions of lists. */
  lemma {:induction false} LiftedDiffEditsSubtree(doc: Json, legs: seq<Leg>, ps: seq<Patch>)
    requires Leads(doc, legs) && GoodLegs(legs) && Relative(ps)
    ensures ApplyAll(doc, Lift(ps, PointerTo(legs))) == EditSubtree(doc, legs, ps)
    decreases |legs|
  {
    var leg, rest := legs[0], legs[1..];
    assert leg in legs;
    if rest == [] {
      assert PointerTo(legs) == LegPath(leg);
      match leg
      case Key(name) => LiftedDiffEditsMember(doc.members, name, ps);
      case At(i) => LiftedDiffEditsElement(doc.items, i, ps);
    } else {
      PointerToLegs(rest);
      LiftTwice(ps, PointerTo(rest), LegPath(leg));
      LiftRelative(ps, PointerTo(rest));
      LiftNotWhole(ps, PointerTo(rest));
      LiftedBelow(doc, leg, Lift(ps, PointerTo(rest)));
      LiftedDiffEditsSubtree(ChildAt(doc, leg).value, rest, ps);
    }
  }
}
