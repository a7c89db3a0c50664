/**
 Structures with a fixed list of attributes, some of them optional, and the diffs of their attributes.
 */
module Structure {
  import opened Options
  import opened JsonDocument
  import opened JsonPatch
  import opened ObjectDiff

  /** Names that can be written into a pointer, no two of them alike. */
  predicate GoodNames(names: seq<string>) {
    && (forall i :: 0 <= i < |names| ==> Plain(names[i]) && names[i] != "")
    && (forall i, j :: 0 <= i < j < |names| ==> names[i] != names[j])
  }

  /** The members of `base`, with attribute i set to slots[i], or taken out where slots[i] is None. */
  function MembersOver(base: map<string, Json>, names: seq<string>, slots: seq<Slot>): map<string, Json>
    requires |names| == |slots|
  {
    if names == [] then base
    else PutMember(MembersOver(base, names[1..], slots[1..]), names[0], slots[0])
  }

  /** The members of a structure that has no other attributes. */
  function Members(names: seq<string>, slots: seq<Slot>): map<string, Json>
    requires |names| == |slots|
  {
    MembersOver(map[], names, slots)
  }

  lemma {:induction false} MembersAt(base: map<string, Json>, names: seq<string>, slots: seq<Slot>, i: nat)
    requires i < |names| == |slots|
    requires forall j :: 0 <= j < i ==> names[j] != names[i]
    ensures Member(MembersOver(base, names, slots), names[i]) == slots[i]
  {
    if i > 0 {
      MembersAt(base, names[1..], slots[1..], i - 1);
      assert names[1..][i - 1] == names[i];
    }
  }

  lemma {:induction false} MembersElsewhere(base: map<string, Json>, names: seq<string>, slots: seq<Slot>, key: string)
    requires |names| == |slots|
    requires forall i :: 0 <= i < |names| ==> names[i] != key
    ensures Member(MembersOver(base, names, slots), key) == Member(base, key)
  {
    if names != [] {
      MembersElsewhere(base, names[1..], slots[1..], key);
    }
  }

  /** One edit for each attribute, in the order of the attributes. */
  function EditsOf(names: seq<string>, diffs: seq<seq<Patch>>): (r: seq<Edit>)
    requires |names| == |diffs|
    ensures |r| == |names|
  {
    seq(|names|, i requires 0 <= i < |names| => Edit(names[i], diffs[i]))
  }

  lemma EditsOfWellFormed(names: seq<string>, diffs: seq<seq<Patch>>)
    requires |names| == |diffs| && GoodNames(names)
    requires forall i :: 0 <= i < |diffs| ==> Relative(diffs[i])
    ensures WellFormed(EditsOf(names, diffs))
  {
    var edits := EditsOf(names, diffs);
    forall e | e in edits
      ensures Plain(e.key) && e.key != "" && Relative(e.diff)
    {
      var i :| 0 <= i < |edits| && edits[i] == e;
    }
  }

  /** The diff of attribute i turns the old value of the attribute into the new one. */
  predicate ExactAt(a: seq<Slot>, diffs: seq<seq<Patch>>, b: seq<Slot>, i: nat)
    requires i < |a| == |b| == |diffs|
  {
    ApplyAllToSlot(a[i], diffs[i]) == Some(b[i])
  }

  /** A structure diff is exact if and only if the diff of every attribute is. */
  lemma StructureReaches(base: map<string, Json>, names: seq<string>, a: seq<Slot>, b: seq<Slot>, diffs: seq<seq<Patch>>)
    requires GoodNames(names) && |names| == |a| == |b| == |diffs|
    requires forall i :: 0 <= i < |diffs| ==> Relative(diffs[i])
    ensures var ps := Assemble(EditsOf(names, diffs));
      && (ApplyAllToSlot(Some(Object(MembersOver(base, names, a))), ps) == Some(Some(Object(MembersOver(base, names, b)))) <==>
          forall i :: 0 <= i < |a| ==> ExactAt(a, diffs, b, i))
      && Relative(ps) && forall p :: p in ps ==> p.path != WHOLE
  {
    var m, t, edits := MembersOver(base, names, a), MembersOver(base, names, b), EditsOf(names, diffs);
    EditsOfWellFormed(names, diffs);
    MembersAgree(base, names, a, b, diffs);
    AssembleReachesSlot(m, t, edits);
    AssembleRelative(edits);
    forall i | 0 <= i < |a|
      ensures edits[i] in edits
      ensures ExactAt(a, diffs, b, i) <==> ApplyAllToSlot(Member(m, edits[i].key), edits[i].diff) == Some(Member(t, edits[i].key))
    {
      MembersAt(base, names, a, i);
      MembersAt(base, names, b, i);
    }
  }

  // The same for structures of at most six attributes, written out attribute by attribute.

  predicate AllRelative(d: seq<seq<Patch>>) {
    && |d| <= 6
    && (0 < |d| ==> Relative(d[0])) && (1 < |d| ==> Relative(d[1])) && (2 < |d| ==> Relative(d[2]))
    && (3 < |d| ==> Relative(d[3])) && (4 < |d| ==> Relative(d[4])) && (5 < |d| ==> Relative(d[5]))
  }

  predicate AllExact(a: seq<Slot>, d: seq<seq<Patch>>, b: seq<Slot>)
    requires |a| == |b| == |d|
  {
    && (0 < |d| ==> ExactAt(a, d, b, 0)) && (1 < |d| ==> ExactAt(a, d, b, 1)) && (2 < |d| ==> ExactAt(a, d, b, 2))
    && (3 < |d| ==> ExactAt(a, d, b, 3)) && (4 < |d| ==> ExactAt(a, d, b, 4)) && (5 < |d| ==> ExactAt(a, d, b, 5))
  }

  lemma SmallStructureReaches(base: map<string, Json>, names: seq<string>, a: seq<Slot>, b: seq<Slot>, diffs: seq<seq<Patch>>)
    requires GoodNames(names) && |names| == |a| == |b| == |diffs|
    requires AllRelative(diffs)
    ensures var ps := Assemble(EditsOf(names, diffs));
      && (ApplyAllToSlot(Some(Object(MembersOver(base, names, a))), ps) == Some(Some(Object(MembersOver(base, names, b)))) <==>
          AllExact(a, diffs, b))
      && Relative(ps) && forall p :: p in ps ==> p.path != WHOLE
  {
    forall i | 0 <= i < |diffs|
      ensures Relative(diffs[i])
    {
      assert i == 0 || i == 1 || i == 2 || i == 3 || i == 4 || i == 5;
    }
    StructureReaches(base, names, a, b, diffs);
    if AllExact(a, diffs, b) {
      forall i | 0 <= i < |a|
        ensures ExactAt(a, diffs, b, i)
      {
        assert i == 0 || i == 1 || i == 2 || i == 3 || i == 4 || i == 5;
      }
    }
  }

  lemma MembersAgree(base: map<string, Json>, names: seq<string>, a: seq<Slot>, b: seq<Slot>, diffs: seq<seq<Patch>>)
    requires |names| == |a| == |b| == |diffs|
    ensures forall k :: !Edits(k, EditsOf(names, diffs)) ==>
              Member(MembersOver(base, names, a), k) == Member(MembersOver(base, names, b), k)
  {
    var edits := EditsOf(names, diffs);
    forall k | !Edits(k, edits)
      ensures Member(MembersOver(base, names, a), k) == Member(MembersOver(base, names, b), k)
    {
      forall i | 0 <= i < |names| ensures names[i] != k {
        assert edits[i].key != k;
      }
      MembersElsewhere(base, names, a, k);
      MembersElsewhere(base, names, b, k);
    }
  }

  // ---------- Diffs of single attributes ----------

  function SlotOf<T>(x: Option<T>, doc: T -> Json): Slot {
    match x
    case None => None
    case Some(v) => Some(doc(v))
  }

  /** A mandatory attribute: replaced when it changed. */
  function MandatoryDiff<T(==)>(a: T, b: T, doc: T -> Json): seq<Patch> {
    if a == b then [] else [Replace(WHOLE, doc(b))]
  }

  /** An optional attribute: added, removed, or replaced when it changed. */
  function OptionalDiff<T(==)>(a: Option<T>, b: Option<T>, doc: T -> Json): seq<Patch> {
    if a == b then []
    else if a.None? then [Add(WHOLE, doc(b.value))]
    else if b.None? then [Remove(WHOLE)]
    else [Replace(WHOLE, doc(b.value))]
  }

  /** An optional attribute whose two texts are compared as pointers: replaced whenever both are set. */
  function RestatedDiff<T>(a: Option<T>, b: Option<T>, doc: T -> Json): seq<Patch> {
    if a.None? && b.None? then []
    else if a.None? then [Add(WHOLE, doc(b.value))]
    else if b.None? then [Remove(WHOLE)]
    else [Replace(WHOLE, doc(b.value))]
  }

  /** An optional structure: added or removed whole, or changed by the diffs of its attributes. */
  function StructureDiff<T>(a: Option<T>, b: Option<T>, doc: T -> Json, attributeDiff: seq<Patch>): seq<Patch> {
    if a.None? && b.None? then []
    else if a.None? then [Add(WHOLE, doc(b.value))]
    else if b.None? then [Remove(WHOLE)]
    else attributeDiff
  }

  lemma OnePatch(slot: Slot, p: Patch)
    ensures ApplyAllToSlot(slot, [p]) == ApplyToSlot(slot, p)
  {
    assert [p][1..] == [];
  }

  lemma MandatoryDiffApplies<T>(a: T, b: T, doc: T -> Json)
    ensures ApplyAllToSlot(Some(doc(a)), MandatoryDiff(a, b, doc)) == Some(Some(doc(b)))
    ensures Relative(MandatoryDiff(a, b, doc))
  {
    OnePatch(Some(doc(a)), Replace(WHOLE, doc(b)));
  }

  lemma OptionalDiffApplies<T>(a: Option<T>, b: Option<T>, doc: T -> Json)
    ensures ApplyAllToSlot(SlotOf(a, doc), OptionalDiff(a, b, doc)) == Some(SlotOf(b, doc))
    ensures Relative(OptionalDiff(a, b, doc))
  {
    var ps := OptionalDiff(a, b, doc);
    if ps != [] {
      OnePatch(SlotOf(a, doc), ps[0]);
    }
  }

  lemma RestatedDiffApplies<T>(a: Option<T>, b: Option<T>, doc: T -> Json)
    ensures ApplyAllToSlot(SlotOf(a, doc), RestatedDiff(a, b, doc)) == Some(SlotOf(b, doc))
    ensures Relative(RestatedDiff(a, b, doc))
  {
    var ps := RestatedDiff(a, b, doc);
    if ps != [] {
      OnePatch(SlotOf(a, doc), ps[0]);
    }
  }

  /** An optional structure needs the diffs of its attributes only when it is set on both sides. */
  lemma StructureDiffApplies<T>(a: Option<T>, b: Option<T>, doc: T -> Json, attributeDiff: seq<Patch>, exact: bool)
    requires a.Some? && b.Some? ==>
               && Relative(attributeDiff)
               && (ApplyAllToSlot(Some(doc(a.value)), attributeDiff) == Some(Some(doc(b.value))) <==> exact)
    requires !(a.Some? && b.Some?) ==> exact
    ensures ApplyAllToSlot(SlotOf(a, doc), StructureDiff(a, b, doc, attributeDiff)) == Some(SlotOf(b, doc)) <==> exact
    ensures Relative(StructureDiff(a, b, doc, attributeDiff))
  {
    var ps := StructureDiff(a, b, doc, attributeDiff);
    if ps != [] && !(a.Some? && b.Some?) {
      OnePatch(SlotOf(a, doc), ps[0]);
    }
  }
}
