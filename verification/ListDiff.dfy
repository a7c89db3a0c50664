/**
 Positional diffs of lists. Six element types share this algorithm; they differ in the element
 comparison, in the path used for appending, and in whether a common prefix is skipped first.
 The comparison may be coarser than equality of the JSON values.
 */
module ListDiff {
  import opened Options
  import opened JsonDocument
  import opened JsonPatch
  import Sequences
  import Text

  /** Elements past the end of the old list are added at "/-" or at their own position. */
  datatype AddStyle = AtDash | AtPosition

  function IndexPath(i: nat): string {
    "/" + Text.Decimal(i)
  }

  function AddPath(style: AddStyle, i: nat): string {
    if style.AtDash? then "/-" else IndexPath(i)
  }

  function Docs<T>(s: seq<T>, doc: T -> Json): (r: seq<Json>)
    ensures |r| == |s|
  {
    seq(|s|, i requires 0 <= i < |s| => doc(s[i]))
  }

  /** An empty list is an absent attribute. */
  function ListSlot<T>(s: seq<T>, doc: T -> Json): Slot {
    if s == [] then None else Some(Array(Docs(s, doc)))
  }

  // ---------- The patch lists ----------

  /** The loop of the diff from position `at` on; a and b are what is left of the two lists. */
  function TailDiff<T>(a: seq<T>, b: seq<T>, at: nat, same: (T, T) -> bool, doc: T -> Json, style: AddStyle): seq<Patch>
    decreases |a| + |b|
  {
    if a == [] && b == [] then []
    else if a == [] then
      [Add(AddPath(style, at), doc(b[0]))] + TailDiff(a, b[1..], at + 1, same, doc, style)
    else if b == [] then
      [Remove(IndexPath(at))] + TailDiff(a[1..], b, at, same, doc, style)
    else
      (if same(a[0], b[0]) then [] else [Replace(IndexPath(at), doc(b[0]))])
      + TailDiff(a[1..], b[1..], at + 1, same, doc, style)
  }

  function PlainDiff<T>(a: seq<T>, b: seq<T>, same: (T, T) -> bool, doc: T -> Json, style: AddStyle): seq<Patch> {
    if a == [] && b == [] then []
    else if a == [] then [Add(WHOLE, Array(Docs(b, doc)))]
    else if b == [] then [Remove(WHOLE)]
    else TailDiff(a, b, 0, same, doc, style)
  }

  function CommonPrefix<T>(a: seq<T>, b: seq<T>, same: (T, T) -> bool): (n: nat)
    ensures n <= |a| && n <= |b|
    ensures forall i :: 0 <= i < n ==> same(a[i], b[i])
    ensures n < |a| && n < |b| ==> !same(a[n], b[n])
  {
    if a == [] || b == [] || !same(a[0], b[0]) then 0 else 1 + CommonPrefix(a[1..], b[1..], same)
  }

  function PrefixDiff<T>(a: seq<T>, b: seq<T>, same: (T, T) -> bool, doc: T -> Json, style: AddStyle): seq<Patch> {
    if a == [] && b == [] then []
    else if a == [] then [Add(WHOLE, Array(Docs(b, doc)))]
    else if b == [] then [Remove(WHOLE)]
    else
      var n := CommonPrefix(a, b, same);
      if n == 0 then [Replace(WHOLE, Array(Docs(b, doc)))]
      else TailDiff(a[n..], b[n..], n, same, doc, style)
  }

  // ---------- The loops that build them ----------

  /** The patches of one round of the loop, with cursors i and j into the two lists. */
  function Round<T>(a: seq<T>, b: seq<T>, i: nat, j: nat, idx: nat, same: (T, T) -> bool, doc: T -> Json, style: AddStyle)
    : seq<Patch>
    requires i < |a| || j < |b|
  {
    if i >= |a| then [Add(AddPath(style, idx), doc(b[j]))]
    else if j >= |b| then [Remove(IndexPath(idx))]
    else if same(a[i], b[j]) then []
    else [Replace(IndexPath(idx), doc(b[j]))]
  }

  function Next<T>(s: seq<T>, i: nat): nat {
    if i < |s| then i + 1 else i
  }

  lemma TailDiffRound<T>(a: seq<T>, b: seq<T>, i: nat, j: nat, idx: nat, same: (T, T) -> bool, doc: T -> Json, style: AddStyle)
    requires i <= |a| && j <= |b| && (i < |a| || j < |b|)
    ensures TailDiff(a[i..], b[j..], idx, same, doc, style)
         == Round(a, b, i, j, idx, same, doc, style)
            + TailDiff(a[Next(a, i)..], b[Next(b, j)..], if j < |b| then idx + 1 else idx, same, doc, style)
  {
    if i < |a| {
      assert a[i..][1..] == a[i + 1..];
    }
    if j < |b| {
      assert b[j..][1..] == b[j + 1..];
    }
  }

  method BuildTailDiff<T>(a: seq<T>, b: seq<T>, start: nat, same: (T, T) -> bool, doc: T -> Json, style: AddStyle)
    returns (patches: seq<Patch>)
    requires start <= |a| && start <= |b|
    ensures patches == TailDiff(a[start..], b[start..], start, same, doc, style)
  {
    patches := [];
    var idx: int, i: nat, j: nat := start, start, start;
    ghost var goal := TailDiff(a[start..], b[start..], start, same, doc, style);
    while i < |a| || j < |b|
      invariant 0 <= idx && i <= |a| && j <= |b|
      invariant patches + TailDiff(a[i..], b[j..], idx, same, doc, style) == goal
      decreases |a| - i + |b| - j
    {
      TailDiffRound(a, b, i, j, idx, same, doc, style);
      ghost var round := Round(a, b, i, j, idx, same, doc, style);
      ghost var rest := TailDiff(a[Next(a, i)..], b[Next(b, j)..], if j < |b| then idx + 1 else idx, same, doc, style);
      Sequences.Regroup(patches, round, rest);
      ghost var before := patches;
      if i == |a| {
        patches := patches + [Add(AddPath(style, idx), doc(b[j]))];
      } else if j == |b| {
        patches := patches + [Remove(IndexPath(idx))];
        idx := idx - 1;
      } else if !same(a[i], b[j]) {
        patches := patches + [Replace(IndexPath(idx), doc(b[j]))];
      }
      assert patches == before + round;
      idx := idx + 1;
      i := if i < |a| then i + 1 else i;
      j := if j < |b| then j + 1 else j;
    }
    assert a[i..] == [] && b[j..] == [];
  }

  method BuildPlainDiff<T>(a: seq<T>, b: seq<T>, same: (T, T) -> bool, doc: T -> Json, style: AddStyle)
    returns (patches: seq<Patch>)
    ensures patches == PlainDiff(a, b, same, doc, style)
  {
    if a == [] && b == [] {
      patches := [];
    } else if a == [] {
      patches := [Add(WHOLE, Array(Docs(b, doc)))];
    } else if b == [] {
      patches := [Remove(WHOLE)];
    } else {
      patches := BuildTailDiff(a, b, 0, same, doc, style);
      assert a[0..] == a && b[0..] == b;
    }
  }

  lemma CommonPrefixStep<T>(a: seq<T>, b: seq<T>, i: nat, same: (T, T) -> bool)
    requires i < |a| && i < |b| && same(a[i], b[i])
    ensures CommonPrefix(a[i..], b[i..], same) == 1 + CommonPrefix(a[i + 1..], b[i + 1..], same)
  {
    assert a[i..][1..] == a[i + 1..] && b[i..][1..] == b[i + 1..];
  }

  method BuildPrefixDiff<T>(a: seq<T>, b: seq<T>, same: (T, T) -> bool, doc: T -> Json, style: AddStyle)
    returns (patches: seq<Patch>)
    ensures patches == PrefixDiff(a, b, same, doc, style)
  {
    if a == [] && b == [] {
      patches := [];
    } else if a == [] {
      patches := [Add(WHOLE, Array(Docs(b, doc)))];
    } else if b == [] {
      patches := [Remove(WHOLE)];
    } else {
      var idx := 0;
      while idx < |a| && idx < |b| && same(a[idx], b[idx])
        invariant idx <= |a| && idx <= |b|
        invariant CommonPrefix(a, b, same) == idx + CommonPrefix(a[idx..], b[idx..], same)
        decreases |a| - idx
      {
        CommonPrefixStep(a, b, idx, same);
        idx := idx + 1;
      }
      if idx == 0 {
        patches := [Replace(WHOLE, Array(Docs(b, doc)))];
      } else {
        patches := BuildTailDiff(a, b, idx, same, doc, style);
      }
    }
  }

  // ---------- What they do to the list ----------

  /** b, except that an element found the same keeps its old JSON value. */
  function Kept<T>(a: seq<T>, b: seq<T>, same: (T, T) -> bool, doc: T -> Json): (r: seq<Json>)
    ensures |r| == |b|
  {
    seq(|b|, i requires 0 <= i < |b| => if i < |a| && same(a[i], b[i]) then doc(a[i]) else doc(b[i]))
  }

  lemma IndexPathParses(i: nat)
    ensures ParsePointer(IndexPath(i)) == Some([Text.Decimal(i)])
    ensures ParseIndex(Text.Decimal(i)) == Some(i) && Text.Decimal(i) != "-"
  {
    PrintedIndex(i);
    PointerToMember(Text.Decimal(i));
  }

  lemma PatchAtIndex(doc: Json, i: nat, p: Patch)
    requires p.path == IndexPath(i)
    ensures Apply(doc, p) == ActOn(doc, Text.Decimal(i), ActionOf(p))
  {
    IndexPathParses(i);
  }

  lemma ReplaceAt(xs: seq<Json>, i: nat, v: Json)
    requires i < |xs|
    ensures Apply(Array(xs), Replace(IndexPath(i), v)) == Some(Array(xs[i := v]))
  {
    PatchAtIndex(Array(xs), i, Replace(IndexPath(i), v));
    PrintedIndex(i);
  }

  lemma RemoveAt(xs: seq<Json>, i: nat)
    requires i < |xs|
    ensures Apply(Array(xs), Remove(IndexPath(i))) == Some(Array(xs[..i] + xs[i + 1..]))
  {
    PatchAtIndex(Array(xs), i, Remove(IndexPath(i)));
    PrintedIndex(i);
  }

  lemma AddAtEnd(xs: seq<Json>, v: Json, style: AddStyle)
    ensures Apply(Array(xs), Add(AddPath(style, |xs|), v)) == Some(Array(xs + [v]))
  {
    if style.AtDash? {
      assert "/" + "-" == "/-";
      PointerToMember("-");
    } else {
      IndexPathParses(|xs|);
      assert xs[..|xs|] + [v] + xs[|xs|..] == xs + [v];
    }
  }

  lemma {:induction false} TailDiffApplies<T>(done: seq<Json>, a: seq<T>, b: seq<T>, same: (T, T) -> bool, doc: T -> Json,
                                             style: AddStyle)
    ensures ApplyAll(Array(done + Docs(a, doc)), TailDiff(a, b, |done|, same, doc, style))
         == Some(Array(done + Kept(a, b, same, doc)))
    decreases |a| + |b|, 1
  {
    if a == [] && b == [] {
      assert Docs(a, doc) == Kept(a, b, same, doc);
    } else if a == [] {
      TailDiffAdds(done, a, b, same, doc, style);
    } else if b == [] {
      TailDiffRemoves(done, a, b, same, doc, style);
    } else {
      TailDiffMeets(done, a, b, same, doc, style);
    }
  }

  lemma {:induction false} TailDiffAdds<T>(done: seq<Json>, a: seq<T>, b: seq<T>, same: (T, T) -> bool, doc: T -> Json,
                                          style: AddStyle)
    requires a == [] && b != []
    ensures ApplyAll(Array(done + Docs(a, doc)), TailDiff(a, b, |done|, same, doc, style))
         == Some(Array(done + Kept(a, b, same, doc)))
    decreases |a| + |b|, 0
  {
    var v := doc(b[0]);
    AddAtEnd(done + Docs(a, doc), v, style);
    assert done + Docs(a, doc) == done && done + [v] + Docs(a, doc) == done + [v];
    TailDiffContinues(done, [Add(AddPath(style, |done|), v)], done + [v], a, b[1..], same, doc, style);
    KeptOnward(done, a, b, same, doc);
  }

  lemma {:induction false} TailDiffRemoves<T>(done: seq<Json>, a: seq<T>, b: seq<T>, same: (T, T) -> bool, doc: T -> Json,
                                             style: AddStyle)
    requires a != [] && b == []
    ensures ApplyAll(Array(done + Docs(a, doc)), TailDiff(a, b, |done|, same, doc, style))
         == Some(Array(done + Kept(a, b, same, doc)))
    decreases |a| + |b|, 0
  {
    var xs, at := done + Docs(a, doc), |done|;
    RemoveAt(xs, at);
    assert xs[..at] + xs[at + 1..] == done + Docs(a[1..], doc);
    TailDiffContinues(xs, [Remove(IndexPath(at))], done, a[1..], b, same, doc, style);
    KeptOnward(done, a, b, same, doc);
  }

  lemma KeptOnward<T>(done: seq<Json>, a: seq<T>, b: seq<T>, same: (T, T) -> bool, doc: T -> Json)
    requires a != [] || b != []
    ensures b != [] ==>
              var kept := if a != [] && same(a[0], b[0]) then doc(a[0]) else doc(b[0]);
              done + Kept(a, b, same, doc) == done + [kept] + Kept(if a == [] then [] else a[1..], b[1..], same, doc)
    ensures b == [] ==> Kept(a, b, same, doc) == Kept(a[1..], b, same, doc)
  {
  }

  /** The case in which both lists still have an element. */
  lemma {:induction false} TailDiffMeets<T>(done: seq<Json>, a: seq<T>, b: seq<T>, same: (T, T) -> bool, doc: T -> Json,
                                           style: AddStyle)
    requires a != [] && b != []
    ensures ApplyAll(Array(done + Docs(a, doc)), TailDiff(a, b, |done|, same, doc, style))
         == Some(Array(done + Kept(a, b, same, doc)))
    decreases |a| + |b|, 0
  {
    var xs, at := done + Docs(a, doc), |done|;
    KeptOnward(done, a, b, same, doc);
    if same(a[0], b[0]) {
      DocsOnward(done, a, doc(a[0]), doc);
      TailDiffContinues(xs, [], done + [doc(a[0])], a[1..], b[1..], same, doc, style);
    } else {
      var v := doc(b[0]);
      ReplaceAt(xs, at, v);
      DocsOnward(done, a, v, doc);
      TailDiffContinues(xs, [Replace(IndexPath(at), v)], done + [v], a[1..], b[1..], same, doc, style);
    }
  }

  lemma DocsOnward<T>(done: seq<Json>, a: seq<T>, v: Json, doc: T -> Json)
    requires a != []
    ensures (done + Docs(a, doc))[|done| := v] == done + [v] + Docs(a[1..], doc)
    ensures v == doc(a[0]) ==> done + Docs(a, doc) == done + [v] + Docs(a[1..], doc)
  {
  }

  lemma {:induction false} TailDiffContinues<T>(xs: seq<Json>, first: seq<Patch>, done: seq<Json>, a: seq<T>, b: seq<T>,
                                               same: (T, T) -> bool, doc: T -> Json, style: AddStyle)
    requires |first| <= 1
    requires if first == [] then xs == done + Docs(a, doc)
             else Apply(Array(xs), first[0]) == Some(Array(done + Docs(a, doc)))
    ensures ApplyAll(Array(xs), first + TailDiff(a, b, |done|, same, doc, style))
         == Some(Array(done + Kept(a, b, same, doc)))
    decreases |a| + |b|, 2
  {
    var rest := TailDiff(a, b, |done|, same, doc, style);
    TailDiffApplies(done, a, b, same, doc, style);
    if first == [] {
      assert first + rest == rest;
    } else {
      assert (first + rest)[1..] == rest;
    }
  }

  lemma {:induction false} TailDiffPaths<T>(a: seq<T>, b: seq<T>, at: nat, same: (T, T) -> bool, doc: T -> Json, style: AddStyle)
    ensures Relative(TailDiff(a, b, at, same, doc, style))
    ensures forall p :: p in TailDiff(a, b, at, same, doc, style) ==> p.path != WHOLE
    decreases |a| + |b|
  {
    PrintedIndex(at);
    if a == [] && b == [] {
    } else if a == [] {
      TailDiffPaths(a, b[1..], at + 1, same, doc, style);
    } else if b == [] {
      TailDiffPaths(a[1..], b, at, same, doc, style);
    } else {
      TailDiffPaths(a[1..], b[1..], at + 1, same, doc, style);
    }
  }

  /** Where the comparison says "same", the JSON values really are the same. */
  predicate SameMeansEqual<T>(a: seq<T>, b: seq<T>, same: (T, T) -> bool, doc: T -> Json) {
    forall i :: 0 <= i < |a| && i < |b| && same(a[i], b[i]) ==> doc(a[i]) == doc(b[i])
  }

  lemma KeptIsTarget<T>(a: seq<T>, b: seq<T>, same: (T, T) -> bool, doc: T -> Json)
    ensures Kept(a, b, same, doc) == Docs(b, doc) <==> SameMeansEqual(a, b, same, doc)
  {
    if Kept(a, b, same, doc) == Docs(b, doc) {
      forall i | 0 <= i < |a| && i < |b| && same(a[i], b[i])
        ensures doc(a[i]) == doc(b[i])
      {
        assert Kept(a, b, same, doc)[i] == Docs(b, doc)[i];
      }
    }
  }

  /**
   The plain diff never meets an error, for lists of any lengths: it leaves an absent attribute when
   b is empty, and otherwise b with coarsely equal elements kept. It is exact if and only if the
   comparison did not hide a difference.
   */
  lemma PlainDiffApplies<T>(a: seq<T>, b: seq<T>, same: (T, T) -> bool, doc: T -> Json, style: AddStyle)
    ensures var r := ApplyAllToSlot(ListSlot(a, doc), PlainDiff(a, b, same, doc, style));
      && r == Some(if b == [] then None else Some(Array(Kept(a, b, same, doc))))
      && (r == Some(ListSlot(b, doc)) <==> SameMeansEqual(a, b, same, doc))
    ensures Relative(PlainDiff(a, b, same, doc, style))
  {
    KeptIsTarget(a, b, same, doc);
    var ps := PlainDiff(a, b, same, doc, style);
    if a == [] || b == [] {
      WholeValueDiff(ListSlot(a, doc), ps);
      if a == [] && b != [] {
        assert Kept(a, b, same, doc) == Docs(b, doc);
      }
    } else {
      TailDiffPaths(a, b, 0, same, doc, style);
      SlotIsDocument(Array(Docs(a, doc)), ps);
      TailDiffApplies([], a, b, same, doc, style);
      assert [] + Docs(a, doc) == Docs(a, doc);
      assert [] + Kept(a, b, same, doc) == Kept(a, b, same, doc);
    }
  }

  lemma WholeValueDiff(slot: Slot, ps: seq<Patch>)
    requires |ps| <= 1 && forall p :: p in ps ==> p.path == WHOLE
    ensures ps == [] ==> ApplyAllToSlot(slot, ps) == Some(slot)
    ensures ps != [] ==> ApplyAllToSlot(slot, ps) == ApplyToSlot(slot, ps[0])
  {
    if ps != [] {
      assert ps[1..] == [];
    }
  }

  /** The prefix diff replaces the whole list when already the first elements differ. */
  predicate KeepsPrefix<T>(a: seq<T>, b: seq<T>, same: (T, T) -> bool) {
    a != [] && b != [] && same(a[0], b[0])
  }

  lemma PrefixDiffApplies<T>(a: seq<T>, b: seq<T>, same: (T, T) -> bool, doc: T -> Json, style: AddStyle)
    ensures var r := ApplyAllToSlot(ListSlot(a, doc), PrefixDiff(a, b, same, doc, style));
      && r == Some(if KeepsPrefix(a, b, same) then Some(Array(Kept(a, b, same, doc))) else ListSlot(b, doc))
      && (r == Some(ListSlot(b, doc)) <==> (KeepsPrefix(a, b, same) ==> SameMeansEqual(a, b, same, doc)))
    ensures Relative(PrefixDiff(a, b, same, doc, style))
  {
    if KeepsPrefix(a, b, same) {
      PrefixKeptApplies(a, b, same, doc, style);
      KeptIsTarget(a, b, same, doc);
    } else {
      WholeValueDiff(ListSlot(a, doc), PrefixDiff(a, b, same, doc, style));
    }
  }

  lemma PrefixKeptApplies<T>(a: seq<T>, b: seq<T>, same: (T, T) -> bool, doc: T -> Json, style: AddStyle)
    requires KeepsPrefix(a, b, same)
    ensures ApplyAllToSlot(ListSlot(a, doc), PrefixDiff(a, b, same, doc, style)) == Some(Some(Array(Kept(a, b, same, doc))))
    ensures Relative(PrefixDiff(a, b, same, doc, style))
  {
    var n := CommonPrefix(a, b, same);
    var done := Docs(a[..n], doc);
    TailDiffPaths(a[n..], b[n..], n, same, doc, style);
    SlotIsDocument(Array(Docs(a, doc)), TailDiff(a[n..], b[n..], n, same, doc, style));
    TailDiffApplies(done, a[n..], b[n..], same, doc, style);
    SplitDocs(a, b, n, same, doc);
  }

  lemma SplitDocs<T>(a: seq<T>, b: seq<T>, n: nat, same: (T, T) -> bool, doc: T -> Json)
    requires n <= |a| && n <= |b|
    requires forall i :: 0 <= i < n ==> same(a[i], b[i])
    ensures Docs(a[..n], doc) + Docs(a[n..], doc) == Docs(a, doc)
    ensures Docs(a[..n], doc) + Kept(a[n..], b[n..], same, doc) == Kept(a, b, same, doc)
  {
  }

  // ---------- Economy ----------

  predicate SameInOrder<T>(a: seq<T>, b: seq<T>, same: (T, T) -> bool) {
    |a| == |b| && forall i :: 0 <= i < |a| ==> same(a[i], b[i])
  }

  function Longer<T>(a: seq<T>, b: seq<T>): nat {
    if |a| < |b| then |b| else |a|
  }

  lemma {:induction false} TailDiffSize<T>(a: seq<T>, b: seq<T>, at: nat, same: (T, T) -> bool, doc: T -> Json, style: AddStyle)
    ensures |TailDiff(a, b, at, same, doc, style)| <= Longer(a, b)
    ensures TailDiff(a, b, at, same, doc, style) == [] <==> SameInOrder(a, b, same)
    decreases |a| + |b|
  {
    if a == [] && b == [] {
    } else if a == [] {
      TailDiffSize(a, b[1..], at + 1, same, doc, style);
    } else if b == [] {
      TailDiffSize(a[1..], b, at, same, doc, style);
    } else {
      TailDiffSize(a[1..], b[1..], at + 1, same, doc, style);
      if same(a[0], b[0]) && SameInOrder(a[1..], b[1..], same) {
        forall i | 0 <= i < |a|
          ensures same(a[i], b[i])
        {
          if i > 0 {
            assert same(a[1..][i - 1], b[1..][i - 1]);
          }
        }
      }
    }
  }

  /** At most as many operations as the longer list has elements, and none exactly for lists equal in order. */
  lemma DiffSize<T>(a: seq<T>, b: seq<T>, same: (T, T) -> bool, doc: T -> Json, style: AddStyle)
    ensures |PlainDiff(a, b, same, doc, style)| <= Longer(a, b)
    ensures |PrefixDiff(a, b, same, doc, style)| <= Longer(a, b)
    ensures PlainDiff(a, b, same, doc, style) == [] <==> SameInOrder(a, b, same)
    ensures PrefixDiff(a, b, same, doc, style) == [] <==> SameInOrder(a, b, same)
  {
    TailDiffSize(a, b, 0, same, doc, style);
    if a != [] && b != [] {
      var n := CommonPrefix(a, b, same);
      TailDiffSize(a[n..], b[n..], n, same, doc, style);
      assert SameInOrder(a[n..], b[n..], same) ==> n == |a|;
      if SameInOrder(a, b, same) {
        assert n == |a|;
      }
    }
  }
}
