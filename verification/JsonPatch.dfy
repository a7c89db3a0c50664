/**
 Patch lists. A child diff is written relative to the value it describes, with the path "/" standing
 for that whole value; lifting it under a prefix turns it into a patch list of the enclosing value.
 */
module JsonPatch {
  import opened Options
  import opened JsonDocument

  datatype Patch =
    | Add(path: string, value: Json)
    | Remove(path: string)
    | Replace(path: string, value: Json)

  const WHOLE := "/"

  function ActionOf(p: Patch): Action {
    match p
    case Add(_, v) => AddValue(v)
    case Remove(_) => RemoveTarget
    case Replace(_, v) => ReplaceValue(v)
  }

  // ---------- What a server does with a patch list (RFC 6902, section 5) ----------

  function Apply(doc: Json, p: Patch): Option<Json> {
    var path :- ParsePointer(p.path);
    ActAt(doc, path, ActionOf(p))
  }

  function ApplyAll(doc: Json, ps: seq<Patch>): Option<Json>
    decreases |ps|
  {
    if ps == [] then Some(doc)
    else
      var doc' :- Apply(doc, ps[0]);
      ApplyAll(doc', ps[1..])
  }

  lemma {:induction false} ApplyAllAppend(doc: Json, x: seq<Patch>, y: seq<Patch>)
    ensures ApplyAll(doc, x + y) ==
            if ApplyAll(doc, x).None? then None else ApplyAll(ApplyAll(doc, x).value, y)
    decreases |x|
  {
    if x == [] {
      assert x + y == y;
    } else {
      assert (x + y)[1..] == x[1..] + y;
      var d := Apply(doc, x[0]);
      if d.Some? {
        ApplyAllAppend(d.value, x[1..], y);
      }
    }
  }

  // ---------- Lifting ----------

  function WithPrefix(p: Patch, prefix: string): Patch {
    p.(path := if p.path == WHOLE then prefix else prefix + p.path)
  }

  function Lift(ps: seq<Patch>, prefix: string): (r: seq<Patch>)
    ensures |r| == |ps|
  {
    if ps == [] then [] else [WithPrefix(ps[0], prefix)] + Lift(ps[1..], prefix)
  }

  lemma {:induction false} LiftAppend(x: seq<Patch>, y: seq<Patch>, prefix: string)
    ensures Lift(x + y, prefix) == Lift(x, prefix) + Lift(y, prefix)
  {
    if x == [] {
      assert x + y == y;
    } else {
      assert (x + y)[1..] == x[1..] + y;
      LiftAppend(x[1..], y, prefix);
    }
  }

  /** Appends the patches of a child diff, each under the prefix. */
  method AppendLifted(dst: seq<Patch>, src: seq<Patch>, prefix: string) returns (r: seq<Patch>)
    ensures r == dst + Lift(src, prefix)
  {
    r := dst;
    for i := 0 to |src|
      invariant r == dst + Lift(src[..i], prefix)
    {
      r := r + [WithPrefix(src[i], prefix)];
      assert src[..i + 1] == src[..i] + [src[i]];
      LiftAppend(src[..i], [src[i]], prefix);
      assert Lift([src[i]], prefix) == [WithPrefix(src[i], prefix)];
    }
    assert src[..|src|] == src;
  }

  /** Lifting twice is lifting once under the concatenated prefix. */
  lemma {:induction false} LiftTwice(ps: seq<Patch>, inner: string, outer: string)
    requires inner != WHOLE
    requires forall p :: p in ps ==> p.path != ""
    requires inner != ""
    ensures Lift(Lift(ps, inner), outer) == Lift(ps, outer + inner)
  {
    if ps != [] {
      var p := ps[0];
      if p.path != WHOLE {
        assert inner + p.path != WHOLE by {
          assert |inner + p.path| >= 2;
        }
        assert outer + (inner + p.path) == (outer + inner) + p.path;
      }
      assert WithPrefix(WithPrefix(p, inner), outer) == WithPrefix(p, outer + inner);
      LiftTwice(ps[1..], inner, outer);
    }
  }

  /** Every patch of a child diff carries a path that starts with a slash. */
  predicate Relative(ps: seq<Patch>) {
    forall p :: p in ps ==> p.path != "" && p.path[0] == '/'
  }

  lemma {:induction false} LiftRelative(ps: seq<Patch>, prefix: string)
    requires prefix != "" && prefix[0] == '/'
    ensures Relative(Lift(ps, prefix))
  {
    if ps != [] {
      LiftRelative(ps[1..], prefix);
    }
  }

  // ---------- A child diff as an edit of a value that may be absent ----------

  type Slot = Option<Json>

  function ApplyToSlot(slot: Slot, p: Patch): Option<Slot> {
    if p.path == WHOLE then
      (match p
       case Add(_, v) => Some(Some(v))
       case Remove(_) => if slot.Some? then Some(None) else None
       case Replace(_, v) => if slot.Some? then Some(Some(v)) else None)
    else
      var value :- slot;
      var value' :- Apply(value, p);
      Some(Some(value'))
  }

  function ApplyAllToSlot(slot: Slot, ps: seq<Patch>): Option<Slot>
    decreases |ps|
  {
    if ps == [] then Some(slot)
    else
      var slot' :- ApplyToSlot(slot, ps[0]);
      ApplyAllToSlot(slot', ps[1..])
  }

  /** While no patch speaks of the whole value, the slot is just the document it holds. */
  lemma {:induction false} SlotIsDocument(doc: Json, ps: seq<Patch>)
    requires forall p :: p in ps ==> p.path != WHOLE
    ensures ApplyAllToSlot(Some(doc), ps) ==
            if ApplyAll(doc, ps).None? then None else Some(Some(ApplyAll(doc, ps).value))
    decreases |ps|
  {
    if ps != [] {
      var d := Apply(doc, ps[0]);
      if d.Some? {
        SlotIsDocument(d.value, ps[1..]);
      }
    }
  }

  function Member(m: map<string, Json>, key: string): Slot {
    if key in m then Some(m[key]) else None
  }

  function PutMember(m: map<string, Json>, key: string, slot: Slot): map<string, Json> {
    if slot.Some? then m[key := slot.value] else m - {key}
  }

  lemma PutOver(m: map<string, Json>, key: string, x: Slot, y: Slot)
    ensures Member(PutMember(m, key, x), key) == x
    ensures PutMember(PutMember(m, key, x), key, y) == PutMember(m, key, y)
  {
  }

  /** One lifted patch edits the member named by the prefix, and only that member. */
  lemma LiftedPatchEditsMember(m: map<string, Json>, key: string, p: Patch)
    requires Plain(key) && p.path != "" && p.path[0] == '/'
    ensures Apply(Object(m), WithPrefix(p, "/" + key)) ==
            var slot := ApplyToSlot(Member(m, key), p);
            if slot.None? then None else Some(Object(PutMember(m, key, slot.value)))
  {
    if p.path == WHOLE {
      PointerToMember(key);
    } else {
      DeepPatchEditsMember(m, key, p);
    }
  }

  lemma DeepPatchEditsMember(m: map<string, Json>, key: string, p: Patch)
    requires Plain(key) && p.path != "" && p.path[0] == '/' && p.path != WHOLE
    ensures Apply(Object(m), WithPrefix(p, "/" + key)) ==
            if key !in m then None
            else
              var value := Apply(m[key], p);
              if value.None? then None else Some(Object(m[key := value.value]))
  {
    PointerToMember(key);
    PointerAppend("/" + key, p.path);
    var tail := ParsePointer(p.path).value;
    var path := [key] + tail;
    assert |tail| >= 1 && path[0] == key && path[1..] == tail;
    assert Apply(Object(m), WithPrefix(p, "/" + key)) == ActAt(Object(m), path, ActionOf(p));
  }

  /** The lifting lemma: a lifted child diff does to the member what the child diff does to the value. */
  lemma {:induction false} LiftedDiffEditsMember(m: map<string, Json>, key: string, ps: seq<Patch>)
    requires Plain(key) && Relative(ps)
    ensures ApplyAll(Object(m), Lift(ps, "/" + key)) ==
            var slot := ApplyAllToSlot(Member(m, key), ps);
            if slot.None? then None else Some(Object(PutMember(m, key, slot.value)))
    decreases |ps|
  {
    if ps == [] {
      assert PutMember(m, key, Member(m, key)) == m;
    } else {
      LiftedPatchEditsMember(m, key, ps[0]);
      var slot := ApplyToSlot(Member(m, key), ps[0]);
      if slot.Some? {
        LiftedDiffEditsMember(PutMember(m, key, slot.value), key, ps[1..]);
        var last := ApplyAllToSlot(slot.value, ps[1..]);
        PutOver(m, key, slot.value, if last.Some? then last.value else None);
      }
    }
  }
}
