/**
 Equality of lists in any order. The loop takes the elements of the first list one by one and removes
 the first element of a copy of the second list that compares equal.
 */
module ListEquality {
  import opened Options

  ghost predicate Equivalence<T(!new)>(eq: (T, T) -> bool) {
    && (forall x :: eq(x, x))
    && (forall x, y :: eq(x, y) ==> eq(y, x))
    && (forall x, y, z :: eq(x, y) && eq(y, z) ==> eq(x, z))
  }

  /** The elements of a and b can be paired off: p takes the positions of a to those of b. */
  predicate Pairing<T>(p: seq<nat>, a: seq<T>, b: seq<T>, eq: (T, T) -> bool) {
    && |p| == |a| == |b|
    && (forall i :: 0 <= i < |p| ==> p[i] < |b|)
    && (forall i, j :: 0 <= i < j < |p| ==> p[i] != p[j])
    && (forall i :: 0 <= i < |p| && p[i] < |b| ==> eq(a[i], b[p[i]]))
  }

  ghost predicate SameUpToOrder<T>(a: seq<T>, b: seq<T>, eq: (T, T) -> bool) {
    exists p :: Pairing(p, a, b, eq)
  }

  // ---------- The loop ----------

  function FirstMatch<T>(x: T, s: seq<T>, eq: (T, T) -> bool): (r: Option<nat>)
    ensures r.Some? ==> r.value < |s| && eq(x, s[r.value])
    ensures r.None? ==> forall i :: 0 <= i < |s| ==> !eq(x, s[i])
  {
    if s == [] then None
    else if eq(x, s[0]) then Some(0)
    else
      var i :- FirstMatch(x, s[1..], eq);
      Some(i + 1)
  }

  function Without<T>(s: seq<T>, i: nat): (r: seq<T>)
    requires i < |s|
    ensures |r| == |s| - 1
  {
    s[..i] + s[i + 1..]
  }

  function Greedy<T>(a: seq<T>, b: seq<T>, eq: (T, T) -> bool): bool {
    if a == [] then true
    else
      var j := FirstMatch(a[0], b, eq);
      j.Some? && Greedy(a[1..], Without(b, j.value), eq)
  }

  function GreedyEqual<T>(a: seq<T>, b: seq<T>, eq: (T, T) -> bool): bool {
    |a| == |b| && Greedy(a, b, eq)
  }

  /** The inner loop. */
  method FindMatch<T>(x: T, s: seq<T>, eq: (T, T) -> bool) returns (found: Option<nat>)
    ensures found == FirstMatch(x, s, eq)
  {
    var j := 0;
    while j < |s|
      invariant 0 <= j <= |s|
      invariant FirstMatch(x, s, eq) == Shifted(FirstMatch(x, s[j..], eq), j)
    {
      FirstMatchOnward(x, s, j, eq);
      if eq(x, s[j]) {
        return Some(j);
      }
      j := j + 1;
    }
    return None;
  }

  method CompareGreedily<T>(a: seq<T>, b: seq<T>, eq: (T, T) -> bool) returns (equal: bool)
    ensures equal == GreedyEqual(a, b, eq)
  {
    if |a| != |b| {
      return false;
    }
    var copy := b;
    for i := 0 to |a|
      invariant Greedy(a[i..], copy, eq) == Greedy(a, b, eq)
    {
      GreedyOnward(a, copy, i, eq);
      var j := FindMatch(a[i], copy, eq);
      if j.None? {
        return false;
      }
      copy := Without(copy, j.value);
    }
    return true;
  }

  lemma FirstMatchOnward<T>(x: T, s: seq<T>, j: nat, eq: (T, T) -> bool)
    requires j < |s|
    ensures FirstMatch(x, s[j..], eq) == if eq(x, s[j]) then Some(0) else Shifted(FirstMatch(x, s[j + 1..], eq), 1)
  {
    assert s[j..][1..] == s[j + 1..];
  }

  lemma GreedyOnward<T>(a: seq<T>, b: seq<T>, i: nat, eq: (T, T) -> bool)
    requires i < |a|
    ensures Greedy(a[i..], b, eq) ==
            var j := FirstMatch(a[i], b, eq);
            j.Some? && Greedy(a[i + 1..], Without(b, j.value), eq)
  {
    assert a[i..][1..] == a[i + 1..];
  }

  function Shifted(r: Option<nat>, n: nat): Option<nat> {
    if r.None? then None else Some(r.value + n)
  }

  // ---------- The loop decides equality up to order ----------

  /** Position k of the list without position j, as a position of the whole list. */
  function Around(k: nat, j: nat): nat {
    if k < j then k else k + 1
  }

  /** A position other than j, as a position of the list without position j. */
  function Closed(k: nat, j: nat): nat
    requires k != j
  {
    if k < j then k else k - 1
  }

  function AroundAll(q: seq<nat>, j: nat): (r: seq<nat>)
    ensures |r| == |q|
    ensures forall i :: 0 <= i < |q| ==> r[i] == Around(q[i], j)
  {
    if q == [] then [] else [Around(q[0], j)] + AroundAll(q[1..], j)
  }

  lemma {:induction false} GreedyFindsPairing<T>(a: seq<T>, b: seq<T>, eq: (T, T) -> bool) returns (p: seq<nat>)
    requires |a| == |b| && Greedy(a, b, eq)
    ensures Pairing(p, a, b, eq)
    decreases |a|
  {
    if a == [] {
      p := [];
    } else {
      var j := FirstMatch(a[0], b, eq).value;
      var q := GreedyFindsPairing(a[1..], Without(b, j), eq);
      p := [j] + AroundAll(q, j);
      PairingExtends(q, p, a, b, j, eq);
    }
  }

  lemma PairingExtends<T>(q: seq<nat>, p: seq<nat>, a: seq<T>, b: seq<T>, j: nat, eq: (T, T) -> bool)
    requires a != [] && |a| == |b| && j < |b| && eq(a[0], b[j]) && Pairing(q, a[1..], Without(b, j), eq)
    requires |p| == |q| + 1 && p[0] == j && forall i :: 0 <= i < |q| ==> p[i + 1] == Around(q[i], j)
    ensures Pairing(p, a, b, eq)
  {
    forall i | 1 <= i < |p|
      ensures p[i] < |b| && p[i] != j && eq(a[i], b[p[i]])
    {
      assert p[i] == Around(q[i - 1], j);
      assert eq(a[1..][i - 1], Without(b, j)[q[i - 1]]);
    }
    forall i, k | 1 <= i < k < |p|
      ensures p[i] != p[k]
    {
      assert p[i] == Around(q[i - 1], j) && p[k] == Around(q[k - 1], j);
    }
  }

  /** Frees position j of b: the element paired with j, if it is not the first, takes the first one's partner. */
  function Rerouted(p: seq<nat>, j: nat): (q: seq<nat>)
    requires p != []
    ensures |q| == |p| - 1
  {
    seq(|p| - 1, i requires 0 <= i < |p| - 1 => if p[i + 1] == j then p[0] else p[i + 1])
  }

  lemma {:induction false} PairingMakesGreedySucceed<T(!new)>(p: seq<nat>, a: seq<T>, b: seq<T>, eq: (T, T) -> bool)
    requires Equivalence(eq) && Pairing(p, a, b, eq)
    ensures Greedy(a, b, eq)
    decreases |a|
  {
    if a != [] {
      assert eq(a[0], b[p[0]]);
      var j := FirstMatch(a[0], b, eq).value;
      var q := Rerouted(p, j);
      forall i | 0 <= i < |q|
        ensures q[i] < |b| && q[i] != j && eq(a[i + 1], b[q[i]])
      {
        if p[i + 1] == j {
          assert eq(a[i + 1], b[j]) && eq(b[j], a[0]);
        }
      }
      var r := seq(|q|, i requires 0 <= i < |q| => Closed(q[i], j));
      ReroutedPairs(q, r, a, b, j, eq);
      PairingMakesGreedySucceed(r, a[1..], Without(b, j), eq);
    }
  }

  lemma ReroutedPairs<T>(q: seq<nat>, r: seq<nat>, a: seq<T>, b: seq<T>, j: nat, eq: (T, T) -> bool)
    requires |a| == |b| == |q| + 1 && j < |b| && |r| == |q|
    requires forall i :: 0 <= i < |q| ==> q[i] < |b| && q[i] != j && eq(a[i + 1], b[q[i]])
    requires forall i, k :: 0 <= i < k < |q| ==> q[i] != q[k]
    requires forall i :: 0 <= i < |q| ==> r[i] == Closed(q[i], j)
    ensures Pairing(r, a[1..], Without(b, j), eq)
  {
    forall i | 0 <= i < |r|
      ensures r[i] < |Without(b, j)| && eq(a[1..][i], Without(b, j)[r[i]])
    {
      assert Without(b, j)[Closed(q[i], j)] == b[q[i]];
    }
  }

  /** For an equivalence, the loop answers true if and only if some pairing exists. */
  lemma GreedyDecides<T(!new)>(a: seq<T>, b: seq<T>, eq: (T, T) -> bool)
    requires Equivalence(eq)
    ensures GreedyEqual(a, b, eq) <==> SameUpToOrder(a, b, eq)
  {
    if GreedyEqual(a, b, eq) {
      var p := GreedyFindsPairing(a, b, eq);
    }
    if SameUpToOrder(a, b, eq) {
      var p :| Pairing(p, a, b, eq);
      PairingMakesGreedySucceed(p, a, b, eq);
    }
  }

  // ---------- Hence it is an equivalence of lists ----------

  lemma Reflexive<T(!new)>(a: seq<T>, eq: (T, T) -> bool)
    requires Equivalence(eq)
    ensures GreedyEqual(a, a, eq)
  {
    assert Pairing(seq(|a|, i requires 0 <= i < |a| => i), a, a, eq);
    GreedyDecides(a, a, eq);
  }

  lemma Transitive<T(!new)>(a: seq<T>, b: seq<T>, c: seq<T>, eq: (T, T) -> bool)
    requires Equivalence(eq) && GreedyEqual(a, b, eq) && GreedyEqual(b, c, eq)
    ensures GreedyEqual(a, c, eq)
  {
    var p := GreedyFindsPairing(a, b, eq);
    var q := GreedyFindsPairing(b, c, eq);
    var r := seq(|a|, i requires 0 <= i < |a| => q[p[i]]);
    forall i | 0 <= i < |r| ensures eq(a[i], c[r[i]]) {
      assert eq(a[i], b[p[i]]) && eq(b[p[i]], c[q[p[i]]]);
    }
    assert Pairing(r, a, c, eq);
    GreedyDecides(a, c, eq);
  }

  lemma Symmetric<T(!new)>(a: seq<T>, b: seq<T>, eq: (T, T) -> bool)
    requires Equivalence(eq) && GreedyEqual(a, b, eq)
    ensures GreedyEqual(b, a, eq)
  {
    var p := GreedyFindsPairing(a, b, eq);
    forall k: nat | k < |b|
      ensures k in p
    {
      EveryPositionTaken(p, k);
    }
    var q := seq(|b|, k requires 0 <= k < |b| => PositionOf(p, k));
    forall i, j | 0 <= i < j < |q|
      ensures q[i] != q[j]
    {
      assert p[q[i]] == i && p[q[j]] == j;
    }
    forall k | 0 <= k < |q| ensures eq(b[k], a[q[k]]) {
      assert eq(a[q[k]], b[p[q[k]]]);
    }
    assert Pairing(q, b, a, eq);
    GreedyDecides(b, a, eq);
  }

  ghost function PositionOf(p: seq<nat>, k: nat): (i: nat)
    requires k in p
    ensures i < |p| && p[i] == k
  {
    var i :| 0 <= i < |p| && p[i] == k;
    i
  }

  /** Different positions below |p|, as many as |p|, leave none out. */
  lemma EveryPositionTaken(p: seq<nat>, k: nat)
    requires forall i :: 0 <= i < |p| ==> p[i] < |p|
    requires forall i, j :: 0 <= i < j < |p| ==> p[i] != p[j]
    requires k < |p|
    ensures k in p
  {
    if k !in p {
      var free := Below(|p|) - {k};
      assert Elements(p) <= free;
      SubsetCount(Elements(p), free);
      assert false;
    }
  }

  function Elements(p: seq<nat>): (s: set<nat>)
    ensures forall k :: k in s <==> k in p
    ensures (forall i, j :: 0 <= i < j < |p| ==> p[i] != p[j]) ==> |s| == |p|
  {
    if p == [] then {} else {p[0]} + Elements(p[1..])
  }

  function Below(n: nat): (s: set<nat>)
    ensures forall k: nat :: k in s <==> k < n
    ensures |s| == n
  {
    if n == 0 then {} else Below(n - 1) + {n - 1}
  }

  lemma {:induction false} SubsetCount<T>(x: set<T>, y: set<T>)
    requires x <= y
    ensures |x| <= |y|
    decreases |x|
  {
    if x != {} {
      var e :| e in x;
      SubsetCount(x - {e}, y - {e});
    }
  }

  /** Lists that agree position by position are equal in any order. */
  lemma InOrderIsEqual<T(!new)>(a: seq<T>, b: seq<T>, eq: (T, T) -> bool)
    requires Equivalence(eq) && |a| == |b| && forall i :: 0 <= i < |a| ==> eq(a[i], b[i])
    ensures GreedyEqual(a, b, eq)
  {
    assert Pairing(seq(|a|, i requires 0 <= i < |a| => i), a, b, eq);
    GreedyDecides(a, b, eq);
  }
}
