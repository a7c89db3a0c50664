/**
 Merging requested event subscriptions into those of an application session. The outer loop walks the list that
 the inner loop appends to.
 */
module PcfMerge {
  import opened PcfEvents
  import Sequences

  /** The requests that the inner loop appends when the outer loop is at entry e. */
  function Differing(requests: seq<Subscription>, e: Subscription): seq<Subscription> {
    if requests == [] then []
    else
      var init, last := requests[..|requests| - 1], requests[|requests| - 1];
      Differing(init, e) + (if last != e then [last] else [])
  }

  /** The list when the outer loop has passed n entries; it ends at a list that is not longer. */
  function Walked(list: seq<Subscription>, requests: seq<Subscription>, n: nat): (r: seq<Subscription>)
    ensures |r| >= |list|
  {
    if n == 0 then list
    else
      var before := Walked(list, requests, n - 1);
      if n - 1 < |before| then before + Differing(requests, before[n - 1]) else before
  }

  /** The walk comes to an end: at some point the outer loop has passed all the entries there are. */
  ghost predicate Terminates(list: seq<Subscription>, requests: seq<Subscription>) {
    exists n: nat :: |Walked(list, requests, n)| <= n
  }

  predicate AllSame(requests: seq<Subscription>) {
    forall i, j :: 0 <= i < j < |requests| ==> requests[i] == requests[j]
  }

  /** Entries that are not the requested subscription. */
  function Different(list: seq<Subscription>, r: Subscription): nat {
    if list == [] then 0
    else Different(list[..|list| - 1], r) + (if list[|list| - 1] != r then 1 else 0)
  }

  // ---------- One distinct request ----------

  predicate AllAre(requests: seq<Subscription>, r: Subscription) {
    forall i :: 0 <= i < |requests| ==> requests[i] == r
  }

  lemma {:induction false} DifferingSame(requests: seq<Subscription>, r: Subscription, e: Subscription)
    requires AllAre(requests, r)
    ensures Differing(requests, e) == if e != r then Sequences.Copies(r, |requests|) else []
  {
    if requests != [] {
      var init, last := requests[..|requests| - 1], requests[|requests| - 1];
      assert forall i :: 0 <= i < |init| ==> init[i] == requests[i];
      DifferingSame(init, r, e);
    }
  }

  /** How many copies are appended while the outer loop passes the first k entries; each differing one adds m. */
  function Appended(list: seq<Subscription>, r: Subscription, m: nat, k: nat): nat
    requires k <= |list|
  {
    if k == 0 then 0 else Appended(list, r, m, k - 1) + (if list[k - 1] != r then m else 0)
  }

  lemma {:induction false} AppendedIs(list: seq<Subscription>, r: Subscription, m: nat, k: nat)
    requires k <= |list|
    ensures Appended(list, r, m, k) == m * Different(list[..k], r)
  {
    if k > 0 {
      AppendedIs(list, r, m, k - 1);
      assert list[..k][..k - 1] == list[..k - 1];
      Distribute(m, Different(list[..k - 1], r));
    }
  }

  lemma {:induction false} AppendedGrows(list: seq<Subscription>, r: Subscription, m: nat, k: nat, n: nat)
    requires k <= n <= |list|
    ensures Appended(list, r, m, k) <= Appended(list, r, m, n)
  {
    if k < n {
      AppendedGrows(list, r, m, k, n - 1);
    }
  }

  function Passed(list: seq<Subscription>, n: nat): (k: nat)
    ensures k <= |list|
  {
    if n < |list| then n else |list|
  }

  lemma AppendedNext(list: seq<Subscription>, r: Subscription, m: nat, n: nat)
    ensures Appended(list, r, m, Passed(list, n + 1)) ==
            Appended(list, r, m, Passed(list, n)) + (if n < |list| && list[n] != r then m else 0)
  {
  }

  /** The next step of the walk, from a list whose appended part is known. */
  lemma WalkedNext(list: seq<Subscription>, requests: seq<Subscription>, r: Subscription, n: nat, m: nat)
    requires AllAre(requests, r) && Walked(list, requests, n) == list + Sequences.Copies(r, m)
    ensures Walked(list, requests, n + 1) == list + Sequences.Copies(r, m + (if n < |list| && list[n] != r then |requests| else 0))
  {
    if n < |list| + m {
      WalkStep(list, requests, r, m, n);
    }
  }

  /** Only the entries that were there before and differ add anything, each as many copies as were requested. */
  lemma {:induction false} WalkedSame(list: seq<Subscription>, requests: seq<Subscription>, r: Subscription, n: nat)
    requires AllAre(requests, r)
    ensures Walked(list, requests, n) == list + Sequences.Copies(r, Appended(list, r, |requests|, Passed(list, n)))
  {
    if n == 0 {
      NothingAdded(list);
    } else {
      WalkedSame(list, requests, r, n - 1);
      WalkedNext(list, requests, r, n - 1, Appended(list, r, |requests|, Passed(list, n - 1)));
      AppendedNext(list, r, |requests|, n - 1);
    }
  }

  /** One step of the outer loop, when m copies have been appended so far. */
  lemma WalkStep(list: seq<Subscription>, requests: seq<Subscription>, r: Subscription, m: nat, i: nat)
    requires AllAre(requests, r)
    requires i < |list| + m
    ensures var before := list + Sequences.Copies(r, m);
      before + Differing(requests, before[i]) == list + Sequences.Copies(r, m + (if i < |list| && list[i] != r then |requests| else 0))
  {
    var before := list + Sequences.Copies(r, m);
    if i < |list| && list[i] != r {
      assert before[i] == list[i];
      DifferingSame(requests, r, list[i]);
      CopiesAdd(list, r, m, |requests|);
    } else {
      EntryIs(list, r, m, i);
      DifferingSame(requests, r, r);
      NothingAdded(before);
    }
  }

  lemma EntryIs(list: seq<Subscription>, r: Subscription, m: nat, i: nat)
    requires i < |list| + m && (i < |list| ==> list[i] == r)
    ensures (list + Sequences.Copies(r, m))[i] == r
  {
  }

  lemma NothingAdded(s: seq<Subscription>)
    ensures s + [] == s
  {
  }

  lemma Distribute(m: nat, d: nat)
    ensures m * (d + 1) == m * d + m
  {
  }

  lemma {:induction false} CopiesAdd(list: seq<Subscription>, r: Subscription, m: nat, n: nat)
    ensures list + Sequences.Copies(r, m) + Sequences.Copies(r, n) == list + Sequences.Copies(r, m + n)
  {
    if n == 0 {
      NothingAdded(list + Sequences.Copies(r, m));
    } else {
      CopiesAdd(list, r, m, n - 1);
      Sequences.Regroup(list + Sequences.Copies(r, m), Sequences.Copies(r, n - 1), [r]);
      Sequences.Regroup(list, Sequences.Copies(r, m + n - 1), [r]);
    }
  }

  // ---------- Two distinct requests ----------

  lemma {:induction false} DifferingSome(requests: seq<Subscription>, e: Subscription, s: Subscription)
    requires s in requests && s != e
    ensures Differing(requests, e) != []
  {
    var init, last := requests[..|requests| - 1], requests[|requests| - 1];
    if last == e {
      assert requests == init + [last];
      DifferingSome(init, e, s);
    }
  }

  /** Every step adds an entry, so the list outgrows every number of steps. */
  lemma {:induction false} WalkedGrows(list: seq<Subscription>, requests: seq<Subscription>, n: nat)
    requires list != [] && !AllSame(requests)
    ensures |Walked(list, requests, n)| >= |list| + n
  {
    if n > 0 {
      WalkedGrows(list, requests, n - 1);
      var e := Walked(list, requests, n - 1)[n - 1];
      var i, j :| 0 <= i < j < |requests| && requests[i] != requests[j];
      DifferingSome(requests, e, if requests[i] != e then requests[i] else requests[j]);
    }
  }

  /** The merge comes to an end if and only if there is nothing to merge with, or no two requests differ. */
  lemma MergeTerminates(list: seq<Subscription>, requests: seq<Subscription>)
    ensures Terminates(list, requests) <==> list == [] || AllSame(requests)
  {
    if list == [] {
      assert |Walked(list, requests, 0)| <= 0;
    } else if AllSame(requests) {
      WalkEnds(list, requests);
    } else {
      forall n: nat
        ensures |Walked(list, requests, n)| > n
      {
        WalkedGrows(list, requests, n);
      }
    }
  }

  const LOST_QUOTA := Subscription(OutOfCredit, EventDetection)
  const USED_QUOTA := Subscription(UsageReport, EventDetection)

  /** One subscription, and a request that names it and another: the merge does not end. */
  lemma TwoRequestsDiverge()
    ensures !Terminates([LOST_QUOTA], [LOST_QUOTA, USED_QUOTA])
  {
    var requests := [LOST_QUOTA, USED_QUOTA];
    assert requests[0] != requests[1];
    MergeTerminates([LOST_QUOTA], requests);
  }

  lemma WalkEnds(list: seq<Subscription>, requests: seq<Subscription>)
    requires list != [] && AllSame(requests)
    ensures Terminates(list, requests)
  {
    var r := if requests == [] then list[0] else requests[0];
    var n := |list| + Appended(list, r, |requests|, |list|);
    WalkedBounded(list, requests, r, n);
    assert |Walked(list, requests, n)| <= n;
  }

  /** The list never gets longer than this. */
  lemma WalkedBounded(list: seq<Subscription>, requests: seq<Subscription>, r: Subscription, n: nat)
    requires AllAre(requests, r)
    ensures |Walked(list, requests, n)| <= |list| + Appended(list, r, |requests|, |list|)
  {
    WalkedSame(list, requests, r, n);
    AppendedGrows(list, r, |requests|, Passed(list, n), |list|);
  }

  /** The inner loop, with the outer one at entry e. */
  method AppendDiffering(list: seq<Subscription>, requests: seq<Subscription>, e: Subscription) returns (longer: seq<Subscription>)
    ensures longer == list + Differing(requests, e)
  {
    longer := list;
    for j := 0 to |requests|
      invariant longer == list + Differing(requests[..j], e)
    {
      assert requests[..j + 1][..j] == requests[..j];
      if e.event != requests[j].event || e.notifMethod != requests[j].notifMethod {
        longer := longer + [requests[j]];
      }
    }
    assert requests[..|requests|] == requests;
  }

  /** The merge, where it ends; it returns how many subscriptions it has added. */
  method Merge(list: seq<Subscription>, requests: seq<Subscription>) returns (merged: seq<Subscription>, added: nat)
    requires list == [] || AllSame(requests)
    ensures list != [] && requests != [] ==>
              added == |requests| * Different(list, requests[0]) && merged == list + Sequences.Copies(requests[0], added)
    ensures list == [] || requests == [] ==> merged == list && added == 0
  {
    if list == [] {
      return list, 0;
    }
    ghost var r := if requests == [] then list[0] else requests[0];
    merged, added := list, 0;
    var i := 0;
    while i < |merged|
      invariant merged == Walked(list, requests, i) && added == |merged| - |list|
      decreases |list| + Appended(list, r, |requests|, |list|) - i
    {
      WalkedBounded(list, requests, r, i);
      var longer := AppendDiffering(merged, requests, merged[i]);
      added := added + (|longer| - |merged|);
      merged := longer;
      i := i + 1;
    }
    WalkedSame(list, requests, r, i);
    AppendedIs(list, r, |requests|, |list|);
    assert list[..|list|] == list;
  }
}
