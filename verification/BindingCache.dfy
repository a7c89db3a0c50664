/** The cache of PCF bindings: entries expire, and a look-up that finds an expired one evicts it. */
module BindingCache {
  import opened Options

  type Address = nat
  type Binding = nat
  type Time = int

  datatype CacheEntry = CacheEntry(binding: Binding, expires: Time)

  type Store = map<Address, CacheEntry>

  function AfterFind(s: Store, a: Address, now: Time): Store {
    if a in s && s[a].expires < now then s - {a} else s
  }

  function Found(s: Store, a: Address, now: Time): Option<Binding> {
    if a in s && s[a].expires >= now then Some(s[a].binding) else None
  }

  function AfterAdd(s: Store, a: Address, b: Binding, expires: Time): Store {
    s[a := CacheEntry(b, expires)]
  }

  class Cache {
    var entries: Store

    constructor ()
      ensures entries == map[]
    {
      entries := map[];
    }

    method Find(a: Address, now: Time) returns (found: Option<Binding>)
      modifies this
      ensures found == Found(old(entries), a, now) && entries == AfterFind(old(entries), a, now)
    {
      if a !in entries {
        return None;
      }
      if entries[a].expires < now {
        entries := entries - {a};
        return None;
      }
      return Some(entries[a].binding);
    }

    method Add(a: Address, b: Binding, expires: Time)
      modifies this
      ensures entries == AfterAdd(old(entries), a, b, expires)
    {
      if a in entries {
        entries := entries[a := entries[a].(binding := b, expires := expires)];
      } else {
        entries := entries[a := CacheEntry(b, expires)];
      }
    }
  }

  // ---------- A plain log of additions ----------

  datatype Event = Added(address: Address, binding: Binding, expires: Time) | LookedUp(address: Address, now: Time)

  /** The latest addition for an address. */
  function Latest(log: seq<Event>, a: Address): Option<CacheEntry> {
    if log == [] then None
    else
      var e := log[|log| - 1];
      if e.Added? && e.address == a then Some(CacheEntry(e.binding, e.expires)) else Latest(log[..|log| - 1], a)
  }

  function Valid(log: seq<Event>, a: Address, now: Time): Option<Binding> {
    var e := Latest(log, a);
    if e.Some? && e.value.expires >= now then Some(e.value.binding) else None
  }

  function Run(log: seq<Event>): Store {
    if log == [] then map[]
    else
      var s := Run(log[..|log| - 1]);
      match log[|log| - 1]
      case Added(a, b, expires) => AfterAdd(s, a, b, expires)
      case LookedUp(a, now) => AfterFind(s, a, now)
  }

  /** No look-up of the log is later than the time given. */
  predicate NotAfter(log: seq<Event>, now: Time) {
    forall i :: 0 <= i < |log| && log[i].LookedUp? ==> log[i].now <= now
  }

  /** The store agrees with the log, but for entries that had expired at some look-up. */
  lemma {:induction false} StoreAgrees(log: seq<Event>, now: Time, a: Address)
    requires NotAfter(log, now)
    ensures var s, e := Run(log), Latest(log, a);
      if a in s then e == Some(s[a]) else e.None? || e.value.expires < now
  {
    if log != [] {
      var init := log[..|log| - 1];
      assert forall i :: 0 <= i < |init| ==> init[i] == log[i];
      StoreAgrees(init, now, a);
    }
  }

  /**
   Under a clock that does not go back, a look-up returns the binding of the latest addition for the address exactly
   when that has not expired; what was evicted before makes no difference.
   */
  lemma {:induction false} FindRefinesLog(log: seq<Event>, a: Address, now: Time)
    requires NotAfter(log, now)
    ensures Found(Run(log), a, now) == Valid(log, a, now)
  {
    StoreAgrees(log, now, a);
  }

  /** With a clock that goes back an eviction shows: the entry would be valid again. */
  lemma ClockBackShows(a: Address, b: Binding, t: Time)
    ensures var log := [Added(a, b, t), LookedUp(a, t + 1)];
      Found(Run(log), a, t) == None && Valid(log, a, t) == Some(b)
  {
    var log := [Added(a, b, t), LookedUp(a, t + 1)];
    assert log[..1] == [Added(a, b, t)] && log[..1][..0] == [];
    assert Run(log[..1]) == map[a := CacheEntry(b, t)];
    assert Latest(log[..1], a) == Some(CacheEntry(b, t));
  }
}
