/** The webhook controller's memory of recent events: bounded, expiring, in order of insertion. */
module WebhookDedup {

  datatype EventId = EventId(text: string)

  datatype Item = Item(id: EventId, at: int)

  /** A JavaScript `Map` from identities to times, listed in insertion order. */
  type Store = seq<Item>

  const MAX_STORE_SIZE: nat := 10000
  const STORE_TTL_MS := 300000

  // ----- The store -----

  predicate Expired(x: Item, now: int) {
    now - x.at > STORE_TTL_MS
  }

  function Without(s: Store, id: EventId): Store {
    if s == [] then []
    else Without(s[..|s| - 1], id) + (if s[|s| - 1].id == id then [] else [s[|s| - 1]])
  }

  function Unexpired(s: Store, now: int): Store {
    if s == [] then []
    else Unexpired(s[..|s| - 1], now) + (if Expired(s[|s| - 1], now) then [] else [s[|s| - 1]])
  }

  function Trimmed(s: Store): Store {
    if |s| > MAX_STORE_SIZE then s[|s| - MAX_STORE_SIZE..] else s
  }

  predicate Fresh(s: Store, id: EventId, now: int) {
    exists p :: 0 <= p < |s| && s[p].id == id && !Expired(s[p], now)
  }

  /** The three clock readings of one delivery: at the lookup, at the eviction, at the insertion. */
  function Deliver(s: Store, id: EventId, n1: int, n2: int, n3: int): (Store, bool) {
    if Fresh(s, id, n1) then (s, false)
    else (Trimmed(Unexpired(Without(s, id), n2)) + [Item(id, n3)], true)
  }

  ghost predicate DistinctIds(s: Store) {
    forall p, q :: 0 <= p < q < |s| ==> s[p].id != s[q].id
  }

  class WebhookController {
    var store: Store

    constructor ()
      ensures store == []
    {
      store := [];
    }

    /** Drop expired entries, then the oldest ones beyond the limit. */
    method EvictStore(now: int)
      modifies this
      ensures store == Trimmed(Unexpired(old(store), now))
    {
      var i := 0;
      ghost var done := 0;
      while i < |store|
        invariant 0 <= i <= |store| && 0 <= done <= |old(store)|
        invariant store[..i] == Unexpired(old(store)[..done], now)
        invariant store[i..] == old(store)[done..]
        decreases |old(store)| - done
      {
        assert old(store)[..done + 1][..done] == old(store)[..done];
        assert store[i] == old(store)[done];
        if Expired(store[i], now) {
          store := store[..i] + store[i + 1..];
        } else {
          i := i + 1;
        }
        done := done + 1;
      }
      assert old(store)[..done] == old(store);
      ghost var kept := store;
      var excess := |store| - MAX_STORE_SIZE;
      while excess > 0
        invariant excess <= |store|
        invariant |kept| <= MAX_STORE_SIZE ==> store == kept && excess <= 0
        invariant |kept| > MAX_STORE_SIZE ==>
                    && 0 <= excess && |store| == MAX_STORE_SIZE + excess
                    && store == kept[|kept| - |store|..]
        decreases excess
      {
        store := store[1..];
        excess := excess - 1;
      }
    }

    method Lookup(id: EventId) returns (p: nat)
      ensures p <= |store|
      ensures p < |store| ==> store[p].id == id
      ensures p == |store| ==> forall q :: 0 <= q < |store| ==> store[q].id != id
    {
      p := 0;
      while p < |store| && store[p].id != id
        invariant p <= |store| && forall q :: 0 <= q < p ==> store[q].id != id
      {
        p := p + 1;
      }
    }

    /** From the start of `dispatchIfNew` to the call of the handler; `accepted` says whether it is called. */
    method Dispatch(id: EventId, n1: int, n2: int, n3: int) returns (accepted: bool)
      requires DistinctIds(store)
      modifies this
      ensures (store, accepted) == Deliver(old(store), id, n1, n2, n3)
    {
      var p := Lookup(id);
      if p < |store| {
        if Expired(store[p], n1) {
          WithoutOne(store, p);
          store := store[..p] + store[p + 1..];
        } else {
          return false;
        }
      } else {
        WithoutNone(store, id);
      }
      assert store == Without(old(store), id);
      EvictStore(n2);
      store := store + [Item(id, n3)];
      return true;
    }

    /** The handler threw: forget the event so that it can be delivered again. */
    method Forget(id: EventId)
      requires DistinctIds(store)
      modifies this
      ensures store == Without(old(store), id)
    {
      var p := Lookup(id);
      if p < |store| {
        WithoutOne(store, p);
        store := store[..p] + store[p + 1..];
      } else {
        WithoutNone(store, id);
      }
    }
  }

  lemma {:induction false} WithoutNone(s: Store, id: EventId)
    requires forall q :: 0 <= q < |s| ==> s[q].id != id
    ensures Without(s, id) == s
  {
    if s != [] {
      WithoutNone(s[..|s| - 1], id);
    }
  }

  lemma {:induction false} WithoutOne(s: Store, p: nat)
    requires DistinctIds(s) && p < |s|
    ensures Without(s, s[p].id) == s[..p] + s[p + 1..]
  {
    var front := s[..|s| - 1];
    if p == |s| - 1 {
      WithoutNone(front, s[p].id);
    } else {
      WithoutOne(front, p);
      assert front[..p] == s[..p] && front[p + 1..] + [s[|s| - 1]] == s[p + 1..];
    }
  }
}
