/** A two-level cache: a fast first layer in memory, an optional shared second layer. */
module MultiCache {
  import opened Common

  type Key = string

  /** What is cached; `size` is the length of its serialized form. */
  datatype Value = Value(content: int, size: nat)

  /** An entry of one layer; without an expiry time it stays until it is deleted or evicted. */
  datatype Stored = Stored(value: Value, expiresAt: Option<int>)

  type Layer = map<Key, Stored>

  datatype Config = Config(hasL2: bool, defaultTtl: nat)

  /** Times to live in seconds; absent ones are derived. */
  datatype SetOptions = SetOptions(ttl: Option<nat>, l2Ttl: Option<nat>)

  datatype Cache = Cache(l1: Layer, l2: Layer)

  const SIZE_THRESHOLD := 1024 * 1024
  const SECOND := 1000

  predicate Small(v: Value) {
    v.size < SIZE_THRESHOLD
  }

  // ----- One layer -----

  predicate Live(layer: Layer, k: Key, now: int) {
    k in layer && (layer[k].expiresAt.None? || now <= layer[k].expiresAt.value)
  }

  function Lookup(layer: Layer, k: Key, now: int): Option<Value> {
    if Live(layer, k, now) then Some(layer[k].value) else None
  }

  function Expiry(ttl: nat, now: int): Option<int> {
    if ttl == 0 then None else Some(now + ttl * SECOND)
  }

  function Store(layer: Layer, k: Key, v: Value, ttl: nat, now: int): Layer {
    layer[k := Stored(v, Expiry(ttl, now))]
  }

  function RemovePrefix(layer: Layer, prefix: Key): Layer {
    map k | k in layer && !(prefix <= k) :: layer[k]
  }

  // ----- Both layers -----

  function Get(cfg: Config, c: Cache, k: Key, now: int): (Cache, Option<Value>) {
    var v1 := Lookup(c.l1, k, now);
    if v1.Some? then (c, v1)
    else if !cfg.hasL2 then (c, None)
    else
      var v2 := Lookup(c.l2, k, now);
      if v2.None? then (c, None)
      else if Small(v2.value) then (c.(l1 := Store(c.l1, k, v2.value, cfg.defaultTtl, now)), v2)
      else (c, v2)
  }

  function L1Ttl(cfg: Config, opts: SetOptions): nat {
    if opts.ttl.Some? then opts.ttl.value else cfg.defaultTtl
  }

  function L2Ttl(cfg: Config, opts: SetOptions): nat {
    if opts.l2Ttl.Some? then opts.l2Ttl.value else L1Ttl(cfg, opts) * 2
  }

  function Set(cfg: Config, c: Cache, k: Key, v: Value, opts: SetOptions, now: int): Cache {
    Cache(if Small(v) then Store(c.l1, k, v, L1Ttl(cfg, opts), now) else c.l1,
          if cfg.hasL2 then Store(c.l2, k, v, L2Ttl(cfg, opts), now) else c.l2)
  }

  function Del(cfg: Config, c: Cache, k: Key): Cache {
    Cache(c.l1 - {k}, if cfg.hasL2 then c.l2 - {k} else c.l2)
  }

  function DelByPrefix(cfg: Config, c: Cache, prefix: Key): Cache {
    Cache(RemovePrefix(c.l1, prefix), if cfg.hasL2 then RemovePrefix(c.l2, prefix) else c.l2)
  }

  /** `produced` is what the factory answers if it is asked; it answers at time `later`. */
  function GetOrSet(cfg: Config, c: Cache, k: Key, produced: Value, opts: SetOptions, now: int, later: int): (Cache,
                    Value) {
    var (c', cached) := Get(cfg, c, k, now);
    if cached.Some? then (c', cached.value) else (Set(cfg, c', k, produced, opts, later), produced)
  }

  /** The service: the operations above, carried out layer by layer. */
  class MultiCacheService {
    const cfg: Config
    var l1: Layer
    var l2: Layer

    function Now(): Cache
      reads this
    {
      Cache(l1, l2)
    }

    constructor (cfg: Config)
      ensures this.cfg == cfg && Now() == Cache(map[], map[])
    {
      this.cfg := cfg;
      l1, l2 := map[], map[];
    }

    method GetValue(k: Key, now: int) returns (v: Option<Value>)
      modifies this
      ensures (Now(), v) == Get(cfg, old(Now()), k, now)
    {
      v := Lookup(l1, k, now);
      if v.Some? { return; }
      if cfg.hasL2 {
        v := Lookup(l2, k, now);
        if v.Some? && Small(v.value) {
          l1 := Store(l1, k, v.value, cfg.defaultTtl, now);
        }
      }
    }

    method SetValue(k: Key, v: Value, opts: SetOptions, now: int)
      modifies this
      ensures Now() == Set(cfg, old(Now()), k, v, opts, now)
    {
      var l1Ttl := if opts.ttl.Some? then opts.ttl.value else cfg.defaultTtl;
      var l2Ttl := if opts.l2Ttl.Some? then opts.l2Ttl.value else l1Ttl * 2;
      if Small(v) {
        l1 := Store(l1, k, v, l1Ttl, now);
      }
      if cfg.hasL2 {
        l2 := Store(l2, k, v, l2Ttl, now);
      }
    }

    method Delete(k: Key)
      modifies this
      ensures Now() == Del(cfg, old(Now()), k)
    {
      l1 := l1 - {k};
      if cfg.hasL2 {
        l2 := l2 - {k};
      }
    }

    method DeleteByPrefix(prefix: Key)
      modifies this
      ensures Now() == DelByPrefix(cfg, old(Now()), prefix)
    {
      l1 := RemovePrefix(l1, prefix);
      if cfg.hasL2 {
        l2 := RemovePrefix(l2, prefix);
      }
    }

    method GetOrProduce(k: Key, factory: () -> Value, opts: SetOptions, now: int, later: int) returns (v: Value)
      modifies this
      ensures (Now(), v) == GetOrSet(cfg, old(Now()), k, factory(), opts, now, later)
    {
      var cached := GetValue(k, now);
      if cached.Some? { return cached.value; }
      v := factory();
      SetValue(k, v, opts, later);
    }
  }

  // ----- Reading back what was written -----

  /**
   * A direct `set` is read back exactly when the value is small, or no other live value shields it in the first
   * layer.
   */
  lemma GetAfterSet(cfg: Config, c: Cache, k: Key, v: Value, opts: SetOptions, now: int)
    ensures Get(cfg, Set(cfg, c, k, v, opts, now), k, now).1 == Some(v) <==>
            Small(v) || (if Live(c.l1, k, now) then c.l1[k].value == v else cfg.hasL2)
  {
  }

  /**
   * Through `getOrSet` the shielded case does not arise: what it returns is read back, unless it is large and there
   * is no second layer.
   */
  lemma GetAfterGetOrSet(cfg: Config, c: Cache, k: Key, v: Value, opts: SetOptions, now: int, later: int)
    requires now <= later
    ensures var (c', r) := GetOrSet(cfg, c, k, v, opts, now, later);
            Get(cfg, c, k, now).1.None? ==>
              && !Live(c.l1, k, later)
              && (Get(cfg, c', k, later).1 == Some(r) <==> Small(r) || cfg.hasL2)
  {
  }

  // ----- How long, and for which keys -----

  /** Within so many seconds of `start`; for ever, if the number is zero. */
  predicate WithinSeconds(ttl: nat, start: int, t: int) {
    ttl == 0 || t <= start + ttl * 1000
  }

  /**
   * When what was set can be read, in terms of the options: a small value for `ttl` seconds, or the default, from the
   * first layer, and for `l2Ttl` seconds, or twice as long as in the first, from the second; a large one from the
   * second only, and while no older value lives in the first.
   */
  lemma ReadBackLater(cfg: Config, c: Cache, k: Key, v: Value, opts: SetOptions, now: int, t: int)
    ensures var ttl := match opts.ttl case Some(given) => given case None => cfg.defaultTtl;
            var ttl2 := match opts.l2Ttl case Some(given) => given case None => 2 * ttl;
            var second := if cfg.hasL2 && WithinSeconds(ttl2, now, t) then Some(v) else None;
            Get(cfg, Set(cfg, c, k, v, opts, now), k, t).1 ==
            if v.size < 1048576 then (if WithinSeconds(ttl, now, t) then Some(v) else second)
            else (if Live(c.l1, k, t) then Some(c.l1[k].value) else second)
  {
  }

  /** What a read finds in the second layer and writes back, small as it is, stays readable for the default lifetime. */
  lemma WrittenBackLives(cfg: Config, c: Cache, k: Key, now: int, t: int)
    requires cfg.hasL2 && !Live(c.l1, k, now) && Live(c.l2, k, now)
    ensures Get(cfg, c, k, now).1 == Some(c.l2[k].value)
    ensures c.l2[k].value.size < 1048576 && WithinSeconds(cfg.defaultTtl, now, t) ==>
              Get(cfg, Get(cfg, c, k, now).0, k, t).1 == Some(c.l2[k].value)
  {
  }

  /** Both layers hold the same under this key. */
  predicate SameAt(c: Cache, d: Cache, k: Key) {
    && (k in c.l1 <==> k in d.l1) && (k in c.l1 ==> c.l1[k] == d.l1[k])
    && (k in c.l2 <==> k in d.l2) && (k in c.l2 ==> c.l2[k] == d.l2[k])
  }

  /** No operation on one key touches another. */
  lemma OtherKeysStay(cfg: Config, c: Cache, k: Key, other: Key, v: Value, opts: SetOptions, now: int, later: int)
    requires other != k
    ensures SameAt(Get(cfg, c, k, now).0, c, other)
    ensures SameAt(Set(cfg, c, k, v, opts, now), c, other)
    ensures SameAt(GetOrSet(cfg, c, k, v, opts, now, later).0, c, other)
    ensures SameAt(Del(cfg, c, k), c, other)
  {
  }

  /** Deleting by prefix touches the keys that start with it and no others; what was deleted is not found. */
  lemma DeletedAreGone(cfg: Config, c: Cache, prefix: Key, k: Key, now: int)
    ensures Get(cfg, Del(cfg, c, k), k, now).1 == None
    ensures prefix <= k ==> Get(cfg, DelByPrefix(cfg, c, prefix), k, now).1 == None
    ensures !(prefix <= k) ==> SameAt(DelByPrefix(cfg, c, prefix), c, k)
  {
  }

  // ----- Histories -----

  datatype Op =
    | OGet(k: Key, now: int)
    | OSet(k: Key, v: Value, opts: SetOptions, now: int)
    | OGetOrSet(k: Key, v: Value, opts: SetOptions, now: int, later: int)
    | ODel(k: Key)
    | ODelByPrefix(prefix: Key)
    | OEvict(from1: set<Key>, from2: set<Key>)   // either layer may drop entries at any time

  datatype Note =
    | Written(k: Key, v: Value, at: int, l1Ttl: nat, l2Ttl: nat)
    | Deleted(k: Key)
    | DeletedPrefix(prefix: Key)

  type History = seq<Note>

  datatype System = System(c: Cache, h: History)

  function Step(cfg: Config, s: System, op: Op): System {
    match op
    case OGet(k, now) => System(Get(cfg, s.c, k, now).0, s.h)
    case OSet(k, v, opts, now) =>
      System(Set(cfg, s.c, k, v, opts, now), s.h + [Written(k, v, now, L1Ttl(cfg, opts), L2Ttl(cfg, opts))])
    case OGetOrSet(k, v, opts, now, later) =>
      System(GetOrSet(cfg, s.c, k, v, opts, now, later).0,
             if Get(cfg, s.c, k, now).1.Some? then s.h
             else s.h + [Written(k, v, later, L1Ttl(cfg, opts), L2Ttl(cfg, opts))])
    case ODel(k) => System(Del(cfg, s.c, k), s.h + [Deleted(k)])
    case ODelByPrefix(prefix) => System(DelByPrefix(cfg, s.c, prefix), s.h + [DeletedPrefix(prefix)])
    case OEvict(from1, from2) => System(Cache(s.c.l1 - from1, s.c.l2 - from2), s.h)
  }

  function Run(cfg: Config, s: System, ops: seq<Op>): System
    decreases |ops|
  {
    if ops == [] then s else Run(cfg, Step(cfg, s, ops[0]), ops[1..])
  }

  const START := System(Cache(map[], map[]), [])

  predicate Removes(n: Note, k: Key) {
    match n
    case Written(_, _, _, _, _) => false
    case Deleted(k') => k == k'
    case DeletedPrefix(prefix) => prefix <= k
  }

  /** How long after it was written a value can still be seen; nothing if one of the layers keeps it for ever. */
  function Lifetime(cfg: Config, n: Note): Option<int>
    requires n.Written?
  {
    if n.l1Ttl == 0 then None
    else if !cfg.hasL2 then Some(n.l1Ttl * SECOND)
    else if n.l2Ttl == 0 || cfg.defaultTtl == 0 then None
    else if n.l1Ttl >= n.l2Ttl + cfg.defaultTtl then Some(n.l1Ttl * SECOND)
    else Some((n.l2Ttl + cfg.defaultTtl) * SECOND)
  }

  /** Note `i` wrote `v` under `k`, and nothing since has removed `k`. */
  ghost predicate Source(h: History, i: nat, k: Key, v: Value)
    requires i < |h|
  {
    && h[i].Written? && h[i].k == k && h[i].v == v
    && forall j :: i < j < |h| ==> !Removes(h[j], k)
  }

  ghost predicate Within(bound: Option<int>, start: int, expiresAt: Option<int>) {
    bound.Some? ==> expiresAt.Some? && expiresAt.value <= start + bound.value
  }

  ghost predicate L1Source(cfg: Config, h: History, i: nat, k: Key, e: Stored)
    requires i < |h|
  {
    Source(h, i, k, e.value) && Within(Lifetime(cfg, h[i]), h[i].at, e.expiresAt)
  }

  ghost predicate L2Source(h: History, i: nat, k: Key, e: Stored)
    requires i < |h|
  {
    Source(h, i, k, e.value) && e.expiresAt == Expiry(h[i].l2Ttl, h[i].at)
  }

  ghost predicate L1Traced(cfg: Config, h: History, k: Key, e: Stored) {
    exists i :: 0 <= i < |h| && L1Source(cfg, h, i, k, e)
  }

  ghost predicate L2Traced(h: History, k: Key, e: Stored) {
    exists i :: 0 <= i < |h| && L2Source(h, i, k, e)
  }

  ghost predicate Inv(cfg: Config, s: System) {
    && (forall k :: k in s.c.l1 ==> L1Traced(cfg, s.h, k, s.c.l1[k]))
    && (cfg.hasL2 ==> forall k :: k in s.c.l2 ==> L2Traced(s.h, k, s.c.l2[k]))
  }

  lemma StillTraced(cfg: Config, h: History, n: Note, k: Key, e: Stored)
    requires !Removes(n, k)
    ensures L1Traced(cfg, h, k, e) ==> L1Traced(cfg, h + [n], k, e)
    ensures L2Traced(h, k, e) ==> L2Traced(h + [n], k, e)
  {
    if L1Traced(cfg, h, k, e) {
      var i :| 0 <= i < |h| && L1Source(cfg, h, i, k, e);
      assert L1Source(cfg, h + [n], i, k, e);
    }
    if L2Traced(h, k, e) {
      var i :| 0 <= i < |h| && L2Source(h, i, k, e);
      assert L2Source(h + [n], i, k, e);
    }
  }

  lemma FreshlyTraced(cfg: Config, h: History, n: Note)
    requires n.Written?
    ensures L1Traced(cfg, h + [n], n.k, Stored(n.v, Expiry(n.l1Ttl, n.at)))
    ensures L2Traced(h + [n], n.k, Stored(n.v, Expiry(n.l2Ttl, n.at)))
  {
    assert L1Source(cfg, h + [n], |h|, n.k, Stored(n.v, Expiry(n.l1Ttl, n.at)));
    assert L2Source(h + [n], |h|, n.k, Stored(n.v, Expiry(n.l2Ttl, n.at)));
  }

  /** A write-back gives a second-layer entry a new first-layer life that stays within the lifetime of the write. */
  lemma WriteBackTraced(cfg: Config, h: History, k: Key, e: Stored, now: int)
    requires cfg.hasL2 && L2Traced(h, k, e) && (e.expiresAt.None? || now <= e.expiresAt.value)
    ensures L1Traced(cfg, h, k, Stored(e.value, Expiry(cfg.defaultTtl, now)))
  {
    var i :| 0 <= i < |h| && L2Source(h, i, k, e);
    assert L1Source(cfg, h, i, k, Stored(e.value, Expiry(cfg.defaultTtl, now)));
  }

  lemma GetKeepsInv(cfg: Config, s: System, k: Key, now: int)
    requires Inv(cfg, s)
    ensures Inv(cfg, System(Get(cfg, s.c, k, now).0, s.h))
  {
    if cfg.hasL2 && Live(s.c.l2, k, now) {
      WriteBackTraced(cfg, s.h, k, s.c.l2[k], now);
    }
  }

  lemma SetKeepsInv(cfg: Config, s: System, k: Key, v: Value, opts: SetOptions, now: int)
    requires Inv(cfg, s)
    ensures Inv(cfg, Step(cfg, s, OSet(k, v, opts, now)))
  {
    var n := Written(k, v, now, L1Ttl(cfg, opts), L2Ttl(cfg, opts));
    FreshlyTraced(cfg, s.h, n);
    forall k', e
      ensures L1Traced(cfg, s.h, k', e) ==> L1Traced(cfg, s.h + [n], k', e)
      ensures L2Traced(s.h, k', e) ==> L2Traced(s.h + [n], k', e)
    {
      StillTraced(cfg, s.h, n, k', e);
    }
    hide L1Traced, L2Traced;
  }

  lemma RemoveKeepsInv(cfg: Config, s: System, op: Op)
    requires Inv(cfg, s) && (op.ODel? || op.ODelByPrefix?)
    ensures Inv(cfg, Step(cfg, s, op))
  {
    var n := if op.ODel? then Deleted(op.k) else DeletedPrefix(op.prefix);
    forall k, e | !Removes(n, k)
      ensures L1Traced(cfg, s.h, k, e) ==> L1Traced(cfg, s.h + [n], k, e)
      ensures L2Traced(s.h, k, e) ==> L2Traced(s.h + [n], k, e)
    {
      StillTraced(cfg, s.h, n, k, e);
    }
  }

  lemma StepKeepsInv(cfg: Config, s: System, op: Op)
    requires Inv(cfg, s)
    ensures Inv(cfg, Step(cfg, s, op))
  {
    match op
    case OGet(k, now) => GetKeepsInv(cfg, s, k, now);
    case OSet(k, v, opts, now) => SetKeepsInv(cfg, s, k, v, opts, now);
    case OGetOrSet(k, v, opts, now, later) =>
      GetKeepsInv(cfg, s, k, now);
      SetKeepsInv(cfg, System(Get(cfg, s.c, k, now).0, s.h), k, v, opts, later);
    case ODel(_) => RemoveKeepsInv(cfg, s, op);
    case ODelByPrefix(_) => RemoveKeepsInv(cfg, s, op);
    case OEvict(_, _) =>
  }

  lemma {:induction false} RunKeepsInv(cfg: Config, s: System, ops: seq<Op>)
    requires Inv(cfg, s)
    ensures Inv(cfg, Run(cfg, s, ops))
    decreases |ops|
  {
    if ops != [] {
      StepKeepsInv(cfg, s, ops[0]);
      RunKeepsInv(cfg, Step(cfg, s, ops[0]), ops[1..]);
    }
  }

  /**
   * Staleness bound: after any run, a value that is read was written under that key, has not been removed since,
   * and was written no longer ago than `max(l1Ttl, l2Ttl + defaultTtl)` (`l1Ttl` without a second layer).
   */
  lemma StalenessBound(cfg: Config, ops: seq<Op>, k: Key, now: int)
    ensures var s := Run(cfg, START, ops);
            var r := Get(cfg, s.c, k, now).1;
            r.Some? ==> exists i :: 0 <= i < |s.h| && Source(s.h, i, k, r.value) &&
                                    (Lifetime(cfg, s.h[i]).Some? ==> now <= s.h[i].at + Lifetime(cfg, s.h[i]).value)
  {
    var s := Run(cfg, START, ops);
    RunKeepsInv(cfg, START, ops);
    if Live(s.c.l1, k, now) {
      var i :| 0 <= i < |s.h| && L1Source(cfg, s.h, i, k, s.c.l1[k]);
    } else if cfg.hasL2 && Live(s.c.l2, k, now) {
      var i :| 0 <= i < |s.h| && L2Source(s.h, i, k, s.c.l2[k]);
    }
  }

  /**
   * The bound is met: a small value dropped by the first layer and read once more just before the second layer lets
   * go.
   */
  lemma BoundIsTight(cfg: Config, k: Key, v: Value, opts: SetOptions)
    requires cfg.hasL2 && cfg.defaultTtl > 0 && Small(v) && 0 < L1Ttl(cfg, opts) <= L2Ttl(cfg, opts) + cfg.defaultTtl
    requires L2Ttl(cfg, opts) > 0
    ensures exists ops: seq<Op> ::
              var s := Run(cfg, START, ops);
              var n := Written(k, v, 0, L1Ttl(cfg, opts), L2Ttl(cfg, opts));
              s.h == [n] && Lifetime(cfg, n).Some? && Get(cfg, s.c, k, Lifetime(cfg, n).value).1 == Some(v)
  {
    var n := Written(k, v, 0, L1Ttl(cfg, opts), L2Ttl(cfg, opts));
    var expiry := n.l2Ttl * SECOND;
    var s1 := Step(cfg, START, OSet(k, v, opts, 0));
    var s2 := Step(cfg, s1, OEvict({k}, {}));
    var s3 := Step(cfg, s2, OGet(k, expiry));
    assert s1.h == [n] && s3.c.l1[k] == Stored(v, Expiry(cfg.defaultTtl, expiry));
    var ops := [OSet(k, v, opts, 0), OEvict({k}, {}), OGet(k, expiry)];
    assert ops[1..] == [OEvict({k}, {}), OGet(k, expiry)] && ops[1..][1..] == [OGet(k, expiry)];
    assert Run(cfg, s2, [OGet(k, expiry)]) == s3;
    assert Run(cfg, START, ops) == s3;
  }
}
