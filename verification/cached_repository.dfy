/** Repositories that read through a shared cache and drop their part of it on every write. */
module CachedRepositories {
  import opened Common
  import opened MultiCache

  datatype Method = FindById | FindOne | FindMany | Count | Exists

  /** A read; `args` are its serialized arguments. */
  datatype Query = Query(operation: Method, args: string)

  /** The cache in use, the digest of arguments, and what a repository with given data answers. */
  datatype Setup<!D> = Setup(cfg: Config, digest: string -> string, answer: (D, Query) -> Value)

  function MethodName(m: Method): string {
    match m
    case FindById => "findById"
    case FindOne => "findOne"
    case FindMany => "findMany"
    case Count => "count"
    case Exists => "exists"
  }

  function CacheKey(digest: string -> string, name: string, q: Query): Key {
    name + ":" + MethodName(q.operation) + ":" + digest(q.args)
  }

  /** Digests differ for different arguments and are written without colons. */
  ghost predicate GoodDigest(digest: string -> string) {
    && (forall a :: ':' !in digest(a))
    && (forall a, b :: digest(a) == digest(b) ==> a == b)
  }

  // ----- Keys -----

  lemma SplitAtLastColon(a: string, b: string, c: string, d: string)
    requires a + ":" + b == c + ":" + d && ':' !in b && ':' !in d
    ensures a == c && b == d
  {
    var s, t := a + ":" + b, c + ":" + d;
    assert s[|a|] == ':' && t[|c|] == ':';
    assert forall i :: 0 <= i < |b| ==> s[|a| + 1 + i] == b[i];
    assert forall i :: 0 <= i < |d| ==> t[|c| + 1 + i] == d[i];
    assert s[..|a|] == a && t[..|c|] == c && s[|a| + 1..] == b && t[|c| + 1..] == d;
  }

  /** Distinct reads have distinct keys, even for collection names that contain colons or extend one another. */
  lemma KeysAreInjective(digest: string -> string, m: string, q: Query, n: string, r: Query)
    requires GoodDigest(digest) && CacheKey(digest, m, q) == CacheKey(digest, n, r)
    ensures m == n && q == r
  {
    var a, b := m + ":" + MethodName(q.operation), n + ":" + MethodName(r.operation);
    SplitAtLastColon(a, digest(q.args), b, digest(r.args));
    SplitAtLastColon(m, MethodName(q.operation), n, MethodName(r.operation));
    MethodNamesDiffer(q.operation, r.operation);
  }

  lemma MethodNamesDiffer(m: Method, n: Method)
    ensures MethodName(m) == MethodName(n) ==> m == n
  {
    assert MethodName(FindById)[4] == 'B' && MethodName(FindMany)[4] == 'M';
  }

  // ----- Operations -----

  function ReadThrough<D>(setup: Setup<D>, c: Cache, name: string, q: Query, d: D, ttl: nat, now: int,
                          later: int): (Cache, Value) {
    GetOrSet(setup.cfg, c, CacheKey(setup.digest, name, q), setup.answer(d, q), SetOptions(Some(ttl), None), now, later)
  }

  /** The repository that is wrapped. */
  class Inner<D> {
    var data: D

    constructor (data: D)
      ensures this.data == data
    {
      this.data := data;
    }
  }

  class CachedRepository<D> {
    const setup: Setup<D>
    const inner: Inner<D>
    const cache: MultiCacheService
    const collectionName: string
    const ttl: nat

    constructor (setup: Setup<D>, inner: Inner<D>, cache: MultiCacheService, collectionName: string, ttl: nat)
      ensures this.setup == setup && this.inner == inner && this.cache == cache
      ensures this.collectionName == collectionName && this.ttl == ttl
    {
      this.setup, this.inner, this.cache, this.collectionName, this.ttl := setup, inner, cache, collectionName, ttl;
    }

    /** `findById`, `findOne`, `findMany`, `count` and `exists`. */
    method Read(q: Query, now: int, later: int) returns (v: Value)
      requires cache.cfg == setup.cfg
      modifies cache
      ensures (cache.Now(), v) == ReadThrough(setup, old(cache.Now()), collectionName, q, inner.data, ttl, now, later)
    {
      var key := CacheKey(setup.digest, collectionName, q);
      var d, answer := inner.data, setup.answer;
      v := cache.GetOrProduce(key, () => answer(d, q), SetOptions(Some(ttl), None), now, later);
    }

    /**
     * `create`, `createMany`, `update` and `delete`. The inner repository holds `data` afterwards, whether its
     * operation returns or throws; if it throws, nothing is invalidated.
     */
    method Write(data: D, ok: bool) returns (returned: bool)
      requires cache.cfg == setup.cfg
      modifies inner, cache
      ensures returned == ok && inner.data == data
      ensures cache.Now() == if ok then DelByPrefix(setup.cfg, old(cache.Now()), collectionName) else old(cache.Now())
    {
      inner.data := data;
      if !ok { return false; }
      cache.DeleteByPrefix(collectionName);
      returned := true;
    }
  }

  // ----- Runs of several repositories over one cache -----

  type RepoId = nat

  /** `owner` says which inner repository stands behind each collection name. */
  datatype World<D> = World(cache: Cache, owner: map<string, RepoId>, repos: map<RepoId, D>)

  datatype Op<D> =
    | Read(name: string, q: Query, ttl: nat, now: int, later: int)
    | Write(name: string, data: D, ok: bool)
    | Evict(from1: set<Key>, from2: set<Key>)

  ghost predicate WellOwned<D>(w: World<D>) {
    forall n :: n in w.owner ==> w.owner[n] in w.repos
  }

  ghost predicate Known<D>(w: World<D>, op: Op<D>) {
    op.Evict? || op.name in w.owner
  }

  /** What the inner repository behind `name` would answer now. */
  ghost function Current<D>(setup: Setup<D>, w: World<D>, name: string, q: Query): Value
    requires WellOwned(w) && name in w.owner
  {
    setup.answer(w.repos[w.owner[name]], q)
  }

  ghost function ReadValue<D>(setup: Setup<D>, w: World<D>, name: string, q: Query, ttl: nat, now: int,
                              later: int): Value
    requires WellOwned(w) && name in w.owner
  {
    ReadThrough(setup, w.cache, name, q, w.repos[w.owner[name]], ttl, now, later).1
  }

  ghost function Step<D>(setup: Setup<D>, w: World<D>, op: Op<D>): World<D>
    requires WellOwned(w) && Known(w, op)
  {
    match op
    case Read(name, q, ttl, now, later) =>
      w.(cache := ReadThrough(setup, w.cache, name, q, w.repos[w.owner[name]], ttl, now, later).0)
    case Write(name, data, ok) =>
      w.(cache := if ok then DelByPrefix(setup.cfg, w.cache, name) else w.cache,
         repos := w.repos[w.owner[name] := data])
    case Evict(from1, from2) => w.(cache := Cache(w.cache.l1 - from1, w.cache.l2 - from2))
  }

  ghost predicate Possible<D>(setup: Setup<D>, w: World<D>, ops: seq<Op<D>>)
    decreases |ops|
  {
    WellOwned(w) && (ops == [] || (Known(w, ops[0]) && Possible(setup, Step(setup, w, ops[0]), ops[1..])))
  }

  ghost function Run<D>(setup: Setup<D>, w: World<D>, ops: seq<Op<D>>): World<D>
    requires Possible(setup, w, ops)
    decreases |ops|
  {
    if ops == [] then w else Run(setup, Step(setup, w, ops[0]), ops[1..])
  }

  /** A write that fails has had no effect. */
  ghost predicate Clean<D>(w: World<D>, op: Op<D>)
    requires WellOwned(w) && Known(w, op)
  {
    op.Write? && !op.ok ==> op.data == w.repos[w.owner[op.name]]
  }

  ghost predicate CleanRun<D>(setup: Setup<D>, w: World<D>, ops: seq<Op<D>>)
    requires Possible(setup, w, ops)
    decreases |ops|
  {
    ops == [] || (Clean(w, ops[0]) && CleanRun(setup, Step(setup, w, ops[0]), ops[1..]))
  }

  // ----- Coherence -----

  /** If two names stand for one inner repository, invalidating either drops every key of the other. */
  ghost predicate SharesSafely<D>(setup: Setup<D>, owner: map<string, RepoId>) {
    forall m, n, q :: m in owner && n in owner && owner[m] == owner[n] ==> m <= CacheKey(setup.digest, n, q)
  }

  /** One collection name per inner repository is safe, whether or not one name is a prefix of another. */
  lemma OneNameEachIsSafe<D>(setup: Setup<D>, owner: map<string, RepoId>)
    requires forall m, n :: m in owner && n in owner && owner[m] == owner[n] ==> m == n
    ensures SharesSafely(setup, owner)
  {
    forall m, q
      ensures m <= CacheKey(setup.digest, m, q)
    {
      assert CacheKey(setup.digest, m, q)[..|m|] == m;
    }
  }

  /** `v` is the current answer of every read whose key is `k`. */
  ghost predicate Correct<D>(setup: Setup<D>, w: World<D>, k: Key, v: Value)
    requires WellOwned(w)
  {
    forall name, q {:trigger CacheKey(setup.digest, name, q)} ::
      name in w.owner && CacheKey(setup.digest, name, q) == k ==> v == Current(setup, w, name, q)
  }

  /** Both layers hold current answers only. */
  ghost predicate Coherent<D>(setup: Setup<D>, w: World<D>) {
    && WellOwned(w)
    && (forall k :: k in w.cache.l1 ==> Correct(setup, w, k, w.cache.l1[k].value))
    && (setup.cfg.hasL2 ==> forall k :: k in w.cache.l2 ==> Correct(setup, w, k, w.cache.l2[k].value))
  }

  lemma ReadIsCurrent<D>(setup: Setup<D>, w: World<D>, name: string, q: Query, ttl: nat, now: int, later: int)
    requires GoodDigest(setup.digest) && Coherent(setup, w) && name in w.owner
    ensures ReadValue(setup, w, name, q, ttl, now, later) == Current(setup, w, name, q)
    ensures Coherent(setup, Step(setup, w, Read(name, q, ttl, now, later)))
  {
    var key := CacheKey(setup.digest, name, q);
    var v := Current(setup, w, name, q);
    assert Correct(setup, w, key, v) by {
      forall n, r | n in w.owner && CacheKey(setup.digest, n, r) == key
        ensures v == Current(setup, w, n, r)
      {
        KeysAreInjective(setup.digest, name, q, n, r);
      }
    }
    var w' := Step(setup, w, Read(name, q, ttl, now, later));
    assert forall k, x :: Correct(setup, w, k, x) ==> Correct(setup, w', k, x);
    hide CacheKey;
  }

  /**
   * A read that had to ask the inner repository answers the same reads for the time to live of the repository, whatever
   * the inner repository would say by then: it is not asked again.
   */
  lemma ReadIsRemembered<D>(setup: Setup<D>, c: Cache, name: string, q: Query, d: D, d': D, ttl: nat,
                            now: int, later: int, t: int, t': int)
    requires Get(setup.cfg, c, CacheKey(setup.digest, name, q), now).1.None?
    requires WithinSeconds(ttl, later, t) && Small(setup.answer(d, q))
    ensures var (c', v) := ReadThrough(setup, c, name, q, d, ttl, now, later);
            v == setup.answer(d, q) && ReadThrough(setup, c', name, q, d', ttl, t, t') == (c', v)
  {
    var key := CacheKey(setup.digest, name, q);
    var opts := SetOptions(Some(ttl), None);
    ReadBackLater(setup.cfg, Get(setup.cfg, c, key, now).0, key, setup.answer(d, q), opts, later, t);
  }

  lemma WriteKeepsCoherent<D>(setup: Setup<D>, w: World<D>, name: string, data: D, ok: bool)
    requires Coherent(setup, w) && SharesSafely(setup, w.owner) && name in w.owner && Clean(w, Write(name, data, ok))
    ensures Coherent(setup, Step(setup, w, Write(name, data, ok)))
  {
    var w' := Step(setup, w, Write(name, data, ok));
    if ok {
      forall k, x | Correct(setup, w, k, x) && !(name <= k)
        ensures Correct(setup, w', k, x)
      {
      }
    } else {
      assert w'.repos == w.repos;
      assert w' == w;
    }
  }

  lemma StepKeepsCoherent<D>(setup: Setup<D>, w: World<D>, op: Op<D>)
    requires GoodDigest(setup.digest) && Coherent(setup, w) && SharesSafely(setup, w.owner)
    requires Known(w, op) && Clean(w, op)
    ensures Coherent(setup, Step(setup, w, op)) && Step(setup, w, op).owner == w.owner
  {
    match op
    case Read(name, q, ttl, now, later) => ReadIsCurrent(setup, w, name, q, ttl, now, later);
    case Write(name, data, ok) => WriteKeepsCoherent(setup, w, name, data, ok);
    case Evict(from1, from2) =>
      var w' := Step(setup, w, op);
      assert forall k, x :: Correct(setup, w, k, x) ==> Correct(setup, w', k, x);
  }

  lemma {:induction false} RunKeepsCoherent<D>(setup: Setup<D>, w: World<D>, ops: seq<Op<D>>)
    requires GoodDigest(setup.digest) && Coherent(setup, w) && SharesSafely(setup, w.owner)
    requires Possible(setup, w, ops) && CleanRun(setup, w, ops)
    ensures Coherent(setup, Run(setup, w, ops)) && Run(setup, w, ops).owner == w.owner
    decreases |ops|
  {
    if ops != [] {
      StepKeepsCoherent(setup, w, ops[0]);
      RunKeepsCoherent(setup, Step(setup, w, ops[0]), ops[1..]);
    }
  }

  /**
   * Coherence: after any run from an empty cache, of reads and writes through any of the repositories, of values
   * of any size, with any expiry and any evictions, a read returns what the inner repository would return now.
   */
  lemma ReadsAreCurrent<D>(setup: Setup<D>, owner: map<string, RepoId>, repos: map<RepoId, D>, ops: seq<Op<D>>,
                           name: string, q: Query, ttl: nat, now: int, later: int)
    requires GoodDigest(setup.digest) && SharesSafely(setup, owner) && name in owner
    requires var w0 := World(Cache(map[], map[]), owner, repos); Possible(setup, w0, ops) && CleanRun(setup, w0, ops)
    ensures var w := Run(setup, World(Cache(map[], map[]), owner, repos), ops);
            && name in w.owner && WellOwned(w)
            && ReadValue(setup, w, name, q, ttl, now, later) == Current(setup, w, name, q)
  {
    var w0 := World(Cache(map[], map[]), owner, repos);
    RunKeepsCoherent(setup, w0, ops);
    ReadIsCurrent(setup, Run(setup, w0, ops), name, q, ttl, now, later);
  }

  /**
   * The condition on shared repositories cannot be dropped: if a write through `m` does not cover a key of `n`, then
   * reading through `n`, writing through `m` and reading again returns the old answer.
   */
  lemma StaleAcrossNames<D>(setup: Setup<D>, owner: map<string, RepoId>, repos: map<RepoId, D>,
                            m: string, n: string, q: Query, d: D, ttl: nat, now: int)
    requires m in owner && n in owner && owner[m] == owner[n] && (forall x :: x in owner ==> owner[x] in repos)
    requires !(m <= CacheKey(setup.digest, n, q))
    requires setup.answer(d, q) != setup.answer(repos[owner[n]], q)
    requires Small(setup.answer(repos[owner[n]], q)) || setup.cfg.hasL2
    ensures var w0 := World(Cache(map[], map[]), owner, repos);
            var w1 := Step(setup, w0, Read(n, q, ttl, now, now));
            var w2 := Step(setup, w1, Write(m, d, true));
            ReadValue(setup, w2, n, q, ttl, now, now) != Current(setup, w2, n, q)
  {
  }

  /**
   * Nor can the condition on failing writes: if one that throws has changed what a read answers, then reading before
   * and after it returns the old answer.
   */
  lemma StaleAfterFailedWrite<D>(setup: Setup<D>, owner: map<string, RepoId>, repos: map<RepoId, D>,
                                 name: string, q: Query, d: D, ttl: nat, now: int)
    requires name in owner && (forall x :: x in owner ==> owner[x] in repos)
    requires setup.answer(d, q) != setup.answer(repos[owner[name]], q)
    requires Small(setup.answer(repos[owner[name]], q)) || setup.cfg.hasL2
    ensures var w0 := World(Cache(map[], map[]), owner, repos);
            var w1 := Step(setup, w0, Read(name, q, ttl, now, now));
            var w2 := Step(setup, w1, Write(name, d, false));
            ReadValue(setup, w2, name, q, ttl, now, now) != Current(setup, w2, name, q)
  {
  }
}
