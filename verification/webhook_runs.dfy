/** Runs of the webhook controller: deliveries and failing handlers in any order. */
module WebhookRuns {
  import opened WebhookDedup

  datatype Event =
    | Delivery(id: EventId, n1: int, n2: int, n3: int)
    | HandlerFailed(id: EventId)

  /** What happened: a handler was started, a delivery was skipped, a handler failed. */
  datatype Note = Started(id: EventId, at: int) | Skipped(id: EventId) | Failed(id: EventId)

  type History = seq<Note>

  datatype System = System(store: Store, clock: int, h: History)

  function Step(s: System, e: Event): System {
    match e
    case Delivery(id, n1, n2, n3) =>
      var (store, accepted) := Deliver(s.store, id, n1, n2, n3);
      if accepted then System(store, n3, s.h + [Started(id, n3)]) else System(store, n1, s.h + [Skipped(id)])
    case HandlerFailed(id) => System(Without(s.store, id), s.clock, s.h + [Failed(id)])
  }

  /** The clock does not run backwards. */
  predicate InTime(s: System, e: Event) {
    e.Delivery? ==> s.clock <= e.n1 <= e.n2 <= e.n3
  }

  ghost predicate Possible(s: System, es: seq<Event>)
    decreases |es|
  {
    es == [] || (InTime(s, es[0]) && Possible(Step(s, es[0]), es[1..]))
  }

  function Run(s: System, es: seq<Event>): System
    decreases |es|
  {
    if es == [] then s else Run(Step(s, es[0]), es[1..])
  }

  // ----- Reading the history -----

  ghost predicate IsLastStart(h: History, i: nat, id: EventId, at: int) {
    i < |h| && h[i] == Started(id, at) && forall j :: i < j < |h| && h[j].Started? ==> h[j].id != id
  }

  /** Other events than `id` started in `h`. */
  ghost function OthersStarted(h: History, id: EventId): set<EventId> {
    set n | n in h && n.Started? && n.id != id :: n.id
  }

  ghost predicate FailedIn(h: History, id: EventId) {
    Failed(id) in h
  }

  /**
   * Between positions `i` and `j` an attempt for `id` failed, or as many other events were started as the store
   * holds.
   */
  ghost predicate Excused(h: History, i: nat, j: nat, id: EventId)
    requires i < j <= |h|
  {
    FailedIn(h[i + 1..j], id) || |OthersStarted(h[i + 1..j], id)| >= MAX_STORE_SIZE
  }

  // ----- The invariant -----

  ghost predicate Ordered(s: Store, clock: int) {
    && (forall p :: 0 <= p < |s| ==> s[p].at <= clock)
    && (forall p, q :: 0 <= p < q < |s| ==> s[p].at <= s[q].at)
  }

  /** Each entry of the store comes from the last start of its event, and entries are in the order of those starts. */
  ghost predicate Traced(s: Store, h: History) {
    exists starts: seq<nat> :: TracedBy(s, h, starts)
  }

  ghost predicate TracedBy(s: Store, h: History, starts: seq<nat>) {
    && |starts| == |s|
    && (forall p :: 0 <= p < |s| ==> IsLastStart(h, starts[p], s[p].id, s[p].at))
    && (forall p, q :: 0 <= p < q < |s| ==> starts[p] < starts[q])
  }

  ghost predicate Remembered(s: System, i: nat)
    requires i < |s.h| && s.h[i].Started?
  {
    || s.clock - s.h[i].at > STORE_TTL_MS
    || Excused(s.h, i, |s.h|, s.h[i].id)
    || Item(s.h[i].id, s.h[i].at) in s.store
  }

  ghost predicate Window(h: History) {
    forall i, j {:trigger Excused(h, i, j, h[i].id)} ::
      0 <= i < j < |h| && CloseStarts(h[i], h[j]) ==> Excused(h, i, j, h[i].id)
  }

  /** Two starts for one event within the time to live. */
  predicate CloseStarts(a: Note, b: Note) {
    a.Started? && b.Started? && a.id == b.id && b.at - a.at <= STORE_TTL_MS
  }

  ghost predicate Inv(s: System) {
    && DistinctIds(s.store) && Ordered(s.store, s.clock) && |s.store| <= MAX_STORE_SIZE + 1
    && Traced(s.store, s.h)
    && (forall i :: 0 <= i < |s.h| && s.h[i].Started? ==> Remembered(s, i))
    && Window(s.h)
  }

  // ----- Histories only excuse more -----

  lemma ExcusedLater(h: History, n: Note, i: nat, j: nat, id: EventId)
    requires i < j <= |h| && Excused(h, i, j, id)
    ensures Excused(h + [n], i, j, id) && Excused(h, i, |h|, id) && Excused(h + [n], i, |h| + 1, id)
  {
    var a, b, c := h[i + 1..j], h[i + 1..], (h + [n])[i + 1..];
    assert (h + [n])[i + 1..j] == a && h[i + 1..|h|] == b && (h + [n])[i + 1..|h| + 1] == c;
    assert b == a + h[j..] && c == b + [n];
    MoreOthers(a, b, id);
    MoreOthers(b, c, id);
  }

  lemma MoreOthers(a: History, b: History, id: EventId)
    requires a <= b
    ensures FailedIn(a, id) ==> FailedIn(b, id)
    ensures |OthersStarted(a, id)| <= |OthersStarted(b, id)|
  {
    assert forall n :: n in a ==> n in b;
    assert OthersStarted(a, id) <= OthersStarted(b, id);
    SubsetSize(OthersStarted(a, id), OthersStarted(b, id));
  }

  lemma SubsetSize(a: set<EventId>, b: set<EventId>)
    requires a <= b
    ensures |a| <= |b|
  {
    assert b == a + (b - a);
  }

  // ----- Parts of a store -----

  ghost predicate PartOf(s: Store, t: Store, ps: seq<nat>) {
    && |ps| == |s|
    && (forall p :: 0 <= p < |ps| ==> ps[p] < |t| && s[p] == t[ps[p]])
    && (forall p, q :: 0 <= p < q < |ps| ==> ps[p] < ps[q])
  }

  lemma {:induction false} UnexpiredPart(s: Store, now: int) returns (ps: seq<nat>)
    ensures PartOf(Unexpired(s, now), s, ps)
    ensures forall x :: x in Unexpired(s, now) <==> x in s && !Expired(x, now)
  {
    if s == [] {
      ps := [];
    } else {
      var n := |s| - 1;
      ps := UnexpiredPart(s[..n], now);
      assert s == s[..n] + [s[n]];
      if !Expired(s[n], now) {
        ps := ps + [n];
      }
    }
  }

  lemma {:induction false} WithoutPart(s: Store, id: EventId) returns (ps: seq<nat>)
    ensures PartOf(Without(s, id), s, ps)
    ensures forall x :: x in Without(s, id) <==> x in s && x.id != id
  {
    if s == [] {
      ps := [];
    } else {
      var n := |s| - 1;
      ps := WithoutPart(s[..n], id);
      assert s == s[..n] + [s[n]];
      if s[n].id != id {
        ps := ps + [n];
      }
    }
  }

  lemma TrimmedPart(s: Store) returns (ps: seq<nat>)
    ensures PartOf(Trimmed(s), s, ps)
  {
    var drop := |s| - |Trimmed(s)|;
    ps := seq(|Trimmed(s)|, p requires 0 <= p < |Trimmed(s)| => p + drop);
  }

  /** Order, distinctness and origin carry over to a part. */
  lemma PartKeeps(s: Store, t: Store, ps: seq<nat>, clock: int, h: History)
    requires PartOf(s, t, ps) && DistinctIds(t) && Ordered(t, clock) && Traced(t, h)
    ensures DistinctIds(s) && Ordered(s, clock) && Traced(s, h) && |s| <= |t|
  {
    var starts: seq<nat> :| TracedBy(t, h, starts);
    var starts' := seq(|s|, p requires 0 <= p < |s| => starts[ps[p]]);
    assert TracedBy(s, h, starts');
    PartSize(ps, |t|);
  }

  lemma {:induction false} PartSize(ps: seq<nat>, n: nat)
    requires forall p :: 0 <= p < |ps| ==> ps[p] < n
    requires forall p, q :: 0 <= p < q < |ps| ==> ps[p] < ps[q]
    ensures |ps| <= n
  {
    if ps != [] {
      PartSize(ps[..|ps| - 1], ps[|ps| - 1]);
    }
  }

  // ----- Every step keeps the invariant -----

  lemma AppendKeepsWindow(h: History, n: Note)
    requires Window(h)
    requires n.Started? ==> forall i :: 0 <= i < |h| && CloseStarts(h[i], n) ==> Excused(h, i, |h|, h[i].id)
    ensures Window(h + [n])
  {
    forall i, j | 0 <= i < j < |h + [n]| && CloseStarts((h + [n])[i], (h + [n])[j])
      ensures Excused(h + [n], i, j, (h + [n])[i].id)
    {
      assert Excused(h, i, j, h[i].id);
      ExcusedLater(h, n, i, j, h[i].id);
    }
  }

  lemma AppendKeepsTraced(s: Store, h: History, n: Note)
    requires Traced(s, h)
    requires n.Started? ==> forall p :: 0 <= p < |s| ==> s[p].id != n.id
    ensures Traced(s, h + [n])
    ensures n.Started? ==> Traced(s + [Item(n.id, n.at)], h + [n])
  {
    var starts: seq<nat> :| TracedBy(s, h, starts);
    assert TracedBy(s, h + [n], starts);
    if n.Started? {
      assert TracedBy(s + [Item(n.id, n.at)], h + [n], starts + [|h|]);
    }
  }

  lemma IdsOf(s: Store) returns (ids: set<EventId>)
    requires DistinctIds(s)
    ensures |ids| == |s| && forall x :: x in ids <==> exists p :: 0 <= p < |s| && s[p].id == x
  {
    if s == [] {
      ids := {};
    } else {
      var front, last := s[..|s| - 1], s[|s| - 1];
      var before := IdsOf(front);
      ids := before + {last.id};
      assert forall p :: 0 <= p < |front| ==> front[p] == s[p];
      assert last.id !in before;
    }
  }

  /** Since the start that a full store lists first, as many other events were started as the store holds. */
  lemma OldestIsOvertaken(s: Store, h: History, i: nat)
    requires DistinctIds(s) && Traced(s, h) && |s| == MAX_STORE_SIZE + 1 && IsLastStart(h, i, s[0].id, s[0].at)
    ensures |OthersStarted(h[i + 1..], s[0].id)| >= MAX_STORE_SIZE
  {
    var starts: seq<nat> :| TracedBy(s, h, starts);
    assert IsLastStart(h, starts[0], s[0].id, s[0].at);
    var rest := s[1..];
    var ids := IdsOf(rest);
    var others := OthersStarted(h[i + 1..], s[0].id);
    forall x | x in ids
      ensures x in others
    {
      var p :| 0 <= p < |rest| && rest[p].id == x;
      assert s[p + 1] == rest[p] && IsLastStart(h, starts[p + 1], x, rest[p].at);
      assert h[i + 1..][starts[p + 1] - i - 1] == h[starts[p + 1]];
    }
    SubsetSize(ids, others);
  }

  /** The entry that is trimmed has been overtaken by a full store of others since its start. */
  lemma TrimmedIsExcused(s: Store, h: History, i: nat)
    requires DistinctIds(s) && Traced(s, h) && Window(h) && |s| == MAX_STORE_SIZE + 1
    requires i < |h| && h[i] == Started(s[0].id, s[0].at)
    ensures Excused(h, i, |h|, s[0].id)
  {
    var starts: seq<nat> :| TracedBy(s, h, starts);
    var id, j := s[0].id, starts[0];
    assert IsLastStart(h, j, id, s[0].at);
    if i == j {
      OldestIsOvertaken(s, h, i);
      assert h[i + 1..|h|] == h[i + 1..];
    } else {
      assert CloseStarts(h[i], h[j]);
      assert Excused(h, i, j, h[i].id);
      ExcusedLater(h, h[j], i, j, id);
    }
  }

  /** What is left of the store when an accepted delivery inserts its entry. */
  function Swept(s: Store, id: EventId, now: int): Store {
    Unexpired(Without(s, id), now)
  }

  lemma SweptKeeps(s: System, id: EventId, now: int)
    requires Inv(s)
    ensures var t := Swept(s.store, id, now);
            && DistinctIds(t) && Ordered(t, s.clock) && Traced(t, s.h) && |t| <= MAX_STORE_SIZE + 1
            && forall x :: x in t <==> x in s.store && x.id != id && !Expired(x, now)
  {
    var t := Without(s.store, id);
    var ps := WithoutPart(s.store, id);
    PartKeeps(t, s.store, ps, s.clock, s.h);
    var qs := UnexpiredPart(t, now);
    PartKeeps(Unexpired(t, now), t, qs, s.clock, s.h);
  }

  lemma AcceptedStep(s: System, id: EventId, n1: int, n2: int, n3: int)
    requires !Fresh(s.store, id, n1)
    ensures Step(s, Delivery(id, n1, n2, n3)) ==
            System(Trimmed(Swept(s.store, id, n2)) + [Item(id, n3)], n3, s.h + [Started(id, n3)])
  {
  }

  /** Trimming takes at most the oldest entry. */
  lemma OnlyOldestIsTrimmed(t: Store, x: Item)
    requires |t| <= MAX_STORE_SIZE + 1 && x in t && x !in Trimmed(t)
    ensures |t| == MAX_STORE_SIZE + 1 && t[0] == x
  {
    assert t == [t[0]] + Trimmed(t);
  }

  lemma YoungIsNotSwept(s: System, id: EventId, n1: int, n2: int, x: Item)
    requires Inv(s) && s.clock <= n1 <= n2 && !Fresh(s.store, id, n1)
    requires x in s.store && n2 - x.at <= STORE_TTL_MS
    ensures x in Swept(s.store, id, n2)
  {
    hide Inv, Swept;
    SweptKeeps(s, id, n2);
  }

  lemma AcceptedRemembers(s: System, id: EventId, n1: int, n2: int, n3: int, i: nat)
    requires Inv(s) && s.clock <= n1 <= n2 <= n3 && !Fresh(s.store, id, n1)
    requires i < |s.h| && s.h[i].Started?
    ensures Remembered(Step(s, Delivery(id, n1, n2, n3)), i)
  {
    hide Step, Swept, Excused, Traced, Ordered, DistinctIds, Fresh, Trimmed;
    var n, x := Started(id, n3), Item(s.h[i].id, s.h[i].at);
    var t := Swept(s.store, id, n2);
    AcceptedStep(s, id, n1, n2, n3);
    SweptKeeps(s, id, n2);
    assert Remembered(s, i);
    if Excused(s.h, i, |s.h|, x.id) {
      ExcusedLater(s.h, n, i, |s.h|, x.id);
    } else if n3 - x.at <= STORE_TTL_MS {
      YoungIsNotSwept(s, id, n1, n2, x);
      if x !in Trimmed(t) {
        OnlyOldestIsTrimmed(t, x);
        TrimmedIsExcused(t, s.h, i);
      }
    }
  }

  /** An event that is not fresh was started too long ago, or its entry has been excused. */
  lemma NotFreshIsExcused(s: System, id: EventId, n1: int, n3: int, i: nat)
    requires Inv(s) && s.clock <= n1 <= n3 && !Fresh(s.store, id, n1)
    requires i < |s.h| && CloseStarts(s.h[i], Started(id, n3))
    ensures Excused(s.h, i, |s.h|, s.h[i].id)
  {
    hide Excused, Traced, Ordered, DistinctIds, Window;
    assert Remembered(s, i);
  }

  lemma AcceptedKeepsInv(s: System, id: EventId, n1: int, n2: int, n3: int)
    requires Inv(s) && s.clock <= n1 <= n2 <= n3 && !Fresh(s.store, id, n1)
    ensures Inv(Step(s, Delivery(id, n1, n2, n3)))
  {
    hide Step, Swept, Excused, TracedBy, Fresh;
    var s', n := Step(s, Delivery(id, n1, n2, n3)), Started(id, n3);
    AcceptedStep(s, id, n1, n2, n3);
    var t := Swept(s.store, id, n2);
    SweptKeeps(s, id, n2);
    var ps := TrimmedPart(t);
    PartKeeps(Trimmed(t), t, ps, s.clock, s.h);
    AppendKeepsTraced(Trimmed(t), s.h, n);
    assert s'.store == Trimmed(t) + [Item(id, n3)];
    assert Ordered(s'.store, n3) && DistinctIds(s'.store);
    forall i | 0 <= i < |s.h| && CloseStarts(s.h[i], n)
      ensures Excused(s.h, i, |s.h|, s.h[i].id)
    {
      NotFreshIsExcused(s, id, n1, n3, i);
    }
    AppendKeepsWindow(s.h, n);
    forall i | 0 <= i < |s'.h| && s'.h[i].Started?
      ensures Remembered(s', i)
    {
      if i < |s.h| {
        AcceptedRemembers(s, id, n1, n2, n3, i);
      } else {
        assert s'.store[|s'.store| - 1] == Item(id, n3);
      }
    }
  }

  lemma SkippedKeepsInv(s: System, id: EventId, now: int)
    requires Inv(s) && s.clock <= now
    ensures Inv(System(s.store, now, s.h + [Skipped(id)]))
  {
    var s', n := System(s.store, now, s.h + [Skipped(id)]), Skipped(id);
    AppendKeepsTraced(s.store, s.h, n);
    AppendKeepsWindow(s.h, n);
    forall i | 0 <= i < |s'.h| && s'.h[i].Started?
      ensures Remembered(s', i)
    {
      assert Remembered(s, i);
      if Excused(s.h, i, |s.h|, s.h[i].id) {
        ExcusedLater(s.h, n, i, |s.h|, s.h[i].id);
      }
    }
  }

  lemma FailedRemembers(s: System, id: EventId, i: nat)
    requires Inv(s) && i < |s.h| && s.h[i].Started?
    ensures Remembered(Step(s, HandlerFailed(id)), i)
  {
    hide Traced, Ordered, DistinctIds, Window, OthersStarted, Without;
    var n := Failed(id);
    var ps := WithoutPart(s.store, id);
    assert Remembered(s, i);
    if Excused(s.h, i, |s.h|, s.h[i].id) {
      ExcusedLater(s.h, n, i, |s.h|, s.h[i].id);
    } else if s.h[i].id == id {
      assert (s.h + [n])[i + 1..|s.h| + 1][|s.h| - i - 1] == n;
    }
  }

  lemma FailedKeepsInv(s: System, id: EventId)
    requires Inv(s)
    ensures Inv(Step(s, HandlerFailed(id)))
  {
    hide Excused, TracedBy;
    var s', n := Step(s, HandlerFailed(id)), Failed(id);
    var ps := WithoutPart(s.store, id);
    PartKeeps(s'.store, s.store, ps, s.clock, s.h);
    AppendKeepsTraced(s'.store, s.h, n);
    AppendKeepsWindow(s.h, n);
    forall i | 0 <= i < |s'.h| && s'.h[i].Started?
      ensures Remembered(s', i)
    {
      FailedRemembers(s, id, i);
    }
  }

  lemma StepKeepsInv(s: System, e: Event)
    requires Inv(s) && InTime(s, e)
    ensures Inv(Step(s, e))
  {
    hide Inv;
    match e
    case Delivery(id, n1, n2, n3) =>
      if Fresh(s.store, id, n1) {
        SkippedKeepsInv(s, id, n1);
      } else {
        AcceptedKeepsInv(s, id, n1, n2, n3);
      }
    case HandlerFailed(id) => FailedKeepsInv(s, id);
  }

  lemma {:induction false} RunKeepsInv(s: System, es: seq<Event>)
    requires Inv(s) && Possible(s, es)
    ensures Inv(Run(s, es))
    decreases |es|
  {
    if es != [] {
      StepKeepsInv(s, es[0]);
      RunKeepsInv(Step(s, es[0]), es[1..]);
    }
  }

  lemma StartInv(clock: int)
    ensures Inv(System([], clock, []))
  {
    assert TracedBy([], [], []);
  }

  // ----- Main results -----

  /**
   * If the handler is started twice for one event within the time to live, then in between an attempt for that event
   * failed, or at least `MAX_STORE_SIZE` other events were started.
   */
  lemma DedupWindow(clock: int, es: seq<Event>, i: nat, j: nat)
    requires Possible(System([], clock, []), es)
    requires var h := Run(System([], clock, []), es).h;
             i < j < |h| && h[i].Started? && h[j].Started? && h[i].id == h[j].id && h[j].at - h[i].at <= STORE_TTL_MS
    ensures var h := Run(System([], clock, []), es).h;
            FailedIn(h[i + 1..j], h[i].id) || |OthersStarted(h[i + 1..j], h[i].id)| >= MAX_STORE_SIZE
  {
    StartInv(clock);
    RunKeepsInv(System([], clock, []), es);
    var h := Run(System([], clock, []), es).h;
    assert CloseStarts(h[i], h[j]);
    assert Excused(h, i, j, h[i].id);
  }

  /** The store lists distinct events in the order of their times and holds at most one more than its limit. */
  lemma StoreStaysSmall(clock: int, es: seq<Event>)
    requires Possible(System([], clock, []), es)
    ensures var s := Run(System([], clock, []), es);
            DistinctIds(s.store) && Ordered(s.store, s.clock) && |s.store| <= MAX_STORE_SIZE + 1
  {
    StartInv(clock);
    RunKeepsInv(System([], clock, []), es);
  }

  lemma {:induction false} NothingExpired(s: Store, now: int)
    requires forall p :: 0 <= p < |s| ==> !Expired(s[p], now)
    ensures Unexpired(s, now) == s
  {
    if s != [] {
      NothingExpired(s[..|s| - 1], now);
    }
  }

  /** The events other than `id` whose entries have not expired. */
  ghost function LiveOthers(s: Store, id: EventId, now: int): set<EventId> {
    set x | x in s && x.id != id && !Expired(x, now) :: x.id
  }

  lemma SweptSize(s: System, id: EventId, now: int)
    requires Inv(s)
    ensures |Swept(s.store, id, now)| == |LiveOthers(s.store, id, now)|
  {
    hide Inv, Swept;
    var t := Swept(s.store, id, now);
    SweptKeeps(s, id, now);
    var ids := IdsOf(t);
    forall x
      ensures x in ids <==> x in LiveOthers(s.store, id, now)
    {
      if x in ids {
        var p :| 0 <= p < |t| && t[p].id == x;
        assert t[p] in t;
      }
      if x in LiveOthers(s.store, id, now) {
        var y :| y in s.store && y.id != id && !Expired(y, now) && y.id == x;
        assert y in t;
      }
    }
    assert ids == LiveOthers(s.store, id, now);
  }

  /**
   * After any run, an accepted delivery leaves the store above its limit, by one, exactly if at least `MAX_STORE_SIZE`
   * unexpired entries of other events were stored: eviction comes before insertion.
   */
  lemma LimitIsPassedByOne(clock: int, es: seq<Event>, id: EventId, n1: int, n2: int, n3: int)
    requires Possible(System([], clock, []), es) && InTime(Run(System([], clock, []), es), Delivery(id, n1, n2, n3))
    requires !Fresh(Run(System([], clock, []), es).store, id, n1)
    ensures var s := Run(System([], clock, []), es);
            var live := |LiveOthers(s.store, id, n2)|;
            var s' := Step(s, Delivery(id, n1, n2, n3));
            && |s'.store| == (if live >= MAX_STORE_SIZE then MAX_STORE_SIZE else live) + 1
            && (|s'.store| > MAX_STORE_SIZE <==> live >= MAX_STORE_SIZE)
  {
    var s := Run(System([], clock, []), es);
    StartInv(clock);
    RunKeepsInv(System([], clock, []), es);
    AcceptedStep(s, id, n1, n2, n3);
    SweptSize(s, id, n2);
  }

  // ----- A run that passes the limit -----

  /** Pairwise different event identities. */
  function Name(i: nat): EventId {
    EventId(seq(i, _ => 'x'))
  }

  lemma NamesDiffer(i: nat, j: nat)
    requires Name(i) == Name(j)
    ensures i == j
  {
    assert |Name(i).text| == i && |Name(j).text| == j;
  }

  function Filled(clock: int, n: nat): Store {
    seq(n, i requires 0 <= i < n => Item(Name(i), clock))
  }

  lemma FillOneMore(clock: int, n: nat, h: History)
    requires n <= MAX_STORE_SIZE
    ensures Step(System(Filled(clock, n), clock, h), Delivery(Name(n), clock, clock, clock)) ==
            System(Filled(clock, n + 1), clock, h + [Started(Name(n), clock)])
  {
    var s := Filled(clock, n);
    forall p | 0 <= p < n
      ensures s[p].id != Name(n)
    {
      if s[p].id == Name(n) {
        NamesDiffer(p, n);
      }
    }
    WithoutNone(s, Name(n));
    NothingExpired(s, clock);
    assert s + [Item(Name(n), clock)] == Filled(clock, n + 1);
  }

  /** From a store with `n` entries, deliveries of new events lead to one entry above the limit. */
  lemma {:induction false} Fill(clock: int, n: nat, h: History) returns (es: seq<Event>)
    requires n <= MAX_STORE_SIZE + 1
    ensures Possible(System(Filled(clock, n), clock, h), es)
    ensures Run(System(Filled(clock, n), clock, h), es).store == Filled(clock, MAX_STORE_SIZE + 1)
    decreases MAX_STORE_SIZE + 1 - n
  {
    if n == MAX_STORE_SIZE + 1 {
      es := [];
    } else {
      hide Filled;
      var e := Delivery(Name(n), clock, clock, clock);
      FillOneMore(clock, n, h);
      var rest := Fill(clock, n + 1, h + [Started(Name(n), clock)]);
      es := [e] + rest;
      assert es[0] == e && es[1..] == rest;
    }
  }

  /** The limit is really passed: from the empty store, at any time. */
  lemma LimitIsReached(clock: int)
    ensures exists es :: && Possible(System([], clock, []), es)
                         && |Run(System([], clock, []), es).store| == MAX_STORE_SIZE + 1
  {
    var es := Fill(clock, 0, []);
    assert Filled(clock, 0) == [];
  }
}
