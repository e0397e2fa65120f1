/** Which deliveries are skipped: exactly those of events that are remembered, in terms of what has happened. */
module WebhookSkips {
  import opened WebhookDedup
  import opened WebhookRuns

  /** A run, and the events whose entry was trimmed since their last start. */
  datatype Watched = Watched(sys: System, dropped: set<EventId>)

  function TrimmedAway(t: Store): set<EventId> {
    set x | x in t && x !in Trimmed(t) :: x.id
  }

  function Watch(w: Watched, e: Event): Watched {
    Watched(Step(w.sys, e),
            if e.Delivery? && !Fresh(w.sys.store, e.id, e.n1)
            then w.dropped - {e.id} + TrimmedAway(Swept(w.sys.store, e.id, e.n2))
            else w.dropped)
  }

  function WatchAll(w: Watched, es: seq<Event>): Watched
    decreases |es|
  {
    if es == [] then w else WatchAll(Watch(w, es[0]), es[1..])
  }

  /** Watching changes nothing. */
  lemma {:induction false} WatchingIsRunning(w: Watched, es: seq<Event>)
    ensures WatchAll(w, es).sys == Run(w.sys, es)
    decreases |es|
  {
    if es != [] {
      WatchingIsRunning(Watch(w, es[0]), es[1..]);
    }
  }

  /** Position `i` holds the last start for `id`, at time `at`, and no attempt for it has failed since. */
  ghost predicate Standing(h: History, i: nat, id: EventId, at: int) {
    IsLastStart(h, i, id, at) && !FailedIn(h[i + 1..], id)
  }

  ghost predicate HasStanding(h: History, id: EventId, at: int) {
    exists i :: Standing(h, i, id, at)
  }

  ghost predicate Overtaken(h: History, id: EventId) {
    exists i, at :: IsLastStart(h, i, id, at) && |OthersStarted(h[i + 1..], id)| >= MAX_STORE_SIZE
  }

  ghost predicate Recalled(w: Watched, id: EventId, at: int) {
    HasStanding(w.sys.h, id, at) && id !in w.dropped && w.sys.clock - at <= STORE_TTL_MS ==> Item(id, at) in w.sys.store
  }

  ghost predicate Justified(w: Watched, x: Item) {
    HasStanding(w.sys.h, x.id, x.at) && x.id !in w.dropped
  }

  /** The store holds what stands, has not been dropped and is young; what was dropped has been overtaken. */
  ghost predicate Exact(w: Watched) {
    && (forall id, at :: Recalled(w, id, at))
    && (forall x :: x in w.sys.store ==> Justified(w, x))
    && (forall id :: id in w.dropped ==> Overtaken(w.sys.h, id))
  }

  // ----- One more note -----

  lemma StandingAfter(h: History, n: Note, i: nat, id: EventId, at: int)
    ensures i < |h| ==> (Standing(h + [n], i, id, at) <==>
                           Standing(h, i, id, at) && !(n.Started? && n.id == id) && n != Failed(id))
    ensures i == |h| ==> (Standing(h + [n], i, id, at) <==> n == Started(id, at))
  {
    if i < |h| {
      assert (h + [n])[i + 1..] == h[i + 1..] + [n];
      assert forall j :: 0 <= j < |h| ==> (h + [n])[j] == h[j];
      assert (h + [n])[|h|] == n;
    } else if i == |h| {
      assert (h + [n])[i + 1..] == [];
    }
  }

  lemma HasStandingAfter(h: History, n: Note, id: EventId, at: int)
    ensures HasStanding(h + [n], id, at) <==>
            if n.Started? && n.id == id then n == Started(id, at) else HasStanding(h, id, at) && n != Failed(id)
  {
    if i :| Standing(h + [n], i, id, at) {
      StandingAfter(h, n, i, id, at);
    }
    if i :| Standing(h, i, id, at) {
      StandingAfter(h, n, i, id, at);
    }
    StandingAfter(h, n, |h|, id, at);
  }

  lemma OvertakenAfter(h: History, n: Note, id: EventId)
    requires Overtaken(h, id) && !(n.Started? && n.id == id)
    ensures Overtaken(h + [n], id)
  {
    var i: nat, at :| IsLastStart(h, i, id, at) && |OthersStarted(h[i + 1..], id)| >= MAX_STORE_SIZE;
    assert (h + [n])[i + 1..] == h[i + 1..] + [n];
    MoreOthers(h[i + 1..], h[i + 1..] + [n], id);
    assert IsLastStart(h + [n], i, id, at);
  }

  // ----- Every step -----

  lemma SkipStaysExact(w: Watched, id: EventId, n1: int, n2: int, n3: int)
    requires Exact(w) && w.sys.clock <= n1 && Fresh(w.sys.store, id, n1)
    ensures Exact(Watch(w, Delivery(id, n1, n2, n3)))
  {
    var h, n, w' := w.sys.h, Skipped(id), Watch(w, Delivery(id, n1, n2, n3));
    assert w' == Watched(System(w.sys.store, n1, h + [n]), w.dropped);
    hide Watch, Fresh, Overtaken, HasStanding;
    forall x, at
      ensures HasStanding(w'.sys.h, x, at) <==> HasStanding(h, x, at)
    {
      HasStandingAfter(h, n, x, at);
    }
    forall x, at
      ensures Recalled(w', x, at)
    {
      assert Recalled(w, x, at);
    }
    forall x | x in w'.sys.store
      ensures Justified(w', x)
    {
      assert Justified(w, x);
    }
    forall x | x in w'.dropped
      ensures Overtaken(w'.sys.h, x)
    {
      OvertakenAfter(h, n, x);
    }
  }

  lemma FailureStaysExact(w: Watched, id: EventId)
    requires Exact(w)
    ensures Exact(Watch(w, HandlerFailed(id)))
  {
    var h, n, w' := w.sys.h, Failed(id), Watch(w, HandlerFailed(id));
    var _ := WithoutPart(w.sys.store, id);
    assert w' == Watched(System(Without(w.sys.store, id), w.sys.clock, h + [n]), w.dropped);
    hide Watch, Overtaken, HasStanding, Without;
    forall x, at
      ensures HasStanding(w'.sys.h, x, at) <==> HasStanding(h, x, at) && x != id
    {
      HasStandingAfter(h, n, x, at);
    }
    forall x, at
      ensures Recalled(w', x, at)
    {
      assert Recalled(w, x, at);
    }
    forall x | x in w'.sys.store
      ensures Justified(w', x)
    {
      assert Justified(w, x);
    }
    forall x | x in w'.dropped
      ensures Overtaken(w'.sys.h, x)
    {
      OvertakenAfter(h, n, x);
    }
  }

  /** What an accepted delivery trims away is not in the store any more, and was its oldest entry. */
  lemma TrimmedAwayIsGone(t: Store, x: Item)
    requires DistinctIds(t) && x in Trimmed(t)
    ensures x in t && x.id !in TrimmedAway(t)
  {
  }

  lemma TrimmedAwayIsOvertaken(t: Store, h: History, id: EventId)
    requires DistinctIds(t) && Traced(t, h) && |t| <= MAX_STORE_SIZE + 1 && id in TrimmedAway(t)
    ensures Overtaken(h, id)
  {
    var x :| x in t && x !in Trimmed(t) && x.id == id;
    OnlyOldestIsTrimmed(t, x);
    var starts: seq<nat> :| TracedBy(t, h, starts);
    assert IsLastStart(h, starts[0], t[0].id, t[0].at);
    OldestIsOvertaken(t, h, starts[0]);
  }

  lemma AcceptedWatch(w: Watched, id: EventId, n1: int, n2: int, n3: int)
    requires !Fresh(w.sys.store, id, n1)
    ensures var t := Swept(w.sys.store, id, n2);
            Watch(w, Delivery(id, n1, n2, n3)) ==
            Watched(System(Trimmed(t) + [Item(id, n3)], n3, w.sys.h + [Started(id, n3)]),
                    w.dropped - {id} + TrimmedAway(t))
  {
    AcceptedStep(w.sys, id, n1, n2, n3);
  }

  lemma AcceptedStaysExact(w: Watched, id: EventId, n1: int, n2: int, n3: int)
    requires Exact(w) && Inv(w.sys) && w.sys.clock <= n1 <= n2 <= n3 && !Fresh(w.sys.store, id, n1)
    ensures Exact(Watch(w, Delivery(id, n1, n2, n3)))
  {
    hide Watch, Fresh, Overtaken, HasStanding, Swept, Trimmed, TrimmedAway, Inv, Traced, DistinctIds;
    var h, n, w' := w.sys.h, Started(id, n3), Watch(w, Delivery(id, n1, n2, n3));
    var t := Swept(w.sys.store, id, n2);
    AcceptedWatch(w, id, n1, n2, n3);
    SweptKeeps(w.sys, id, n2);
    OthersTrimmed(t, id);
    forall x, at
      ensures HasStanding(w'.sys.h, x, at) <==> if x == id then at == n3 else HasStanding(h, x, at)
    {
      HasStandingAfter(h, n, x, at);
    }
    forall x, at
      ensures Recalled(w', x, at)
    {
      assert Recalled(w, x, at);
      if x != id && Item(x, at) in t && Item(x, at) !in Trimmed(t) {
        OldOnesAway(t, Item(x, at));
      }
    }
    forall x | x in w'.sys.store
      ensures Justified(w', x)
    {
      if x in Trimmed(t) {
        TrimmedAwayIsGone(t, x);
        assert Justified(w, x);
      }
    }
    forall x | x in w'.dropped
      ensures Overtaken(w'.sys.h, x)
    {
      if x in TrimmedAway(t) {
        TrimmedAwayIsOvertaken(t, h, x);
      }
      OvertakenAfter(h, n, x);
    }
  }

  lemma OldOnesAway(t: Store, x: Item)
    requires x in t && x !in Trimmed(t)
    ensures x.id in TrimmedAway(t)
  {
  }

  lemma OthersTrimmed(t: Store, id: EventId)
    requires forall x :: x in t ==> x.id != id
    ensures id !in TrimmedAway(t)
  {
  }

  lemma {:induction false} WatchAllExact(w: Watched, es: seq<Event>)
    requires Exact(w) && Inv(w.sys) && Possible(w.sys, es)
    ensures Exact(WatchAll(w, es)) && Inv(WatchAll(w, es).sys)
    decreases |es|
  {
    hide Exact, Inv, Fresh;
    if es != [] {
      var e := es[0];
      StepKeepsInv(w.sys, e);
      if e.HandlerFailed? {
        FailureStaysExact(w, e.id);
      } else if Fresh(w.sys.store, e.id, e.n1) {
        SkipStaysExact(w, e.id, e.n1, e.n2, e.n3);
      } else {
        AcceptedStaysExact(w, e.id, e.n1, e.n2, e.n3);
      }
      WatchAllExact(Watch(w, e), es[1..]);
    }
  }

  lemma StartExact(clock: int)
    ensures Exact(Watched(System([], clock, []), {}))
  {
    forall id, at
      ensures !HasStanding([], id, at)
    {
    }
  }

  // ----- Main results -----

  /** The run from the empty store, watched. */
  function Watching(clock: int, es: seq<Event>): Watched {
    WatchAll(Watched(System([], clock, []), {}), es)
  }

  lemma WatchedRun(clock: int, es: seq<Event>)
    requires Possible(System([], clock, []), es)
    ensures var w := Watching(clock, es); w.sys == Run(System([], clock, []), es) && Exact(w) && Inv(w.sys)
  {
    StartInv(clock);
    StartExact(clock);
    WatchingIsRunning(Watched(System([], clock, []), {}), es);
    WatchAllExact(Watched(System([], clock, []), {}), es);
  }

  /**
   * After any run, a delivery is skipped if and only if the last start for its event is at most the time to live ago,
   * no attempt for it has failed since, and its entry has not been trimmed; otherwise its handler is started.
   */
  lemma SkippedIff(clock: int, es: seq<Event>, id: EventId, n1: int, n2: int, n3: int)
    requires Possible(System([], clock, []), es) && InTime(Run(System([], clock, []), es), Delivery(id, n1, n2, n3))
    ensures var s := Run(System([], clock, []), es);
            Step(s, Delivery(id, n1, n2, n3)).h ==
            s.h + [if (exists at :: HasStanding(s.h, id, at) && n1 - at <= STORE_TTL_MS)
                      && id !in Watching(clock, es).dropped
                   then Skipped(id) else Started(id, n3)]
  {
    WatchedRun(clock, es);
    var w := Watching(clock, es);
    var s := w.sys;
    hide HasStanding, Inv;
    if Fresh(s.store, id, n1) {
      var p :| 0 <= p < |s.store| && s.store[p].id == id && !Expired(s.store[p], n1);
      assert s.store[p] in s.store;
      assert Justified(w, s.store[p]);
    } else if at :| HasStanding(s.h, id, at) && n1 - at <= STORE_TTL_MS {
      assert Recalled(w, id, at);
    }
  }

  /** What was trimmed has been overtaken: as many other events as the store holds were started since. */
  lemma DroppedIsOvertaken(clock: int, es: seq<Event>, id: EventId)
    requires Possible(System([], clock, []), es) && id in Watching(clock, es).dropped
    ensures Overtaken(Run(System([], clock, []), es).h, id)
  {
    WatchedRun(clock, es);
  }

  /**
   * In terms of the history alone: a skipped event has a start within the time to live and no failure since, and an
   * event that has them, and has not been overtaken by as many others as the store holds, is skipped.
   */
  lemma SkippedByHistory(clock: int, es: seq<Event>, id: EventId, n1: int, n2: int, n3: int)
    requires Possible(System([], clock, []), es) && InTime(Run(System([], clock, []), es), Delivery(id, n1, n2, n3))
    ensures var s := Run(System([], clock, []), es);
            var standing := exists at :: HasStanding(s.h, id, at) && n1 - at <= STORE_TTL_MS;
            var h' := Step(s, Delivery(id, n1, n2, n3)).h;
            && (h' == s.h + [Skipped(id)] || h' == s.h + [Started(id, n3)])
            && (h' == s.h + [Skipped(id)] ==> standing)
            && (standing && !Overtaken(s.h, id) ==> h' == s.h + [Skipped(id)])
  {
    SkippedIff(clock, es, id, n1, n2, n3);
    if id in Watching(clock, es).dropped {
      DroppedIsOvertaken(clock, es, id);
    }
    var h := Run(System([], clock, []), es).h;
    assert (h + [Started(id, n3)])[|h|] != (h + [Skipped(id)])[|h|];
  }
}
