/** Replaying stored events through projections by way of an index from event types to handlers. */
module EventReplay {
  import opened Common

  datatype StoredEvent = StoredEvent(position: nat, kind: string, payload: int)

  /** One `@OnDomainEvent` entry of a projection class. */
  datatype Entry = Entry(eventTypeName: string, methodName: string)

  /** A projection instance: which object it is, the name of its class, its entries in order. */
  datatype Projection = Projection(instance: nat, name: string, entries: seq<Entry>)

  datatype Handler = Handler(instance: nat, methodName: string, projectionName: string)

  datatype ReplayError = ReplayError(position: nat, kind: string, message: string)

  type Index = map<string, seq<Handler>>

  type Counts = map<string, nat>

  /** Calling a handler changes the world of projection states and may throw. */
  type Behaviour<!W> = (W, Handler, StoredEvent) -> (W, Option<string>)

  datatype Progress<W> = Progress(world: W, counts: Counts, errors: seq<ReplayError>)

  /** One guarded call of a handler. */
  function Invoke<W>(behaviour: Behaviour<W>, p: Progress<W>, h: Handler, e: StoredEvent): Progress<W>
    requires h.projectionName in p.counts
    ensures Invoke(behaviour, p, h, e).counts.Keys == p.counts.Keys
  {
    var (world, thrown) := behaviour(p.world, h, e);
    if thrown.None? then Progress(world, p.counts[h.projectionName := p.counts[h.projectionName] + 1], p.errors)
    else Progress(world, p.counts, p.errors + [ReplayError(e.position, e.kind, thrown.value)])
  }

  // ----- The reference: three nested loops -----

  ghost predicate Counted(counts: Counts, projections: seq<Projection>) {
    forall p :: p in projections ==> p.name in counts
  }

  function OverEntries<W>(behaviour: Behaviour<W>, p: Progress<W>, pr: Projection, entries: seq<Entry>,
                          e: StoredEvent): (r: Progress<W>)
    requires pr.name in p.counts
    ensures r.counts.Keys == p.counts.Keys
  {
    if entries == [] then p
    else
      var before := OverEntries(behaviour, p, pr, entries[..|entries| - 1], e);
      var entry := entries[|entries| - 1];
      if entry.eventTypeName == e.kind
      then Invoke(behaviour, before, Handler(pr.instance, entry.methodName, pr.name), e)
      else before
  }

  function OverProjections<W>(behaviour: Behaviour<W>, p: Progress<W>, projections: seq<Projection>,
                              e: StoredEvent): (r: Progress<W>)
    requires Counted(p.counts, projections)
    ensures r.counts.Keys == p.counts.Keys
  {
    if projections == [] then p
    else
      var last := projections[|projections| - 1];
      OverEntries(behaviour, OverProjections(behaviour, p, projections[..|projections| - 1], e), last, last.entries, e)
  }

  /** Every event, every projection, every entry: call the entry's method if the type matches. */
  function NaiveReplay<W>(behaviour: Behaviour<W>, p: Progress<W>, projections: seq<Projection>,
                          events: seq<StoredEvent>): (r: Progress<W>)
    requires Counted(p.counts, projections)
    ensures r.counts.Keys == p.counts.Keys
  {
    if events == [] then p
    else
      var before := NaiveReplay(behaviour, p, projections, events[..|events| - 1]);
      OverProjections(behaviour, before, projections, events[|events| - 1])
  }

  // ----- The index -----

  function MatchingEntries(pr: Projection, entries: seq<Entry>, kind: string): seq<Handler> {
    if entries == [] then []
    else
      var entry := entries[|entries| - 1];
      MatchingEntries(pr, entries[..|entries| - 1], kind) +
      (if entry.eventTypeName == kind then [Handler(pr.instance, entry.methodName, pr.name)] else [])
  }

  /** The handlers of one event type: in the order of the projections, then of their entries. */
  function HandlersFor(projections: seq<Projection>, kind: string): seq<Handler> {
    if projections == [] then []
    else
      var last := projections[|projections| - 1];
      HandlersFor(projections[..|projections| - 1], kind) + MatchingEntries(last, last.entries, kind)
  }

  function HandlersIn(index: Index, kind: string): seq<Handler> {
    if kind in index then index[kind] else []
  }

  function Push(index: Index, kind: string, h: Handler): Index {
    index[kind := HandlersIn(index, kind) + [h]]
  }

  lemma PushEntry(start: Index, index: Index, pr: Projection, j: nat, kind: string)
    requires j < |pr.entries|
    requires HandlersIn(index, kind) == HandlersIn(start, kind) + MatchingEntries(pr, pr.entries[..j], kind)
    ensures var entry := pr.entries[j];
            var pushed := Push(index, entry.eventTypeName, Handler(pr.instance, entry.methodName, pr.name));
            HandlersIn(pushed, kind) == HandlersIn(start, kind) + MatchingEntries(pr, pr.entries[..j + 1], kind)
  {
    assert pr.entries[..j + 1][..j] == pr.entries[..j];
  }

  /** The inner loop of the index build: one projection's entries. */
  method AddProjection(index: Index, pr: Projection) returns (index': Index)
    ensures forall kind :: HandlersIn(index', kind) == HandlersIn(index, kind) + MatchingEntries(pr, pr.entries, kind)
  {
    hide MatchingEntries;
    index' := index;
    NoEntries(pr);
    for j := 0 to |pr.entries|
      invariant forall kind ::
                  HandlersIn(index', kind) == HandlersIn(index, kind) + MatchingEntries(pr, pr.entries[..j], kind)
    {
      var entry := pr.entries[j];
      forall kind {
        PushEntry(index, index', pr, j, kind);
      }
      var existing := if entry.eventTypeName in index' then index'[entry.eventTypeName] else [];
      index' := index'[entry.eventTypeName := existing + [Handler(pr.instance, entry.methodName, pr.name)]];
    }
    assert pr.entries[..|pr.entries|] == pr.entries;
  }

  lemma NoEntries(pr: Projection)
    ensures forall kind :: MatchingEntries(pr, [], kind) == []
  {
  }

  method BuildIndex(projections: seq<Projection>) returns (index: Index, counts: Counts)
    ensures forall kind :: HandlersIn(index, kind) == HandlersFor(projections, kind)
    ensures counts == ZeroCounts(projections)
  {
    hide HandlersIn, MatchingEntries;
    index, counts := map[], map[];
    NoHandlers();
    for i := 0 to |projections|
      invariant forall kind :: HandlersIn(index, kind) == HandlersFor(projections[..i], kind)
      invariant counts == ZeroCounts(projections[..i])
    {
      var pr := projections[i];
      assert projections[..i + 1] == projections[..i] + [pr];
      assert projections[..i + 1][..i] == projections[..i];
      counts := counts[pr.name := 0];
      index := AddProjection(index, pr);
    }
    assert projections[..|projections|] == projections;
  }

  lemma NoHandlers()
    ensures forall kind :: HandlersIn(map[], kind) == []
  {
  }

  function ZeroCounts(projections: seq<Projection>): Counts {
    map p | p in projections :: p.name := 0
  }

  // ----- Dispatching through the index does the same -----

  ghost predicate NamesCounted(counts: Counts, hs: seq<Handler>) {
    forall h :: h in hs ==> h.projectionName in counts
  }

  function InvokeAll<W>(behaviour: Behaviour<W>, p: Progress<W>, hs: seq<Handler>, e: StoredEvent): (r: Progress<W>)
    requires NamesCounted(p.counts, hs)
    ensures r.counts.Keys == p.counts.Keys
  {
    if hs == [] then p
    else Invoke(behaviour, InvokeAll(behaviour, p, hs[..|hs| - 1], e), hs[|hs| - 1], e)
  }

  lemma {:induction false} InvokeAllAppend<W>(behaviour: Behaviour<W>, p: Progress<W>, a: seq<Handler>,
                                              b: seq<Handler>, e: StoredEvent)
    requires NamesCounted(p.counts, a + b)
    ensures NamesCounted(p.counts, a) && NamesCounted(p.counts, b)
    ensures InvokeAll(behaviour, p, a + b, e) == InvokeAll(behaviour, InvokeAll(behaviour, p, a, e), b, e)
  {
    assert forall h :: h in a ==> h in a + b;
    assert forall h :: h in b ==> h in a + b;
    if b == [] {
      assert a + b == a;
    } else {
      var b' := b[..|b| - 1];
      assert (a + b)[..|a + b| - 1] == a + b';
      InvokeAllAppend(behaviour, p, a, b', e);
    }
  }

  lemma {:induction false} EntriesThroughIndex<W>(behaviour: Behaviour<W>, p: Progress<W>, pr: Projection,
                                                  entries: seq<Entry>, e: StoredEvent)
    requires pr.name in p.counts
    ensures NamesCounted(p.counts, MatchingEntries(pr, entries, e.kind))
    ensures InvokeAll(behaviour, p, MatchingEntries(pr, entries, e.kind), e) ==
            OverEntries(behaviour, p, pr, entries, e)
  {
    if entries != [] {
      var front, entry := entries[..|entries| - 1], entries[|entries| - 1];
      EntriesThroughIndex(behaviour, p, pr, front, e);
      var hs := MatchingEntries(pr, front, e.kind);
      if entry.eventTypeName == e.kind {
        var h := Handler(pr.instance, entry.methodName, pr.name);
        assert MatchingEntries(pr, entries, e.kind) == hs + [h] && (hs + [h])[..|hs|] == hs;
      } else {
        assert MatchingEntries(pr, entries, e.kind) == hs;
      }
    }
  }

  lemma {:induction false} ProjectionsThroughIndex<W>(behaviour: Behaviour<W>, p: Progress<W>,
                                                      projections: seq<Projection>, e: StoredEvent)
    requires Counted(p.counts, projections)
    ensures NamesCounted(p.counts, HandlersFor(projections, e.kind))
    ensures InvokeAll(behaviour, p, HandlersFor(projections, e.kind), e) ==
            OverProjections(behaviour, p, projections, e)
  {
    if projections != [] {
      var front, last := projections[..|projections| - 1], projections[|projections| - 1];
      ProjectionsThroughIndex(behaviour, p, front, e);
      var q := OverProjections(behaviour, p, front, e);
      EntriesThroughIndex(behaviour, q, last, last.entries, e);
      InvokeAllAppend(behaviour, p, HandlersFor(front, e.kind), MatchingEntries(last, last.entries, e.kind), e);
    }
  }

  /**
   * `replay`: same calls in the same order as the three nested loops, hence the same projection states, counts and
   * errors, whichever handlers throw.
   */
  method Replay<W>(behaviour: Behaviour<W>, world: W, projections: seq<Projection>, events: seq<StoredEvent>)
    returns (eventsProcessed: nat, result: Progress<W>)
    ensures eventsProcessed == |events|
    ensures var counts := ZeroCounts(projections);
            Counted(counts, projections) &&
            result == NaiveReplay(behaviour, Progress(world, counts, []), projections, events)
  {
    hide OverEntries, OverProjections, HandlersFor, MatchingEntries, Invoke;
    var index, counts := BuildIndex(projections);
    ghost var start := Progress(world, counts, []);
    result := Progress(world, counts, []);
    for i := 0 to |events|
      invariant Counted(start.counts, projections)
      invariant result == NaiveReplay(behaviour, start, projections, events[..i])
    {
      var event := events[i];
      assert events[..i + 1][..i] == events[..i];
      ProjectionsThroughIndex(behaviour, result, projections, event);
      ghost var before := result;
      if event.kind in index {
        var handlers := index[event.kind];
        assert handlers == HandlersIn(index, event.kind);
        for j := 0 to |handlers|
          invariant NamesCounted(before.counts, handlers[..j])
          invariant result == InvokeAll(behaviour, before, handlers[..j], event)
        {
          assert handlers[..j + 1][..j] == handlers[..j];
          assert handlers[j] in handlers;
          result := Invoke(behaviour, result, handlers[j], event);
        }
        assert handlers[..|handlers|] == handlers;
      } else {
        assert HandlersIn(index, event.kind) == [];
      }
    }
    assert events[..|events|] == events;
    eventsProcessed := |events|;
  }

  // ----- Counting -----

  ghost function Total(counts: Counts): nat {
    if counts == map[] then 0
    else
      var name := PickName(counts);
      counts[name] + Total(counts - {name})
  }

  ghost function PickName(counts: Counts): (name: string)
    requires counts != map[]
    ensures name in counts
  {
    assert counts.Keys != {};
    var name :| name in counts; name
  }

  lemma {:induction false} TotalSplit(counts: Counts, name: string)
    requires name in counts
    ensures Total(counts) == counts[name] + Total(counts - {name})
    decreases |counts|
  {
    var other := PickName(counts);
    if other != name {
      TotalSplit(counts - {other}, name);
      TotalSplit(counts - {name}, other);
      assert counts - {other} - {name} == counts - {name} - {other};
    }
  }

  lemma TotalBump(counts: Counts, name: string)
    requires name in counts
    ensures Total(counts[name := counts[name] + 1]) == Total(counts) + 1
  {
    var bumped := counts[name := counts[name] + 1];
    TotalSplit(counts, name);
    TotalSplit(bumped, name);
    assert bumped - {name} == counts - {name};
  }

  /** Handler calls seen so far: those that returned and those that threw. */
  ghost function Calls<W>(p: Progress<W>): nat {
    Total(p.counts) + |p.errors|
  }

  lemma {:induction false} InvokeAllCalls<W>(behaviour: Behaviour<W>, p: Progress<W>, hs: seq<Handler>, e: StoredEvent)
    requires NamesCounted(p.counts, hs)
    ensures Calls(InvokeAll(behaviour, p, hs, e)) == Calls(p) + |hs|
  {
    if hs != [] {
      var n := |hs| - 1;
      InvokeAllCalls(behaviour, p, hs[..n], e);
      assert hs[n] in hs;
      TotalBump(InvokeAll(behaviour, p, hs[..n], e).counts, hs[n].projectionName);
    }
  }

  /** The number of pairs of an event and a handler for it. */
  function MatchingPairs(projections: seq<Projection>, events: seq<StoredEvent>): nat {
    if events == [] then 0
    else MatchingPairs(projections, events[..|events| - 1]) + |HandlersFor(projections, events[|events| - 1].kind)|
  }

  lemma {:induction false} ReplayCalls<W>(behaviour: Behaviour<W>, p: Progress<W>, projections: seq<Projection>,
                                          events: seq<StoredEvent>)
    requires Counted(p.counts, projections)
    ensures Calls(NaiveReplay(behaviour, p, projections, events)) == Calls(p) + MatchingPairs(projections, events)
  {
    if events != [] {
      var front, e := events[..|events| - 1], events[|events| - 1];
      ReplayCalls(behaviour, p, projections, front);
      var q := NaiveReplay(behaviour, p, projections, front);
      ProjectionsThroughIndex(behaviour, q, projections, e);
      InvokeAllCalls(behaviour, q, HandlersFor(projections, e.kind), e);
    }
  }

  lemma {:induction false} ZeroTotal(counts: Counts)
    requires forall name :: name in counts ==> counts[name] == 0
    ensures Total(counts) == 0
    decreases |counts|
  {
    if counts != map[] {
      ZeroTotal(counts - {PickName(counts)});
    }
  }

  /** Counts and errors of a replay add up to the number of matching pairs: no call is lost, none is made twice. */
  lemma CountsAddUp<W>(behaviour: Behaviour<W>, world: W, projections: seq<Projection>, events: seq<StoredEvent>)
    ensures var counts := ZeroCounts(projections);
            Counted(counts, projections) &&
            var p := NaiveReplay(behaviour, Progress(world, counts, []), projections, events);
            Total(p.counts) + |p.errors| == MatchingPairs(projections, events)
  {
    var counts := ZeroCounts(projections);
    ZeroTotal(counts);
    ReplayCalls(behaviour, Progress(world, counts, []), projections, events);
  }
}
