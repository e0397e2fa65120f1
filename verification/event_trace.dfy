/** What a replay reports, against the trace of the calls it makes. */
module EventTrace {
  import opened Common
  import opened EventReplay

  /** A call of a handler with an event, and what it threw, if it threw. */
  datatype Call = Call(handler: Handler, event: StoredEvent, thrown: Option<string>)

  function PairsOf(hs: seq<Handler>, e: StoredEvent): seq<(Handler, StoredEvent)> {
    seq(|hs|, i requires 0 <= i < |hs| => (hs[i], e))
  }

  /** Which handler is called with which event, in order. */
  function Pairs(projections: seq<Projection>, events: seq<StoredEvent>): seq<(Handler, StoredEvent)> {
    if events == [] then []
    else
      var e := events[|events| - 1];
      Pairs(projections, events[..|events| - 1]) + PairsOf(HandlersFor(projections, e.kind), e)
  }

  /** Making these calls one after the other: the calls with what they threw, and the world after them. */
  function Trace<W>(behaviour: Behaviour<W>, w: W, pairs: seq<(Handler, StoredEvent)>): (seq<Call>, W) {
    if pairs == [] then ([], w)
    else
      var (calls, w1) := Trace(behaviour, w, pairs[..|pairs| - 1]);
      var (h, e) := pairs[|pairs| - 1];
      var (w2, thrown) := behaviour(w1, h, e);
      (calls + [Call(h, e, thrown)], w2)
  }

  /** The calls for projections of this name that returned. */
  ghost function Returned(calls: seq<Call>, name: string): set<nat> {
    set i: nat | i < |calls| && calls[i].handler.projectionName == name && calls[i].thrown.None?
  }

  predicate Tells(error: ReplayError, call: Call) {
    && call.thrown.Some? && error.message == call.thrown.value
    && error.position == call.event.position && error.kind == call.event.kind
  }

  ghost predicate ListedAt(calls: seq<Call>, errors: seq<ReplayError>, at: seq<nat>) {
    && |at| == |errors|
    && (forall k :: 0 <= k < |at| ==> at[k] < |calls| && Tells(errors[k], calls[at[k]]))
    && (forall k, l :: 0 <= k < l < |at| ==> at[k] < at[l])
    && (forall i: nat :: i < |calls| && calls[i].thrown.Some? ==> i in at)
  }

  /** The errors are those of the calls that threw, all of them, in the order of the calls. */
  ghost predicate Listed(calls: seq<Call>, errors: seq<ReplayError>) {
    exists at: seq<nat> :: ListedAt(calls, errors, at)
  }

  /** World, counts and errors are what the trace of these calls says. */
  ghost predicate Describes<W>(behaviour: Behaviour<W>, w: W, pairs: seq<(Handler, StoredEvent)>, p: Progress<W>) {
    var (calls, w') := Trace(behaviour, w, pairs);
    && p.world == w'
    && (forall name :: name in p.counts ==> p.counts[name] == |Returned(calls, name)|)
    && Listed(calls, p.errors)
  }

  lemma OneMoreReturned(calls: seq<Call>, call: Call, name: string)
    ensures |Returned(calls + [call], name)| ==
            |Returned(calls, name)| + if call.handler.projectionName == name && call.thrown.None? then 1 else 0
  {
    var before, after := Returned(calls, name), Returned(calls + [call], name);
    if call.handler.projectionName == name && call.thrown.None? {
      assert after == before + {|calls|};
    } else {
      assert after == before;
    }
  }

  lemma StillListed(calls: seq<Call>, errors: seq<ReplayError>, call: Call)
    requires Listed(calls, errors) && call.thrown.None?
    ensures Listed(calls + [call], errors)
  {
    hide Tells;
    var at: seq<nat> :| ListedAt(calls, errors, at);
    assert ListedAt(calls + [call], errors, at);
  }

  lemma NewlyListed(calls: seq<Call>, errors: seq<ReplayError>, call: Call, error: ReplayError)
    requires Listed(calls, errors) && Tells(error, call)
    ensures Listed(calls + [call], errors + [error])
  {
    hide Tells;
    var at: seq<nat> :| ListedAt(calls, errors, at);
    var all, at' := calls + [call], at + [|calls|];
    forall i: nat | i < |all| && all[i].thrown.Some?
      ensures i in at'
    {
    }
    assert ListedAt(all, errors + [error], at');
  }

  lemma OneMoreCall<W>(behaviour: Behaviour<W>, w: W, pairs: seq<(Handler, StoredEvent)>, h: Handler, e: StoredEvent)
    ensures var (calls, w1) := Trace(behaviour, w, pairs);
            var (w2, thrown) := behaviour(w1, h, e);
            Trace(behaviour, w, pairs + [(h, e)]) == (calls + [Call(h, e, thrown)], w2)
  {
    assert (pairs + [(h, e)])[..|pairs|] == pairs;
  }

  /** One guarded call adds its call to what is described. */
  lemma InvokeDescribes<W>(behaviour: Behaviour<W>, w: W, pairs: seq<(Handler, StoredEvent)>, p: Progress<W>,
                           h: Handler, e: StoredEvent)
    requires h.projectionName in p.counts && Describes(behaviour, w, pairs, p)
    ensures Describes(behaviour, w, pairs + [(h, e)], Invoke(behaviour, p, h, e))
  {
    var (calls, w1) := Trace(behaviour, w, pairs);
    var call := Call(h, e, behaviour(w1, h, e).1);
    hide Trace, Listed, Returned;
    OneMoreCall(behaviour, w, pairs, h, e);
    if call.thrown.None? {
      StillListed(calls, p.errors, call);
    } else {
      NewlyListed(calls, p.errors, call, ReplayError(e.position, e.kind, call.thrown.value));
    }
    forall name | name in p.counts
      ensures |Returned(calls + [call], name)| ==
              |Returned(calls, name)| + if h.projectionName == name && call.thrown.None? then 1 else 0
    {
      OneMoreReturned(calls, call, name);
    }
  }

  lemma {:induction false} InvokeAllDescribes<W>(behaviour: Behaviour<W>, w: W, pairs: seq<(Handler, StoredEvent)>,
                                                 p: Progress<W>, hs: seq<Handler>, e: StoredEvent)
    requires NamesCounted(p.counts, hs) && Describes(behaviour, w, pairs, p)
    ensures Describes(behaviour, w, pairs + PairsOf(hs, e), InvokeAll(behaviour, p, hs, e))
  {
    hide Describes, Invoke;
    if hs == [] {
      assert pairs + PairsOf(hs, e) == pairs;
    } else {
      var n := |hs| - 1;
      InvokeAllDescribes(behaviour, w, pairs, p, hs[..n], e);
      assert hs[n] in hs;
      InvokeDescribes(behaviour, w, pairs + PairsOf(hs[..n], e), InvokeAll(behaviour, p, hs[..n], e), hs[n], e);
      assert pairs + PairsOf(hs[..n], e) + [(hs[n], e)] == pairs + PairsOf(hs, e);
    }
  }

  lemma {:induction false} ReplayDescribes<W>(behaviour: Behaviour<W>, w: W, p: Progress<W>,
                                              projections: seq<Projection>, events: seq<StoredEvent>)
    requires Counted(p.counts, projections) && Describes(behaviour, w, [], p)
    ensures Describes(behaviour, w, Pairs(projections, events), NaiveReplay(behaviour, p, projections, events))
  {
    hide Describes, InvokeAll, OverProjections, HandlersFor;
    if events != [] {
      var front, e := events[..|events| - 1], events[|events| - 1];
      ReplayDescribes(behaviour, w, p, projections, front);
      var q := NaiveReplay(behaviour, p, projections, front);
      ProjectionsThroughIndex(behaviour, q, projections, e);
      InvokeAllDescribes(behaviour, w, Pairs(projections, front), q, HandlersFor(projections, e.kind), e);
    }
  }

  /**
   * What a replay reports: the world is the one its calls lead to, the count of a projection name is the number of
   * calls for it that returned, and the errors are those of the calls that threw, in order, with position and type of
   * the event and what was thrown.
   */
  lemma ReplayReports<W>(behaviour: Behaviour<W>, world: W, projections: seq<Projection>, events: seq<StoredEvent>)
    ensures var counts := ZeroCounts(projections);
            Counted(counts, projections) &&
            var p := NaiveReplay(behaviour, Progress(world, counts, []), projections, events);
            var (calls, w) := Trace(behaviour, world, Pairs(projections, events));
            && p.world == w
            && (forall pr :: pr in projections ==> pr.name in p.counts)
            && (forall name :: name in p.counts ==> p.counts[name] == |Returned(calls, name)|)
            && Listed(calls, p.errors)
  {
    var p := Progress(world, ZeroCounts(projections), []);
    assert forall name :: Returned([], name) == {};
    assert ListedAt([], [], []);
    ReplayDescribes(behaviour, world, p, projections, events);
  }

  lemma {:induction false} NothingThrown<W(!new)>(behaviour: Behaviour<W>, w: W, pairs: seq<(Handler, StoredEvent)>)
    requires forall w1, h, e :: behaviour(w1, h, e).1.None?
    ensures forall i :: 0 <= i < |Trace(behaviour, w, pairs).0| ==> Trace(behaviour, w, pairs).0[i].thrown.None?
  {
    if pairs != [] {
      var n := |pairs| - 1;
      NothingThrown(behaviour, w, pairs[..n]);
      var (h, e) := pairs[n];
      OneMoreCall(behaviour, w, pairs[..n], h, e);
      assert behaviour(Trace(behaviour, w, pairs[..n]).1, h, e).1.None?;
      assert pairs == pairs[..n] + [(h, e)];
    }
  }

  /** Where no handler ever throws, no error is reported. */
  lemma NoThrowNoError<W(!new)>(behaviour: Behaviour<W>, world: W, projections: seq<Projection>,
                                events: seq<StoredEvent>)
    requires forall w, h, e :: behaviour(w, h, e).1.None?
    ensures Counted(ZeroCounts(projections), projections)
    ensures NaiveReplay(behaviour, Progress(world, ZeroCounts(projections), []), projections, events).errors == []
  {
    ReplayReports(behaviour, world, projections, events);
    NothingThrown(behaviour, world, Pairs(projections, events));
    var p := NaiveReplay(behaviour, Progress(world, ZeroCounts(projections), []), projections, events);
    if p.errors != [] {
      ErrorHasCall(Trace(behaviour, world, Pairs(projections, events)).0, p.errors);
    }
  }

  lemma ErrorHasCall(calls: seq<Call>, errors: seq<ReplayError>)
    requires Listed(calls, errors) && errors != []
    ensures exists i :: 0 <= i < |calls| && calls[i].thrown.Some?
  {
    var at: seq<nat> :| ListedAt(calls, errors, at);
    assert Tells(errors[0], calls[at[0]]);
  }
}
