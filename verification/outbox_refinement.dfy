/** A call of the outbox processor is a run of the protocol. */
module OutboxRefinement {
  import opened Common
  import opened Outbox
  import opened OutboxProtocol

  function RaiseEvent(reply: Reply): Event {
    match reply
    case Acknowledged => BumpOk
    case Unheard => BumpUnheard
    case NotApplied => BumpFailed
  }

  /** What the turn of one entry is in the protocol. */
  function TurnEvents(t: Turn): seq<Event> {
    if !t.emitted then [Emit] + ([EmitFailed] + [RaiseEvent(t.raise)])
    else match t.mark
         case Acknowledged => [Emit] + ([EmitOk] + [MarkOk])
         case Unheard => [Emit] + ([EmitOk] + ([MarkUnheard] + [RaiseEvent(t.raise)]))
         case NotApplied => [Emit] + ([EmitOk] + ([MarkFailed] + [RaiseEvent(t.raise)]))
  }

  /** The turns of a batch, up to the first that stops it. */
  function BatchEvents(ids: seq<Id>, turns: Id -> Turn): seq<Event> {
    if ids == [] then [Finish]
    else if Stops(turns(ids[0])) then TurnEvents(turns(ids[0]))
    else TurnEvents(turns(ids[0])) + BatchEvents(ids[1..], turns)
  }

  /** A whole call, with the answer of the query. */
  function CallEvents(answer: Option<seq<Id>>, turns: Id -> Turn): seq<Event> {
    if answer.None? then [Tick] + [QueryFailed]
    else [Tick] + ([QueryOk(answer.value)] + BatchEvents(answer.value, turns))
  }

  function Marks(es: seq<Event>): nat {
    if es == [] then 0 else (if es[0].MarkOk? then 1 else 0) + Marks(es[1..])
  }

  /** Doing `es` from `s` leads to `s'`, and then `fs` can follow if it can from there. */
  ghost predicate Leads(maxRetries: int, s: State, es: seq<Event>, s': State) {
    forall fs {:trigger Possible(maxRetries, s', fs)} ::
      Possible(maxRetries, s', fs) ==>
        && Possible(maxRetries, s, es + fs) && RunAll(maxRetries, s, es + fs) == RunAll(maxRetries, s', fs)
  }

  lemma LeadsOne(maxRetries: int, s: State, e: Event)
    requires Enabled(maxRetries, s, e)
    ensures Leads(maxRetries, s, [e], Step(maxRetries, s, e))
  {
    forall fs | Possible(maxRetries, Step(maxRetries, s, e), fs)
      ensures Possible(maxRetries, s, [e] + fs)
      ensures RunAll(maxRetries, s, [e] + fs) == RunAll(maxRetries, Step(maxRetries, s, e), fs)
    {
      assert ([e] + fs)[0] == e && ([e] + fs)[1..] == fs;
    }
  }

  lemma LeadsFirst(maxRetries: int, s: State, e: Event, es: seq<Event>, s': State)
    requires Enabled(maxRetries, s, e) && Leads(maxRetries, Step(maxRetries, s, e), es, s')
    ensures Leads(maxRetries, s, [e] + es, s')
  {
    LeadsOne(maxRetries, s, e);
    LeadsOn(maxRetries, s, [e], Step(maxRetries, s, e), es, s');
  }

  lemma LeadsOn(maxRetries: int, s: State, es: seq<Event>, s1: State, fs: seq<Event>, s2: State)
    requires Leads(maxRetries, s, es, s1) && Leads(maxRetries, s1, fs, s2)
    ensures Leads(maxRetries, s, es + fs, s2)
  {
    hide Enabled, Step;
    forall gs | Possible(maxRetries, s2, gs)
      ensures Possible(maxRetries, s, es + fs + gs) && RunAll(maxRetries, s, es + fs + gs) == RunAll(maxRetries, s2, gs)
    {
      assert Possible(maxRetries, s1, fs + gs);
      assert es + fs + gs == es + (fs + gs);
    }
  }

  lemma LeadsThere(maxRetries: int, s: State, es: seq<Event>, s': State)
    requires Leads(maxRetries, s, es, s')
    ensures Possible(maxRetries, s, es) && RunAll(maxRetries, s, es) == s'
  {
    assert Possible(maxRetries, s', []);
    assert es + [] == es;
  }

  /** Raising the counter: its reply decides whether the batch goes on. */
  lemma RaiseLeads(maxRetries: int, s: State, reply: Reply) returns (s': State)
    requires s.phase.Bumping? && s.phase.current in s.db
    ensures Leads(maxRetries, s, [RaiseEvent(reply)], s')
    ensures s'.db == if reply.NotApplied? then s.db else Bumped(s.db, s.phase.current)
    ensures s'.phase == if reply.Acknowledged? then Ready(s.phase.rest) else Idle
  {
    s' := Step(maxRetries, s, RaiseEvent(reply));
    LeadsOne(maxRetries, s, RaiseEvent(reply));
  }

  lemma OneTurn(e: Entry, t: Turn)
    ensures AfterTurn(e, t) ==
            var marked := if MarkReply(t).NotApplied? then e else e.(published := true);
            if MarkReply(t).Acknowledged? || t.raise.NotApplied? then marked
            else marked.(retryCount := marked.retryCount + 1)
  {
  }

  /** The mark after a completed emit, and raising the counter if it is not acknowledged. */
  lemma MarkLeads(maxRetries: int, s: State, t: Turn) returns (s': State)
    requires s.phase.Marking? && s.phase.current in s.db && t.emitted
    ensures Leads(maxRetries, s, TurnEvents(t)[2..], s')
    ensures s'.db == s.db[s.phase.current := AfterTurn(s.db[s.phase.current], t)]
    ensures s'.phase == if Stops(t) then Idle else Ready(s.phase.rest)
  {
    hide Leads, AfterTurn, Possible, RunAll;
    OneTurn(s.db[s.phase.current], t);
    if t.mark.Acknowledged? {
      s' := Step(maxRetries, s, MarkOk);
      LeadsOne(maxRetries, s, MarkOk);
      assert TurnEvents(t)[2..] == [MarkOk];
    } else {
      var e := if t.mark.Unheard? then MarkUnheard else MarkFailed;
      s' := RaiseLeads(maxRetries, Step(maxRetries, s, e), t.raise);
      LeadsFirst(maxRetries, s, e, [RaiseEvent(t.raise)], s');
      assert TurnEvents(t)[2..] == [e] + [RaiseEvent(t.raise)];
    }
  }

  /** The turn of one entry does to the collection what the protocol does. */
  lemma TurnLeads(maxRetries: int, s: State, id: Id, rest: seq<Id>, t: Turn) returns (s': State)
    requires s.phase == Ready([id] + rest) && id in s.db
    ensures Leads(maxRetries, s, TurnEvents(t), s')
    ensures s'.db == s.db[id := AfterTurn(s.db[id], t)]
    ensures s'.phase == if Stops(t) then Idle else Ready(rest)
  {
    hide Leads, AfterTurn, Possible, RunAll;
    assert ([id] + rest)[0] == id && ([id] + rest)[1..] == rest;
    var s1 := Step(maxRetries, s, Emit);
    if !t.emitted {
      OneTurn(s.db[id], t);
      var s2 := Step(maxRetries, s1, EmitFailed);
      s' := RaiseLeads(maxRetries, s2, t.raise);
      LeadsFirst(maxRetries, s1, EmitFailed, [RaiseEvent(t.raise)], s');
      LeadsFirst(maxRetries, s, Emit, [EmitFailed] + [RaiseEvent(t.raise)], s');
    } else {
      var s2 := Step(maxRetries, s1, EmitOk);
      s' := MarkLeads(maxRetries, s2, t);
      LeadsFirst(maxRetries, s1, EmitOk, TurnEvents(t)[2..], s');
      LeadsFirst(maxRetries, s, Emit, [EmitOk] + TurnEvents(t)[2..], s');
      assert TurnEvents(t) == [Emit] + ([EmitOk] + TurnEvents(t)[2..]);
    }
  }

  /** The first entry of a batch, and the others. */
  lemma {:induction false} ReachedFromFront(ids: seq<Id>, turns: Id -> Turn)
    requires ids != []
    ensures Reached(ids, turns) == if Stops(turns(ids[0])) then 1 else 1 + Reached(ids[1..], turns)
  {
    hide Stops;
    if |ids| > 1 {
      var n := |ids| - 1;
      ReachedFromFront(ids[..n], turns);
      assert ids[..n][1..] == ids[1..][..n - 1];
    }
  }

  lemma AdvanceFromFront(db: Collection, id: Id, rest: seq<Id>, turns: Id -> Turn)
    requires id in db && id !in rest
    ensures Advance(db, [id] + rest, turns) == Advance(db[id := AfterTurn(db[id], turns(id))], rest, turns)
  {
  }

  lemma {:induction false} BatchLeads(maxRetries: int, s: State, ids: seq<Id>, turns: Id -> Turn) returns (s': State)
    requires s.phase == Ready(ids) && Distinct(ids) && forall id :: id in ids ==> id in s.db
    ensures Leads(maxRetries, s, BatchEvents(ids, turns), s')
    ensures s'.phase == Idle && s'.db == Advance(s.db, ids[..Reached(ids, turns)], turns)
    decreases |ids|
  {
    hide Leads, Advance, Reached, AfterTurn, Stops, Possible, RunAll, TurnEvents;
    if ids == [] {
      s' := Step(maxRetries, s, Finish);
      LeadsOne(maxRetries, s, Finish);
      AdvanceNone(s.db, turns);
      assert ids[..Reached(ids, turns)] == [];
    } else {
      var id, rest := ids[0], ids[1..];
      assert ids == [id] + rest && id !in rest;
      var s1 := TurnLeads(maxRetries, s, id, rest, turns(id));
      ReachedFromFront(ids, turns);
      if Stops(turns(id)) {
        s' := s1;
        AdvanceNone(s1.db, turns);
        AdvanceFromFront(s.db, id, [], turns);
        assert ids[..1] == [id] + [];
      } else {
        s' := BatchLeads(maxRetries, s1, rest, turns);
        LeadsOn(maxRetries, s, TurnEvents(turns(id)), s1, BatchEvents(rest, turns), s');
        var n := Reached(rest, turns);
        assert ids[..n + 1] == [id] + rest[..n];
        AdvanceFromFront(s.db, id, rest[..n], turns);
      }
    }
  }

  lemma {:induction false} MarksAdd(es: seq<Event>, fs: seq<Event>)
    ensures Marks(es + fs) == Marks(es) + Marks(fs)
  {
    if es == [] {
      assert es + fs == fs;
    } else {
      assert (es + fs)[1..] == es[1..] + fs;
      MarksAdd(es[1..], fs);
    }
  }

  lemma OneMark(e: Event)
    ensures Marks([e]) == if e.MarkOk? then 1 else 0
  {
  }

  lemma TurnMarks(t: Turn)
    ensures Marks(TurnEvents(t)) == if MarkReply(t).Acknowledged? then 1 else 0
  {
    hide Marks;
    forall e {
      OneMark(e);
    }
    forall es, fs {
      MarksAdd(es, fs);
    }
  }

  lemma {:induction false} DeliveredFromFront(id: Id, rest: seq<Id>, turns: Id -> Turn)
    ensures Delivered([id] + rest, turns) ==
            (if MarkReply(turns(id)).Acknowledged? then 1 else 0) + Delivered(rest, turns)
  {
    if rest == [] {
      assert ([id] + rest)[..0] == [];
    } else {
      assert ([id] + rest)[..|rest|] == [id] + rest[..|rest| - 1];
      DeliveredFromFront(id, rest[..|rest| - 1], turns);
    }
  }

  lemma {:induction false} BatchMarks(ids: seq<Id>, turns: Id -> Turn)
    ensures Marks(BatchEvents(ids, turns)) == Delivered(ids[..Reached(ids, turns)], turns)
  {
    hide Reached, Stops, TurnEvents, Marks, Delivered;
    if ids == [] {
      OnlyFinish(turns);
    } else {
      var id, rest := ids[0], ids[1..];
      TurnMarks(turns(id));
      ReachedFromFront(ids, turns);
      if Stops(turns(id)) {
        DeliveredFromFront(id, [], turns);
        NoneDelivered(turns);
        assert ids[..1] == [id] + [];
      } else {
        BatchMarks(rest, turns);
        MarksAdd(TurnEvents(turns(id)), BatchEvents(rest, turns));
        var n := Reached(rest, turns);
        assert ids[..n + 1] == [id] + rest[..n];
        DeliveredFromFront(id, rest[..n], turns);
      }
    }
  }

  lemma OnlyFinish(turns: Id -> Turn)
    ensures Marks([Finish]) == 0 && Reached([], turns) == 0 && Delivered([], turns) == 0
  {
  }

  lemma NoneDelivered(turns: Id -> Turn)
    ensures Delivered([], turns) == 0
  {
  }

  /**
   * A call of the idle processor is a run of the protocol that the processor can make and that ends idle: the
   * collection afterwards is the one that run leads to, and as many entries are known to be published as marks were
   * acknowledged.
   */
  lemma CallIsRun(maxRetries: int, s: State, answer: Option<seq<Id>>, turns: Id -> Turn)
    requires s.phase.Idle? && (answer.Some? ==> IsBatch(maxRetries, s.db, answer.value))
    ensures var es := CallEvents(answer, turns);
            && Possible(maxRetries, s, es) && RunAll(maxRetries, s, es).phase == Idle
            && RunAll(maxRetries, s, es).db ==
               (if answer.None? then s.db else Advance(s.db, answer.value[..Reached(answer.value, turns)], turns))
            && Marks(es) ==
               if answer.None? then 0 else Delivered(answer.value[..Reached(answer.value, turns)], turns)
  {
    hide Leads, Advance, Reached, Delivered, Possible, RunAll, Marks, BatchEvents, IsBatch;
    var es, s1 := CallEvents(answer, turns), Step(maxRetries, s, Tick);
    CallMarks(answer, turns);
    if answer.None? {
      LeadsOne(maxRetries, s1, QueryFailed);
      LeadsFirst(maxRetries, s, Tick, [QueryFailed], Step(maxRetries, s1, QueryFailed));
      LeadsThere(maxRetries, s, es, Step(maxRetries, s1, QueryFailed));
    } else {
      var pending := answer.value;
      var s2 := Step(maxRetries, s1, QueryOk(pending));
      InBatch(maxRetries, s.db, pending);
      var s3 := BatchLeads(maxRetries, s2, pending, turns);
      var rest := BatchEvents(pending, turns);
      LeadsFirst(maxRetries, s1, QueryOk(pending), rest, s3);
      LeadsFirst(maxRetries, s, Tick, [QueryOk(pending)] + rest, s3);
      LeadsThere(maxRetries, s, es, s3);
    }
  }

  lemma InBatch(maxRetries: int, db: Collection, batch: seq<Id>)
    requires IsBatch(maxRetries, db, batch)
    ensures Distinct(batch) && forall id :: id in batch ==> id in db
  {
  }

  lemma CallMarks(answer: Option<seq<Id>>, turns: Id -> Turn)
    ensures Marks(CallEvents(answer, turns)) ==
            if answer.None? then 0 else Delivered(answer.value[..Reached(answer.value, turns)], turns)
  {
    hide Marks, Delivered, Reached, BatchEvents;
    OneMark(Tick);
    if answer.None? {
      OneMark(QueryFailed);
      MarksAdd([Tick], [QueryFailed]);
    } else {
      var rest := BatchEvents(answer.value, turns);
      OneMark(QueryOk(answer.value));
      BatchMarks(answer.value, turns);
      MarksAdd([QueryOk(answer.value)], rest);
      MarksAdd([Tick], [QueryOk(answer.value)] + rest);
    }
  }
}
