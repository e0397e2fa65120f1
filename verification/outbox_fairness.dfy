/** How long the outbox protocol can keep a pending entry waiting, whatever fails or crashes. */
module OutboxFairness {
  import opened Common
  import opened Outbox
  import opened OutboxProtocol

  /** How many queries were answered. */
  function Answers(es: seq<Event>): nat {
    if es == [] then 0 else (if es[0].QueryOk? then 1 else 0) + Answers(es[1..])
  }

  /** The process stopped, or the error of a counter update ended the batch. */
  predicate IsAbort(e: Event) {
    e.Crash? || e.BumpFailed? || e.BumpUnheard?
  }

  function Aborts(es: seq<Event>): nat {
    if es == [] then 0 else (if IsAbort(es[0]) then 1 else 0) + Aborts(es[1..])
  }

  /** Entries that are added are newer than this. */
  predicate InsertsNewer(es: seq<Event>, createdAt: int) {
    forall e :: e in es && e.Insert? ==> e.now > createdAt
  }

  ghost predicate Picked(es: seq<Event>, id: Id) {
    exists e :: e in es && e.QueryOk? && id in e.batch
  }

  /** The entries of the active batch that can still lose retries. */
  ghost function Work(s: State): nat
    requires s.phase.Bumping? ==> s.phase.current in s.db
  {
    if s.phase.Bumping? && s.db[s.phase.current].published then |s.phase.rest| else |Todo(s.phase)|
  }

  /**
   * As long as `e` is not picked: it stays as it was, the pending entries at least as old come from `s0`, so does the
   * active batch, and what retries they have left is covered by the budget and the active batch.
   */
  ghost predicate Waiting(maxRetries: int, s: State, e: Id, entry: Entry, rivals: set<Id>, budget: int) {
    && e in s.db && s.db[e] == entry && e !in Todo(s.phase)
    && rivals <= s.db.Keys && Rivals(maxRetries, s.db, e) <= rivals
    && (forall id :: id in Todo(s.phase) ==> id in rivals)
    && |Todo(s.phase)| <= BATCH_LIMIT
    && (s.phase.Bumping? ==> s.phase.current in s.db)
    && Potential(maxRetries, s.db, rivals) <= budget + Work(s)
  }

  function Spent(e: Event): int {
    if e.QueryOk? then BATCH_LIMIT else if IsAbort(e) then 0 - BATCH_LIMIT else 0
  }

  lemma PotentialAgrees(maxRetries: int, db: Collection, db': Collection, s: set<Id>)
    requires forall id :: id in s ==> Left(maxRetries, db', id) == Left(maxRetries, db, id)
    ensures Potential(maxRetries, db', s) == Potential(maxRetries, db, s)
  {
    PotentialDrops(maxRetries, db, db', s, {});
    PotentialDrops(maxRetries, db', db, s, {});
  }

  /** Marking a rival, or raising its counter, uses up some of what it has left, if it has any. */
  lemma UpdateUsesPotential(maxRetries: int, db: Collection, db': Collection, s: set<Id>, id: Id)
    requires id in db && id in s && (db' == Marked(db, id) || db' == Bumped(db, id))
    ensures Potential(maxRetries, db', s) + (if Pending(maxRetries, db[id]) then 1 else 0) <=
            Potential(maxRetries, db, s)
  {
    PotentialDrops(maxRetries, db, db', s, if Pending(maxRetries, db[id]) then {id} else {});
  }

  /** A batch that skips `e` is full of rivals. */
  lemma SkippedIsFull(maxRetries: int, s: State, e: Id, entry: Entry, rivals: set<Id>, budget: int, batch: seq<Id>)
    requires Waiting(maxRetries, s, e, entry, rivals, budget) && Pending(maxRetries, entry)
    requires s.phase.Querying? && IsBatch(maxRetries, s.db, batch) && e !in batch
    ensures Waiting(maxRetries, Step(maxRetries, s, QueryOk(batch)), e, entry, rivals, budget - BATCH_LIMIT)
  {
    assert forall id :: id in batch ==> id in Rivals(maxRetries, s.db, e);
    hide Potential, Rivals;
  }

  /** The phase moves on and the collection stays. */
  lemma MovesOn(maxRetries: int, s: State, ev: Event, e: Id, entry: Entry, rivals: set<Id>, budget: int)
    requires OutboxProtocol.Inv(maxRetries, s) && Enabled(maxRetries, s, ev)
    requires Waiting(maxRetries, s, e, entry, rivals, budget)
    requires !ev.QueryOk? && !IsAbort(ev) && Step(maxRetries, s, ev).db == s.db
    ensures Waiting(maxRetries, Step(maxRetries, s, ev), e, entry, rivals, budget)
  {
    hide Potential, Rivals, Accounted, Sound, Distinct, IsBatch;
    if HasCurrent(s.phase) {
      assert s.phase.current in Todo(s.phase);
    }
    if ev.Emit? {
      assert [s.phase.rest[0]] + s.phase.rest[1..] == s.phase.rest;
    }
  }

  lemma RivalsShrink(maxRetries: int, db: Collection, db': Collection, e: Id, id: Id)
    requires e in db && id in db && e != id && (db' == Marked(db, id) || db' == Bumped(db, id))
    ensures Rivals(maxRetries, db', e) <= Rivals(maxRetries, db, e)
  {
  }

  /** An update of the active batch. */
  lemma Updates(maxRetries: int, s: State, ev: Event, e: Id, entry: Entry, rivals: set<Id>, budget: int)
    requires OutboxProtocol.Inv(maxRetries, s) && Enabled(maxRetries, s, ev)
    requires Waiting(maxRetries, s, e, entry, rivals, budget)
    requires ev.MarkOk? || ev.MarkUnheard? || ev.BumpOk?
    ensures Waiting(maxRetries, Step(maxRetries, s, ev), e, entry, rivals, budget)
  {
    hide Potential, Rivals, Accounted, Sound, Distinct, IsBatch;
    var id, s' := s.phase.current, Step(maxRetries, s, ev);
    assert Todo(s.phase) == [id] + s.phase.rest;
    assert id in Todo(s.phase) && Workable(maxRetries, s, id);
    UpdateUsesPotential(maxRetries, s.db, s'.db, rivals, id);
    RivalsShrink(maxRetries, s.db, s'.db, e, id);
  }

  lemma AbortsKeep(maxRetries: int, s: State, ev: Event, e: Id, entry: Entry, rivals: set<Id>, budget: int)
    requires OutboxProtocol.Inv(maxRetries, s) && Enabled(maxRetries, s, ev)
    requires Waiting(maxRetries, s, e, entry, rivals, budget) && IsAbort(ev)
    ensures Waiting(maxRetries, Step(maxRetries, s, ev), e, entry, rivals, budget + BATCH_LIMIT)
  {
    hide Potential, Rivals, Accounted, Sound, Distinct, IsBatch;
    if ev.BumpUnheard? {
      var id, s' := s.phase.current, Step(maxRetries, s, ev);
      assert id in Todo(s.phase);
      UpdateUsesPotential(maxRetries, s.db, s'.db, rivals, id);
      RivalsShrink(maxRetries, s.db, s'.db, e, id);
    }
  }

  lemma InsertKeeps(maxRetries: int, s: State, ev: Event, e: Id, entry: Entry, rivals: set<Id>, budget: int)
    requires OutboxProtocol.Inv(maxRetries, s) && Enabled(maxRetries, s, ev)
    requires Waiting(maxRetries, s, e, entry, rivals, budget) && ev.Insert? && ev.now > entry.createdAt
    ensures Waiting(maxRetries, Step(maxRetries, s, ev), e, entry, rivals, budget)
  {
    hide Potential, Accounted, Sound, Distinct, IsBatch;
    PotentialAgrees(maxRetries, s.db, Step(maxRetries, s, ev).db, rivals);
  }

  lemma StepKeepsWaiting(maxRetries: int, s: State, ev: Event, e: Id, entry: Entry, rivals: set<Id>, budget: int)
    requires OutboxProtocol.Inv(maxRetries, s) && Enabled(maxRetries, s, ev)
    requires Waiting(maxRetries, s, e, entry, rivals, budget) && Pending(maxRetries, entry)
    requires ev.QueryOk? ==> e !in ev.batch
    requires ev.Insert? ==> ev.now > entry.createdAt
    ensures Waiting(maxRetries, Step(maxRetries, s, ev), e, entry, rivals, budget - Spent(ev))
  {
    if ev.QueryOk? {
      SkippedIsFull(maxRetries, s, e, entry, rivals, budget, ev.batch);
    } else if IsAbort(ev) {
      AbortsKeep(maxRetries, s, ev, e, entry, rivals, budget);
    } else if ev.Insert? {
      InsertKeeps(maxRetries, s, ev, e, entry, rivals, budget);
    } else if ev.MarkOk? || ev.MarkUnheard? || ev.BumpOk? {
      Updates(maxRetries, s, ev, e, entry, rivals, budget);
    } else {
      MovesOn(maxRetries, s, ev, e, entry, rivals, budget);
    }
  }

  /** Distinct entries with something left have at least as much left together. */
  lemma WorkIsLeft(maxRetries: int, s: State, e: Id, entry: Entry, rivals: set<Id>, budget: int)
    requires OutboxProtocol.Inv(maxRetries, s) && Waiting(maxRetries, s, e, entry, rivals, budget)
    ensures Work(s) <= Potential(maxRetries, s.db, rivals)
  {
    var todo := if s.phase.Bumping? && s.db[s.phase.current].published then s.phase.rest else Todo(s.phase);
    if s.phase.Bumping? {
      assert Todo(s.phase)[0] == s.phase.current && Todo(s.phase)[1..] == s.phase.rest;
    }
    assert Distinct(todo);
    DistinctSize(todo);
    forall id | id in Elements(todo)
      ensures Left(maxRetries, map[], id) < Left(maxRetries, s.db, id)
    {
      assert id in Todo(s.phase) && Workable(maxRetries, s, id);
      if s.phase.Bumping? && s.db[s.phase.current].published {
        assert id != s.phase.current;
      }
    }
    PotentialDrops(maxRetries, s.db, map[], rivals, Elements(todo));
  }

  lemma {:induction false} RunKeepsWaiting(maxRetries: int, s: State, es: seq<Event>, e: Id, entry: Entry,
                                           rivals: set<Id>, budget: int)
    requires OutboxProtocol.Inv(maxRetries, s) && Possible(maxRetries, s, es)
    requires Waiting(maxRetries, s, e, entry, rivals, budget) && Pending(maxRetries, entry)
    requires !Picked(es, e) && InsertsNewer(es, entry.createdAt)
    ensures Answers(es) * BATCH_LIMIT <= budget + Aborts(es) * BATCH_LIMIT
    decreases |es|
  {
    if es == [] {
      WorkIsLeft(maxRetries, s, e, entry, rivals, budget);
    } else {
      assert forall x :: x in es[1..] ==> x in es;
      assert es[0] in es;
      hide Waiting, OutboxProtocol.Inv, Step, Enabled;
      StepKeepsWaiting(maxRetries, s, es[0], e, entry, rivals, budget);
      OutboxProtocol.StepKeepsInv(maxRetries, s, es[0]);
      RunKeepsWaiting(maxRetries, Step(maxRetries, s, es[0]), es[1..], e, entry, rivals, budget - Spent(es[0]));
    }
  }

  /**
   * Starvation bound over runs of the protocol: a pending entry with `k` other pending entries at least as old is
   * picked by one of the next `k * maxRetries / 100 + a + 1` answered queries, where `a` is the number of crashes and
   * of counter updates that end in an error, whatever else fails and whatever newer entries are added.
   */
  lemma PickedInTime(maxRetries: int, start: seq<Event>, es: seq<Event>, e: Id)
    requires Possible(maxRetries, START, start) && Possible(maxRetries, RunAll(maxRetries, START, start), es)
    requires var s := RunAll(maxRetries, START, start);
             && Todo(s.phase) == [] && e in s.db && Pending(maxRetries, s.db[e])
             && InsertsNewer(es, s.db[e].createdAt)
             && Answers(es) >= |Rivals(maxRetries, s.db, e)| * maxRetries / BATCH_LIMIT + Aborts(es) + 1
    ensures Picked(es, e)
  {
    var s := RunAll(maxRetries, START, start);
    var rivals := Rivals(maxRetries, s.db, e);
    StartInv(maxRetries);
    RunKeepsInv(maxRetries, START, start);
    PotentialIsBounded(maxRetries, s.db, rivals);
    if !Picked(es, e) {
      RunKeepsWaiting(maxRetries, s, es, e, s.db[e], rivals, |rivals| * maxRetries);
    }
  }
}
