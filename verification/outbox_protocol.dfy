/** The outbox processor step by step, with inserts, failures and crashes between any two steps. */
module OutboxProtocol {
  import opened Common
  import opened Outbox

  /** Where the processor stands; it waits for somebody else in every phase but `Idle` and `Ready`. */
  datatype Phase =
    | Idle
    | Querying
    | Ready(rest: seq<Id>)
    | Emitting(current: Id, rest: seq<Id>)
    | Marking(current: Id, rest: seq<Id>)     // the event was emitted, the entry is being marked
    | Bumping(current: Id, rest: seq<Id>)     // something failed, the retry counter is being raised

  /**
   * `emits`, `delivered`, `aborted` and `unheard` count what happened to each entry: emits begun and completed, batches
   * that ended while it was being worked on, updates that were applied while their answer was lost. Nothing reads them.
   */
  datatype State = State(
    db: Collection, phase: Phase,
    emits: multiset<Id>, delivered: multiset<Id>, aborted: multiset<Id>, unheard: multiset<Id>)

  datatype Event =
    | Insert(id: Id, now: int)
    | Tick                        // the poll timer fires
    | QueryOk(batch: seq<Id>)
    | QueryFailed
    | Emit
    | EmitOk
    | EmitFailed
    | MarkOk
    | MarkUnheard                 // the update is applied, but its answer is lost
    | MarkFailed
    | BumpOk
    | BumpUnheard
    | BumpFailed
    | Finish
    | Crash                       // the process stops and is started again

  predicate HasCurrent(p: Phase) {
    p.Emitting? || p.Marking? || p.Bumping?
  }

  function Abort(s: State): State {
    s.(phase := Idle, aborted := if HasCurrent(s.phase) then s.aborted + multiset{s.phase.current} else s.aborted)
  }

  /** The `processing` flag of the source. */
  predicate Processing(s: State) {
    !s.phase.Idle?
  }

  ghost predicate Enabled(maxRetries: int, s: State, e: Event) {
    match e
    case Insert(id, _) => id !in s.db
    case Tick => true
    case QueryOk(batch) => s.phase.Querying? && IsBatch(maxRetries, s.db, batch)
    case QueryFailed => s.phase.Querying?
    case Emit => s.phase.Ready? && s.phase.rest != []
    case EmitOk => s.phase.Emitting?
    case EmitFailed => s.phase.Emitting?
    case MarkOk => s.phase.Marking? && s.phase.current in s.db
    case MarkUnheard => s.phase.Marking? && s.phase.current in s.db
    case MarkFailed => s.phase.Marking?
    case BumpOk => s.phase.Bumping? && s.phase.current in s.db
    case BumpUnheard => s.phase.Bumping? && s.phase.current in s.db
    case BumpFailed => s.phase.Bumping?
    case Finish => s.phase.Ready? && s.phase.rest == []
    case Crash => true
  }

  function Marked(db: Collection, id: Id): Collection
    requires id in db
  {
    db[id := db[id].(published := true)]
  }

  function Bumped(db: Collection, id: Id): Collection
    requires id in db
  {
    db[id := db[id].(retryCount := db[id].retryCount + 1)]
  }

  ghost function Step(maxRetries: int, s: State, e: Event): State
    requires Enabled(maxRetries, s, e)
  {
    match e
    case Insert(id, now) => s.(db := s.db[id := Entry(now, false, 0)])
    case Tick => if Processing(s) then s else s.(phase := Querying)
    case QueryOk(batch) => s.(phase := Ready(batch))
    case QueryFailed => s.(phase := Idle)
    case Emit => s.(phase := Emitting(s.phase.rest[0], s.phase.rest[1..]), emits := s.emits + multiset{s.phase.rest[0]})
    case EmitOk =>
      s.(phase := Marking(s.phase.current, s.phase.rest), delivered := s.delivered + multiset{s.phase.current})
    case EmitFailed => s.(phase := Bumping(s.phase.current, s.phase.rest))
    case MarkOk => s.(db := Marked(s.db, s.phase.current), phase := Ready(s.phase.rest))
    case MarkUnheard =>
      var id := s.phase.current;
      s.(db := Marked(s.db, id), phase := Bumping(id, s.phase.rest), unheard := s.unheard + multiset{id})
    case MarkFailed => s.(phase := Bumping(s.phase.current, s.phase.rest))
    case BumpOk => s.(db := Bumped(s.db, s.phase.current), phase := Ready(s.phase.rest))
    case BumpUnheard => Abort(s.(db := Bumped(s.db, s.phase.current), unheard := s.unheard + multiset{s.phase.current}))
    case BumpFailed => Abort(s)
    case Finish => s.(phase := Idle)
    case Crash => Abort(s)
  }

  ghost function RunAll(maxRetries: int, s: State, es: seq<Event>): State
    requires Possible(maxRetries, s, es)
    decreases |es|
  {
    if es == [] then s else RunAll(maxRetries, Step(maxRetries, s, es[0]), es[1..])
  }

  ghost predicate Possible(maxRetries: int, s: State, es: seq<Event>)
    decreases |es|
  {
    es == [] || (Enabled(maxRetries, s, es[0]) && Possible(maxRetries, Step(maxRetries, s, es[0]), es[1..]))
  }

  const START := State(map[], Idle, multiset{}, multiset{}, multiset{}, multiset{})

  // ----- The invariant -----

  /** The entries the active batch still has to do, the one being worked on first. */
  ghost function Todo(p: Phase): seq<Id> {
    match p
    case Idle => []
    case Querying => []
    case Ready(rest) => rest
    case Emitting(current, rest) => [current] + rest
    case Marking(current, rest) => [current] + rest
    case Bumping(current, rest) => [current] + rest
  }

  /** The counter of this entry is being raised. */
  predicate IsBumping(p: Phase, id: Id) {
    p.Bumping? && p.current == id
  }

  /** Where the emits of one entry went; an update whose answer is lost makes one emit show up twice. */
  ghost predicate Accounted(s: State, id: Id) {
    var current := if HasCurrent(s.phase) && s.phase.current == id then 1 else 0;
    if id in s.db then
      s.emits[id] + s.unheard[id] ==
      s.db[id].retryCount + (if s.db[id].published then 1 else 0) + s.aborted[id] + current
    else
      s.emits[id] == 0 && s.unheard[id] == 0 && s.aborted[id] == 0 && current == 0
  }

  ghost predicate Sound(maxRetries: int, e: Entry, delivered: nat) {
    && (e.published ==> delivered >= 1)
    && (e.retryCount == 0 || e.retryCount <= maxRetries)
  }

  /** What is still to do has retries left, and is unpublished unless its mark went through unheard. */
  ghost predicate Workable(maxRetries: int, s: State, id: Id) {
    id in s.db && s.db[id].retryCount < maxRetries && (s.db[id].published ==> IsBumping(s.phase, id))
  }

  ghost predicate Inv(maxRetries: int, s: State) {
    && Distinct(Todo(s.phase))
    && (forall id :: id in Todo(s.phase) ==> Workable(maxRetries, s, id))
    && (forall id :: id in s.db ==> Sound(maxRetries, s.db[id], s.delivered[id]))
    && (s.phase.Marking? || s.phase.Bumping? ==>
          s.phase.current in s.db && (s.phase.Marking? ==> s.delivered[s.phase.current] >= 1))
    && (forall id :: Accounted(s, id))
  }

  /** Published or dead-lettered, and its counter is not being raised. */
  ghost predicate Final(maxRetries: int, s: State, id: Id) {
    id in s.db && (s.db[id].published || DeadLettered(maxRetries, s.db[id])) && !IsBumping(s.phase, id)
  }

  /**
   * What happens to one entry: it is never lost, never changes its age, stays published, and final ones stay as they
   * are.
   */
  ghost predicate Kept(maxRetries: int, s: State, s': State, id: Id)
    requires id in s.db
  {
    && id in s'.db
    && s'.db[id].createdAt == s.db[id].createdAt && s.db[id].retryCount <= s'.db[id].retryCount
    && (s.db[id].published ==> s'.db[id].published)
    && (Final(maxRetries, s, id) ==> Final(maxRetries, s', id) && s'.db[id] == s.db[id])
  }

  ghost predicate Preserves(maxRetries: int, s: State, s': State) {
    forall id :: id in s.db ==> Kept(maxRetries, s, s', id)
  }

  lemma TodoShrinks(maxRetries: int, s: State, e: Event)
    requires Inv(maxRetries, s) && Enabled(maxRetries, s, e)
    ensures Distinct(Todo(Step(maxRetries, s, e).phase))
  {
    hide Accounted, Sound, Workable;
    if HasCurrent(s.phase) {
      var todo := Todo(s.phase);
      assert todo[0] == s.phase.current && todo[1..] == s.phase.rest;
    }
    if e.Emit? {
      assert [s.phase.rest[0]] + s.phase.rest[1..] == s.phase.rest;
    }
  }

  lemma TodoStaysWorkable(maxRetries: int, s: State, e: Event)
    requires Inv(maxRetries, s) && Enabled(maxRetries, s, e)
    ensures var s' := Step(maxRetries, s, e); forall id :: id in Todo(s'.phase) ==> Workable(maxRetries, s', id)
  {
    hide Accounted, Sound;
    if HasCurrent(s.phase) {
      var todo := Todo(s.phase);
      assert todo[0] == s.phase.current && todo[1..] == s.phase.rest;
      assert forall id :: id in s.phase.rest ==> id in todo && id != s.phase.current;
    }
    if e.Emit? {
      assert [s.phase.rest[0]] + s.phase.rest[1..] == s.phase.rest;
    }
  }

  lemma AccountsBalance(maxRetries: int, s: State, e: Event)
    requires Inv(maxRetries, s) && Enabled(maxRetries, s, e)
    ensures forall id :: Accounted(Step(maxRetries, s, e), id)
  {
    hide Sound, Distinct, IsBatch;
    var s' := Step(maxRetries, s, e);
    if HasCurrent(s.phase) {
      assert s.phase.current in Todo(s.phase);
    }
    if e.Emit? {
      assert s.phase.rest[0] in Todo(s.phase);
    }
    forall id
      ensures Accounted(s', id)
    {
      assert Accounted(s, id);
    }
  }

  lemma StepKeepsSound(maxRetries: int, s: State, e: Event)
    requires Inv(maxRetries, s) && Enabled(maxRetries, s, e)
    ensures var s' := Step(maxRetries, s, e);
            && (forall id :: id in s'.db ==> Sound(maxRetries, s'.db[id], s'.delivered[id]))
            && (s'.phase.Marking? || s'.phase.Bumping? ==>
                  s'.phase.current in s'.db && (s'.phase.Marking? ==> s'.delivered[s'.phase.current] >= 1))
  {
    hide Accounted, Distinct, IsBatch;
    if HasCurrent(s.phase) {
      assert s.phase.current in Todo(s.phase);
    }
  }

  lemma StepKeepsEntries(maxRetries: int, s: State, e: Event)
    requires Inv(maxRetries, s) && Enabled(maxRetries, s, e)
    ensures Preserves(maxRetries, s, Step(maxRetries, s, e))
  {
    hide Accounted, Distinct, IsBatch, Sound;
    if HasCurrent(s.phase) {
      assert s.phase.current in Todo(s.phase);
    }
  }

  lemma StepKeepsInv(maxRetries: int, s: State, e: Event)
    requires Inv(maxRetries, s) && Enabled(maxRetries, s, e)
    ensures Inv(maxRetries, Step(maxRetries, s, e))
    ensures Preserves(maxRetries, s, Step(maxRetries, s, e))
  {
    hide Step, Accounted, Distinct, Sound, Workable, Kept, Enabled;
    TodoShrinks(maxRetries, s, e);
    TodoStaysWorkable(maxRetries, s, e);
    AccountsBalance(maxRetries, s, e);
    StepKeepsSound(maxRetries, s, e);
    StepKeepsEntries(maxRetries, s, e);
  }

  lemma PreservesTrans(maxRetries: int, s: State, t: State, u: State)
    requires Preserves(maxRetries, s, t) && Preserves(maxRetries, t, u)
    ensures Preserves(maxRetries, s, u)
  {
    forall id | id in s.db
      ensures Kept(maxRetries, s, u, id)
    {
      assert Kept(maxRetries, s, t, id) && Kept(maxRetries, t, u, id);
    }
  }

  lemma {:induction false} RunKeepsInv(maxRetries: int, s: State, es: seq<Event>)
    requires Inv(maxRetries, s) && Possible(maxRetries, s, es)
    ensures Inv(maxRetries, RunAll(maxRetries, s, es))
    ensures Preserves(maxRetries, s, RunAll(maxRetries, s, es))
    decreases |es|
  {
    hide Inv, Preserves;
    if es != [] {
      var s1 := Step(maxRetries, s, es[0]);
      StepKeepsInv(maxRetries, s, es[0]);
      RunKeepsInv(maxRetries, s1, es[1..]);
      PreservesTrans(maxRetries, s, s1, RunAll(maxRetries, s, es));
    } else {
      PreservesSelf(maxRetries, s);
    }
  }

  lemma PreservesSelf(maxRetries: int, s: State)
    ensures Preserves(maxRetries, s, s)
  {
  }

  // ----- Main results -----

  /**
   * Whatever fails or crashes: an entry that is marked was delivered at least once, the retry counter stays within
   * its limit, and every emit is accounted for by the counter, the mark, an aborted batch or the work in progress,
   * once, or once more for each update whose answer was lost.
   */
  lemma Conservation(maxRetries: int, es: seq<Event>, id: Id)
    requires Possible(maxRetries, START, es)
    ensures var s := RunAll(maxRetries, START, es);
            id in s.db ==>
              && (s.db[id].published ==> s.delivered[id] >= 1)
              && (s.db[id].retryCount == 0 || s.db[id].retryCount <= maxRetries)
              && s.emits[id] + s.unheard[id] ==
                 s.db[id].retryCount + (if s.db[id].published then 1 else 0) + s.aborted[id]
                 + (if HasCurrent(s.phase) && s.phase.current == id then 1 else 0)
    ensures var s := RunAll(maxRetries, START, es);
            id !in s.db ==> s.emits[id] == 0
  {
    StartInv(maxRetries);
    RunKeepsInv(maxRetries, START, es);
    assert Accounted(RunAll(maxRetries, START, es), id);
  }

  lemma StartInv(maxRetries: int)
    ensures Inv(maxRetries, START)
  {
  }

  lemma {:induction false} RunsCompose(maxRetries: int, s: State, es: seq<Event>, fs: seq<Event>)
    requires Possible(maxRetries, s, es + fs)
    ensures Possible(maxRetries, s, es)
    ensures Possible(maxRetries, RunAll(maxRetries, s, es), fs)
    ensures RunAll(maxRetries, s, es + fs) == RunAll(maxRetries, RunAll(maxRetries, s, es), fs)
    decreases |es|
  {
    if es == [] {
      assert es + fs == fs;
    } else {
      assert (es + fs)[1..] == es[1..] + fs;
      RunsCompose(maxRetries, Step(maxRetries, s, es[0]), es[1..], fs);
    }
  }

  /**
   * No entry is ever lost or unpublished, and a published or dead-lettered one stays exactly as it is, unless its mark
   * was applied unheard and its counter is just being raised.
   */
  lemma NothingIsLost(maxRetries: int, es: seq<Event>, fs: seq<Event>, id: Id)
    requires Possible(maxRetries, START, es + fs)
    ensures Possible(maxRetries, START, es)
    ensures var s, s' := RunAll(maxRetries, START, es), RunAll(maxRetries, START, es + fs);
            id in s.db ==>
              && id in s'.db
              && s'.db[id].createdAt == s.db[id].createdAt && s.db[id].retryCount <= s'.db[id].retryCount
              && (s.db[id].published ==> s'.db[id].published)
              && ((s.db[id].published || DeadLettered(maxRetries, s.db[id])) && !IsBumping(s.phase, id)
                  ==> s'.db[id] == s.db[id])
  {
    StartInv(maxRetries);
    RunsCompose(maxRetries, START, es, fs);
    RunKeepsInv(maxRetries, START, es);
    var s := RunAll(maxRetries, START, es);
    RunKeepsInv(maxRetries, s, fs);
    assert id in s.db ==> Kept(maxRetries, s, RunAll(maxRetries, s, fs), id);
  }

  // ----- A batch without aborts is one poll -----

  /** The batch is done up to position `k`; the entry there may have been marked unheard. */
  ghost predicate MidPoll(db0: Collection, batch: seq<Id>, s: State, k: nat) {
    && k <= |batch| && Todo(s.phase) == batch[k..]
    && db0.Keys <= s.db.Keys
    && forall id :: id in db0 ==>
                      if id in batch[..k] then Attempted(db0[id], s.db[id])
                      else s.db[id] == db0[id] || (IsBumping(s.phase, id) && s.db[id] == db0[id].(published := true))
  }

  ghost predicate Reliable(e: Event) {
    !e.Crash? && !e.BumpFailed? && !e.BumpUnheard? && !e.QueryOk?
  }

  lemma DoneIsAttempted(maxRetries: int, db0: Collection, batch: seq<Id>, s: State, k: nat, e: Event)
    requires MidPoll(db0, batch, s, k) && Enabled(maxRetries, s, e) && (e.MarkOk? || e.BumpOk?)
    requires s.phase.current in db0 && s.phase.current !in batch[..k]
    ensures s.phase.current in Step(maxRetries, s, e).db
    ensures Attempted(db0[s.phase.current], Step(maxRetries, s, e).db[s.phase.current])
  {
  }

  lemma MidPollStep(maxRetries: int, db0: Collection, batch: seq<Id>, s: State, k: nat, e: Event) returns (k': nat)
    requires Distinct(batch) && (forall id :: id in batch ==> id in db0)
    requires MidPoll(db0, batch, s, k) && Enabled(maxRetries, s, e) && Reliable(e)
    ensures MidPoll(db0, batch, Step(maxRetries, s, e), k')
  {
    hide IsBatch, Attempted;
    var s' := Step(maxRetries, s, e);
    k' := k;
    if HasCurrent(s.phase) {
      assert Todo(s.phase)[0] == s.phase.current && Todo(s.phase)[1..] == s.phase.rest;
      assert batch[k] == s.phase.current && batch[k] !in batch[..k];
    }
    if e.MarkOk? || e.BumpOk? {
      k' := k + 1;
      DoneIsAttempted(maxRetries, db0, batch, s, k, e);
      assert batch[..k'] == batch[..k] + [batch[k]];
      assert Todo(s'.phase) == batch[k..][1..] == batch[k'..];
    } else if e.Emit? {
      assert [s.phase.rest[0]] + s.phase.rest[1..] == s.phase.rest;
    }
  }

  lemma {:induction false} MidPollRun(maxRetries: int, db0: Collection, batch: seq<Id>, s: State, k: nat,
                                      es: seq<Event>)
    returns (k': nat)
    requires Distinct(batch) && (forall id :: id in batch ==> id in db0)
    requires MidPoll(db0, batch, s, k) && Possible(maxRetries, s, es) && (forall e :: e in es ==> Reliable(e))
    ensures MidPoll(db0, batch, RunAll(maxRetries, s, es), k')
    decreases |es|
  {
    if es == [] {
      k' := k;
    } else {
      var k1 := MidPollStep(maxRetries, db0, batch, s, k, es[0]);
      k' := MidPollRun(maxRetries, db0, batch, Step(maxRetries, s, es[0]), k1, es[1..]);
    }
  }

  /**
   * From an answered query until the processor has nothing left to do, with inserts, ticks and failures of emits
   * and of marks in between but no crash and every counter update acknowledged, the collection makes exactly one poll.
   */
  lemma BatchIsPoll(maxRetries: int, s: State, batch: seq<Id>, es: seq<Event>)
    requires s.phase.Querying? && Possible(maxRetries, s, [QueryOk(batch)] + es)
    requires forall e :: e in es ==> Reliable(e)
    requires Todo(RunAll(maxRetries, s, [QueryOk(batch)] + es).phase) == []
    ensures Poll(maxRetries, s.db, batch, RunAll(maxRetries, s, [QueryOk(batch)] + es).db)
  {
    assert ([QueryOk(batch)] + es)[0] == QueryOk(batch) && ([QueryOk(batch)] + es)[1..] == es;
    var s1 := Step(maxRetries, s, QueryOk(batch));
    assert batch[0..] == batch && batch[..0] == [];
    var k := MidPollRun(maxRetries, s.db, batch, s1, 0, es);
    assert batch[k..] == [] && batch[..k] == batch;
  }
}
