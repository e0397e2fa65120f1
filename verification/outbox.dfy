/** The outbox collection, the processor that polls it, and how fast it gets through. */
module Outbox {
  import opened Common

  type Id = nat

  datatype Entry = Entry(createdAt: int, published: bool, retryCount: nat)

  type Collection = map<Id, Entry>

  const BATCH_LIMIT: nat := 100

  predicate Pending(maxRetries: int, e: Entry) {
    !e.published && e.retryCount < maxRetries
  }

  predicate DeadLettered(maxRetries: int, e: Entry) {
    !e.published && e.retryCount >= maxRetries
  }

  /** What the query may answer: the oldest pending entries, at most `BATCH_LIMIT`, oldest first; ties in any order. */
  ghost predicate IsBatch(maxRetries: int, db: Collection, batch: seq<Id>) {
    && |batch| <= BATCH_LIMIT && Distinct(batch)
    && (forall id :: id in batch ==> id in db && Pending(maxRetries, db[id]))
    && (forall i, j :: 0 <= i < j < |batch| ==> db[batch[i]].createdAt <= db[batch[j]].createdAt)
    && (forall id, b :: id in db && Pending(maxRetries, db[id]) && id !in batch && b in batch ==>
                          db[b].createdAt <= db[id].createdAt)
    && (forall id :: id in db && Pending(maxRetries, db[id]) && id !in batch ==> |batch| == BATCH_LIMIT)
  }

  // ----- The query always has an answer -----

  lemma Oldest(db: Collection, s: set<Id>) returns (x: Id)
    requires s != {} && s <= db.Keys
    ensures x in s && forall y :: y in s ==> db[x].createdAt <= db[y].createdAt
  {
    var a :| a in s;
    var rest := s - {a};
    if rest == {} {
      x := a;
      assert s == {a};
    } else {
      var y := Oldest(db, rest);
      x := if db[y].createdAt < db[a].createdAt then y else a;
      assert forall z :: z in s ==> z == a || z in rest;
    }
  }

  lemma TakeOldest(db: Collection, s: set<Id>, n: nat) returns (batch: seq<Id>)
    requires s <= db.Keys
    ensures |batch| <= n && Distinct(batch)
    ensures forall id :: id in batch ==> id in s
    ensures forall i, j :: 0 <= i < j < |batch| ==> db[batch[i]].createdAt <= db[batch[j]].createdAt
    ensures forall id, b :: id in s && id !in batch && b in batch ==> db[b].createdAt <= db[id].createdAt
    ensures forall id :: id in s && id !in batch ==> |batch| == n
    decreases n
  {
    batch := [];
    if n > 0 && s != {} {
      var x := Oldest(db, s);
      var rest := TakeOldest(db, s - {x}, n - 1);
      batch := [x] + rest;
    }
  }

  lemma BatchExists(maxRetries: int, db: Collection) returns (batch: seq<Id>)
    ensures IsBatch(maxRetries, db, batch)
  {
    batch := TakeOldest(db, (set id | id in db && Pending(maxRetries, db[id])), BATCH_LIMIT);
  }

  // ----- One poll, and the processor -----

  /** The entry was marked as published, or its retry counter went up, or both. */
  predicate Attempted(e: Entry, e': Entry) {
    && e'.createdAt == e.createdAt
    && (e' == e.(published := true) || e' == e.(retryCount := e.retryCount + 1)
        || e' == e.(published := true, retryCount := e.retryCount + 1))
  }

  /**
   * From one query to the next with every counter update acknowledged: the batch is attempted, all else stays,
   * entries may be added.
   */
  ghost predicate Poll(maxRetries: int, db: Collection, batch: seq<Id>, db': Collection) {
    && IsBatch(maxRetries, db, batch)
    && db.Keys <= db'.Keys
    && forall id :: id in db ==> if id in batch then Attempted(db[id], db'[id]) else db'[id] == db[id]
  }

  /** What becomes of an update: applied and acknowledged, applied while the answer is lost, or not applied. */
  datatype Reply = Acknowledged | Unheard | NotApplied

  /**
   * What happens to one entry: whether its event is emitted, what becomes of the mark that follows, and, where one of
   * the two fails, of raising its counter.
   */
  datatype Turn = Turn(emitted: bool, mark: Reply, raise: Reply)

  /** Without a completed emit the mark is not even tried. */
  function MarkReply(t: Turn): Reply {
    if t.emitted then t.mark else NotApplied
  }

  /** The error of the counter update ends the whole call. */
  predicate Stops(t: Turn) {
    !MarkReply(t).Acknowledged? && !t.raise.Acknowledged?
  }

  class OutboxProcessor {
    const maxRetries: int
    var processing: bool
    var db: Collection

    constructor (maxRetries: int, db: Collection)
      ensures this.maxRetries == maxRetries && this.db == db && !processing
    {
      this.maxRetries, this.db, processing := maxRetries, db, false;
    }

    method PersistToOutbox(id: Id, now: int)
      requires id !in db
      modifies `db
      ensures db == old(db)[id := Entry(now, false, 0)]
    {
      db := db[id := Entry(now, false, 0)];
    }

    /**
     * One call, without interruption. `answer` is the answer of the query, if it succeeds; `turns(id)` says how the
     * updates of an entry end. The result is the number of entries known to be published, or nothing if the call
     * throws.
     */
    method ProcessOutbox(answer: Option<seq<Id>>, turns: Id -> Turn) returns (published: Option<nat>)
      requires !processing && answer.Some? ==> IsBatch(maxRetries, db, answer.value)
      modifies this
      ensures processing == old(processing)
      ensures old(processing) ==> published == Some(0) && db == old(db)
      ensures !old(processing) && answer.None? ==> published == None && db == old(db)
      ensures !old(processing) && answer.Some? ==>
                var pending := answer.value;
                && db == Advance(old(db), pending[..Reached(pending, turns)], turns)
                && (published.Some? <==> forall id :: id in pending ==> !Stops(turns(id)))
                && (published.Some? ==> published.value == Delivered(pending, turns)
                                        && Poll(maxRetries, old(db), pending, db) && db.Keys == old(db).Keys)
    {
      hide IsBatch, Poll, Advance, Delivered, Reached;
      if processing { return Some(0); }
      processing := true;
      if answer.None? {
        processing := false;
        return None;
      }
      var pending := answer.value;
      var count := 0;
      AdvanceNone(db, turns);
      for i := 0 to |pending|
        invariant processing && count == Delivered(pending[..i], turns)
        invariant db == Advance(old(db), pending[..i], turns)
        invariant forall j :: 0 <= j < i ==> !Stops(turns(pending[j]))
      {
        var id := pending[i];
        AdvanceOne(maxRetries, old(db), pending, i, turns);
        var turn := turns(id);
        var marked := false;
        if turn.emitted {
          if !turn.mark.NotApplied? {
            db := db[id := db[id].(published := true)];
          }
          marked := turn.mark.Acknowledged?;
        }
        if marked {
          count := count + 1;
        } else {
          if !turn.raise.NotApplied? {
            db := db[id := db[id].(retryCount := db[id].retryCount + 1)];
          }
          if !turn.raise.Acknowledged? {
            StopsHere(pending, turns, i);
            assert pending[i] in pending;
            processing := false;
            return None;
          }
        }
      }
      assert pending[..|pending|] == pending;
      AllDone(maxRetries, old(db), pending, turns);
      processing := false;
      return Some(count);
    }
  }

  /** An entry after its turn. */
  function AfterTurn(e: Entry, t: Turn): Entry {
    if MarkReply(t).Acknowledged? then e.(published := true)
    else Entry(e.createdAt, e.published || MarkReply(t).Unheard?, e.retryCount + if t.raise.NotApplied? then 0 else 1)
  }

  function Advance(db: Collection, ids: seq<Id>, turns: Id -> Turn): Collection {
    map id | id in db :: if id in ids then AfterTurn(db[id], turns(id)) else db[id]
  }

  /** How many entries of a batch get their turn: all up to the first one that stops it. */
  function Reached(ids: seq<Id>, turns: Id -> Turn): (n: nat)
    ensures n <= |ids| && forall i :: 0 <= i < n - 1 ==> !Stops(turns(ids[i]))
    ensures n < |ids| ==> n > 0 && Stops(turns(ids[n - 1]))
  {
    if ids == [] then 0
    else
      var n := Reached(ids[..|ids| - 1], turns);
      if n < |ids| - 1 || (n > 0 && Stops(turns(ids[n - 1]))) then n else n + 1
  }

  lemma StopsHere(ids: seq<Id>, turns: Id -> Turn, i: nat)
    requires i < |ids| && Stops(turns(ids[i])) && forall j :: 0 <= j < i ==> !Stops(turns(ids[j]))
    ensures Reached(ids, turns) == i + 1
  {
  }

  lemma NothingStops(ids: seq<Id>, turns: Id -> Turn)
    requires forall j :: 0 <= j < |ids| ==> !Stops(turns(ids[j]))
    ensures Reached(ids, turns) == |ids|
  {
  }

  lemma AllDone(maxRetries: int, db: Collection, ids: seq<Id>, turns: Id -> Turn)
    requires IsBatch(maxRetries, db, ids) && forall j :: 0 <= j < |ids| ==> !Stops(turns(ids[j]))
    ensures Reached(ids, turns) == |ids| && forall id :: id in ids ==> !Stops(turns(id))
    ensures Poll(maxRetries, db, ids, Advance(db, ids, turns)) && Advance(db, ids, turns).Keys == db.Keys
  {
    NothingStops(ids, turns);
    AdvanceIsPoll(maxRetries, db, ids, turns);
  }

  lemma AdvanceOne(maxRetries: int, db: Collection, ids: seq<Id>, i: nat, turns: Id -> Turn)
    requires IsBatch(maxRetries, db, ids) && i < |ids|
    ensures ids[i] in db && ids[i] in Advance(db, ids[..i], turns) && Advance(db, ids[..i], turns)[ids[i]] == db[ids[i]]
    ensures Advance(db, ids[..i + 1], turns) ==
            Advance(db, ids[..i], turns)[ids[i] := AfterTurn(db[ids[i]], turns(ids[i]))]
    ensures Delivered(ids[..i + 1], turns) ==
            Delivered(ids[..i], turns) + if MarkReply(turns(ids[i])).Acknowledged? then 1 else 0
  {
    assert ids[..i + 1] == ids[..i] + [ids[i]];
    assert ids[..i + 1][..i] == ids[..i];
    assert ids[i] !in ids[..i];
  }

  lemma AdvanceNone(db: Collection, turns: Id -> Turn)
    ensures Advance(db, [], turns) == db && Delivered([], turns) == 0
  {
  }

  lemma AdvanceIsPoll(maxRetries: int, db: Collection, ids: seq<Id>, turns: Id -> Turn)
    requires IsBatch(maxRetries, db, ids) && forall j :: 0 <= j < |ids| ==> !Stops(turns(ids[j]))
    ensures Poll(maxRetries, db, ids, Advance(db, ids, turns))
    ensures Advance(db, ids, turns).Keys == db.Keys
  {
  }

  /** How many of these entries are known to be published. */
  function Delivered(ids: seq<Id>, turns: Id -> Turn): nat {
    if ids == [] then 0
    else Delivered(ids[..|ids| - 1], turns) + if MarkReply(turns(ids[|ids| - 1])).Acknowledged? then 1 else 0
  }

  // ----- How long an entry can be kept waiting -----

  /** How many more failures an entry can take before it leaves the queue. */
  ghost function Left(maxRetries: int, db: Collection, id: Id): nat {
    if id in db && Pending(maxRetries, db[id]) then maxRetries - db[id].retryCount else 0
  }

  ghost function Potential(maxRetries: int, db: Collection, s: set<Id>): nat {
    if s == {} then 0
    else Left(maxRetries, db, Pick(s)) + Potential(maxRetries, db, s - {Pick(s)})
  }

  lemma {:induction false} PotentialDrops(maxRetries: int, db: Collection, db': Collection, s: set<Id>, t: set<Id>)
    requires t <= s
    requires forall id :: id in s ==> Left(maxRetries, db', id) <= Left(maxRetries, db, id)
    requires forall id :: id in t ==> Left(maxRetries, db', id) < Left(maxRetries, db, id)
    ensures Potential(maxRetries, db', s) + |t| <= Potential(maxRetries, db, s)
  {
    if s != {} {
      var id := Pick(s);
      PotentialDrops(maxRetries, db, db', s - {id}, t - {id});
      assert |t| == |t - {id}| + (if id in t then 1 else 0);
    }
  }

  lemma OneMoreTime(n: nat, m: int)
    ensures (n + 1) * m == n * m + m
  {
  }

  lemma {:induction false} PotentialIsBounded(maxRetries: int, db: Collection, s: set<Id>)
    requires maxRetries >= 0
    ensures Potential(maxRetries, db, s) <= |s| * maxRetries
  {
    if s != {} {
      var rest := s - {Pick(s)};
      PotentialIsBounded(maxRetries, db, rest);
      assert |s| == |rest| + 1;
      OneMoreTime(|rest|, maxRetries);
    }
  }

  ghost function Elements(s: seq<Id>): set<Id> {
    set x | x in s
  }

  lemma {:induction false} DistinctSize(s: seq<Id>)
    requires Distinct(s)
    ensures |Elements(s)| == |s|
  {
    if s != [] {
      var front, last := s[..|s| - 1], s[|s| - 1];
      DistinctSize(front);
      assert s == front + [last];
      assert last !in front;
      assert Elements(s) == Elements(front) + {last};
    }
  }

  /** Each attempt uses up at least one unit of an entry's potential. */
  lemma PollUsesPotential(maxRetries: int, db: Collection, batch: seq<Id>, db': Collection, s: set<Id>)
    requires Poll(maxRetries, db, batch, db')
    requires s <= db.Keys && forall id :: id in batch ==> id in s
    ensures Potential(maxRetries, db', s) + |batch| <= Potential(maxRetries, db, s)
  {
    DistinctSize(batch);
    forall id | id in s
      ensures Left(maxRetries, db', id) <= Left(maxRetries, db, id)
      ensures id in batch ==> Left(maxRetries, db', id) < Left(maxRetries, db, id)
    {
      assert if id in batch then Attempted(db[id], db'[id]) else db'[id] == db[id];
    }
    hide Poll, Left;
    PotentialDrops(maxRetries, db, db', s, Elements(batch));
  }

  /** The other entries at least as old as `e` that are still pending. */
  ghost function Rivals(maxRetries: int, db: Collection, e: Id): set<Id>
    requires e in db
  {
    set id | id in db && id != e && Pending(maxRetries, db[id]) && db[id].createdAt <= db[e].createdAt
  }

  /** A run of polls; entries added on the way are newer than `e`. */
  ghost predicate Polls(maxRetries: int, dbs: seq<Collection>, batches: seq<seq<Id>>, e: Id) {
    && |dbs| == |batches| + 1 && e in dbs[0]
    && forall i :: 0 <= i < |batches| ==> PollAt(maxRetries, dbs, batches, e, i)
  }

  ghost predicate PollAt(maxRetries: int, dbs: seq<Collection>, batches: seq<seq<Id>>, e: Id, i: nat)
    requires i < |batches| && |dbs| == |batches| + 1 && e in dbs[0]
  {
    && Poll(maxRetries, dbs[i], batches[i], dbs[i + 1])
    && forall id :: id in dbs[i + 1] && id !in dbs[i] ==> dbs[i + 1][id].createdAt > dbs[0][e].createdAt
  }

  /** As long as `e` is skipped it stays as it was, its rivals come from `s`, and every poll costs `s` a full batch. */
  lemma {:induction false} SkippingCosts(maxRetries: int, dbs: seq<Collection>, batches: seq<seq<Id>>, e: Id,
                                         s: set<Id>, n: nat)
    requires Polls(maxRetries, dbs, batches, e) && n <= |batches|
    requires Pending(maxRetries, dbs[0][e])
    requires s == Rivals(maxRetries, dbs[0], e)
    requires forall i :: 0 <= i < n ==> e !in batches[i]
    ensures e in dbs[n] && dbs[n][e] == dbs[0][e]
    ensures dbs[0].Keys <= dbs[n].Keys
    ensures Rivals(maxRetries, dbs[n], e) <= s
    ensures Potential(maxRetries, dbs[n], s) + n * BATCH_LIMIT <= Potential(maxRetries, dbs[0], s)
  {
    if n > 0 {
      SkippingCosts(maxRetries, dbs, batches, e, s, n - 1);
      assert PollAt(maxRetries, dbs, batches, e, n - 1);
      var db, batch, db' := dbs[n - 1], batches[n - 1], dbs[n];
      assert |batch| == BATCH_LIMIT;
      assert forall id :: id in batch ==> id in Rivals(maxRetries, db, e);
      PollUsesPotential(maxRetries, db, batch, db', s);
    }
  }

  /** Starvation bound: with `k` rivals, `e` is in one of the first `k * maxRetries / 100 + 1` batches. */
  lemma AttemptedInTime(maxRetries: int, dbs: seq<Collection>, batches: seq<seq<Id>>, e: Id)
    requires Polls(maxRetries, dbs, batches, e) && Pending(maxRetries, dbs[0][e])
    requires |batches| >= |Rivals(maxRetries, dbs[0], e)| * maxRetries / BATCH_LIMIT + 1
    ensures exists i :: 0 <= i <= |Rivals(maxRetries, dbs[0], e)| * maxRetries / BATCH_LIMIT && e in batches[i]
  {
    var s := Rivals(maxRetries, dbs[0], e);
    var bound := |s| * maxRetries / BATCH_LIMIT;
    if forall i :: 0 <= i <= bound ==> e !in batches[i] {
      SkippingCosts(maxRetries, dbs, batches, e, s, bound + 1);
      PotentialIsBounded(maxRetries, dbs[0], s);
      assert false;
    }
  }

  /** A run of polls during which nothing is added. */
  ghost predicate ClosedPolls(maxRetries: int, dbs: seq<Collection>, batches: seq<seq<Id>>) {
    && |dbs| == |batches| + 1
    && forall i :: 0 <= i < |batches| ==> ClosedPoll(maxRetries, dbs[i], batches[i], dbs[i + 1])
  }

  ghost predicate ClosedPoll(maxRetries: int, db: Collection, batch: seq<Id>, db': Collection) {
    Poll(maxRetries, db, batch, db') && db'.Keys == db.Keys
  }

  ghost predicate NonePending(maxRetries: int, db: Collection) {
    forall id :: id in db ==> db[id].published || DeadLettered(maxRetries, db[id])
  }

  lemma {:induction false} DrainStep(maxRetries: int, dbs: seq<Collection>, batches: seq<seq<Id>>, n: nat)
    requires ClosedPolls(maxRetries, dbs, batches) && n <= |batches|
    ensures dbs[n].Keys == dbs[0].Keys
    ensures NonePending(maxRetries, dbs[n]) ||
            Potential(maxRetries, dbs[n], dbs[0].Keys) + n <= Potential(maxRetries, dbs[0], dbs[0].Keys)
  {
    if n > 0 {
      DrainStep(maxRetries, dbs, batches, n - 1);
      var db, batch := dbs[n - 1], batches[n - 1];
      assert ClosedPoll(maxRetries, db, batch, dbs[n]);
      PollUsesPotential(maxRetries, db, batch, dbs[n], dbs[0].Keys);
      if batch == [] {
        assert NonePending(maxRetries, db);
        assert dbs[n] == db;
      }
    }
  }

  lemma {:induction false} NoPotentialLeft(maxRetries: int, db: Collection, s: set<Id>, id: Id)
    requires Potential(maxRetries, db, s) == 0 && id in s
    ensures Left(maxRetries, db, id) == 0
  {
    if id != Pick(s) {
      NoPotentialLeft(maxRetries, db, s - {Pick(s)}, id);
    }
  }

  /** Without new entries, `maxRetries` polls per entry leave every entry published or dead-lettered. */
  lemma EverythingEnds(maxRetries: int, dbs: seq<Collection>, batches: seq<seq<Id>>)
    requires maxRetries >= 0 && ClosedPolls(maxRetries, dbs, batches)
    requires |batches| >= |dbs[0]| * maxRetries
    ensures NonePending(maxRetries, dbs[|batches|])
  {
    var n, ids := |batches|, dbs[0].Keys;
    DrainStep(maxRetries, dbs, batches, n);
    PotentialIsBounded(maxRetries, dbs[0], ids);
    if !NonePending(maxRetries, dbs[n]) {
      assert |ids| == |dbs[0]|;
      assert Potential(maxRetries, dbs[n], ids) == 0;
      forall id | id in dbs[n]
        ensures dbs[n][id].published || DeadLettered(maxRetries, dbs[n][id])
      {
        NoPotentialLeft(maxRetries, dbs[n], ids, id);
      }
    }
  }
}
