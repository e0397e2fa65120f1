/** Coalescing of concurrent requests for one cache key: one of them leads, the others join it. */
module StampedeGuard {
  import opened Common

  type CallerId = nat

  datatype Key = Key(text: string)

  datatype Outcome = Value(content: int) | Error(message: string)

  datatype Result =
    | Hit(content: int)
    | ReadFailed(message: string)
    | Led(outcome: Outcome)
    | Joined(leader: CallerId, outcome: Outcome)

  /** Where a caller stands; each stage but `Finished` waits for a reply. */
  datatype Stage =
    | Reading                       // for the cache
    | Locking                       // leader: for the lock entry to be written
    | Producing                     // leader: for the factory
    | Storing(content: int)         // leader: for the value to be cached
    | Unlocking(outcome: Outcome)   // leader: for the lock entry to be deleted
    | Settled(outcome: Outcome)     // leader: its promise is settled, its cleanup has not run yet
    | Joining(leader: CallerId)     // for the leader's promise
    | Finished(result: Result)

  datatype Caller = Caller(key: Key, stage: Stage)

  /** `runs` and `made` record which callers ran their factory and what it produced; nothing reads them. */
  datatype Guard = Guard(
    callers: map<CallerId, Caller>, inflight: map<Key, CallerId>, runs: multiset<CallerId>, made: map<CallerId, int>)

  datatype Event =
    | Arrive(id: CallerId, key: Key)
    | CacheHit(id: CallerId, content: int)
    | CacheFailed(id: CallerId, message: string)
    | CacheMiss(id: CallerId)
    | Done(id: CallerId, content: int)          // what a leader waits for succeeded; `content` is the factory's
    | Failed(id: CallerId, message: string)     // it failed
    | Cleanup(id: CallerId)
    | Resume(id: CallerId)                      // a joiner learns the outcome

  predicate Leads(stage: Stage) {
    stage.Locking? || stage.Producing? || stage.Storing? || stage.Unlocking? || stage.Settled?
  }

  predicate HasLed(stage: Stage) {
    stage.Finished? && stage.result.Led?
  }

  /** The promise of this leader is settled with `o`. */
  predicate SettledWith(stage: Stage, o: Outcome) {
    stage == Settled(o) || stage == Finished(Led(o))
  }

  predicate IsSettled(stage: Stage) {
    stage.Settled? || HasLed(stage)
  }

  function OutcomeOf(stage: Stage): Outcome
    requires IsSettled(stage)
  {
    if stage.Settled? then stage.outcome else stage.result.outcome
  }

  ghost predicate Enabled(g: Guard, e: Event) {
    if e.Arrive? then e.id !in g.callers
    else
      && e.id in g.callers
      && var stage := g.callers[e.id].stage;
         match e
         case CacheHit(_, _) => stage.Reading?
         case CacheFailed(_, _) => stage.Reading?
         case CacheMiss(_) => stage.Reading?
         case Done(_, _) => Leads(stage) && !stage.Settled?
         case Failed(_, _) => Leads(stage) && !stage.Settled?
         case Cleanup(_) => stage.Settled?
         case Resume(_) => stage.Joining? && stage.leader in g.callers && IsSettled(g.callers[stage.leader].stage)
         case Arrive(_, _) => true
  }

  ghost function Move(g: Guard, id: CallerId, stage: Stage): Guard
    requires id in g.callers
  {
    g.(callers := g.callers[id := g.callers[id].(stage := stage)])
  }

  /** Where the caller that the event concerns stands afterwards. */
  ghost function NextStage(g: Guard, e: Event): Stage
    requires Enabled(g, e)
  {
    match e
    case Arrive(_, _) => Reading
    case CacheHit(_, content) => Finished(Hit(content))
    case CacheFailed(_, message) => Finished(ReadFailed(message))
    case CacheMiss(id) => if g.callers[id].key in g.inflight then Joining(g.inflight[g.callers[id].key]) else Locking
    case Done(id, content) =>
      (match g.callers[id].stage
       case Locking => Producing
       case Producing => Storing(content)
       case Storing(v) => Unlocking(Value(v))
       case Unlocking(o) => Settled(o)
       case stage => stage)
    case Failed(id, message) =>
      if g.callers[id].stage.Unlocking? then Settled(Error(message)) else Unlocking(Error(message))
    case Cleanup(id) => Finished(Led(g.callers[id].stage.outcome))
    case Resume(id) =>
      var leader := g.callers[id].stage.leader;
      Finished(Joined(leader, OutcomeOf(g.callers[leader].stage)))
  }

  ghost function Step(g: Guard, e: Event): Guard
    requires Enabled(g, e)
  {
    var stage := NextStage(g, e);
    match e
    case Arrive(id, key) => g.(callers := g.callers[id := Caller(key, stage)])
    case CacheMiss(id) =>
      if stage.Joining? then Move(g, id, stage)
      else Move(g, id, stage).(inflight := g.inflight[g.callers[id].key := id])
    case Done(id, content) =>
      if stage.Producing? then Move(g, id, stage).(runs := g.runs + multiset{id})
      else if stage.Storing? then Move(g, id, stage).(made := g.made[id := content])
      else Move(g, id, stage)
    case Cleanup(id) => Move(g, id, stage).(inflight := g.inflight - {g.callers[id].key})
    case _ => Move(g, e.id, stage)
  }

  ghost predicate Possible(g: Guard, es: seq<Event>)
    decreases |es|
  {
    es == [] || (Enabled(g, es[0]) && Possible(Step(g, es[0]), es[1..]))
  }

  ghost function Run(g: Guard, es: seq<Event>): Guard
    requires Possible(g, es)
    decreases |es|
  {
    if es == [] then g else Run(Step(g, es[0]), es[1..])
  }

  const START := Guard(map[], map[], multiset{}, map[])

  /**
   * The guard object. Its only field is the map of requests in flight; `g` is the whole run so far. Each method is
   * one uninterrupted stretch of `getOrSet`.
   */
  class CacheStampedeGuard {
    var inflight: map<Key, CallerId>
    ghost var g: Guard

    ghost predicate Synced()
      reads this
    {
      inflight == g.inflight
    }

    constructor ()
      ensures Synced() && g == START
    {
      inflight, g := map[], START;
    }

    /** After a miss: join the request in flight for the key, or become the one in flight. */
    method AfterMiss(id: CallerId, key: Key) returns (joined: bool, leader: CallerId)
      requires Synced() && Enabled(g, CacheMiss(id)) && g.callers[id].key == key
      modifies this
      ensures Synced() && g == Step(old(g), CacheMiss(id))
      ensures joined <==> key in old(inflight)
      ensures g.callers[id].stage == if joined then Joining(leader) else Locking
    {
      g := Step(g, CacheMiss(id));
      if key in inflight {
        return true, inflight[key];
      }
      inflight := inflight[key := id];
      return false, id;
    }

    /** The `finally` of a leader, whether its promise was kept or broken. */
    method CleanUp(id: CallerId, key: Key)
      requires Synced() && Enabled(g, Cleanup(id)) && g.callers[id].key == key
      modifies this
      ensures Synced() && g == Step(old(g), Cleanup(id))
    {
      g := Step(g, Cleanup(id));
      inflight := inflight - {key};
    }

    /** Everything else leaves the map alone. */
    ghost method Elsewhere(e: Event)
      requires Synced() && Enabled(g, e) && !e.CacheMiss? && !e.Cleanup?
      modifies `g
      ensures Synced() && g == Step(old(g), e)
    {
      g := Step(g, e);
    }
  }

  // ----- The invariant -----

  /** The map of requests in flight lists exactly the active leaders, each under its key. */
  ghost predicate OneLeaderEach(g: Guard) {
    && (forall k :: k in g.inflight ==>
                      && g.inflight[k] in g.callers && g.callers[g.inflight[k]].key == k
                      && Leads(g.callers[g.inflight[k]].stage))
    && (forall id :: id in g.callers && Leads(g.callers[id].stage) ==>
                       g.callers[id].key in g.inflight && g.inflight[g.callers[id].key] == id)
  }

  ghost predicate Follows(g: Guard, c: Caller, leader: CallerId) {
    && leader in g.callers && g.callers[leader].key == c.key
    && (Leads(g.callers[leader].stage) || HasLed(g.callers[leader].stage))
  }

  ghost predicate CallerInv(g: Guard, c: Caller) {
    && (c.stage.Joining? ==> Follows(g, c, c.stage.leader))
    && (c.stage.Finished? && c.stage.result.Joined? ==>
          && Follows(g, c, c.stage.result.leader)
          && SettledWith(g.callers[c.stage.result.leader].stage, c.stage.result.outcome))
  }

  /** How often a caller in this stage has run its factory. */
  ghost predicate RunCount(stage: Stage, n: nat) {
    && n <= (if stage.Locking? || !(Leads(stage) || HasLed(stage)) then 0 else 1)
    && (stage.Producing? || stage.Storing? ==> n == 1)
    && (SettledStage(stage) && OutcomeOfEnd(stage).Value? ==> n == 1)
  }

  predicate SettledStage(stage: Stage) {
    stage.Unlocking? || IsSettled(stage)
  }

  function OutcomeOfEnd(stage: Stage): Outcome
    requires SettledStage(stage)
  {
    if stage.Unlocking? then stage.outcome else OutcomeOf(stage)
  }

  /** Factories run inside leaders only, at most once each, and exactly once before a value comes out. */
  ghost predicate RunsInv(g: Guard) {
    && (forall id :: id in g.runs ==> id in g.callers)
    && (forall id :: id in g.callers ==> RunCount(g.callers[id].stage, g.runs[id]))
  }

  /** The value that a leader in this stage is going to return, or has returned. */
  function Yield(stage: Stage): Option<int> {
    if stage.Storing? then Some(stage.content)
    else if SettledStage(stage) && OutcomeOfEnd(stage).Value? then Some(OutcomeOfEnd(stage).content)
    else None
  }

  /** What a leader returns is what its factory produced, and only a factory that ran produces anything. */
  ghost predicate MadeInv(g: Guard) {
    && (forall id :: id in g.made ==> id in g.runs)
    && (forall id :: id in g.callers && Yield(g.callers[id].stage).Some? ==>
                       id in g.made && g.made[id] == Yield(g.callers[id].stage).value)
  }

  ghost predicate Inv(g: Guard) {
    OneLeaderEach(g) && (forall id :: id in g.callers ==> CallerInv(g, g.callers[id])) && RunsInv(g) && MadeInv(g)
  }

  /** A caller that goes on leading, or goes on not leading, does not disturb the map. */
  lemma MoveKeepsOneLeader(g: Guard, id: CallerId, stage: Stage)
    requires OneLeaderEach(g) && id in g.callers && Leads(stage) == Leads(g.callers[id].stage)
    ensures OneLeaderEach(Move(g, id, stage))
  {
  }

  lemma LeadKeepsOneLeader(g: Guard, id: CallerId)
    requires OneLeaderEach(g) && id in g.callers && !Leads(g.callers[id].stage) && g.callers[id].key !in g.inflight
    ensures OneLeaderEach(Move(g, id, Locking).(inflight := g.inflight[g.callers[id].key := id]))
  {
  }

  lemma CleanupKeepsOneLeader(g: Guard, id: CallerId)
    requires OneLeaderEach(g) && id in g.callers && g.callers[id].stage.Settled?
    ensures OneLeaderEach(Step(g, Cleanup(id)))
  {
  }

  lemma ArriveKeepsOneLeader(g: Guard, id: CallerId, key: Key)
    requires OneLeaderEach(g) && id !in g.callers
    ensures OneLeaderEach(Step(g, Arrive(id, key)))
  {
  }

  lemma StepKeepsOneLeader(g: Guard, e: Event)
    requires OneLeaderEach(g) && Enabled(g, e)
    ensures OneLeaderEach(Step(g, e))
  {
    var g', id := Step(g, e), e.id;
    if e.Arrive? {
      ArriveKeepsOneLeader(g, id, e.key);
    } else if e.Cleanup? {
      CleanupKeepsOneLeader(g, id);
    } else if e.CacheMiss? && g.callers[id].key !in g.inflight {
      LeadKeepsOneLeader(g, id);
    } else {
      hide OneLeaderEach;
      MoveKeepsOneLeader(g, id, g'.callers[id].stage);
      RunsDoNotMatter(g', Move(g, id, g'.callers[id].stage));
    }
  }

  lemma RunsDoNotMatter(g: Guard, g': Guard)
    requires OneLeaderEach(g') && g.callers == g'.callers && g.inflight == g'.inflight
    ensures OneLeaderEach(g)
  {
  }

  /** An event concerns one caller only. */
  lemma OthersStay(g: Guard, e: Event, id: CallerId)
    requires Enabled(g, e) && id != e.id
    ensures var g' := Step(g, e);
            && (id in g'.callers <==> id in g.callers)
            && (id in g.callers ==> g'.callers[id] == g.callers[id])
            && g'.runs[id] == g.runs[id]
            && (id in g'.made <==> id in g.made)
            && (id in g.made ==> g'.made[id] == g.made[id])
  {
  }

  lemma MoverMoves(g: Guard, e: Event)
    requires Enabled(g, e)
    ensures var g' := Step(g, e);
            && e.id in g'.callers && g'.callers[e.id].stage == NextStage(g, e)
            && (e.id in g.callers ==> g'.callers[e.id].key == g.callers[e.id].key)
    ensures Step(g, e).runs == if e.Done? && NextStage(g, e).Producing? then g.runs + multiset{e.id} else g.runs
    ensures Step(g, e).made == if e.Done? && NextStage(g, e).Storing? then g.made[e.id := e.content] else g.made
  {
    hide NextStage;
  }

  /** A leader goes on leading or has led, for the same key, and a settled outcome does not change. */
  lemma MoverGoesOnLeading(g: Guard, e: Event)
    requires Enabled(g, e) && e.id in g.callers && (Leads(g.callers[e.id].stage) || HasLed(g.callers[e.id].stage))
    ensures e.id in Step(g, e).callers
    ensures var c, c' := g.callers[e.id], Step(g, e).callers[e.id];
            && c'.key == c.key && (Leads(c'.stage) || HasLed(c'.stage))
            && forall o :: SettledWith(c.stage, o) ==> SettledWith(c'.stage, o)
  {
    hide Step;
    MoverMoves(g, e);
  }

  lemma StepKeepsFollows(g: Guard, e: Event, c: Caller)
    requires Enabled(g, e) && CallerInv(g, c)
    ensures CallerInv(Step(g, e), c)
  {
    hide Step, Enabled, Leads, HasLed, SettledWith;
    if c.stage.Joining? || (c.stage.Finished? && c.stage.result.Joined?) {
      var leader := if c.stage.Joining? then c.stage.leader else c.stage.result.leader;
      if leader == e.id {
        MoverGoesOnLeading(g, e);
      } else {
        OthersStay(g, e, leader);
      }
    }
  }

  lemma MoverKeepsCallers(g: Guard, e: Event)
    requires Inv(g) && Enabled(g, e)
    ensures var g' := Step(g, e); e.id in g'.callers && CallerInv(g', g'.callers[e.id])
  {
    hide RunsInv, MadeInv;
  }

  lemma StepKeepsCallers(g: Guard, e: Event)
    requires Inv(g) && Enabled(g, e)
    ensures var g' := Step(g, e); forall id :: id in g'.callers ==> CallerInv(g', g'.callers[id])
  {
    hide Step, Enabled, CallerInv, OneLeaderEach, RunsInv, MadeInv;
    var g' := Step(g, e);
    forall id | id in g'.callers
      ensures CallerInv(g', g'.callers[id])
    {
      if id == e.id {
        MoverKeepsCallers(g, e);
      } else {
        OthersStay(g, e, id);
        StepKeepsFollows(g, e, g.callers[id]);
      }
    }
  }

  lemma MoverKeepsRuns(g: Guard, e: Event)
    requires RunsInv(g) && Enabled(g, e)
    ensures var g' := Step(g, e); e.id in g'.callers && RunCount(g'.callers[e.id].stage, g'.runs[e.id])
  {
    hide Step;
    MoverMoves(g, e);
    assert e.id in g.callers ==> RunCount(g.callers[e.id].stage, g.runs[e.id]);
  }

  lemma StepKeepsRuns(g: Guard, e: Event)
    requires RunsInv(g) && Enabled(g, e)
    ensures RunsInv(Step(g, e))
  {
    hide Step, Enabled, RunCount;
    var g' := Step(g, e);
    MoverKeepsRuns(g, e);
    forall id
      ensures id in g'.runs ==> id in g'.callers
      ensures id in g'.callers ==> RunCount(g'.callers[id].stage, g'.runs[id])
    {
      if id != e.id {
        OthersStay(g, e, id);
      }
    }
  }

  /** The value to come is settled by the factory and only handed on after that. */
  lemma MoverYields(g: Guard, e: Event)
    requires Enabled(g, e)
    ensures var value := Yield(NextStage(g, e));
            value.Some? ==>
              e.id in g.callers &&
              if g.callers[e.id].stage.Producing? then e.Done? && value.value == e.content
              else value == Yield(g.callers[e.id].stage) && !NextStage(g, e).Storing?
    ensures e.Done? && NextStage(g, e).Storing? ==> g.callers[e.id].stage.Producing?
  {
  }

  lemma MoverKeepsMade(g: Guard, e: Event)
    requires RunsInv(g) && MadeInv(g) && Enabled(g, e)
    ensures var g' := Step(g, e);
            && e.id in g'.callers && (e.id in g'.made ==> e.id in g'.runs)
            && var value := Yield(g'.callers[e.id].stage);
               value.Some? ==> e.id in g'.made && g'.made[e.id] == value.value
  {
    hide Step, Yield;
    MoverYields(g, e);
    MoverMoves(g, e);
    assert e.id in g.callers ==> RunCount(g.callers[e.id].stage, g.runs[e.id]);
  }

  lemma StepKeepsMade(g: Guard, e: Event)
    requires RunsInv(g) && MadeInv(g) && Enabled(g, e)
    ensures MadeInv(Step(g, e))
  {
    hide Step, Enabled, RunsInv, Yield;
    var g' := Step(g, e);
    MoverKeepsMade(g, e);
    forall id
      ensures id in g'.made ==> id in g'.runs
      ensures id in g'.callers && Yield(g'.callers[id].stage).Some? ==>
                id in g'.made && g'.made[id] == Yield(g'.callers[id].stage).value
    {
      if id != e.id {
        OthersStay(g, e, id);
      }
    }
  }

  lemma {:induction false} RunKeepsInv(g: Guard, es: seq<Event>)
    requires Inv(g) && Possible(g, es)
    ensures Inv(Run(g, es))
    decreases |es|
  {
    if es != [] {
      StepKeepsOneLeader(g, es[0]);
      StepKeepsCallers(g, es[0]);
      StepKeepsRuns(g, es[0]);
      StepKeepsMade(g, es[0]);
      RunKeepsInv(Step(g, es[0]), es[1..]);
    }
  }

  // ----- Main results -----

  /** Both callers lead, and for the same key. */
  ghost predicate LeadsFor(g: Guard, a: CallerId, b: CallerId) {
    && a in g.callers && Leads(g.callers[a].stage)
    && b in g.callers && Leads(g.callers[b].stage)
    && g.callers[a].key == g.callers[b].key
  }

  /** At most one caller leads for a key at any time, and the map names it exactly while it leads. */
  lemma SingleFlight(es: seq<Event>, a: CallerId, b: CallerId)
    requires Possible(START, es)
    ensures var g := Run(START, es);
            && (LeadsFor(g, a, b) ==> a == b)
            && (a in g.callers ==> (Leads(g.callers[a].stage) <==>
                                    g.callers[a].key in g.inflight && g.inflight[g.callers[a].key] == a))
  {
    RunKeepsInv(START, es);
  }

  /** A joiner gets its leader's outcome, value or error, and its leader asked for the same key. */
  lemma JoinersShare(es: seq<Event>, id: CallerId)
    requires Possible(START, es)
    requires id in Run(START, es).callers && Run(START, es).callers[id].stage.Finished?
    requires Run(START, es).callers[id].stage.result.Joined?
    ensures var g := Run(START, es);
            var r := g.callers[id].stage.result;
            && r.leader in g.callers && g.callers[r.leader].key == g.callers[id].key
            && SettledWith(g.callers[r.leader].stage, r.outcome)
  {
    RunKeepsInv(START, es);
  }

  /** A joiner is never left waiting for nobody: its leader leads, or has led and its outcome is there. */
  lemma JoinersHaveLeaders(es: seq<Event>, id: CallerId)
    requires Possible(START, es)
    requires id in Run(START, es).callers && Run(START, es).callers[id].stage.Joining?
    ensures var g := Run(START, es);
            var leader := g.callers[id].stage.leader;
            && leader in g.callers && g.callers[leader].key == g.callers[id].key
            && (IsSettled(g.callers[leader].stage) ==> Enabled(g, Resume(id)))
            && (!IsSettled(g.callers[leader].stage) ==> Leads(g.callers[leader].stage) && Enabled(g, Done(leader, 0)))
  {
    RunKeepsInv(START, es);
  }

  /** Only leaders run their factory, at most once, and the value a leader ends with is what its factory produced. */
  lemma FactoriesRunInLeaders(es: seq<Event>, id: CallerId)
    requires Possible(START, es)
    ensures var g := Run(START, es);
            && g.runs[id] <= 1
            && (g.runs[id] == 1 ==> id in g.callers && (Leads(g.callers[id].stage) || HasLed(g.callers[id].stage)))
            && (id in g.callers && HasLed(g.callers[id].stage) && g.callers[id].stage.result.outcome.Value? ==>
                  g.runs[id] == 1 && id in g.made && g.callers[id].stage.result.outcome == Value(g.made[id]))
  {
    RunKeepsInv(START, es);
    var g := Run(START, es);
    assert id in g.callers ==> RunCount(g.callers[id].stage, g.runs[id]);
    assert id !in g.callers ==> id !in g.runs;
  }

  /** A value that a joiner gets is what the factory of its leader produced, in its one run. */
  lemma JoinersGetWhatWasMade(es: seq<Event>, id: CallerId)
    requires Possible(START, es)
    requires id in Run(START, es).callers && Run(START, es).callers[id].stage.Finished?
    requires Run(START, es).callers[id].stage.result.Joined? && Run(START, es).callers[id].stage.result.outcome.Value?
    ensures var g := Run(START, es);
            var r := g.callers[id].stage.result;
            g.runs[r.leader] == 1 && r.leader in g.made && r.outcome == Value(g.made[r.leader])
  {
    RunKeepsInv(START, es);
    var g := Run(START, es);
    var leader := g.callers[id].stage.result.leader;
    JoinersShare(es, id);
    assert RunCount(g.callers[leader].stage, g.runs[leader]);
    assert Yield(g.callers[leader].stage).Some?;
  }

  /** When every caller is finished, on success or failure, nothing is left in flight. */
  lemma NothingLeftBehind(es: seq<Event>)
    requires Possible(START, es)
    requires forall id :: id in Run(START, es).callers ==> Run(START, es).callers[id].stage.Finished?
    ensures Run(START, es).inflight == map[]
  {
    RunKeepsInv(START, es);
    var g := Run(START, es);
    assert forall k :: k !in g.inflight;
  }

  /** A caller that missed becomes a leader exactly when nobody leads for its key at that moment. */
  lemma LeadsIffNobodyDoes(es: seq<Event>, id: CallerId)
    requires Possible(START, es) && Enabled(Run(START, es), CacheMiss(id))
    ensures var g := Run(START, es);
            var key := g.callers[id].key;
            Step(g, CacheMiss(id)).callers[id].stage == Locking <==>
            !exists other :: other in g.callers && g.callers[other].key == key && Leads(g.callers[other].stage)
  {
    RunKeepsInv(START, es);
  }

  lemma RunNone(g: Guard)
    ensures Possible(g, []) && Run(g, []) == g
  {
  }

  lemma RunFirst(g: Guard, e: Event, rest: seq<Event>) returns (es: seq<Event>)
    requires Enabled(g, e) && Possible(Step(g, e), rest)
    ensures es == [e] + rest && Possible(g, es) && Run(g, es) == Run(Step(g, e), rest)
  {
    es := [e] + rest;
    assert es[0] == e && es[1..] == rest;
  }

  /** What a leader's awaited operations lead to if all of them succeed. */
  lemma LeaderGoesOn(g: Guard, id: CallerId, content: int)
    requires id in g.callers && Leads(g.callers[id].stage) && !g.callers[id].stage.Settled?
    ensures Enabled(g, Done(id, content))
    ensures Step(g, Done(id, content)) ==
            match g.callers[id].stage
            case Locking => Move(g, id, Producing).(runs := g.runs + multiset{id})
            case Producing => Move(g, id, Storing(content)).(made := g.made[id := content])
            case Storing(v) => Move(g, id, Unlocking(Value(v)))
            case Unlocking(o) => Move(g, id, Settled(o))
            case _ => g
  {
  }

  lemma LeaderStarts(g: Guard, id: CallerId)
    requires id in g.callers && g.callers[id].stage.Reading? && g.callers[id].key !in g.inflight
    ensures Enabled(g, CacheMiss(id))
    ensures Step(g, CacheMiss(id)) == Move(g, id, Locking).(inflight := g.inflight[g.callers[id].key := id])
  {
  }

  lemma LeaderEnds(g: Guard, id: CallerId)
    requires id in g.callers && g.callers[id].stage.Settled?
    ensures Enabled(g, Cleanup(id))
    ensures Step(g, Cleanup(id)) ==
            Move(g, id, Finished(Led(g.callers[id].stage.outcome))).(inflight := g.inflight - {g.callers[id].key})
  {
  }

  /** A caller that misses while nobody leads can lead to the end, with one run of its factory. */
  lemma LeadToEnd(g: Guard, id: CallerId) returns (es: seq<Event>, g': Guard)
    requires id in g.callers && g.callers[id].stage.Reading? && g.callers[id].key !in g.inflight
    ensures Possible(g, es) && Run(g, es) == g'
    ensures g' == Move(g, id, Finished(Led(Value(7)))).(runs := g.runs + multiset{id}, made := g.made[id := 7])
  {
    hide Step, Possible, Run, Enabled;
    LeaderStarts(g, id);
    var s0 := Step(g, CacheMiss(id));
    LeaderGoesOn(s0, id, 7);
    var s1 := Step(s0, Done(id, 7));
    LeaderGoesOn(s1, id, 7);
    var s2 := Step(s1, Done(id, 7));
    LeaderGoesOn(s2, id, 7);
    var s3 := Step(s2, Done(id, 7));
    LeaderGoesOn(s3, id, 7);
    var s4 := Step(s3, Done(id, 7));
    LeaderEnds(s4, id);
    g' := Step(s4, Cleanup(id));
    assert g'.inflight == g.inflight;
    RunNone(g');
    es := RunFirst(s4, Cleanup(id), []);
    es := RunFirst(s3, Done(id, 7), es);
    es := RunFirst(s2, Done(id, 7), es);
    es := RunFirst(s1, Done(id, 7), es);
    es := RunFirst(s0, Done(id, 7), es);
    es := RunFirst(g, CacheMiss(id), es);
  }

  lemma {:induction false} RunsCompose(g: Guard, es: seq<Event>, fs: seq<Event>)
    requires Possible(g, es) && Possible(Run(g, es), fs)
    ensures Possible(g, es + fs) && Run(g, es + fs) == Run(Run(g, es), fs)
    decreases |es|
  {
    if es == [] {
      assert es + fs == fs;
    } else {
      assert (es + fs)[1..] == es[1..] + fs;
      RunsCompose(Step(g, es[0]), es[1..], fs);
    }
  }

  /**
   * Not every pair of concurrent callers shares one factory run: a miss that is delivered after the leader has
   * cleaned up leads again, although both callers had arrived before either factory ran.
   */
  lemma LateMissRunsFactoryAgain(key: Key)
    ensures exists es: seq<Event> :: |es| >= 2 && es[0] == Arrive(0, key) && es[1] == Arrive(1, key) &&
                                     Possible(START, es) && Run(START, es).runs == multiset{0, 1}
  {
    var s1 := Step(START, Arrive(0, key));
    var s2 := Step(s1, Arrive(1, key));
    var first, s3 := LeadToEnd(s2, 0);
    var second, s4 := LeadToEnd(s3, 1);
    RunsCompose(s2, first, second);
    var r1 := RunFirst(s1, Arrive(1, key), first + second);
    var r0 := RunFirst(START, Arrive(0, key), r1);
    assert r0[0] == Arrive(0, key) && r0[1] == r1[0] == Arrive(1, key);
  }
}
