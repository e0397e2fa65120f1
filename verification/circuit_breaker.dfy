/** A circuit breaker whose guarded calls are asynchronous: between admission and completion anything may happen. */
module CircuitBreaking {

  type CallId = nat

  datatype Status = Closed | Open | HalfOpen

  datatype Config = Config(failureThreshold: int, resetTimeout: int, halfOpenMax: int)

  datatype Breaker = Breaker(status: Status, failureCount: nat, halfOpenAttempts: nat, nextAttemptTime: int)

  datatype Admission = Admitted | RefusedOpen | RefusedLimit

  // ----- The transitions of one breaker -----

  const INITIAL := Breaker(Closed, 0, 0, 0)

  function TransitionTo(cfg: Config, b: Breaker, target: Status, now: int): Breaker {
    if b.status == target then b
    else if target == Open then b.(status := Open, nextAttemptTime := now + cfg.resetTimeout)
    else b.(status := target)
  }

  function Begin(cfg: Config, b: Breaker, now: int): (Breaker, Admission) {
    if b.status == Open && now < b.nextAttemptTime then (b, RefusedOpen)
    else
      var b' := if b.status == Open then TransitionTo(cfg, b, HalfOpen, now).(halfOpenAttempts := 0) else b;
      if b'.status == HalfOpen && b'.halfOpenAttempts >= cfg.halfOpenMax then (b', RefusedLimit)
      else if b'.status == HalfOpen then (b'.(halfOpenAttempts := b'.halfOpenAttempts + 1), Admitted)
      else (b', Admitted)
  }

  function Succeed(cfg: Config, b: Breaker, now: int): Breaker {
    var b' := if b.status == HalfOpen then TransitionTo(cfg, b, Closed, now) else b;
    b'.(failureCount := 0, halfOpenAttempts := 0)
  }

  function Fail(cfg: Config, b: Breaker, now: int): Breaker {
    var b' := b.(failureCount := b.failureCount + 1);
    if b'.status == HalfOpen || b'.failureCount >= cfg.failureThreshold then TransitionTo(cfg, b', Open, now) else b'
  }

  function Reset(cfg: Config, b: Breaker, now: int): Breaker {
    TransitionTo(cfg, b, Closed, now).(failureCount := 0, halfOpenAttempts := 0, nextAttemptTime := 0)
  }

  /** The object itself: each method is one uninterrupted stretch of `execute`, or `reset`. */
  class CircuitBreaker {
    const cfg: Config
    var status: Status
    var failureCount: nat
    var halfOpenAttempts: nat
    var nextAttemptTime: int

    function Value(): Breaker
      reads this
    {
      Breaker(status, failureCount, halfOpenAttempts, nextAttemptTime)
    }

    constructor (cfg: Config)
      ensures this.cfg == cfg && Value() == INITIAL
    {
      this.cfg := cfg;
      status, failureCount, halfOpenAttempts, nextAttemptTime := Closed, 0, 0, 0;
    }

    method ChangeStatus(target: Status, now: int)
      modifies `status, `nextAttemptTime
      ensures Value() == TransitionTo(cfg, old(Value()), target, now)
    {
      if status == target { return; }
      status := target;
      if target == Open {
        nextAttemptTime := now + cfg.resetTimeout;
      }
    }

    /** From the call of `execute` to the `await`. */
    method TryEnter(now: int) returns (admission: Admission)
      modifies this
      ensures (Value(), admission) == Begin(cfg, old(Value()), now)
    {
      if status == Open {
        if now >= nextAttemptTime {
          ChangeStatus(HalfOpen, now);
          halfOpenAttempts := 0;
        } else {
          return RefusedOpen;
        }
      }
      if status == HalfOpen && halfOpenAttempts >= cfg.halfOpenMax {
        return RefusedLimit;
      }
      if status == HalfOpen {
        halfOpenAttempts := halfOpenAttempts + 1;
      }
      return Admitted;
    }

    method OnSuccess(now: int)
      modifies this
      ensures Value() == Succeed(cfg, old(Value()), now)
    {
      if status == HalfOpen {
        ChangeStatus(Closed, now);
      }
      failureCount := 0;
      halfOpenAttempts := 0;
    }

    method OnFailure(now: int)
      modifies this
      ensures Value() == Fail(cfg, old(Value()), now)
    {
      failureCount := failureCount + 1;
      if status == HalfOpen {
        ChangeStatus(Open, now);
        return;
      }
      if failureCount >= cfg.failureThreshold {
        ChangeStatus(Open, now);
      }
    }

    method ResetAll(now: int)
      modifies this
      ensures Value() == Reset(cfg, old(Value()), now)
    {
      ChangeStatus(Closed, now);
      failureCount := 0;
      halfOpenAttempts := 0;
      nextAttemptTime := 0;
    }
  }

  // ----- Runs -----

  datatype Event =
    | EBegin(id: CallId, now: int)
    | ESucceed(id: CallId, now: int)
    | EFail(id: CallId, now: int)
    | EReset(now: int)

  /** What an observer of a run writes down. */
  datatype Entry =
    | LAdmit(id: CallId, now: int)
    | LRefuse(now: int, reason: Admission)
    | LSuccess(id: CallId)
    | LFailure(id: CallId)
    | LReset
    | LMove(to: Status, at: int)

  /** The last entry comes first. */
  datatype Log = Blank | Log(before: Log, last: Entry)

  datatype System = System(b: Breaker, log: Log)

  /** A change of status is written down. */
  function Moved(log: Log, before: Breaker, after: Breaker, now: int): Log {
    if before.status == after.status then log else Log(log, LMove(after.status, now))
  }

  function Step(cfg: Config, s: System, e: Event): System {
    match e
    case EBegin(id, now) =>
      var (b, admission) := Begin(cfg, s.b, now);
      System(b, Log(Moved(s.log, s.b, b, now),
                    if admission == Admitted then LAdmit(id, now) else LRefuse(now, admission)))
    case ESucceed(id, now) =>
      var b := Succeed(cfg, s.b, now);
      System(b, Moved(Log(s.log, LSuccess(id)), s.b, b, now))
    case EFail(id, now) =>
      var b := Fail(cfg, s.b, now);
      System(b, Moved(Log(s.log, LFailure(id)), s.b, b, now))
    case EReset(now) =>
      var b := Reset(cfg, s.b, now);
      System(b, Moved(Log(s.log, LReset), s.b, b, now))
  }

  function Run(cfg: Config, s: System, es: seq<Event>): System
    decreases |es|
  {
    if es == [] then s else Run(cfg, Step(cfg, s, es[0]), es[1..])
  }

  const START := System(INITIAL, Blank)

  // ----- What the log alone says -----

  predicate Has(log: Log, x: Entry) {
    log.Log? && (log.last == x || Has(log.before, x))
  }

  /** Calls admitted and not yet completed. */
  ghost function InFlight(log: Log): set<CallId> {
    match log
    case Blank => {}
    case Log(before, LAdmit(id, _)) => InFlight(before) + {id}
    case Log(before, LSuccess(id)) => InFlight(before) - {id}
    case Log(before, LFailure(id)) => InFlight(before) - {id}
    case Log(before, _) => InFlight(before)
  }

  /** Calls admitted since the status last changed. */
  ghost function AdmittedSinceMove(log: Log): set<CallId> {
    match log
    case Blank => {}
    case Log(_, LMove(_, _)) => {}
    case Log(before, LAdmit(id, _)) => AdmittedSinceMove(before) + {id}
    case Log(before, _) => AdmittedSinceMove(before)
  }

  /** Every call ever admitted. */
  ghost function AllAdmitted(log: Log): set<CallId> {
    match log
    case Blank => {}
    case Log(before, LAdmit(id, _)) => AllAdmitted(before) + {id}
    case Log(before, _) => AllAdmitted(before)
  }

  /** The length of the run of failures that ends the history of completions since the last reset. */
  ghost function TrailingFailures(log: Log): nat {
    match log
    case Blank => 0
    case Log(_, LSuccess(_)) => 0
    case Log(_, LReset) => 0
    case Log(before, LFailure(_)) => TrailingFailures(before) + 1
    case Log(before, _) => TrailingFailures(before)
  }

  ghost function LastMove(log: Log): (x: Entry)
    ensures x.LMove?
  {
    match log
    case Blank => LMove(Closed, 0)
    case Log(before, x) => if x.LMove? then x else LastMove(before)
  }

  // ----- Which events can happen -----

  /** Call identities are not reused, and only calls in flight complete. */
  ghost predicate Possible(s: System, e: Event) {
    match e
    case EBegin(id, _) => id !in AllAdmitted(s.log)
    case ESucceed(id, _) => id in InFlight(s.log)
    case EFail(id, _) => id in InFlight(s.log)
    case EReset(_) => true
  }

  ghost predicate PossibleRun(cfg: Config, s: System, es: seq<Event>)
    decreases |es|
  {
    es == [] || (Possible(s, es[0]) && PossibleRun(cfg, Step(cfg, s, es[0]), es[1..]))
  }

  // ----- The invariant -----

  /** What the fields mean in terms of the log. */
  ghost predicate Inv(cfg: Config, s: System) {
    && InFlight(s.log) <= AllAdmitted(s.log)
    && LastMove(s.log).to == s.b.status
    && s.b.failureCount == TrailingFailures(s.log)
    && (s.b.status == Closed && cfg.failureThreshold >= 1 ==> s.b.failureCount < cfg.failureThreshold)
    && (s.b.status == Open ==> s.b.nextAttemptTime == LastMove(s.log).at + cfg.resetTimeout)
    && (s.b.status == HalfOpen ==>
          && AdmittedSinceMove(s.log) <= InFlight(s.log)
          && s.b.halfOpenAttempts == |AdmittedSinceMove(s.log)|
          && (cfg.halfOpenMax >= 1 ==> 1 <= s.b.halfOpenAttempts <= cfg.halfOpenMax)
          && (cfg.halfOpenMax < 1 ==> s.b.halfOpenAttempts == 0))
  }

  /** What a new entry does to what the log says. */
  lemma LogAdd(log: Log, x: Entry)
    ensures InFlight(Log(log, x)) == if x.LAdmit? then InFlight(log) + {x.id}
                                     else if x.LSuccess? || x.LFailure? then InFlight(log) - {x.id}
                                     else InFlight(log)
    ensures AdmittedSinceMove(Log(log, x)) ==
            if x.LMove? then {} else if x.LAdmit? then AdmittedSinceMove(log) + {x.id} else AdmittedSinceMove(log)
    ensures AllAdmitted(Log(log, x)) == if x.LAdmit? then AllAdmitted(log) + {x.id} else AllAdmitted(log)
    ensures TrailingFailures(Log(log, x)) ==
            if x.LSuccess? || x.LReset? then 0 else TrailingFailures(log) + if x.LFailure? then 1 else 0
    ensures LastMove(Log(log, x)) == if x.LMove? then x else LastMove(log)
  {
  }

  /** Admitting a new call adds it to those in flight and to those of the episode. */
  lemma AdmitOneMore(log: Log, id: CallId, now: int)
    requires id !in AllAdmitted(log) && InFlight(log) <= AllAdmitted(log)
    ensures var log' := Log(log, LAdmit(id, now));
            && InFlight(log') <= AllAdmitted(log')
            && LastMove(log') == LastMove(log) && TrailingFailures(log') == TrailingFailures(log)
            && (AdmittedSinceMove(log) <= InFlight(log) ==>
                  && AdmittedSinceMove(log') <= InFlight(log')
                  && |AdmittedSinceMove(log')| == |AdmittedSinceMove(log)| + 1)
  {
    LogAdd(log, LAdmit(id, now));
    hide InFlight, AdmittedSinceMove, AllAdmitted, TrailingFailures, LastMove;
  }

  lemma BeginKeepsInv(cfg: Config, s: System, id: CallId, now: int)
    requires Inv(cfg, s) && id !in AllAdmitted(s.log)
    ensures Inv(cfg, Step(cfg, s, EBegin(id, now)))
  {
    hide InFlight, AdmittedSinceMove, AllAdmitted, TrailingFailures, LastMove;
    var (b, admission) := Begin(cfg, s.b, now);
    var log := Moved(s.log, s.b, b, now);
    if b.status != s.b.status {
      LogAdd(s.log, LMove(b.status, now));
    }
    if admission == Admitted {
      AdmitOneMore(log, id, now);
    } else {
      LogAdd(log, LRefuse(now, admission));
    }
  }

  lemma StepKeepsInv(cfg: Config, s: System, e: Event)
    requires Inv(cfg, s) && Possible(s, e)
    ensures Inv(cfg, Step(cfg, s, e))
  {
    if e.EBegin? {
      BeginKeepsInv(cfg, s, e.id, e.now);
    }
  }

  lemma {:induction false} RunKeepsInv(cfg: Config, s: System, es: seq<Event>)
    requires Inv(cfg, s) && PossibleRun(cfg, s, es)
    ensures Inv(cfg, Run(cfg, s, es))
    decreases |es|
  {
    if es != [] {
      StepKeepsInv(cfg, s, es[0]);
      RunKeepsInv(cfg, Step(cfg, s, es[0]), es[1..]);
    }
  }

  // ----- Main results -----

  /** In every reachable half-open state the counter is the number of this episode's calls still in flight. */
  lemma HalfOpenCountsProbes(cfg: Config, es: seq<Event>)
    requires cfg.halfOpenMax >= 1 && PossibleRun(cfg, START, es)
    ensures var s := Run(cfg, START, es);
            s.b.status == HalfOpen ==>
              && AdmittedSinceMove(s.log) <= InFlight(s.log)
              && 1 <= s.b.halfOpenAttempts <= cfg.halfOpenMax
              && s.b.halfOpenAttempts == |AdmittedSinceMove(s.log)|
  {
    RunKeepsInv(cfg, START, es);
  }

  /** The failure counter is the trailing run of failures; while closed it is below the threshold. */
  lemma CounterIsTrailingRun(cfg: Config, es: seq<Event>)
    requires PossibleRun(cfg, START, es)
    ensures var s := Run(cfg, START, es);
            && s.b.failureCount == TrailingFailures(s.log)
            && (s.b.status == Closed && cfg.failureThreshold >= 1 ==> TrailingFailures(s.log) < cfg.failureThreshold)
  {
    RunKeepsInv(cfg, START, es);
  }

  /** A closed breaker opens exactly at the failure that makes the trailing run reach the threshold. */
  lemma OpensExactlyAtThreshold(cfg: Config, es: seq<Event>, e: Event)
    requires cfg.failureThreshold >= 1 && PossibleRun(cfg, START, es)
    requires Run(cfg, START, es).b.status == Closed && Possible(Run(cfg, START, es), e)
    ensures var s' := Step(cfg, Run(cfg, START, es), e);
            && s'.b.status in {Closed, Open}
            && (s'.b.status == Open <==> e.EFail? && TrailingFailures(s'.log) == cfg.failureThreshold)
  {
    var s := Run(cfg, START, es);
    RunKeepsInv(cfg, START, es);
    StepKeepsInv(cfg, s, e);
  }

  /** A refusal for the half-open limit means that exactly `halfOpenMax` probes are outstanding; it changes nothing. */
  lemma LimitRefusalCountsProbes(cfg: Config, es: seq<Event>, now: int)
    requires cfg.halfOpenMax >= 1 && PossibleRun(cfg, START, es)
    requires Begin(cfg, Run(cfg, START, es).b, now).1 == RefusedLimit
    ensures var s := Run(cfg, START, es);
            && s.b.status == HalfOpen
            && Begin(cfg, s.b, now).0 == s.b
            && |AdmittedSinceMove(s.log) * InFlight(s.log)| == cfg.halfOpenMax
  {
    var s := Run(cfg, START, es);
    RunKeepsInv(cfg, START, es);
    assert AdmittedSinceMove(s.log) * InFlight(s.log) == AdmittedSinceMove(s.log);
  }

  /** A half-open breaker is never stuck: some call is in flight, and whichever completes first moves it on. */
  lemma HalfOpenIsLeft(cfg: Config, es: seq<Event>)
    requires cfg.halfOpenMax >= 1 && PossibleRun(cfg, START, es)
    requires Run(cfg, START, es).b.status == HalfOpen
    ensures var s := Run(cfg, START, es);
            && InFlight(s.log) != {}
            && (forall id, now :: Step(cfg, s, ESucceed(id, now)).b.status == Closed)
            && (forall id, now :: Step(cfg, s, EFail(id, now)).b.status == Open)
  {
    RunKeepsInv(cfg, START, es);
  }

  /** With `halfOpenMax` below one that is false: half-open with nothing in flight refuses every call, for good. */
  lemma {:induction false} StuckWithoutProbes(cfg: Config, s: System, es: seq<Event>)
    requires cfg.halfOpenMax < 1 && s.b.status == HalfOpen && s.b.halfOpenAttempts == 0 && InFlight(s.log) == {}
    requires PossibleRun(cfg, s, es) && forall e :: e in es ==> !e.EReset?
    ensures Run(cfg, s, es).b == s.b && InFlight(Run(cfg, s, es).log) == {}
    decreases |es|
  {
    if es != [] {
      assert es[0].EBegin?;
      StuckWithoutProbes(cfg, Step(cfg, s, es[0]), es[1..]);
    }
  }

  lemma FreshCall(calls: set<CallId>) returns (id: CallId)
    ensures id !in calls && forall c :: c in calls ==> c < id
  {
    if calls == {} {
      id := 0;
    } else {
      var c :| c in calls;
      var above := FreshCall(calls - {c});
      id := if c < above then above else c + 1;
      assert forall d :: d in calls ==> d == c || d in calls - {c};
    }
  }

  /** The clock does not run backwards. */
  predicate InOrder(es: seq<Event>, clock: int)
    decreases |es|
  {
    es == [] || (clock <= es[0].now && InOrder(es[1..], es[0].now))
  }

  /** An open breaker with nothing in flight, tried after its timeout without probes to give. */
  lemma OpenGetsStuck(cfg: Config, s: System, id: CallId, now: int)
    requires cfg.halfOpenMax < 1 && s.b.status == Open && InFlight(s.log) == {} && now >= s.b.nextAttemptTime
    ensures var s' := Step(cfg, s, EBegin(id, now));
            s'.b.status == HalfOpen && s'.b.halfOpenAttempts == 0 && InFlight(s'.log) == {}
  {
  }

  /** A closed breaker with nothing in flight, after one more call that fails. */
  lemma ClosedTakesFailure(cfg: Config, s: System, id: CallId, now: int)
    requires s.b.status == Closed && InFlight(s.log) == {} && id !in AllAdmitted(s.log)
    ensures var s1 := Step(cfg, s, EBegin(id, now));
            var s2 := Step(cfg, s1, EFail(id, now));
            && id in InFlight(s1.log) && InFlight(s2.log) == {} && s2.b.failureCount == s.b.failureCount + 1
            && s2.b.status == if s2.b.failureCount >= cfg.failureThreshold then Open else Closed
  {
    hide InFlight, AllAdmitted;
    StepCalls(cfg, s, EBegin(id, now));
    StepCalls(cfg, Step(cfg, s, EBegin(id, now)), EFail(id, now));
  }

  lemma RunFirst(cfg: Config, s: System, e: Event, rest: seq<Event>) returns (es: seq<Event>)
    requires Possible(s, e) && PossibleRun(cfg, Step(cfg, s, e), rest) && InOrder(rest, e.now)
    ensures es == [e] + rest && PossibleRun(cfg, s, es) && Run(cfg, s, es) == Run(cfg, Step(cfg, s, e), rest)
    ensures forall clock :: clock <= e.now ==> InOrder(es, clock)
  {
    es := [e] + rest;
    assert es[0] == e && es[1..] == rest;
  }

  /** Failing calls one after the other open the breaker, and without probes to give the next call leaves it stuck. */
  lemma {:induction false} StuckIsReached(cfg: Config, s: System, clock: int) returns (es: seq<Event>)
    requires cfg.halfOpenMax < 1 && s.b.status != HalfOpen && InFlight(s.log) == {}
    ensures PossibleRun(cfg, s, es) && InOrder(es, clock)
    ensures var s' := Run(cfg, s, es);
            s'.b.status == HalfOpen && s'.b.halfOpenAttempts == 0 && InFlight(s'.log) == {}
    decreases s.b.status == Closed, cfg.failureThreshold - s.b.failureCount
  {
    var id := FreshCall(AllAdmitted(s.log));
    if s.b.status == Open {
      var now := if clock < s.b.nextAttemptTime then s.b.nextAttemptTime else clock;
      OpenGetsStuck(cfg, s, id, now);
      es := RunFirst(cfg, s, EBegin(id, now), []);
    } else {
      hide InFlight, AllAdmitted, Step;
      ClosedTakesFailure(cfg, s, id, clock);
      var s1 := Step(cfg, s, EBegin(id, clock));
      var s2 := Step(cfg, s1, EFail(id, clock));
      es := StuckIsReached(cfg, s2, clock);
      es := RunFirst(cfg, s1, EFail(id, clock), es);
      es := RunFirst(cfg, s, EBegin(id, clock), es);
    }
  }

  /**
   * Half-open always has a call in flight that will move it on, over all runs, if and only if `halfOpenMax` is at
   * least one.
   */
  lemma NeverStuckIffProbes(cfg: Config, clock: int)
    ensures (forall es ::
               InOrder(es, clock) && PossibleRun(cfg, START, es) && Run(cfg, START, es).b.status == HalfOpen ==>
                 InFlight(Run(cfg, START, es).log) != {})
            <==> cfg.halfOpenMax >= 1
  {
    if cfg.halfOpenMax >= 1 {
      forall es | PossibleRun(cfg, START, es) && Run(cfg, START, es).b.status == HalfOpen
        ensures InFlight(Run(cfg, START, es).log) != {}
      {
        HalfOpenIsLeft(cfg, es);
      }
    } else {
      var es := StuckIsReached(cfg, START, clock);
    }
  }

  /**
   * While a breaker is open, whatever the calls still in flight do, the time of the next attempt stands still
   * and every call before it is refused.
   */
  lemma {:induction false} OpenBlocks(cfg: Config, s: System, es: seq<Event>)
    requires s.b.status == Open
    requires forall e :: e in es ==> !e.EReset? && (e.EBegin? ==> e.now < s.b.nextAttemptTime)
    ensures var s' := Run(cfg, s, es);
            && s'.b.status == Open && s'.b.nextAttemptTime == s.b.nextAttemptTime
            && AllAdmitted(s'.log) == AllAdmitted(s.log)
    decreases |es|
  {
    if es != [] {
      OpenBlocks(cfg, Step(cfg, s, es[0]), es[1..]);
    }
  }

  /** The first call at or after that time is the one that is let through, as the first probe. */
  lemma OpenAdmitsAtTimeout(cfg: Config, es: seq<Event>, now: int)
    requires cfg.halfOpenMax >= 1 && PossibleRun(cfg, START, es) && Run(cfg, START, es).b.status == Open
    ensures var s := Run(cfg, START, es);
            && (Begin(cfg, s.b, now).1 == Admitted <==> now >= LastMove(s.log).at + cfg.resetTimeout)
            && (Begin(cfg, s.b, now).1 == Admitted ==>
                  Begin(cfg, s.b, now).0.status == HalfOpen && Begin(cfg, s.b, now).0.halfOpenAttempts == 1)
  {
    RunKeepsInv(cfg, START, es);
  }

  /** How many calls have been admitted since the breaker became half-open. */
  ghost function Probes(log: Log): nat {
    |AdmittedSinceMove(log)|
  }

  /**
   * Who is admitted, over all runs and in terms of the log: every call while closed, while open those after the timeout
   * if there are probes to give, while half-open those within the limit. All others carry the reason.
   */
  lemma AdmissionIff(cfg: Config, es: seq<Event>, now: int)
    requires PossibleRun(cfg, START, es)
    ensures var s := Run(cfg, START, es);
            var admission := Begin(cfg, s.b, now).1;
            var last := LastMove(s.log);
            var waited := now >= last.at + cfg.resetTimeout;
            && (admission == Admitted <==>
                  || last.to == Closed
                  || (last.to == Open && waited && cfg.halfOpenMax >= 1)
                  || (last.to == HalfOpen && Probes(s.log) < cfg.halfOpenMax))
            && (admission == RefusedOpen <==> last.to == Open && !waited)
            && (admission == RefusedLimit <==>
                  || (last.to == Open && waited && cfg.halfOpenMax < 1)
                  || (last.to == HalfOpen && Probes(s.log) >= cfg.halfOpenMax))
  {
    RunKeepsInv(cfg, START, es);
  }

  /** The status after an event, given the last move and the trailing run of failures before it. */
  ghost function NextStatus(cfg: Config, last: Entry, failures: nat, e: Event): Status
    requires last.LMove?
  {
    match e
    case EBegin(_, now) => if last.to == Open && now >= last.at + cfg.resetTimeout then HalfOpen else last.to
    case ESucceed(_, _) => if last.to == HalfOpen then Closed else last.to
    case EFail(_, _) => if last.to == HalfOpen || failures + 1 >= cfg.failureThreshold then Open else last.to
    case EReset(_) => Closed
  }

  /** Where each event leads, over all runs in terms of the log: what makes a breaker move, and nothing else does. */
  lemma StatusAfter(cfg: Config, es: seq<Event>, e: Event)
    requires PossibleRun(cfg, START, es) && Possible(Run(cfg, START, es), e)
    ensures var s := Run(cfg, START, es);
            var s' := Step(cfg, s, e);
            var last := LastMove(s.log);
            && s'.b.status == NextStatus(cfg, last, TrailingFailures(s.log), e)
            && LastMove(s'.log) == if s'.b.status == last.to then last else LMove(s'.b.status, e.now)
  {
    var s := Run(cfg, START, es);
    RunKeepsInv(cfg, START, es);
    StepKeepsInv(cfg, s, e);
    StepMoves(cfg, s, e);
    hide Inv;
  }

  lemma StepMoves(cfg: Config, s: System, e: Event)
    ensures var s' := Step(cfg, s, e);
            LastMove(s'.log) == if s'.b.status == s.b.status then LastMove(s.log) else LMove(s'.b.status, e.now)
  {
  }

  /** A reset closes the breaker from any state and forgets its failures; the next call is admitted at any time. */
  lemma ResetCloses(cfg: Config, es: seq<Event>, now: int, later: int)
    requires PossibleRun(cfg, START, es)
    ensures var s := Step(cfg, Run(cfg, START, es), EReset(now));
            && s.b == INITIAL
            && TrailingFailures(s.log) == 0
            && Begin(cfg, s.b, later) == (INITIAL, Admitted)
  {
    var s := Run(cfg, START, es);
    RunKeepsInv(cfg, START, es);
    StepKeepsInv(cfg, s, EReset(now));
  }

  ghost function NewCalls(cfg: Config, s: System, e: Event): set<CallId> {
    if e.EBegin? && Begin(cfg, s.b, e.now).1 == Admitted then {e.id} else {}
  }

  ghost function DoneCalls(e: Event): set<CallId> {
    if e.ESucceed? || e.EFail? then {e.id} else {}
  }

  /** How one event changes which calls are known and which are in flight. */
  lemma StepCalls(cfg: Config, s: System, e: Event)
    ensures AllAdmitted(Step(cfg, s, e).log) == AllAdmitted(s.log) + NewCalls(cfg, s, e)
    ensures InFlight(Step(cfg, s, e).log) == InFlight(s.log) + NewCalls(cfg, s, e) - DoneCalls(e)
  {
  }

  // ----- Outcomes -----

  /** How often each call has reported an outcome. */
  ghost function Outcomes(log: Log): multiset<CallId> {
    match log
    case Blank => multiset{}
    case Log(before, LSuccess(id)) => Outcomes(before) + multiset{id}
    case Log(before, LFailure(id)) => Outcomes(before) + multiset{id}
    case Log(before, _) => Outcomes(before)
  }

  ghost predicate ReportsOnce(log: Log) {
    && InFlight(log) <= AllAdmitted(log)
    && forall id :: Outcomes(log)[id] == if id in AllAdmitted(log) && id !in InFlight(log) then 1 else 0
  }

  lemma AddReportsOnce(log: Log, x: Entry)
    requires ReportsOnce(log)
    requires x.LAdmit? ==> x.id !in AllAdmitted(log)
    requires x.LSuccess? || x.LFailure? ==> x.id in InFlight(log)
    ensures ReportsOnce(Log(log, x))
  {
    hide InFlight, AllAdmitted;
    LogAdd(log, x);
  }

  lemma StepReportsOnce(cfg: Config, s: System, e: Event)
    requires ReportsOnce(s.log) && Possible(s, e)
    ensures ReportsOnce(Step(cfg, s, e).log)
  {
    hide ReportsOnce, Begin, Succeed, Fail, Reset;
    var move := LMove(Step(cfg, s, e).b.status, e.now);
    match e
    case EBegin(id, now) =>
      var (b, admission) := Begin(cfg, s.b, now);
      AddReportsOnce(s.log, move);
      var x := if admission == Admitted then LAdmit(id, now) else LRefuse(now, admission);
      AddReportsOnce(Moved(s.log, s.b, b, now), x);
    case ESucceed(id, now) =>
      AddReportsOnce(s.log, LSuccess(id));
      AddReportsOnce(Log(s.log, LSuccess(id)), move);
    case EFail(id, now) =>
      AddReportsOnce(s.log, LFailure(id));
      AddReportsOnce(Log(s.log, LFailure(id)), move);
    case EReset(now) =>
      AddReportsOnce(s.log, LReset);
      AddReportsOnce(Log(s.log, LReset), move);
  }
}
