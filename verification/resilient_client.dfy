/** Calls that go through a circuit breaker and are retried inside it. */
module ResilientClient {
  import opened Common
  import opened CircuitBreaking

  /** Where one admitted call stands: number of sends made so far, and whether the last one is outstanding. */
  datatype Progress = Sending(sends: nat) | Sleeping(sends: nat)

  datatype Client = Client(sys: System, calls: map<CallId, Progress>, sent: multiset<CallId>)

  datatype ClientEvent =
    | Call(id: CallId, now: int)
    | AttemptOk(id: CallId, now: int)
    | AttemptFailed(id: CallId, retryable: bool, now: int)
    | Woken(id: CallId)                // the back-off sleep is over
    | GiveUp(id: CallId, now: int)     // only when no attempt is allowed at all
    | ResetBreaker(now: int)

  function Drop(calls: map<CallId, Progress>, id: CallId): map<CallId, Progress> {
    calls - {id}
  }

  /** What one client event is for the breaker: nothing, or one event. */
  function BreakerEvents(maxAttempts: int, c: Client, e: ClientEvent): seq<Event> {
    match e
    case Call(id, now) => [EBegin(id, now)]
    case AttemptOk(id, now) => [ESucceed(id, now)]
    case AttemptFailed(id, retryable, now) =>
      if id in c.calls && retryable && c.calls[id].sends < maxAttempts then [] else [EFail(id, now)]
    case Woken(_) => []
    case GiveUp(id, now) => [EFail(id, now)]
    case ResetBreaker(now) => [EReset(now)]
  }

  function Step(cfg: Config, maxAttempts: int, c: Client, e: ClientEvent): Client {
    var sys := Run(cfg, c.sys, BreakerEvents(maxAttempts, c, e));
    match e
    case Call(id, now) =>
      if Begin(cfg, c.sys.b, now).1 != Admitted then Client(sys, c.calls, c.sent)
      else if maxAttempts < 1 then Client(sys, c.calls[id := Sleeping(0)], c.sent)
      else Client(sys, c.calls[id := Sending(1)], c.sent + multiset{id})
    case AttemptOk(id, _) => Client(sys, Drop(c.calls, id), c.sent)
    case AttemptFailed(id, retryable, _) =>
      if id in c.calls && retryable && c.calls[id].sends < maxAttempts
      then Client(sys, c.calls[id := Sleeping(c.calls[id].sends)], c.sent)
      else Client(sys, Drop(c.calls, id), c.sent)
    case Woken(id) =>
      if id in c.calls then Client(sys, c.calls[id := Sending(c.calls[id].sends + 1)], c.sent + multiset{id}) else c
    case GiveUp(id, _) => Client(sys, Drop(c.calls, id), c.sent)
    case ResetBreaker(_) => Client(sys, c.calls, c.sent)
  }

  /** Calls are new, and attempts, wake-ups and give-ups happen to calls in the right stage. */
  ghost predicate Possible(maxAttempts: int, c: Client, e: ClientEvent) {
    match e
    case Call(id, _) => id !in AllAdmitted(c.sys.log)
    case AttemptOk(id, _) => id in c.calls && c.calls[id].Sending?
    case AttemptFailed(id, _, _) => id in c.calls && c.calls[id].Sending?
    case Woken(id) => id in c.calls && c.calls[id].Sleeping? && maxAttempts >= 1
    case GiveUp(id, _) => id in c.calls && c.calls[id].Sleeping? && maxAttempts < 1
    case ResetBreaker(_) => true
  }

  const START := Client(CircuitBreaking.START, map[], multiset{})

  function RunClient(cfg: Config, maxAttempts: int, c: Client, es: seq<ClientEvent>): Client
    decreases |es|
  {
    if es == [] then c else RunClient(cfg, maxAttempts, Step(cfg, maxAttempts, c, es[0]), es[1..])
  }

  ghost predicate PossibleRun(cfg: Config, maxAttempts: int, c: Client, es: seq<ClientEvent>)
    decreases |es|
  {
    es == [] || (&& Possible(maxAttempts, c, es[0])
                 && PossibleRun(cfg, maxAttempts, Step(cfg, maxAttempts, c, es[0]), es[1..]))
  }

  ghost function Budget(maxAttempts: int): nat {
    if maxAttempts < 1 then 0 else maxAttempts
  }

  /** The calls the client works on are those the breaker waits for, and no call exceeds its attempts. */
  ghost predicate Inv(cfg: Config, maxAttempts: int, c: Client) {
    && CircuitBreaking.Inv(cfg, c.sys) && ReportsOnce(c.sys.log)
    && c.calls.Keys == InFlight(c.sys.log)
    && (forall id :: id in c.sent ==> id in AllAdmitted(c.sys.log))
    && (forall id :: c.sent[id] <= Budget(maxAttempts))
    && (forall id :: id in c.calls ==> CallInv(maxAttempts, c.calls[id], c.sent[id]))
  }

  ghost predicate CallInv(maxAttempts: int, p: Progress, sent: nat) {
    && p.sends == sent
    && (p.Sending? ==> 1 <= sent)
    && (p.Sleeping? ==> if maxAttempts < 1 then sent == 0 else sent < maxAttempts)
  }

  /** Each client event is a possible event of the breaker, or none. */
  lemma EventsArePossible(cfg: Config, maxAttempts: int, c: Client, e: ClientEvent)
    requires Inv(cfg, maxAttempts, c) && Possible(maxAttempts, c, e)
    ensures var es := BreakerEvents(maxAttempts, c, e);
            && |es| <= 1 && (|es| == 1 ==> CircuitBreaking.Possible(c.sys, es[0]))
            && Run(cfg, c.sys, es) == if es == [] then c.sys else CircuitBreaking.Step(cfg, c.sys, es[0])
  {
    var es := BreakerEvents(maxAttempts, c, e);
    if es != [] {
      assert es[1..] == [];
    }
  }

  lemma SystemKeepsInv(cfg: Config, maxAttempts: int, c: Client, e: ClientEvent)
    requires Inv(cfg, maxAttempts, c) && Possible(maxAttempts, c, e)
    ensures var sys := Step(cfg, maxAttempts, c, e).sys;
            CircuitBreaking.Inv(cfg, sys) && ReportsOnce(sys.log)
  {
    hide CircuitBreaking.Inv, ReportsOnce;
    EventsArePossible(cfg, maxAttempts, c, e);
    var es := BreakerEvents(maxAttempts, c, e);
    if es != [] {
      CircuitBreaking.StepKeepsInv(cfg, c.sys, es[0]);
      StepReportsOnce(cfg, c.sys, es[0]);
    }
  }

  /** The same step on the call table alone, given what the breaker admitted and completed. */
  lemma CallsFollow(cfg: Config, maxAttempts: int, c: Client, e: ClientEvent)
    requires Inv(cfg, maxAttempts, c) && Possible(maxAttempts, c, e)
    ensures var c' := Step(cfg, maxAttempts, c, e);
            && c'.calls.Keys == InFlight(c'.sys.log)
            && AllAdmitted(c.sys.log) <= AllAdmitted(c'.sys.log)
            && (e.Call? && e.id in c'.sent ==> e.id in AllAdmitted(c'.sys.log))
  {
    hide CircuitBreaking.Inv, ReportsOnce, Begin, CircuitBreaking.Step, CallInv;
    EventsArePossible(cfg, maxAttempts, c, e);
    var es := BreakerEvents(maxAttempts, c, e);
    if es != [] {
      StepCalls(cfg, c.sys, es[0]);
    }
  }

  lemma FlightIsAdmitted(log: Log)
    requires ReportsOnce(log)
    ensures InFlight(log) <= AllAdmitted(log)
  {
  }

  /** A client event concerns one call only. */
  lemma OthersStay(cfg: Config, maxAttempts: int, c: Client, e: ClientEvent, id: CallId)
    requires Possible(maxAttempts, c, e) && (e.ResetBreaker? || id != e.id)
    ensures var c' := Step(cfg, maxAttempts, c, e);
            && c'.sent[id] == c.sent[id] && (id in c'.calls <==> id in c.calls)
            && (id in c.calls ==> c'.calls[id] == c.calls[id])
  {
    hide Begin, Run, BreakerEvents;
  }

  lemma CallerSends(cfg: Config, maxAttempts: int, c: Client, e: ClientEvent)
    requires Inv(cfg, maxAttempts, c) && Possible(maxAttempts, c, e) && !e.ResetBreaker?
    ensures var c' := Step(cfg, maxAttempts, c, e);
            && c'.sent[e.id] <= Budget(maxAttempts)
            && (e.id in c'.calls ==> CallInv(maxAttempts, c'.calls[e.id], c'.sent[e.id]))
  {
    hide CircuitBreaking.Inv, ReportsOnce, Begin, Run, BreakerEvents;
    FlightIsAdmitted(c.sys.log);
    assert c.sent[e.id] <= Budget(maxAttempts);
  }

  lemma SendsFollow(cfg: Config, maxAttempts: int, c: Client, e: ClientEvent)
    requires Inv(cfg, maxAttempts, c) && Possible(maxAttempts, c, e)
    ensures var c' := Step(cfg, maxAttempts, c, e);
            forall id :: && c'.sent[id] <= Budget(maxAttempts)
                         && (id in c'.calls ==> CallInv(maxAttempts, c'.calls[id], c'.sent[id]))
  {
    hide CircuitBreaking.Inv, ReportsOnce, Step, Possible, CallInv, Budget;
    var c' := Step(cfg, maxAttempts, c, e);
    forall id
      ensures c'.sent[id] <= Budget(maxAttempts) && (id in c'.calls ==> CallInv(maxAttempts, c'.calls[id], c'.sent[id]))
    {
      if e.ResetBreaker? || id != e.id {
        assert c.sent[id] <= Budget(maxAttempts);
        OthersStay(cfg, maxAttempts, c, e, id);
      } else {
        CallerSends(cfg, maxAttempts, c, e);
      }
    }
  }

  lemma StepKeepsInv(cfg: Config, maxAttempts: int, c: Client, e: ClientEvent)
    requires Inv(cfg, maxAttempts, c) && Possible(maxAttempts, c, e)
    ensures Inv(cfg, maxAttempts, Step(cfg, maxAttempts, c, e))
  {
    hide CircuitBreaking.Inv, ReportsOnce, Begin, Run, BreakerEvents, CallInv, Budget;
    FlightIsAdmitted(c.sys.log);
    SystemKeepsInv(cfg, maxAttempts, c, e);
    CallsFollow(cfg, maxAttempts, c, e);
    SendsFollow(cfg, maxAttempts, c, e);
  }

  lemma StartInv(cfg: Config, maxAttempts: int)
    ensures Inv(cfg, maxAttempts, START)
  {
  }

  lemma {:induction false} RunKeepsInv(cfg: Config, maxAttempts: int, c: Client, es: seq<ClientEvent>)
    requires Inv(cfg, maxAttempts, c) && PossibleRun(cfg, maxAttempts, c, es)
    ensures Inv(cfg, maxAttempts, RunClient(cfg, maxAttempts, c, es))
    decreases |es|
  {
    if es != [] {
      StepKeepsInv(cfg, maxAttempts, c, es[0]);
      RunKeepsInv(cfg, maxAttempts, Step(cfg, maxAttempts, c, es[0]), es[1..]);
    }
  }

  // ----- Counting sends -----

  /** How many sends the calls in `ids` made together. */
  ghost function SendsOf(sent: multiset<CallId>, ids: set<CallId>): nat {
    if ids == {} then 0
    else
      var id := Pick(ids);
      sent[id] + SendsOf(sent, ids - {id})
  }

  lemma {:induction false} SendsAreBounded(sent: multiset<CallId>, ids: set<CallId>, budget: nat)
    requires forall id :: id in ids ==> sent[id] <= budget
    ensures SendsOf(sent, ids) <= budget * |ids|
  {
    if ids != {} {
      var id := Pick(ids);
      SendsAreBounded(sent, ids - {id}, budget);
      assert |ids| == |ids - {id}| + 1;
      assert budget * |ids| == budget * |ids - {id}| + budget;
    }
  }

  lemma {:induction false} SendsAgree(sent: multiset<CallId>, sent': multiset<CallId>, ids: set<CallId>)
    requires forall id :: id in ids ==> sent[id] == sent'[id]
    ensures SendsOf(sent, ids) == SendsOf(sent', ids)
  {
    if ids != {} {
      SendsAgree(sent, sent', ids - {Pick(ids)});
    }
  }

  lemma {:induction false} SendsAreAll(sent: multiset<CallId>, ids: set<CallId>)
    requires forall id :: id in sent ==> id in ids
    ensures SendsOf(sent, ids) == |sent|
  {
    if ids == {} {
      assert sent == multiset{};
    } else {
      var id := Pick(ids);
      var rest := sent[id := 0];
      SendsAreAll(rest, ids - {id});
      SendsAgree(sent, rest, ids - {id});
    }
  }

  // ----- Main results -----

  /**
   * Whatever happens, each call that has left the client reported exactly one outcome, and each one still there none.
   */
  lemma OneOutcomePerCall(cfg: Config, maxAttempts: int, es: seq<ClientEvent>)
    requires PossibleRun(cfg, maxAttempts, START, es)
    ensures var c := RunClient(cfg, maxAttempts, START, es);
            && c.calls.Keys <= AllAdmitted(c.sys.log)
            && (forall id :: id in AllAdmitted(c.sys.log) ==> Outcomes(c.sys.log)[id] == if id in c.calls then 0 else 1)
            && (forall id :: id !in AllAdmitted(c.sys.log) ==> Outcomes(c.sys.log)[id] == 0 && c.sent[id] == 0)
  {
    RunKeepsInv(cfg, maxAttempts, START, es);
  }

  /** All sends together stay within the attempts of the admitted calls; refused calls send nothing. */
  lemma TotalSends(cfg: Config, maxAttempts: int, es: seq<ClientEvent>)
    requires PossibleRun(cfg, maxAttempts, START, es)
    ensures var c := RunClient(cfg, maxAttempts, START, es);
            |c.sent| <= Budget(maxAttempts) * |AllAdmitted(c.sys.log)|
  {
    var c := RunClient(cfg, maxAttempts, START, es);
    RunKeepsInv(cfg, maxAttempts, START, es);
    SendsAreAll(c.sent, AllAdmitted(c.sys.log));
    SendsAreBounded(c.sent, AllAdmitted(c.sys.log), Budget(maxAttempts));
  }

  lemma {:induction false} RunsCompose(cfg: Config, maxAttempts: int, c: Client, es: seq<ClientEvent>,
                                       fs: seq<ClientEvent>)
    requires PossibleRun(cfg, maxAttempts, c, es)
    requires PossibleRun(cfg, maxAttempts, RunClient(cfg, maxAttempts, c, es), fs)
    ensures PossibleRun(cfg, maxAttempts, c, es + fs)
    ensures RunClient(cfg, maxAttempts, c, es + fs) ==
            RunClient(cfg, maxAttempts, RunClient(cfg, maxAttempts, c, es), fs)
    decreases |es|
  {
    if es == [] {
      assert es + fs == fs;
    } else {
      assert (es + fs)[1..] == es[1..] + fs;
      RunsCompose(cfg, maxAttempts, Step(cfg, maxAttempts, c, es[0]), es[1..], fs);
    }
  }

  lemma ProductGrows(a: nat, x: nat, y: nat)
    requires x <= y
    ensures a * x <= y * a
  {
  }

  lemma ProbesAreFew(cfg: Config, s: System)
    requires CircuitBreaking.Inv(cfg, s) && cfg.halfOpenMax >= 1 && s.b.status == HalfOpen
    ensures |AdmittedSinceMove(s.log)| <= cfg.halfOpenMax
  {
  }

  /**
   * The probes of one half-open episode, followed for as long as one likes, send at most `halfOpenMax * maxAttempts`
   * times.
   */
  lemma EpisodeSends(cfg: Config, maxAttempts: int, es: seq<ClientEvent>, fs: seq<ClientEvent>)
    requires cfg.halfOpenMax >= 1
    requires PossibleRun(cfg, maxAttempts, START, es)
    requires RunClient(cfg, maxAttempts, START, es).sys.b.status == HalfOpen
    requires PossibleRun(cfg, maxAttempts, RunClient(cfg, maxAttempts, START, es), fs)
    ensures var probes := AdmittedSinceMove(RunClient(cfg, maxAttempts, START, es).sys.log);
            SendsOf(RunClient(cfg, maxAttempts, START, es + fs).sent, probes) <= cfg.halfOpenMax * Budget(maxAttempts)
  {
    hide SendsOf, CircuitBreaking.Inv, ReportsOnce, AdmittedSinceMove;
    var c := RunClient(cfg, maxAttempts, START, es);
    var probes := AdmittedSinceMove(c.sys.log);
    StartInv(cfg, maxAttempts);
    RunKeepsInv(cfg, maxAttempts, START, es);
    RunsCompose(cfg, maxAttempts, START, es, fs);
    RunKeepsInv(cfg, maxAttempts, START, es + fs);
    SendsAreBounded(RunClient(cfg, maxAttempts, START, es + fs).sent, probes, Budget(maxAttempts));
    ProbesAreFew(cfg, c.sys);
    ProductGrows(Budget(maxAttempts), |probes|, cfg.halfOpenMax);
  }
}
