/** The life of one call of the resilient client: it is the retry loop, whatever other calls do in between. */
module ClientRetries {
  import opened CircuitBreaking
  import opened ResilientClient
  import opened Retry

  /** How one attempt of a call ended. */
  datatype Attempt = Attempt(ok: bool, retryable: bool)

  function AttemptOf(e: ClientEvent, id: CallId): seq<Attempt> {
    if e.AttemptOk? && e.id == id then [Attempt(true, false)]
    else if e.AttemptFailed? && e.id == id then [Attempt(false, e.retryable)]
    else []
  }

  /** The attempts of one call in a run, in order. */
  function Attempts(es: seq<ClientEvent>, id: CallId): seq<Attempt> {
    if es == [] then [] else AttemptOf(es[0], id) + Attempts(es[1..], id)
  }

  predicate Ended(attempts: seq<Attempt>, maxAttempts: int, i: nat)
    requires i < |attempts|
  {
    attempts[i].ok || !attempts[i].retryable || i == maxAttempts - 1
  }

  ghost predicate NoneEnded(attempts: seq<Attempt>, maxAttempts: int, n: int)
    requires n <= |attempts|
  {
    forall i :: 0 <= i < n ==> !Ended(attempts, maxAttempts, i)
  }

  /** The call is over, and this is what the breaker was told. */
  ghost predicate Over(log: Log, id: CallId, attempts: seq<Attempt>, maxAttempts: int) {
    var n := |attempts| - 1;
    && (maxAttempts < 1 <==> attempts == [])
    && (attempts != [] ==> NoneEnded(attempts, maxAttempts, n) && Ended(attempts, maxAttempts, n))
    && (Has(log, LSuccess(id)) <==> attempts != [] && attempts[n].ok)
    && (Has(log, LFailure(id)) <==> !(attempts != [] && attempts[n].ok))
  }

  /** Where a call stands, given the attempts it has made. */
  ghost predicate Life(maxAttempts: int, c: Client, id: CallId, attempts: seq<Attempt>) {
    var log := c.sys.log;
    && c.sent[id] == |attempts| + (if id in c.calls && c.calls[id].Sending? then 1 else 0)
    && (id in c.calls || id !in AllAdmitted(log) ==>
          NoneEnded(attempts, maxAttempts, |attempts|) && !Has(log, LSuccess(id)) && !Has(log, LFailure(id)))
    && (id !in AllAdmitted(log) ==> attempts == [])
    && (id in c.calls && maxAttempts < 1 ==> attempts == [])
    && (id in AllAdmitted(log) && id !in c.calls ==> Over(log, id, attempts, maxAttempts))
  }

  /** What the breaker is told about a call in one event. */
  lemma StepTells(cfg: Config, s: System, e: Event, id: CallId)
    ensures var log := CircuitBreaking.Step(cfg, s, e).log;
            && (Has(log, LSuccess(id)) <==> Has(s.log, LSuccess(id)) || (e.ESucceed? && e.id == id))
            && (Has(log, LFailure(id)) <==> Has(s.log, LFailure(id)) || (e.EFail? && e.id == id))
  {
    hide Begin, Succeed, Fail, Reset;
  }

  lemma ClientTells(cfg: Config, maxAttempts: int, c: Client, e: ClientEvent, id: CallId)
    requires ResilientClient.Inv(cfg, maxAttempts, c) && ResilientClient.Possible(maxAttempts, c, e)
    ensures var log, log', told := c.sys.log, ResilientClient.Step(cfg, maxAttempts, c, e).sys.log,
                                   BreakerEvents(maxAttempts, c, e);
            && (Has(log', LSuccess(id)) <==>
                  Has(log, LSuccess(id)) || (told != [] && told[0].ESucceed? && told[0].id == id))
            && (Has(log', LFailure(id)) <==>
                  Has(log, LFailure(id)) || (told != [] && told[0].EFail? && told[0].id == id))
  {
    hide CircuitBreaking.Step, ResilientClient.Inv, ResilientClient.Possible;
    EventsArePossible(cfg, maxAttempts, c, e);
    var told := BreakerEvents(maxAttempts, c, e);
    if told != [] {
      StepTells(cfg, c.sys, told[0], id);
    }
  }

  /** Which calls are admitted after an event: those that were, and a call the breaker admits now. */
  lemma ClientAdmits(cfg: Config, maxAttempts: int, c: Client, e: ClientEvent, id: CallId)
    requires ResilientClient.Inv(cfg, maxAttempts, c) && ResilientClient.Possible(maxAttempts, c, e)
    ensures id in AllAdmitted(ResilientClient.Step(cfg, maxAttempts, c, e).sys.log) <==>
            id in AllAdmitted(c.sys.log) || (e.Call? && e.id == id && Begin(cfg, c.sys.b, e.now).1 == Admitted)
  {
    hide CircuitBreaking.Step, ResilientClient.Inv, ResilientClient.Possible, Begin, AllAdmitted, InFlight;
    EventsArePossible(cfg, maxAttempts, c, e);
    var told := BreakerEvents(maxAttempts, c, e);
    if told != [] {
      StepCalls(cfg, c.sys, told[0]);
    }
  }

  /** An event of another call changes nothing in the life of this one. */
  lemma OtherLife(cfg: Config, maxAttempts: int, c: Client, e: ClientEvent, id: CallId, attempts: seq<Attempt>)
    requires ResilientClient.Inv(cfg, maxAttempts, c) && ResilientClient.Possible(maxAttempts, c, e)
    requires Life(maxAttempts, c, id, attempts) && (e.ResetBreaker? || e.id != id)
    ensures Life(maxAttempts, ResilientClient.Step(cfg, maxAttempts, c, e), id, attempts)
  {
    OthersStay(cfg, maxAttempts, c, e, id);
    ClientTells(cfg, maxAttempts, c, e, id);
    ClientAdmits(cfg, maxAttempts, c, e, id);
    hide ResilientClient.Step, ResilientClient.Inv, ResilientClient.Possible, AllAdmitted, NoneEnded;
  }

  lemma OneMoreAttempt(attempts: seq<Attempt>, a: Attempt, maxAttempts: int)
    requires NoneEnded(attempts, maxAttempts, |attempts|)
    ensures NoneEnded(attempts + [a], maxAttempts, |attempts|)
    ensures Ended(attempts + [a], maxAttempts, |attempts|) <==> a.ok || !a.retryable || |attempts| == maxAttempts - 1
    ensures !Ended(attempts + [a], maxAttempts, |attempts|) ==> NoneEnded(attempts + [a], maxAttempts, |attempts| + 1)
  {
    forall i | 0 <= i < |attempts|
      ensures !Ended(attempts + [a], maxAttempts, i)
    {
      assert !Ended(attempts, maxAttempts, i);
    }
  }

  /** What the invariant says of one call. */
  lemma CallFacts(cfg: Config, maxAttempts: int, c: Client, id: CallId)
    requires ResilientClient.Inv(cfg, maxAttempts, c)
    ensures id in c.calls ==> id in AllAdmitted(c.sys.log) && CallInv(maxAttempts, c.calls[id], c.sent[id])
    ensures c.sent[id] <= Budget(maxAttempts)
  {
    FlightIsAdmitted(c.sys.log);
    hide CircuitBreaking.Inv, ReportsOnce, InFlight, AllAdmitted, CallInv;
    assert id in c.calls <==> id in InFlight(c.sys.log);
  }

  lemma OwnLife(cfg: Config, maxAttempts: int, c: Client, e: ClientEvent, id: CallId, attempts: seq<Attempt>)
    requires ResilientClient.Inv(cfg, maxAttempts, c) && ResilientClient.Possible(maxAttempts, c, e)
    requires Life(maxAttempts, c, id, attempts) && !e.ResetBreaker? && e.id == id
    ensures Life(maxAttempts, ResilientClient.Step(cfg, maxAttempts, c, e), id, attempts + AttemptOf(e, id))
  {
    hide ResilientClient.Inv, AllAdmitted, NoneEnded, Ended, Begin, Run;
    CallFacts(cfg, maxAttempts, c, id);
    ClientTells(cfg, maxAttempts, c, e, id);
    ClientAdmits(cfg, maxAttempts, c, e, id);
    assert attempts + [] == attempts;
    if AttemptOf(e, id) != [] {
      OneMoreAttempt(attempts, AttemptOf(e, id)[0], maxAttempts);
    }
  }

  lemma NotItsAttempt(e: ClientEvent, id: CallId)
    requires e.ResetBreaker? || e.id != id
    ensures AttemptOf(e, id) == []
  {
  }

  lemma {:induction false} RunLives(cfg: Config, maxAttempts: int, c: Client, es: seq<ClientEvent>, id: CallId,
                                    attempts: seq<Attempt>)
    requires ResilientClient.Inv(cfg, maxAttempts, c) && ResilientClient.PossibleRun(cfg, maxAttempts, c, es)
    requires Life(maxAttempts, c, id, attempts)
    ensures Life(maxAttempts, RunClient(cfg, maxAttempts, c, es), id, attempts + Attempts(es, id))
    decreases |es|
  {
    hide Life, ResilientClient.Inv, ResilientClient.Step, ResilientClient.Possible, AttemptOf;
    if es == [] {
      assert attempts + [] == attempts;
    } else {
      var e := es[0];
      var c' := ResilientClient.Step(cfg, maxAttempts, c, e);
      ResilientClient.StepKeepsInv(cfg, maxAttempts, c, e);
      if e.ResetBreaker? || e.id != id {
        OtherLife(cfg, maxAttempts, c, e, id, attempts);
        NotItsAttempt(e, id);
        assert attempts + AttemptOf(e, id) == attempts;
      } else {
        OwnLife(cfg, maxAttempts, c, e, id, attempts);
      }
      RunLives(cfg, maxAttempts, c', es[1..], id, attempts + AttemptOf(e, id));
      assert attempts + AttemptOf(e, id) + Attempts(es[1..], id) == attempts + Attempts(es, id);
    }
  }

  /** The retry loop with these outcomes would see what the call saw. */
  ghost predicate Sees<T, E>(outcomes: nat -> Outcome<T, E>, attempts: seq<Attempt>) {
    forall i :: 0 <= i < |attempts| ==>
                  && (outcomes(i).Success? <==> attempts[i].ok)
                  && (outcomes(i).Failure? ==> outcomes(i).retryable == attempts[i].retryable)
  }

  /**
   * A call that is over has done what the retry loop does on the outcomes of its attempts: it made as many sends, and
   * the breaker was told a success if the last attempt succeeded and a failure otherwise.
   */
  lemma CallIsRetryLoop<T, E>(cfg: Config, maxAttempts: int, es: seq<ClientEvent>, id: CallId,
                              outcomes: nat -> Outcome<T, E>)
    requires ResilientClient.PossibleRun(cfg, maxAttempts, ResilientClient.START, es)
    requires var c := RunClient(cfg, maxAttempts, ResilientClient.START, es);
             id in AllAdmitted(c.sys.log) && id !in c.calls && Sees(outcomes, Attempts(es, id))
    ensures var c := RunClient(cfg, maxAttempts, ResilientClient.START, es);
            && StopsAfter(outcomes, maxAttempts, c.sent[id])
            && (Has(c.sys.log, LSuccess(id)) <==> c.sent[id] > 0 && outcomes(c.sent[id] - 1).Success?)
            && (Has(c.sys.log, LFailure(id)) <==> !Has(c.sys.log, LSuccess(id)))
  {
    hide Sees, StopsAfter, ResilientClient.PossibleRun, RunClient, AllAdmitted, Over;
    RunLife(cfg, maxAttempts, es, id);
    var log := RunClient(cfg, maxAttempts, ResilientClient.START, es).sys.log;
    OverIsStop(outcomes, maxAttempts, log, id, Attempts(es, id));
  }

  /** Where a call stands after a run from the start. */
  lemma RunLife(cfg: Config, maxAttempts: int, es: seq<ClientEvent>, id: CallId)
    requires ResilientClient.PossibleRun(cfg, maxAttempts, ResilientClient.START, es)
    ensures var c := RunClient(cfg, maxAttempts, ResilientClient.START, es);
            && Life(maxAttempts, c, id, Attempts(es, id))
            && c.sent[id] <= Budget(maxAttempts)
            && (id in c.calls ==> CallInv(maxAttempts, c.calls[id], c.sent[id]))
  {
    ResilientClient.StartInv(cfg, maxAttempts);
    StartLife(maxAttempts, id);
    hide ResilientClient.Inv, Life, CallInv;
    RunLives(cfg, maxAttempts, ResilientClient.START, es, id, []);
    assert [] + Attempts(es, id) == Attempts(es, id);
    ResilientClient.RunKeepsInv(cfg, maxAttempts, ResilientClient.START, es);
    CallFacts(cfg, maxAttempts, RunClient(cfg, maxAttempts, ResilientClient.START, es), id);
  }

  lemma StartLife(maxAttempts: int, id: CallId)
    ensures Life(maxAttempts, ResilientClient.START, id, [])
  {
  }

  lemma OverIsStop<T, E>(outcomes: nat -> Outcome<T, E>, maxAttempts: int, log: Log, id: CallId, attempts: seq<Attempt>)
    requires Sees(outcomes, attempts) && Over(log, id, attempts, maxAttempts) && |attempts| <= Budget(maxAttempts)
    ensures StopsAfter(outcomes, maxAttempts, |attempts|)
    ensures Has(log, LSuccess(id)) <==> |attempts| > 0 && outcomes(|attempts| - 1).Success?
    ensures Has(log, LFailure(id)) <==> !Has(log, LSuccess(id))
  {
    forall i | 0 <= i < |attempts|
      ensures Ends(outcomes, maxAttempts, i) <==> Ended(attempts, maxAttempts, i)
    {
    }
  }

  /** A call that is not over has not been given up: every attempt so far failed and may be repeated. */
  lemma CallGoesOn(cfg: Config, maxAttempts: int, es: seq<ClientEvent>, id: CallId, i: nat)
    requires ResilientClient.PossibleRun(cfg, maxAttempts, ResilientClient.START, es)
    requires id in RunClient(cfg, maxAttempts, ResilientClient.START, es).calls && i < |Attempts(es, id)|
    ensures !Attempts(es, id)[i].ok && Attempts(es, id)[i].retryable && i < maxAttempts - 1
  {
    RunLife(cfg, maxAttempts, es, id);
    assert !Ended(Attempts(es, id), maxAttempts, i);
  }
}
