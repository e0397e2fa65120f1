/** Where the answers of the stampede guard come from: each is what the caller, or its leader, was told. */
module StampedeOutcomes {
  import opened Common
  import opened StampedeGuard

  /** The message of the last operation of a caller that failed. */
  function LastFailure(es: seq<Event>, id: CallerId): Option<string> {
    if es == [] then None
    else
      var e := es[|es| - 1];
      if e.Failed? && e.id == id then Some(e.message) else LastFailure(es[..|es| - 1], id)
  }

  lemma FailureAfter(es: seq<Event>, e: Event, id: CallerId)
    ensures LastFailure(es + [e], id) == if e.Failed? && e.id == id then Some(e.message) else LastFailure(es, id)
  {
    assert (es + [e])[..|es|] == es;
  }

  /** The error that a leader in this stage is going to throw, or has thrown. */
  function ErrorToCome(stage: Stage): Option<string> {
    if SettledStage(stage) && OutcomeOfEnd(stage).Error? then Some(OutcomeOfEnd(stage).message) else None
  }

  /** What a caller in this stage was told by the cache. */
  ghost predicate Answered(es: seq<Event>, id: CallerId, stage: Stage) {
    stage.Finished? ==>
      && (stage.result.Hit? ==> CacheHit(id, stage.result.content) in es)
      && (stage.result.ReadFailed? ==> CacheFailed(id, stage.result.message) in es)
  }

  ghost predicate Told(g: Guard, es: seq<Event>, id: CallerId) {
    && (id in g.callers ==>
          Answered(es, id, g.callers[id].stage) && ErrorToCome(g.callers[id].stage) == LastFailure(es, id))
    && (id !in g.callers ==> LastFailure(es, id) == None)
    && (id in g.made ==> Done(id, g.made[id]) in es)
  }

  /** Failing is what makes an error, and from then on the error stays or is replaced by a later one. */
  lemma MoverIsTold(g: Guard, es: seq<Event>, e: Event)
    requires Enabled(g, e) && Told(g, es, e.id)
    ensures Told(Step(g, e), es + [e], e.id)
  {
    hide Step, LastFailure;
    MoverMoves(g, e);
    FailureAfter(es, e, e.id);
    assert e in es + [e];
  }

  lemma OthersAreTold(g: Guard, es: seq<Event>, e: Event, id: CallerId)
    requires Enabled(g, e) && Told(g, es, id) && id != e.id
    ensures Told(Step(g, e), es + [e], id)
  {
    hide Step, LastFailure, ErrorToCome;
    OthersStay(g, e, id);
    FailureAfter(es, e, id);
  }

  lemma {:induction false} RunIsTold(g: Guard, past: seq<Event>, es: seq<Event>, id: CallerId)
    requires Possible(g, es) && Told(g, past, id)
    ensures Told(Run(g, es), past + es, id)
    decreases |es|
  {
    hide Told, Step, Enabled;
    if es == [] {
      assert past + es == past;
    } else {
      if es[0].id == id {
        MoverIsTold(g, past, es[0]);
      } else {
        OthersAreTold(g, past, es[0], id);
      }
      RunIsTold(Step(g, es[0]), past + [es[0]], es[1..], id);
      assert past + [es[0]] + es[1..] == past + es;
    }
  }

  lemma RunTold(es: seq<Event>, id: CallerId)
    requires Possible(START, es)
    ensures Told(Run(START, es), es, id)
  {
    RunIsTold(START, [], es, id);
    assert [] + es == es;
  }

  // ----- Main results -----

  /** A hit returns what the cache answered, and a failing read throws what the cache threw. */
  lemma HitsAreAnswers(es: seq<Event>, id: CallerId)
    requires Possible(START, es) && id in Run(START, es).callers && Run(START, es).callers[id].stage.Finished?
    ensures var r := Run(START, es).callers[id].stage.result;
            && (r.Hit? ==> CacheHit(id, r.content) in es)
            && (r.ReadFailed? ==> CacheFailed(id, r.message) in es)
  {
    RunTold(es, id);
  }

  /** The value a leader returns is what one of its operations, its factory, was reported to have produced. */
  lemma ValuesAreProduced(es: seq<Event>, id: CallerId)
    requires Possible(START, es) && id in Run(START, es).callers && HasLed(Run(START, es).callers[id].stage)
    ensures var o := Run(START, es).callers[id].stage.result.outcome;
            o.Value? ==> Done(id, o.content) in es
  {
    FactoriesRunInLeaders(es, id);
    RunTold(es, id);
  }

  /**
   * A leader throws exactly if one of its operations failed, and then what the last of them threw: an error of the
   * cleanup hides that of the factory.
   */
  lemma ErrorsAreFailures(es: seq<Event>, id: CallerId)
    requires Possible(START, es) && id in Run(START, es).callers && HasLed(Run(START, es).callers[id].stage)
    ensures var o := Run(START, es).callers[id].stage.result.outcome;
            && (o.Error? <==> LastFailure(es, id).Some?)
            && (o.Error? ==> LastFailure(es, id) == Some(o.message))
  {
    RunTold(es, id);
  }

  /** And a joiner throws what the last failing operation of its leader threw. */
  lemma JoinersThrowTheSame(es: seq<Event>, id: CallerId)
    requires Possible(START, es) && id in Run(START, es).callers && Run(START, es).callers[id].stage.Finished?
    requires Run(START, es).callers[id].stage.result.Joined?
    ensures var r := Run(START, es).callers[id].stage.result;
            && (r.outcome.Error? <==> LastFailure(es, r.leader).Some?)
            && (r.outcome.Error? ==> LastFailure(es, r.leader) == Some(r.outcome.message))
  {
    JoinersShare(es, id);
    RunTold(es, Run(START, es).callers[id].stage.result.leader);
  }
}
