/** Sagas: steps carried out in order, undone in reverse order when one of them fails. */
module Saga {
  import opened Common

  type Error = string

  /** Carrying a step out, or compensating it, changes the world and may throw. */
  datatype Step<!W> = Step(name: string, execute: W -> (W, Option<Error>), compensate: (W, Error) -> (W, Option<Error>))

  datatype SagaResult =
    | Completed(completedSteps: seq<string>)
    | RolledBack(completedSteps: seq<string>, failedStep: string, error: Error, compensatedSteps: seq<string>)

  /** What is done to the world, by position of the step. */
  datatype Action = Executed(step: nat) | Failed(step: nat) | Compensated(step: nat)

  // ----- Building -----

  datatype BuildResult<!W> = Built(name: string, steps: seq<Step<W>>) | NoSteps(name: string)

  class SagaBuilder<!W> {
    const name: string
    var steps: seq<Step<W>>

    constructor (name: string)
      ensures this.name == name && steps == []
    {
      this.name, steps := name, [];
    }

    method AddStep(step: Step<W>)
      modifies this
      ensures steps == old(steps) + [step]
    {
      steps := steps + [step];
    }

    method Build() returns (r: BuildResult<W>)
      ensures r == if steps == [] then NoSteps(name) else Built(name, steps)
    {
      if |steps| == 0 { return NoSteps(name); }
      r := Built(name, steps);
    }
  }

  // ----- What a run does -----

  function Names<W>(steps: seq<Step<W>>): seq<string> {
    seq(|steps|, i requires 0 <= i < |steps| => steps[i].name)
  }

  /** The world after the first `n` steps, failing or not. */
  function After<W>(steps: seq<Step<W>>, w: W, n: nat): W
    requires n <= |steps|
  {
    if n == 0 then w else steps[n - 1].execute(After(steps, w, n - 1)).0
  }

  predicate Succeeds<W>(steps: seq<Step<W>>, w: W, i: nat)
    requires i < |steps|
  {
    steps[i].execute(After(steps, w, i)).1.None?
  }

  /** The first step of that name, the one `find` returns; the number of steps if there is none. */
  function Find<W>(steps: seq<Step<W>>, name: string): (i: nat)
    ensures i <= |steps| && (i < |steps| ==> steps[i].name == name)
    ensures forall j :: 0 <= j < i ==> steps[j].name != name
  {
    if steps == [] || steps[0].name == name then 0 else Find(steps[1..], name) + 1
  }

  /** Compensating the named steps, last name first; a name without a step is passed over. */
  function CompensatedWorld<W>(steps: seq<Step<W>>, names: seq<string>, w: W, error: Error): W {
    if names == [] then w
    else
      var i := Find(steps, names[|names| - 1]);
      CompensatedWorld(steps, names[..|names| - 1], if i < |steps| then steps[i].compensate(w, error).0 else w, error)
  }

  function CompensationTrace<W>(steps: seq<Step<W>>, names: seq<string>): seq<Action> {
    if names == [] then []
    else
      var i := Find(steps, names[|names| - 1]);
      (if i < |steps| then [Compensated(i)] else []) + CompensationTrace(steps, names[..|names| - 1])
  }

  /** The names that are reported as compensated. */
  function CompensatedNames<W>(steps: seq<Step<W>>, names: seq<string>): seq<string> {
    if names == [] then []
    else
      var name := names[|names| - 1];
      (if Find(steps, name) < |steps| then [name] else []) + CompensatedNames(steps, names[..|names| - 1])
  }

  function ExecutionTrace(k: nat): seq<Action> {
    seq(k, i requires 0 <= i < k => Executed(i))
  }

  method Lookup<W>(steps: seq<Step<W>>, name: string) returns (i: nat)
    ensures i == Find(steps, name)
  {
    i := 0;
    while i < |steps| && steps[i].name != name
      invariant i <= |steps| && forall j :: 0 <= j < i ==> steps[j].name != name
    {
      i := i + 1;
    }
  }

  /** The world after these actions have been carried out, one after the other. */
  function Perform<W>(steps: seq<Step<W>>, w: W, trace: seq<Action>, error: Error): W {
    if trace == [] then w
    else
      var before := Perform(steps, w, trace[..|trace| - 1], error);
      match trace[|trace| - 1]
      case Executed(i) => if i < |steps| then steps[i].execute(before).0 else before
      case Failed(i) => if i < |steps| then steps[i].execute(before).0 else before
      case Compensated(i) => if i < |steps| then steps[i].compensate(before, error).0 else before
  }

  lemma {:induction false} PerformExecution<W>(steps: seq<Step<W>>, w: W, k: nat, error: Error)
    requires k <= |steps|
    ensures Perform(steps, w, ExecutionTrace(k), error) == After(steps, w, k)
  {
    if k > 0 {
      PerformExecution(steps, w, k - 1, error);
      assert ExecutionTrace(k)[..k - 1] == ExecutionTrace(k - 1);
    }
  }

  lemma PerformFailure<W>(steps: seq<Step<W>>, w: W, k: nat, error: Error)
    requires k < |steps|
    ensures Perform(steps, w, ExecutionTrace(k) + [Failed(k)], error) == After(steps, w, k + 1)
  {
    PerformExecution(steps, w, k, error);
    assert (ExecutionTrace(k) + [Failed(k)])[..k] == ExecutionTrace(k);
  }

  lemma PerformUndo<W>(steps: seq<Step<W>>, w: W, trace: seq<Action>, i: nat, error: Error)
    requires i < |steps|
    ensures Perform(steps, w, trace + [Compensated(i)], error) ==
            steps[i].compensate(Perform(steps, w, trace, error), error).0
  {
    assert (trace + [Compensated(i)])[..|trace|] == trace;
  }

  lemma {:induction false} PerformCompensation<W>(steps: seq<Step<W>>, w: W, trace: seq<Action>, names: seq<string>,
                                                  error: Error)
    ensures Perform(steps, w, trace + CompensationTrace(steps, names), error) ==
            CompensatedWorld(steps, names, Perform(steps, w, trace, error), error)
    decreases |names|
  {
    hide Find, CompensatedWorld, CompensationTrace, Perform;
    var now := Perform(steps, w, trace, error);
    if names == [] {
      NothingToCompensate(steps, now, error);
      assert trace + [] == trace;
    } else {
      var n := |names| - 1;
      OneCompensation(steps, names, n, now, error);
      assert names[..n + 1] == names;
      var i, undo := Find(steps, names[n]), CompensationTrace(steps, names[..n]);
      if i < |steps| {
        PerformUndo(steps, w, trace, i, error);
        PerformCompensation(steps, w, trace + [Compensated(i)], names[..n], error);
        assert trace + [Compensated(i)] + undo == trace + ([Compensated(i)] + undo);
      } else {
        PerformCompensation(steps, w, trace, names[..n], error);
        assert [] + undo == undo;
      }
    }
  }

  /** What the result of a run that fails at step `k` is, performed. */
  lemma PerformRollback<W>(steps: seq<Step<W>>, w: W, k: nat, names: seq<string>, error: Error)
    requires k < |steps|
    ensures Perform(steps, w, ExecutionTrace(k) + [Failed(k)] + CompensationTrace(steps, names), error) ==
            CompensatedWorld(steps, names, After(steps, w, k + 1), error)
  {
    PerformFailure(steps, w, k, error);
    PerformCompensation(steps, w, ExecutionTrace(k) + [Failed(k)], names, error);
  }

  /** One turn of the compensation loop. */
  lemma OneCompensation<W>(steps: seq<Step<W>>, completed: seq<string>, i: nat, w: W, error: Error)
    requires i < |completed|
    ensures var s, name, before, now := Find(steps, completed[i]), completed[i], completed[..i], completed[..i + 1];
            && CompensatedNames(steps, now) == (if s < |steps| then [name] else []) + CompensatedNames(steps, before)
            && CompensationTrace(steps, now) ==
               (if s < |steps| then [Compensated(s)] else []) + CompensationTrace(steps, before)
            && CompensatedWorld(steps, now, w, error) ==
               CompensatedWorld(steps, before, if s < |steps| then steps[s].compensate(w, error).0 else w, error)
  {
    assert completed[..i + 1][..i] == completed[..i];
  }

  lemma NothingToCompensate<W>(steps: seq<Step<W>>, w: W, error: Error)
    ensures CompensatedNames(steps, []) == [] && CompensationTrace(steps, []) == []
    ensures CompensatedWorld(steps, [], w, error) == w
  {
  }

  /** Compensation goes on to the next step even where it throws. */
  method Compensate<W>(steps: seq<Step<W>>, completed: seq<string>, world: W, error: Error)
    returns (compensated: seq<string>, world': W, ghost trace: seq<Action>)
    ensures compensated == CompensatedNames(steps, completed)
    ensures world' == CompensatedWorld(steps, completed, world, error)
    ensures trace == CompensationTrace(steps, completed)
  {
    hide CompensatedNames, CompensationTrace, CompensatedWorld, Find;
    compensated, world', trace := [], world, [];
    var i := |completed|;
    assert completed[..i] == completed;
    while i > 0
      invariant 0 <= i <= |completed|
      invariant compensated + CompensatedNames(steps, completed[..i]) == CompensatedNames(steps, completed)
      invariant CompensatedWorld(steps, completed[..i], world', error) ==
                CompensatedWorld(steps, completed, world, error)
      invariant trace + CompensationTrace(steps, completed[..i]) == CompensationTrace(steps, completed)
    {
      var stepName := completed[i - 1];
      OneCompensation(steps, completed, i - 1, world', error);
      var s := Lookup(steps, stepName);
      if s < |steps| {
        world' := steps[s].compensate(world', error).0;
        compensated := compensated + [stepName];
        trace := trace + [Compensated(s)];
      }
      i := i - 1;
    }
    NothingToCompensate(steps, world', error);
  }

  /** Names of steps are found, so all of them are reported, in reverse. */
  lemma {:induction false} AllAreCompensated<W>(steps: seq<Step<W>>, k: nat)
    requires k <= |steps|
    ensures CompensatedNames(steps, Names(steps)[..k]) == Reversed(Names(steps)[..k])
  {
    if k > 0 {
      AllAreCompensated(steps, k - 1);
      assert Names(steps)[..k][..k - 1] == Names(steps)[..k - 1];
      assert Find(steps, steps[k - 1].name) <= k - 1;
    }
  }

  method Execute<W>(steps: seq<Step<W>>, world: W) returns (r: SagaResult, world': W, ghost trace: seq<Action>)
    ensures r.Completed? <==> forall i :: 0 <= i < |steps| ==> Succeeds(steps, world, i)
    ensures r.Completed? ==> r.completedSteps == Names(steps) && world' == After(steps, world, |steps|)
                             && trace == ExecutionTrace(|steps|)
    ensures r.RolledBack? ==>
              var k := |r.completedSteps|;
              && k < |steps| && !Succeeds(steps, world, k) && (forall i :: 0 <= i < k ==> Succeeds(steps, world, i))
              && r.completedSteps == Names(steps)[..k] && r.failedStep == steps[k].name
              && r.error == steps[k].execute(After(steps, world, k)).1.value
              && r.compensatedSteps == Reversed(r.completedSteps)
              && world' == CompensatedWorld(steps, r.completedSteps, After(steps, world, k + 1), r.error)
              && trace == ExecutionTrace(k) + [Failed(k)] + CompensationTrace(steps, r.completedSteps)
    ensures world' == Perform(steps, world, trace, if r.RolledBack? then r.error else "")
  {
    hide Perform, CompensatedWorld, CompensationTrace;
    var completed: seq<string> := [];
    world', trace := world, [];
    for k := 0 to |steps|
      invariant completed == Names(steps)[..k]
      invariant world' == After(steps, world, k)
      invariant forall i :: 0 <= i < k ==> Succeeds(steps, world, i)
      invariant trace == ExecutionTrace(k)
    {
      var (w, thrown) := steps[k].execute(world');
      world' := w;
      if thrown.Some? {
        assert !Succeeds(steps, world, k) && |completed| == k;
        assert world' == After(steps, world, k + 1);
        AllAreCompensated(steps, k);
        var compensated, w', undo := Compensate(steps, completed, world', thrown.value);
        PerformRollback(steps, world, k, completed, thrown.value);
        trace := trace + [Failed(k)] + undo;
        return RolledBack(completed, steps[k].name, thrown.value, compensated), w', trace;
      }
      completed := completed + [steps[k].name];
      trace := trace + [Executed(k)];
    }
    PerformExecution(steps, world, |steps|, "");
    r := Completed(completed);
  }

  // ----- Each completed step is compensated itself -----

  ghost predicate DistinctNames<W>(steps: seq<Step<W>>, k: nat)
    requires k <= |steps|
  {
    forall i, j :: 0 <= i < j < k ==> steps[i].name != steps[j].name
  }

  /** The positions that the compensation of the first `k` steps visits. */
  lemma {:induction false} TraceOf<W>(steps: seq<Step<W>>, k: nat)
    requires k <= |steps|
    ensures var t := CompensationTrace(steps, Names(steps)[..k]);
            |t| == k && forall i :: 0 <= i < k ==> t[i] == Compensated(Find(steps, Names(steps)[k - 1 - i]))
  {
    hide Find, CompensationTrace;
    if k > 0 {
      TraceOf(steps, k - 1);
      TraceOfOneMore(steps, k - 1);
    } else {
      NoTrace(steps);
      assert Names(steps)[..0] == [];
    }
  }

  lemma NoTrace<W>(steps: seq<Step<W>>)
    ensures CompensationTrace(steps, []) == []
  {
  }

  lemma TraceOfOneMore<W>(steps: seq<Step<W>>, k: nat)
    requires k < |steps|
    ensures CompensationTrace(steps, Names(steps)[..k + 1]) ==
            [Compensated(Find(steps, Names(steps)[k]))] + CompensationTrace(steps, Names(steps)[..k])
  {
    assert Names(steps)[..k + 1][..k] == Names(steps)[..k];
    NamesAreFound(steps, k);
  }

  lemma NamesAreFound<W>(steps: seq<Step<W>>, k: nat)
    requires k < |steps|
    ensures Find(steps, Names(steps)[k]) < |steps|
  {
  }

  function BackwardTrace(k: nat): seq<Action> {
    seq(k, i requires 0 <= i < k => Compensated(k - 1 - i))
  }

  lemma DistinctAreFound<W>(steps: seq<Step<W>>, k: nat, j: nat)
    requires j < k <= |steps|
    ensures DistinctNames(steps, k) ==> Find(steps, Names(steps)[j]) == j
    ensures Find(steps, Names(steps)[j]) == j ==> forall i :: 0 <= i < j ==> steps[i].name != steps[j].name
  {
  }

  /**
   * The steps `k - 1, ..., 0` are compensated, each once and in that order, exactly if their names are distinct:
   * steps are found again by name, so a repeated name is looked up as its first bearer.
   */
  lemma CompensatesItselfIffDistinct<W>(steps: seq<Step<W>>, k: nat)
    requires k <= |steps|
    ensures CompensationTrace(steps, Names(steps)[..k]) == BackwardTrace(k) <==> DistinctNames(steps, k)
  {
    hide Find;
    TraceOf(steps, k);
    var t := CompensationTrace(steps, Names(steps)[..k]);
    forall j | 0 <= j < k
      ensures t[k - 1 - j] == Compensated(Find(steps, Names(steps)[j]))
      ensures DistinctNames(steps, k) ==> t[k - 1 - j] == BackwardTrace(k)[k - 1 - j]
      ensures t[k - 1 - j] == BackwardTrace(k)[k - 1 - j] ==> forall i :: 0 <= i < j ==> steps[i].name != steps[j].name
    {
      DistinctAreFound(steps, k, j);
    }
    if DistinctNames(steps, k) {
      forall i | 0 <= i < k
        ensures t[i] == BackwardTrace(k)[i]
      {
        assert t[k - 1 - (k - 1 - i)] == BackwardTrace(k)[k - 1 - (k - 1 - i)];
      }
    }
  }

  // ----- Rolling back -----

  /** Compensation undoes the step: after a successful execution it leads back, even if it then throws. */
  ghost predicate Undoes<W(!new)>(s: Step<W>) {
    forall w, error :: s.execute(w).1.None? ==> s.compensate(s.execute(w).0, error).0 == w
  }

  /** A failing execution leaves the world alone. */
  ghost predicate FailsCleanly<W(!new)>(s: Step<W>) {
    forall w :: s.execute(w).1.Some? ==> s.execute(w).0 == w
  }

  lemma StepIsFound<W>(steps: seq<Step<W>>, k: nat, i: nat)
    requires i < k <= |steps| && DistinctNames(steps, k)
    ensures Find(steps, Names(steps)[i]) == i
  {
  }

  lemma {:induction false} UndoAll<W(!new)>(steps: seq<Step<W>>, w: W, k: nat, error: Error)
    requires k <= |steps| && DistinctNames(steps, k)
    requires forall i :: 0 <= i < k ==> Undoes(steps[i]) && Succeeds(steps, w, i)
    ensures CompensatedWorld(steps, Names(steps)[..k], After(steps, w, k), error) == w
  {
    hide Find, CompensatedWorld, CompensationTrace, CompensatedNames;
    var names := Names(steps)[..k];
    if k == 0 {
      NothingToCompensate(steps, w, error);
      assert names == [];
    } else {
      assert names[..k - 1] == Names(steps)[..k - 1] && names[..k] == names;
      StepIsFound(steps, k, k - 1);
      OneCompensation(steps, names, k - 1, After(steps, w, k), error);
      assert Undoes(steps[k - 1]) && Succeeds(steps, w, k - 1);
      UndoAll(steps, w, k - 1, error);
    }
  }

  /**
   * Rollback: where the first `k` steps succeed and the next one fails, compensating them leads back to the world the
   * saga started in, if their names are distinct, compensations undo their steps and a failing step changes nothing.
   */
  lemma RollbackRestores<W(!new)>(steps: seq<Step<W>>, w: W, k: nat, error: Error)
    requires k < |steps| && DistinctNames(steps, k)
    requires forall i :: 0 <= i < k ==> Undoes(steps[i]) && Succeeds(steps, w, i)
    requires FailsCleanly(steps[k]) && !Succeeds(steps, w, k)
    ensures CompensatedWorld(steps, Names(steps)[..k], After(steps, w, k + 1), error) == w
  {
    assert After(steps, w, k + 1) == After(steps, w, k);
    UndoAll(steps, w, k, error);
  }
}
