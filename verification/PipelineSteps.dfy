/**
  Operator actions on a pipeline's steps: retry with its descendants, skip and cancel.
*/
module PipelineSteps {
  import opened Common
  import opened StepGraph

  datatype StepPhase = StepPending | StepRunning | StepSucceeded | StepFailed | StepSkipped | StepCancelled

  datatype StepStatus = StepStatus(
    name: string,
    phase: StepPhase,
    logRef: string,
    startedAt: Option<int>,
    completedAt: Option<int>)

  datatype PipelinePhase = PipelineUnset | PipelineRunning | PipelineSucceeded | PipelineFailed | PipelineCancelled

  datatype StepError = FailedPrecondition | NotFound | JobDeletionFailed

  /** The stored Pipeline object as a value. */
  datatype PipelineState = PipelineState(
    steps: seq<PipelineStep>,
    generation: int,
    observedGeneration: int,
    phase: PipelinePhase,
    statuses: seq<StepStatus>,
    lastExecution: Option<int>,
    lastExecutionId: string)

  predicate IsTerminal(phase: PipelinePhase) {
    phase.PipelineSucceeded? || phase.PipelineFailed? || phase.PipelineCancelled?
  }

  // ---------------------------------------------------------------- reachability over the step list

  /** Some entry of the list named `a` depends on `b`. */
  ghost predicate DependsOn(steps: seq<PipelineStep>, a: string, b: string) {
    exists s :: s in steps && s.name == a && b in s.depends
  }

  ghost predicate Chain(steps: seq<PipelineStep>, p: seq<string>) {
    p != [] && forall k | 0 <= k < |p| - 1 :: DependsOn(steps, p[k], p[k + 1])
  }

  ghost predicate IsChain(steps: seq<PipelineStep>, p: seq<string>, from: string, to: string) {
    Chain(steps, p) && p[0] == from && p[|p| - 1] == to
  }

  /** `from` is `to` or depends on it through any number of steps. */
  ghost predicate Reaches(steps: seq<PipelineStep>, from: string, to: string) {
    exists p :: IsChain(steps, p, from, to)
  }

  lemma ReachesItself(steps: seq<PipelineStep>, x: string)
    ensures Reaches(steps, x, x)
  {
    assert IsChain(steps, [x], x, x);
  }

  lemma ReachesThrough(steps: seq<PipelineStep>, a: string, b: string, to: string)
    requires DependsOn(steps, a, b) && Reaches(steps, b, to)
    ensures Reaches(steps, a, to)
  {
    var p :| IsChain(steps, p, b, to);
    var longer := [a] + p;
    forall k | 0 <= k < |longer| - 1 ensures DependsOn(steps, longer[k], longer[k + 1]) {
      if k > 0 {
        assert DependsOn(steps, p[k - 1], p[k]);
      }
    }
    assert IsChain(steps, longer, a, to);
  }

  lemma {:induction false} ClosedSetHoldsChain(steps: seq<PipelineStep>, marked: set<string>, p: seq<string>)
    requires Chain(steps, p) && p[|p| - 1] in marked
    requires forall a, b | DependsOn(steps, a, b) && b in marked :: a in marked
    ensures p[0] in marked
    decreases |p|
  {
    if |p| > 1 {
      assert DependsOn(steps, p[0], p[1]);
      forall k | 0 <= k < |p[1..]| - 1 ensures DependsOn(steps, p[1..][k], p[1..][k + 1]) {
        assert DependsOn(steps, p[k + 1], p[k + 2]);
      }
      ClosedSetHoldsChain(steps, marked, p[1..]);
    }
  }

  function Names(steps: seq<PipelineStep>): set<string> {
    set s | s in steps :: s.name
  }

  /** The repeat-until-unchanged marking: exactly the steps that reach `name`. */
  method AffectedSteps(steps: seq<PipelineStep>, name: string) returns (affected: set<string>)
    ensures forall x :: x in affected <==> Reaches(steps, x, name)
  {
    affected := {name};
    ReachesItself(steps, name);
    var changed := true;
    while changed
      invariant name in affected && affected <= Names(steps) + {name}
      invariant forall x | x in affected :: Reaches(steps, x, name)
      invariant !changed ==> forall i | 0 <= i < |steps| :: PassedOver(affected, steps[i])
      decreases Names(steps) + {name} - affected, changed
    {
      changed := false;
      ghost var before := affected;
      for i := 0 to |steps|
        invariant name in affected && before <= affected <= Names(steps) + {name}
        invariant changed <==> affected != before
        invariant forall x | x in affected :: Reaches(steps, x, name)
        invariant !changed ==> forall k | 0 <= k < i :: PassedOver(affected, steps[k])
      {
        for j := 0 to |steps[i].depends|
          invariant name in affected && before <= affected <= Names(steps) + {name}
          invariant changed <==> affected != before
          invariant forall x | x in affected :: Reaches(steps, x, name)
          invariant !changed ==> forall k | 0 <= k < i :: PassedOver(affected, steps[k])
          invariant !changed && steps[i].name !in affected ==>
                      forall k | 0 <= k < j :: steps[i].depends[k] !in affected
        {
          if steps[i].depends[j] in affected && steps[i].name !in affected {
            assert DependsOn(steps, steps[i].name, steps[i].depends[j]);
            ReachesThrough(steps, steps[i].name, steps[i].depends[j], name);
            affected, changed := affected + {steps[i].name}, true;
          }
        }
      }
    }
    forall x | Reaches(steps, x, name) ensures x in affected {
      var p :| IsChain(steps, p, x, name);
      ClosedSetHoldsChain(steps, affected, p);
    }
  }

  predicate PassedOver(affected: set<string>, step: PipelineStep) {
    step.name in affected || forall d | d in step.depends :: d !in affected
  }

  /** Marking depends on which steps there are, not on how they are listed. */
  lemma AffectedIgnoresOrder(steps: seq<PipelineStep>, reordered: seq<PipelineStep>, x: string, name: string)
    requires forall s :: s in steps <==> s in reordered
    ensures Reaches(steps, x, name) <==> Reaches(reordered, x, name)
  {
    if Reaches(steps, x, name) {
      var p :| IsChain(steps, p, x, name);
      ChainReordered(steps, reordered, p);
      assert IsChain(reordered, p, x, name);
    }
    if Reaches(reordered, x, name) {
      var p :| IsChain(reordered, p, x, name);
      ChainReordered(reordered, steps, p);
      assert IsChain(steps, p, x, name);
    }
  }

  lemma ChainReordered(steps: seq<PipelineStep>, reordered: seq<PipelineStep>, p: seq<string>)
    requires Chain(steps, p) && forall s | s in steps :: s in reordered
    ensures Chain(reordered, p)
  {
    forall k | 0 <= k < |p| - 1 ensures DependsOn(reordered, p[k], p[k + 1]) {
      assert DependsOn(steps, p[k], p[k + 1]);
    }
  }

  // ---------------------------------------------------------------- specification of the actions

  function FirstStatus(statuses: seq<StepStatus>, name: string): (r: Option<nat>)
    ensures r.Some? ==> r.value < |statuses| && statuses[r.value].name == name
    ensures r.Some? ==> forall k | 0 <= k < r.value :: statuses[k].name != name
    ensures r.None? ==> forall st | st in statuses :: st.name != name
  {
    if statuses == [] then None
    else if statuses[0].name == name then Some(0)
    else
      var rest := FirstStatus(statuses[1..], name);
      if rest.Some? then Some(rest.value + 1) else None
  }

  function FirstStep(steps: seq<PipelineStep>, name: string): (r: Option<PipelineStep>)
    ensures r.Some? ==> exists k :: 0 <= k < |steps| && steps[k] == r.value && r.value.name == name
                                    && forall i | 0 <= i < k :: steps[i].name != name
    ensures r.None? ==> forall s | s in steps :: s.name != name
  {
    if steps == [] then None
    else if steps[0].name == name then Some(steps[0])
    else
      var rest := FirstStep(steps[1..], name);
      assert rest.Some? ==> exists k :: 1 <= k < |steps| && steps[k] == rest.value && rest.value.name == name
                                        && forall i | 0 <= i < k :: steps[i].name != name by {
        if rest.Some? {
          var k :| 0 <= k < |steps[1..]| && steps[1..][k] == rest.value
                   && forall i | 0 <= i < k :: steps[1..][i].name != name;
          assert steps[k + 1] == rest.value;
          assert forall i | 1 <= i < k + 1 :: steps[i] == steps[1..][i - 1];
        }
      }
      rest
  }

  /** The phase map of the statuses: the last entry of a name counts. */
  function PhaseOf(statuses: seq<StepStatus>, name: string): Option<StepPhase> {
    if statuses == [] then None
    else
      var last := statuses[|statuses| - 1];
      if last.name == name then Some(last.phase) else PhaseOf(statuses[..|statuses| - 1], name)
  }

  predicate DependenciesSucceeded(statuses: seq<StepStatus>, step: PipelineStep) {
    forall d | d in step.depends :: PhaseOf(statuses, d) == Some(StepSucceeded)
  }

  ghost predicate Resolvable(steps: seq<PipelineStep>) {
    Closed(GraphOf(steps)) && !Cyclic(GraphOf(steps))
  }

  predicate Retryable(phase: StepPhase) {
    phase.StepFailed? || phase.StepSkipped?
  }

  ghost predicate RetryAccepted(p: PipelineState, name: string, jobsStopped: bool) {
    && p.phase.PipelineFailed? && p.observedGeneration == p.generation
    && Resolvable(p.steps)
    && FirstStatus(p.statuses, name).Some?
    && Retryable(p.statuses[FirstStatus(p.statuses, name).value].phase)
    && jobsStopped
    && FirstStep(p.steps, name).Some?
    && DependenciesSucceeded(p.statuses, FirstStep(p.steps, name).value)
  }

  function Fresh(name: string): StepStatus {
    StepStatus(name, StepPending, "", None, None)
  }

  /** The statuses after a retry: affected ones start afresh, the others keep their records. */
  ghost predicate RetriedStatuses(
      before: seq<StepStatus>, steps: seq<PipelineStep>, name: string, after: seq<StepStatus>)
  {
    && |after| == |before|
    && forall i | 0 <= i < |before| ::
         after[i] == if Reaches(steps, before[i].name, name) then Fresh(before[i].name) else before[i]
  }

  /** The execution identifier of a retry at `now`, in nanoseconds. */
  function RetryId(now: int): string {
    "retry-" + if now < 0 then "-" + Decimal(-now) else Decimal(now)
  }

  /** The identifier is "retry-" and the time, and reads back as the time. */
  lemma RetryIdReads(now: nat)
    ensures "retry-" <= RetryId(now) && ValueOf(RetryId(now)[6..]) == now
    ensures now > 0 ==> RetryId(0 - now) == "retry--" + RetryId(now)[6..]
  {
    DecimalIsExact(now);
    assert RetryId(now)[6..] == Decimal(now);
    assert "retry--" == "retry-" + "-";
  }

  /** Retries at different times start different executions. */
  lemma RetryIdsDiffer(a: int, b: int)
    ensures RetryId(a) == RetryId(b) <==> a == b
  {
    if RetryId(a) == RetryId(b) {
      var x, y := RetryId(a)[6..], RetryId(b)[6..];
      if a < 0 && b < 0 {
        assert x[1..] == Decimal(-a) && y[1..] == Decimal(-b);
        DecimalInjective(-a, -b);
      } else if a >= 0 && b >= 0 {
        DecimalInjective(a, b);
      }
    }
  }

  ghost predicate Retried(p: PipelineState, name: string, now: int, q: PipelineState) {
    && RetriedStatuses(p.statuses, p.steps, name, q.statuses)
    && q == p.(statuses := q.statuses, phase := PipelineRunning, lastExecution := Some(now),
               lastExecutionId := RetryId(now))
  }

  predicate SkipAccepted(p: PipelineState, name: string) {
    FirstStatus(p.statuses, name).Some? && p.statuses[FirstStatus(p.statuses, name).value].phase.StepPending?
  }

  function Skipped(p: PipelineState, name: string, now: int): PipelineState
    requires SkipAccepted(p, name)
  {
    var i := FirstStatus(p.statuses, name).value;
    p.(statuses := p.statuses[i := p.statuses[i].(phase := StepSkipped, completedAt := Some(now))])
  }

  function CancelledStatus(st: StepStatus, now: int): StepStatus {
    if st.phase.StepRunning? then st.(phase := StepCancelled, completedAt := Some(now)) else st
  }

  function Cancelled(p: PipelineState, now: int): PipelineState {
    p.(phase := PipelineCancelled, statuses := seq(|p.statuses|, i requires 0 <= i < |p.statuses| => CancelledStatus(p.statuses[i], now)))
  }

  // ---------------------------------------------------------------- the stored object

  method ValidateRetryStep(statuses: seq<StepStatus>, name: string) returns (e: Option<StepError>)
    ensures e.None? <==> FirstStatus(statuses, name).Some? &&
                         statuses[FirstStatus(statuses, name).value].phase in {StepFailed, StepSkipped}
    ensures e == Some(NotFound) <==> FirstStatus(statuses, name).None?
  {
    for i := 0 to |statuses|
      invariant forall k | 0 <= k < i :: statuses[k].name != name
    {
      if statuses[i].name == name {
        assert statuses[i] in statuses;
        return if Retryable(statuses[i].phase) then None else Some(FailedPrecondition);
      }
    }
    return Some(NotFound);
  }

  method ValidateDependencies(steps: seq<PipelineStep>, statuses: seq<StepStatus>, name: string)
    returns (ok: bool)
    ensures ok <==> FirstStep(steps, name).Some? && DependenciesSucceeded(statuses, FirstStep(steps, name).value)
  {
    var phases: map<string, StepPhase> := map[];
    for i := 0 to |statuses|
      invariant forall n :: n in phases <==> PhaseOf(statuses[..i], n).Some?
      invariant forall n | n in phases :: PhaseOf(statuses[..i], n) == Some(phases[n])
    {
      assert statuses[..i + 1][..i] == statuses[..i];
      phases := phases[statuses[i].name := statuses[i].phase];
    }
    assert statuses[..|statuses|] == statuses;
    for i := 0 to |steps|
      invariant FirstStep(steps, name) == FirstStep(steps[i..], name)
    {
      assert steps[i..][1..] == steps[i + 1..];
      if steps[i].name == name {
        for j := 0 to |steps[i].depends|
          invariant forall k | 0 <= k < j :: PhaseOf(statuses, steps[i].depends[k]) == Some(StepSucceeded)
        {
          var d := steps[i].depends[j];
          if d !in phases || phases[d] != StepSucceeded {
            return false;
          }
        }
        return true;
      }
    }
    return false;
  }

  class Pipeline {
    const steps: seq<PipelineStep>
    var generation: int
    var observedGeneration: int
    var phase: PipelinePhase
    var statuses: seq<StepStatus>
    var lastExecution: Option<int>
    var lastExecutionId: string

    constructor (p: PipelineState)
      ensures State() == p
    {
      steps, generation, observedGeneration := p.steps, p.generation, p.observedGeneration;
      phase, statuses := p.phase, p.statuses;
      lastExecution, lastExecutionId := p.lastExecution, p.lastExecutionId;
    }

    function State(): PipelineState
      reads this
    {
      PipelineState(steps, generation, observedGeneration, phase, statuses, lastExecution, lastExecutionId)
    }

    /** Overwrites the records of the steps that reach `name` and starts a new execution. */
    method ResetAffected(name: string, now: int)
      modifies this
      ensures Retried(old(State()), name, now, State())
    {
      var affected := AffectedSteps(steps, name);
      for i := 0 to |statuses|
        invariant State() == old(State()).(statuses := statuses)
        invariant |statuses| == |old(statuses)|
        invariant forall k | i <= k < |statuses| :: statuses[k] == old(statuses)[k]
        invariant forall k | 0 <= k < i :: statuses[k] ==
                    if old(statuses)[k].name in affected then Fresh(old(statuses)[k].name) else old(statuses)[k]
      {
        if statuses[i].name in affected {
          statuses := statuses[i := Fresh(statuses[i].name)];
        }
      }
      phase, lastExecution, lastExecutionId := PipelineRunning, Some(now), RetryId(now);
    }

    /** Resets the step and everything that depends on it; a refusal changes nothing. */
    method RetryStep(name: string, jobsStopped: bool, now: int) returns (e: Option<StepError>)
      modifies this
      ensures e.None? <==> old(RetryAccepted(State(), name, jobsStopped))
      ensures e.None? ==> Retried(old(State()), name, now, State())
      ensures e.Some? ==> State() == old(State())
    {
      if phase != PipelineFailed || observedGeneration != generation {
        return Some(FailedPrecondition);
      }
      var dag := ResolveDag(steps);
      if dag.Err? {
        return Some(FailedPrecondition);
      }
      e := ValidateRetryStep(statuses, name);
      if e.Some? {
        return;
      }
      if !jobsStopped {
        return Some(FailedPrecondition);
      }
      var ready := ValidateDependencies(steps, statuses, name);
      if !ready {
        return Some(FailedPrecondition);
      }
      ResetAffected(name, now);
    }

    method SkipStep(name: string, now: int) returns (e: Option<StepError>)
      modifies this
      ensures e.None? <==> old(SkipAccepted(State(), name))
      ensures e.None? ==> old(SkipAccepted(State(), name)) && State() == Skipped(old(State()), name, now)
      ensures e.None? ==> exists i ::
        (&& 0 <= i < |old(statuses)| && old(statuses)[i].name == name && old(statuses)[i].phase == StepPending
         && (forall k | 0 <= k < i :: old(statuses)[k].name != name)
         && statuses == old(statuses)[i := old(statuses)[i].(phase := StepSkipped, completedAt := Some(now))])
      ensures e == Some(NotFound) <==> old(FirstStatus(statuses, name).None?)
      ensures e.Some? ==> State() == old(State())
    {
      for i := 0 to |statuses|
        invariant State() == old(State())
        invariant forall k | 0 <= k < i :: statuses[k].name != name
      {
        if statuses[i].name == name {
          assert statuses[i] in statuses;
          if !statuses[i].phase.StepPending? {
            return Some(FailedPrecondition);
          }
          statuses := statuses[i := statuses[i].(phase := StepSkipped, completedAt := Some(now))];
          return None;
        }
      }
      return Some(NotFound);
    }

    /** Cancels a pipeline that has not ended. The status is stored before the Jobs are deleted,
        so a deletion that fails reports an error on a pipeline that is cancelled. */
    method CancelPipeline(now: int, jobsDeleted: bool) returns (e: Option<StepError>)
      modifies this
      ensures e == Some(FailedPrecondition) <==> old(phase) in {PipelineSucceeded, PipelineFailed, PipelineCancelled}
      ensures e == Some(JobDeletionFailed) <==>
        old(phase) !in {PipelineSucceeded, PipelineFailed, PipelineCancelled} && !jobsDeleted
      ensures e != Some(NotFound)
      ensures e == Some(FailedPrecondition) ==> State() == old(State())
      ensures e != Some(FailedPrecondition) ==>
        && State() == Cancelled(old(State()), now) && phase == PipelineCancelled
        && |statuses| == |old(statuses)|
        && forall i | 0 <= i < |statuses| :: statuses[i] ==
             if old(statuses)[i].phase == StepRunning
             then old(statuses)[i].(phase := StepCancelled, completedAt := Some(now)) else old(statuses)[i]
    {
      if IsTerminal(phase) {
        return Some(FailedPrecondition);
      }
      phase := PipelineCancelled;
      for i := 0 to |statuses|
        invariant State() == old(State()).(phase := PipelineCancelled, statuses := statuses)
        invariant |statuses| == |old(statuses)|
        invariant forall k | i <= k < |statuses| :: statuses[k] == old(statuses)[k]
        invariant forall k | 0 <= k < i :: statuses[k] == CancelledStatus(old(statuses)[k], now)
      {
        if statuses[i].phase.StepRunning? {
          statuses := statuses[i := statuses[i].(phase := StepCancelled, completedAt := Some(now))];
        }
      }
      return if jobsDeleted then None else Some(JobDeletionFailed);
    }
  }
}
