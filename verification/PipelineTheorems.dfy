/** What retry, skip and cancel keep, over every run and together with the workflow engine. */
module PipelineTheorems {
  import opened Common
  import opened StepGraph
  import opened PipelineSteps

  // ---------------------------------------------------------------- the step list and the graph

  /** Every edge of the graph comes from the list. */
  lemma {:induction false} GraphEdgeInList(steps: seq<PipelineStep>, a: string, b: string)
    requires Edge(GraphOf(steps), a, b)
    ensures DependsOn(steps, a, b)
  {
    var last := steps[|steps| - 1];
    if last.name == a {
      assert last in steps;
    } else {
      var front := steps[..|steps| - 1];
      GraphEdgeInList(front, a, b);
      var s :| s in front && s.name == a && b in s.depends;
      assert s in steps;
    }
  }

  ghost predicate UniqueNames(steps: seq<PipelineStep>) {
    forall i, j | 0 <= i < j < |steps| :: steps[i].name != steps[j].name
  }

  lemma {:induction false} GraphHoldsUnique(steps: seq<PipelineStep>, i: nat)
    requires UniqueNames(steps) && i < |steps|
    ensures steps[i].name in GraphOf(steps) && GraphOf(steps)[steps[i].name] == steps[i].depends
  {
    if i < |steps| - 1 {
      GraphHoldsUnique(steps[..|steps| - 1], i);
    }
  }

  /** With unique names the list has no other edges than the graph. */
  lemma ListEdgeInGraph(steps: seq<PipelineStep>, a: string, b: string)
    requires UniqueNames(steps) && DependsOn(steps, a, b)
    ensures Edge(GraphOf(steps), a, b)
  {
    var s :| s in steps && s.name == a && b in s.depends;
    var i :| 0 <= i < |steps| && steps[i] == s;
    GraphHoldsUnique(steps, i);
  }

  /** In an acyclic pipeline with unique names no dependency of a step reaches the step. */
  lemma DependencyDoesNotReachBack(steps: seq<PipelineStep>, a: string, b: string)
    requires UniqueNames(steps) && !Cyclic(GraphOf(steps)) && DependsOn(steps, a, b)
    ensures !Reaches(steps, b, a)
  {
    if Reaches(steps, b, a) {
      ReachesThrough(steps, a, b, a);
      var p :| IsChain(steps, p, b, a);
      var cycle := [a] + p;
      forall k | 0 <= k < |cycle| - 1 ensures Edge(GraphOf(steps), cycle[k], cycle[k + 1]) {
        if k > 0 {
          assert DependsOn(steps, p[k - 1], p[k]);
        }
        ListEdgeInGraph(steps, cycle[k], cycle[k + 1]);
      }
      assert Path(GraphOf(steps), cycle);
    }
  }

  // ---------------------------------------------------------------- one accepted retry

  lemma {:induction false} PhaseOfRetried(
      before: seq<StepStatus>, steps: seq<PipelineStep>, name: string, after: seq<StepStatus>, d: string)
    requires RetriedStatuses(before, steps, name, after)
    ensures PhaseOf(before, d).Some? <==> PhaseOf(after, d).Some?
    ensures PhaseOf(after, d).Some? ==>
              PhaseOf(after, d) == if Reaches(steps, d, name) then Some(StepPending) else PhaseOf(before, d)
  {
    if before != [] {
      var n := |before| - 1;
      assert after[n].name == before[n].name;
      PhaseOfRetried(before[..n], steps, name, after[..n], d);
    }
  }

  /** After an accepted retry the target's dependencies are all still Succeeded exactly when
      none of them reaches the target through the step list. */
  lemma RetryKeepsDependenciesIff(p: PipelineState, name: string, jobsStopped: bool, now: int, q: PipelineState)
    requires RetryAccepted(p, name, jobsStopped) && Retried(p, name, now, q)
    ensures DependenciesSucceeded(q.statuses, FirstStep(p.steps, name).value) <==>
            forall d | d in FirstStep(p.steps, name).value.depends :: !Reaches(p.steps, d, name)
  {
    var step := FirstStep(p.steps, name).value;
    forall d | d in step.depends
      ensures PhaseOf(q.statuses, d) == Some(StepSucceeded) <==> !Reaches(p.steps, d, name)
    {
      PhaseOfRetried(p.statuses, p.steps, name, q.statuses, d);
    }
  }

  /** With unique step names that is always so: the target is a fresh Pending step, its
      dependencies are still Succeeded, and every record outside its descendants is untouched. */
  lemma RetryResetsDescendantsOnly(p: PipelineState, name: string, jobsStopped: bool, now: int, q: PipelineState)
    requires RetryAccepted(p, name, jobsStopped) && Retried(p, name, now, q) && UniqueNames(p.steps)
    ensures PhaseOf(q.statuses, name) == Some(StepPending)
    ensures forall i | 0 <= i < |q.statuses| && q.statuses[i].name == name ::
      q.statuses[i] == StepStatus(name, StepPending, "", None, None)
    ensures forall d | d in FirstStep(p.steps, name).value.depends :: PhaseOf(q.statuses, d) == Some(StepSucceeded)
    ensures q.phase == PipelineRunning && q.lastExecution == Some(now)
    ensures DependenciesSucceeded(q.statuses, FirstStep(p.steps, name).value)
    ensures forall i | 0 <= i < |p.statuses| && !Reaches(p.steps, p.statuses[i].name, name) ::
              q.statuses[i] == p.statuses[i]
  {
    var step := FirstStep(p.steps, name).value;
    forall d | d in step.depends ensures !Reaches(p.steps, d, name) {
      assert DependsOn(p.steps, name, d);
      DependencyDoesNotReachBack(p.steps, name, d);
    }
    RetryKeepsDependenciesIff(p, name, jobsStopped, now, q);
    ReachesItself(p.steps, name);
    PhaseOfRetried(p.statuses, p.steps, name, q.statuses, name);
    var i := FirstStatus(p.statuses, name).value;
    PhaseOfPresent(p.statuses, i);
  }

  lemma {:induction false} PhaseOfPresent(statuses: seq<StepStatus>, i: nat)
    requires i < |statuses|
    ensures PhaseOf(statuses, statuses[i].name).Some?
  {
    var n := |statuses| - 1;
    if i < n && statuses[n].name != statuses[i].name {
      PhaseOfPresent(statuses[..n], i);
    }
  }

  /** A pipeline with two entries named "b": the graph keeps the second and is acyclic, while
      the marking still sees the first, which depends on "a". */
  function DuplicateStepExample(): PipelineState {
    PipelineState(
      [PipelineStep("a", ["b"]), PipelineStep("b", ["a"]), PipelineStep("b", [])],
      1, 1, PipelineFailed,
      [StepStatus("a", StepFailed, "", None, None), StepStatus("b", StepSucceeded, "log", Some(1), Some(2))],
      None, "")
  }

  lemma DuplicateStepGraph()
    ensures GraphOf(DuplicateStepExample().steps) == map["a" := ["b"], "b" := []]
  {
    var p := DuplicateStepExample();
    var a, b0 := p.steps[0], p.steps[1];
    assert p.steps[..2] == [a, b0] && [a, b0][..1] == [a];
    assert GraphOf([a]) == map["a" := ["b"]] by {
      assert [a][..0] == [];
    }
    assert GraphOf([a, b0]) == map["a" := ["b"], "b" := ["a"]];
  }

  /** The retry itself does not look for repeated step names, and with one it can reset the very
      prerequisite it has just required to be Succeeded. Such a pipeline exists only where the
      admission webhook is switched off. */
  lemma RetryCanResetItsPrerequisite(q: PipelineState, now: int)
    requires Retried(DuplicateStepExample(), "a", now, q)
    ensures RetryAccepted(DuplicateStepExample(), "a", true)
    ensures FirstStep(DuplicateStepExample().steps, "a").value.depends == ["b"]
    ensures PhaseOf(q.statuses, "b") == Some(StepPending)
  {
    DuplicateStepGraph();
    var p := DuplicateStepExample();
    var b0 := p.steps[1];
    var g := GraphOf(p.steps);
    var order := ["b", "a"];
    assert Ordered(g, order) by {
      assert order[..1] == ["b"] && order[..0] == [];
    }
    OrderExcludesCycle(g, order);
    var done := p.statuses[1];
    assert p.statuses[|p.statuses| - 1] == done;
    assert PhaseOf(p.statuses, "b") == Some(StepSucceeded);
    assert DependsOn(p.steps, "b", "a") by {
      assert b0 in p.steps;
    }
    ReachesItself(p.steps, "a");
    ReachesThrough(p.steps, "b", "a", "a");
    PhaseOfRetried(p.statuses, p.steps, "a", q.statuses, "b");
  }

  // ---------------------------------------------------------------- runs

  /** What can happen to a pipeline: the three operator actions, and the workflow engine, which
      only touches a pipeline while it is Running. */
  datatype Event =
    | Retry(name: string, jobsStopped: bool, now: int)
    | Skip(name: string, now: int)
    | Cancel(now: int)
    | EngineStart(index: nat, now: int)
    | EngineBlock(index: nat, now: int)
    | EngineFinish(index: nat, succeeded: bool, log: string, now: int)
    | EngineConclude(succeeded: bool)

  /** The engine starts a pending step only when everything the graph makes it wait for has
      succeeded, and skips it otherwise. */
  ghost predicate EngineReady(p: PipelineState, name: string) {
    forall d | Edge(GraphOf(p.steps), name, d) :: Done(p.statuses, d)
  }

  /** Some record says the step succeeded, and none says otherwise. */
  ghost predicate Done(statuses: seq<StepStatus>, name: string) {
    && (exists st :: st in statuses && st.name == name)
    && (forall st | st in statuses && st.name == name :: st.phase == StepSucceeded)
  }

  ghost predicate Transition(p: PipelineState, e: Event, q: PipelineState) {
    match e
    case Retry(name, jobsStopped, now) =>
      if RetryAccepted(p, name, jobsStopped) then Retried(p, name, now, q) else q == p
    case Skip(name, now) => q == if SkipAccepted(p, name) then Skipped(p, name, now) else p
    case Cancel(now) => q == if IsTerminal(p.phase) then p else Cancelled(p, now)
    case EngineStart(i, now) =>
      && p.phase.PipelineRunning? && i < |p.statuses| && p.statuses[i].phase.StepPending?
      && EngineReady(p, p.statuses[i].name)
      && q == p.(statuses := p.statuses[i := p.statuses[i].(phase := StepRunning, startedAt := Some(now))])
    case EngineBlock(i, now) =>
      && p.phase.PipelineRunning? && i < |p.statuses| && p.statuses[i].phase.StepPending?
      && !EngineReady(p, p.statuses[i].name)
      && q == p.(statuses := p.statuses[i := p.statuses[i].(phase := StepSkipped, completedAt := Some(now))])
    case EngineFinish(i, succeeded, log, now) =>
      && p.phase.PipelineRunning? && i < |p.statuses| && p.statuses[i].phase.StepRunning?
      && q == p.(statuses := p.statuses[i := p.statuses[i].(
           phase := if succeeded then StepSucceeded else StepFailed, logRef := log, completedAt := Some(now))])
    case EngineConclude(succeeded) =>
      && p.phase.PipelineRunning?
      && q == p.(phase := if succeeded then PipelineSucceeded else PipelineFailed)
  }

  ghost predicate Execution(trace: seq<PipelineState>, events: seq<Event>) {
    && |trace| == |events| + 1
    && forall k | 0 <= k < |events| :: Transition(trace[k], events[k], trace[k + 1])
  }

  /** A step that runs or has succeeded rests on succeeded dependencies only. */
  ghost predicate RestsOnSuccess(p: PipelineState) {
    forall st, d | st in p.statuses && (st.phase.StepSucceeded? || st.phase.StepRunning?)
                   && Edge(GraphOf(p.steps), st.name, d) :: Done(p.statuses, d)
  }

  ghost predicate CancelledIsQuiet(p: PipelineState) {
    p.phase.PipelineCancelled? ==> forall st | st in p.statuses :: !st.phase.StepRunning?
  }

  /** Changing one record that is not Succeeded leaves every finished step finished. */
  lemma DoneKept(before: seq<StepStatus>, i: nat, st: StepStatus, d: string)
    requires i < |before| && Done(before, d) && before[i].phase != StepSucceeded
    requires st.name == before[i].name
    ensures Done(before[i := st], d)
  {
    var after := before[i := st];
    assert before[i] in before;
    var w :| w in before && w.name == d;
    var k :| 0 <= k < |before| && before[k] == w;
    assert after[k] in after && after[k].name == d;
    forall x | x in after && x.name == d ensures x.phase == StepSucceeded {
      var j :| 0 <= j < |after| && after[j] == x;
      assert before[j] in before;
    }
  }

  lemma RetryKeepsRests(p: PipelineState, name: string, now: int, q: PipelineState)
    requires RestsOnSuccess(p) && Retried(p, name, now, q)
    ensures RestsOnSuccess(q)
  {
    forall st, d | st in q.statuses && (st.phase.StepSucceeded? || st.phase.StepRunning?)
                   && Edge(GraphOf(q.steps), st.name, d)
      ensures Done(q.statuses, d)
    {
      var i :| 0 <= i < |q.statuses| && q.statuses[i] == st;
      assert p.statuses[i] == st && p.statuses[i] in p.statuses;
      GraphEdgeInList(p.steps, st.name, d);
      if Reaches(p.steps, d, name) {
        ReachesThrough(p.steps, st.name, d, name);
      }
      assert Done(p.statuses, d);
      RetriedDone(p, name, now, q, d);
    }
  }

  lemma RetriedDone(p: PipelineState, name: string, now: int, q: PipelineState, d: string)
    requires Retried(p, name, now, q) && Done(p.statuses, d) && !Reaches(p.steps, d, name)
    ensures Done(q.statuses, d)
  {
    var w :| w in p.statuses && w.name == d;
    var k :| 0 <= k < |p.statuses| && p.statuses[k] == w;
    assert q.statuses[k] in q.statuses && q.statuses[k].name == d;
    forall x | x in q.statuses && x.name == d ensures x.phase == StepSucceeded {
      var j :| 0 <= j < |q.statuses| && q.statuses[j] == x;
      assert p.statuses[j] in p.statuses;
    }
  }

  /** One record changed, from a phase that is not Succeeded, and the new phase is justified. */
  lemma RecordKeepsRests(p: PipelineState, i: nat, st: StepStatus, q: PipelineState)
    requires RestsOnSuccess(p) && i < |p.statuses| && st.name == p.statuses[i].name
    requires p.statuses[i].phase != StepSucceeded
    requires st.phase.StepSucceeded? || st.phase.StepRunning? ==> EngineReady(p, st.name)
    requires q == p.(statuses := p.statuses[i := st])
    ensures RestsOnSuccess(q)
  {
    forall x, d | x in q.statuses && (x.phase.StepSucceeded? || x.phase.StepRunning?)
                  && Edge(GraphOf(q.steps), x.name, d)
      ensures Done(q.statuses, d)
    {
      var j :| 0 <= j < |q.statuses| && q.statuses[j] == x;
      if j != i {
        assert p.statuses[j] in p.statuses;
      }
      DoneKept(p.statuses, i, st, d);
    }
  }

  lemma CancelKeepsRests(p: PipelineState, now: int)
    requires RestsOnSuccess(p)
    ensures RestsOnSuccess(Cancelled(p, now)) && CancelledIsQuiet(Cancelled(p, now))
  {
    var q := Cancelled(p, now);
    forall x, d | x in q.statuses && (x.phase.StepSucceeded? || x.phase.StepRunning?)
                  && Edge(GraphOf(q.steps), x.name, d)
      ensures Done(q.statuses, d)
    {
      var j :| 0 <= j < |q.statuses| && q.statuses[j] == x;
      assert p.statuses[j] in p.statuses;
      assert Done(p.statuses, d);
      var w :| w in p.statuses && w.name == d;
      var k :| 0 <= k < |p.statuses| && p.statuses[k] == w;
      assert q.statuses[k] in q.statuses && q.statuses[k].name == d;
      forall y | y in q.statuses && y.name == d ensures y.phase == StepSucceeded {
        var m :| 0 <= m < |q.statuses| && q.statuses[m] == y;
        assert p.statuses[m] in p.statuses;
      }
    }
  }

  lemma TransitionKeeps(p: PipelineState, e: Event, q: PipelineState)
    requires RestsOnSuccess(p) && CancelledIsQuiet(p) && Transition(p, e, q)
    ensures RestsOnSuccess(q) && CancelledIsQuiet(q) && q.steps == p.steps
    ensures p.phase.PipelineCancelled? || p.phase.PipelineSucceeded? ==> q.phase == p.phase
  {
    match e
    case Retry(name, jobsStopped, now) =>
      if RetryAccepted(p, name, jobsStopped) {
        RetryKeepsRests(p, name, now, q);
      }
    case Skip(name, now) =>
      if SkipAccepted(p, name) {
        var i := FirstStatus(p.statuses, name).value;
        RecordKeepsRests(p, i, q.statuses[i], q);
      }
    case Cancel(now) =>
      CancelKeepsRests(p, now);
    case EngineStart(i, now) => RecordKeepsRests(p, i, q.statuses[i], q);
    case EngineBlock(i, now) => RecordKeepsRests(p, i, q.statuses[i], q);
    case EngineFinish(i, succeeded, log, now) =>
      assert p.statuses[i] in p.statuses;
      RecordKeepsRests(p, i, q.statuses[i], q);
    case EngineConclude(_) =>
  }

  /** In a run, a pipeline is Failed up to `j`, where a retry of a failed or skipped step is
      accepted and makes it Running. */
  ghost predicate RetriedAt(trace: seq<PipelineState>, events: seq<Event>, j: nat)
    requires |trace| == |events| + 1
  {
    && j < |events| && trace[j].phase == PipelineFailed && events[j].Retry?
    && RetryAccepted(trace[j], events[j].name, events[j].jobsStopped) && trace[j + 1].phase == PipelineRunning
  }

  /** A Failed pipeline stays Failed until a retry is accepted: nothing else, a cancel included,
      takes it out of that phase. */
  lemma {:induction false} FailedLeavesByRetry(trace: seq<PipelineState>, events: seq<Event>, k: nat)
    requires Execution(trace, events) && k < |trace| && trace[0].phase == PipelineFailed
    ensures trace[k].phase == PipelineFailed || exists j: nat :: j < k && RetriedAt(trace, events, j)
  {
    if k > 0 {
      FailedLeavesByRetry(trace, events, k - 1);
      assert Transition(trace[k - 1], events[k - 1], trace[k]);
      if trace[k - 1].phase == PipelineFailed && trace[k].phase != PipelineFailed {
        assert RetriedAt(trace, events, k - 1);
      }
    }
  }

  /** Over every run: succeeded steps rest on succeeded dependencies, a cancelled pipeline has
      no running step, and Cancelled and Succeeded pipelines keep their phase. */
  lemma {:induction false} RunsKeepPromises(trace: seq<PipelineState>, events: seq<Event>, k: nat)
    requires Execution(trace, events) && k < |trace|
    requires RestsOnSuccess(trace[0]) && CancelledIsQuiet(trace[0])
    ensures RestsOnSuccess(trace[k]) && CancelledIsQuiet(trace[k])
    ensures trace[0].phase.PipelineCancelled? || trace[0].phase.PipelineSucceeded? ==>
              trace[k].phase == trace[0].phase
  {
    if k > 0 {
      RunsKeepPromises(trace, events, k - 1);
      assert Transition(trace[k - 1], events[k - 1], trace[k]);
      TransitionKeeps(trace[k - 1], events[k - 1], trace[k]);
    }
  }
}
