/** The validating webhook for pipelines, and what it gives to a retry. */
module PipelineAdmission {
  import opened Common
  import opened StepGraph
  import opened PipelineSteps
  import opened PipelineTheorems

  /** A step as it is submitted. */
  datatype StepSpec = StepSpec(step: PipelineStep, image: string, script: string)

  datatype FieldError =
    | NoSteps
    | NameRequired(index: nat)
    | NameRepeated(index: nat)
    | ImageRequired(index: nat)
    | ScriptRequired(index: nat)

  function StepsOf(specs: seq<StepSpec>): (r: seq<PipelineStep>)
    ensures |r| == |specs| && forall i | 0 <= i < |r| :: r[i] == specs[i].step
  {
    seq(|specs|, i requires 0 <= i < |specs| => specs[i].step)
  }

  /** What is wrong with a specification. */
  ghost predicate Fault(specs: seq<StepSpec>, e: FieldError) {
    match e
    case NoSteps => specs == []
    case NameRequired(i) => i < |specs| && specs[i].step.name == ""
    case NameRepeated(i) =>
      && i < |specs| && specs[i].step.name != ""
      && exists j :: 0 <= j < i && specs[j].step.name == specs[i].step.name
    case ImageRequired(i) => i < |specs| && specs[i].image == ""
    case ScriptRequired(i) => i < |specs| && specs[i].script == ""
  }

  /** At least one step, each with an image, a script and a name of its own. */
  ghost predicate Proper(specs: seq<StepSpec>) {
    && specs != [] && UniqueNames(StepsOf(specs))
    && forall i | 0 <= i < |specs| :: specs[i].step.name != "" && specs[i].image != "" && specs[i].script != ""
  }

  /** The checks on one step, given the names before it. */
  function StepErrors(spec: StepSpec, i: nat, names: set<string>): seq<FieldError> {
    (if spec.step.name == "" then [NameRequired(i)]
     else if spec.step.name in names then [NameRepeated(i)] else [])
    + (if spec.image == "" then [ImageRequired(i)] else [])
    + (if spec.script == "" then [ScriptRequired(i)] else [])
  }

  function IndexOf(e: FieldError): int {
    match e
    case NoSteps => -1
    case NameRequired(i) => i
    case NameRepeated(i) => i
    case ImageRequired(i) => i
    case ScriptRequired(i) => i
  }

  lemma StepErrorsAreFaults(specs: seq<StepSpec>, i: nat, names: set<string>, e: FieldError)
    requires i < |specs| && forall n :: n in names <==> exists j :: 0 <= j < i && specs[j].step.name == n
    ensures e in StepErrors(specs[i], i, names) <==> Fault(specs, e) && IndexOf(e) == i
  {
  }

  /** Reports exactly the faults of a specification. */
  method ValidatePipeline(specs: seq<StepSpec>) returns (errors: seq<FieldError>)
    ensures forall e :: e in errors <==> Fault(specs, e)
  {
    errors := if specs == [] then [NoSteps] else [];
    var names: set<string> := {};
    for i := 0 to |specs|
      invariant forall n :: n in names <==> exists j :: 0 <= j < i && specs[j].step.name == n
      invariant forall e :: e in errors <==> Fault(specs, e) && IndexOf(e) < i
    {
      var found := StepErrors(specs[i], i, names);
      forall e ensures e in found <==> Fault(specs, e) && IndexOf(e) == i {
        StepErrorsAreFaults(specs, i, names, e);
      }
      errors := errors + found;
      names := names + {specs[i].step.name};
    }
  }

  /** A specification without faults is a proper one. */
  lemma AdmittedIffProper(specs: seq<StepSpec>)
    ensures (forall e :: !Fault(specs, e)) <==> Proper(specs)
  {
    if forall e :: !Fault(specs, e) {
      assert !Fault(specs, NoSteps);
      forall i | 0 <= i < |specs|
        ensures specs[i].step.name != "" && specs[i].image != "" && specs[i].script != ""
        ensures forall j | 0 <= j < i :: specs[j].step.name != specs[i].step.name
      {
        assert !Fault(specs, NameRequired(i)) && !Fault(specs, ImageRequired(i)) && !Fault(specs, ScriptRequired(i));
        assert !Fault(specs, NameRepeated(i));
      }
    }
    if Proper(specs) {
      forall e ensures !Fault(specs, e) {
      }
    }
  }

  /** Every retry accepted on an admitted pipeline, in every run: the target is a fresh Pending
      step, its prerequisites are still Succeeded, and no record outside its descendants changes. */
  lemma AdmittedRetriesKeepPrerequisites(
      specs: seq<StepSpec>, trace: seq<PipelineState>, events: seq<Event>, k: nat)
    requires (forall e :: !Fault(specs, e)) && Execution(trace, events) && k < |events|
    requires trace[0].steps == StepsOf(specs)
    requires events[k].Retry? && RetryAccepted(trace[k], events[k].name, events[k].jobsStopped)
    ensures var name, p, q := events[k].name, trace[k], trace[k + 1];
      && PhaseOf(q.statuses, name) == Some(StepPending)
      && DependenciesSucceeded(q.statuses, FirstStep(p.steps, name).value)
      && |q.statuses| == |p.statuses|
      && forall i | 0 <= i < |p.statuses| && !Reaches(p.steps, p.statuses[i].name, name) ::
           q.statuses[i] == p.statuses[i]
  {
    AdmittedIffProper(specs);
    StepsStay(trace, events, k);
    assert Transition(trace[k], events[k], trace[k + 1]);
    RetryResetsDescendantsOnly(trace[k], events[k].name, events[k].jobsStopped, events[k].now, trace[k + 1]);
  }

  lemma {:induction false} StepsStay(trace: seq<PipelineState>, events: seq<Event>, k: nat)
    requires Execution(trace, events) && k < |trace|
    ensures trace[k].steps == trace[0].steps
  {
    if k > 0 {
      StepsStay(trace, events, k - 1);
      assert Transition(trace[k - 1], events[k - 1], trace[k]);
    }
  }

  /** The webhook refuses the pipeline whose retry loses its prerequisite. */
  lemma DuplicateStepIsRefused(specs: seq<StepSpec>)
    requires StepsOf(specs) == DuplicateStepExample().steps
    ensures Fault(specs, NameRepeated(2))
  {
    var steps := DuplicateStepExample().steps;
    assert specs[1].step == steps[1] && specs[2].step == steps[2];
  }
}
