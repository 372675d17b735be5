/** When an apply can leave the application's spec naming a snapshot that does not exist. */
module InlineApplySpec {
  import opened InlineApply
  import opened InlineApplySafety
  import opened InlineApplyRetirement
  import opened InlineApplyAlone
  import opened InlineApplyRuns

  ghost predicate SpecIntact(s: State) {
    s.store.app.Some? ==> s.store.app.value.configMapRef in s.store.configMaps
  }

  predicate Over(pc: Pc) {
    pc.Applied? || pc.Reused? || pc.Aborted?
  }

  ghost function Started(cfg: Config, s0: State, bundle: string, unix: nat, policyResults: string): State
    requires cfg.startSecond <= unix
  {
    Next(cfg, s0, Start(bundle, unix, policyResults))
  }

  /** One apply, with whichever of its calls failing, can end with the spec dangling. */
  ghost predicate CanLeaveSpecDangling(cfg: Config, s0: State, bundle: string, unix: nat, policyResults: string)
    requires cfg.startSecond <= unix
  {
    exists calls, s ::
      && Reaches(cfg, Started(cfg, s0, bundle, unix, policyResults), calls, s) && CallsOf(calls, 0)
      && |s.runs| == 1 && Over(s.runs[0].pc) && !SpecIntact(s)
  }

  // ---------------------------------------------------------------- it can

  lemma SpecCanDangle(cfg: Config, s0: State, bundle: string, unix: nat, policyResults: string)
    requires s0.runs == [] && cfg.startSecond <= unix
    requires MayApply(cfg, s0) && !CurrentAlreadyHasBundle(cfg, s0, bundle)
    requires SnapshotName(ReleaseName(cfg, bundle, unix)) !in s0.store.configMaps
    ensures CanLeaveSpecDangling(cfg, s0, bundle, unix, policyResults)
  {
    var s1 := Started(cfg, s0, bundle, unix, policyResults);
    var calls, s2 := ReadyToCreate(cfg, s1, 0);
    var fails := Advance(0, false);
    var s3 := Next(cfg, s2, fails);
    ReachesStep(cfg, s2, fails, [], s3);
    ReachesTogether(cfg, s1, calls, s2, [fails] + [], s3);
    assert CallsOf(calls + ([fails] + []), 0);
  }

  // ---------------------------------------------------------------- it cannot: the checks stop it

  /** The run is still in the checks, or returns the existing release, or has failed; only the
      Stage can differ from the beginning. */
  ghost predicate Stopped(cfg: Config, s0: State, s: State) {
    && s.store == s0.store.(stage := s.store.stage, clock := s.store.clock) && |s.runs| == 1
    && var pc, app := s.runs[0].pc, s0.store.app;
    match pc
    case CheckApp => s.store.stage == s0.store.stage
    case CheckRelease(ref) =>
      s.store.stage == s0.store.stage && app.Some? && !app.value.contract && ref == app.value.releaseRef != ""
    case Preflight =>
      && s.store.stage == s0.store.stage && (app.Some? ==> !app.value.contract)
      && !CurrentAlreadyHasBundle(cfg, s0, s.runs[0].bundle)
    case StageCreate(after) => after.ThenReturn?
    case StageRead(after) => after.ThenReturn?
    case StageWrite(after, _) => after.ThenReturn?
    case Reused(_) => true
    case Aborted => true
    case _ => false
  }

  lemma StoppedKept(cfg: Config, s0: State, s: State, ok: bool)
    requires Stopped(cfg, s0, s)
    requires !MayApply(cfg, s0) || CurrentAlreadyHasBundle(cfg, s0, s.runs[0].bundle)
    ensures Stopped(cfg, s0, RunStep(cfg, s, 0, ok)) && RunStep(cfg, s, 0, ok).runs[0].bundle == s.runs[0].bundle
  {
  }

  lemma {:induction false} StoppedThroughout(cfg: Config, s0: State, s: State, calls: seq<Action>, t: State)
    requires Stopped(cfg, s0, s) && Reaches(cfg, s, calls, t) && CallsOf(calls, 0)
    requires !MayApply(cfg, s0) || CurrentAlreadyHasBundle(cfg, s0, s.runs[0].bundle)
    ensures Stopped(cfg, s0, t)
    decreases |calls|
  {
    if calls != [] {
      StoppedKept(cfg, s0, s, calls[0].ok);
      assert forall a | a in calls[1..] :: a in calls;
      StoppedThroughout(cfg, s0, Next(cfg, s, calls[0]), calls[1..], t);
    }
  }

  // ---------------------------------------------------------------- it cannot: the snapshot name is taken

  /** Whatever the run writes into the spec names a ConfigMap. */
  ghost predicate Covered(s: State) {
    && |s.runs| == 1 && SnapshotName(s.runs[0].name) in s.store.configMaps && SpecIntact(s)
    && (s.runs[0].pc.RefWrite? ==> s.runs[0].pc.app.configMapRef in s.store.configMaps)
  }

  lemma CoveredEarly(cfg: Config, s: State, ok: bool)
    requires Covered(s)
    requires var pc := s.runs[0].pc;
      || pc.CheckApp? || pc.CheckRelease? || pc.Preflight? || pc.AppGet? || pc.AppCreate? || pc.AppRead? || pc.AppWrite?
    ensures Covered(RunStep(cfg, s, 0, ok))
  {
  }

  lemma CoveredByStage(cfg: Config, s: State, ok: bool)
    requires Covered(s) && (s.runs[0].pc.StageCreate? || s.runs[0].pc.StageRead? || s.runs[0].pc.StageWrite?)
    ensures Covered(RunStep(cfg, s, 0, ok))
  {
    StageStepMoves(cfg, s, 0, ok);
    RunStepFrame(cfg, s, 0, ok);
  }

  lemma CoveredLate(cfg: Config, s: State, ok: bool)
    requires Covered(s)
    requires var pc := s.runs[0].pc;
      || pc.ReleaseCreate? || pc.SnapshotCreate? || pc.PolicyRead? || pc.PolicyWrite? || pc.RefRead? || pc.RefWrite?
      || pc.Cleanup? || pc.SupersedeRead? || pc.SupersedeWrite? || Over(pc)
    ensures Covered(RunStep(cfg, s, 0, ok))
  {
  }

  lemma CoveredKept(cfg: Config, s: State, ok: bool)
    requires Covered(s)
    ensures Covered(RunStep(cfg, s, 0, ok))
  {
    var pc := s.runs[0].pc;
    if pc.StageCreate? || pc.StageRead? || pc.StageWrite? {
      CoveredByStage(cfg, s, ok);
    } else if pc.CheckApp? || pc.CheckRelease? || pc.Preflight?
              || pc.AppGet? || pc.AppCreate? || pc.AppRead? || pc.AppWrite? {
      CoveredEarly(cfg, s, ok);
    } else {
      CoveredLate(cfg, s, ok);
    }
  }

  lemma {:induction false} CoveredThroughout(cfg: Config, s: State, calls: seq<Action>, t: State)
    requires Covered(s) && Reaches(cfg, s, calls, t) && CallsOf(calls, 0)
    ensures Covered(t)
    decreases |calls|
  {
    if calls != [] {
      CoveredKept(cfg, s, calls[0].ok);
      assert forall a | a in calls[1..] :: a in calls;
      CoveredThroughout(cfg, Next(cfg, s, calls[0]), calls[1..], t);
    }
  }

  // ---------------------------------------------------------------- the exact condition

  /** The application spec is pointed at the snapshot before the snapshot exists. From a store
      whose spec is intact, one apply can end with the spec naming no ConfigMap exactly when it
      gets past the checks and its snapshot name is free. */
  lemma SpecDanglesIff(cfg: Config, s0: State, bundle: string, unix: nat, policyResults: string)
    requires InitialStore(s0) && SpecIntact(s0) && cfg.startSecond <= unix
    ensures CanLeaveSpecDangling(cfg, s0, bundle, unix, policyResults) <==>
      && MayApply(cfg, s0) && !CurrentAlreadyHasBundle(cfg, s0, bundle)
      && SnapshotName(ReleaseName(cfg, bundle, unix)) !in s0.store.configMaps
  {
    var s1 := Started(cfg, s0, bundle, unix, policyResults);
    if CanLeaveSpecDangling(cfg, s0, bundle, unix, policyResults) {
      var calls, s :|
        && Reaches(cfg, s1, calls, s) && CallsOf(calls, 0)
        && |s.runs| == 1 && Over(s.runs[0].pc) && !SpecIntact(s);
      if SnapshotName(ReleaseName(cfg, bundle, unix)) in s0.store.configMaps {
        CoveredThroughout(cfg, s1, calls, s);
      } else if !MayApply(cfg, s0) || CurrentAlreadyHasBundle(cfg, s0, bundle) {
        StoppedThroughout(cfg, s0, s1, calls, s);
      }
    } else if MayApply(cfg, s0) && !CurrentAlreadyHasBundle(cfg, s0, bundle)
              && SnapshotName(ReleaseName(cfg, bundle, unix)) !in s0.store.configMaps {
      SpecCanDangle(cfg, s0, bundle, unix, policyResults);
    }
  }
}
