/** What every interleaving of inline applies keeps, whatever releaseRef named before. */
module InlineApplySafety {
  import opened Common
  import opened InlineApply

  /** The run has created its release and its cleanup has not deleted it. */
  predicate Owns(pc: Pc) {
    pc.SnapshotCreate? || pc.Cleanup? || HasSnapshot(pc)
  }

  predicate HasSnapshot(pc: Pc) {
    pc.PolicyRead? || pc.PolicyWrite? || pc.RefRead? || pc.RefWrite? || Installed(pc)
  }

  /** The run has stored its policy results on its release. */
  predicate PolicyRecorded(pc: Pc) {
    pc.RefRead? || pc.RefWrite? || Installed(pc)
  }

  /** The run has pointed releaseRef at its release. */
  predicate Installed(pc: Pc) {
    pc.SupersedeRead? || pc.SupersedeWrite? || pc.Applied?
  }

  // ---------------------------------------------------------------- the invariant, clause by clause

  ghost predicate VersionsBounded(s: State) {
    && (s.store.app.Some? ==> s.store.app.value.version <= s.store.clock)
    && (s.store.stage.Some? ==> s.store.stage.value.version <= s.store.clock)
    && (forall n | n in s.store.releases :: s.store.releases[n].version <= s.store.clock)
  }

  /** Equal versions mean equal contents: what makes a successful compare-and-swap safe. */
  ghost predicate CopyCurrent(s: State, i: nat)
    requires i < |s.runs|
  {
    var run := s.runs[i];
    match run.pc
    case AppWrite(app) => AppCopyCurrent(s, app)
    case RefWrite(app) => AppCopyCurrent(s, app)
    case StageWrite(_, stage) => StageCopyCurrent(s, stage)
    case PolicyWrite(release) => ReleaseCopyCurrent(s, run.name, release)
    case SupersedeWrite(release) => ReleaseCopyCurrent(s, run.oldRef, release) && IsTerminal(release.phase)
    case _ => true
  }

  ghost predicate AppCopyCurrent(s: State, app: Application) {
    && app.version <= s.store.clock
    && (s.store.app.Some? && s.store.app.value.version == app.version ==> s.store.app.value == app)
  }

  ghost predicate StageCopyCurrent(s: State, stage: StageObject) {
    && stage.version <= s.store.clock
    && (s.store.stage.Some? && s.store.stage.value.version == stage.version ==> s.store.stage.value == stage)
  }

  ghost predicate ReleaseCopyCurrent(s: State, name: string, release: Release) {
    && release.version <= s.store.clock
    && (name in s.store.releases && s.store.releases[name].version == release.version ==>
          s.store.releases[name] == release)
  }

  /** A run that holds its release finds it under its name, unchanged but for status. */
  ghost predicate ReleaseHeld(cfg: Config, s: State, i: nat)
    requires i < |s.runs|
  {
    var run := s.runs[i];
    Owns(run.pc) ==>
      && run.name in s.store.releases
      && s.store.releases[run.name].uid == ByRun(i)
      && s.store.releases[run.name].sha == cfg.sha(run.bundle)
      && s.store.releases[run.name].configMapRef == SnapshotName(run.name)
      && (PolicyRecorded(run.pc) ==> s.store.releases[run.name].policyResults == run.policyResults)
  }

  ghost predicate SnapshotHeld(s: State, i: nat)
    requires i < |s.runs|
  {
    var run := s.runs[i];
    HasSnapshot(run.pc) ==>
      && SnapshotName(run.name) in s.store.configMaps
      && s.store.configMaps[SnapshotName(run.name)] == ConfigMap(ByRun(i), run.bundle)
  }

  ghost predicate RunInv(cfg: Config, s: State, i: nat)
    requires i < |s.runs|
  {
    && CopyCurrent(s, i)
    && ReleaseHeld(cfg, s, i)
    && SnapshotHeld(s, i)
  }

  ghost predicate Inv(cfg: Config, s: State) {
    && VersionsBounded(s)
    && forall i: nat | i < |s.runs| :: RunInv(cfg, s, i)
  }

  lemma SnapshotNameInjective(a: string, b: string)
    ensures SnapshotName(a) == SnapshotName(b) ==> a == b
  {
    if SnapshotName(a) == SnapshotName(b) {
      assert a == SnapshotName(a)[..|SnapshotName(a)| - |"-manifests"|];
      assert b == SnapshotName(b)[..|SnapshotName(b)| - |"-manifests"|];
    }
  }

  // ---------------------------------------------------------------- every step keeps the invariant

  /** Runs other than `i` are as they were, and no installed run is un-installed. */
  ghost predicate OnlyRunChanged(s: State, t: State, i: nat) {
    && |t.runs| == |s.runs| && i < |s.runs| && t.firstRef == s.firstRef
    && (forall j: nat | j < |s.runs| && j != i :: t.runs[j] == s.runs[j])
    && t.runs[i].name == s.runs[i].name && t.runs[i].bundle == s.runs[i].bundle
    && t.runs[i].policyResults == s.runs[i].policyResults
    && (Installed(s.runs[i].pc) ==> Installed(t.runs[i].pc))
  }

  lemma EarlyStepFrame(cfg: Config, s: State, i: nat, ok: bool)
    requires i < |s.runs|
    requires var pc := s.runs[i].pc;
      || pc.CheckApp? || pc.CheckRelease? || pc.Preflight? || pc.AppGet? || pc.AppCreate? || pc.AppRead? || pc.AppWrite?
      || pc.StageCreate? || pc.StageRead? || pc.StageWrite?
    ensures OnlyRunChanged(s, RunStep(cfg, s, i, ok), i)
  {
  }

  lemma LateStepFrame(cfg: Config, s: State, i: nat, ok: bool)
    requires i < |s.runs|
    requires var pc := s.runs[i].pc;
      || pc.ReleaseCreate? || pc.SnapshotCreate? || pc.PolicyRead? || pc.PolicyWrite? || pc.RefRead? || pc.RefWrite?
      || pc.Cleanup? || Installed(pc) || pc.Reused? || pc.Aborted?
    ensures OnlyRunChanged(s, RunStep(cfg, s, i, ok), i)
  {
  }

  /** A step of a run touches no other run. */
  lemma RunStepFrame(cfg: Config, s: State, i: nat, ok: bool)
    requires i < |s.runs|
    ensures OnlyRunChanged(s, RunStep(cfg, s, i, ok), i)
  {
    var pc := s.runs[i].pc;
    if pc.ReleaseCreate? || pc.SnapshotCreate? || pc.PolicyRead? || pc.PolicyWrite? || pc.RefRead? || pc.RefWrite?
       || pc.Cleanup? || Installed(pc) || pc.Reused? || pc.Aborted? {
      LateStepFrame(cfg, s, i, ok);
    } else {
      EarlyStepFrame(cfg, s, i, ok);
    }
  }

  /** A step that only moves the run's program counter. */
  lemma MoveKeeps(cfg: Config, s: State, i: nat, pc: Pc)
    requires Inv(cfg, s) && i < |s.runs|
    requires SnapshotHeld(Goto(s, i, pc), i) && ReleaseHeld(cfg, Goto(s, i, pc), i)
    requires CopyCurrent(Goto(s, i, pc), i)
    ensures Inv(cfg, Goto(s, i, pc))
  {
    var t := Goto(s, i, pc);
    assert RunInv(cfg, s, i);
    forall j: nat | j < |t.runs| ensures RunInv(cfg, t, j) {
      assert RunInv(cfg, s, j);
    }
  }

  /** A write of the Application object, by run `i` or by a controller. */
  lemma AppWriteKeeps(cfg: Config, s: State, t: State, app: Application)
    requires Inv(cfg, s) && app.version == s.store.clock + 1
    requires t.store == s.store.(app := Some(app), clock := s.store.clock + 1)
    requires |t.runs| == |s.runs|
    requires forall j: nat | j < |t.runs| :: t.runs[j] == s.runs[j] || RunInv(cfg, t, j)
    ensures Inv(cfg, t)
  {
    forall j: nat | j < |t.runs| ensures RunInv(cfg, t, j) {
      assert RunInv(cfg, s, j);
    }
  }

  lemma StageWriteKeeps(cfg: Config, s: State, t: State, stage: StageObject)
    requires Inv(cfg, s) && stage.version == s.store.clock + 1
    requires t.store == s.store.(stage := Some(stage), clock := s.store.clock + 1)
    requires |t.runs| == |s.runs|
    requires forall j: nat | j < |t.runs| :: t.runs[j] == s.runs[j] || RunInv(cfg, t, j)
    ensures Inv(cfg, t)
  {
    forall j: nat | j < |t.runs| ensures RunInv(cfg, t, j) {
      assert RunInv(cfg, s, j);
    }
  }

  /** A status write of an existing release, or the creation of a new one. */
  lemma ReleaseWriteKeeps(cfg: Config, s: State, t: State, name: string, release: Release)
    requires Inv(cfg, s) && release.version == s.store.clock + 1
    requires t.store == s.store.(releases := s.store.releases[name := release], clock := s.store.clock + 1)
    requires |t.runs| == |s.runs|
    requires name in s.store.releases ==>
      && release.uid == s.store.releases[name].uid
      && release.sha == s.store.releases[name].sha
      && release.configMapRef == s.store.releases[name].configMapRef
      && (release.policyResults == s.store.releases[name].policyResults
          || (release.uid.ByRun? && release.uid.run < |s.runs| && t.runs[release.uid.run] != s.runs[release.uid.run]))
    requires forall j: nat | j < |t.runs| :: t.runs[j] == s.runs[j] || RunInv(cfg, t, j)
    ensures Inv(cfg, t)
  {
    forall j: nat | j < |t.runs| ensures RunInv(cfg, t, j) {
      assert RunInv(cfg, s, j);
    }
  }

  /** Deleting the release of a run that has not installed it takes nothing from anybody else. */
  lemma CleanedUpKeeps(cfg: Config, s: State, i: nat)
    requires Inv(cfg, s) && i < |s.runs| && s.runs[i].pc.Cleanup?
    ensures Inv(cfg, RunStep(cfg, s, i, true))
  {
    var t := RunStep(cfg, s, i, true);
    assert RunInv(cfg, s, i);
    forall j: nat | j < |t.runs| ensures RunInv(cfg, t, j) {
      assert RunInv(cfg, s, j);
    }
  }

  lemma CleanupKeeps(cfg: Config, s: State, i: nat, ok: bool)
    requires Inv(cfg, s) && i < |s.runs| && s.runs[i].pc.Cleanup?
    ensures Inv(cfg, RunStep(cfg, s, i, ok))
  {
    if ok {
      CleanedUpKeeps(cfg, s, i);
    } else {
      assert RunInv(cfg, s, i);
      MoveKeeps(cfg, s, i, Aborted);
    }
  }

  /** Creating the run's ConfigMap under a name that was free. */
  lemma SnapshotCreatedKeeps(cfg: Config, s: State, i: nat)
    requires Inv(cfg, s) && i < |s.runs| && s.runs[i].pc.SnapshotCreate?
    requires SnapshotName(s.runs[i].name) !in s.store.configMaps
    ensures Inv(cfg, RunStep(cfg, s, i, true))
  {
    var t := RunStep(cfg, s, i, true);
    assert RunInv(cfg, s, i);
    forall j: nat | j < |t.runs| ensures RunInv(cfg, t, j) {
      assert RunInv(cfg, s, j);
    }
  }

  lemma SnapshotCreateKeeps(cfg: Config, s: State, i: nat, ok: bool)
    requires Inv(cfg, s) && i < |s.runs| && s.runs[i].pc.SnapshotCreate?
    ensures Inv(cfg, RunStep(cfg, s, i, ok))
  {
    if ok && SnapshotName(s.runs[i].name) !in s.store.configMaps {
      SnapshotCreatedKeeps(cfg, s, i);
    } else {
      assert RunInv(cfg, s, i);
      MoveKeeps(cfg, s, i, Cleanup);
    }
  }

  lemma ReleaseCreateKeeps(cfg: Config, s: State, i: nat, ok: bool)
    requires Inv(cfg, s) && i < |s.runs| && s.runs[i].pc.ReleaseCreate?
    ensures Inv(cfg, RunStep(cfg, s, i, ok))
  {
    var t := RunStep(cfg, s, i, ok);
    assert RunInv(cfg, s, i);
    if t.runs[i].pc.Aborted? {
      MoveKeeps(cfg, s, i, Aborted);
    } else {
      ReleaseWriteKeeps(cfg, s, t, s.runs[i].name, t.store.releases[s.runs[i].name]);
    }
  }

  lemma PolicyWriteKeeps(cfg: Config, s: State, i: nat, ok: bool)
    requires Inv(cfg, s) && i < |s.runs| && s.runs[i].pc.PolicyWrite?
    ensures Inv(cfg, RunStep(cfg, s, i, ok))
  {
    var t := RunStep(cfg, s, i, ok);
    assert RunInv(cfg, s, i);
    if t.runs[i].pc.RefRead? {
      ReleaseWriteKeeps(cfg, s, t, s.runs[i].name, t.store.releases[s.runs[i].name]);
    } else {
      MoveKeeps(cfg, s, i, t.runs[i].pc);
    }
  }

  lemma RefWriteKeeps(cfg: Config, s: State, i: nat, ok: bool)
    requires Inv(cfg, s) && i < |s.runs| && s.runs[i].pc.RefWrite?
    ensures Inv(cfg, RunStep(cfg, s, i, ok))
  {
    var t := RunStep(cfg, s, i, ok);
    assert RunInv(cfg, s, i);
    if Installed(t.runs[i].pc) {
      AppWriteKeeps(cfg, s, t, t.store.app.value);
    } else {
      MoveKeeps(cfg, s, i, t.runs[i].pc);
    }
  }

  lemma SupersedeWriteKeeps(cfg: Config, s: State, i: nat, ok: bool)
    requires Inv(cfg, s) && i < |s.runs| && s.runs[i].pc.SupersedeWrite?
    ensures Inv(cfg, RunStep(cfg, s, i, ok))
  {
    var t := RunStep(cfg, s, i, ok);
    assert RunInv(cfg, s, i);
    if t.store == s.store {
      MoveKeeps(cfg, s, i, t.runs[i].pc);
    } else {
      ReleaseWriteKeeps(cfg, s, t, s.runs[i].oldRef, t.store.releases[s.runs[i].oldRef]);
    }
  }

  lemma AppStepsKeep(cfg: Config, s: State, i: nat, ok: bool)
    requires Inv(cfg, s) && i < |s.runs|
    requires s.runs[i].pc.AppCreate? || s.runs[i].pc.AppWrite?
    ensures Inv(cfg, RunStep(cfg, s, i, ok))
  {
    var t := RunStep(cfg, s, i, ok);
    assert RunInv(cfg, s, i);
    if t.store == s.store {
      MoveKeeps(cfg, s, i, t.runs[i].pc);
    } else {
      AppWriteKeeps(cfg, s, t, t.store.app.value);
    }
  }

  /** Where a stage step may go without writing anything. */
  lemma StageMoveKeeps(cfg: Config, s: State, i: nat, after: AfterStage, pc: Pc)
    requires Inv(cfg, s) && i < |s.runs|
    requires s.runs[i].pc == StageCreate(after) || s.runs[i].pc == StageRead(after)
          || (s.runs[i].pc.StageWrite? && s.runs[i].pc.after == after)
    requires pc in {Aborted, StageRead(after), AfterStagePc(after)}
          || (s.store.stage.Some? && pc == StageWrite(after, s.store.stage.value))
    ensures Inv(cfg, Goto(s, i, pc))
  {
    assert RunInv(cfg, s, i);
    MoveKeeps(cfg, s, i, pc);
  }

  /** A successful stage write, whatever it writes. */
  lemma StageWrittenKeeps(cfg: Config, s: State, i: nat, stage: StageObject)
    requires Inv(cfg, s) && i < |s.runs| && (s.runs[i].pc.StageCreate? || s.runs[i].pc.StageWrite?)
    requires stage.version == s.store.clock + 1
    ensures Inv(cfg, Goto(WithStore(s, s.store.(stage := Some(stage), clock := s.store.clock + 1)), i,
                          AfterStagePc(s.runs[i].pc.after)))
  {
    var t := Goto(WithStore(s, s.store.(stage := Some(stage), clock := s.store.clock + 1)), i,
                  AfterStagePc(s.runs[i].pc.after));
    assert RunInv(cfg, s, i);
    StageWriteKeeps(cfg, s, t, stage);
  }

  lemma StageStepsKeep(cfg: Config, s: State, i: nat, ok: bool)
    requires Inv(cfg, s) && i < |s.runs|
    requires s.runs[i].pc.StageCreate? || s.runs[i].pc.StageRead? || s.runs[i].pc.StageWrite?
    ensures Inv(cfg, RunStep(cfg, s, i, ok))
  {
    var t := RunStep(cfg, s, i, ok);
    var pc := s.runs[i].pc;
    var created := pc.StageCreate? && ok && s.store.stage.None?;
    var written := pc.StageWrite? && ok && s.store.stage.Some? && s.store.stage.value.version == pc.stage.version;
    if created || written {
      StageWrittenKeeps(cfg, s, i, t.store.stage.value);
    } else {
      StageMoveKeeps(cfg, s, i, pc.after, t.runs[i].pc);
    }
  }

  /** Leaving the initial checks for a position that says nothing about the store. */
  lemma DecidedKeeps(cfg: Config, s: State, i: nat, pc: Pc)
    requires Inv(cfg, s) && i < |s.runs| && pc in {Aborted, Preflight, AppGet}
    requires s.runs[i].pc.CheckApp? || s.runs[i].pc.CheckRelease? || s.runs[i].pc.Preflight?
    ensures Inv(cfg, Goto(s, i, pc))
  {
    assert RunInv(cfg, s, i);
    MoveKeeps(cfg, s, i, pc);
  }

  lemma CheckAppKeeps(cfg: Config, s: State, i: nat, ok: bool)
    requires Inv(cfg, s) && i < |s.runs| && s.runs[i].pc.CheckApp?
    ensures Inv(cfg, RunStep(cfg, s, i, ok))
  {
    var t := RunStep(cfg, s, i, ok);
    if t.runs[i].pc.CheckRelease? {
      assert RunInv(cfg, s, i);
      MoveKeeps(cfg, s, i, t.runs[i].pc);
    } else {
      DecidedKeeps(cfg, s, i, t.runs[i].pc);
    }
  }

  lemma CheckReleaseKeeps(cfg: Config, s: State, i: nat, ok: bool)
    requires Inv(cfg, s) && i < |s.runs| && s.runs[i].pc.CheckRelease?
    ensures Inv(cfg, RunStep(cfg, s, i, ok))
  {
    var t := RunStep(cfg, s, i, ok);
    if t.runs[i].pc.StageCreate? {
      assert RunInv(cfg, s, i);
      MoveKeeps(cfg, s, i, t.runs[i].pc);
    } else {
      DecidedKeeps(cfg, s, i, t.runs[i].pc);
    }
  }

  lemma PreflightKeeps(cfg: Config, s: State, i: nat, ok: bool)
    requires Inv(cfg, s) && i < |s.runs| && s.runs[i].pc.Preflight?
    ensures Inv(cfg, RunStep(cfg, s, i, ok))
  {
    DecidedKeeps(cfg, s, i, RunStep(cfg, s, i, ok).runs[i].pc);
  }

  /** The reads that start a compare-and-swap. */
  lemma ObjectReadsKeep(cfg: Config, s: State, i: nat, ok: bool)
    requires Inv(cfg, s) && i < |s.runs|
    requires s.runs[i].pc.AppGet? || s.runs[i].pc.AppRead?
    ensures Inv(cfg, RunStep(cfg, s, i, ok))
  {
    var t := RunStep(cfg, s, i, ok);
    assert RunInv(cfg, s, i);
    MoveKeeps(cfg, s, i, t.runs[i].pc);
  }

  lemma ReleaseReadsKeep(cfg: Config, s: State, i: nat, ok: bool)
    requires Inv(cfg, s) && i < |s.runs|
    requires s.runs[i].pc.PolicyRead? || s.runs[i].pc.RefRead? || s.runs[i].pc.SupersedeRead?
    ensures Inv(cfg, RunStep(cfg, s, i, ok))
  {
    var t := RunStep(cfg, s, i, ok);
    assert RunInv(cfg, s, i);
    MoveKeeps(cfg, s, i, t.runs[i].pc);
  }

  lemma RunStepKeeps(cfg: Config, s: State, i: nat, ok: bool)
    requires Inv(cfg, s) && i < |s.runs|
    ensures Inv(cfg, RunStep(cfg, s, i, ok))
  {
    match s.runs[i].pc
    case AppCreate => AppStepsKeep(cfg, s, i, ok);
    case AppWrite(_) => AppStepsKeep(cfg, s, i, ok);
    case StageCreate(_) => StageStepsKeep(cfg, s, i, ok);
    case StageWrite(_, _) => StageStepsKeep(cfg, s, i, ok);
    case CheckApp => CheckAppKeeps(cfg, s, i, ok);
    case CheckRelease(_) => CheckReleaseKeeps(cfg, s, i, ok);
    case Preflight => PreflightKeeps(cfg, s, i, ok);
    case AppGet => ObjectReadsKeep(cfg, s, i, ok);
    case AppRead => ObjectReadsKeep(cfg, s, i, ok);
    case StageRead(_) => StageStepsKeep(cfg, s, i, ok);
    case PolicyRead => ReleaseReadsKeep(cfg, s, i, ok);
    case RefRead => ReleaseReadsKeep(cfg, s, i, ok);
    case SupersedeRead => ReleaseReadsKeep(cfg, s, i, ok);
    case ReleaseCreate => ReleaseCreateKeeps(cfg, s, i, ok);
    case SnapshotCreate => SnapshotCreateKeeps(cfg, s, i, ok);
    case PolicyWrite(_) => PolicyWriteKeeps(cfg, s, i, ok);
    case RefWrite(_) => RefWriteKeeps(cfg, s, i, ok);
    case Cleanup => CleanupKeeps(cfg, s, i, ok);
    case SupersedeWrite(_) => SupersedeWriteKeeps(cfg, s, i, ok);
    case Applied =>
    case Reused(_) =>
    case Aborted =>
  }

  lemma ConfigMapsKeep(cfg: Config, s: State, t: State)
    requires Inv(cfg, s)
    requires t == WithStore(s, s.store.(configMaps := t.store.configMaps))
    requires forall i: nat | i < |s.runs| :: SnapshotHeld(t, i)
    ensures Inv(cfg, t)
  {
    forall j: nat | j < |t.runs| ensures RunInv(cfg, t, j) {
      assert RunInv(cfg, s, j);
    }
  }

  lemma StartKeeps(cfg: Config, s: State, a: Action)
    requires Inv(cfg, s) && Enabled(cfg, s, a) && a.Start?
    ensures Inv(cfg, Next(cfg, s, a))
  {
    var t := Next(cfg, s, a);
    forall j: nat | j < |t.runs| ensures RunInv(cfg, t, j) {
      if j < |s.runs| {
        assert RunInv(cfg, s, j);
      }
    }
  }

  /** A controller or a user writes one of the shared objects. */
  lemma EnvironmentKeeps(cfg: Config, s: State, a: Action)
    requires Inv(cfg, s) && Enabled(cfg, s, a) && !a.Start? && !a.Advance?
    ensures Inv(cfg, Next(cfg, s, a))
  {
    var t := Next(cfg, s, a);
    if a.WritePhase? || a.AddRelease? {
      ReleaseWriteKeeps(cfg, s, t, a.name, t.store.releases[a.name]);
    } else if a.WriteApp? {
      AppWriteKeeps(cfg, s, t, t.store.app.value);
    } else if a.WriteStage? {
      StageWriteKeeps(cfg, s, t, t.store.stage.value);
    } else {
      forall i: nat | i < |s.runs| ensures SnapshotHeld(t, i) {
        assert RunInv(cfg, s, i);
      }
      ConfigMapsKeep(cfg, s, t);
    }
  }

  lemma NextKeeps(cfg: Config, s: State, a: Action)
    requires Inv(cfg, s) && Enabled(cfg, s, a)
    ensures Inv(cfg, Next(cfg, s, a))
  {
    if a.Start? {
      StartKeeps(cfg, s, a);
    } else if a.Advance? {
      RunStepKeeps(cfg, s, a.run, a.ok);
    } else {
      EnvironmentKeeps(cfg, s, a);
    }
  }
}
