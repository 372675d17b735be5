/** What an apply achieves when nothing fails and nobody interferes. */
module InlineApplyAlone {
  import opened Common
  import opened OwnerReferences
  import opened InlineApply

  /** `n` successful calls of run `i` in a row. */
  ghost function Alone(cfg: Config, s: State, i: nat, n: nat): State
    requires i < |s.runs|
    ensures i < |Alone(cfg, s, i, n).runs|
    decreases n
  {
    if n == 0 then s
    else
      StepKeepsRuns(cfg, s, i);
      Alone(cfg, RunStep(cfg, s, i, true), i, n - 1)
  }

  lemma StepKeepsRuns(cfg: Config, s: State, i: nat)
    requires i < |s.runs|
    ensures |RunStep(cfg, s, i, true).runs| == |s.runs|
  {
  }

  lemma {:induction false} AloneAdds(cfg: Config, s: State, i: nat, m: nat, n: nat)
    requires i < |s.runs|
    ensures Alone(cfg, Alone(cfg, s, i, m), i, n) == Alone(cfg, s, i, m + n)
    decreases m
  {
    if m > 0 {
      StepKeepsRuns(cfg, s, i);
      AloneAdds(cfg, RunStep(cfg, s, i, true), i, m - 1, n);
    }
  }

  lemma AloneStep(cfg: Config, s: State, i: nat, t: State, u: State, n: nat)
    requires i < |s.runs| && t == RunStep(cfg, s, i, true) && i < |t.runs| && u == Alone(cfg, t, i, n)
    ensures u == Alone(cfg, s, i, n + 1)
  {
  }

  // ---------------------------------------------------------------- deciding to apply

  predicate CurrentAlreadyHasBundle(cfg: Config, s: State, bundle: string) {
    && s.store.app.Some? && s.store.app.value.releaseRef in s.store.releases
    && s.store.app.value.releaseRef != ""
    && s.store.releases[s.store.app.value.releaseRef].phase == Complete
    && s.store.releases[s.store.app.value.releaseRef].sha == cfg.sha(bundle)
  }

  ghost predicate MayApply(cfg: Config, s: State) {
    && (s.store.app.Some? ==> !s.store.app.value.contract)
    && (s.store.stage.Some? ==> Acceptable(s.store.stage.value.owners, ControllerOwner(cfg)))
  }

  /** The checks lead to the application write without touching anything. */
  lemma ChecksPass(cfg: Config, s: State, i: nat) returns (n: nat)
    requires i < |s.runs| && s.runs[i].pc == CheckApp && MayApply(cfg, s)
    requires !CurrentAlreadyHasBundle(cfg, s, s.runs[i].bundle)
    ensures Alone(cfg, s, i, n) == Goto(s, i, AppGet)
  {
    var preflight := Goto(s, i, Preflight);
    var ready := Goto(s, i, AppGet);
    assert RunStep(cfg, preflight, i, true) == ready;
    assert Alone(cfg, ready, i, 0) == ready;
    AloneStep(cfg, preflight, i, ready, ready, 0);
    if s.store.app.Some? && s.store.app.value.releaseRef != "" {
      var check := Goto(s, i, CheckRelease(s.store.app.value.releaseRef));
      assert RunStep(cfg, s, i, true) == check;
      assert RunStep(cfg, check, i, true) == preflight;
      AloneStep(cfg, check, i, preflight, ready, 1);
      AloneStep(cfg, s, i, check, ready, 2);
      n := 3;
    } else {
      assert RunStep(cfg, s, i, true) == preflight;
      AloneStep(cfg, s, i, preflight, ready, 1);
      n := 2;
    }
  }

  // ---------------------------------------------------------------- the application and the stage

  /** The application object once its spec points at the run's snapshot. */
  ghost predicate SpecWritten(cfg: Config, s: State, i: nat, t: State)
    requires i < |s.runs|
  {
    && t.runs == s.runs[i := s.runs[i].(oldRef := CurrentRef(s), pc := StageCreate(ThenRelease))]
    && t.store.app == Some(Application(SnapshotName(s.runs[i].name), CurrentRef(s), false, s.store.clock + 1))
    && t.store == s.store.(app := t.store.app, clock := s.store.clock + 1)
    && t == s.(store := t.store, runs := t.runs)
  }

  lemma SpecIsWritten(cfg: Config, s: State, i: nat) returns (n: nat)
    requires i < |s.runs| && s.runs[i].pc == AppGet && MayApply(cfg, s)
    ensures SpecWritten(cfg, s, i, Alone(cfg, s, i, n))
  {
    if s.store.app.None? {
      var create := Goto(s, i, AppCreate);
      assert RunStep(cfg, s, i, true) == create;
      var t := RunStep(cfg, create, i, true);
      assert Alone(cfg, t, i, 0) == t;
      AloneStep(cfg, create, i, t, t, 0);
      AloneStep(cfg, s, i, create, t, 1);
      n := 2;
    } else {
      var read := Goto(s, i, AppRead);
      assert RunStep(cfg, s, i, true) == read;
      var write := Goto(s, i, AppWrite(s.store.app.value));
      assert RunStep(cfg, read, i, true) == write;
      var t := RunStep(cfg, write, i, true);
      assert Alone(cfg, t, i, 0) == t;
      AloneStep(cfg, write, i, t, t, 0);
      AloneStep(cfg, read, i, write, t, 1);
      AloneStep(cfg, s, i, read, t, 2);
      n := 3;
    }
  }

  /** The application controls the Stage and the labels name the release. */
  ghost predicate StageRight(cfg: Config, stage: StageObject, name: string) {
    Controllers(stage.owners) == [ControllerOwner(cfg)] && stage.labels == stage.labels + BaseLabels(cfg, name)
  }

  lemma RepairedIsRight(cfg: Config, run: Run, after: AfterStage, stage: StageObject, version: nat)
    requires Acceptable(stage.owners, ControllerOwner(cfg))
    ensures Repair(stage.owners, ControllerOwner(cfg)).Ok?
    ensures StageRight(cfg, RepairedStage(cfg, run, after, stage).(version := version), StageLabelName(run, after))
  {
    RepairTheorem(stage.owners, ControllerOwner(cfg));
  }

  /** The Stage after the run has been through; nothing else has changed. */
  ghost predicate StageInPlace(cfg: Config, s: State, t: State, name: string) {
    && t.store.stage.Some?
    && StageRight(cfg, t.store.stage.value, name)
    && t.store == s.store.(stage := t.store.stage, clock := t.store.clock)
  }

  ghost predicate StagePut(cfg: Config, s: State, i: nat, after: AfterStage, t: State)
    requires i < |s.runs|
  {
    && t == s.(store := t.store, runs := s.runs[i := s.runs[i].(pc := AfterStagePc(after))])
    && StageInPlace(cfg, s, t, StageLabelName(s.runs[i], after))
  }

  lemma StageIsCreated(cfg: Config, s: State, i: nat, after: AfterStage)
    requires i < |s.runs| && s.runs[i].pc == StageCreate(after) && s.store.stage.None?
    ensures StagePut(cfg, s, i, after, RunStep(cfg, s, i, true))
  {
    assert Controllers([ControllerOwner(cfg)]) == [ControllerOwner(cfg)];
  }

  /** What the written state looks like, whatever the repair is. */
  lemma WrittenStageIsPut(cfg: Config, s: State, i: nat, after: AfterStage, stage: StageObject)
    requires i < |s.runs| && StageRight(cfg, stage, StageLabelName(s.runs[i], after))
    ensures var store := s.store.(stage := Some(stage), clock := s.store.clock + 1);
      StagePut(cfg, s, i, after, Goto(WithStore(s, store), i, AfterStagePc(after)))
  {
  }

  /** The Stage is there and already right: it is only read. */
  lemma StageIsLeft(cfg: Config, s: State, i: nat, after: AfterStage)
    requires i < |s.runs| && s.runs[i].pc == StageCreate(after) && s.store.stage.Some?
    requires Acceptable(s.store.stage.value.owners, ControllerOwner(cfg))
    requires RepairedStage(cfg, s.runs[i], after, s.store.stage.value) == s.store.stage.value
    ensures RunStep(cfg, Goto(s, i, StageRead(after)), i, true) == Goto(s, i, AfterStagePc(after))
    ensures StagePut(cfg, s, i, after, Goto(s, i, AfterStagePc(after)))
  {
    RepairedIsRight(cfg, s.runs[i], after, s.store.stage.value, s.store.stage.value.version);
  }

  /** The Stage is there and needs the repair: it is read for writing. */
  lemma StageIsReadForRepair(cfg: Config, s: State, i: nat, after: AfterStage)
    requires i < |s.runs| && s.store.stage.Some?
    requires Acceptable(s.store.stage.value.owners, ControllerOwner(cfg))
    requires RepairedStage(cfg, s.runs[i], after, s.store.stage.value) != s.store.stage.value
    ensures RunStep(cfg, Goto(s, i, StageRead(after)), i, true) == Goto(s, i, StageWrite(after, s.store.stage.value))
  {
    RepairedIsRight(cfg, s.runs[i], after, s.store.stage.value, 0);
    var read := Goto(s, i, StageRead(after));
    assert RunStep(cfg, read, i, true) == StageReadStep(cfg, read, i, true, after);
  }

  /** And written, if nobody has written it since. */
  lemma StageIsRepaired(cfg: Config, s: State, i: nat, after: AfterStage)
    requires i < |s.runs| && s.store.stage.Some?
    requires Acceptable(s.store.stage.value.owners, ControllerOwner(cfg))
    ensures StagePut(cfg, s, i, after, RunStep(cfg, Goto(s, i, StageWrite(after, s.store.stage.value)), i, true))
  {
    var read := s.store.stage.value;
    var write := Goto(s, i, StageWrite(after, read));
    var stage := RepairedStage(cfg, s.runs[i], after, read).(version := s.store.clock + 1);
    assert RunStep(cfg, write, i, true) == StageWriteStep(cfg, write, i, true, after, read);
    assert RepairedStage(cfg, write.runs[i], after, read) == RepairedStage(cfg, s.runs[i], after, read);
    RepairedIsRight(cfg, s.runs[i], after, read, s.store.clock + 1);
    WrittenStageIsPut(cfg, s, i, after, stage);
  }

  lemma StageIsPut(cfg: Config, s: State, i: nat, after: AfterStage) returns (n: nat)
    requires i < |s.runs| && s.runs[i].pc == StageCreate(after) && MayApply(cfg, s)
    ensures StagePut(cfg, s, i, after, Alone(cfg, s, i, n))
  {
    if s.store.stage.None? {
      StageIsCreated(cfg, s, i, after);
      var t := RunStep(cfg, s, i, true);
      AloneStep(cfg, s, i, t, t, 0);
      n := 1;
    } else {
      var read := Goto(s, i, StageRead(after));
      assert RunStep(cfg, s, i, true) == read;
      if RepairedStage(cfg, s.runs[i], after, s.store.stage.value) == s.store.stage.value {
        StageIsLeft(cfg, s, i, after);
        var t := Goto(s, i, AfterStagePc(after));
        AloneStep(cfg, read, i, t, t, 0);
        AloneStep(cfg, s, i, read, t, 1);
        n := 2;
      } else {
        StageIsReadForRepair(cfg, s, i, after);
        StageIsRepaired(cfg, s, i, after);
        var write := Goto(s, i, StageWrite(after, s.store.stage.value));
        var t := RunStep(cfg, write, i, true);
        AloneStep(cfg, write, i, t, t, 0);
        AloneStep(cfg, read, i, write, t, 1);
        AloneStep(cfg, s, i, read, t, 2);
        n := 3;
      }
    }
  }

  // ---------------------------------------------------------------- the release

  /** The release as the run leaves it when it installs it. */
  function FinishedRelease(cfg: Config, run: Run, i: nat, version: nat): Release {
    Release(ByRun(i), cfg.sha(run.bundle), SnapshotName(run.name), Unset, run.policyResults, version)
  }

  ghost predicate ReleaseInstalled(cfg: Config, s: State, i: nat, t: State)
    requires i < |s.runs| && s.store.app.Some?
  {
    var run := s.runs[i];
    && t.store.app == Some(s.store.app.value.(releaseRef := run.name, version := s.store.clock + 3))
    && t.store.stage == s.store.stage
    && t.store.releases == s.store.releases[run.name := FinishedRelease(cfg, run, i, s.store.clock + 2)]
    && t.store.configMaps == s.store.configMaps[SnapshotName(run.name) := ConfigMap(ByRun(i), run.bundle)]
    && i < |t.runs|
    && t.runs[i] == run.(pc := if run.oldRef != "" && run.oldRef != run.name then SupersedeRead else Applied)
  }

  /** Three calls: the release with its snapshot, ready for the policy results. */
  lemma ReleaseIsCreated(cfg: Config, s: State, i: nat) returns (t: State)
    requires i < |s.runs| && s.runs[i].pc == ReleaseCreate
    requires s.runs[i].name !in s.store.releases && SnapshotName(s.runs[i].name) !in s.store.configMaps
    ensures i < |t.runs| && t == Alone(cfg, s, i, 3)
    ensures var run := s.runs[i];
      var release := FinishedRelease(cfg, run, i, s.store.clock + 1).(policyResults := "");
      && t.runs[i] == run.(pc := PolicyWrite(release))
      && t.store == s.store.(
           releases := s.store.releases[run.name := release],
           configMaps := s.store.configMaps[SnapshotName(run.name) := ConfigMap(ByRun(i), run.bundle)],
           clock := s.store.clock + 1)
  {
    var s1 := RunStep(cfg, s, i, true);
    assert s1.runs[i].pc == SnapshotCreate;
    var s2 := RunStep(cfg, s1, i, true);
    assert s2.runs[i].pc == PolicyRead && s2.runs[i].name in s2.store.releases;
    t := RunStep(cfg, s2, i, true);
    assert Alone(cfg, t, i, 0) == t;
    AloneStep(cfg, s2, i, t, t, 0);
    AloneStep(cfg, s1, i, s2, t, 1);
    AloneStep(cfg, s, i, s1, t, 2);
  }

  /** Three more: the policy results, and releaseRef. */
  lemma ReleaseIsPointedAt(cfg: Config, s: State, i: nat, release: Release) returns (t: State)
    requires i < |s.runs| && s.runs[i].pc == PolicyWrite(release)
    requires s.runs[i].name in s.store.releases && s.store.releases[s.runs[i].name] == release
    requires s.store.app.Some? && !s.store.app.value.contract
    ensures i < |t.runs| && t == Alone(cfg, s, i, 3)
    ensures var run := s.runs[i];
      && t.store.app == Some(s.store.app.value.(releaseRef := run.name, version := s.store.clock + 2))
      && t.store.releases == s.store.releases[run.name :=
           release.(policyResults := run.policyResults, version := s.store.clock + 1)]
      && t.store.stage == s.store.stage && t.store.configMaps == s.store.configMaps
      && t.runs[i] == run.(pc := if run.oldRef != "" && run.oldRef != run.name then SupersedeRead else Applied)
  {
    var s1 := RunStep(cfg, s, i, true);
    assert s1.runs[i].pc == RefRead;
    var s2 := RunStep(cfg, s1, i, true);
    assert s2.runs[i].pc == RefWrite(s.store.app.value);
    t := RunStep(cfg, s2, i, true);
    assert Alone(cfg, t, i, 0) == t;
    AloneStep(cfg, s2, i, t, t, 0);
    AloneStep(cfg, s1, i, s2, t, 1);
    AloneStep(cfg, s, i, s1, t, 2);
  }

  lemma ReleaseIsInstalled(cfg: Config, s: State, i: nat) returns (t: State, n: nat)
    requires i < |s.runs| && s.runs[i].pc == ReleaseCreate
    requires s.store.app.Some? && !s.store.app.value.contract
    requires s.runs[i].name !in s.store.releases && SnapshotName(s.runs[i].name) !in s.store.configMaps
    ensures t == Alone(cfg, s, i, n) && ReleaseInstalled(cfg, s, i, t)
  {
    var u := ReleaseIsCreated(cfg, s, i);
    t := ReleaseIsPointedAt(cfg, u, i, u.runs[i].pc.release);
    AloneAdds(cfg, s, i, 3, 3);
    n := 6;
    var name, release := s.runs[i].name, FinishedRelease(cfg, s.runs[i], i, s.store.clock + 2);
    assert u.store.releases[name := release] == s.store.releases[name := release];
  }

  /** The replaced release: Superseded if it had come to an end, and left alone otherwise. */
  ghost predicate Replaced(before: map<string, Release>, after: map<string, Release>, x: string) {
    && after.Keys == before.Keys
    && (forall n | n in before && n != x :: after[n] == before[n])
    && (x in before ==>
          var phase := before[x].phase;
          after[x].phase == if phase in {Complete, Failed, RolledBack, Superseded} then Superseded else phase)
  }

  lemma OldReleaseIsReplaced(cfg: Config, s: State, i: nat) returns (t: State, n: nat)
    requires i < |s.runs| && s.runs[i].pc == SupersedeRead
    ensures i < |t.runs| && t == Alone(cfg, s, i, n)
    ensures t.runs[i].pc == Applied && Replaced(s.store.releases, t.store.releases, s.runs[i].oldRef)
    ensures t.store == s.store.(releases := t.store.releases, clock := t.store.clock)
  {
    var x := s.runs[i].oldRef;
    var read := RunStep(cfg, s, i, true);
    if x !in s.store.releases || !IsTerminal(s.store.releases[x].phase) {
      assert Alone(cfg, read, i, 0) == read;
      AloneStep(cfg, s, i, read, read, 0);
      t, n := read, 1;
    } else {
      assert read == Goto(s, i, SupersedeWrite(s.store.releases[x]));
      t := RunStep(cfg, read, i, true);
      assert Alone(cfg, t, i, 0) == t;
      AloneStep(cfg, read, i, t, t, 0);
      AloneStep(cfg, s, i, read, t, 1);
      n := 2;
    }
  }

  // ---------------------------------------------------------------- the whole apply

  /** Everything a successful apply leaves behind. */
  ghost predicate AppliedFully(cfg: Config, s: State, i: nat, t: State)
    requires i < |s.runs|
  {
    var run, name := s.runs[i], s.runs[i].name;
    && i < |t.runs| && t.runs[i].pc == Applied
    && t.store.app.Some? && t.store.app.value.releaseRef == name
    && t.store.app.value.configMapRef == SnapshotName(name)
    && t.store.stage.Some? && StageRight(cfg, t.store.stage.value, name)
    && name in t.store.releases
    && t.store.releases[name] == FinishedRelease(cfg, run, i, t.store.releases[name].version)
    && t.store.configMaps == s.store.configMaps[SnapshotName(name) := ConfigMap(ByRun(i), run.bundle)]
    && Replaced(s.store.releases, t.store.releases - {name}, CurrentRef(s))
  }

  /** From the Stage to the end of the run. */
  ghost predicate Finished(cfg: Config, s: State, i: nat, t: State)
    requires i < |s.runs| && s.store.app.Some?
  {
    var run := s.runs[i];
    && i < |t.runs| && t.runs[i].pc == Applied
    && t.store.app == Some(s.store.app.value.(releaseRef := run.name, version := s.store.clock + 3))
    && t.store.stage == s.store.stage
    && t.store.configMaps == s.store.configMaps[SnapshotName(run.name) := ConfigMap(ByRun(i), run.bundle)]
    && run.name in t.store.releases
    && t.store.releases[run.name] == FinishedRelease(cfg, run, i, s.store.clock + 2)
    && Replaced(s.store.releases, t.store.releases - {run.name}, run.oldRef)
  }

  lemma LastCalls(cfg: Config, s: State, i: nat) returns (t: State, n: nat)
    requires i < |s.runs| && s.runs[i].pc == ReleaseCreate
    requires s.store.app.Some? && !s.store.app.value.contract
    requires s.runs[i].name !in s.store.releases && SnapshotName(s.runs[i].name) !in s.store.configMaps
    requires s.runs[i].oldRef == "" ==> "" !in s.store.releases
    ensures t == Alone(cfg, s, i, n) && Finished(cfg, s, i, t)
  {
    var name := s.runs[i].name;
    var u, m := ReleaseIsInstalled(cfg, s, i);
    assert u.store.releases - {name} == s.store.releases;
    if u.runs[i].pc == Applied {
      t, n := u, m;
    } else {
      var k;
      t, k := OldReleaseIsReplaced(cfg, u, i);
      AloneAdds(cfg, s, i, m, k);
      n := m + k;
      assert (t.store.releases - {name}).Keys == s.store.releases.Keys;
    }
  }

  lemma FirstCalls(cfg: Config, s: State, i: nat) returns (t: State, n: nat)
    requires i < |s.runs| && s.runs[i].pc == CheckApp && MayApply(cfg, s)
    requires !CurrentAlreadyHasBundle(cfg, s, s.runs[i].bundle)
    ensures i < |t.runs| && t == Alone(cfg, s, i, n) && SpecWritten(cfg, Goto(s, i, AppGet), i, t)
    ensures t.runs[i].pc == StageCreate(ThenRelease) && MayApply(cfg, t)
  {
    var a := ChecksPass(cfg, s, i);
    var s1 := Goto(s, i, AppGet);
    var b := SpecIsWritten(cfg, s1, i);
    AloneAdds(cfg, s, i, a, b);
    t, n := Alone(cfg, s1, i, b), a + b;
  }

  lemma MiddleCalls(cfg: Config, s: State, i: nat) returns (t: State, n: nat)
    requires i < |s.runs| && s.runs[i].pc == StageCreate(ThenRelease) && MayApply(cfg, s)
    ensures i < |t.runs| && t == Alone(cfg, s, i, n) && StagePut(cfg, s, i, ThenRelease, t)
    ensures t.runs[i] == s.runs[i].(pc := ReleaseCreate)
    ensures t.store.app == s.store.app && t.store.releases == s.store.releases
    ensures t.store.configMaps == s.store.configMaps
  {
    n := StageIsPut(cfg, s, i, ThenRelease);
    t := Alone(cfg, s, i, n);
  }

  lemma LaterCalls(cfg: Config, s: State, i: nat) returns (u: State, t: State, n: nat)
    requires i < |s.runs| && s.runs[i].pc == StageCreate(ThenRelease) && MayApply(cfg, s) && s.store.app.Some?
    requires s.runs[i].name !in s.store.releases && SnapshotName(s.runs[i].name) !in s.store.configMaps
    requires "" !in s.store.releases
    ensures i < |u.runs| && StagePut(cfg, s, i, ThenRelease, u) && u.store.app.Some? && Finished(cfg, u, i, t)
    ensures t == Alone(cfg, s, i, n)
  {
    var c, d;
    u, c := MiddleCalls(cfg, s, i);
    t, d := LastCalls(cfg, u, i);
    AloneAdds(cfg, s, i, c, d);
    n := c + d;
  }

  /** The stages of an apply put together. */
  lemma StagesCompose(cfg: Config, s: State, s1: State, s2: State, s3: State, t: State, i: nat)
    requires i < |s.runs| && s1 == Goto(s, i, AppGet)
    requires SpecWritten(cfg, s1, i, s2) && i < |s2.runs|
    requires StagePut(cfg, s2, i, ThenRelease, s3) && i < |s3.runs|
    requires s3.store.app.Some? && Finished(cfg, s3, i, t)
    ensures AppliedFully(cfg, s, i, t)
  {
  }

  /** An apply whose calls all succeed, undisturbed, with a name and a snapshot name that are
      free: releaseRef and spec name the new release, its snapshot and policy results are
      stored, the Stage belongs to the application, the release it replaced is Superseded if it
      had ended, and no other release or ConfigMap has changed. Object names are not empty. */
  lemma UndisturbedApplySucceeds(cfg: Config, s: State, i: nat)
    requires i < |s.runs| && s.runs[i].pc == CheckApp && MayApply(cfg, s) && "" !in s.store.releases
    requires !CurrentAlreadyHasBundle(cfg, s, s.runs[i].bundle)
    requires s.runs[i].name !in s.store.releases && SnapshotName(s.runs[i].name) !in s.store.configMaps
    ensures exists n :: AppliedFully(cfg, s, i, Alone(cfg, s, i, n))
  {
    var s1 := Goto(s, i, AppGet);
    var s2, m := FirstCalls(cfg, s, i);
    var s3, t, n := LaterCalls(cfg, s2, i);
    AloneAdds(cfg, s, i, m, n);
    StagesCompose(cfg, s, s1, s2, s3, t, i);
    assert AppliedFully(cfg, s, i, Alone(cfg, s, i, m + n));
  }

  ghost predicate ReusedQuietly(s: State, i: nat, t: State) {
    && i < |t.runs| && s.store.app.Some? && t.runs[i].pc == Reused(s.store.app.value.releaseRef)
    && t.store == s.store.(stage := t.store.stage, clock := t.store.clock)
  }

  /** An apply of the bundle that the current release already completed with creates nothing:
      it only puts the Stage in place and returns that release. */
  lemma RepeatedApplyCreatesNothing(cfg: Config, s: State, i: nat)
    requires i < |s.runs| && s.runs[i].pc == CheckApp && MayApply(cfg, s)
    requires CurrentAlreadyHasBundle(cfg, s, s.runs[i].bundle)
    ensures exists n :: ReusedQuietly(s, i, Alone(cfg, s, i, n))
  {
    var ref := s.store.app.value.releaseRef;
    var s1 := Goto(s, i, CheckRelease(ref));
    assert RunStep(cfg, s, i, true) == s1;
    var s2 := Goto(s, i, StageCreate(ThenReturn(ref)));
    assert RunStep(cfg, s1, i, true) == s2;
    var n := StageIsPut(cfg, s2, i, ThenReturn(ref));
    var t := Alone(cfg, s2, i, n);
    AloneStep(cfg, s1, i, s2, t, n);
    AloneStep(cfg, s, i, s1, t, n + 1);
    assert ReusedQuietly(s, i, t);
  }
}
