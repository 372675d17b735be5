/** The promises of the inline apply, over every interleaving and every failure. */
module InlineApplyTheorems {
  import opened Common
  import opened OwnerReferences
  import opened InlineApply
  import opened InlineApplySafety
  import opened InlineApplyRetirement

  lemma {:induction false} ReachableFrom(cfg: Config, s0: State, actions: seq<Action>, s: State)
    requires Inv(cfg, s0) && Reaches(cfg, s0, actions, s)
    ensures Inv(cfg, s)
    decreases |actions|
  {
    if actions != [] {
      NextKeeps(cfg, s0, actions[0]);
      ReachableFrom(cfg, Next(cfg, s0, actions[0]), actions[1..], s);
    }
  }

  /** Every reachable state satisfies the invariant, whatever releaseRef named before. */
  lemma ReachableInv(cfg: Config, s0: State, actions: seq<Action>, s: State)
    requires InitialStore(s0) && Reaches(cfg, s0, actions, s)
    ensures Inv(cfg, s)
  {
    assert Inv(cfg, s0);
    ReachableFrom(cfg, s0, actions, s);
  }

  lemma {:induction false} RetirementFrom(cfg: Config, s0: State, actions: seq<Action>, s: State)
    requires Inv(cfg, s0) && Retirement(cfg, s0) && Reaches(cfg, s0, actions, s)
    ensures Retirement(cfg, s)
    decreases |actions|
  {
    if actions != [] {
      NextKeeps(cfg, s0, actions[0]);
      NextRetires(cfg, s0, actions[0]);
      RetirementFrom(cfg, Next(cfg, s0, actions[0]), actions[1..], s);
    }
  }

  /** And names are retired for good, unless the first releaseRef was a missing one that an
      apply can still generate. */
  lemma ReachableRetirement(cfg: Config, s0: State, actions: seq<Action>, s: State)
    requires Init(cfg, s0) && Reaches(cfg, s0, actions, s)
    ensures Inv(cfg, s) && Retirement(cfg, s)
  {
    ReachableInv(cfg, s0, actions, s);
    RetirementFrom(cfg, s0, actions, s);
  }

  /** A name that this path has installed, such as the current releaseRef, belongs to a release
      that exists, that no pending cleanup will delete, and whose ConfigMap exists, is not
      garbage and holds a bundle matching the release's SHA annotation. */
  lemma InstalledRefIsIntact(cfg: Config, s0: State, actions: seq<Action>, s: State, ref: string)
    requires InitialStore(s0) && Reaches(cfg, s0, actions, s)
    requires exists j :: InstalledAs(s, j, ref)
    ensures
      && ref in s.store.releases
      && (forall k: nat | k < |s.runs| && s.runs[k].pc.Cleanup? :: s.runs[k].name != ref)
      && var release := s.store.releases[ref];
      && release.configMapRef == ref + "-manifests" && release.configMapRef in s.store.configMaps
      && var configMap := s.store.configMaps[release.configMapRef];
      && configMap.owner == release.uid
      && cfg.sha(configMap.manifests) == release.sha
  {
    ReachableInv(cfg, s0, actions, s);
    var j: nat :| InstalledAs(s, j, ref);
    assert RunInv(cfg, s, j);
    forall k: nat | k < |s.runs| && s.runs[k].pc.Cleanup? ensures s.runs[k].name != ref {
      assert RunInv(cfg, s, k);
    }
  }

  lemma {:induction false} SupersededGrows(cfg: Config, s: State, actions: seq<Action>, t: State)
    requires Reaches(cfg, s, actions, t)
    ensures s.superseded <= t.superseded
    decreases |actions|
  {
    if actions != [] {
      SupersededGrows(cfg, Next(cfg, s, actions[0]), actions[1..], t);
    }
  }

  /** A release this path marked Superseded is not named by releaseRef, then or later. */
  lemma SupersededStaysRetired(
      cfg: Config, s0: State, before: seq<Action>, s: State, after: seq<Action>, t: State, name: string)
    requires Init(cfg, s0) && Reaches(cfg, s0, before, s) && Reaches(cfg, s, after, t)
    requires name in s.superseded
    ensures t.store.app.Some? ==> t.store.app.value.releaseRef != name
  {
    ReachableRetirement(cfg, s0, before, s);
    RetirementFrom(cfg, s, after, t);
    SupersededGrows(cfg, s, after, t);
    assert NotNamed(t, name);
  }

  predicate WritesReleases(pc: Pc) {
    pc.ReleaseCreate? || pc.PolicyWrite? || pc.SupersedeWrite? || pc.Cleanup?
  }

  /** Every other step leaves the releases alone. */
  lemma ReleasesKept(cfg: Config, s: State, i: nat, ok: bool)
    requires i < |s.runs| && !WritesReleases(s.runs[i].pc)
    ensures RunStep(cfg, s, i, ok).store.releases == s.store.releases
  {
    var pc := s.runs[i].pc;
    if pc.StageCreate? || pc.StageRead? || pc.StageWrite? {
      StageStepMoves(cfg, s, i, ok);
    }
  }

  /** The only phase a run ever writes is Superseded, only on the release it replaced, and
      only over a terminal phase: the policy write, which stores a whole status, loses none. */
  lemma PhaseChangesAreSupersedes(
      cfg: Config, s0: State, actions: seq<Action>, s: State, i: nat, ok: bool, name: string)
    requires InitialStore(s0) && Reaches(cfg, s0, actions, s) && i < |s.runs|
    requires name in s.store.releases && name in RunStep(cfg, s, i, ok).store.releases
    requires RunStep(cfg, s, i, ok).store.releases[name].phase != s.store.releases[name].phase
    ensures s.store.releases[name].phase in {Complete, Failed, RolledBack, Superseded}
    ensures RunStep(cfg, s, i, ok).store.releases[name].phase == Superseded
    ensures name == s.runs[i].oldRef && name in RunStep(cfg, s, i, ok).superseded
  {
    if !WritesReleases(s.runs[i].pc) {
      ReleasesKept(cfg, s, i, ok);
    }
    assert RunInv(cfg, s, i) by {
      ReachableInv(cfg, s0, actions, s);
    }
  }

  /** The cleanup deletes by name, yet it only ever deletes the release its own run created,
      and never one that any run has installed. */
  lemma CleanupDeletesOwnRelease(
      cfg: Config, s0: State, actions: seq<Action>, s: State, i: nat, ok: bool, name: string)
    requires InitialStore(s0) && Reaches(cfg, s0, actions, s) && i < |s.runs|
    requires name in s.store.releases && name !in RunStep(cfg, s, i, ok).store.releases
    ensures s.store.releases[name].uid == ByRun(i) && s.runs[i].pc.Cleanup?
    ensures !exists j :: InstalledAs(s, j, name)
  {
    if !WritesReleases(s.runs[i].pc) {
      ReleasesKept(cfg, s, i, ok);
    }
    ReachableInv(cfg, s0, actions, s);
    assert RunInv(cfg, s, i);
    forall j: nat | j < |s.runs| ensures !InstalledAs(s, j, name) {
      assert RunInv(cfg, s, j);
    }
  }

  /** Nor does it delete the release that releaseRef names, or a superseded one. */
  lemma CleanupSparesNamedAndRetired(
      cfg: Config, s0: State, actions: seq<Action>, s: State, i: nat, ok: bool, name: string)
    requires Init(cfg, s0) && Reaches(cfg, s0, actions, s) && i < |s.runs|
    requires name in s.store.releases && name !in RunStep(cfg, s, i, ok).store.releases
    ensures NotNamed(s, name) && name !in s.superseded
  {
    ReachableRetirement(cfg, s0, actions, s);
    CleanupDeletesOwnRelease(cfg, s0, actions, s, i, ok, name);
    assert RunInv(cfg, s, i) && RunRetires(cfg, s, i);
    if !NotNamed(s, name) || name in s.superseded {
      SettledIsNotMine(cfg, s, i, name);
    }
  }

  /** A run that reported an error is not the one releaseRef points to. */
  lemma AbortedRunIsNotInstalled(cfg: Config, s0: State, actions: seq<Action>, s: State, i: nat)
    requires Init(cfg, s0) && Reaches(cfg, s0, actions, s) && i < |s.runs| && s.runs[i].pc.Aborted?
    requires s.store.app.Some? && s.store.app.value.releaseRef != ""
    ensures var ref := s.store.app.value.releaseRef;
      && (ref in s.store.releases || ref == s.firstRef)
      && (ref in s.store.releases ==> s.store.releases[ref].uid != ByRun(i))
  {
    ReachableRetirement(cfg, s0, actions, s);
    var ref := s.store.app.value.releaseRef;
    if ref != s.firstRef {
      var j: nat :| InstalledAs(s, j, ref);
      assert RunInv(cfg, s, j);
    }
  }

  /** No step of a run changes an application that has a promotion contract: the compare-and-swap
      only succeeds on an application that was read without one. The checks stop at it. */
  lemma ContractIsRespected(cfg: Config, s0: State, actions: seq<Action>, s: State, i: nat, ok: bool)
    requires InitialStore(s0) && Reaches(cfg, s0, actions, s) && i < |s.runs|
    requires s.store.app.Some? && s.store.app.value.contract
    ensures var t := RunStep(cfg, s, i, ok);
      && t.store.app == s.store.app && i < |t.runs|
      && (s.runs[i].pc.CheckApp? || s.runs[i].pc.AppRead? ==> t == Goto(s, i, Aborted))
      && (s.runs[i].pc.RefRead? ==> t == Goto(s, i, Cleanup))
  {
    ReachableInv(cfg, s0, actions, s);
    CopiesHaveNoContract(cfg, s0, actions, s);
    assert RunInv(cfg, s, i);
    ContractedStep(cfg, s, i, ok);
  }

  lemma ContractedStep(cfg: Config, s: State, i: nat, ok: bool)
    requires i < |s.runs| && s.store.app.Some? && s.store.app.value.contract && CopyCurrent(s, i) && CopyFree(s.runs[i].pc)
    ensures var t := RunStep(cfg, s, i, ok);
      && t.store.app == s.store.app && i < |t.runs|
      && (s.runs[i].pc.CheckApp? || s.runs[i].pc.AppRead? ==> t == Goto(s, i, Aborted))
      && (s.runs[i].pc.RefRead? ==> t == Goto(s, i, Cleanup))
  {
    var pc := s.runs[i].pc;
    if pc.StageCreate? || pc.StageRead? || pc.StageWrite? {
      StageStepMoves(cfg, s, i, ok);
    }
  }

  /** A copy of the application that a run is about to write back has no contract. */
  ghost predicate CopyFree(pc: Pc) {
    (pc.AppWrite? ==> !pc.app.contract) && (pc.RefWrite? ==> !pc.app.contract)
  }

  lemma CopyFreeKept(cfg: Config, s: State, a: Action)
    requires Enabled(cfg, s, a) && forall i: nat | i < |s.runs| :: CopyFree(s.runs[i].pc)
    ensures var t := Next(cfg, s, a); forall i: nat | i < |t.runs| :: CopyFree(t.runs[i].pc)
  {
    if a.Advance? {
      RunStepFrame(cfg, s, a.run, a.ok);
      CopyFreeStep(cfg, s, a.run, a.ok);
    }
  }

  lemma CopyFreeStep(cfg: Config, s: State, i: nat, ok: bool)
    requires i < |s.runs| && CopyFree(s.runs[i].pc)
    ensures i < |RunStep(cfg, s, i, ok).runs| && CopyFree(RunStep(cfg, s, i, ok).runs[i].pc)
  {
    var pc := s.runs[i].pc;
    if pc.StageCreate? || pc.StageRead? || pc.StageWrite? {
      StageStepMoves(cfg, s, i, ok);
    }
  }

  lemma {:induction false} CopiesStayFree(cfg: Config, s: State, actions: seq<Action>, t: State)
    requires Reaches(cfg, s, actions, t) && forall i: nat | i < |s.runs| :: CopyFree(s.runs[i].pc)
    ensures forall i: nat | i < |t.runs| :: CopyFree(t.runs[i].pc)
    decreases |actions|
  {
    if actions != [] {
      CopyFreeKept(cfg, s, actions[0]);
      CopiesStayFree(cfg, Next(cfg, s, actions[0]), actions[1..], t);
    }
  }

  lemma CopiesHaveNoContract(cfg: Config, s0: State, actions: seq<Action>, s: State)
    requires InitialStore(s0) && Reaches(cfg, s0, actions, s)
    ensures forall i: nat | i < |s.runs| :: CopyFree(s.runs[i].pc)
  {
    CopiesStayFree(cfg, s0, actions, s);
  }

  // ---------------------------------------------------------------- no installation is lost

  /** Once a run has installed its release, releaseRef names the release of such a run. */
  ghost predicate RefInstalled(s: State) {
    (exists j: nat :: j < |s.runs| && Installed(s.runs[j].pc)) ==>
      s.store.app.Some? && exists j :: InstalledAs(s, j, s.store.app.value.releaseRef)
  }

  ghost predicate RefChangedByInstall(s: State, t: State, i: nat)
    requires i < |s.runs| && i < |t.runs|
  {
    || (Installed(t.runs[i].pc) && !Installed(s.runs[i].pc)
        && t.store.app.Some? && t.store.app.value.releaseRef == s.runs[i].name)
    || (CurrentRef(t) == CurrentRef(s) && (s.store.app.Some? ==> t.store.app.Some?)
        && (Installed(t.runs[i].pc) <==> Installed(s.runs[i].pc)))
  }

  lemma AppWritersInstall(cfg: Config, s: State, i: nat, ok: bool)
    requires Inv(cfg, s) && i < |s.runs|
    requires s.runs[i].pc.AppCreate? || s.runs[i].pc.AppWrite? || s.runs[i].pc.RefWrite?
    ensures i < |RunStep(cfg, s, i, ok).runs| && RefChangedByInstall(s, RunStep(cfg, s, i, ok), i)
  {
    assert RunInv(cfg, s, i);
  }

  lemma ReleaseWritersKeepRef(cfg: Config, s: State, i: nat, ok: bool)
    requires i < |s.runs|
    requires var pc := s.runs[i].pc;
      || pc.ReleaseCreate? || pc.SnapshotCreate? || pc.PolicyRead? || pc.PolicyWrite? || pc.RefRead?
      || pc.Cleanup? || Installed(pc) || pc.Reused? || pc.Aborted?
    ensures i < |RunStep(cfg, s, i, ok).runs| && RefChangedByInstall(s, RunStep(cfg, s, i, ok), i)
  {
  }

  lemma EarlyStepsKeepRef(cfg: Config, s: State, i: nat, ok: bool)
    requires i < |s.runs|
    requires var pc := s.runs[i].pc;
      || pc.CheckApp? || pc.CheckRelease? || pc.Preflight? || pc.AppGet? || pc.AppRead?
      || pc.StageCreate? || pc.StageRead? || pc.StageWrite?
    ensures i < |RunStep(cfg, s, i, ok).runs| && RefChangedByInstall(s, RunStep(cfg, s, i, ok), i)
  {
  }

  /** A step of a run changes releaseRef only by installing its own release. */
  lemma RefChangesOnlyByInstall(cfg: Config, s: State, i: nat, ok: bool)
    requires Inv(cfg, s) && i < |s.runs|
    ensures i < |RunStep(cfg, s, i, ok).runs| && RefChangedByInstall(s, RunStep(cfg, s, i, ok), i)
  {
    var pc := s.runs[i].pc;
    if pc.AppCreate? || pc.AppWrite? || pc.RefWrite? {
      AppWritersInstall(cfg, s, i, ok);
    } else if pc.CheckApp? || pc.CheckRelease? || pc.Preflight? || pc.AppGet? || pc.AppRead?
              || pc.StageCreate? || pc.StageRead? || pc.StageWrite? {
      EarlyStepsKeepRef(cfg, s, i, ok);
    } else {
      ReleaseWritersKeepRef(cfg, s, i, ok);
    }
  }

  lemma RefInstalledKept(cfg: Config, s: State, a: Action)
    requires Inv(cfg, s) && RefInstalled(s) && Enabled(cfg, s, a)
    ensures RefInstalled(Next(cfg, s, a))
  {
    var t := Next(cfg, s, a);
    if a.Advance? {
      RefChangesOnlyByInstall(cfg, s, a.run, a.ok);
      RunStepFrame(cfg, s, a.run, a.ok);
    }
    if a.Advance? && Installed(t.runs[a.run].pc) && !Installed(s.runs[a.run].pc) {
      assert InstalledAs(t, a.run, t.store.app.value.releaseRef);
    } else if exists j: nat :: j < |s.runs| && Installed(s.runs[j].pc) {
      var k: nat :| InstalledAs(s, k, s.store.app.value.releaseRef);
      assert InstalledAs(t, k, t.store.app.value.releaseRef);
    } else {
      forall j: nat | j < |t.runs| ensures !Installed(t.runs[j].pc) {
        assert j < |s.runs| ==> !Installed(s.runs[j].pc);
      }
    }
  }

  lemma {:induction false} RefInstalledReachable(cfg: Config, s: State, actions: seq<Action>, t: State)
    requires Inv(cfg, s) && RefInstalled(s) && Reaches(cfg, s, actions, t)
    ensures RefInstalled(t)
    decreases |actions|
  {
    if actions != [] {
      NextKeeps(cfg, s, actions[0]);
      RefInstalledKept(cfg, s, actions[0]);
      RefInstalledReachable(cfg, Next(cfg, s, actions[0]), actions[1..], t);
    }
  }

  ghost predicate InstalledIntact(s: State, j: nat, ref: string) {
    && InstalledAs(s, j, ref)
    && ref in s.store.releases && s.store.releases[ref].uid == ByRun(j)
    && s.store.releases[ref].policyResults == s.runs[j].policyResults
    && SnapshotName(ref) in s.store.configMaps
    && s.store.configMaps[SnapshotName(ref)].manifests == s.runs[j].bundle
  }

  /** Whatever happens, releaseRef is its initial value or a name that some run has installed. */
  lemma RefIsFirstOrInstalled(cfg: Config, s0: State, actions: seq<Action>, s: State)
    requires InitialStore(s0) && Reaches(cfg, s0, actions, s)
    ensures CurrentRef(s) == s.firstRef || exists j :: InstalledAs(s, j, CurrentRef(s))
  {
    RefKnownFrom(cfg, s0, actions, s);
  }

  lemma {:induction false} RefKnownFrom(cfg: Config, s0: State, actions: seq<Action>, s: State)
    requires Inv(cfg, s0) && Reaches(cfg, s0, actions, s)
    requires CurrentRef(s0) == s0.firstRef || exists j :: InstalledAs(s0, j, CurrentRef(s0))
    ensures CurrentRef(s) == s.firstRef || exists j :: InstalledAs(s, j, CurrentRef(s))
    decreases |actions|
  {
    if actions != [] {
      var t := Next(cfg, s0, actions[0]);
      NextKeeps(cfg, s0, actions[0]);
      RefStaysKnown(cfg, s0, actions[0]);
      RefKnownFrom(cfg, t, actions[1..], s);
    }
  }

  lemma RefStaysKnown(cfg: Config, s: State, a: Action)
    requires Inv(cfg, s) && Enabled(cfg, s, a)
    requires CurrentRef(s) == s.firstRef || exists j :: InstalledAs(s, j, CurrentRef(s))
    ensures var t := Next(cfg, s, a); CurrentRef(t) == t.firstRef || exists j :: InstalledAs(t, j, CurrentRef(t))
  {
    var t := Next(cfg, s, a);
    if a.Advance? {
      RefChangesOnlyByInstall(cfg, s, a.run, a.ok);
      RunStepFrame(cfg, s, a.run, a.ok);
    }
    if CurrentRef(t) != CurrentRef(s) {
      assert InstalledAs(t, a.run, CurrentRef(t));
    } else if CurrentRef(s) != s.firstRef {
      var j: nat :| InstalledAs(s, j, CurrentRef(s));
      assert InstalledAs(t, j, CurrentRef(t));
    }
  }

  /** After any apply has succeeded, releaseRef is always the release of a run that installed
      it, with its policy results and its snapshot: no stale status write brings back an older value. */
  lemma AppliedRunsWin(cfg: Config, s0: State, actions: seq<Action>, s: State, i: nat)
    requires InitialStore(s0) && Reaches(cfg, s0, actions, s) && i < |s.runs| && s.runs[i].pc.Applied?
    ensures s.store.app.Some?
    ensures exists j: nat :: InstalledIntact(s, j, s.store.app.value.releaseRef)
  {
    assert Inv(cfg, s0) && RefInstalled(s0);
    ReachableInv(cfg, s0, actions, s);
    RefInstalledReachable(cfg, s0, actions, s);
    assert Installed(s.runs[i].pc);
    var j: nat :| InstalledAs(s, j, s.store.app.value.releaseRef);
    assert RunInv(cfg, s, j);
    assert InstalledIntact(s, j, s.store.app.value.releaseRef);
  }

  // ---------------------------------------------------------------- skipped applies and stages

  /** An apply that is skipped returns a release whose recorded bundle hashes like the
      caller's; when this path installed it, the stored manifests do too. */
  lemma SkippedApplyMatches(cfg: Config, s0: State, actions: seq<Action>, s: State, i: nat)
    requires Init(cfg, s0) && Reaches(cfg, s0, actions, s) && i < |s.runs| && s.runs[i].pc.Reused?
    ensures var ref := s.runs[i].pc.ref;
      && ref in s.store.releases
      && s.store.releases[ref].sha == cfg.sha(s.runs[i].bundle)
      && (ref != s.firstRef ==>
            && SnapshotName(ref) in s.store.configMaps
            && cfg.sha(s.store.configMaps[SnapshotName(ref)].manifests) == cfg.sha(s.runs[i].bundle))
  {
    ReachableRetirement(cfg, s0, actions, s);
    assert RunRetires(cfg, s, i);
    var ref := s.runs[i].pc.ref;
    if ref != s.firstRef {
      var j: nat :| InstalledAs(s, j, ref);
      assert RunInv(cfg, s, j);
    }
  }

  /** A run that is about to write a Stage read one that the repair accepts. */
  ghost predicate StageCopiesAcceptable(cfg: Config, s: State) {
    forall i: nat | i < |s.runs| && s.runs[i].pc.StageWrite? ::
      Acceptable(s.runs[i].pc.stage.owners, ControllerOwner(cfg))
  }

  lemma StageWriteComesFromRead(cfg: Config, s: State, i: nat, ok: bool)
    requires i < |s.runs| && i < |RunStep(cfg, s, i, ok).runs|
    requires RunStep(cfg, s, i, ok).runs[i].pc.StageWrite?
    ensures s.runs[i].pc.StageRead?
    ensures Acceptable(RunStep(cfg, s, i, ok).runs[i].pc.stage.owners, ControllerOwner(cfg))
  {
  }

  lemma StageCopiesKept(cfg: Config, s: State, a: Action)
    requires StageCopiesAcceptable(cfg, s) && Enabled(cfg, s, a)
    ensures StageCopiesAcceptable(cfg, Next(cfg, s, a))
  {
    if a.Advance? {
      RunStepFrame(cfg, s, a.run, a.ok);
      if RunStep(cfg, s, a.run, a.ok).runs[a.run].pc.StageWrite? {
        StageWriteComesFromRead(cfg, s, a.run, a.ok);
      }
    }
  }

  lemma {:induction false} StageCopiesStayAcceptable(cfg: Config, s: State, actions: seq<Action>, t: State)
    requires StageCopiesAcceptable(cfg, s) && Reaches(cfg, s, actions, t)
    ensures StageCopiesAcceptable(cfg, t)
    decreases |actions|
  {
    if actions != [] {
      StageCopiesKept(cfg, s, actions[0]);
      StageCopiesStayAcceptable(cfg, Next(cfg, s, actions[0]), actions[1..], t);
    }
  }

  /** An existing Stage changes only in a compare-and-swap that succeeds. */
  lemma StageChangeIsWrite(cfg: Config, s: State, i: nat, ok: bool)
    requires i < |s.runs| && s.store.stage.Some? && RunStep(cfg, s, i, ok).store.stage != s.store.stage
    ensures s.runs[i].pc.StageWrite? && ok && s.store.stage.value.version == s.runs[i].pc.stage.version
  {
  }

  lemma StageWriteStores(cfg: Config, s: State, i: nat, after: AfterStage, stage: StageObject)
    requires i < |s.runs| && s.runs[i].pc == StageWrite(after, stage)
    requires s.store.stage.Some? && s.store.stage.value.version == stage.version
    ensures RunStep(cfg, s, i, true).store.stage ==
      Some(RepairedStage(cfg, s.runs[i], after, stage).(version := s.store.clock + 1))
  {
    assert RunStep(cfg, s, i, true) == StageWriteStep(cfg, s, i, true, after, stage);
  }

  /** A run changes an existing Stage only by writing the repair of what is there. */
  lemma StageChangeIsRepair(cfg: Config, s: State, i: nat, ok: bool)
    requires Inv(cfg, s) && StageCopiesAcceptable(cfg, s) && i < |s.runs|
    requires s.store.stage.Some? && RunStep(cfg, s, i, ok).store.stage != s.store.stage
    ensures s.runs[i].pc.StageWrite? && Acceptable(s.store.stage.value.owners, ControllerOwner(cfg))
    ensures RunStep(cfg, s, i, ok).store.stage ==
      Some(RepairedStage(cfg, s.runs[i], s.runs[i].pc.after, s.store.stage.value).(version := s.store.clock + 1))
  {
    StageChangeIsWrite(cfg, s, i, ok);
    StageWriteStores(cfg, s, i, s.runs[i].pc.after, s.runs[i].pc.stage);
    assert StageCopyCurrent(s, s.runs[i].pc.stage) by {
      assert RunInv(cfg, s, i);
    }
  }

  /** The labels a run writes; every other label stays as it was. */
  lemma LabelsAreMerged(cfg: Config, labels: map<string, string>, name: string)
    ensures var merged := labels + BaseLabels(cfg, name);
      && merged.Keys == labels.Keys + {"app.paprika.io/managed-by", "app.paprika.io/name", "app.paprika.io/release",
                                       "app.paprika.io/history", "app.paprika.io/project"}
      && merged["app.paprika.io/name"] == cfg.appName && merged["app.paprika.io/release"] == name
      && merged["app.paprika.io/project"] == cfg.project && merged["app.paprika.io/managed-by"] == "paprika"
      && merged["app.paprika.io/history"] == "true"
      && forall k | k in labels && k !in BaseLabels(cfg, name) :: merged[k] == labels[k]
  {
  }

  /** No interleaving takes a Stage from another controller: a run that changes an existing
      Stage found at most its own application in control, leaves exactly that controller,
      keeps every unrelated owner and label, and labels the Stage with its release. */
  lemma StageIsNeverStolen(cfg: Config, s0: State, actions: seq<Action>, s: State, i: nat, ok: bool)
    requires InitialStore(s0) && Reaches(cfg, s0, actions, s) && i < |s.runs|
    requires s.store.stage.Some? && RunStep(cfg, s, i, ok).store.stage != s.store.stage
    ensures s.runs[i].pc.StageWrite? && Acceptable(s.store.stage.value.owners, ControllerOwner(cfg))
    ensures RunStep(cfg, s, i, ok).store.stage.Some?
    ensures var before, after := s.store.stage.value, RunStep(cfg, s, i, ok).store.stage.value;
      && (forall owner | owner in before.owners && owner.controller == Some(true) ::
            owner.kind == "Application" && owner.name == cfg.appName)
      && Controllers(after.owners) ==
         [OwnerReference("pipelines.paprika.io/v1alpha1", "Application", cfg.appName, cfg.appUid, Some(true), None)]
      && Unrelated(after.owners, ControllerOwner(cfg)) == Unrelated(before.owners, ControllerOwner(cfg))
      && Filtered(after.owners, owner => OtherResource(owner, "Application", cfg.appName)) ==
         Filtered(before.owners, owner => OtherResource(owner, "Application", cfg.appName))
      && after.labels == before.labels + BaseLabels(cfg, StageLabelName(s.runs[i], s.runs[i].pc.after))
  {
    ReachableInv(cfg, s0, actions, s);
    StageCopiesStayAcceptable(cfg, s0, actions, s);
    StageChangeIsRepair(cfg, s, i, ok);
    RepairTheorem(s.store.stage.value.owners, ControllerOwner(cfg));
    AcceptableIff(s.store.stage.value.owners, ControllerOwner(cfg));
  }

  // ---------------------------------------------------------------- release names

  /** The text before the last dash is determined by the whole. */
  lemma LastDash(a: string, x: string, b: string, y: string)
    requires '-' !in x && '-' !in y && a + "-" + x == b + "-" + y
    ensures a == b && x == y
  {
    var whole := a + "-" + x;
    assert whole[|a|] == '-' && whole[|b|] == '-';
    assert forall k | |a| < k < |whole| :: whole[k] == x[k - |a| - 1];
    assert forall k | |b| < k < |whole| :: whole[k] == y[k - |b| - 1];
    assert |a| == |b|;
    assert a == whole[..|a|] && b == whole[..|b|];
    assert x == whole[|a| + 1..] && y == whole[|b| + 1..];
  }

  /** A generated name starts with the application and the short hash, and its last part reads
      back as the second. */
  lemma ReleaseNameReads(cfg: Config, bundle: string, unix: nat)
    ensures var name, prefix := ReleaseName(cfg, bundle, unix), cfg.appName + "-release-" + cfg.shortSha(bundle) + "-";
      prefix <= name && ValueOf(name[|prefix|..]) == unix
  {
    DecimalIsExact(unix);
    var prefix := cfg.appName + "-release-" + cfg.shortSha(bundle) + "-";
    assert ReleaseName(cfg, bundle, unix) == prefix + Decimal(unix);
    assert ReleaseName(cfg, bundle, unix)[|prefix|..] == Decimal(unix);
  }

  /** Two applies generate the same release name exactly when they are for the same
      application, with the same short hash, in the same second. */
  lemma ReleaseNamesCollide(c: Config, bundle: string, unix: nat, d: Config, bundle': string, unix': nat)
    requires |c.shortSha(bundle)| == |d.shortSha(bundle')| == 8
    ensures ReleaseName(c, bundle, unix) == ReleaseName(d, bundle', unix') <==>
            c.appName == d.appName && c.shortSha(bundle) == d.shortSha(bundle') && unix == unix'
  {
    if ReleaseName(c, bundle, unix) == ReleaseName(d, bundle', unix') {
      var left, right := c.appName + "-release-" + c.shortSha(bundle), d.appName + "-release-" + d.shortSha(bundle');
      LastDash(left, Decimal(unix), right, Decimal(unix'));
      DecimalInjective(unix, unix');
      assert |c.appName| == |d.appName|;
      assert c.appName == left[..|c.appName|] && d.appName == right[..|d.appName|];
      assert c.shortSha(bundle) == left[|left| - 8..] && d.shortSha(bundle') == right[|right| - 8..];
    }
  }
}
