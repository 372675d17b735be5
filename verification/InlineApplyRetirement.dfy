/**
  Which names can come back. Once a name has been releaseRef, no run that has yet to install
  carries it, provided that the first releaseRef is not a missing name that an apply can
  still generate.
*/
module InlineApplyRetirement {
  import opened InlineApply
  import opened InlineApplySafety

  // ---------------------------------------------------------------- the invariant, clause by clause

  ghost predicate InstalledAs(s: State, j: nat, x: string) {
    j < |s.runs| && Installed(s.runs[j].pc) && s.runs[j].name == x
  }

  /** `x` was the first releaseRef or has been installed; such a name is never installed again. */
  ghost predicate Settled(s: State, x: string) {
    x == s.firstRef || exists j :: InstalledAs(s, j, x)
  }

  /** No run creates, or has created, a release under the first releaseRef. */
  ghost predicate FirstRefForeign(cfg: Config, s: State) {
    && (s.firstRef in s.store.releases ==> s.store.releases[s.firstRef].uid.External?)
    && (Generated(cfg, s.firstRef) ==> s.firstRef in s.store.releases)
  }

  ghost predicate NotNamed(s: State, x: string) {
    s.store.app.Some? ==> s.store.app.value.releaseRef != x
  }

  ghost predicate RefSettled(s: State) {
    s.store.app.Some? && s.store.app.value.releaseRef != "" ==> Settled(s, s.store.app.value.releaseRef)
  }

  ghost predicate OldRefSettled(s: State, i: nat)
    requires i < |s.runs|
  {
    var run := s.runs[i];
    && (run.oldRef != "" ==> Settled(s, run.oldRef))
    && (run.pc.SupersedeRead? || run.pc.SupersedeWrite? ==> run.oldRef != "" && NotNamed(s, run.oldRef))
  }

  ghost predicate SupersededRetired(s: State) {
    forall x | x in s.superseded :: x != "" && Settled(s, x) && NotNamed(s, x)
  }

  /** A run that returns the existing release was shown one that holds its bundle. */
  ghost predicate ReuseJustified(cfg: Config, s: State, i: nat)
    requires i < |s.runs|
  {
    var run := s.runs[i];
    match run.pc
    case CheckRelease(ref) => ref != "" && Settled(s, ref)
    case StageCreate(ThenReturn(ref)) => Matches(cfg, s, run.bundle, ref)
    case StageRead(ThenReturn(ref)) => Matches(cfg, s, run.bundle, ref)
    case StageWrite(ThenReturn(ref), _) => Matches(cfg, s, run.bundle, ref)
    case Reused(ref) => Matches(cfg, s, run.bundle, ref)
    case _ => true
  }

  ghost predicate Matches(cfg: Config, s: State, bundle: string, ref: string) {
    ref != "" && Settled(s, ref) && ref in s.store.releases && s.store.releases[ref].sha == cfg.sha(bundle)
  }

  ghost predicate RunRetires(cfg: Config, s: State, i: nat)
    requires i < |s.runs|
  {
    && s.runs[i].name != "" && Generated(cfg, s.runs[i].name)
    && OldRefSettled(s, i)
    && ReuseJustified(cfg, s, i)
  }

  ghost predicate Retirement(cfg: Config, s: State) {
    && FirstRefForeign(cfg, s)
    && RefSettled(s)
    && SupersededRetired(s)
    && forall i: nat | i < |s.runs| :: RunRetires(cfg, s, i)
  }

  // ---------------------------------------------------------------- why names are never installed twice

  /** The name of a run that has not installed yet is not a settled one: the release of a
      settled name belongs to somebody else. */
  lemma SettledIsNotMine(cfg: Config, s: State, k: nat, x: string)
    requires Inv(cfg, s) && FirstRefForeign(cfg, s) && k < |s.runs|
    requires Owns(s.runs[k].pc) && !Installed(s.runs[k].pc)
    requires Settled(s, x)
    ensures x != s.runs[k].name
  {
    assert RunInv(cfg, s, k);
    if x != s.firstRef {
      var j: nat :| InstalledAs(s, j, x);
      assert RunInv(cfg, s, j);
    }
  }

  /** Settled names stay settled while runs only move forward past installation. */
  lemma SettledStays(s: State, t: State)
    requires t.firstRef == s.firstRef && |s.runs| <= |t.runs|
    requires forall j: nat | j < |s.runs| && Installed(s.runs[j].pc) ::
               Installed(t.runs[j].pc) && t.runs[j].name == s.runs[j].name
    ensures forall x | Settled(s, x) :: Settled(t, x)
  {
    forall x | Settled(s, x) ensures Settled(t, x) {
      if x != s.firstRef {
        var j: nat :| InstalledAs(s, j, x);
        assert InstalledAs(t, j, x);
      }
    }
  }

  // ---------------------------------------------------------------- every step keeps it

  /** Settled releases are still there, with the bundle hash they had. */
  ghost predicate SettledReleasesKept(s: State, t: State) {
    forall n | n in s.store.releases && Settled(s, n) ::
      n in t.store.releases && t.store.releases[n].sha == s.store.releases[n].sha
  }

  /** A step that neither installs nor supersedes, seen from the runs that do not take it. */
  lemma FrameKeeps(cfg: Config, s: State, t: State)
    requires Retirement(cfg, s) && t.firstRef == s.firstRef && |s.runs| <= |t.runs|
    requires forall x | Settled(s, x) :: Settled(t, x)
    requires FirstRefForeign(cfg, t) && CurrentRef(t) == CurrentRef(s) && SettledReleasesKept(s, t)
    requires t.superseded == s.superseded || SupersededRetired(t)
    requires forall j: nat | j < |t.runs| :: (j < |s.runs| && t.runs[j] == s.runs[j]) || RunRetires(cfg, t, j)
    ensures Retirement(cfg, t)
  {
    forall j: nat | j < |t.runs| ensures RunRetires(cfg, t, j) {
      if j < |s.runs| && t.runs[j] == s.runs[j] {
        assert RunRetires(cfg, s, j);
      }
    }
  }

  /** A step of run `i` that touches neither releaseRef nor the releases. */
  lemma QuietStepKeeps(cfg: Config, s: State, t: State, i: nat)
    requires Retirement(cfg, s) && OnlyRunChanged(s, t, i) && t.superseded == s.superseded
    requires CurrentRef(t) == CurrentRef(s) && t.store.releases == s.store.releases
    requires t.runs[i].oldRef == s.runs[i].oldRef
    requires t.runs[i].pc.SupersedeRead? || t.runs[i].pc.SupersedeWrite? ==> s.runs[i].pc.SupersedeRead?
    requires ReuseJustified(cfg, t, i)
    ensures Retirement(cfg, t)
  {
    SettledStays(s, t);
    assert RunRetires(cfg, s, i);
    FrameKeeps(cfg, s, t);
  }

  lemma CheckStepsRetire(cfg: Config, s: State, i: nat, ok: bool)
    requires Retirement(cfg, s) && i < |s.runs| && (s.runs[i].pc.CheckApp? || s.runs[i].pc.CheckRelease?)
    ensures Retirement(cfg, RunStep(cfg, s, i, ok))
  {
    var t := RunStep(cfg, s, i, ok);
    RunStepFrame(cfg, s, i, ok);
    SettledStays(s, t);
    assert ReuseJustified(cfg, s, i) by {
      assert RunRetires(cfg, s, i);
    }
    QuietStepKeeps(cfg, s, t, i);
  }

  lemma EarlyReadsRetire(cfg: Config, s: State, i: nat, ok: bool)
    requires Retirement(cfg, s) && i < |s.runs|
    requires s.runs[i].pc.Preflight? || s.runs[i].pc.AppGet? || s.runs[i].pc.AppRead?
    ensures Retirement(cfg, RunStep(cfg, s, i, ok))
  {
    RunStepFrame(cfg, s, i, ok);
    QuietStepKeeps(cfg, s, RunStep(cfg, s, i, ok), i);
  }

  lemma LateReadsRetire(cfg: Config, s: State, i: nat, ok: bool)
    requires Retirement(cfg, s) && i < |s.runs|
    requires s.runs[i].pc.SnapshotCreate? || s.runs[i].pc.PolicyRead?
          || s.runs[i].pc.RefRead? || s.runs[i].pc.SupersedeRead?
    ensures Retirement(cfg, RunStep(cfg, s, i, ok))
  {
    RunStepFrame(cfg, s, i, ok);
    QuietStepKeeps(cfg, s, RunStep(cfg, s, i, ok), i);
  }

  /** A stage step leaves the rest of the store alone and does not change its mind. */
  lemma StageStepMoves(cfg: Config, s: State, i: nat, ok: bool)
    requires i < |s.runs| && (s.runs[i].pc.StageCreate? || s.runs[i].pc.StageRead? || s.runs[i].pc.StageWrite?)
    ensures var t, after := RunStep(cfg, s, i, ok), s.runs[i].pc.after;
      && t.store == s.store.(stage := t.store.stage, clock := t.store.clock) && t.superseded == s.superseded
      && i < |t.runs| && t.runs[i] == s.runs[i].(pc := t.runs[i].pc)
      && var pc := t.runs[i].pc;
      && (pc == Aborted || pc == AfterStagePc(after) || pc == StageRead(after)
          || (pc.StageWrite? && pc.after == after))
  {
  }

  lemma StageStepsRetire(cfg: Config, s: State, i: nat, ok: bool)
    requires Retirement(cfg, s) && i < |s.runs|
    requires s.runs[i].pc.StageCreate? || s.runs[i].pc.StageRead? || s.runs[i].pc.StageWrite?
    ensures Retirement(cfg, RunStep(cfg, s, i, ok))
  {
    var t := RunStep(cfg, s, i, ok);
    RunStepFrame(cfg, s, i, ok);
    StageStepMoves(cfg, s, i, ok);
    SettledStays(s, t);
    assert ReuseJustified(cfg, s, i) by {
      assert RunRetires(cfg, s, i);
    }
    QuietStepKeeps(cfg, s, t, i);
  }

  /** Writing the spec, and remembering the releaseRef that was there. */
  lemma AppStepsRetire(cfg: Config, s: State, i: nat, ok: bool)
    requires Inv(cfg, s) && Retirement(cfg, s) && i < |s.runs|
    requires s.runs[i].pc.AppCreate? || s.runs[i].pc.AppWrite?
    ensures Retirement(cfg, RunStep(cfg, s, i, ok))
  {
    var t := RunStep(cfg, s, i, ok);
    RunStepFrame(cfg, s, i, ok);
    SettledStays(s, t);
    assert RunInv(cfg, s, i) && RunRetires(cfg, s, i);
    FrameKeeps(cfg, s, t);
  }

  /** Creating the release, storing the policy results, and the cleanup. */
  lemma ReleaseStepsRetire(cfg: Config, s: State, i: nat, ok: bool)
    requires Inv(cfg, s) && Retirement(cfg, s) && i < |s.runs|
    requires s.runs[i].pc.ReleaseCreate? || s.runs[i].pc.PolicyWrite? || s.runs[i].pc.Cleanup?
    ensures Retirement(cfg, RunStep(cfg, s, i, ok))
  {
    var t := RunStep(cfg, s, i, ok);
    RunStepFrame(cfg, s, i, ok);
    SettledStays(s, t);
    assert RunInv(cfg, s, i) && RunRetires(cfg, s, i);
    if s.runs[i].pc.Cleanup? {
      forall x | Settled(s, x) ensures x != s.runs[i].name {
        SettledIsNotMine(cfg, s, i, x);
      }
    }
    FrameKeeps(cfg, s, t);
  }

  /** Installing: no superseded name, and none about to be, is named again. */
  lemma InstallRetires(cfg: Config, s: State, i: nat)
    requires Inv(cfg, s) && Retirement(cfg, s) && i < |s.runs| && s.runs[i].pc.RefWrite?
    requires s.store.app.Some? && s.store.app.value.version == s.runs[i].pc.app.version
    ensures Retirement(cfg, RunStep(cfg, s, i, true))
  {
    var t := RunStep(cfg, s, i, true);
    RunStepFrame(cfg, s, i, true);
    SettledStays(s, t);
    assert InstalledAs(t, i, s.runs[i].name);
    forall x | Settled(s, x) ensures x != s.runs[i].name {
      SettledIsNotMine(cfg, s, i, x);
    }
    forall j: nat | j < |t.runs| ensures RunRetires(cfg, t, j) {
      assert RunRetires(cfg, s, j);
    }
  }

  lemma RefWriteRetires(cfg: Config, s: State, i: nat, ok: bool)
    requires Inv(cfg, s) && Retirement(cfg, s) && i < |s.runs| && s.runs[i].pc.RefWrite?
    ensures Retirement(cfg, RunStep(cfg, s, i, ok))
  {
    if ok && s.store.app.Some? && s.store.app.value.version == s.runs[i].pc.app.version {
      InstallRetires(cfg, s, i);
    } else {
      var t := RunStep(cfg, s, i, ok);
      RunStepFrame(cfg, s, i, ok);
      SettledStays(s, t);
      assert RunRetires(cfg, s, i);
      FrameKeeps(cfg, s, t);
    }
  }

  lemma SupersedeWriteRetires(cfg: Config, s: State, i: nat, ok: bool)
    requires Inv(cfg, s) && Retirement(cfg, s) && i < |s.runs| && s.runs[i].pc.SupersedeWrite?
    ensures Retirement(cfg, RunStep(cfg, s, i, ok))
  {
    var t := RunStep(cfg, s, i, ok);
    RunStepFrame(cfg, s, i, ok);
    SettledStays(s, t);
    assert RunInv(cfg, s, i) && RunRetires(cfg, s, i);
    FrameKeeps(cfg, s, t);
  }

  lemma RunStepRetires(cfg: Config, s: State, i: nat, ok: bool)
    requires Inv(cfg, s) && Retirement(cfg, s) && i < |s.runs|
    ensures Retirement(cfg, RunStep(cfg, s, i, ok))
  {
    var pc := s.runs[i].pc;
    if pc.StageCreate? || pc.StageRead? || pc.StageWrite? {
      StageStepsRetire(cfg, s, i, ok);
    } else if pc.AppCreate? || pc.AppWrite? {
      AppStepsRetire(cfg, s, i, ok);
    } else if pc.ReleaseCreate? || pc.PolicyWrite? || pc.Cleanup? {
      ReleaseStepsRetire(cfg, s, i, ok);
    } else if pc.RefWrite? {
      RefWriteRetires(cfg, s, i, ok);
    } else if pc.SupersedeWrite? {
      SupersedeWriteRetires(cfg, s, i, ok);
    } else if pc.CheckApp? || pc.CheckRelease? {
      CheckStepsRetire(cfg, s, i, ok);
    } else if pc.Preflight? || pc.AppGet? || pc.AppRead? {
      EarlyReadsRetire(cfg, s, i, ok);
    } else if pc.SnapshotCreate? || pc.PolicyRead? || pc.RefRead? || pc.SupersedeRead? {
      LateReadsRetire(cfg, s, i, ok);
    }
  }

  lemma NextRetires(cfg: Config, s: State, a: Action)
    requires Inv(cfg, s) && Retirement(cfg, s) && Enabled(cfg, s, a)
    ensures Retirement(cfg, Next(cfg, s, a))
  {
    if a.Advance? {
      RunStepRetires(cfg, s, a.run, a.ok);
    } else {
      var t := Next(cfg, s, a);
      SettledStays(s, t);
      if a.Start? {
        assert Generated(cfg, t.runs[|s.runs|].name);
      }
      FrameKeeps(cfg, s, t);
    }
  }
}
