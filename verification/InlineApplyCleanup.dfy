/** What a failed apply leaves behind, and that a lost compare-and-swap is tried again. */
module InlineApplyCleanup {
  import opened Common
  import opened InlineApply
  import opened InlineApplySafety
  import opened InlineApplyRetirement
  import opened InlineApplyTheorems

  // ---------------------------------------------------------------- one failure

  /** The run has created its release and not installed it. */
  predicate HoldsUninstalled(pc: Pc) {
    pc.SnapshotCreate? || pc.PolicyRead? || pc.PolicyWrite? || pc.RefRead? || pc.RefWrite?
  }

  ghost predicate OwnsRelease(s: State, i: nat, n: string) {
    n in s.store.releases && s.store.releases[n].uid == ByRun(i)
  }

  ghost predicate HasRelease(s: State, i: nat) {
    exists n :: OwnsRelease(s, i, n)
  }

  /** From the creation of the release on. */
  predicate Created(pc: Pc) {
    Owns(pc) || pc.Aborted?
  }

  /** A release created by a run carries that run's name. */
  ghost predicate CreatorsNamed(s: State) {
    forall n, k: nat | OwnsRelease(s, k, n) :: k < |s.runs| && n == s.runs[k].name && Created(s.runs[k].pc)
  }

  lemma UidsKept(cfg: Config, s: State, i: nat, ok: bool, n: string)
    requires Inv(cfg, s) && i < |s.runs| && n in RunStep(cfg, s, i, ok).store.releases
    ensures var t := RunStep(cfg, s, i, ok);
      || (n in s.store.releases && t.store.releases[n].uid == s.store.releases[n].uid)
      || (n !in s.store.releases && s.runs[i].pc.ReleaseCreate? && t.store.releases[n].uid == ByRun(i)
          && n == s.runs[i].name && |t.runs| == |s.runs| && t.runs[i].pc.SnapshotCreate?)
  {
    if !WritesReleases(s.runs[i].pc) {
      ReleasesKept(cfg, s, i, ok);
    }
    assert RunInv(cfg, s, i);
  }

  lemma CreatedStays(cfg: Config, s: State, i: nat, ok: bool)
    requires i < |s.runs| && Created(s.runs[i].pc)
    ensures i < |RunStep(cfg, s, i, ok).runs| && Created(RunStep(cfg, s, i, ok).runs[i].pc)
  {
  }

  lemma CreatorsNamedKept(cfg: Config, s: State, a: Action)
    requires Inv(cfg, s) && CreatorsNamed(s) && Enabled(cfg, s, a)
    ensures CreatorsNamed(Next(cfg, s, a))
  {
    var t := Next(cfg, s, a);
    if a.Advance? {
      RunStepFrame(cfg, s, a.run, a.ok);
      if Created(s.runs[a.run].pc) {
        CreatedStays(cfg, s, a.run, a.ok);
      }
    }
    forall n, k: nat | OwnsRelease(t, k, n) ensures k < |t.runs| && n == t.runs[k].name && Created(t.runs[k].pc) {
      if a.Advance? {
        UidsKept(cfg, s, a.run, a.ok, n);
      }
      assert OwnsRelease(s, k, n) || (a.Advance? && k == a.run);
    }
  }

  lemma {:induction false} CreatorsNamedFrom(cfg: Config, s: State, actions: seq<Action>, t: State)
    requires Inv(cfg, s) && CreatorsNamed(s) && Reaches(cfg, s, actions, t)
    ensures CreatorsNamed(t)
    decreases |actions|
  {
    if actions != [] {
      NextKeeps(cfg, s, actions[0]);
      CreatorsNamedKept(cfg, s, actions[0]);
      CreatorsNamedFrom(cfg, Next(cfg, s, actions[0]), actions[1..], t);
    }
  }

  lemma FailingCallLeadsToCleanup(cfg: Config, s: State, i: nat)
    requires i < |s.runs| && HoldsUninstalled(s.runs[i].pc)
    ensures RunStep(cfg, s, i, false) == Goto(s, i, Cleanup)
  {
  }

  predicate BeforeRelease(pc: Pc) {
    || pc.CheckApp? || pc.CheckRelease? || pc.Preflight? || pc.AppGet? || pc.AppCreate? || pc.AppRead? || pc.AppWrite?
    || pc.StageCreate? || pc.StageRead? || pc.StageWrite? || pc.ReleaseCreate?
  }

  lemma EarlyFailureAborts(cfg: Config, s: State, i: nat)
    requires i < |s.runs| && BeforeRelease(s.runs[i].pc)
    ensures RunStep(cfg, s, i, false) == Goto(s, i, Aborted)
  {
  }

  /** A failed call stores nothing. Before the release it ends the apply; after it the cleanup
      comes first; once releaseRef is written the apply has succeeded all the same. */
  lemma FailedCallStoresNothing(cfg: Config, s: State, i: nat)
    requires i < |s.runs|
    ensures RunStep(cfg, s, i, false) ==
      if BeforeRelease(s.runs[i].pc) || s.runs[i].pc.Cleanup? then Goto(s, i, Aborted)
      else if HoldsUninstalled(s.runs[i].pc) then Goto(s, i, Cleanup)
      else if s.runs[i].pc.SupersedeRead? || s.runs[i].pc.SupersedeWrite? then Goto(s, i, Applied)
      else s
  {
    if BeforeRelease(s.runs[i].pc) {
      EarlyFailureAborts(cfg, s, i);
    } else if HoldsUninstalled(s.runs[i].pc) {
      FailingCallLeadsToCleanup(cfg, s, i);
    }
  }

  /** Whichever call fails after the release was created and before it was installed, the
      delete that follows leaves no release of the run, every other one as it was, and nothing
      else changed. */
  lemma FailedApplyCleansUp(cfg: Config, s0: State, actions: seq<Action>, s: State, i: nat)
    requires InitialStore(s0) && Reaches(cfg, s0, actions, s) && i < |s.runs|
    requires HoldsUninstalled(s.runs[i].pc)
    ensures i < |RunStep(cfg, s, i, false).runs|
    ensures var failed := RunStep(cfg, s, i, false);
      var t := RunStep(cfg, failed, i, true);
      && failed.store == s.store
      && i < |t.runs| && t.runs[i].pc == Aborted && !HasRelease(t, i)
      && (forall n | n in s.store.releases && s.store.releases[n].uid != ByRun(i) ::
            n in t.store.releases && t.store.releases[n] == s.store.releases[n])
      && t.store == s.store.(releases := t.store.releases) && t.store.releases.Keys <= s.store.releases.Keys
  {
    ReachableInv(cfg, s0, actions, s);
    CreatorsNamedFrom(cfg, s0, actions, s);
    FailingCallLeadsToCleanup(cfg, s, i);
    assert RunInv(cfg, s, i);
    var failed := Goto(s, i, Cleanup);
    var t := RunStep(cfg, failed, i, true);
    assert t.store.releases == s.store.releases - {s.runs[i].name};
    forall n ensures !OwnsRelease(t, i, n) {
      assert OwnsRelease(s, i, n) ==> n == s.runs[i].name;
    }
  }

  // ---------------------------------------------------------------- every failure, over whole runs

  /** In this run the cleanup of `i` was attempted and the delete returned an error. */
  ghost predicate DeleteFailed(cfg: Config, s: State, actions: seq<Action>, i: nat)
    decreases |actions|
  {
    && actions != [] && Enabled(cfg, s, actions[0])
    && (|| (i < |s.runs| && s.runs[i].pc.Cleanup? && actions[0] == Advance(i, false))
        || DeleteFailed(cfg, Next(cfg, s, actions[0]), actions[1..], i))
  }

  /** `failed` says whether an aborted run `i` still has its release. */
  ghost predicate LeftoverKnown(s: State, i: nat, failed: bool) {
    && (failed ==> i < |s.runs| && s.runs[i].pc.Aborted?)
    && (i < |s.runs| && s.runs[i].pc.Aborted? ==> (HasRelease(s, i) <==> failed))
  }

  /** Steps of others neither create nor delete a release of run `i`. */
  lemma OthersLeaveRelease(cfg: Config, s: State, a: Action, i: nat)
    requires Inv(cfg, s) && Enabled(cfg, s, a) && i < |s.runs| && !(a.Advance? && a.run == i)
    ensures HasRelease(Next(cfg, s, a), i) <==> HasRelease(s, i)
  {
    var t := Next(cfg, s, a);
    forall n ensures OwnsRelease(t, i, n) <==> OwnsRelease(s, i, n) {
      if a.Advance? {
        assert RunInv(cfg, s, a.run);
        if n in t.store.releases {
          UidsKept(cfg, s, a.run, a.ok, n);
        } else if n in s.store.releases {
          DeletedIsOwn(cfg, s, a.run, a.ok, n);
        }
      }
    }
  }

  lemma DeletedIsOwn(cfg: Config, s: State, i: nat, ok: bool, n: string)
    requires Inv(cfg, s) && i < |s.runs| && n in s.store.releases && n !in RunStep(cfg, s, i, ok).store.releases
    ensures s.store.releases[n].uid == ByRun(i)
  {
    if !WritesReleases(s.runs[i].pc) {
      ReleasesKept(cfg, s, i, ok);
    }
    assert RunInv(cfg, s, i);
  }

  /** A run aborts from the checks and writes before its release, or from the cleanup. */
  lemma AbortsEarlyOrCleaned(cfg: Config, s: State, i: nat, ok: bool)
    requires i < |s.runs| && Owns(s.runs[i].pc) && !s.runs[i].pc.Cleanup?
    ensures i < |RunStep(cfg, s, i, ok).runs| && !RunStep(cfg, s, i, ok).runs[i].pc.Aborted?
  {
  }

  lemma OwnStepLeftover(cfg: Config, s: State, i: nat, ok: bool, failed: bool)
    requires Inv(cfg, s) && CreatorsNamed(s) && LeftoverKnown(s, i, failed) && i < |s.runs|
    ensures LeftoverKnown(RunStep(cfg, s, i, ok), i, failed || (s.runs[i].pc.Cleanup? && !ok))
  {
    var pc, t := s.runs[i].pc, RunStep(cfg, s, i, ok);
    assert RunInv(cfg, s, i);
    if pc.Cleanup? {
      assert OwnsRelease(s, i, s.runs[i].name);
      if ok {
        assert t.store.releases == s.store.releases - {s.runs[i].name};
        forall n ensures !OwnsRelease(t, i, n) {
          assert OwnsRelease(s, i, n) ==> n == s.runs[i].name;
        }
      } else {
        assert OwnsRelease(t, i, s.runs[i].name);
      }
    } else if Owns(pc) {
      AbortsEarlyOrCleaned(cfg, s, i, ok);
    } else if t.runs[i].pc.Aborted? && !pc.Aborted? {
      forall n ensures !OwnsRelease(t, i, n) {
        assert !OwnsRelease(s, i, n);
        if n in t.store.releases {
          UidsKept(cfg, s, i, ok, n);
        }
      }
    }
  }

  lemma LeftoverStep(cfg: Config, s: State, a: Action, i: nat, failed: bool)
    requires Inv(cfg, s) && CreatorsNamed(s) && LeftoverKnown(s, i, failed) && Enabled(cfg, s, a)
    ensures LeftoverKnown(Next(cfg, s, a), i, failed || (i < |s.runs| && s.runs[i].pc.Cleanup? && a == Advance(i, false)))
  {
    if a.Advance? && a.run == i {
      OwnStepLeftover(cfg, s, i, a.ok, failed);
    } else if i < |s.runs| {
      if a.Advance? {
        RunStepFrame(cfg, s, a.run, a.ok);
      }
      OthersLeaveRelease(cfg, s, a, i);
    } else if a.Advance? {
      RunStepFrame(cfg, s, a.run, a.ok);
    }
  }

  lemma {:induction false} LeftoverFrom(cfg: Config, s: State, actions: seq<Action>, t: State, i: nat, failed: bool)
    requires Inv(cfg, s) && CreatorsNamed(s) && LeftoverKnown(s, i, failed) && Reaches(cfg, s, actions, t)
    ensures LeftoverKnown(t, i, failed || DeleteFailed(cfg, s, actions, i))
    decreases |actions|
  {
    if actions != [] {
      var a := actions[0];
      NextKeeps(cfg, s, a);
      CreatorsNamedKept(cfg, s, a);
      LeftoverStep(cfg, s, a, i, failed);
      LeftoverFrom(cfg, Next(cfg, s, a), actions[1..], t, i,
                   failed || (i < |s.runs| && s.runs[i].pc.Cleanup? && a == Advance(i, false)));
    }
  }

  /** In every interleaving, an apply that returned an error has left a release behind exactly
      when its own delete failed. */
  lemma LeftoverIffDeleteFailed(cfg: Config, s0: State, actions: seq<Action>, s: State, i: nat)
    requires InitialStore(s0) && Reaches(cfg, s0, actions, s) && i < |s.runs| && s.runs[i].pc.Aborted?
    ensures HasRelease(s, i) <==> DeleteFailed(cfg, s0, actions, i)
  {
    ReachableInv(cfg, s0, actions, s);
    assert Inv(cfg, s0);
    LeftoverFrom(cfg, s0, actions, s, i, false);
  }

  // ---------------------------------------------------------------- lost compare-and-swaps

  /** The object that run `i` is about to write has been written by somebody else since. */
  ghost predicate Overwritten(s: State, i: nat)
    requires i < |s.runs|
  {
    match s.runs[i].pc
    case AppWrite(app) => s.store.app.Some? && s.store.app.value.version != app.version
    case RefWrite(app) => s.store.app.Some? && s.store.app.value.version != app.version
    case StageWrite(_, stage) => s.store.stage.Some? && s.store.stage.value.version != stage.version
    case PolicyWrite(release) =>
      s.runs[i].name in s.store.releases && s.store.releases[s.runs[i].name].version != release.version
    case SupersedeWrite(release) =>
      s.runs[i].oldRef in s.store.releases && s.store.releases[s.runs[i].oldRef].version != release.version
    case _ => false
  }

  function ReadAgain(pc: Pc): Pc {
    match pc
    case AppWrite(_) => AppRead
    case RefWrite(_) => RefRead
    case StageWrite(after, _) => StageRead(after)
    case PolicyWrite(_) => PolicyRead
    case SupersedeWrite(_) => SupersedeRead
    case _ => pc
  }

  /** A write that lost the race stores nothing: it is read again while attempts last. */
  lemma LostSwapIsRetried(cfg: Config, s: State, i: nat)
    requires i < |s.runs| && Overwritten(s, i)
    ensures RunStep(cfg, s, i, true) == Goto(s, i, ReadAgain(s.runs[i].pc))
    ensures RunStep(cfg, s, i, false).store == s.store
  {
  }
}
