/** A releaseRef that names no release when the applies begin. */
module InlineApplyDangling {
  import opened Common
  import opened InlineApply
  import opened InlineApplySafety
  import opened InlineApplyRetirement
  import opened InlineApplyTheorems
  import opened InlineApplyAlone
  import opened InlineApplyRuns

  /** In no run does releaseRef name a release this path marked Superseded. */
  ghost predicate RetiresSuperseded(cfg: Config, s0: State) {
    forall actions, s, name | Reaches(cfg, s0, actions, s) && name in s.superseded :: NotNamed(s, name)
  }

  ghost predicate RetiresOnSteadyClock(cfg: Config, s0: State) {
    forall actions, s, name | Reaches(cfg, s0, actions, s) && SteadyClock(actions) && name in s.superseded ::
      NotNamed(s, name)
  }

  ghost predicate Dangles(s0: State, ref: string) {
    InitialStore(s0) && s0.firstRef == ref && ref !in s0.store.releases
  }

  // ---------------------------------------------------------------- how a superseded release returns

  /** Run `i` has replaced `x` and is about to supersede it; run `j` is about to create it. */
  ghost predicate Overtaken(s: State, i: nat, j: nat, x: string) {
    && i < |s.runs| && j < |s.runs| && i != j
    && s.runs[i].pc == SupersedeRead && s.runs[i].oldRef == x
    && s.runs[j].pc == ReleaseCreate && s.runs[j].name == x
    && x !in s.store.releases && SnapshotName(x) !in s.store.configMaps
    && s.store.app.Some? && !s.store.app.value.contract
  }

  /** Run `j` has its release, about to install it, when the release comes to an end. */
  lemma OvertakenEnds(cfg: Config, s: State, i: nat, j: nat, x: string) returns (actions: seq<Action>, t: State)
    requires Overtaken(s, i, j, x)
    ensures Reaches(cfg, s, actions, t) && NoStart(actions) && i < |t.runs| && j < |t.runs|
    ensures t.runs[i] == s.runs[i] && t.runs[j] == s.runs[j].(pc := RefRead) && t.store.app == s.store.app
    ensures x in t.store.releases && t.store.releases[x].phase == Failed
  {
    var created := ReleaseIsCreated(cfg, s, j);
    var calls := AloneReaches(cfg, s, j, 3);
    var rest;
    rest, t := CreatedEnds(cfg, created, j, x, created.runs[j].pc.release);
    ReachesTogether(cfg, s, calls, created, rest, t);
    actions := calls + rest;
  }

  lemma CreatedEnds(cfg: Config, s: State, j: nat, x: string, release: Release) returns (actions: seq<Action>, t: State)
    requires j < |s.runs| && s.runs[j].pc == PolicyWrite(release) && s.runs[j].name == x
    requires x in s.store.releases && s.store.releases[x] == release
    ensures Reaches(cfg, s, actions, t) && NoStart(actions) && t.runs == s.runs[j := s.runs[j].(pc := RefRead)]
    ensures t.store.app == s.store.app && x in t.store.releases && t.store.releases[x].phase == Failed
  {
    var u := Next(cfg, s, Advance(j, true));
    t := Next(cfg, u, WritePhase(x, Failed));
    ReachesStep(cfg, u, WritePhase(x, Failed), [], t);
    ReachesStep(cfg, s, Advance(j, true), [WritePhase(x, Failed)], t);
    actions := [Advance(j, true)] + [WritePhase(x, Failed)];
  }

  /** Now run `i` supersedes it, and then run `j` installs it. */
  lemma OvertakenReturns(cfg: Config, s: State, i: nat, j: nat, x: string) returns (actions: seq<Action>, t: State)
    requires i < |s.runs| && j < |s.runs| && i != j
    requires s.runs[i].pc == SupersedeRead && s.runs[i].oldRef == x
    requires s.runs[j].pc == RefRead && s.runs[j].name == x
    requires x in s.store.releases && s.store.releases[x].phase == Failed
    requires s.store.app.Some? && !s.store.app.value.contract
    ensures Reaches(cfg, s, actions, t) && NoStart(actions) && x in t.superseded && !NotNamed(t, x)
  {
    var mine, other := Advance(i, true), Advance(j, true);
    var s1 := Next(cfg, s, mine);
    assert s1 == Goto(s, i, SupersedeWrite(s.store.releases[x]));
    var s2 := Next(cfg, s1, mine);
    assert x in s2.superseded && s2.runs[j] == s.runs[j] && s2.store.app == s.store.app;
    var s3 := Next(cfg, s2, other);
    assert s3 == Goto(s2, j, RefWrite(s.store.app.value));
    t := Next(cfg, s3, other);
    ReachesStep(cfg, s3, other, [], t);
    ReachesStep(cfg, s2, other, [other], t);
    ReachesStep(cfg, s1, mine, [other] + [other], t);
    ReachesStep(cfg, s, mine, [mine] + ([other] + [other]), t);
    actions := [mine] + ([mine] + ([other] + [other]));
  }

  lemma OvertakenBreaks(cfg: Config, s: State, i: nat, j: nat, x: string) returns (actions: seq<Action>, t: State)
    requires Overtaken(s, i, j, x)
    ensures Reaches(cfg, s, actions, t) && NoStart(actions) && x in t.superseded && !NotNamed(t, x)
  {
    var first, u := OvertakenEnds(cfg, s, i, j, x);
    var second;
    second, t := OvertakenReturns(cfg, u, i, j, x);
    ReachesTogether(cfg, s, first, u, second, t);
    actions := first + second;
  }

  // ---------------------------------------------------------------- how two applies get there

  /** An apply finds `x` named but missing, replaces it, and pauses before superseding. */
  lemma MissingIsReplaced(cfg: Config, s: State, i: nat, x: string) returns (actions: seq<Action>, t: State)
    requires i < |s.runs| && s.runs[i].pc == CheckApp && s.runs[i].name != x && x != ""
    requires MayApply(cfg, s) && CurrentRef(s) == x && s.store.releases == map[] && s.store.configMaps == map[]
    ensures Reaches(cfg, s, actions, t) && NoStart(actions) && |t.runs| == |s.runs|
    ensures forall j: nat | j < |s.runs| && j != i :: t.runs[j] == s.runs[j]
    ensures t.runs[i].pc == SupersedeRead && t.runs[i].oldRef == x
    ensures x !in t.store.releases && SnapshotName(x) !in t.store.configMaps
    ensures t.store.app.Some? && !t.store.app.value.contract
  {
    var ready, u := ReadyToCreate(cfg, s, i);
    var n;
    t, n := ReleaseIsInstalled(cfg, u, i);
    SnapshotNameInjective(x, s.runs[i].name);
    var installs := AloneReaches(cfg, u, i, n);
    ReachesTogether(cfg, s, ready, u, installs, t);
    actions := ready + installs;
  }

  /** The apply of second `unix` pauses before it creates the missing release `x`; one that
      starts a second later replaces `x` in the meantime. */
  lemma TwoAppliesOvertake(cfg: Config, s: State, bundle: string, unix: nat, x: string)
      returns (actions: seq<Action>, t: State)
    requires cfg.startSecond <= unix && x == ReleaseName(cfg, bundle, unix) && x != ""
    requires s.runs == [] && MayApply(cfg, s) && CurrentRef(s) == x
    requires s.store.releases == map[] && s.store.configMaps == map[]
    ensures Reaches(cfg, s, actions, t) && Overtaken(t, 1, 0, x) && Starts(actions) == [unix, unix + 1]
  {
    SecondsDiffer(cfg, bundle, unix, unix + 1);
    var start1, start2 := Start(bundle, unix, ""), Start(bundle, unix + 1, "");
    var s1 := Next(cfg, s, start1);
    var first, s2 := ReadyToCreate(cfg, s1, 0);
    var s3 := Next(cfg, s2, start2);
    var second;
    second, t := MissingIsReplaced(cfg, s3, 1, x);
    ReachesStep(cfg, s2, start2, second, t);
    ReachesTogether(cfg, s1, first, s2, [start2] + second, t);
    ReachesStep(cfg, s, start1, first + ([start2] + second), t);
    actions := [start1] + (first + ([start2] + second));
    StartsTogether(first, [start2] + second);
    NoStartNoSeconds(first);
    NoStartNoSeconds(second);
  }

  lemma SecondsDiffer(cfg: Config, bundle: string, unix: nat, other: nat)
    requires unix != other
    ensures ReleaseName(cfg, bundle, unix) != ReleaseName(cfg, bundle, other)
  {
    var prefix := cfg.appName + "-release-" + cfg.shortSha(bundle);
    if ReleaseName(cfg, bundle, unix) == ReleaseName(cfg, bundle, other) {
      LastDash(prefix, Decimal(unix), prefix, Decimal(other));
      DecimalInjective(unix, other);
    }
  }

  // ---------------------------------------------------------------- the exact condition

  /** If an apply can still generate the dangling name, two applies and one release that fails
      early make releaseRef name a release that this path has marked Superseded. The clock of
      the applies does not go back. */
  lemma SupersededCanReturn(cfg: Config, bundle: string, unix: nat) returns (s0: State)
    requires cfg.startSecond <= unix
    ensures Dangles(s0, ReleaseName(cfg, bundle, unix))
    ensures !RetiresSuperseded(cfg, s0) && !RetiresOnSteadyClock(cfg, s0)
  {
    var x := ReleaseName(cfg, bundle, unix);
    s0 := State(Store(Some(Application("", x, false, 0)), None, map[], map[], 0), [], {}, x);
    var first, s1 := TwoAppliesOvertake(cfg, s0, bundle, unix, x);
    var second, s2 := OvertakenBreaks(cfg, s1, 1, 0, x);
    ReachesTogether(cfg, s0, first, s1, second, s2);
    StartsTogether(first, second);
    StartsTogether(first, second);
    NoStartNoSeconds(second);
    assert SteadyClock(first + second);
  }

  /** A store whose releaseRef dangles is safe for every run, equally for every run whose clock
      does not go back, exactly when no apply from the start second on can generate that name. */
  lemma DanglingRefIsSafeIff(cfg: Config, ref: string)
    ensures (forall s0 | Dangles(s0, ref) :: RetiresSuperseded(cfg, s0)) <==> !Generated(cfg, ref)
    ensures (forall s0 | Dangles(s0, ref) :: RetiresOnSteadyClock(cfg, s0)) <==> !Generated(cfg, ref)
  {
    if Generated(cfg, ref) {
      var bundle, unix :| cfg.startSecond <= unix && ref == ReleaseName(cfg, bundle, unix);
      var s0 := SupersededCanReturn(cfg, bundle, unix);
    } else {
      forall s0 | Dangles(s0, ref) ensures RetiresSuperseded(cfg, s0) {
        forall actions, s, name | Reaches(cfg, s0, actions, s) && name in s.superseded ensures NotNamed(s, name) {
          ReachableRetirement(cfg, s0, actions, s);
        }
      }
    }
  }

  /** So the name of a release that an apply created before the start second, and that has been
      deleted since, is harmless. */
  lemma PastNameIsNotGenerated(cfg: Config, bundle: string, unix: nat)
    requires unix < cfg.startSecond
    ensures !Generated(cfg, ReleaseName(cfg, bundle, unix))
  {
    forall other: string, later: nat | cfg.startSecond <= later
      ensures ReleaseName(cfg, bundle, unix) != ReleaseName(cfg, other, later)
    {
      var left, right := cfg.appName + "-release-" + cfg.shortSha(bundle), cfg.appName + "-release-" + cfg.shortSha(other);
      if ReleaseName(cfg, bundle, unix) == ReleaseName(cfg, other, later) {
        LastDash(left, Decimal(unix), right, Decimal(later));
        DecimalInjective(unix, later);
      }
    }
  }
}
