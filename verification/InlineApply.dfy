/**
  The inline-apply protocol as interleaved atomic steps over the Kubernetes store.

  Every step is one API call: it either takes effect as a whole or returns an
  error and has no effect. Writes are compare-and-swap on the resource version
  that was read. Any number of runs interleave with each other and with the
  controllers that write the same objects.
*/
module InlineApply {
  import opened Common
  import opened OwnerReferences

  datatype ReleasePhase =
    | Unset | Pending | Promoting | Canarying | Verifying | AwaitingApproval
    | Complete | Failed | RolledBack | Superseded

  predicate IsTerminal(phase: ReleasePhase) {
    phase.Complete? || phase.Failed? || phase.RolledBack? || phase.Superseded?
  }

  /** The identity the API server gives a created object. A run creates at most one
      release, so the run's number identifies the release it created. */
  datatype Uid = ByRun(run: nat) | External(id: nat)

  datatype Release = Release(
    uid: Uid,
    sha: string,
    configMapRef: string,
    phase: ReleasePhase,
    policyResults: string,
    version: nat)

  datatype ConfigMap = ConfigMap(owner: Uid, manifests: string)

  /** `contract` stands for the promotion contract that an inline apply must not overwrite. */
  datatype Application = Application(configMapRef: string, releaseRef: string, contract: bool, version: nat)

  datatype StageObject = StageObject(owners: seq<OwnerReference>, labels: map<string, string>, version: nat)

  /** The objects of one namespace that an apply of one application touches. */
  datatype Store = Store(
    app: Option<Application>,
    stage: Option<StageObject>,
    releases: map<string, Release>,
    configMaps: map<string, ConfigMap>,
    clock: nat)

  /** What a run does once the Stage is in place: create a release, or return the existing one. */
  datatype AfterStage = ThenRelease | ThenReturn(ref: string)

  /** Where a run stands; the argument of a `...Write` is the copy it read. */
  datatype Pc =
    | CheckApp
    | CheckRelease(ref: string)
    | Preflight
    | AppGet
    | AppCreate
    | AppRead
    | AppWrite(app: Application)
    | StageCreate(after: AfterStage)
    | StageRead(after: AfterStage)
    | StageWrite(after: AfterStage, stage: StageObject)
    | ReleaseCreate
    | SnapshotCreate
    | PolicyRead
    | PolicyWrite(release: Release)
    | RefRead
    | RefWrite(app: Application)
    | Cleanup
    | SupersedeRead
    | SupersedeWrite(release: Release)
    | Applied
    | Reused(ref: string)
    | Aborted

  datatype Run = Run(name: string, bundle: string, policyResults: string, oldRef: string, pc: Pc)

  /** `superseded` records the names this path has marked Superseded, `firstRef` the
      releaseRef the application had before any run. */
  datatype State = State(store: Store, runs: seq<Run>, superseded: set<string>, firstRef: string)

  /** The application being applied, the second from which applies are looked at, and the hash
      functions, which are left abstract. */
  datatype Config = Config(
    startSecond: nat,
    appName: string,
    appUid: string,
    project: string,
    sha: string -> string,
    shortSha: string -> string)

  const GROUP_VERSION := "pipelines.paprika.io/v1alpha1"

  // ---------------------------------------------------------------- names and built objects

  function ReleaseName(cfg: Config, bundle: string, unix: nat): string {
    cfg.appName + "-release-" + cfg.shortSha(bundle) + "-" + Decimal(unix)
  }

  function SnapshotName(releaseName: string): string {
    releaseName + "-manifests"
  }

  function ControllerOwner(cfg: Config): OwnerReference {
    OwnerReference(GROUP_VERSION, "Application", cfg.appName, cfg.appUid, Some(true), None)
  }

  function BaseLabels(cfg: Config, releaseName: string): map<string, string> {
    map[
      "app.paprika.io/managed-by" := "paprika",
      "app.paprika.io/name" := cfg.appName,
      "app.paprika.io/release" := releaseName,
      "app.paprika.io/history" := "true",
      "app.paprika.io/project" := cfg.project]
  }

  // ---------------------------------------------------------------- one step of one run

  function Goto(s: State, i: nat, pc: Pc): State
    requires i < |s.runs|
  {
    s.(runs := s.runs[i := s.runs[i].(pc := pc)])
  }

  function WithStore(s: State, store: Store): State {
    s.(store := store)
  }

  /** Skips the apply when the current release already completed with this bundle. */
  function CheckAppStep(s: State, i: nat, ok: bool): State
    requires i < |s.runs|
  {
    if !ok then Goto(s, i, Aborted)
    else if s.store.app.None? then Goto(s, i, Preflight)
    else if s.store.app.value.contract then Goto(s, i, Aborted)
    else if s.store.app.value.releaseRef == "" then Goto(s, i, Preflight)
    else Goto(s, i, CheckRelease(s.store.app.value.releaseRef))
  }

  function CheckReleaseStep(cfg: Config, s: State, i: nat, ok: bool, ref: string): State
    requires i < |s.runs|
  {
    if !ok then Goto(s, i, Aborted)
    else if ref !in s.store.releases then Goto(s, i, Preflight)
    else if s.store.releases[ref].phase != Complete then Goto(s, i, Preflight)
    else if s.store.releases[ref].sha != cfg.sha(s.runs[i].bundle) then Goto(s, i, Preflight)
    else Goto(s, i, StageCreate(ThenReturn(ref)))
  }

  ghost function PreflightStep(cfg: Config, s: State, i: nat, ok: bool): State
    requires i < |s.runs|
  {
    if !ok then Goto(s, i, Aborted)
    else if s.store.stage.None? then Goto(s, i, AppGet)
    else if Acceptable(s.store.stage.value.owners, ControllerOwner(cfg)) then Goto(s, i, AppGet)
    else Goto(s, i, Aborted)
  }

  function AppGetStep(s: State, i: nat, ok: bool): State
    requires i < |s.runs|
  {
    Goto(s, i, if !ok then Aborted else if s.store.app.None? then AppCreate else AppRead)
  }

  function AppCreateStep(s: State, i: nat, ok: bool): State
    requires i < |s.runs|
  {
    if !ok || s.store.app.Some? then Goto(s, i, Aborted)
    else
      var app := Application(SnapshotName(s.runs[i].name), "", false, s.store.clock + 1);
      var run := s.runs[i].(oldRef := "", pc := StageCreate(ThenRelease));
      s.(store := s.store.(app := Some(app), clock := s.store.clock + 1), runs := s.runs[i := run])
  }

  function AppReadStep(s: State, i: nat, ok: bool): State
    requires i < |s.runs|
  {
    if !ok || s.store.app.None? || s.store.app.value.contract then Goto(s, i, Aborted)
    else Goto(s, i, AppWrite(s.store.app.value))
  }

  /** A lost compare-and-swap is read again while retries last (`ok`) and fails after that. */
  function AppWriteStep(s: State, i: nat, ok: bool, read: Application): State
    requires i < |s.runs|
  {
    if !ok || s.store.app.None? then Goto(s, i, Aborted)
    else if s.store.app.value.version != read.version then Goto(s, i, AppRead)
    else
      var app := read.(configMapRef := SnapshotName(s.runs[i].name), version := s.store.clock + 1);
      var run := s.runs[i].(oldRef := read.releaseRef, pc := StageCreate(ThenRelease));
      s.(store := s.store.(app := Some(app), clock := s.store.clock + 1), runs := s.runs[i := run])
  }

  function AfterStagePc(after: AfterStage): Pc {
    match after
    case ThenRelease => ReleaseCreate
    case ThenReturn(ref) => Reused(ref)
  }

  /** The release name that labels the Stage: the new one, or the one being reused. */
  function StageLabelName(run: Run, after: AfterStage): string {
    match after
    case ThenRelease => run.name
    case ThenReturn(ref) => ref
  }

  function StageCreateStep(cfg: Config, s: State, i: nat, ok: bool, after: AfterStage): State
    requires i < |s.runs|
  {
    if !ok then Goto(s, i, Aborted)
    else if s.store.stage.Some? then Goto(s, i, StageRead(after))
    else
      var labels := BaseLabels(cfg, StageLabelName(s.runs[i], after));
      var stage := StageObject([ControllerOwner(cfg)], labels, s.store.clock + 1);
      Goto(WithStore(s, s.store.(stage := Some(stage), clock := s.store.clock + 1)), i, AfterStagePc(after))
  }

  /** The Stage as the repair would write it, before the version is assigned. */
  ghost function RepairedStage(cfg: Config, run: Run, after: AfterStage, stage: StageObject): StageObject {
    stage.(owners := Replacement(stage.owners, ControllerOwner(cfg)),
           labels := stage.labels + BaseLabels(cfg, StageLabelName(run, after)))
  }

  ghost function StageReadStep(cfg: Config, s: State, i: nat, ok: bool, after: AfterStage): State
    requires i < |s.runs|
  {
    if !ok || s.store.stage.None? then Goto(s, i, Aborted)
    else if Repair(s.store.stage.value.owners, ControllerOwner(cfg)).Err? then Goto(s, i, Aborted)
    else if RepairedStage(cfg, s.runs[i], after, s.store.stage.value) == s.store.stage.value then
      Goto(s, i, AfterStagePc(after))
    else Goto(s, i, StageWrite(after, s.store.stage.value))
  }

  ghost function StageWriteStep(cfg: Config, s: State, i: nat, ok: bool, after: AfterStage, read: StageObject): State
    requires i < |s.runs|
  {
    if !ok || s.store.stage.None? then Goto(s, i, Aborted)
    else if s.store.stage.value.version != read.version then Goto(s, i, StageRead(after))
    else
      var stage := RepairedStage(cfg, s.runs[i], after, read).(version := s.store.clock + 1);
      Goto(WithStore(s, s.store.(stage := Some(stage), clock := s.store.clock + 1)), i, AfterStagePc(after))
  }

  function ReleaseCreateStep(cfg: Config, s: State, i: nat, ok: bool): State
    requires i < |s.runs|
  {
    var run := s.runs[i];
    if !ok || run.name in s.store.releases then Goto(s, i, Aborted)
    else
      var release := Release(ByRun(i), cfg.sha(run.bundle), SnapshotName(run.name), Unset, "", s.store.clock + 1);
      var store := s.store.(releases := s.store.releases[run.name := release], clock := s.store.clock + 1);
      Goto(WithStore(s, store), i, SnapshotCreate)
  }

  function SnapshotCreateStep(s: State, i: nat, ok: bool): State
    requires i < |s.runs|
  {
    var run := s.runs[i];
    if !ok || SnapshotName(run.name) in s.store.configMaps then Goto(s, i, Cleanup)
    else
      var configMap := ConfigMap(ByRun(i), run.bundle);
      var store := s.store.(configMaps := s.store.configMaps[SnapshotName(run.name) := configMap]);
      Goto(WithStore(s, store), i, PolicyRead)
  }

  function PolicyReadStep(s: State, i: nat, ok: bool): State
    requires i < |s.runs|
  {
    if !ok || s.runs[i].name !in s.store.releases then Goto(s, i, Cleanup)
    else Goto(s, i, PolicyWrite(s.store.releases[s.runs[i].name]))
  }

  function PolicyWriteStep(s: State, i: nat, ok: bool, read: Release): State
    requires i < |s.runs|
  {
    var run := s.runs[i];
    if !ok || run.name !in s.store.releases then Goto(s, i, Cleanup)
    else if s.store.releases[run.name].version != read.version then Goto(s, i, PolicyRead)
    else
      var release := read.(policyResults := run.policyResults, version := s.store.clock + 1);
      var store := s.store.(releases := s.store.releases[run.name := release], clock := s.store.clock + 1);
      Goto(WithStore(s, store), i, RefRead)
  }

  function RefReadStep(s: State, i: nat, ok: bool): State
    requires i < |s.runs|
  {
    if !ok || s.store.app.None? || s.store.app.value.contract then Goto(s, i, Cleanup)
    else Goto(s, i, RefWrite(s.store.app.value))
  }

  function RefWriteStep(s: State, i: nat, ok: bool, read: Application): State
    requires i < |s.runs|
  {
    var run := s.runs[i];
    if !ok || s.store.app.None? then Goto(s, i, Cleanup)
    else if s.store.app.value.version != read.version then Goto(s, i, RefRead)
    else
      var app := read.(releaseRef := run.name, version := s.store.clock + 1);
      Goto(WithStore(s, s.store.(app := Some(app), clock := s.store.clock + 1)), i,
           if run.oldRef != "" && run.oldRef != run.name then SupersedeRead else Applied)
  }

  /** The failure cleanup deletes by name; a failed delete is only logged. */
  function CleanupStep(s: State, i: nat, ok: bool): State
    requires i < |s.runs|
  {
    if !ok then Goto(s, i, Aborted)
    else Goto(WithStore(s, s.store.(releases := s.store.releases - {s.runs[i].name})), i, Aborted)
  }

  function SupersedeReadStep(s: State, i: nat, ok: bool): State
    requires i < |s.runs|
  {
    var previous := s.runs[i].oldRef;
    if !ok || previous !in s.store.releases || !IsTerminal(s.store.releases[previous].phase) then Goto(s, i, Applied)
    else Goto(s, i, SupersedeWrite(s.store.releases[previous]))
  }

  function SupersedeWriteStep(s: State, i: nat, ok: bool, read: Release): State
    requires i < |s.runs|
  {
    var previous := s.runs[i].oldRef;
    if !ok || previous !in s.store.releases then Goto(s, i, Applied)
    else if s.store.releases[previous].version != read.version then Goto(s, i, SupersedeRead)
    else
      var release := read.(phase := Superseded, version := s.store.clock + 1);
      var store := s.store.(releases := s.store.releases[previous := release], clock := s.store.clock + 1);
      Goto(WithStore(s, store).(superseded := s.superseded + {previous}), i, Applied)
  }

  /** The next API call of run `i`; `ok` is false when the call returns an error, or when a
      compare-and-swap loses with no retries left. A finished run stays as it is. */
  ghost function RunStep(cfg: Config, s: State, i: nat, ok: bool): State
    requires i < |s.runs|
  {
    match s.runs[i].pc
    case CheckApp => CheckAppStep(s, i, ok)
    case CheckRelease(ref) => CheckReleaseStep(cfg, s, i, ok, ref)
    case Preflight => PreflightStep(cfg, s, i, ok)
    case AppGet => AppGetStep(s, i, ok)
    case AppCreate => AppCreateStep(s, i, ok)
    case AppRead => AppReadStep(s, i, ok)
    case AppWrite(app) => AppWriteStep(s, i, ok, app)
    case StageCreate(after) => StageCreateStep(cfg, s, i, ok, after)
    case StageRead(after) => StageReadStep(cfg, s, i, ok, after)
    case StageWrite(after, stage) => StageWriteStep(cfg, s, i, ok, after, stage)
    case ReleaseCreate => ReleaseCreateStep(cfg, s, i, ok)
    case SnapshotCreate => SnapshotCreateStep(s, i, ok)
    case PolicyRead => PolicyReadStep(s, i, ok)
    case PolicyWrite(release) => PolicyWriteStep(s, i, ok, release)
    case RefRead => RefReadStep(s, i, ok)
    case RefWrite(app) => RefWriteStep(s, i, ok, app)
    case Cleanup => CleanupStep(s, i, ok)
    case SupersedeRead => SupersedeReadStep(s, i, ok)
    case SupersedeWrite(release) => SupersedeWriteStep(s, i, ok, release)
    case Applied => s
    case Reused(_) => s
    case Aborted => s
  }

  // ---------------------------------------------------------------- the environment

  /** What everybody else may do: start another apply, let a controller write a phase, an
      application spec or a stage, create unrelated objects, and collect orphaned ConfigMaps. */
  datatype Action =
    | Start(bundle: string, unix: nat, policyResults: string)
    | Advance(run: nat, ok: bool)
    | WritePhase(name: string, phase: ReleasePhase)
    | WriteApp(configMapRef: string, contract: bool)
    | WriteStage(owners: seq<OwnerReference>, labels: map<string, string>)
    | AddRelease(name: string, release: Release)
    | AddConfigMap(name: string, configMap: ConfigMap)
    | Collect(name: string)

  ghost predicate Enabled(cfg: Config, s: State, a: Action) {
    match a
    case Start(_, unix, _) => cfg.startSecond <= unix
    case Advance(run, _) => run < |s.runs|
    case WritePhase(name, _) => name in s.store.releases
    case WriteApp(_, _) => true
    case WriteStage(_, _) => true
    case AddRelease(name, release) => name !in s.store.releases && release.uid.External?
    case AddConfigMap(name, configMap) => name !in s.store.configMaps && configMap.owner.External?
    case Collect(name) =>
      && name in s.store.configMaps
      && forall n | n in s.store.releases :: s.store.releases[n].uid != s.store.configMaps[name].owner
  }

  ghost function Next(cfg: Config, s: State, a: Action): State
    requires Enabled(cfg, s, a)
  {
    var tick := s.store.clock + 1;
    match a
    case Start(bundle, unix, policyResults) =>
      s.(runs := s.runs + [Run(ReleaseName(cfg, bundle, unix), bundle, policyResults, "", CheckApp)])
    case Advance(run, ok) => RunStep(cfg, s, run, ok)
    case WritePhase(name, phase) =>
      var release := s.store.releases[name].(phase := phase, version := tick);
      WithStore(s, s.store.(releases := s.store.releases[name := release], clock := tick))
    case WriteApp(configMapRef, contract) =>
      var ref := if s.store.app.Some? then s.store.app.value.releaseRef else "";
      WithStore(s, s.store.(app := Some(Application(configMapRef, ref, contract, tick)), clock := tick))
    case WriteStage(owners, labels) =>
      WithStore(s, s.store.(stage := Some(StageObject(owners, labels, tick)), clock := tick))
    case AddRelease(name, release) =>
      WithStore(s, s.store.(releases := s.store.releases[name := release.(version := tick)], clock := tick))
    case AddConfigMap(name, configMap) =>
      WithStore(s, s.store.(configMaps := s.store.configMaps[name := configMap]))
    case Collect(name) =>
      WithStore(s, s.store.(configMaps := s.store.configMaps - {name}))
  }

  /** A name that some apply of this application can still give its release. */
  ghost predicate Generated(cfg: Config, name: string) {
    exists bundle, unix | cfg.startSecond <= unix :: name == ReleaseName(cfg, bundle, unix)
  }

  function CurrentRef(s: State): string {
    if s.store.app.Some? then s.store.app.value.releaseRef else ""
  }

  /** A store nobody has applied to yet. */
  ghost predicate InitialStore(s: State) {
    && s.runs == [] && s.superseded == {}
    && (s.store.app.Some? ==> s.store.app.value.version <= s.store.clock)
    && (s.store.stage.Some? ==> s.store.stage.value.version <= s.store.clock)
    && (forall n | n in s.store.releases ::
          s.store.releases[n].uid.External? && s.store.releases[n].version <= s.store.clock)
    && s.firstRef == CurrentRef(s)
  }

  /** Its releaseRef, if an apply can still generate that name, names a release that exists. */
  ghost predicate Init(cfg: Config, s: State) {
    InitialStore(s) && (Generated(cfg, s.firstRef) ==> s.firstRef in s.store.releases)
  }

  /** `s` is reached from `s0` by performing `actions` in order. */
  ghost predicate Reaches(cfg: Config, s0: State, actions: seq<Action>, s: State)
    decreases |actions|
  {
    if actions == [] then s0 == s
    else Enabled(cfg, s0, actions[0]) && Reaches(cfg, Next(cfg, s0, actions[0]), actions[1..], s)
  }
}
