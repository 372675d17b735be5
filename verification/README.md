# Paprika: verified models of the delivery control plane's cores

A Dafny 4.11 project that models the parts of Paprika where several objects, goroutines or
passes have to agree, and proves what they promise. `dafny verify dfyconfig.toml` checks all of it.

## What is modelled

- **Inline apply** (`InlineApply*.dfy`, `OwnerReferences.dfy`). The write sequence Application,
  Stage, Release, snapshot ConfigMap, `status.releaseRef`, supersede, as atomic API calls over a
  store with resource versions. Any number of runs of one application interleave with each other,
  with controllers that write phases, specs and stages, with other creators and with garbage
  collection. Every call may fail; a call that returns an error has no effect; a lost
  compare-and-swap is retried any number of times or gives up.
- **Pipelines** (`StepGraph.dfy`, `PipelineSteps.dfy`, `PipelineTheorems.dfy`). The dependency
  graph with its depth-first cycle search and batching, the retry marking loop, and retry, skip and
  cancel on a stored pipeline, together with the workflow engine's step transitions and the
  validating webhook (`PipelineAdmission.dfy`).
- **Cluster board** (`ClusterPaging.dfy`, `ClusterWalk.dfy`, `ClusterReferences.dfy`). Sorting,
  the binary-search seek, the cursor, whole walks over a changing inventory, and the authorized
  reference counts.
- **Observability gateway** (`GatewayAdmission.dfy`, `GatewayHandler.dfy`,
  `EnvelopeInspection.dfy`). The four slot pools under concurrent requests, the handler with the
  requests nested in it, and the classifier that peeks at a body and gives it back.
- **Login callback** (`LoginCallback*.dfy`, `LoginOutcomes.dfy`). Handlers, server goroutine and login loop at the
  granularity of single mutex, channel and `sync.Once` operations. It is the loopback redirect of
  section 7.3 of RFC 8252 with the authorization response of section 4.1.2 of RFC 6749.
- **Smaller algorithms**: ignore-rule merging, trace timings, the bootstrap clock, the load
  generator's budget and weighted choice.

Sequential code that updates things is written as methods and classes proved against
specification functions; protocols are state machines with the set of runs made explicit
(`Reaches`, `Walk`, `Execution`), and the theorems quantify over all of them.

Hash functions, the JSON decoder, the decimal parser and the notion of white space are function
parameters. Clocks, random numbers, listed API objects and the outcome of remote calls are
parameters or nondeterministic choices.

## Where the code does not do what one might expect

- `SpecDanglesIff`: the Application's spec is pointed at a snapshot that does not exist yet, and a
  call that fails in between leaves it that way until a later apply. This can happen to every apply
  that gets past the checks with a free snapshot name, and to no other. The guarantees are about
  `status.releaseRef`.
- `SupersededCanReturn`: when the applies begin with a `releaseRef` whose release is missing, one
  apply can be about to supersede that name while another creates it afresh; the new release is
  then marked Superseded and installed afterwards. `DanglingRefIsSafeIff`: this can happen exactly
  when an apply can still generate the missing name, that is, when the name carries the second of
  the first apply under consideration or a later one. An older release that has been pruned is
  harmless (`PastNameIsNotGenerated`). Only the theorems about retired names need this; what is
  installed is intact in every run from every store.
- `RetryCanResetItsPrerequisite`: the retry does not look for repeated step names. With one the
  graph keeps the last entry while the retry marking sees all of them, and an accepted retry
  can reset the prerequisite it has just required to be Succeeded. `RetryKeepsDependenciesIff` says
  exactly when this happens. The validating webhook refuses repeated names on create and update, so
  the input needs webhooks to be switched off; for an admitted pipeline
  `AdmittedRetriesKeepPrerequisites` excludes it in every run.
- `SavedLoginCanReturnError`: once the configuration is saved the browser is told of success, but
  the command still returns an error when writing to the terminal fails.
- `CatalogChecksAgree`: the classifier and the standalone catalog check differ on a small catalog
  envelope that is declared to be longer than 4 KiB, and on nothing else. The HTTP server ends a
  body that is shorter than declared with an error, so such a request has to be built by hand.
- `CancelPipeline`: the status is stored before the Jobs are deleted, so a deletion that fails
  returns an error for a pipeline that is cancelled.
- `NoEmptyRuleSurvivesIff`, `DeduplicatedIff`: an addition to an unknown scope stores the request's
  pointers as they are, empty or repeated, although the comment at the merge promises a
  deduplicated list. The handler rejects empty lists.

## Model

| member | source | states |
|---|---|---|
| OwnerReferences.SameIdentityIff | internal/api/apply_bundle.go:785-795 | two references have the same identity exactly when kind and name agree and the API versions are equal or name the same group |
| OwnerReferences.SameIdentityIsEquivalence | internal/api/apply_bundle.go:785-795 | the identity test is reflexive, symmetric and transitive |
| OwnerReferences.AcceptableIff | internal/api/apply_bundle.go:768-781 | a Stage is acceptable exactly when at most one reference carries the controller flag, with the desired kind, name and group |
| OwnerReferences.PreflightOwner | internal/api/apply_bundle.go:764-781 | preflight accepts exactly the acceptable stages, and reports a foreign controller exactly when there is one |
| OwnerReferences.FindController | internal/api/apply_bundle.go:716-725 | refuses exactly the lists with two controllers and otherwise finds the only one |
| OwnerReferences.BuildReplacement | internal/api/apply_bundle.go:730-743 | the rebuilding loop computes the replacement list of the specification |
| OwnerReferences.Stage.RepairControllerOwner | internal/api/apply_bundle.go:712-750 | the in-place repair is the specified repair; an error leaves the stage alone |
| OwnerReferences.ReplacementPlace | internal/api/apply_bundle.go:730-744 | the desired reference takes the place of the first one of its identity, later duplicates go, and it comes last when there was none |
| OwnerReferences.RepairErrors | internal/api/apply_bundle.go:716-728 | two controller flags are reported first; otherwise a foreign controller is |
| OwnerReferences.RepairTheorem | internal/api/apply_bundle.go:712-750 | repair succeeds exactly when preflight accepts; the desired reference alone carries the controller flag, unrelated references and all of another kind or name keep value and order, a second repair reports no change |
| OwnerReferences.PreflightAgreesWithRepair | internal/api/apply_bundle.go:759-763 | preflight's reference without UID and flag decides like the full reference |
| InlineApplySafety.MoveKeeps | internal/api/apply_bundle.go:551-586 | a step that only moves a run keeps the invariant of all runs |
| InlineApplySafety.AppWriteKeeps | internal/api/apply_bundle.go:613-632 | writing the Application keeps every other run's copies, release and snapshot intact |
| InlineApplySafety.ReleaseWriteKeeps | internal/api/apply_bundle.go:551-560 | a status write or creation of a release keeps every other run's release, bundle hash and policy results |
| InlineApplySafety.CleanupKeeps | internal/api/apply_bundle.go:544-549 | deleting by name after a failure keeps the invariant |
| InlineApplySafety.SnapshotCreateKeeps | internal/api/apply_bundle.go:819-846 | creating the snapshot, or failing to, keeps the invariant |
| InlineApplySafety.RefWriteKeeps | internal/api/apply_bundle.go:568-587 | installing releaseRef keeps every run's release and snapshot and the copies in hand |
| InlineApplySafety.SupersedeWriteKeeps | internal/api/apply_bundle.go:471-489 | superseding keeps the invariant |
| InlineApplySafety.StageStepsKeep | internal/api/apply_bundle.go:640-699 | every step of putting the Stage in place keeps the invariant |
| InlineApplySafety.RunStepKeeps | internal/api/apply_bundle.go:491-596 | every call of a run, successful or not, keeps the invariant |
| InlineApplySafety.EnvironmentKeeps | internal/api/apply_bundle.go:551-586 | controllers, other creators and garbage collection keep the invariant |
| InlineApplyRetirement.SettledIsNotMine | internal/api/apply_bundle.go:526-576 | a name that has been releaseRef is never the name of a run that has yet to install |
| InlineApplyRetirement.InstallRetires | internal/api/apply_bundle.go:568-593 | installing names no superseded release and none about to be superseded |
| InlineApplyRetirement.SupersedeWriteRetires | internal/api/apply_bundle.go:471-489 | superseding retires a name that releaseRef has left for good |
| InlineApplyRetirement.RunStepRetires | internal/api/apply_bundle.go:491-596 | every call of a run, successful or not, keeps names retired |
| InlineApplyTheorems.ReachableInv | internal/api/apply_bundle.go:509-596 | the invariant holds after every interleaving, whatever releaseRef named before |
| InlineApplyTheorems.ReachableRetirement | internal/api/apply_bundle.go:526-593 | names stay retired in every interleaving, unless the first releaseRef is a missing name that an apply can still generate |
| InlineApplyTheorems.InstalledRefIsIntact | internal/api/apply_bundle.go:509-587 | every name a run has installed, the current releaseRef or an earlier one, belongs to a release that exists, is safe from every pending cleanup, and whose ConfigMap, named after it, exists, is owned by it and hashes to its SHA annotation |
| InlineApplyTheorems.RefIsFirstOrInstalled | internal/api/apply_bundle.go:568-587 | releaseRef is always its initial value or a name that some run has installed |
| InlineApplyTheorems.SupersededStaysRetired | internal/api/apply_bundle.go:568-593 | a release this path marked Superseded is not named by releaseRef then or later |
| InlineApplyTheorems.PhaseChangesAreSupersedes | internal/api/apply_bundle.go:456-489 | a run changes no phase except Complete, Failed, RolledBack or Superseded to Superseded, on the release it replaced |
| InlineApplyTheorems.CleanupDeletesOwnRelease | internal/api/apply_bundle.go:544-586 | the cleanup only deletes the release its own run created, never one that any run has installed |
| InlineApplyTheorems.CleanupSparesNamedAndRetired | internal/api/apply_bundle.go:544-586 | nor the release that releaseRef names, nor a superseded one |
| InlineApplyTheorems.AbortedRunIsNotInstalled | internal/api/apply_bundle.go:544-586 | releaseRef never names the release of a run that returned an error, and names an existing one unless it is still the initial value |
| InlineApplyTheorems.ContractIsRespected | internal/api/apply_bundle.go:615-632 | no run ever changes an application that has a promotion contract |
| InlineApplyCleanup.FailedCallStoresNothing | internal/api/apply_bundle.go:491-596 | a failed call stores nothing; it ends the apply, leads to the cleanup, or leaves a success as it is, by where it happens |
| InlineApplyCleanup.FailedApplyCleansUp | internal/api/apply_bundle.go:544-586 | a failure between creation and installation, followed by a delete that succeeds, leaves no release of the run and everything else unchanged |
| InlineApplyCleanup.LeftoverIffDeleteFailed | internal/api/apply_bundle.go:544-586 | in every interleaving an apply that returned an error has left a release behind exactly when its own delete failed |
| InlineApplyCleanup.LostSwapIsRetried | internal/api/apply_bundle.go:551-587 | a write that lost the race stores nothing and is read again |
| InlineApplyTheorems.RefChangesOnlyByInstall | internal/api/apply_bundle.go:568-587 | a run changes releaseRef only by installing its own name |
| InlineApplyTheorems.AppliedRunsWin | internal/api/apply_bundle.go:568-595 | after any success releaseRef always names an installed release with its policy results and snapshot |
| InlineApplyTheorems.SkippedApplyMatches | internal/api/apply_bundle.go:429-506 | a skipped apply returns an existing release whose hash, and whose stored manifests' hash, match the bundle |
| InlineApplyTheorems.StageIsNeverStolen | internal/api/apply_bundle.go:640-699 | no interleaving takes a Stage from another controller: whoever was in control has kind Application and the application's name, owners of any other kind or name and other labels survive |
| InlineApplyTheorems.LabelsAreMerged | internal/api/apply_bundle.go:909-917 | the five labels are set to application, release and project; every other label stays |
| InlineApplySpec.SpecDanglesIff | internal/api/apply_bundle.go:491-530 | one apply can end with the spec naming no ConfigMap exactly when it gets past the checks and its snapshot name is free |
| InlineApplyTheorems.ReleaseNamesCollide | internal/api/apply_bundle.go:919-923 | two generated names are equal exactly for the same application, short hash and second |
| InlineApplyTheorems.ReleaseNameReads | internal/api/apply_bundle.go:919-923 | a generated name is the application, "-release-", the short hash and a number that reads back as the second |
| Common.DecimalIsExact | internal/api/apply_bundle.go:922-922 | the printed second reads back as the second, in digits without leading zeros |
| InlineApplyDangling.OvertakenReturns | internal/api/apply_bundle.go:568-593 | one run supersedes a release by name and another installs it afterwards, when it had been missing before |
| InlineApplyDangling.SupersededCanReturn | internal/api/apply_bundle.go:526-593 | for every name an apply can still generate: a store where it dangles, and a run on a steady clock in which a release marked Superseded becomes the current one |
| InlineApplyDangling.DanglingRefIsSafeIff | internal/api/apply_bundle.go:526-593 | with a dangling releaseRef, superseded releases stay retired in every store and run exactly when no apply from the start second on can generate that name; the same for runs on a steady clock |
| InlineApplyDangling.PastNameIsNotGenerated | internal/api/apply_bundle.go:919-923 | the name of an apply before the start second is never generated again |
| InlineApplyAlone.UndisturbedApplySucceeds | internal/api/apply_bundle.go:509-596 | with no failures and no interference an apply stores and installs everything, supersedes an ended predecessor and changes nothing else |
| InlineApplyAlone.RepeatedApplyCreatesNothing | internal/api/apply_bundle.go:429-506 | applying the completed bundle again only puts the Stage in place |
| StepGraph.OrderExcludesCycle | internal/engine/workflow.go:75-105 | a complete dependency order rules out every cyclic walk |
| StepGraph.TrailCloses | internal/engine/workflow.go:85-92 | meeting a step of the current path again exhibits a cycle |
| StepGraph.GraphHoldsNames | internal/engine/workflow.go:33-46 | the graph holds exactly the listed step names |
| StepGraph.GraphHoldsLastEntry | internal/engine/workflow.go:33-46 | a repeated name has the dependencies of its last entry |
| StepGraph.CycleSearch.Visit | internal/engine/workflow.go:85-105 | a visit finishes the step after its dependencies, or there is a cycle |
| StepGraph.CycleSearch.VisitAll | internal/engine/workflow.go:75-83 | the search succeeds exactly on acyclic graphs, and then yields a complete order |
| StepGraph.KnownDependencies | internal/engine/workflow.go:64-73 | true exactly when every dependency is a step |
| StepGraph.ReadyBatch | internal/engine/workflow.go:110-122 | a batch is exactly the remaining steps with no remaining dependency, each once |
| StepGraph.SomeReady | internal/engine/workflow.go:123-125 | in an ordered graph some remaining step is ready, so batching is never stuck |
| StepGraph.BuildBatches | internal/engine/workflow.go:107-132 | the batches run every step once, after everything it depends on |
| StepGraph.ResolveDag | internal/engine/workflow.go:49-62 | each error exactly on its condition; otherwise a valid schedule |
| PipelineSteps.AffectedSteps | internal/api/pipeline_handler.go:165-178 | the marking loop ends and marks exactly the steps that reach the target |
| PipelineSteps.AffectedIgnoresOrder | internal/api/pipeline_handler.go:165-178 | the marking does not depend on how the steps are listed |
| PipelineSteps.ValidateRetryStep | internal/api/pipeline_handler.go:105-117 | accepts exactly a first status that is Failed or Skipped; NotFound exactly when there is none |
| PipelineSteps.ValidateDependencies | internal/api/pipeline_handler.go:146-163 | accepts exactly when the step exists and its dependencies' last phases are Succeeded |
| PipelineSteps.Pipeline.ResetAffected | internal/api/pipeline_handler.go:133-143 | records of steps reaching the target are fresh, all others untouched, the phase is Running under a new execution time and identifier |
| PipelineSteps.RetryIdsDiffer | internal/api/pipeline_handler.go:142-142 | two retries have the same execution identifier exactly when they happen in the same nanosecond |
| PipelineSteps.RetryIdReads | internal/api/pipeline_handler.go:142-142 | the execution identifier is "retry-" and a number that reads back as the time |
| PipelineSteps.Pipeline.RetryStep | internal/api/pipeline_handler.go:66-93 | accepted exactly under the listed conditions; a refusal changes nothing |
| PipelineSteps.Pipeline.SkipStep | internal/api/pipeline_handler.go:190-208 | skips exactly a first Pending record; a refusal changes nothing |
| PipelineSteps.Pipeline.CancelPipeline | internal/api/pipeline_handler.go:227-254 | refused, without effect, exactly for Succeeded, Failed and Cancelled pipelines; any other is cancelled with exactly its running steps, also when deleting its Jobs then fails |
| PipelineTheorems.RetryKeepsDependenciesIff | internal/api/pipeline_handler.go:129-163 | after an accepted retry the prerequisites are still Succeeded exactly when none reaches the target |
| PipelineTheorems.RetryResetsDescendantsOnly | internal/api/pipeline_handler.go:126-144 | with unique names: target fresh and Pending, prerequisites Succeeded, other records untouched |
| PipelineTheorems.RetryCanResetItsPrerequisite | internal/api/pipeline_handler.go:99-101 | a pipeline with a repeated step name, as only a cluster without the webhook holds, that is accepted and loses its prerequisite |
| PipelineAdmission.ValidatePipeline | internal/webhook/pipelines/v1alpha1/pipeline_webhook.go:73-107 | reports exactly the faults: no steps, and per step a missing or repeated name, a missing image or script |
| PipelineAdmission.AdmittedIffProper | internal/webhook/pipelines/v1alpha1/pipeline_webhook.go:73-107 | nothing is reported exactly when there are steps, with distinct non-empty names, images and scripts |
| PipelineAdmission.AdmittedRetriesKeepPrerequisites | internal/api/pipeline_handler.go:126-144 | in every run of an admitted pipeline, every accepted retry leaves its target Pending, its prerequisites Succeeded and the records outside its descendants untouched |
| PipelineAdmission.DuplicateStepIsRefused | internal/webhook/pipelines/v1alpha1/pipeline_webhook.go:86-88 | the webhook refuses the pipeline of RetryCanResetItsPrerequisite |
| PipelineTheorems.TransitionKeeps | internal/api/pipeline_handler.go:95-254 | every action keeps the run invariants and the phase of Cancelled and Succeeded pipelines |
| PipelineTheorems.RunsKeepPromises | internal/api/pipeline_handler.go:95-254 | over every run: succeeded and running steps rest on succeeded dependencies, cancelled pipelines have no running step, Cancelled and Succeeded never change |
| PipelineTheorems.FailedLeavesByRetry | internal/api/pipeline_handler.go:95-103 | over every run a Failed pipeline stays Failed until a retry is accepted, which makes it Running |
| ClusterPaging.LessIsDictionaryOrder | internal/api/cluster_list.go:416-421 | the string order is dictionary order: a proper prefix first, otherwise the first difference decides |
| ClusterPaging.BeforeIsNamespaceThenName | internal/api/cluster_list.go:408-422 | the seek comparison orders by namespace, and by name within a namespace |
| ClusterPaging.BeforeIsStrictOrder | internal/api/cluster_list.go:408-422 | it is a strict total order on identities |
| ClusterPaging.SortIsSortedPermutation | internal/api/cluster_list.go:82-87 | sorting gives a strictly increasing permutation |
| ClusterPaging.SortIsUnique | internal/api/cluster_list.go:82-87 | any sort of distinct identities gives the same list |
| ClusterPaging.ListAuthorizedClusters | internal/api/cluster_list.go:74-89 | ordered by namespace, then name, and exactly the listed clusters that are referenced or asked for unreferenced |
| ClusterPaging.SeekIsMonotone | internal/api/cluster_list.go:391-393 | the seek predicate is monotone on the sorted list |
| ClusterPaging.Search | internal/api/cluster_list.go:391-393 | the binary search stops where a linear scan would |
| ClusterPaging.PageClusters | internal/api/cluster_list.go:383-402 | the page and cursor of the specification, with the binary search in place of the scan; never more than the page size, and exactly that many when there is a next page |
| ClusterPaging.CursorRoundTrip | internal/api/cluster_list.go:390-406 | cutting a printed cursor gives the identity back exactly for slash-free namespaces |
| ClusterPaging.JoinedOrderDisagrees | internal/api/cluster_list.go:411-415 | joined-string order contradicts the sort on the documented example |
| ClusterWalk.PageStep | internal/api/cluster_list.go:376-402 | a page extends what was served in order; every listed cluster is behind, on the page or ahead |
| ClusterWalk.ServedStrictlyIncreases | internal/api/cluster_list.go:376-402 | identities served over any walk strictly increase, whatever the inventory does |
| ClusterWalk.PresentIsServedOnce | internal/api/cluster_list.go:376-402 | a cluster present throughout is served exactly once by the time the cursor is empty |
| ClusterWalk.FixedInventoryIsServedWhole | internal/api/cluster_list.go:376-402 | on a fixed inventory the pages concatenate to the list and the walk ends |
| ClusterReferences.CountCluster | internal/api/cluster_list.go:105-120 | the two inner loops count the authorized posted applications and their matching slots |
| ClusterReferences.AuthorizedClusterReferences | internal/api/cluster_list.go:99-127 | the computed map is the specified one, in whatever order the postings are walked |
| ClusterReferences.CountsMatchApplications | internal/api/cluster_list.go:92-127 | when the index agrees with the targets, the counts are those over the applications of the caller's projects |
| ClusterReferences.HiddenApplicationsLeaveNoTrace | internal/api/cluster_list.go:38-45 | snapshots that differ in applications outside the caller's projects and their postings give equal counts and equal pages, whether or not the index agrees with the targets |
| ClusterReferences.AgreeingIndexesLookAlike | internal/api/cluster_list.go:92-98 | two agreeing indexes over the same authorized applications post these alike |
| GatewayHandler.SlotPool.AdmitRequest | cmd/main_observability_admission.go:133-143 | takes a slot when one is free, never waits, never exceeds the capacity |
| GatewayHandler.Limiter.ServeHTTP | cmd/main_observability_gateway.go:229-267 | every way through the handler, with whatever requests it sends back to the gateway, leaves each of the four pools as it found it; the answer is a function of the occupancy at entry |
| GatewayHandler.LessBusyAnswersMore | cmd/main_observability_gateway.go:229-267 | a less busy gateway answers at least as much, at every depth of nesting |
| GatewayHandler.LayeredNestingIsAnswered | cmd/main_observability_gateway.go:232-237 | one free slot per layer answers a whole tree of dashboard, data and discovery requests |
| GatewayHandler.SameClassNestingCompetes | cmd/main_observability_gateway.go:232-234 | a request nested in one of its own class is refused when its parent took the last slot, which separate pools avoid |
| GatewayHandler.OrchestrationLeavesDataSlots | internal/observabilitygateway/insights_query.go:35-40 | an answered dashboard query holds no data slot: the data requests it sends are answered as if it held only its intake slot |
| GatewayAdmission.NextKeeps | cmd/main_observability_gateway.go:238-266 | every event keeps the occupancy and marker invariant |
| GatewayAdmission.OccupancyIsExact | cmd/main_observability_gateway.go:229-267 | occupancy equals the number of holders, within 8/4/4/2; pools are disjoint and inside intake |
| GatewayAdmission.ReleaseNeverBlocks | cmd/main_observability_gateway.go:246-260 | a deferred release always finds its slot |
| GatewayAdmission.NobodyWaits | cmd/main_observability_gateway.go:238-266 | every unfinished request can take its next step without any other, and gets closer to the end |
| GatewayAdmission.PoolsDrain | cmd/main_observability_gateway.go:238-266 | when all requests have finished, all pools are empty |
| GatewayAdmission.MarkerMeansDashboardSlot | cmd/main_observability_gateway.go:261-265 | the dashboard marker is true exactly for holders of a dashboard slot, who hold no other work slot |
| GatewayAdmission.RefusedOnlyByOwnKind | cmd/main_observability_gateway.go:232-259 | a refusal with 429 means that intake holds eight requests, or one's own pool is full, with four or two, of one's own kind |
| EnvelopeInspection.ReadAllLimited | cmd/main_observability_admission.go:80-80 | reads a prefix of the upload, in chunks of any size, and reports an error exactly when it met it |
| EnvelopeInspection.ReadEnvelope | cmd/main_observability_admission.go:78-92 | the restored body yields exactly the original bytes and end; complete exactly within the limit and without error |
| EnvelopeInspection.RestoredBody.Read | cmd/main_observability_admission.go:87-107 | reading the restored body consumes its stream from the front and repeats the stored error |
| EnvelopeInspection.Drain | cmd/main_observability_admission.go:87-107 | reading it to the end gives the whole original stream |
| EnvelopeInspection.HttpRequest.Classify | cmd/main_observability_admission.go:54-72 | the specified class, and the next handler reads the same stream as before |
| EnvelopeInspection.HttpRequest.CheckCatalog | cmd/main_observability_admission.go:40-49 | the specified answer, and the next handler reads the same stream as before |
| EnvelopeInspection.CatalogEnvelopeIff | cmd/main_observability_admission.go:109-131 | over the decoded members: version 2.0 and one of four methods, or a call of the provider list |
| EnvelopeInspection.DashboardEnvelopeIff | cmd/main_observability_admission.go:94-103 | over the decoded members: version 2.0 and a call of the dashboard query |
| EnvelopeInspection.ClassIff | cmd/main_observability_admission.go:54-76 | catalog and dashboard requests by path, method, declared length, limits and envelope; all others are work |
| EnvelopeInspection.CatalogChecksAgree | cmd/main_observability_admission.go:40-72 | the two checks agree exactly unless a small catalog envelope is overdeclared; never for an unknown or true length |
| EnvelopeInspection.OverdeclaredRequestDiffers | cmd/main_observability_admission.go:44-61 | every small catalog envelope yields a request on which they differ |
| EnvelopeInspection.DashboardAndCatalogDisjoint | cmd/main_observability_admission.go:94-131 | the two envelope kinds never overlap; dashboards are exactly the complete dashboard envelopes |
| LoginCallbackSafety.HandlerKeeps | cmd/paprika/login_callback.go:85-133 | every step of a handler keeps the invariant |
| LoginCallbackSafety.ServerKeeps | cmd/paprika/login_callback.go:76-81 | every step of the server goroutine keeps the invariant |
| LoginCallbackSafety.LoginKeeps | cmd/paprika/login.go:168-266 | every step of the login loop, of its reports to the terminal and of the deferred shutdown keeps the invariant |
| LoginCallbackTheorems.OneMessageWithoutBlocking | cmd/paprika/login_callback.go:100-166 | at most one event or failure is ever sent, and neither send waits |
| LoginCallbackTheorems.SuccessMeansSaved | cmd/paprika/login_callback.go:119-133 | a request is answered with success exactly when it was the accepted one and the configuration was saved |
| LoginCallbackTheorems.AnswersAreExact | cmd/paprika/login_callback.go:85-133 | 404, 405, 400, 409 and 200 each exactly for its kind of request, in every interleaving |
| LoginCallbackTheorems.ReturnsSuccessIff | cmd/paprika/login.go:232-251 | the command returns success exactly when the configuration was saved and no write to the terminal failed; a saved login with a failed write returns an error |
| LoginOutcomes.OutcomeIsDecidedByTurn | cmd/paprika/login.go:199-266 | over every run: timed out, cancelled, server stopped, authentication failed, save failed and saved, each exactly when the one deciding turn of the loop was of that kind |
| LoginOutcomes.OutcomeHasItsCause | cmd/paprika/login.go:200-236 | a stopped server had claimed the callback; a refused callback carried an error or no code; a save needs one with a code |
| LoginOutcomes.SavedOutcomeIff | cmd/paprika/login.go:232-251 | of the saved logins, success exactly when no write to the terminal failed in the run |
| LoginOutcomes.BrowserIsAwaitedIff | cmd/paprika/login.go:168-198 | the result of opening the browser is awaited exactly when something other than the timer or a cancelled wait decided the login |
| LoginCallbackTheorems.SavedLoginCanReturnError | cmd/paprika/login.go:232-251 | every acceptable callback has a run that saves, tells the browser so, and returns an error |
| LoginCallbackTheorems.LoginNeedsExpectedState | cmd/paprika/login_callback.go:86-115 | saving needs a GET of the callback path with the expected state and a code |
| LoginCallbackTheorems.WaitersAreReleased | cmd/paprika/login_callback.go:147-178 | once the loop has returned every waiting handler can go on, with a result that no longer changes |
| LoginCallbackTheorems.SomebodyCanMove | cmd/paprika/login_callback.go:85-178 | no deadlock: until all have finished somebody can move |
| LoginCallbackTheorems.RunsAreBounded | cmd/paprika/login.go:199-266 | without new requests every run ends within a known number of steps |
| IgnoreRules.RemoveStrings | internal/api/detail_handler.go:334-346 | the in-place compaction is the order-preserving filter and leaves the tail as it was |
| IgnoreRules.AppendUnique | internal/api/detail_handler.go:320-332 | appends exactly the values not there yet |
| IgnoreRules.MergeIgnoreDiffRule | internal/api/detail_handler.go:291-318 | the loop computes the specified merge |
| IgnoreRules.MergeIsSetAlgebra | internal/api/detail_handler.go:288-318 | per scope, adding is union and removing is difference over all its rules |
| IgnoreRules.OtherScopesUntouched | internal/api/detail_handler.go:291-318 | non-empty rules of other scopes keep content and order |
| IgnoreRules.MergeRecords | internal/api/detail_handler.go:298-316 | after an addition the scope's rules name the request's author, reason and time; a removal keeps the record |
| IgnoreRules.NoEmptyRuleSurvivesIff | internal/api/detail_handler.go:307-316 | no empty rule survives, except when nothing is added to an unknown scope |
| IgnoreRules.DeduplicatedIff | internal/api/detail_handler.go:288-332 | lists stay free of repeats, except through a new rule that starts with repeats |
| IgnoreRules.MergeIsIdempotent | internal/api/detail_handler.go:291-318 | repeating a request, with any author, reason and time, leaves what the repetition alone would have left |
| TraceTiming.ShapedIsContained | demo/insights-gallery/trace_patterns.py:19-31 | for every pattern whose database span ends a unit before its catalog span, and every duration with a nanosecond per unit, all spans lie in their parents exactly when the duration is not negative |
| TraceTiming.NoSlackBreaks | demo/insights-gallery/trace_patterns.py:28-29 | a pattern without that unit which separate rounding breaks |
| TraceTiming.CoarseDurationBreaks | demo/insights-gallery/trace_patterns.py:28-29 | a well-shaped pattern which a duration with fewer nanoseconds than units breaks |
| TraceTiming.PatternsTakeTurns | demo/insights-gallery/trace_patterns.py:9-26 | the samples go through the six rows in turn |
| TraceTiming.SpansAreProportional | demo/insights-gallery/trace_patterns.py:27-31 | every offset and length is its share of the duration, rounded down |
| TraceTiming.SpansAreContained | demo/insights-gallery/trace_patterns.py:9-31 | every span lies in its parent, for every sample, exactly when the duration is not negative |
| SampleClock.Clock.Next | demo/insights-gallery/sample_clock.py:13-21 | the in-place step is the specified one; an error changes nothing |
| SampleClock.NeverFails | demo/insights-gallery/sample_clock.py:16-18 | the error branch is unreachable on a non-decreasing clock that starts after the backfill |
| SampleClock.BootstrapStampsAdvance | demo/insights-gallery/sample_clock.py:13-21 | bootstrap stamps strictly increase by at most a minute and never pass the present |
| SampleClock.CatchesUpInTime | demo/insights-gallery/sample_clock.py:1-5 | complete after ceil(gap / (60 - d)) scrapes when the clock advances at most d per scrape |
| LoadGenerator.BudgetIsExact | hack/obsloadgen/main.go:254-264 | in every interleaving grants equal the counter and stay within the limit; refusals mean it is spent; lost swaps are paid for by others' grants |
| LoadGenerator.ParseMix | hack/obsloadgen/main.go:398-428 | accepted exactly when all entries read as supported, distinct, positive weights within the total |
| LoadGenerator.ParseEntry | hack/obsloadgen/main.go:403-423 | each error exactly on its condition, in the order of the checks |
| LoadGenerator.SplitJoins | hack/obsloadgen/main.go:402-402 | the parts are what lies between the commas |
| LoadGenerator.SplitOfJoined | hack/obsloadgen/main.go:402-402 | splitting undoes joining |
| LoadGenerator.TrimIsExact | hack/obsloadgen/main.go:403-407 | trimming takes all white space off both ends and nothing else |
| LoadGenerator.EntryIff | hack/obsloadgen/main.go:403-422 | an entry is a name and a positive number around a colon |
| LoadGenerator.GoodMixIff | hack/obsloadgen/main.go:398-428 | an accepted mix holds distinct supported tools of positive weight, a million in total at most |
| LoadGenerator.EachToolGetsItsWeight | hack/obsloadgen/main.go:382-396 | exactly weight(t) of the roll values select tool t |
| LoadGenerator.FallbackUnreachable | hack/obsloadgen/main.go:389-395 | every roll below the total is decided in the loop |
| LoadGenerator.PickTool | hack/obsloadgen/main.go:383-396 | the running subtraction picks the tool whose interval holds the roll |

## Left out

- The application controller's own `releaseRef` writes, its history pruning, and the deletion of applications or releases by anyone but a run's own cleanup: the inline-apply theorems are about stores where nobody else deletes a release or writes `releaseRef`.
- Policy evaluation, bundle preparation, namespace creation and dry runs of ApplyBundle: they come before the write sequence.
- Server-side effects of a call that returned an error: modelled as none.
- The engine's job handling and the controller loop around it: the engine appears as step transitions that happen only while the pipeline is Running.
- EnvelopeInspection: closing the body is not modelled, only what can be read from it.
- IgnoreRules.MergeIgnoreDiffRule: works on values, so it does not show that removal also compacts the caller's slice; `RemoveStrings` alone is modelled in place.
- ClusterPaging.ListAuthorizedClusters: the library sort is an insertion sort on a sequence; `SortIsUnique` makes the choice irrelevant.
- ClusterReferences: counters are unbounded numbers instead of 64-bit ones.
- SampleClock: times are real numbers, so floating-point rounding is not modelled.
- Browser launching, token exchange, token parsing and terminal writes of the login: their outcomes are nondeterministic. The deferred wait for a late browser result after the loop is not modelled.
- GatewayHandler.Limiter.ServeHTTP: one goroutine at a time; interleavings of goroutines are the subject of GatewayAdmission.
- Status updates of a pipeline that fail: they store nothing and are not modelled.
- Capacity messages, enum conversions, fleet queries, stub handlers and user interfaces: case tables or input and output only.
