# Verification of the environment manager's core

This project models the parts of the environment manager where several steps,
threads or components have to agree, and proves properties of them in Dafny.
`dafny verify dfyconfig.toml` checks all of it.

| file | what it models |
|---|---|
| `OperationExclusion.dfy` | the protocol that keeps pipeline runs, step runs and update jobs apart, as a transition system over request handlers, workers and done-callbacks |
| `UpdateJobs.dfy` | the update job manager: a machine over all jobs, and the two classes that refine it |
| `LineStreamer.dfy` | reading a child's two pipes with two reader threads, one queue and a deadline; pip's retry loop |
| `Resolver.dfy` | vetting upgrade candidates: reverse dependencies, constraint-preserving dry-runs, safe and blocked |
| `UpgradePlan.dfy` | the plan of a project: duplicates, the torch family and the CUDA index |
| `UpgradeApply.dfy` | applying a plan: pinned installs, pip check, snapshot and rollback, the status of a run |
| `Versions.dfy` | PEP 440 order and specifiers, and the floor taken from a specifier set |
| `Requirements.dfy` | requirement manifests: parser, index, drift guard, sanitising, guarded sync |
| `NpmManifest.dfy` | package.json: floors, drift guard, merge, guarded sync, parity check |
| `ManifestRepin.dfy` | re-pinning a manifest from a venv |
| `Pipeline.dfy` | the orchestrator's state over full runs and single steps |
| `Changelog.dfy` | hiding changelog sections of a README from the scanners |
| `ProjectList.dfy` | grouping nearby folder mentions |
| `SecretsVault.dfy` | the write-only secrets vault |
| `Text.dfy` | string operations |

## How it is modelled

- Objects that change in place are classes (`UpdateJobManager`,
  `PipelineOrchestrator`, `SecretsVault`, `Verdicts`, `Pip`, `Host`, the
  project directories of the syncs); loops that fill lists or dicts are
  methods with loops. Each such method is tied to a specification function or
  to a history, and the theorems are about that.
- Threads are interleavings of atomic steps: `Legal` runs of a transition
  system, with a theorem for every run.
- pip is nondeterministic. In `Resolver.dfy` the n-th dry-run is answered by
  `answers(n)`, an arbitrary function. In `UpgradeApply.dfy` a successful
  install leaves any environment in which the pins hold, a failed one leaves
  any environment at all, `pip check` passes only on a consistent environment
  (and may fail for any reason), a freeze shows the `listed` names, and a
  successful restore rewrites exactly those. Every entry of the history records
  the project's environment right after it, and `Follows` says how each entry
  may move it.
- The `packaging` library is the parameter `Packaging` of the resolver and
  `Grammar` of the manifest code; the JSON codec is the parameter `Codec`,
  which has to round-trip the manifests made of values it has parsed.
  PEP 440 versions and specifiers (sections "Version specifiers", "Version
  matching", "Compatible release") are modelled in full in `Versions.dfy`, the
  name normalisation of PEP 503 (section "Normalized Names") in
  `Requirements.dfy`.

## Where the obvious claim is false

These are proved as exact conditions or concrete counterexamples.

- A run is released twice, by its generator and by its worker. Exclusion holds
  exactly unless a worker's release comes while another run already holds the
  claim (`ExclusiveExactly`); `LateReleaseBreaksExclusion` reaches two running
  pipelines.
- An idle manager shows a terminal status exactly unless the executor refused
  the job, which then says `running` for good (`IdleManagerShowsResult`,
  `RejectedJobSaysRunning`).
- The streaming deadline is no hard bound (`LateLineIsStillYielded`): past it
  the stream goes on exactly as long as lines are queued, so at most for what
  is queued and what the readers still put (`DeadlineStopsUnlessFed`).
- `==x.*` admits pre-releases of `x`, below the floor `x`
  (`WildcardFloorExact`, `FloorSound`).
- Sanitising changes the meaning of a few lines (`SteadyExactly`). Which whole
  files keep their index is exact (`SanitiseKeepsIndexExactly`); so is when a
  sync is a fixed point (`SyncIsFixedPointExactly`) and which central manifests
  can never take a key away or lower a floor (`SyncsNeverTakeAwayExactly`). A
  manifest outside that class takes something away from its own copy although
  the guard sees no drift (`UnreadableManifest` is one).
- Re-pinning from a venv bypasses the guard: it takes nothing away exactly if
  every line it changes is harmless (`RepinKeepsExactly`), and it lowers
  exactly the keys pinned below their floor (`RepinLowersExactly`, with an
  input in `RepinLowersOldPin`).
- The twin of a co-dependent package does not count as a requirer even if it is
  blocked itself; `SafeUpgradesBreakExactly` and, for a whole plan,
  `PlannedUpgradesBreakExactly` say when a requirement breaks, and
  `BlockedTwinIsBroken` shows one breaking.
- With torchvision but not torch installed on a GPU host, a version resolved on
  the package index is pinned from the CUDA index
  (`PackageIndexVersionReachesCudaIndex`; `CudaPinsAreResolvedExactly` is the
  exact condition).
- A rollback keeps what the failed install added: the environment is what it was
  at the snapshot exactly if the install left everything else alone
  (`RollbackIsExact`).
- A clean run over any Python project ends as `partial`, because `verified`
  events count as failures (last clause of `RunSafeUpdate`).

## Model

| member | source | states |
|---|---|---|
| `OperationExclusion.UpdateJobsAlwaysExclusive` | env_manager/update_jobs.py:132-147 | in every interleaving at most one update job is live and `_busy` tells exactly whether one is |
| `OperationExclusion.ExclusiveExactly` | env_manager/api/routes_pipeline.py:59-81 | a run of the protocol has one operation at a time and truthful flags throughout if and only if no worker's release comes while another run holds the claim |
| `OperationExclusion.WaitingClaimsKeepExclusion` | env_manager/api/routes_pipeline.py:101-115 | if no claim succeeds between a run's two releases, exclusion holds in every interleaving |
| `OperationExclusion.UpdateRefusesExactly` | env_manager/api/routes_pipeline.py:74-75 | in every interleaving a run request is refused for an update, and an update request for another one, exactly if an update job is under way |
| `OperationExclusion.RunRefusesExactly` | env_manager/api/routes_pipeline.py:170-175 | without a late release a run request is refused for another run, and an update request for a run, exactly if a run is under way |
| `OperationExclusion.RunUpdate` | env_manager/api/routes_pipeline.py:169-180 | from any idle state an update request becomes an executing job, which frees everything when it ends |
| `OperationExclusion.LateReleaseBreaksExclusion` | env_manager/orchestrator.py:110-112 | a reachable interleaving with two executing runs after a late second release |
| `OperationExclusion.ExclusiveStep` | env_manager/orchestrator.py:44-59 | every step of handlers, workers and callbacks except a stray release keeps exclusion, both flags and the lock exact |
| `OperationExclusion.JobsStep` | env_manager/api/routes_pipeline.py:170-180 | every step whatsoever keeps the update job exclusive and the operation lock held by one thread |
| `UpdateJobs.IdleManagerShowsResult` | env_manager/update_jobs.py:165-195 | only the newest job can be live, and while idle it shows a terminal status and a finish time exactly unless the executor refused it |
| `UpdateJobs.RejectedJobSaysRunning` | env_manager/update_jobs.py:140-147 | a legal run that ends idle with a job that says `running` for good |
| `UpdateJobs.ClosedJobHistory` | env_manager/update_jobs.py:149-191 | what a closed job published is one start message, its recorded events in order and the terminal message of its status: an error for failed, a warning for partial, a success for the other two |
| `UpdateJobs.OutcomeIsShown` | env_manager/update_jobs.py:165-181 | in every interleaving, once a runner has ended its job shows exactly that outcome: a returned status as it is and no error, an exception as `failed` with its error |
| `UpdateJobs.OutcomeIsAnnounced` | env_manager/update_jobs.py:182-191 | a closed job whose publishes all went through has announced that outcome last |
| `UpdateJobs.EventsAreRecorded` | env_manager/update_jobs.py:158-161 | a job has recorded exactly what its runner emitted, in order |
| `UpdateJobs.JobsWereStarted` | env_manager/update_jobs.py:132-137 | every job carries the id and the project of a start in the run |
| `UpdateJobs.FinishedJobsAreFrozen` | env_manager/update_jobs.py:46-56 | no later action changes a job that is over |
| `UpdateJobs.StartRefusedExactlyWhileLive` | env_manager/update_jobs.py:132-138 | in every interleaving a start is refused if and only if some job is live, which can only be the newest, and a refusal changes nothing |
| `UpdateJobs.InvAlways` | env_manager/update_jobs.py:121-195 | the invariant of all jobs and the flag over every legal sequence of actions |
| `UpdateJobs.UpdateJobManager.Start` | env_manager/update_jobs.py:121-147 | the object's start refines the machine's start and submit, with an executor that accepts or refuses; the new job has the given id and project and says `running` |
| `UpdateJobs.UpdateJobManager.Run` | env_manager/update_jobs.py:149-163 | the worker body performs exactly the start message, the runner's events in order and the end |
| `UpdateJobs.UpdateJobManager.EmitEvent` | env_manager/update_jobs.py:158-161 | an event is recorded, then published |
| `UpdateJobs.UpdateJobManager.Finish` | env_manager/update_jobs.py:165-191 | the callback records the runner's status, or `failed` and the error, announces it with the message of that status and frees the flag, whether or not publishing works |
| `LineStreamer.InvAlways` | env_manager/utils.py:119-135 | for every scheduling, what each reader has put is exactly its lines so far and its end mark, split between taken and queued |
| `LineStreamer.NormalEndIsComplete` | env_manager/utils.py:194-208 | a normal end has yielded each stream's lines exactly once and in order, consumed one end mark per stream and left the queue empty |
| `LineStreamer.TimeoutLosesNothingQueued` | env_manager/utils.py:195-201 | a timeout comes only past the deadline, with a stream still open and every line put so far already yielded |
| `LineStreamer.LateLineIsStillYielded` | env_manager/utils.py:197 | a concrete run in which, however long past the deadline, a queued line is still yielded and no timeout is raised |
| `LineStreamer.DeadlineStopsUnlessFed` | env_manager/utils.py:194-203 | from any reachable state past the deadline the consumer takes at most what is queued and what the readers still put, and it can end the stream if and only if it has taken all of that or no stream is open |
| `LineStreamer.DrainsPastDeadline` | env_manager/utils.py:194-203 | past the deadline, with readers silent, the stream can be ended after at most as many reads as items are queued |
| `LineStreamer.QueueBalance` | env_manager/utils.py:119-135 | between any two reachable states, what was queued and put is what was taken and is queued |
| `LineStreamer.ReaderChoice` | env_manager/utils.py:119-135 | in every reachable state a reader that has not ended can do exactly one thing, whatever the clock: put its next line, or its end mark if there is none |
| `LineStreamer.CapturedTextIsPerStream` | env_manager/utils.py:242-251 | two runs that agree on one stream capture the same text of it, whatever the other stream and the scheduling, and it cuts into that stream's lines |
| `LineStreamer.StreamCommand` | env_manager/utils.py:229-251 | cutting the captured stdout and stderr at their newlines gives the lines of their own stream, each less exactly its line end characters; the live lines are the non-blank ones, trimmed |
| `LineStreamer.SplitOfJoin` | env_manager/utils.py:248-251 | cutting joined lines at newlines gives them back |
| `LineStreamer.JoinOfSplit` | env_manager/utils.py:248-251 | joining what was cut gives the text back |
| `LineStreamer.LiveExactly` | env_manager/utils.py:244-246 | each further line adds itself, trimmed, to the live lines exactly if it is not blank |
| `LineStreamer.StreamPipWithRecovery` | env_manager/utils.py:293-337 | pip is retried exactly while a launched attempt fails with a corruption signature and attempts remain, with one purge per retry |
| `Resolver.GetReverseDependencies` | env_manager/resolver/reverse_deps.py:27-37 | the index lists, for every dependency, exactly the active requirements on it in inspection order |
| `Resolver.RequirersExactly` | env_manager/resolver/models.py:48-66 | a package is a requirer of a dependency if and only if one of its own parsable, non-extra, applying requirements says so |
| `Resolver.SameKeyExactly` | env_manager/resolver/models.py:28-30 | two names have one key exactly if they differ only in letter case and in the separators they use |
| `Resolver.PublicExactly` | env_manager/resolver/reverse_deps.py:48-50 | a version is its public part, which has no `+`, or that and a `+` and a local label |
| `Resolver.FirstViolation` | env_manager/resolver/reverse_deps.py:54-66 | nothing is reported exactly if no requirement that counts is violated, and what is reported is one |
| `Resolver.CheckReverseDeps` | env_manager/resolver/reverse_deps.py:40-66 | the loop returns the first violated requirement that counts, or that the version does not parse |
| `Resolver.WouldInstallFromReport` | env_manager/resolver/dry_run.py:41-49 | the loop over the report computes the specified map |
| `Resolver.InstallsExactly` | env_manager/resolver/dry_run.py:43-48 | a key is installed at a version if and only if its last item with a name and a version says so |
| `Resolver.AttemptChanges` | env_manager/resolver/dry_run.py:41-61 | a run changes a key exactly if the last usable item of its report for it is not what is installed, and fails exactly without a report or a known state |
| `Resolver.InstalledVersions` | env_manager/resolver/pip_json.py:104-113 | the installed state has normalized names only |
| `Resolver.Pip.ConstraintPreservingDryRun` | env_manager/resolver/dry_run.py:105-164 | an unknown or empty installed state never reaches pip; every call pins everything installed but the targets; the result is what the report changes |
| `Resolver.ConstraintFrame` | env_manager/resolver/dry_run.py:121-126 | no installed package outside the targets is reported as changed if and only if no pinned package is reported at another version, so certainly if pip honours the constraints |
| `Resolver.ReverseDepSurvivors` | env_manager/resolver/classify.py:47-70 | the survivors are the candidates without a violated requirement, in order, and the others are blocked with the first one |
| `Resolver.VetNormal` | env_manager/resolver/classify.py:78-107 | safe are the survivors the batch run changes, or after a failed batch those their own run changes; all others are blocked |
| `Resolver.VetTorch` | env_manager/resolver/classify.py:110-131 | a CUDA wheel is safe exactly if no requirement outside the torch family forbids it and its dry-run changes it; otherwise the reason says why |
| `Resolver.SplitIsExact` | env_manager/resolver/classify.py:87-107 | passing and blocking by verdict loses and doubles nothing |
| `Resolver.TallyIsExact` | env_manager/resolver/classify.py:155-162 | safe plus blocked is a permutation of the candidates on the batch, fallback and torch paths |
| `Resolver.TallyIsProven` | env_manager/resolver/classify.py:155-162 | every safe package is allowed by the requirements that count and changed by a successful dry-run it was a target of |
| `Resolver.Classify` | env_manager/resolver/classify.py:134-162 | the method computes the specified classification and makes exactly its calls; it is an exact partition on every exit, nothing is safe when the venv or its state cannot be read, and every safe package is proven by dry-runs of this call |
| `Resolver.ClassifiedIsVetted` | env_manager/resolver/classify.py:134-162 | the classification as a function of the inventory, the candidates and the dry-run answers is an exact partition whose safe part is proven |
| `Resolver.AllowedExactly` | env_manager/resolver/reverse_deps.py:40-66 | the requirements allow a candidate exactly if its version parses and no edge forbids it whose requirer is neither the candidate itself nor excused |
| `Resolver.ForbiddenIsNeverSafe` | env_manager/resolver/classify.py:55-70 | a candidate that the requirements do not allow is never safe |
| `Resolver.SafeExactly` | env_manager/resolver/classify.py:78-107 | a candidate that is no CUDA wheel is safe exactly if the requirements allow it and the report that decides it, of the batch or its own, changes it |
| `Resolver.WheelIsSafeExactly` | env_manager/resolver/classify.py:110-131 | a CUDA wheel passes exactly if the requirements allow it and its own report changes it |
| `Resolver.BlockedSaysWhy` | env_manager/resolver/classify.py:65-107 | the reason of a blocked candidate is so: its version does not parse, the named requirer counts and forbids it, or it was allowed and the dry-runs left it alone or failed |
| `Resolver.WheelSaysWhy` | env_manager/resolver/classify.py:118-131 | so is the reason of a blocked CUDA wheel |
| `Resolver.UnreadableSaysWhy` | env_manager/resolver/classify.py:140-153 | without a readable venv every candidate is blocked, in order, for the part that is missing |
| `Resolver.CallsExactly` | env_manager/resolver/classify.py:84-122 | the first call asks for all survivors at once, every other one for one survivor on the package index plus the CUDA one or for one CUDA wheel on the CUDA index alone; each pins exactly the rest of what is installed |
| `Resolver.SafeUpgradesBreakExactly` | env_manager/resolver/classify.py:55-65 | from a consistent environment, setting the packages a classification calls safe to their latest versions breaks a requirement of a package that is not upgraded exactly if it forbids that version and its requirer is excused: the other pydantic package that is a candidate too, or for a CUDA wheel a torch-family one |
| `Resolver.UpgradesBreakExactly` | env_manager/resolver/reverse_deps.py:40-66 | from a consistent environment, upgrading any packages breaks a requirement of one that stays exactly if it forbids the new version of its dependency; if the requirements were checked, only an excluded requirer can be broken |
| `Resolver.BlockedTwinIsBroken` | env_manager/resolver/classify.py:19-23 | a concrete venv in which the classification blocks pydantic and passes its core, whose pinned latest version breaks a requirement of pydantic read from its metadata, although pip kept every constraint |
| `UpgradePlan.Dedupe` | env_manager/upgrade/plan.py:39-48 | what remains are exactly the first packages of their normalized names, in order, each name once |
| `UpgradePlan.TorchCandidates` | env_manager/upgrade/torch_cuda.py:104-120 | a package is a candidate if and only if it is an installed torch-family one whose version the dry-run changes, and it carries the resolved version |
| `UpgradePlan.CudaResolvedExactly` | env_manager/upgrade/torch_cuda.py:84-120 | what the CUDA dry-run resolves, spelled out: torch, torchvision or torchaudio as installed, to the version of the last report item for it, if that is another one |
| `UpgradePlan.CheckTorchCudaUpgrades` | env_manager/upgrade/torch_cuda.py:89-123 | the same about the CUDA dry-run, which asks the CUDA index only, for installed torch-family packages only |
| `UpgradePlan.PlanPythonProject` | env_manager/upgrade/plan.py:51-80 | the method computes the specified plan: the regular classification, then the CUDA dry-run or a second classification, each with exactly its attempts and calls; no normalized name is both safe and blocked |
| `UpgradePlan.VetTorchFamily` | env_manager/upgrade/plan.py:62-71 | with torch on a GPU host exactly what the CUDA dry-run resolves, asked of the CUDA index alone; otherwise a second classification |
| `UpgradePlan.PlanIsVetted` | env_manager/upgrade/plan.py:58-71 | both classifications behind a plan are exact partitions whose safe parts are proven by dry-runs within their own attempts |
| `UpgradePlan.PlanLosesNothing` | env_manager/upgrade/plan.py:58-72 | safe and blocked are a permutation of the candidates; through the CUDA index the regular ones are, and its results replace the torch-family ones |
| `UpgradePlan.HalvesExactly` | env_manager/upgrade/plan.py:55-56 | the two halves vetted apart are torch, torchvision and torchaudio, and everything else |
| `UpgradePlan.PlanParts` | env_manager/upgrade/plan.py:58-72 | the regular part holds no torch-family package and the torch part nothing else, no name is safe and blocked, and applying splits the plan into the same two parts |
| `UpgradePlan.CudaPinsAreResolvedExactly` | env_manager/upgrade/plan.py:63-71 | on a GPU host what will be pinned from the CUDA index is what its dry-run resolved if and only if torch is installed or the second classification finds nothing of the family safe |
| `UpgradePlan.PlannedUpgradesBreakExactly` | env_manager/upgrade/plan.py:51-80 | from a consistent environment, installing a whole plan breaks a requirement of a package that stays exactly if it forbids the planned version and nothing checked it: the version comes from the CUDA dry-run, or its requirer is excused |
| `UpgradePlan.SplitOfPlan` | env_manager/upgrade/apply.py:208-221 | on a GPU host splitting a plan gives back its regular and its torch part; elsewhere everything is regular |
| `UpgradePlan.PartitionIsDisjoint` | env_manager/upgrade/plan.py:58-71 | a partition of distinctly named candidates has no name on both sides |
| `UpgradePlan.PackageIndexVersionReachesCudaIndex` | env_manager/upgrade/plan.py:63-71 | torchvision without torch on a GPU host: in every plan the version vetted on the package index ends up in the CUDA part |
| `UpgradeApply.Host.Rollback` | env_manager/upgrade/apply.py:119-126 | without a snapshot nothing is restored; with one the snapshot's names are rewritten and nothing else |
| `UpgradeApply.Host.ApplyBatchWithRollback` | env_manager/upgrade/apply.py:129-147 | success means the pins hold and pip check passed; the history is freeze, install, check, and a restore exactly after a failure with a snapshot, and tells every change of the environment; a rollback leaves what the install left with every listed name rewritten |
| `UpgradeApply.Host.ApplyAndReport` | env_manager/upgrade/apply.py:157-171 | a batch is followed by one `upgraded` event per package, with its old and new version, right after a check that passed, and by one failure event otherwise |
| `UpgradeApply.Host.ApplyRegular` | env_manager/upgrade/apply.py:233-248 | the regular batch and its events; a rollback ends the project with every listed package at its old version |
| `UpgradeApply.Host.VerifyProject` | env_manager/upgrade/apply.py:255-260 | one pip check event, and on a GPU host with torch installed one runtime event; the venv is not touched |
| `UpgradeApply.Host.ApplyPythonProject` | env_manager/upgrade/apply.py:224-260 | every batch is reported, `upgraded` only with the pin in place and pip check passed; `skipped` exactly when there is nothing to do; nothing is installed after a rollback; the CUDA index is used exactly for the torch part; the history tells every change of the environment, including what a rolled-back regular or torch-family batch leaves |
| `UpgradeApply.Host.ApplyUpgradePlan` | env_manager/upgrade/apply.py:263-294 | over the whole plan: honest events, no install in a project after a restore in it, every install is one of the plan's, no other venv changes, every project settled (its own history leads from its environment before the plan to the one after it, rollbacks included), and all events count as ok exactly for `PlanOk` |
| `UpgradeApply.BatchesAreReported` | env_manager/upgrade/apply.py:156-192 | over a whole plan, every successful install and check is followed at once by one `upgraded` event per package of its batch, in order and from its old to its new version, every other one by a failure event |
| `UpgradeApply.UpgradesAreEarned` | env_manager/upgrade/apply.py:156-192 | over a whole plan, a package is reported as upgraded only right after such an install in its project |
| `UpgradeApply.RestoreIsFinal` | env_manager/upgrade/apply.py:233-248 | in a project's own history a batch that was rolled back is the last thing that touches the environment |
| `UpgradeApply.RestoredBatchIsUndone` | env_manager/upgrade/apply.py:119-171 | over a whole plan, any rolled-back batch, regular or torch-family, leaves the project as its install left it with every name listed before it rewritten; the snapshot is of the environment before the plan unless a regular batch came before a torch-family one |
| `UpgradeApply.TorchRollbackKeepsRegular` | env_manager/upgrade/apply.py:150-171 | over a whole plan, rolling back a torch-family batch keeps every listed package at the version the successful regular batch left |
| `UpgradeApply.RollbackIsExact` | env_manager/upgrade/apply.py:54-69 | over a whole plan, a rolled-back project is exactly what it was at the snapshot if and only if the failed install left alone everything the snapshot does not list |
| `UpgradeApply.RolledBackProjectIsKept` | env_manager/upgrade/apply.py:129-171 | over a whole plan, a project whose first batch was rolled back, the regular one or a torch-family batch alone, has every listed package at the version it had before the plan |
| `UpgradeApply.CudaInstallsAreResolved` | env_manager/upgrade/apply.py:250-253 | with torch on a GPU host, every install from the CUDA index in the history of any plan holding the project pins exactly what its CUDA dry-run resolved |
| `UpgradeApply.UpdateOneProject` | env_manager/update_jobs.py:77-89 | planning and applying one Python project end to end: every install pins packages that are safe, vetted and not blocked, and a CUDA install pins what the CUDA dry-run resolved |
| `UpgradeApply.NodeIsGood` | env_manager/upgrade/apply.py:195-205 | a Node project installs nothing through pip, and its one event counts as ok exactly if there are no candidates or npm works |
| `UpgradeApply.SettledStep` | env_manager/upgrade/apply.py:281-291 | with distinct names, applying one more project settles it and keeps every earlier one settled |
| `UpgradeApply.BlockedAreNeverInstalled` | env_manager/upgrade/apply.py:281-291 | an install in a project pins only its safe packages and shares no normalized name with its blocked ones |
| `UpgradeApply.QuietNext` | env_manager/upgrade/apply.py:241-242 | with distinct project names, one project's history cannot follow another's restore with an install there |
| `UpgradeApply.PlanTraceNext` | env_manager/upgrade/apply.py:281-291 | applying one more project keeps every property of the history |
| `UpgradeApply.Host.RunSafeUpdate` | env_manager/update_jobs.py:77-89 | up to date exactly if no project has an outdated package; otherwise the plan is applied with all its guarantees and success comes exactly if there is no Python project, nothing is blocked and every npm update and manifest sync works |
| `Versions.AtLeastIsTotalPreorder` | env_manager/requirements_manager.py:154-157 | version comparison is a total preorder whose ties are equal keys |
| `Versions.LessByParts` | env_manager/requirements_manager.py:154-157 | comparing sort keys is comparing epoch, zero-padded release and suffix, as PEP 440 words it |
| `Versions.PhasesInOrder` | env_manager/requirements_manager.py:154-157 | development, alpha, beta, candidate, final and post releases of one release come in this order, whatever their numbers |
| `Versions.NumbersDecide` | env_manager/requirements_manager.py:154-157 | within a phase the numbers decide, and a development release comes before what it develops |
| `Versions.TrimComparesPadded` | env_manager/requirements_manager.py:210-219 | dropping trailing zeros is zero-padded comparison |
| `Versions.Floor` | env_manager/requirements_manager.py:140-158 | the floor is one of the floor clauses' versions and at least all of them |
| `Versions.FloorExactly` | env_manager/requirements_manager.py:140-158 | there is a floor exactly if a clause with `==`, `===`, `>=`, `~=` or `>` carries a version, and it is the largest of those |
| `Versions.FloorOperatorsExactly` | env_manager/requirements_manager.py:136-138 | an operator is one of those five exactly if it admits no final release below its version |
| `Versions.SpecFloor` | env_manager/requirements_manager.py:140-158 | the loop computes the floor |
| `Versions.WildcardFloorExact` | env_manager/requirements_manager.py:136-158 | a version admitted by `==x.*` is below `x` if and only if it is a pre-release of `x` itself |
| `Versions.ClauseFloorSound` | env_manager/requirements_manager.py:136-158 | each of the five floor operators bounds what it admits, exactly except those pre-releases |
| `Versions.FloorSound` | env_manager/requirements_manager.py:136-158 | the floor of a set bounds every admitted version exactly unless it is such a pre-release, so every admitted final release |
| `Requirements.ParseRequirementsFile` | env_manager/requirements_manager.py:55-129 | the loop computes the parsed entries; a missing file has none |
| `Requirements.RequirementIndex` | env_manager/requirements_manager.py:161-171 | the last entry per name and marker, without options and editables, in first-seen order |
| `Requirements.FindRequirementDrift` | env_manager/requirements_manager.py:174-207 | exactly the keys that would disappear or whose floor would fall, each once |
| `Requirements.DriftsExactly` | env_manager/requirements_manager.py:186-207 | a key drifts exactly if the central manifest lacks it, or some version bounds the sibling from below that is above every bound of the central one |
| `Requirements.HighestBound` | env_manager/requirements_manager.py:140-158 | the floor of a specifier text is its highest bound, and there is none exactly if nothing bounds it |
| `Requirements.SlotExactly` | env_manager/requirements_manager.py:161-171 | entries share a key exactly if their names, without extras, are the same to PEP 503 and their markers agree |
| `Requirements.CanonicalExactly` | env_manager/requirements_manager.py:161-171 | PEP 503: letters are lowered and each run of separators becomes one `-` |
| `Text.StripExactly` | env_manager/requirements_manager.py:64 | a line is its trimmed form between two stretches of white space, and the trimmed form begins and ends with none |
| `Requirements.CollectDrift` | env_manager/requirements_manager.py:187-206 | the loop over the sibling's keys collects exactly the drifting ones, each once |
| `Requirements.NoDriftIsPreorder` | env_manager/requirements_manager.py:186-207 | "no drift" is reflexive and transitive |
| `Requirements.GuardKeepsFloors` | env_manager/requirements_manager.py:186-207 | without drift no final release the central entry admits is below a floor of the sibling |
| `Requirements.SanitiseTwice` | env_manager/requirements_manager.py:274-285 | sanitising is idempotent on whole files |
| `Requirements.SanitiseExactly` | env_manager/requirements_manager.py:274-285 | blank lines go, a line without `;` is trimmed, and the parts around the first `;` are trimmed and joined by `; ` |
| `Requirements.SanitiseLineByLine` | env_manager/requirements_manager.py:274-285 | whole files are sanitised line by line |
| `Requirements.SanitiseKeepsParts` | env_manager/requirements_manager.py:274-285 | a sanitised line has the same requirement and marker and is its own sanitised form |
| `Requirements.SteadyExactly` | env_manager/requirements_manager.py:274-285 | sanitising keeps what a line contributes to the index if and only if it is not one of the lines that lose their meaning |
| `Requirements.IndexIsLast` | env_manager/requirements_manager.py:161-171 | a parsed file holds under a key what the last line contributing that key gives |
| `Requirements.SanitisedIndexIsLast` | env_manager/requirements_manager.py:274-285 | so does the parsed sanitised file, in terms of the original lines |
| `Requirements.HarmlessExactly` | env_manager/requirements_manager.py:186-207 | between two versions of a file nothing drifts if and only if every changed line is harmless: neither the last source of a key that vanishes or falls, nor the new source of one that does |
| `Requirements.SanitiseKeepsIndexExactly` | env_manager/requirements_manager.py:274-285 | sanitising a whole file keeps its index if and only if the lines that lose their meaning are the last source of nothing that differs |
| `Requirements.LosslessExactly` | env_manager/requirements_manager.py:274-285 | the sanitised copy takes nothing away from the file if and only if each of its losing lines is harmless |
| `Requirements.SettlesExactly` | env_manager/requirements_manager.py:274-285 | the file takes nothing away from its sanitised copy if and only if each of its losing lines is harmless that way |
| `Requirements.SiblingProject.SyncManifest` | env_manager/requirements_manager.py:254-291 | the guarded sync as a function of the file before: refused, failed or the sanitised copy |
| `Requirements.SyncOutcomeExactly` | env_manager/requirements_manager.py:254-291 | refused exactly if the central manifest drops a key or undercuts a bound of the sibling, and written, sanitised, only on success |
| `Requirements.SyncCopiesIndex` | env_manager/requirements_manager.py:254-291 | after a successful sync the sibling has the central index if and only if sanitising keeps the index |
| `Requirements.SyncIsFixedPointExactly` | env_manager/requirements_manager.py:254-291 | a successful sync repeated is let through and rewrites the same lines if and only if its manifest settles; syncing the copy itself always is a fixed point |
| `Requirements.SyncsNeverTakeAwayExactly` | env_manager/requirements_manager.py:254-291 | over every sequence of guarded syncs of any sibling no key disappears and no floor falls, if and only if every central manifest used is lossless |
| `Requirements.SyncsKeepFloors` | env_manager/requirements_manager.py:254-291 | after any sequence of syncs with lossless manifests no final release below an original floor is admitted |
| `Requirements.UnreadableLineLosesMeaning` | env_manager/requirements_manager.py:274-285 | a concrete line that loses its meaning |
| `Requirements.UnreadableManifest` | env_manager/requirements_manager.py:254-291 | a manifest of that line is neither lossless nor settled, and sanitising does not keep its index |
| `NpmManifest.FindPackageJsonDrift` | env_manager/requirements_manager.py:222-243 | exactly the dependencies that would disappear or whose floor would fall, over the four sections |
| `NpmManifest.NpmFloorExactly` | env_manager/requirements_manager.py:210-219 | behind white space, range characters and white space every dotted number is read; a range without one there has no floor |
| `NpmManifest.DriftExactly` | env_manager/requirements_manager.py:222-243 | the guard finds drift exactly if a dependency of one of the four sections is missing or its numbers compare lower |
| `NpmManifest.NoDriftIsPreorder` | env_manager/requirements_manager.py:222-243 | npm "no drift" is reflexive and transitive |
| `NpmManifest.FloorsComparePadded` | env_manager/requirements_manager.py:210-219 | npm floors compare by zero-padded numbers, totally, with equal padded releases as ties |
| `NpmManifest.MergeContents` | env_manager/requirements_manager.py:294-307 | the merge has exactly the central fields and the sibling's own release fields |
| `NpmManifest.MergeKeepsOrder` | env_manager/requirements_manager.py:294-307 | kept keys stay in the sibling's order and new ones follow in the central order |
| `NpmManifest.MergeIsIdempotent` | env_manager/requirements_manager.py:294-307 | merging again changes neither a value nor the key order |
| `NpmManifest.MergePassesChecks` | env_manager/validation/gates/ecosystem_ssot/gui.py:272-277 | a merged manifest has no drift either way and no differing key, with null and absent keys alike and the order of members ignored, as the check does |
| `NpmManifest.DifferingExactly` | env_manager/validation/gates/ecosystem_ssot/gui.py:272-277 | the parity check reports exactly the keys but `version` whose values differ, absent and null alike |
| `NpmManifest.NpmProject.SyncNpmManifest` | env_manager/requirements_manager.py:310-339 | the guarded npm sync as a function of the file before |
| `NpmManifest.GuardedSyncExactly` | env_manager/requirements_manager.py:310-339 | when each report is given; the text is written with the line ends of the file, and only if it differs |
| `NpmManifest.SyncSettles` | env_manager/requirements_manager.py:310-339 | after a successful sync there is no drift and no differing key, the version is what it was, and syncing again touches nothing, for any codec that round-trips what can be put together from parsed texts |
| `NpmManifest.SyncsNeverTakeAway` | env_manager/requirements_manager.py:310-339 | over any sequence of guarded npm syncs no dependency disappears, no floor falls and the version stays |
| `ManifestRepin.SyncedLineIsIdempotent` | env_manager/upgrade/manifest_sync.py:22-43 | re-pinning a line twice is re-pinning it once |
| `ManifestRepin.RepinKeepsNameAndMarker` | env_manager/upgrade/manifest_sync.py:22-43 | protected, unknown and option lines are kept; any other keeps its name and marker and is pinned to the installed version |
| `ManifestRepin.RepinnedExactly` | env_manager/upgrade/manifest_sync.py:22-43 | a line that starts with a name is pinned to the version installed under the dashed name, else the lower-case one, exactly unless it is an index option or ruff or a pydantic package, or no such version is known |
| `ManifestRepin.NamelessStays` | env_manager/upgrade/manifest_sync.py:29-34 | blank lines, comments and lines that start with no name stay as they are |
| `ManifestRepin.MarkerExactly` | env_manager/upgrade/manifest_sync.py:41-43 | the marker put back is what follows the first `;`, trimmed, if anything does |
| `ManifestRepin.RepinIsIdempotent` | env_manager/upgrade/manifest_sync.py:46-66 | re-pinning a manifest twice is re-pinning it once |
| `ManifestRepin.PinnedProject.SyncProject` | env_manager/upgrade/manifest_sync.py:46-66 | the manifest is re-pinned line by line and copied exactly if everything works, after which the guard finds no drift; the copy is untouched otherwise |
| `ManifestRepin.RepinDriftsExactly` | env_manager/upgrade/manifest_sync.py:69-90 | a key of a whole manifest drifts under re-pinning exactly if its last line before has a floor its last line after is below, or there is none after |
| `ManifestRepin.RepinKeepsExactly` | env_manager/upgrade/manifest_sync.py:69-90 | this unguarded writer takes nothing away if and only if every line it changes is harmless |
| `ManifestRepin.RepinLowersExactly` | env_manager/upgrade/manifest_sync.py:69-90 | where the parser reads the pins back, the keys of a whole manifest that this unguarded writer lowers are exactly those whose last line is pinned below the floor it had |
| `ManifestRepin.RepinLowersOldPin` | env_manager/upgrade/manifest_sync.py:69-90 | a manifest with `a>=2` over a venv with `a` 1 is lowered to `a==1`, which the guard would refuse |
| `Pipeline.PipelineOrchestrator.TryClaim` | env_manager/orchestrator.py:44-54 | a claim succeeds exactly while idle |
| `Pipeline.PipelineOrchestrator.RunCleanInstall` | env_manager/orchestrator.py:79-112 | for every behaviour of the steps and every point of closing: the published numbers, how it ends, the status, the report, `current_step` and that the claim is released |
| `Pipeline.PipelineOrchestrator.RunSingleStep` | env_manager/orchestrator.py:114-151 | for every number, step behaviour and point of closing: exactly the published numbers, how it ends, the status, the report, `current_step` and that the claim is released |
| `Pipeline.PublishedIsWellOrdered` | env_manager/pipeline/events.py:137-143 | step numbers are non-decreasing from 1 to 7 with at most one final step-0 error |
| `Pipeline.PublishedExactly` | env_manager/orchestrator.py:79-112 | a run publishes all events of a step exactly if no earlier step raised, and one error event exactly if some step raised or no report came |
| `Pipeline.EndingExactly` | env_manager/orchestrator.py:79-112 | a run is closed exactly if it is consumed so far, and otherwise crashes exactly with its error event |
| `Pipeline.LastStepExactly` | env_manager/pipeline/events.py:137-143 | `current_step` is the number of the last event that belongs to a step |
| `Pipeline.EveryRunIsWellOrdered` | env_manager/orchestrator.py:95-112 | so are those of a run closed early |
| `Pipeline.CrashesExactly` | env_manager/orchestrator.py:101-109 | the error event is published exactly if a step raises or no report comes back, and then last |
| `Pipeline.CrashLeavesFailingStep` | env_manager/orchestrator.py:66-68 | a crash leaves `current_step` on the failing step if that step published anything |
| `Changelog.SkipStep` | env_manager/validation/gates/ecosystem_ssot/allowlist.py:120-133 | one step of the skip level keeps its meaning in terms of the changelog sections that reach the line |
| `Changelog.HeadingExactly` | env_manager/validation/gates/ecosystem_ssot/allowlist.py:125-132 | a line is a heading of a level exactly if it is that many hashes, one to six, and white space, and a changelog one exactly if the rest says so in any case |
| `Changelog.ScannableLines` | env_manager/validation/gates/ecosystem_ssot/allowlist.py:120-133 | the one-pass machine yields exactly the lines outside every changelog section, in order and with their numbers |
| `Changelog.ScanIsUnique` | env_manager/validation/gates/ecosystem_ssot/allowlist.py:120-133 | that definition determines the output |
| `ProjectList.Groups` | env_manager/validation/gates/ecosystem_ssot/literals.py:118-130 | the groups are the maximal runs of nearby mentions, each with every folder it names |
| `ProjectList.MaximalRunsAreUnique` | env_manager/validation/gates/ecosystem_ssot/literals.py:118-130 | there is only one way to cut the mentions into maximal runs |
| `ProjectList.GroupingIsUnique` | env_manager/validation/gates/ecosystem_ssot/literals.py:118-130 | so the groups are determined |
| `ProjectList.MentionsExactly` | env_manager/validation/gates/ecosystem_ssot/literals.py:122-125 | each further line is a mention exactly if it names a folder |
| `ProjectList.Scan` | env_manager/validation/gates/ecosystem_ssot/literals.py:104-116 | one violation for each group that names at least the minimum of folders, in order, with its first line and all its folders |
| `SecretsVault.SecretsVault.MergeItems` | env_manager/secrets_vault.py:342-354 | each record is the item sent with all its fields, but a blank value keeps what is stored |
| `SecretsVault.RecordsAreLastSaved` | env_manager/secrets_vault.py:326-336 | what is loaded after any history is what the last accepted save made of what was loaded before it, and the seeds or the old file only as long as no save was accepted |
| `SecretsVault.SecretsVault.SaveItems` | env_manager/secrets_vault.py:371-379 | merge, reject exactly without a Kaggle value sent or stored, else replace the file; a rejected or failed save changes nothing |
| `SecretsVault.RejectedExactly` | env_manager/secrets_vault.py:371-378 | a save is rejected exactly if no Kaggle item, in whatever case, sends a value or has one stored |
| `SecretsVault.StoredExactly` | env_manager/secrets_vault.py:343 | the last record of an id is the stored one |
| `SecretsVault.SaveEffect` | env_manager/secrets_vault.py:342-379 | what one accepted save does to an id that is left out, sent or sent blank |
| `SecretsVault.LastSentValueIsStored` | env_manager/secrets_vault.py:342-379 | over any history of saves the stored value is the last non-blank one sent since an accepted save last left the id out |
| `SecretsVault.OmittedValueIsGone` | env_manager/secrets_vault.py:342-379 | an id that was left out and came back blank has no value |
| `SecretsVault.ConfirmedSeedIsKept` | env_manager/secrets_vault.py:326-354 | an id every accepted save confirmed without a value keeps its seed |
| `SecretsVault.HistoryCases` | env_manager/secrets_vault.py:342-379 | these three cases cover every history |
| `SecretsVault.SavedVaultHasKaggle` | env_manager/secrets_vault.py:371-379 | every file a save wrote has a Kaggle value, and rejected saves change nothing |

## Left out

- Requirement lines with a direct URL: sanitising removes the space PEP 508 needs before their `;`, and the grammar parameter has no place for them.
- The regular expressions and tokenizers of `packaging` and the JSON and YAML codecs: parameters of the model.
- Launching and killing processes, process trees, hardware probing, `nvidia-smi` and fetches from PyPI: their results are parameters or nondeterministic.
- FastAPI wiring, the WebSocket broadcast, bug reports, command-line tables and human-readable messages.
- Real time: the streamer has a clock that only grows.
- A publish callback that raises inside a pipeline run: neither the server nor the command line passes one.
- Invalid venvs during apply, where an install and a pip check report success without doing anything: every venv is valid there.
- The bottom-up order of projects in a plan and its totals; planning a Node project, where every outdated package is a candidate and none is blocked.
- Propagating secrets to other files, masking values, backups of the vault file and a vault file that cannot be read.
- A write that fails half-way: a failed write of a manifest or of the vault leaves the file as it was.
- Lower-casing of characters outside ASCII.
- JSON values other than null and objects of strings are compared as texts; a dependency range that is not a string, and a dependency section that is neither an object nor empty, are left out.
- RepinLowersExactly: it needs the parser to read the pins back, as an installed version text is whatever pip reports; RepinDriftsExactly and RepinKeepsExactly need nothing.
- SafeUpgradesBreakExactly: requirements of the upgraded packages themselves are not known before the upgrade; the dry-run is trusted with them.
- ConstraintFrame: honouring a pin means reporting the same version text; a different spelling of an equal version would count as a change in the code too.
- A `==` pin on a version without a local label may be met by a build with one; `Rules.meets` leaves that open.
- The run's timestamp and the fields of `PipelineRun` that steps share.
