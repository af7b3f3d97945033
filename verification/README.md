# Verified models of CB-Tumblebug's core logic

CB-Tumblebug manages multi-cloud infrastructure (MCI): groups of virtual machines at several cloud
providers, reached through CB-Spider and recorded in a key-value store. This project models, in Dafny,
the parts of it whose correctness is not visible from any one function, and proves what they keep,
what they compute, and where they fall short of what they are meant to do.

Every file is one module; `dafny verify dfyconfig.toml` checks them all.

| files | what they model |
|---|---|
| `Text`, `Options` | a value that may be missing, and the calls of Go's `strings` and `strconv` that the models need: case folding, `Split`, `Index`, `Itoa`, `Atoi` with its clamping |
| `Scheduler`, `SchedulerRuns`, `SchedulerAccounting`, `SchedulerAgreement`, `SchedulerFaults`, `SchedulerWays`, `SchedulerKept`, `SchedulerSettings`, `SchedulerFlag`, `SchedulerFields` | the job scheduler: a table of job objects in memory, their goroutines, their records in the store, crashes and restarts; every save is a copy and, later, a put |
| `RateLimiter`, `RateLimiterProofs` | the provider, region and VM semaphore tree under which VMs are created, controlled and queried |
| `VmLifecycle`, `VmRuns`, `VmFetches` | the stored VM record (status, target action, target status) under fetches, and under control calls and creations that hold copies of it |
| `MciStatus` | the status of an MCI aggregated from its VMs, and the gate that reads it before a control action |
| `Autoscaler`, `AutoscalerRuns`, `AutoscalerTorn`, `AutoscalerFaults`, `AutoscalerWays` | the tick-driven policy controller with its sliding window of measurements |
| `LatencyMatrix`, `LatencyAlign`, `LatencyFill` | the latency matrix: built from benchmark replies, its rows permuted in place, its missing rows filled from columns |
| `SubGroups`, `SubGroupRuns`, `StoreKeys` | VM ids in sub-groups over creations, scale-outs and deletions, and the keys of their records |
| `ProvisioningLog`, `RecentMessages` | the provisioning history of a spec and the risk verdicts read off it |
| `Glob`, `Versions` | the wildcard matcher and the version order |
| `Ranking`, `SpecFilter`, `K8sFilter` | ranks by distance, filter conditions folded into ranges, minimum requirements of Kubernetes nodes |
| `SchemaDiff`, `SchemaDiffEnds`, `SchemaDiffProofs`, `SchemaDiffFindings`, `EndpointDiff` | the comparison of two versions of the REST API |

What mutates in the program mutates here: job objects, the manager, the VM store, the MCI, the policy
controller and the filter request are classes; the latency matrix and the ranked specs are arrays. Each
method is proved against a function of the old state, and the whole-run results are lemmas over
transition systems built from those same functions. Answers of CB-Spider and of the providers, failures
of the store where they matter, the order of goroutines, of map iteration and of sorting among equals
are left open, so every result holds for all of them.

## Where the code and its intention part

Each of these is a result below, with the exact condition or a concrete run.

* A scheduled job stopped while its goroutine still has a save ahead of it, if only because it has just read the
  enabled flag, comes back into the store, and after a restart it runs again, possibly beside a new job of the same
  configuration (`SchedulerAgreement.StopIsFinalIff`, `SchedulerFaults.StopMidExecution`).
* An update of a job between the copy and the put of one of its saves is lost in the store: the table has the new
  settings, a restart brings back the old ones (`SchedulerFaults.LostUpdateIff`, `SchedulerFaults.LostUpdate`).
* A job that is enabled again after its automatic disabling is never disabled a second time, however often it fails,
  as long as it does not succeed (`SchedulerFlag.NeverDisabledTwice`), and a job recovered while disabled is the
  one kind that never runs again in that process (`SchedulerWays.ExecutesAgainIff`).
* A control call that finds a new address writes back the copy of the record it started with, and a creation its own:
  they undo a Terminated status and reopen a completed action (`VmRuns.TerminatedUnlessStale`,
  `VmRuns.CompletedUnlessReopened`).
* The equality tests of the MCI gate never fire, so an MCI of suspended VMs accepts to be suspended again,
  although each of its VMs would refuse (`MciStatus.GatesDisagree`).
* A monitoring error leaves a policy in Checking for good unless a later policy of the list is saved in the
  same tick (`AutoscalerFaults.StuckInChecking`), and a crash after a failed action can undo the pause that
  should follow it, exactly when the evaluation period is two or more (`AutoscalerTorn.TornIff`).
* A target in the benchmark replies that never is a source swaps the header row away (`LatencyAlign.Align`).
* Group names that differ only in case, and first sizes that do not parse to at least one, make VM ids
  collide (`SubGroupRuns.NewGroupCollidesIff`, `SubGroupRuns.DistinctIff`).
* One more failed image can lower the risk of a spec from high to medium
  (`ProvisioningLog.FailureLowersRiskIff`).
* The comment of `getRecentUniqueFailureMessages` promises the most recent message first; the code puts it
  last, and the model follows the code (`RecentMessages.NewestIsLast`).
* A Kubernetes plan whose last lower bound on vCPU or memory is missing, zero or set under an alias such as "VCPU"
  admits specs below the minimum (`K8sFilter.K8sGuarantee`, `K8sFilter.AliasBreaksIt`).
* One spec of unknown cost turns the cost scores around (`Ranking.CostScoreIff`).
* A requested Kubernetes version may be answered with a text that is no available id, unless every id that is not
  its own digits and dots comes after one that answers for it (`Versions.AnswersAreIdsIff`).
* The comparison of API schemas does not end if it meets the same pair of schemas twice on its way down
  (`SchemaDiffEnds.EndsIff`): `model.MciAccessInfo`, which has itself as a property, is never compared to the end, even
  unchanged (`SchemaDiffEnds.AccessInfoNeverEnds`). `netutil.Network`, which has itself as array items, is, because
  items written the same are not followed (`SchemaDiffEnds.NetworkEnds`).
* A change behind a reference used as array items goes unnoticed (`SchemaDiffProofs.ChangeBelowItems`).

## Model

| member | source | states |
|---|---|---|
| Scheduler.ScheduledJob.FinishExecution | src/core/infra/scheduler.go:729-774 | the critical section that ends an execution turns the job into `Finish` of what it was: outcome counted, consecutive failures counted or reset, the fifth in a row disabling the job and its ticker unless the flag is already set |
| Scheduler.ScheduledJob.Stop | src/core/infra/scheduler.go:536-549 | a stopped job has status Stopped, no ticker and a cancelled context, and nothing else changes |
| Scheduler.ScheduledJob.Configure | src/core/infra/scheduler.go:470-487 | an update changes the interval only from 60 seconds up, restarting the ticker, and the enabled flag only if given |
| Scheduler.SchedulerManager.FindDuplicateJob | src/core/infra/scheduler.go:274-287 | true if and only if some job of the table has the same six fields |
| Scheduler.SchedulerManager.CreateScheduledJob | src/core/infra/scheduler.go:290-361 | succeeds if and only if the request is no duplicate, frequent at most every ten seconds, valid in its options, new in its id and persisted; otherwise table and store are as before |
| Scheduler.SchedulerManager.StopScheduledJob | src/core/infra/scheduler.go:391-414 | the job is stopped and leaves the table whether or not its record could be deleted; no other job changes |
| Scheduler.SchedulerManager.StopAllScheduledJobs | src/core/infra/scheduler.go:418-458 | every job is stopped, the table is empty, exactly the records whose delete failed remain, and failure is reported if and only if there is one |
| Scheduler.SchedulerManager.UpdateScheduledJob | src/core/infra/scheduler.go:461-496 | exactly one job of the table changes, to its update, and its record follows if the write succeeds |
| Scheduler.SchedulerManager.LoadJobsFromStore | src/core/infra/scheduler.go:178-261 | the table of a new process is the recovered form of every record, under its own id |
| SchedulerFields.AcceptedIff | src/core/infra/scheduler.go:290-345 | a request is accepted if and only if no job has its six fields or its id, its interval is ten seconds or more, and its options are valid where its type has any |
| SchedulerFields.NewJobIs | src/core/infra/scheduler.go:318-345 | a new job is enabled, scheduled, and has counted nothing |
| SchedulerFields.RecoverChanges | src/core/infra/scheduler.go:206-243 | recovery changes a job only by noting an interrupted execution |
| SchedulerFields.NotedIs | src/core/infra/scheduler.go:596-774 | what each section of an execution notes |
| SchedulerFields.UpdateReaches | src/core/infra/scheduler.go:472-487 | an update restarts the ticker if and only if the goroutine has started one and the interval is from 60 seconds up |
| SchedulerFields.WaysOn | src/core/infra/scheduler.go:499-534 | where the goroutine of a job can go from where it is, and that it ends only while waiting after a stop |
| SchedulerFields.WhereTo | src/core/infra/scheduler.go:499-534 | where each move leads, and what becomes of the copy and the ticker |
| SchedulerFields.StopChanges | src/core/infra/scheduler.go:536-549 | a stop reaches status, context and ticker only |
| SchedulerFields.AlwaysFits | src/core/infra/scheduler.go:290-534 | in every reachable state no interval is below ten seconds, and a job that was not stopped is executing, by its status, exactly from the lock that begins an execution to the one that ends it |
| SchedulerSettings.UpdateChanges | src/core/infra/scheduler.go:472-487 | the interval is the requested one from 60 seconds up and otherwise the old one, the job is enabled or disabled if that is asked for, and nothing else changes |
| SchedulerSettings.IntervalLasts | src/core/infra/scheduler.go:461-496 | after a saved update of the interval from 60 seconds up, with no older copy on its way to the store, table and store carry it over every run, restarts included, until the job is created anew or updated to another |
| SchedulerSettings.DisabledLasts | src/core/infra/scheduler.go:461-496 | after a saved update to disabled, likewise, until the job is created anew or enabled by an update |
| SchedulerKept.TakesHoldIff | src/core/infra/scheduler.go:461-496 | a property of jobs that a saved update gives holds in memory, in every copy under way and in the store if and only if no save of a job without it is under way |
| SchedulerKept.UpdateLasts | src/core/infra/scheduler.go:461-496 | from any reachable state such a property stays with the job over every run of steps that take it from no job |
| SchedulerAccounting.Accounting | src/core/infra/scheduler.go:612-777 | over all runs with crashes, restarts, updates, panics and store failures: counters count the recorded outcomes, the consecutive counter is the failing suffix, auto-disabled holds if and only if that is five or more, and executions exceed outcomes by exactly those lost and the one in flight |
| SchedulerAccounting.SixthFailureNeedsUpdate | src/core/infra/scheduler.go:744-758 | after a fifth failure in a row no execution begins without an update to enabled in between |
| SchedulerFlag.EnabledAgainIff | src/core/infra/scheduler.go:461-496 | the update that enables an automatically disabled job again leaves it enabled with the flag set, in memory, in every copy under way and in the store, if and only if no save from before is under way |
| SchedulerFlag.NeverDisabledTwice | src/core/infra/scheduler.go:745-758 | from any reachable state with an automatically disabled job, after that update: the job stays enabled, in the table, in the store and after every restart, over every run in which it does not succeed and no update disables it, however often it fails |
| SchedulerFlag.FifthFailure | src/core/infra/scheduler.go:729-758 | such a state is reached: the run in which a new job fails five times in a row |
| SchedulerWays.DormantForever | src/core/infra/scheduler.go:245-258 | a job recovered while disabled executes nothing in that process, whatever updates come |
| SchedulerWays.RestartIs | src/core/infra/scheduler.go:239-258 | a restart leaves exactly the disabled jobs without a goroutine |
| SchedulerWays.ExecutesAgainIff | src/core/infra/scheduler.go:245-258 | a job of the table that is not stopped executes again in some run of the process if and only if it was not recovered while disabled |
| SchedulerAgreement.Agreement | src/core/infra/scheduler.go:290-361 | without store failures, with stops only where no save is ahead and no update between the copy and the put of a save: table and store hold the same jobs, equal up to what a restart makes of them except during a save or a stop, no two share the six fields, and a restart brings back exactly these |
| SchedulerAgreement.StoppedStaysStopped | src/core/infra/scheduler.go:391-414 | a job so stopped in such a run is in neither table nor store, whatever follows and over every later restart, until it is requested again |
| SchedulerAgreement.StopIsFinalIff | src/core/infra/scheduler.go:508-531 | after a stop with its record deleted, and earlier jobs of that id at rest, some run brings the record back if and only if the stop landed while the goroutine still had a save ahead of it, from the look at the enabled flag to the put of the outcome |
| SchedulerFaults.StopMidExecution | src/core/infra/scheduler.go:776-779 | the run in which a job stopped during its execution is saved at its end and recovered beside another job of the same configuration |
| SchedulerFaults.LostUpdateIff | src/core/infra/scheduler.go:137-176 | after an update between the copy and the put of a save, table and store agree on the settings of the job if and only if the update did not change them, and a restart brings back the old ones |
| SchedulerFaults.LostUpdate | src/core/infra/scheduler.go:461-496 | the run in which a job is disabled in that gap: disabled in the table, enabled in the store, running again after a restart, with no store failure and no stop |
| RateLimiter.GroupVms | src/core/infra/provisioning.go:3009-3029 | the group map holds exactly the VMs of each provider and region, in list order, and no empty group |
| RateLimiter.GroupCounts | src/core/infra/provisioning.go:3013-3029 | grouping loses and duplicates nothing |
| RateLimiter.Launch | src/core/infra/provisioning.go:3031-3093 | the goroutine tree starts with one waiting task per VM, one queued region per group, one open provider per provider, with that provider's capacities |
| RateLimiter.Capacities | src/core/infra/manageInfo.go:1358-1386 | the capacities of each provider for creation and control and for status, whatever the case it is written in |
| RateLimiterProofs.Safety | src/core/infra/provisioning.go:3048-3092 | in every reachable state each provider has at most its number of active regions, each region at most its number of VMs in flight, and the provider at most their product |
| RateLimiterProofs.Progress | src/core/infra/provisioning.go:3036-3118 | until all providers have merged, some goroutine can move |
| RateLimiterProofs.Termination | src/core/infra/control.go:363-525 | no run is longer than the measure of its start, and a run is complete if and only if it has that length |
| RateLimiterProofs.Outcome | src/core/infra/provisioning.go:3095-3142 | a complete run issues the operation exactly once per VM, collects exactly the failures, and returns an error if and only if the list is non-empty and all of it failed |
| VmLifecycle.VmStore.Poll | src/core/infra/manageInfo.go:1626-1700 | the status request is repeated once on a blank answer, and anything but a native status counts as Undefined |
| VmLifecycle.VmStore.FetchVmStatus | src/core/infra/manageInfo.go:1567-1850 | the reply and the stored record after a fetch, for every record and every answer of the provider |
| VmLifecycle.VmStore.UpdateVmInfo | src/core/infra/manageInfo.go:1958-1982 | only an existing record is rewritten, and only it |
| VmLifecycle.VmStore.UpdateVmPublicIp | src/core/infra/manageInfo.go:2847-2860 | a changed address writes back the whole record from the copy it was given |
| VmLifecycle.VmStore.ControlVmAsync | src/core/infra/control.go:528-714 | the store after a control call, with the calls it makes on the way, for every environment |
| VmFetches.PolledIff | src/core/infra/manageInfo.go:1626-1725 | a status is believed if and only if it is heard and one of the eight a provider can report; the second answer is heard only if the first was blank |
| VmFetches.OpenActionFetched | src/core/infra/manageInfo.go:1729-1846 | what a fetch makes of a record with an open action, by the provider's word: in transit while the provider lags behind, closed with the current address at the target, terminated on silence if that was asked for, and else the word itself |
| VmFetches.CompletedFetched | src/core/infra/manageInfo.go:1594-1846 | a record without an action takes the provider's word, unless it is terminated, failed or suspended |
| VmFetches.OverFetched | src/core/infra/manageInfo.go:1594-1846 | a VM that does not exist or is terminated, and a failed creation, stay as they are |
| VmFetches.ReplyIsRecord | src/core/infra/manageInfo.go:1567-1850 | the reply is what is then on record, with the exact exceptions |
| VmFetches.ControlOpens | src/core/infra/control.go:578-641 | status, action and target that each control action writes first |
| VmFetches.OpensIff | src/core/infra/control.go:555-641 | which control calls go through to the provider |
| VmFetches.CallHolds | src/core/infra/control.go:578-660 | a call that goes through writes the opened record and holds on to its copy |
| VmFetches.CallIs | src/core/infra/control.go:528-714 | the store after a control call, by its case: not through, failed at the provider, fetched, and the last write |
| VmFetches.ClosesOnce | src/core/infra/control.go:660-700 | only a suspension, resumption or reboot ends with a write of its copy, and once |
| VmFetches.CreationEnds | src/core/infra/provisioning.go:3145-3562 | the run of a creation that goes well, and the record it ends with for every answer |
| VmFetches.FetchFailed | src/core/infra/provisioning.go:3531-3543 | a creation that could not fetch the status stores its failed record and is over |
| VmFetches.LabelsFail | src/core/infra/provisioning.go:3562-3592 | a label failure turns the stored record into a failed one |
| VmFetches.CreationFails | src/core/infra/provisioning.go:3145-3600 | what a creation writes where it fails |
| VmFetches.CreationWaysOn | src/core/infra/provisioning.go:3145-3600 | what a creation can do next at each of its stages |
| VmRuns.TargetPairing | src/core/infra/control.go:578-641 | every record reached by creations, control calls and fetches, and every copy a control call or a creation still holds, pairs its action with that action's own target |
| VmRuns.TerminatedUnlessStale | src/core/infra/provisioning.go:3526-3592 | a terminated record loses that status in a step if and only if the step is the last write of a control call whose address has changed, or a creation of that VM writing a copy that is not terminated |
| VmRuns.TerminatedIsAbsorbing | src/core/infra/manageInfo.go:1787-1846 | Terminated is absorbing over every run without such a write |
| VmRuns.TerminatedOverwritten | src/core/infra/control.go:641-693 | one control call is enough to overwrite it |
| VmRuns.CompletedUnlessReopened | src/core/infra/manageInfo.go:2847-2860 | a completed action is open again after a step if and only if the step is such a last write of a control call, a new control call, or a write of a creation of that VM before it has fetched the status |
| VmRuns.ClosesIffTargetReached | src/core/infra/manageInfo.go:1787-1846 | a fetch closes an open action other than a termination if and only if the provider reports the action's target, the address can be read, and the VM exists, is not terminated and did not fail to be created |
| VmRuns.TerminationStaysOpen | src/core/infra/manageInfo.go:1729-1846 | a fetch never closes a termination |
| VmRuns.TransitIsKept | src/core/infra/manageInfo.go:1729-1783 | while the provider reports only what may precede the action, or nothing, a creation, suspension, resumption or reboot stays in transit as it was left, under any number of fetches; so does a termination until the provider falls silent |
| VmRuns.TerminatesIff | src/core/infra/manageInfo.go:1738-1745 | a fetch stores an open termination as terminated if and only if its write succeeds and the provider reports it so, or nothing |
| VmRuns.FailedCreateStaysFailed | src/core/infra/manageInfo.go:1594-1608 | a failed creation stays as it is under any number of fetches |
| MciStatus.CountStatuses | src/core/infra/manageInfo.go:951-981 | the ten counters count the VMs of each status, the tenth all others |
| MciStatus.CountersSum | src/core/infra/manageInfo.go:951-981 | the ten counters sum to the number of VM statuses |
| MciStatus.FirstMax | src/core/infra/manageInfo.go:983-990 | the dominant status is the first of the largest counters |
| MciStatus.VmTotal | src/core/infra/manageInfo.go:992-1045 | in all three modes the VM count is at least the number of statuses and the dominant count; while creating it does not fall below the earlier, the stored and the listed count |
| MciStatus.VmTotalIs | src/core/infra/manageInfo.go:992-1045 | which of the counts it is in each mode: the largest of four, or the number of statuses |
| MciStatus.FetchedFirst | src/core/infra/manageInfo.go:915-950 | the stored statuses count only if none were fetched |
| MciStatus.Aggregate | src/core/infra/manageInfo.go:951-1200 | the report in full: no counter exceeds the total, the label is that of the dominant status or the bare override after a failed creation, the "Undefined" branch is never taken, and the action is completed if and only if by the counters no VM is pending |
| MciStatus.CompletesIff | src/core/infra/manageInfo.go:1100-1170 | every VM is settled if and only if, for a creation, none is being created or silent; for the four control actions, all have reached the end of the action, failed, terminated or fallen silent; for any other, all have reached their own target or terminated |
| MciStatus.NoneInTransit | src/core/infra/manageInfo.go:1100-1170 | a completed action leaves no VM in its transitional status |
| MciStatus.LabelTexts | src/core/infra/manageInfo.go:1047-1061 | the names of the ten counters, and labels in full |
| MciStatus.PartialIff | src/core/infra/manageInfo.go:1054-1061 | "Partial-" is absent if and only if the dominant count is the total, and then every VM is in that status |
| MciStatus.ReportIsDetermined | src/core/infra/manageInfo.go:947-1061 | the reported status does not depend on the order in which the VM statuses arrived |
| MciStatus.WordInLabel | src/core/infra/control.go:782-787 | a transitional word occurs in a label if and only if it is the dominant status |
| MciStatus.GateOfVm | src/core/infra/control.go:717-780 | what a VM in each status accepts, for every spelling of action and status |
| MciStatus.GateOfMci | src/core/infra/control.go:734-802 | the same of a whole MCI |
| MciStatus.GateOfReport | src/core/infra/control.go:717-802 | for a reported status, a valid action is refused if and only if the dominant status is one of the five transitional ones |
| MciStatus.GatesDisagree | src/core/infra/control.go:734-802 | with all VMs suspended, or all terminated, the MCI gate lets through what the gate of every single VM refuses |
| Autoscaler.Controller.Evaluation | src/core/infra/orchestration.go:117-209 | one sample is put in front of the window, the window cut to the period, the mean compared, the verdict saved |
| Autoscaler.Controller.Visit | src/core/infra/orchestration.go:75-346 | what one visit does to the list in memory, the persisted list and the actions taken, effect by effect |
| Autoscaler.Controller.Tick | src/core/infra/orchestration.go:60-351 | a tick loads the persisted list and visits it in order |
| AutoscalerRuns.Detection | src/core/infra/orchestration.go:126-208 | after an evaluation the window is the newest values since it was cleared, up to the period, and the policy is in Error if and only if the period is zero or there are enough values and the operator is unknown, Detected if and only if there are enough and their mean is on the operator's side of the operand, and Ready in every other case; a mean that stands for too few counts as too few |
| AutoscalerRuns.TotalIsSum | src/core/infra/orchestration.go:139-160 | the mean is the sum divided by the number, and not a number if one of the values is none |
| AutoscalerWays.WholeVisit | src/core/infra/orchestration.go:75-346 | what an uninterrupted visit leaves in the store, in memory and in the log, for each status: Error for an MCI that is not found, Checking where monitoring fails, Stabilizing after an action, a cleared window after that |
| AutoscalerWays.PanickedVisit | src/core/infra/orchestration.go:117-138 | a negative period stops the process with Checking in the store |
| AutoscalerWays.PanicEndsTick | src/core/infra/orchestration.go:60-138 | and with it the tick: the policies after it are not visited |
| AutoscalerWays.ActionSteps | src/core/infra/orchestration.go:218-333 | the saves of an action in order, with an Error for every failure |
| AutoscalerWays.ActsIff | src/core/infra/orchestration.go:60-351 | from the start a policy acts in some run if and only if its period is at least one, its operator is one of the four and it has an action |
| AutoscalerRuns.StoredWindow | src/core/infra/orchestration.go:124-138 | in every reachable store, crashes anywhere, the window is the newest part of the values since it was cleared, a period's worth at least or all; and exactly the newest values up to the period if the first history was within it |
| AutoscalerRuns.Spacing | src/core/infra/orchestration.go:218-333 | two actions of a policy are at least its period apart, counted in evaluations, over all runs without a torn crash (between the saved error of an action and the save that overwrites it), and at least one evaluation apart over all runs at all |
| AutoscalerFaults.StuckInChecking | src/core/infra/orchestration.go:103-107 | an uninterrupted tick leaves a policy in Checking if and only if it was there, or its monitoring failed and no policy after it is saved in that tick |
| AutoscalerFaults.StuckForever | src/core/infra/orchestration.go:214-336 | no run takes a policy out of Checking, or out of an interrupted action |
| AutoscalerTorn.TornIff | src/core/infra/orchestration.go:280-333 | after a torn crash, in any reachable state and for any policy, some run has the policy act again after fewer evaluations than its period if and only if that is two or more |
| AutoscalerFaults.TornCrash | src/core/infra/orchestration.go:280-333 | for example with a period of two, an action that fails and a crash right after |
| LatencyMatrix.Build | src/core/infra/benchmark.go:404-431 | the matrix shows the digest of the replies: labels in order of first appearance, the latest value of each pair, blanks elsewhere |
| LatencyAlign.InPlaceNext | src/core/infra/benchmark.go:443-451 | a swap brings the row of the next column to its place, leaves the earlier ones where they are, and keeps the index right for every row |
| LatencyAlign.Align | src/core/infra/benchmark.go:438-453 | rows are only permuted; the header stays on top if and only if every column label is a row label, and then the row of each column stands at the column's place |
| LatencyFill.Rename | src/core/infra/benchmark.go:454-466 | labels up to the first blank column become region names in header and rows; all other cells stay |
| LatencyFill.Fill | src/core/infra/benchmark.go:468-479 | every cell after the in-place fill, as a function of the matrix before it |
| LatencyFill.FilledRows | src/core/infra/benchmark.go:468-479 | a missing row equals its column whatever else was missing, and rows that were there are untouched |
| LatencyFill.FillsAgree | src/core/infra/benchmark.go:332-340 | the fill that stops at a blank label and the one that does not give the same matrix if nothing lies beyond |
| LatencyFill.LatencyMap | src/core/infra/benchmark.go:404-479 | end to end, with every column label also a row label: names agree on rows and columns, and each cell is what was last reported for its pair, or for the reverse pair if the source's row was missing |
| LatencyFill.ValueIsLastReport | src/core/infra/benchmark.go:410-431 | a pair has a value if and only if it was reported, and then the last one reported |
| SubGroups.VmIdInjective | src/core/infra/provisioning.go:133-136 | group and index can be read off a VM id |
| SubGroups.NameTexts | src/core/common/utility.go:211-217 | underscores and spaces become dashes, capitals small letters |
| SubGroups.ValidNameIff | src/core/common/utility.go:190-209 | a name begins with a letter, ends with a letter or a digit, and has only these, dashes and pluses in between |
| SubGroups.Mci.CreateMciGroupVm | src/core/infra/provisioning.go:505-660 | refused for a name that is not valid, as it came or lowered, or an existing group not to be extended; otherwise group record and VM records are those of the request, in full |
| SubGroups.Mci.ExtendIds | src/core/infra/provisioning.go:133-136 | the ids from the start index on are appended to the record |
| SubGroups.Mci.DelMciVm | src/core/infra/manageInfo.go:2605-2634 | the VM record goes, and exactly the group records left without a VM |
| SubGroupRuns.IdsNeverCollide | src/core/infra/provisioning.go:576-623 | after any run of proper requests and deletions every group lists the ids from one to its size, and the next request's ids are new to every VM and to everything a living group ever listed |
| SubGroupRuns.NoIdTwice | src/core/infra/provisioning.go:621-623 | no group lists an id twice |
| SubGroupRuns.DistinctIff | src/core/infra/provisioning.go:604-623 | the ids of a group scaled out by any sizes are distinct if and only if its first size counts as at least one, or all sizes together have not come back up to one |
| SubGroupRuns.NewGroupCollidesIff | src/core/infra/provisioning.go:580-600 | after any run of requests and deletions, proper or not, a new group takes an id another group lists if and only if their names lower to the same id |
| StoreKeys.SplitJoin | src/core/common/utility.go:231-250 | a key made of parts without a slash splits back into them |
| StoreKeys.KeysAreInjective | src/core/common/utility.go:231-250 | namespace, MCI and id, if without slashes, are read off the key of a VM and off that of a sub-group |
| StoreKeys.KeysAreDisjoint | src/core/common/utility.go:231-250 | the records of VMs, sub-groups and MCIs never share a key |
| StoreKeys.ShorterKeys | src/core/common/utility.go:231-243 | without a VM the key is that of the MCI, and without an MCI that of the namespace |
| StoreKeys.SlashCollides | src/core/common/utility.go:231-243 | with a slash in an id, which the callers refuse, the keys of different VMs coincide |
| ProvisioningLog.History.RecordProvisioningEvent | src/core/infra/provisioning.go:4268-4353 | the store after an event, and when it reports success |
| ProvisioningLog.Overall | src/core/infra/provisioning.go:4637-4672 | the overall level is the higher of the two; the factor is none if and only if it is low, the combination if and only if that is new and the spec not low, and else the image if and only if it is strictly higher |
| ProvisioningLog.SpecLevelIff | src/core/infra/provisioning.go:4552-4586 | when the level of a spec is high and when it is low, by failed images, succeeded images and failure rate |
| ProvisioningLog.TenImagesAreHigh | src/core/infra/provisioning.go:4552-4672 | over every run, ten images that failed with a spec make it and the overall verdict high, whatever succeeded since |
| ProvisioningLog.LogIsSummary | src/core/infra/provisioning.go:4268-4353 | over every run a log counts the failures and the successes since the first failure, with as many timestamps, and lists without repetition exactly the images of each; it exists if and only if something failed |
| ProvisioningLog.LogKeeps | src/core/infra/provisioning.go:4268-4353 | over every run a log lists the times of its failures and of the successes since the first failure, and the messages of the failures, each in order |
| ProvisioningLog.NewCombinationIff | src/core/infra/provisioning.go:4442-4549 | without a log that can be read every level is low; the combination is new if and only if the image is in none of the recorded events |
| ProvisioningLog.RateIsPositive | src/core/infra/provisioning.go:4580-4586 | the branch for a failure rate of zero is never reached from a recorded log |
| ProvisioningLog.HighOnceFailed | src/core/infra/provisioning.go:4442-4612 | the image verdict is high if and only if the log can be read and a recorded event failed with that image, and then the overall verdict is high |
| ProvisioningLog.FailureStays | src/core/infra/provisioning.go:4442-4549 | read, it stays high under everything but the deletion of the log |
| ProvisioningLog.FailureLowersRiskIff | src/core/infra/provisioning.go:4552-4586 | a failure lowers the spec's level if and only if it brings a third failed image where none succeeded, or a fifth where some did, at a rate of at least four in five |
| RecentMessages.RecentUniqueMessages | src/core/infra/provisioning.go:4846-4878 | the distinct non-blank messages of the window, the newest ones if there is not room for all, each at its latest place, oldest first |
| RecentMessages.TrimIs | src/core/infra/provisioning.go:4846-4878 | trimming takes white space off both ends and nothing else |
| RecentMessages.WindowIs | src/core/infra/provisioning.go:4846-4878 | the window is the last messages, twice as many as there is room for, or all |
| RecentMessages.NewestIsLast | src/core/infra/provisioning.go:4872-4875 | the most recent message comes last |
| Glob.MatchesIffSplits | src/core/common/utility.go:1797-1805 | a text matches a pattern, character by character, if and only if it splits into the pattern's literal parts with gaps at the stars |
| Glob.LeftmostFirst | src/core/common/utility.go:1831-1845 | if the parts can be placed in order at all, they can with the first at its leftmost occurrence |
| Glob.StarredPattern | src/core/common/utility.go:1814-1829 | stripping prefix and suffix, which may not overlap, leaves the middle parts to be placed in between |
| Glob.MatchesPattern | src/core/common/utility.go:1799-1848 | true if and only if the lowered text matches the lowered pattern |
| Glob.CheckBasicOSImage | src/core/common/utility.go:1744-1795 | true if and only if some OS type includes the image without excluding it and no earlier one includes or excludes it |
| Glob.OwnListsFirst | src/core/common/utility.go:1759-1775 | a provider's own list of one kind, unless empty, takes the place of the common list of that kind only |
| Versions.CompareVersions | src/core/common/utility.go:1655-1685 | -1, 1 or 0 as the first version is less than, greater than or the same as the second in the lexicographic order of their numbers, continued with zeros |
| Versions.Trichotomy | src/core/common/utility.go:1655-1685 | exactly one of the three holds |
| Versions.Transitive | src/core/common/utility.go:1655-1685 | the order is transitive, also across sameness |
| Versions.LessFirst | src/core/common/utility.go:1655-1685 | the first numbers decide and, if they are the same, the rest; against nothing, as against zeros |
| Versions.DotZero | src/core/common/utility.go:1659-1674 | appending ".0" changes nothing |
| Versions.FilteredParts | src/core/common/utility.go:1650-1653 | filtering a text is filtering its parts |
| Versions.LettersInside | src/core/common/utility.go:1650-1653 | a character other than a digit or a dot is dropped and does not end the version |
| Versions.RecommendVersion | src/core/infra/provisioning.go:3661-3704 | without a request the first available id of maximal version, an error if and only if none exceeds zero; with a request the first id equal to it but for case, or the digits and dots of the first with its prefix |
| Versions.AnswersAreIdsIff | src/core/infra/provisioning.go:3686-3693 | every request is answered with an available id if and only if of every id the digits and dots are an available id, or none, or a prefix of those of an earlier one |
| Versions.PlainIds | src/core/infra/provisioning.go:3686-3693 | so it is where ids consist of digits and dots |
| Versions.NotAnId | src/core/infra/provisioning.go:3689-3693 | and is not with the single id "v1" |
| Ranking.AssignRanks | src/core/infra/recommendation.go:263-289 | every spec gets the rank of its distance, one more than the steps beyond the tolerance below it, in 16 bits, with its distance and score |
| Ranking.RankIff | src/core/infra/recommendation.go:583-596 | one distance ranks before another if and only if there is a step between them |
| Ranking.RanksAreDense | src/core/infra/recommendation.go:263-274 | without tolerance the ranks are exactly one to the number of distinct distances |
| Ranking.StoredInOrderIff | src/core/infra/recommendation.go:281-282 | the stored ranks order specs as their distances do if and only if there are at most 65535 distinct distances |
| Ranking.Scores | src/core/infra/recommendation.go:276-286 | scores lie in zero to one, zero for the farthest, and a nearer spec scores higher |
| Ranking.StrictWeakOrderIff | src/core/infra/recommendation.go:298-317 | the final comparator is a strict weak order if and only if there is at most one negative cost |
| Ranking.SortedThroughout | src/core/infra/recommendation.go:298-317 | then a list without neighbours out of order is sorted throughout: by rank, within a rank by cost with unknown costs last, within a cost by vCPU, then by memory |
| Ranking.NearestFirstIff | src/core/infra/recommendation.go:263-317 | so the final list is ordered by distance if and only if there are at most 65535 distinct distances |
| Ranking.NotSorted | src/core/infra/recommendation.go:298-317 | with two it need not be |
| Ranking.CheaperIsStrictWeakOrder | src/core/infra/recommendation.go:1195-1203 | the comparator of the ranking by cost is a strict weak order on all specs, unknown costs tying |
| Ranking.CheaperIff | src/core/infra/recommendation.go:1195-1203 | a known cost comes before a larger one and before an unknown one, and nothing else does |
| Ranking.UnknownLast | src/core/infra/recommendation.go:1195-1203 | so a sorted list has the known costs first, in order |
| Ranking.CostScoreIff | src/core/infra/recommendation.go:1205-1211 | cheaper specs score higher if and only if the last cost is not below the first by more than the added constant, so an unknown cost at the end turns the scores around |
| Ranking.KnownCosts | src/core/infra/recommendation.go:1205-1211 | with all costs known the scores are the right way round |
| SpecFilter.Request.ApplyFilterPolicies | src/core/infra/recommendation.go:47-107 | succeeds if and only if every condition names a field and, on a range, has a number and one of three operators; then the ranges are the fold of the plan |
| SpecFilter.FoldIsLast | src/core/infra/recommendation.go:81-107 | the folded range of a field has on each side the last bound set |
| SpecFilter.FieldsOfRequest | src/core/model/spec.go:196-231 | the eighteen fields that take a bound and the sixteen that do not |
| SpecFilter.FieldOf | src/core/infra/recommendation.go:37-44 | a metric names the field that begins with its capital |
| SpecFilter.UsableIff | src/core/infra/recommendation.go:47-107 | a condition is usable if and only if it names a field and, on a range, has a number and one of three operators |
| SpecFilter.FilterMeaning | src/core/resource/spec.go:2366-2377 | the filter never drops a spec that meets every condition, and admits exactly those if each side is bounded at most once, by something other than zero |
| K8sFilter.ValidateK8sMinimumRequirements | src/core/infra/recommendation.go:1247-1301 | refused if and only if an operand on either metric is below the minimum; otherwise the minimum is added for each metric the plan does not mention |
| K8sFilter.GuaranteeIff | src/core/infra/recommendation.go:47-107 | a plan guarantees a minimum on a field if and only if the bounds last set on it, under any spelling of the metric, have a lower one at least as large or exclude each other |
| K8sFilter.PlainGuaranteeIff | src/core/infra/recommendation.go:1264-1288 | with one spelling only and nothing below the minimum, if and only if there is a lower bound or an equality |
| K8sFilter.K8sGuarantee | src/core/infra/recommendation.go:1235-1301 | every plan, whatever spellings it uses, admits only specs with two vCPUs and four GiB if and only if on each the lower bound last set is at least that, or the bounds last set exclude each other |
| K8sFilter.PlainK8sGuarantee | src/core/infra/recommendation.go:1235-1301 | an accepted plan with the two metric names only, if and only if whatever it says of each includes a lower bound or an equality |
| K8sFilter.AliasBreaksIt | src/core/infra/recommendation.go:37-59 | a plan that mentions both metrics and then sets a lower bound below two under the alias "VCPU" is accepted like the plan without it and no longer safe, unless upper bounds exclude everything |
| SchemaDiffEnds.EndsIff | docs/docs_tools/swagger-diff-analyzer.py:872-1009 | the comparison of two schemas ends if and only if it follows no path on which it meets the same pair of resolved schemas twice |
| SchemaDiffEnds.NestedNeverEnds | docs/docs_tools/swagger-diff-analyzer.py:1000-1006 | a definition with itself as a property in both versions is never compared to the end |
| SchemaDiffEnds.AccessInfoNeverEnds | src/interface/rest/docs/swagger.yaml:15667-15677 | the API has one, `model.MciAccessInfo` |
| SchemaDiffEnds.NetworkEnds | src/interface/rest/docs/swagger.yaml:19486-19496 | it also has one with itself as array items, `netutil.Network`: its comparison ends at the second level, although following the references of either side does not |
| SchemaDiffEnds.DepthIff | docs/docs_tools/swagger-diff-analyzer.py:842-862 | following all properties, items and references of one schema ends if and only if no chain of references from it meets a definition twice |
| SchemaDiffEnds.AcyclicEnds | docs/docs_tools/swagger-diff-analyzer.py:872-1009 | where that is so on both sides, the comparison ends |
| SchemaDiffEnds.RankedIff | docs/docs_tools/swagger-diff-analyzer.py:842-862 | following the references of one specification ends from every schema if and only if its definitions can be ranked so that each refers below it only to lower ones |
| SchemaDiffEnds.RankedIsDeep | docs/docs_tools/swagger-diff-analyzer.py:842-862 | one such ranking is enough |
| SchemaDiffProofs.BoundIrrelevant | docs/docs_tools/swagger-diff-analyzer.py:872-961 | where the comparison ends, its result does not depend on the bound used to show that |
| SchemaDiffProofs.SelfIsEmpty | docs/docs_tools/swagger-diff-analyzer.py:872-961 | where the comparison of a schema with itself ends, it finds no difference |
| SchemaDiffProofs.CompareMirrored | docs/docs_tools/swagger-diff-analyzer.py:872-1009 | comparing the other way round ends as well, and finds the same changes with added and removed exchanged, at every depth |
| SchemaDiffProofs.EmptyIff | docs/docs_tools/swagger-diff-analyzer.py:872-1009 | the result is empty if and only if the resolved schemas agree on everything compared at the end of every path the comparison follows |
| SchemaDiffFindings.ReportIsExact | docs/docs_tools/swagger-diff-analyzer.py:872-1009 | at the end of every path the comparison follows, the report lists a field if and only if its values differ, a required, enumerated or property name as added or removed if and only if only the new or only the old side has it, and a property or the items as modified if and only if something differs there or further down |
| SchemaDiffFindings.FollowedIff | docs/docs_tools/swagger-diff-analyzer.py:898-925 | the comparison follows a property if and only if both sides have it, and the items if and only if one side is an array and they are not written the same |
| SchemaDiffFindings.ResolvedIff | docs/docs_tools/swagger-diff-analyzer.py:842-862 | a reference stands for its definition if there is one, and nothing else is replaced |
| SchemaDiffProofs.EmptyMeansAgreement | docs/docs_tools/swagger-diff-analyzer.py:872-1009 | after an empty result whatever a path leads to in one specification is in the other and agrees with it, except below items written the same |
| SchemaDiffProofs.ChangeBelowItems | docs/docs_tools/swagger-diff-analyzer.py:916-923 | below such items any change of the definition referred to goes unnoticed |
| EndpointDiff.FindMovedEndpoints | docs/docs_tools/swagger-diff-analyzer.py:222-268 | moves pair removed and new endpoints one to one, each pair above the threshold, and no pair left over is |
| EndpointDiff.AnalyzeEndpointChanges | docs/docs_tools/swagger-diff-analyzer.py:533-577 | every old endpoint is removed, moved or kept, every new one added, moved to or kept, and never two of them |
| EndpointDiff.Balance | docs/docs_tools/swagger-diff-analyzer.py:533-560 | old endpoints and additions number as many as new endpoints and removals |

## Left out

- Text is ASCII; case folding, trimming and splitting beyond it are not modelled.
- Numbers with a fraction (measurements, costs, distances, rates, operands) are reals: rounding, infinities and, outside the autoscaler, NaN are not modelled. The sum of the sizes of a sub-group is taken to fit 64 bits.
- The scheduler's `saveJobToStore` copies the job field by field; the copy is taken as one step, the put as another, and other steps may come between the two. The saves of a creation and of an update are one step with them, as are the other locked sections. Timestamps, timeouts and the texts of errors and results are left out, as is the work of a task.
- `loadJobsFromStore`: records that do not parse, and a failed listing, are not modelled.
- `CreateVm`: the answers of CB-Spider and the writes of the record are modelled; data disks, labels and the assignment of a bastion are not.
- `ControlVmAsync` and `FetchVmStatus` read the record more than once before they write; each is atomic between its writes, so a race between two of its reads is not modelled. System messages and the VM's other fields are left out.
- The rate limiter is modelled with one outcome per VM; the per-VM results that control and status calls collect, and the summary counts of `ControlVmsInParallel`, are not.
- GetMciStatus for an MCI without VMs, which keeps or resets the stored text, and the choice of a master VM are left out.
- The autoscaler's saves are taken to succeed; what an action does to the MCI, and edits of a policy between ticks, are not modelled. Samples are kept as numbers, not as the text they are stored in.
- Autoscaler.Controller.Tick: one MCI at a time; several MCIs and namespaces follow one another independently.
- LatencyMatrix.Build: labels, and the region names put in their place, are non-empty and fewer than 300 of each kind, which the code needs not to panic or to stop early; whether the last label lookup failed, and so an error is returned after all, is not modelled.
- SubGroups.Mci.CreateMciGroupVm: store failures, and VM requests of size zero in `CreateMci`, which make a VM without a group, are left out.
- The texts of risk messages and recommendations, and the repair of corrupted provisioning logs, are left out.
- Ranking.AssignRanks: the first sort by cost indexes the wrong list and only shuffles; any sorted order of the distances is allowed for. An empty list, on which the code panics, is excluded.
- SpecFilter: conditions on text fields set no bound and are not followed into the query.
- SchemaDiff: the interpreter's limit on nested calls is not modelled, only whether the recursion ends. The two prefixes of references are not parsed, a specification is a map from reference texts to definitions; list-valued `required` and `enum` are compared as sets, as the code does; what is written but not compared (other keys, the order of lists) is one map of texts, which counts only where items are compared whole.
- EndpointDiff: the similarity score is any function; the changes inside a kept endpoint are not compared.
- RSA and AES credential handling, configuration, namespaces, NLB, SSH, SQL ordering clauses, geographic distance, OS information extraction and report texts are left out.
