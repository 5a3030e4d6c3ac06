# A verified model of io-thread-controller

io-thread-controller is a daemon that sizes the I/O worker pools of virtual
machines. On every poll it refreshes each VM, asks a scaling engine for a
decision, applies the decisions that pass its guards, and tells the engine what
became of them. This project models that closed loop and the state machines it
rests on, and proves what they guarantee over whole runs.

`dafny verify dfyconfig.toml` checks everything.

## The modules

| module | what it holds |
|---|---|
| `Common` | saturating machine integers, powers of two, lists of names |
| `Threshold` | the threshold engine's operations as functions on one VM's record |
| `ThresholdEngines` | the engine as it is written: a table of mutable records, proved against `Threshold` |
| `EngineHistory` | the engine's state and decisions told from the outside, as observers over the history of a VM |
| `BaselineHistory`, `LoopBaselines` | where every stored IOPS baseline was measured, and exactly when its window saw one pool size |
| `Sizing`, `Convergence`, `LoopConvergence` | the size the pool moves to, how fast it gets there, and that the real pool never overshoots it |
| `ControlLoop` | refresh, guards, plan, feedback, ownership commit and inventory sync as functions |
| `Controllers` | the controller as it is written, proved against `ControlLoop` |
| `PlanTheorems` | what the plan of one tick guarantees |
| `ClosedLoop` | engine, controller and backend of one VM over runs; every fleet tick is such a step for each VM |
| `Cooldowns`, `Rediscovery` | what the cooldown covers, and what a rediscovery makes of it, of a hold and of a validation |
| `FleetRuns` | inventory and ownership over runs of the daemon with restarts |
| `FleetBounds` | the pool bounds, and unmanaged VMs, over runs of the whole daemon |
| `FleetProgress` | a fleet under the limit on adjustments reaches its ideal sizes |
| `FleetLoops` | the daemon simulates the loop of each VM, so that every theorem about loops holds of it |
| `LostRevert` | a run of the daemon in which a decided revert is lost |
| `Ownership` | the ownership registry and its store |
| `RoundRobin`, `IothreadIds`, `QemuClient` | the QEMU resize protocol under failing calls |
| `Rolling` | the trimmed sample history behind the 1, 5 and 15 minute figures |

## How the model reads the source

- Utilisation, thresholds, gains and host CPU are reals; times are nanoseconds
  since some origin, counted in unbounded naturals. Poll counts and worker
  counts are `u32` with saturation written out. I/O counters are naturals,
  clipped to `u64` where the source saturates.
- `low_util_polls += 1` is modelled as the wrap-around of a release build (a
  debug build would stop with a panic after 2^32 low polls).
- Everything a tick reads from outside is an input: snapshots, clock readings,
  host CPU, the enumeration order of the hash maps, the answer of the backend
  to each resize and the result of saving the registry. All of them are
  arbitrary unless a lemma says otherwise.
- Where the controller calls library sorts the model uses functions
  (`SortIds`, `SortPlan`), and proves of each that it sorts and permutes.
- The monitor of a VM executes what it is told, however unsafe, or fails
  without effect; which calls fail is an arbitrary function of the call number.
  Like QEMU it refuses a second object with the same id.
- `Controllers.Controller` keeps each VM's status as a value in its map; the
  source keeps it behind a shared, locked record.

## Where the code and its documentation differ

The model follows the code. README.md below is the repository's own.

- README.md:171-173 says that what the per-poll limit leaves over is
  reconsidered on the next poll. This holds of scale-ups and scale-downs
  (`EngineHistory.UnappliedReconsidered`) and never of reverts: the pending
  validation is consumed when the `Revert` is decided
  (src/engines/threshold.rs:751), so a skipped or failed revert is lost
  (`EngineHistory.RevertNotRepeated`; `LostRevert.RevertLostToCap` is a run).
- README.md:221-222 says that a scale-up is reverted unless IOPS gained enough.
  An action applied before anything was measured has the baseline 0 and is
  always kept: in the first evaluation of a VM, and in the grace after a
  reverted scale-up (`BaselineHistory.IsolatedBaseline`,
  `BaselineHistory.UnmeasuredIsKept`; `LoopBaselines.UnmeasuredGrowthIsKept` is
  a run).
- src/engines/threshold.rs:255 calls the baseline the rate observed before the
  action. Feedback on a failed resize keeps the window open
  (src/engines/threshold.rs:879-880), also when the backend failed partway and
  left another pool size, so the rate can mix two sizes
  (`LoopBaselines.FailedShrinkInsideWindow` is a run).
  `LoopBaselines.BaselineSeesOnePoolExactly` gives the exact condition.
- README.md:166-169 says that the cooldown blocks further scaling until it
  expires. It is kept in the VM's record, which a failed refresh drops
  (src/controller.rs:563-576); rediscovery starts without it
  (`Cooldowns.RediscoveryForgetsCooldown` is a run, and
  `Cooldowns.CooldownCoversExactly` the exact condition).
- README.md:227-232 promises the hold after a reverted scale-up, and
  README.md:218-222 the validation of every action. Both live in the engine's
  record, which the same failed refresh drops
  (`Rediscovery.RediscoveryForgetsHold` and
  `Rediscovery.RediscoveryForgetsValidation` are runs).
- src/engines/mod.rs:235-237 says that VMs the backend does not manage are not
  evaluated. The code tests a field that is always true (src/instance.rs:193),
  so they are evaluated (`ClosedLoop.UnmanagedIsEvaluated`), and the
  controller's guard stops each decision (`FleetBounds.UnmanagedOverRuns`).
- `scale_up_threshold_percent` may be 100. A pool whose load exceeds its workers
  then still never grows; `Convergence.GrowsIffHeadroom` gives the exact
  condition.
- The names of the fallback counter, `iot-extra-N`, are unique within one
  process only. `IothreadIds.NextIdFreshExactly` says when the next id is
  unused among all objects of a VM; the monitor refuses one that is used.

## Model

| member | source | states |
|---|---|---|
| `EngineHistory.BackoffExact` | src/engines/threshold.rs:159-167 | the saturating doubling equals the doubling in unbounded integers below the cap, also when the failure count itself has saturated |
| `EngineHistory.GraceExact` | src/engines/threshold.rs:581-592 | grace and recovery together are exactly the backed-off hold, so splitting it loses nothing |
| `EngineHistory.SustainExact` | src/engines/threshold.rs:594-602 | the sustain length after any number of failed scale-downs is the exact backoff |
| `EngineHistory.ValidationExact` | src/engines/threshold.rs:495-502 | an action is watched for exactly the configured delay plus the delay per thread of the resulting pool, clipped once |
| `EngineHistory.CheckedExactly` | src/engines/threshold.rs:889-893 | an applied `Up` is validated if and only if a gain is configured, an applied `Down` if and only if a drop is |
| `EngineHistory.RateIsNearest` | src/engines/threshold.rs:433-444 | a measured rate is a nearest integer to operations over time, clipped exactly where the exact figure passes a `u64`, and 0 over no time |
| `EngineHistory.RegressedExactly` | src/engines/threshold.rs:530-566 | a scale-up regressed if and only if its relative gain over a measured baseline is below the configured one; a scale-down if and only if the pool is busier than the threshold and its relative loss is above the configured one |
| `EngineHistory.RegressionMonotone` | src/engines/threshold.rs:530-579 | no baseline, no revert; more IOPS never turns keeping into reverting; a shrink that lost nothing is kept and a grow that gained nothing is reverted |
| `EngineHistory.ValidationFollowsHistory` | src/engines/threshold.rs:248-261 | over every history, an action is pending if and only if the last applied one is still inside its validation, with that action's count, sample and remaining polls |
| `EngineHistory.SettlingVerdict` | src/engines/threshold.rs:751-801 | a `Revert` is decided only when a validation settles, and restores the count before the validated action |
| `EngineHistory.ValidationLasts` | src/engines/threshold.rs:751-801 | an applied checked action is followed by exactly its validation length of no decision; the next evaluation restores the count before it if and only if it gained too little, or the busy pool lost too much |
| `EngineHistory.SingleOutstanding` | src/engines/threshold.rs:865-906 | a pending validation never coexists with a hold or with shrink evidence |
| `EngineHistory.CountersFollowHistory` | src/engines/threshold.rs:300-305 | each failure counter is the number of reverted actions since the last kept one or applied opposite one, clipped to `u32` |
| `EngineHistory.LowRunFollowsHistory` | src/engines/threshold.rs:811-815 | the sustain counter is the length of the current run of shrinkable evaluations; decisions that were not applied do not reset it |
| `EngineHistory.DownExactly` | src/engines/threshold.rs:853-862 | `Down` is decided, to the feasible target, if and only if nothing is being validated, a smaller pool is enough, and the run has reached the backed-off sustain length |
| `EngineHistory.UpExactly` | src/engines/threshold.rs:817-851 | `Up` to one worker more is decided if and only if nothing validates or holds it, every worker is busier than the threshold, the maximum is not reached, and configured throttling does not forbid it |
| `EngineHistory.HoldFollowsHistory` | src/engines/threshold.rs:377-430 | what is left of a hold, read off grace or recovery, is what the history says |
| `EngineHistory.HoldBlocksExactly` | src/engines/threshold.rs:386-430 | the k-th consecutive failed scale-up blocks `Up` for exactly its hold length of evaluations and not in the next, unless a `Down` is applied or the VM is rediscovered first |
| `Rediscovery.RediscoveryForgetsHold` | src/controller.rs:563-576 | a run in which a reverted scale-up is applied again one poll later because the VM was rediscovered between, and would have been held otherwise |
| `Rediscovery.RediscoveryForgetsValidation` | src/controller.rs:563-576 | a run in which a scale-up that would have been reverted is followed by another because the VM was rediscovered before the verdict |
| `EngineHistory.HoldCountsDown` | src/engines/threshold.rs:803-809 | while the VM stays known and no `Down` is applied, each evaluation of a hold uses up one of its polls and nothing is validated |
| `EngineHistory.UnappliedReconsidered` | src/engines/threshold.rs:347-362 | an `Up` or `Down` that was not applied is decided again as long as its reason lasts |
| `EngineHistory.RevertNotRepeated` | src/engines/threshold.rs:751-801 | a `Revert`, applied or not, is followed by no other until another action is applied |
| `LostRevert.RevertLostToCap` | src/controller.rs:616-625 | a run of the daemon from its start in which a planned `Revert` falls to the limit of one adjustment, is never attempted, and the next poll finds the pool as it was and attempts nothing |
| `BaselineHistory.WindowsStayAnchored` | src/engines/threshold.rs:341-375 | every open measurement window starts at a sample after which no action was applied |
| `BaselineHistory.IsolatedBaseline` | src/engines/threshold.rs:803-809 | the rate an applied action is validated against runs from exactly the window the history leaves open, in which nothing was applied; it is 0 whatever the I/O was if and only if the VM was new or in the grace after a reverted scale-up |
| `BaselineHistory.UnmeasuredIsKept` | src/engines/threshold.rs:544-561 | an action applied with nothing measured is never reverted |
| `BaselineHistory.WindowFollowsHistory` | src/engines/threshold.rs:341-430 | the open window in the record is the one the history says, through validation, grace and recovery |
| `LoopBaselines.BaselineSeesOnePoolExactly` | src/engines/threshold.rs:879-905 | in every run of the loop a baseline is 0 if nothing was measured; otherwise its window sees one real pool size after its first tick if and only if every resize that failed since left the count as it was, and from its first tick on if and only if that tick resized nothing either |
| `LoopBaselines.OnePoolExactly` | src/controller.rs:862-876 | a stretch of ticks sees one pool size if and only if none of them applied a new count and every failed resize left the old one |
| `LoopBaselines.FailedShrinkInsideWindow` | src/engines/threshold.rs:879-880 | a run in which a shrink fails partway inside the window, and the next applied action is validated against a rate measured across it |
| `LoopBaselines.UnmeasuredGrowthIsKept` | src/engines/threshold.rs:543-546 | a run in which the first poll of a busy VM adds a worker, not one operation completes until its validation, and the worker is kept |
| `BaselineHistory.HoldShape` | src/engines/threshold.rs:386-430 | an undisturbed hold is grace, then a recovery window anchored at the first evaluation after grace |
| `BaselineHistory.RecoveryBaseline` | src/engines/threshold.rs:411-428 | an undisturbed hold publishes a rate over exactly the recovery's evaluation intervals and no grace sample |
| `Sizing.SaturatedCannotShrink` | src/engines/threshold.rs:739-740 | a pool busier than the threshold has no smaller feasible size, so the two decisions exclude each other |
| `Sizing.CanShrinkExactly` | src/engines/threshold.rs:504-518 | the pool can shrink if and only if some smaller size within the minimum carries the load at the threshold |
| `Sizing.ShrinksToSmallestAllowed` | src/engines/threshold.rs:504-528 | a shrink leaves a pool that carries the load, and no smaller pool would, unless the minimum or the step limit stopped it first |
| `Sizing.MovesTowardsIdeal` | src/engines/threshold.rs:504-528 | under constant load growing is possible exactly below the ideal size, shrinking exactly above it and never past it |
| `Convergence.DecisionApproaches` | src/engines/threshold.rs:817-862 | under constant load every `Up` or `Down` uses up exactly one of the steps to the ideal size and does not cross it |
| `Convergence.GrowsIffHeadroom` | src/engines/threshold.rs:190-198 | below its ideal size an unheld pool grows if and only if the threshold is below 100 percent |
| `Convergence.PoolApproaches` | src/engines/threshold.rs:726-906 | under constant load, over every run with any blocked, capped or failed decisions and any reverts, the pool stays between its start and the ideal size; each applied `Up` or `Down` uses up one step and each applied `Revert` gives one back |
| `LoopConvergence.NeverOvershoots` | src/controller.rs:827-876 | the same range holds of the real pool over every run of the loop, resizes that fail partway included |
| `Convergence.OneEvaluationCloser` | src/engines/threshold.rs:726-863 | from any history, with its validation, hold and backed-off evidence, each evaluation that reverts nothing brings the ideal size exactly one evaluation closer; exactly those whose decision is not applied, or whose growth is throttled, cost one instead |
| `Convergence.ReachesIdealExactly` | src/engines/threshold.rs:726-863 | from any history on, while nothing is reverted, the pool has the ideal size from exactly the predicted number of unhindered evaluations on and not before |
| `Convergence.RevertSetsBack` | src/engines/threshold.rs:778-799 | what a `Revert` costs: the next move waits out the hold, or takes the longer evidence |
| `Convergence.TimeWithoutValidation` | src/engines/threshold.rs:811-862 | without validation that is one evaluation per added worker, or the sustain length for each shrink |
| `ThresholdEngines.InstanceState.StartValidation` | src/engines/threshold.rs:323-339 | the pending action holds what it was started with |
| `ThresholdEngines.InstanceState.ResetBaselineWindow` | src/engines/threshold.rs:341-345 | a fresh window with no rate, everything else unchanged |
| `ThresholdEngines.InstanceState.ResetAfterApplied` | src/engines/threshold.rs:347-362 | an applied `Up` or `Down` consumes the evidence of both directions as specified; other actions consume nothing |
| `ThresholdEngines.InstanceState.RefreshBaselineRate` | src/engines/threshold.rs:364-375 | the rate runs from the window's start, or the window starts here |
| `ThresholdEngines.InstanceState.BeginPostRevertUpHold` | src/engines/threshold.rs:377-384 | a hold begins with its grace and without a window |
| `ThresholdEngines.InstanceState.AdvancePostRevertUpHold` | src/engines/threshold.rs:386-430 | one evaluation of grace or recovery, and whether scale-up stays blocked |
| `ThresholdEngines.ThresholdEngine.Evaluate` | src/engines/threshold.rs:726-863 | the decision and new record of the evaluated VM are those of the specification; every other VM's record is unchanged |
| `ThresholdEngines.ThresholdEngine.SettleEntry` | src/engines/threshold.rs:757-800 | keeping or reverting a settled action updates counters, window and hold as specified |
| `ThresholdEngines.ThresholdEngine.OnApplied` | src/engines/threshold.rs:865-906 | feedback changes only a known VM's record, and only for an applied `Up` or `Down` |
| `ThresholdEngines.ThresholdEngine.OnInstanceAdded` | src/engines/threshold.rs:908-913 | a record exists afterwards; one that existed is kept |
| `ThresholdEngines.ThresholdEngine.OnInstanceRemoved` | src/engines/threshold.rs:915-917 | exactly that record is gone |
| `PlanTheorems.PlanHoldsFirstDecisions` | src/controller.rs:584-613 | the plan holds exactly the first decision of each VM that asks for another size, in order |
| `PlanTheorems.PlanOncePerVm` | src/controller.rs:584-594 | no VM is planned twice, whatever the engine returned |
| `PlanTheorems.SortPlanSorts` | src/controller.rs:614 | the attempted order is a permutation of the plan with all shrinks first and decision order kept |
| `PlanTheorems.AttemptsArePrefix` | src/controller.rs:616-625 | the attempts are a prefix of the plan, at most the cap of them succeed, and only a reached cap cuts it short |
| `PlanTheorems.NoShrinkSkippedForGrow` | src/controller.rs:614-625 | if any grow is attempted, every planned shrink was |
| `PlanTheorems.AttemptsAreIndependent` | src/controller.rs:662-667 | each attempt acts on its own VM as it stood before the plan; all other VMs are untouched |
| `ClosedLoop.RefreshShows` | src/instance.rs:255-322 | the engine is shown the snapshot: its thread count, all its operations together, its throttling and its utilisation by source; a VM is classified once, and the rest of its record is left alone |
| `ClosedLoop.GuardReportsFirstViolation` | src/controller.rs:688-794 | a decision is attempted if and only if it violates no rule, and a blocked one reports the first rule it violates |
| `ClosedLoop.DryRunOnlyPretends` | src/controller.rs:796-825 | a dry run resizes nothing and keeps the size it saw |
| `ClosedLoop.PlanForIsSound` | src/controller.rs:583-614 | every planned item is its VM's own decision for another size of a pool without manual override |
| `ClosedLoop.TickProjects` | src/controller.rs:534-628 | a completed fleet tick is, for each refreshed VM, exactly one tick of that VM alone, and the attempts on it are that tick's |
| `ClosedLoop.TickActuations` | src/controller.rs:614-625 | in one tick no VM is attempted twice, the cap holds, shrinks precede grows, and no shrink is skipped for a grow |
| `ClosedLoop.TickKeepsOnlyRefreshed` | src/controller.rs:563-580 | after every tick exactly the VMs whose snapshot arrived are tracked |
| `ClosedLoop.StaysInBounds` | src/controller.rs:713-757 | from a pool inside the bounds, no run of ticks, rediscoveries and backend failures takes it outside min, max and vCPU count |
| `ClosedLoop.RevertNeverBlocked` | src/engines/threshold.rs:895-902 | in every run a decided `Revert` passes every guard, and without dry-run it is planned |
| `ClosedLoop.UnmanagedIsEvaluated` | src/engines/mod.rs:245-256 | an unmanaged VM is evaluated like any other: a completed tick leaves it the record of its evaluation |
| `ClosedLoop.UnmanagedNeverResized` | src/controller.rs:700-712 | while it stays tracked, a VM left to the operator keeps its pool and nothing is ever pending for it |
| `FleetBounds.UnmanagedOverRuns` | src/controller.rs:700-712 | once saved as unmanaged a VM is never resized: over every run of the daemon, with removals, rediscoveries, failed saves and restarts, its pool stays as it was and every attempt on it is blocked |
| `FleetProgress.PollLowersTotal` | src/controller.rs:616-625 | under constant loads, an accepting backend and no validation, each poll lowers the steps that separate the fleet from its ideal sizes by exactly the smaller of the limit and the plan |
| `FleetProgress.EveryVmBecomesIdeal` | src/controller.rs:583-625 | so no VM starves under the limit: after the sustain length for each step of the whole fleet every VM has its ideal size |
| `Cooldowns.CooldownCovers` | src/controller.rs:827-838 | while the VM stays tracked, the cooldown in force covers every earlier applied action, not just the last |
| `Cooldowns.CooldownCoversExactly` | src/controller.rs:827-838 | the cooldown of an action is in force if and only if it, or a later action, was not followed by a rediscovery |
| `Cooldowns.CooldownHolds` | src/controller.rs:758-772 | without a rediscovery between, an applied `Up` or `Down` comes at least the cooldown after every earlier applied action; a `Revert` is never delayed by it |
| `Cooldowns.RediscoveryForgetsCooldown` | src/controller.rs:563-576 | a run in which a rediscovery lets a scale-up follow another after one of thirty seconds |
| `ClosedLoop.LoopFollowsHistory` | src/controller.rs:583-625 | the engine inside the loop is the engine of the VM's history, so every theorem about histories holds of it |
| `FleetBounds.FleetStaysInBounds` | src/controller.rs:534-628 | over every run of the daemon with any fleet, failed saves, restarts and backend failures, a VM that starts in bounds stays there and no attempt to revert it is blocked |
| `FleetLoops.DaemonSimulatesLoop` | src/controller.rs:534-628 | over every run of the daemon, a tracked VM and its real pool are those of its own loop on inputs read off the events |
| `FleetLoops.DaemonFollowsHistory` | src/controller.rs:583-625 | the engine record of every tracked VM of the daemon is the one its history determines, so the theorems about histories hold of the daemon |
| `FleetLoops.DaemonIsFaithful` | src/controller.rs:554-561 | snapshots that report the real pool make a faithful run of the loop, so the theorems about bounds and baselines hold of the daemon |
| `FleetLoops.DaemonIsClocked` | src/controller.rs:758-772 | a clock that never goes back makes a clocked run of the loop, so the cooldown theorems hold of the daemon |
| `FleetRuns.AddingKeeps` | src/controller.rs:251-264 | adding tracks every discovered VM, keeps every tracked record and counts the new ones |
| `FleetRuns.AddingClosesSurplus` | src/controller.rs:252-255 | every surplus discovery is closed once and nothing else is |
| `FleetRuns.AddingRegistersFirst` | src/controller.rs:256-263 | a new VM is registered with its first client and its recorded classification, without cooldown or override and with a fresh engine record |
| `FleetRuns.SyncIsExact` | src/controller.rs:239-286 | a sync leaves exactly the discovered VMs, old ones with their record and engine state, new ones fresh |
| `FleetRuns.SyncCountsBalance` | src/controller.rs:239-286 | new size is old size plus added minus removed |
| `FleetRuns.CommitAgrees` | src/controller.rs:630-660 | classifications that agree with the registry commit without error and change nothing recorded |
| `FleetRuns.CommitDetects` | src/controller.rs:641-654 | a commit fails if and only if some listed VM contradicts what was recorded of it, and records only classifications that VMs carry |
| `FleetRuns.TickKeepsOwnership` | src/controller.rs:581-582 | after every completed tick each tracked VM's classification is saved, and a tick fails only by a failed save |
| `FleetRuns.OwnershipOverRuns` | src/state.rs:46-82 | over discovery, ticks, removal, rediscovery, failed saves and restarts, managed and unmanaged stay disjoint and memory equals disk while the daemon runs |
| `FleetRuns.PersistedForever` | src/state.rs:58-71 | a saved classification is never different afterwards |
| `FleetRuns.OwnershipChangedUnreachable` | src/controller.rs:643-648 | in no run does a tick find that ownership changed |
| `Ownership.VmOwnership.Record` | src/state.rs:58-71 | records a VM that had no classification, refuses one that had, and keeps the sets disjoint |
| `Ownership.VmStateStore.Load` | src/state.rs:98-112 | an absent file is an empty registry; an unreadable or unparsable one and one that overlaps are rejected, each as such |
| `Ownership.VmStateStore.Save` | src/state.rs:114-127 | replaces the whole registry, or changes nothing |
| `Controllers.Controller.Refresh` | src/controller.rs:554-580 | the inventory and the engine keep exactly the VMs whose snapshot arrived, refreshed; each other client is closed once |
| `Controllers.Controller.PersistNewClassifications` | src/controller.rs:630-660 | commits in fleet order, stops at a contradiction, saves only on a change |
| `Controllers.Controller.EvaluateFleet` | src/engines/mod.rs:233-261 | decisions in fleet order for every VM without override, each engine record advanced once |
| `Controllers.Controller.BuildPlan` | src/controller.rs:584-613 | the loop with its set of planned ids builds the specified plan |
| `Controllers.Controller.ApplyEngineDecision` | src/controller.rs:662-878 | guards, dry run, actuation, cooldown and feedback of one decision; no other VM changes |
| `Controllers.Controller.ApplyPlanItems` | src/controller.rs:616-625 | the capped loop makes the specified attempts |
| `Controllers.Controller.Tick` | src/controller.rs:534-628 | the whole tick is the specified one, its attempts and errors included; afterwards engine and inventory have the same keys |
| `Controllers.Controller.SyncInstances` | src/controller.rs:239-286 | the reconciliation is the specified one, with both counts; each surplus and each removed client is closed once |
| `Controllers.SyncDropsStale` | src/controller.rs:266-284 | dropping the unseen VMs in any enumeration order completes the sync |
| `Controllers.HandlesAreTheirs` | src/controller.rs:273-275 | the closed clients are those of the listed VMs, one for each and no other |
| `RoundRobin.RoundRobinVqMapping` | src/backends/qemu/helpers.rs:285-302 | the dealing loop computes the specified mapping |
| `RoundRobin.RoundRobinEntry` | src/backends/qemu/helpers.rs:297-300 | entry i names thread i and lists, ascending, exactly the queues congruent to i |
| `RoundRobin.RoundRobinPartitions` | src/backends/qemu/helpers.rs:285-302 | for any threads and queues each queue is in exactly one list, once |
| `RoundRobin.RoundRobinBalanced` | src/backends/qemu/helpers.rs:285-302 | list sizes differ by at most one, the larger first |
| `IothreadIds.NextQemuIothreadId` | src/backends/qemu/helpers.rs:304-316 | the scan finds the lowest unused number, else draws from the counter, which then grows |
| `IothreadIds.DecimalInjective` | src/backends/qemu/helpers.rs:309 | different numbers have different names |
| `IothreadIds.ManagedExactly` | src/backends/qemu/helpers.rs:75 | managed ids are `iot` and at least one digit |
| `IothreadIds.FreeBelowLimit` | src/backends/qemu/helpers.rs:308-313 | fewer than 1024 threads leave a number free |
| `IothreadIds.LowestFreeMeaning` | src/backends/qemu/helpers.rs:308-313 | the found number is unused and every smaller one is used |
| `IothreadIds.NextIdFreshExactly` | src/backends/qemu/helpers.rs:304-316 | the next id is unused among all objects if and only if a number below 1024 is free or the counter's name is |
| `QemuClient.SortIdsSorts` | src/backends/qemu/client.rs:98-100 | sorting the ids sorts them and permutes them |
| `QemuClient.IdLeqIsLexicographic` | src/backends/qemu/client.rs:100 | the order of ids is lexicographic by code |
| `QemuClient.NextIdAccepted` | src/backends/qemu/client.rs:96 | with fewer than 1024 threads, all of them cached, no object has the next id |
| `QemuClient.QemuInstanceClient.ScaleUp` | src/backends/qemu/client.rs:88-116 | on success one thread more, the queues dealt over all, and a safe device; on failure the mapping is untouched and the objects are as before, unless the deletion of the new thread failed too; an unused id and no fault mean success |
| `QemuClient.QemuInstanceClient.ScaleDown` | src/backends/qemu/client.rs:118-146 | the queues leave a thread before it is deleted; after every call the device is safe or as it was; a failure keeps objects and cache |
| `QemuClient.QemuInstanceClient.SetThreadCount` | src/backends/qemu/client.rs:193-220 | success means exactly the target, dealt over all threads; failure leaves the count between start and target, and cache and VM in agreement unless a rollback failed on the way up; under any failures the device is safe after every call from the first remap on, and before it as it was, so a safe device stays safe; without faults it succeeds |
| `QemuClient.GrowKeepsAgreement` | src/backends/qemu/client.rs:96-116 | a step up keeps the cache equal to the managed objects, and a failed one leaves at most one more |
| `QemuClient.ShrinkKeepsAgreement` | src/backends/qemu/client.rs:129-146 | a step down keeps the cache equal to the managed objects |
| `Rolling.RollingMetrics.PushFromProcfsDelta` | src/rolling.rs:43-82 | appends one interval or replaces the baseline, then trims |
| `Rolling.RollingMetrics.PushFromBackendUtil` | src/rolling.rs:84-119 | the same from backend utilisation |
| `Rolling.RollingMetrics.PushDelta` | src/rolling.rs:121-139 | the same from a computed delta, which leaves the counters' baseline alone |
| `Rolling.RollingMetrics.Trim` | src/rolling.rs:185-198 | pops exactly the leading samples older than 15 minutes |
| `Rolling.RollingMetrics.ComputeTotals` | src/rolling.rs:200-217 | saturating step by step is the exact sum clipped once |
| `Rolling.TotalsAreSums` | src/rolling.rs:200-217 | the totals are the operations, the CPU time and the elapsed time of the intervals since the start of the window |
| `Rolling.TrimIsInvisible` | src/rolling.rs:148-161 | under a clock that never goes back, for any window of at most 15 minutes, the trimmed and the complete history give the same totals, IOPS and CPU per I/O |
| `Rolling.HistoryIsBounded` | src/rolling.rs:185-198 | nothing is retained that is more than 15 minutes older than the newest sample |
| `Rolling.AppendsExactly` | src/rolling.rs:43-139 | a push appends an interval if and only if there was a push before it, the clock did not go back, and every counter it brings was known and did not fall; it measures from exactly those readings |
| `Rolling.IntervalCpuTime` | src/rolling.rs:72-73 | the CPU time of an interval is that of its ticks, or the busy share of all workers over the elapsed time, as a whole number of nanoseconds |
| `Rolling.CpuPerIoFloors` | src/rolling.rs:157-161 | CPU per I/O is the floor of the exact quotient of the sums in microseconds |
| `Rolling.IntervalsTelescope` | src/rolling.rs:53-118 | between baseline resets the intervals add up to newest minus oldest reading, in operations and in time |
| `Rolling.IntervalsContiguous` | src/rolling.rs:72-81 | between baseline resets each interval starts where the one before ended |
| `Rolling.IntervalsDisjoint` | src/rolling.rs:43-139 | over all pushes the retained intervals are ordered and disjoint |
| `Rolling.IopsIsExactAverage` | src/rolling.rs:148-155 | without a reset in the window, IOPS is the floor of the operations between the readings around it times 10^9 over the nanoseconds between them, clipped exactly where that passes a `u64` |

## Left out

- The D-Bus interface, manual resizes, logging, status lines and the terminal
  user interface: they do not decide anything modelled here. A manual override
  appears as the `sticky` flag, which the model never sets.
- Configuration files, their includes and the conversion of durations to polls:
  poll counts are given, and the bounds are those that validation accepts.
- Socket and libvirt discovery, `/proc`, cgroup and PSI reads, Prometheus and
  blockstats parsing: their results are arbitrary inputs.
- src/instance.rs:326-370, per-VM read and write rates, and per-worker
  utilisation: they feed displays and one input of a refresh.
- Floating-point rounding: reals instead of `f64`.
- JSON and the temporary file of a save: the registry file is one cell replaced
  atomically.
- Concurrent access to the locks: each method runs to its end.
- The backend of a controller decision answers accepted or not; the protocol of
  `QemuClient` is proved on its own, and its count between start and target is
  the assumption `ClosedLoop.Loop.Faithful` makes of a failed resize.
- ClosedLoop.StaysInBounds: needs a pool that starts inside the bounds and a fixed vCPU count; a pool below `min_thread_count - 1` only ever gets blocked proposals.
- Convergence.ReachesIdealExactly: times stretches in which nothing is reverted; whether a `Revert` comes depends on the IOPS measured, and what each costs is `Convergence.RevertSetsBack`.
- FleetProgress.EveryVmBecomesIdeal: with validation on, reverts can keep a VM from its ideal size for ever, so progress is stated without it.
- EngineHistory.DownExactly: the run length is compared in the width of the source's `u32` counter.
- Rolling.IopsIsExactAverage: `push_delta` carries no cumulative reading, so the telescoping statements are about the two cumulative pushes.
