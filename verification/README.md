# Nemor capacity pipeline and actuator: a Dafny model

This project models the parts of Nemor that decide how much memory a machine can
carry and that move processes between cgroups, and proves what they are meant to
guarantee. Run `dafny verify dfyconfig.toml`.

| file | models |
|---|---|
| `CgroupWorld.dfy`, `CgroupActuator.dfy` | the snapshot / mutate / read back / roll back transaction, recovery over many snapshots, whole runs of both |
| `TargetWorker.dfy` | the external target: main loop, two service threads and a command-writing controller as one interleaving step system |
| `RunOrder.dfy`, `CapacitySearch.dfy` | the seeded order of runs; the safe ceiling and the ten-level ladder |
| `OrderStatistics.dfy`, `CapacityEvaluation.dfy` | medians; boundaries, paired percentages and the verdict |
| `ScopeCleanup.dfy`, `CompositionExecutor.dfy` | the fail-closed scope cleanup; the run/level loop |
| `CapacityBenchmark.dfy` | the prepared plan, the executor, the evaluator and the final verification put together |
| `PressurePlan.dfy`, `PressureRun.dfy`, `Refinement.dfy` | headroom, level freezing and plan validation; the evidence contract and the simulated run; bracket refinement |
| `Orchestration.dfy` | the plan-only planner and the validator of its plans |
| `CanonicalJson.dfy`, `StatusContract.dfy`, `Decimal.dfy` | canonical JSON, STATUS files, lineage names |
| `MachineInts.dfy`, `Wrappers.dfy` | 64- and 128-bit arithmetic, optional values |

How the outside world enters. The in-memory cgroup backend of the repository is a
class with the same maps; which of its calls fail, and which inspections leave out
`memory.high`, are two arbitrary sets of call numbers fixed beforehand, so every
statement that does not mention `Quiet` or `AlmostQuiet` holds for any pattern of
failures. The systemd backend of the cleanup is an environment whose answer may be
different at every question. The host of the executor answers each (run, level)
once, so a function of the position is any behaviour at all; `None` and `false`
stand for an error anywhere in the step. Hashes are functions of what is hashed:
where the code compares digests the model compares the contents or takes the hash
as a parameter. Library sorting is an insertion sort. Rust's `u64`, `i64` and
`i128` are subset types, and every saturating, checked, wrapping or rounding
operation is written out. Beside the definitions stand lemmas that say in plain
numbers, field by field, what a table, a constant or a comparison of the code comes
to, so that changing one of them does not go unnoticed. Long source functions are split into a few methods here
so that each carries its own contract.

Findings that differ from what one might expect of the code:

- A process that is moved again while a snapshot of it is pending, into the same
  group or another, strays. `Run` shows that whoever came from outside the managed
  groups and never had two pending snapshots comes home, and `SecondApplyCannotBeUndone` what becomes of the others:
  undoing the first move brings the process home, and after that the second
  snapshot can be undone, which takes the process back into the first target, if
  and only if that group existed before and was not one the actuator may remove.
- Group limits are put back less reliably than processes. When two processes were
  moved into one group that outlives them, undoing both leaves the limits of the
  first move (`SharedTargetKeepsFirstLimits`). A failed apply that leaves no
  pending record leaves the requested limits behind exactly when the attaching call
  is the first to fail and one of the six calls after it fails too (`ApplyOne`).
- The simulated pressure run satisfies its own evidence contract only if the
  sampling interval divides the hold (or its first level is a contract failure):
  the sample count is rounded down and compared with one rounded up.
  `UnevenPlanFails` shows a valid plan for which it does not.
- An evaluation looks complete or censored if and only if all six runs are there
  and the last one climbed the ladder until it was stopped
  (`EvaluationLooksValidExactly`). If then only the last run's worker, cleanup or
  restore failed, the final verification refuses the evidence and nothing is
  written (`ExecuteBenchmark`); `NothingIsWritten` gives a host with which that
  happens on every plan.
- The planner's final self-check rejects one kind of input all other checks let
  through, combined evidence with at most one eligible component
  (`StrayEvidenceIsRefused` has an input), and the validator does not look for a
  target shared by page-out and merging (`SharingIsRefusedByThePlannerOnly` has
  one).
- The demonstrated gain is cast to 64 bits without a check. As an expression alone
  it can wrap exactly when the baseline median is below 200 bytes; executions never
  get there, because on a ladder a gain is only reported for a baseline median of at
  least 16 MiB (`LadderGainNeverWraps`).

## Model

| member | source | states |
|---|---|---|
| CgroupWorld.ManagedNamesStayInNamespace | crates/actuator/src/lib.rs:457-464 | a name the actuator accepts as managed has no path separator and lies in the nemor- namespace |
| CgroupWorld.ManagedNamesExactly | crates/actuator/src/lib.rs:457-464 | the managed names are the two slices, and the scopes with one of two prefixes and a body of letters, digits, dots, underscores and hyphens; no other name is managed |
| CgroupActuator.CgroupBackend.InspectGroup | crates/actuator/src/lib.rs:721-729 | an inspection fails on its scheduled call, changes nothing, and otherwise reports the group, possibly without memory.high |
| CgroupActuator.CgroupBackend.CreateManagedGroup | crates/actuator/src/lib.rs:730-748 | creation succeeds exactly for a managed name on a call that does not fail, and then the group is owned, empty and without limits; otherwise nothing changes |
| CgroupActuator.CgroupBackend.SetProperties | crates/actuator/src/lib.rs:749-765 | limits of one existing group are replaced, or nothing changes |
| CgroupActuator.CgroupBackend.AttachPid | crates/actuator/src/lib.rs:766-780 | a process leaves every group and enters one, or nothing changes |
| CgroupActuator.CgroupBackend.CleanupEmptyOwnedGroup | crates/actuator/src/lib.rs:787-803 | a group goes away only if owned and empty, and nothing else changes |
| CgroupActuator.SnapshotStore.Persist | crates/actuator/src/lib.rs:178-184 | a snapshot gets a fresh number and nothing else on record changes |
| CgroupActuator.PendingIsListed | crates/actuator/src/lib.rs:193-201 | the pending list holds each snapshot that is applied and not rolled back exactly once and nothing else |
| CgroupActuator.RollbackOne | crates/actuator/src/lib.rs:409-441 | under any failing calls: success is the complete recorded rollback, failure keeps the record and leaves the process where it was or where it belongs, a refused rollback touches nothing, and without failing calls an allowed one completes |
| CgroupActuator.ApplyOne | crates/actuator/src/lib.rs:314-407 | under any failing calls: an error leaves the process in place or a pending record of its original group; success is exactly the requested limits and placement, recorded, verified and pending; nobody else moves; one misbehaving call leaves the world untouched, undone or recorded; without any an admissible plan succeeds; a pending record holds the limits of before, and without one the requested limits stay exactly when the attaching call is the first to fail and one of the next six fails too |
| CgroupActuator.Recover | crates/actuator/src/lib.rs:443-454 | one result per pending snapshot, the record says which succeeded; without failing calls exactly the allowed rollbacks succeed and the world is that of all of them, and when none is refused nothing stays pending; with failing calls nobody who is accounted for is lost track of and no external group changes |
| CgroupActuator.Run | crates/actuator/src/lib.rs:314-454 | after any script of applies, recoveries and process exits with any calls failing, one failure-free recovery brings every surviving process home that came from outside the managed groups and never had two pending snapshots, leaves every surviving group with the limits the last of its rollbacks took down, and no external group was removed or limited differently; any consistent world with nothing on record is a start (FreshStart) |
| CgroupActuator.StrayedWasMovedAgain | crates/actuator/src/lib.rs:314-454 | a process comes to have two pending snapshots only by an apply to it while one of its snapshots is pending |
| CgroupWorld.RollbackUndoesApply | crates/actuator/src/lib.rs:409-441 | rolling back a successful apply restores every group, member and limit, except that a target left empty is gone |
| CgroupWorld.RollbackUndoesPreparation | crates/actuator/src/lib.rs:409-441 | the same for an apply that stopped before the process was moved |
| CgroupWorld.RollbackIsIdempotent | crates/actuator/src/lib.rs:409-441 | rolling back twice is rolling back once |
| CgroupWorld.RolledBackFrame | crates/actuator/src/lib.rs:409-441 | one rollback moves no other process, removes no unmanaged group and alters no other group's limits |
| CgroupWorld.RolledBackRemovesOnlyEmptyTargets | crates/actuator/src/lib.rs:787-803 | a group a rollback removes is its own target, owned, and without other members |
| CgroupWorld.RecoveryBringsEveryProcessHome | crates/actuator/src/lib.rs:443-454 | recovery of any number of snapshots of distinct processes puts every live one in its original group, moves nobody else and removes no unmanaged group |
| CgroupWorld.RecoveredRemovals | crates/actuator/src/lib.rs:443-454 | a group missing after recovery was a target whose members were all returned by it |
| CgroupWorld.AccountedAfterApply | crates/actuator/src/lib.rs:314-407 | every attempted apply keeps the invariant that a process that has not strayed is at home or its pending snapshot says where home is |
| CgroupWorld.AccountedComesHome | crates/actuator/src/lib.rs:443-454 | from a state with that invariant recovery brings all these processes home, even where the rollbacks of other processes are refused |
| CgroupWorld.SecondApplyCannotBeUndone | crates/actuator/src/lib.rs:314-454 | two applies to one process, to the same or to different targets, before a rollback: undoing the first brings the process home, and then the second snapshot can be rolled back if and only if the first target existed with other members or unowned, and doing so moves the process back into it |
| CgroupWorld.RecoveredLimits | crates/actuator/src/lib.rs:443-454 | recovery leaves a surviving group with the limits its last rollback that was not refused had taken down, or with its own |
| CgroupWorld.SharedTargetKeepsFirstLimits | crates/actuator/src/lib.rs:443-454 | two processes moved into one group that outlives them: recovery leaves the limits of the first move, so those of before come back exactly when that move did not change them |
| CgroupActuator.NothingLeftPending | crates/actuator/src/lib.rs:443-454 | when all rollbacks succeeded the pending list is empty, so a second recovery does nothing |
| TargetWorker.Touch | crates/benchmark/src/capacity_external_target.rs:549-557 | a touch writes every page of the buffer in place, leaves its contents unchanged and returns the number of pages |
| TargetWorker.RunKeepsInv | crates/benchmark/src/capacity_external_target.rs:321-505 | the worker's invariant holds in every reachable state of every interleaving of main loop, service threads and controller |
| TargetWorker.PublishedRecordsAdvance | crates/benchmark/src/capacity_external_target.rs:568-602 | published sequence numbers strictly increase and no published counter ever goes back |
| TargetWorker.RecordsAreNumbered | crates/benchmark/src/capacity_external_target.rs:321-505 | published records are numbered one, two, three and so on without a gap, in every reachable state |
| TargetWorker.DescriptorMeansProgress | crates/benchmark/src/capacity_external_target.rs:321-505 | a visible descriptor implies an already published, well-formed record, at most one reader consumes the descriptor, and a worker that reads commands has published it |
| TargetWorker.NothingBeforeStart | crates/benchmark/src/capacity_external_target.rs:525-547 | no page is touched before START, the cold cycles equal the controlled refaults, there is at most one, and only after START |
| TargetWorker.ContentsSurvive | crates/benchmark/src/capacity_external_target.rs:549-566 | outside a touch every zone has its initial contents, so the final fingerprint check never fails, nor does a leftover staged file |
| TargetWorker.FinalRecordIsExact | crates/benchmark/src/capacity_external_target.rs:321-505 | the last record of an orderly stop counts whole cycles only, agrees with the threads and carries the initial fingerprints |
| TargetWorker.TouchCompletes | crates/benchmark/src/capacity_external_target.rs:525-557 | from anywhere in a touch a service thread left alone finishes it and counts it once |
| TargetWorker.ServiceWorksWhenActive | crates/benchmark/src/capacity_external_target.rs:525-557 | allowed to work and not told to stop, a service thread between touches touches its whole zone, leaves it as it was and counts one cycle and all pages, in a known number of steps |
| TargetWorker.ServiceIdlesWhenInactive | crates/benchmark/src/capacity_external_target.rs:525-547 | not allowed to work it touches and counts nothing, however long it runs |
| TargetWorker.TouchesShow | crates/benchmark/src/capacity_external_target.rs:549-557 | in every reachable state in the middle of a page, exactly the first byte of that page of 4096 bytes is one up, modulo 256 |
| TargetWorker.WorkIsPublished | crates/benchmark/src/capacity_external_target.rs:321-547 | from every reachable state in which the threads may work and no command waits, some schedule publishes a record of exactly one more whole cycle of each thread, ahead of every record before |
| TargetWorker.QuietPassPublishesOneRecord | crates/benchmark/src/capacity_external_target.rs:568-602 | one pass of the main loop without commands publishes exactly one record, the next one, with the counters of the moment |
| TargetWorker.CommandsAreObeyedOrFatal | crates/benchmark/src/capacity_external_target.rs:604-621 | a waiting command file is always removed; it ends the worker if and only if the protocol does not allow it now, and otherwise is obeyed |
| TargetWorker.StopIsObeyed | crates/benchmark/src/capacity_external_target.rs:321-505 | from every reachable state in which an acceptable STOP waits and no command that ends the worker first, some schedule ends in an orderly stop with the exact final record |
| TargetWorker.TimeoutIsOrderly | crates/benchmark/src/capacity_external_target.rs:321-505 | from every reachable head of the loop, whatever commands wait, running out of time leads to an orderly stop with the exact final record |
| RunOrder.DeterministicOrder | crates/benchmark/src/lib.rs:1115-1129 | the in-place shuffle computes the specified order |
| RunOrder.ShuffleInPlace | crates/benchmark/src/lib.rs:1123-1127 | swapping in place from the back with one random state per position is the recursive shuffle |
| RunOrder.OrderIsPermutation | crates/benchmark/src/lib.rs:1115-1137 | for every variant list, repetition count and seed the order is a permutation of all pairs |
| RunOrder.EveryPairOnce | crates/benchmark/src/lib.rs:1115-1129 | with distinct variants every pair of variant and repetition occurs exactly once and nothing else does |
| RunOrder.SettledItem | crates/benchmark/src/lib.rs:1123-1127 | which item a shuffle settles: the one the next random state points at, modulo the number left; the last one left fills its place and the rest is shuffled on with that state |
| RunOrder.ItemsInOrder | crates/benchmark/src/lib.rs:1119-1121 | before shuffling the pairs are listed repetition by repetition, in the order of the variants |
| RunOrder.KnownState | crates/benchmark/src/lib.rs:1131-1137 | the generator gives e220a8397b1dcdaf (hexadecimal) for the seed zero |
| CapacitySearch.CeilingExactly | crates/benchmark/src/capacity_benchmark.rs:508-516 | a value is the ceiling if and only if it is a nonzero multiple of 16 MiB, leaves 64 MiB and a tenth of itself below the effective maximum, and is the largest multiple within ten elevenths of it (of the saturated product) |
| CapacitySearch.CeilingExists | crates/benchmark/src/capacity_benchmark.rs:508-516 | every effective maximum from 704 MiB up has a ceiling, even where the product saturates; none below 544 MiB has |
| CapacitySearch.CapacityLadder | crates/benchmark/src/capacity_benchmark.rs:518-532 | the ladder exists if and only if the ceiling is aligned, at least 160 MiB and a hundred times it fits in 64 bits; level i is then the floor of (i+1) tenths in units of 16 MiB |
| CapacitySearch.LadderShape | crates/benchmark/src/capacity_benchmark.rs:518-532 | a ladder increases strictly from above zero and ends at its ceiling |
| CapacitySearch.LadderInBytes | crates/benchmark/src/capacity_benchmark.rs:518-532 | in bytes: a ceiling has a ladder if and only if it is a multiple of 16 MiB from 160 MiB and a hundred times it fits in 64 bits; level i is the largest multiple of 16 MiB within (i+1) tenths of it |
| CapacitySearch.CeilingHasLadder | crates/benchmark/src/capacity_benchmark.rs:508-532 | from 704 MiB to 2^57 bytes the ceiling found always has a ladder |
| OrderStatistics.KthMonotone | crates/benchmark/src/capacity_benchmark.rs:1914-1922 | raising entries of a list of any length never lowers its k-th element |
| OrderStatistics.KthUnique | crates/benchmark/src/capacity_benchmark.rs:1914-1922 | the k-th element by counting is unique |
| OrderStatistics.SortedElementIsKth | crates/benchmark/src/capacity_benchmark.rs:1914-1922 | the element at index k of the sorted list is the k-th by counting |
| CapacityEvaluation.MedianIsMedian | crates/benchmark/src/capacity_benchmark.rs:1914-1922 | sorting and taking the middle gives the median as counting defines it |
| CapacityEvaluation.HighestIsMaximum | crates/benchmark/src/capacity_benchmark.rs:1876-1885 | the highest sustainable size is attained by a sustainable level and bounds all of them; it is absent exactly when there is none |
| CapacityEvaluation.BoundaryShows | crates/benchmark/src/capacity_benchmark.rs:1876-1912 | the bounds drawn from a run are the only ones its levels show: the largest size sustained, or zero, and the size of the first level that failed |
| CapacityEvaluation.BoundaryExactly | crates/benchmark/src/capacity_benchmark.rs:1876-1912 | a run reaches the ceiling, is observed to fail, or does not count, by its levels alone |
| CapacityEvaluation.PercentsBracket | crates/benchmark/src/capacity_benchmark.rs:1924-1942 | floor and ceiling percentages bracket the exact ratio within one percent, whatever the sign |
| CapacityEvaluation.CeilIsNegatedFloor | crates/benchmark/src/capacity_benchmark.rs:1924-1942 | the ceiling of n is the negated floor of -n whenever both fit, and they disagree on fitting only at the minimum of i64 |
| CapacityEvaluation.Evaluate | crates/benchmark/src/capacity_benchmark.rs:1944-2058 | the loop over repetitions produces the boundary of every run and the evaluation of the three pairs |
| CapacityEvaluation.DemonstratedMedians | crates/benchmark/src/capacity_benchmark.rs:1993-2000 | the demonstrated sizes and difference reported are the medians over the pairs |
| CapacityEvaluation.GainGivenExactly | crates/benchmark/src/capacity_benchmark.rs:2001-2006 | a demonstrated gain is reported if and only if the baseline median is positive and nothing is censored |
| CapacityEvaluation.PairBracketsGain | crates/benchmark/src/capacity_benchmark.rs:1962-1985 | for any true capacities within what one pair observed, the conservative percentage is at most the true gain and the possible one is above it |
| CapacityEvaluation.VerdictIsSound | crates/benchmark/src/capacity_benchmark.rs:1988-2039 | for any true capacities consistent with the recorded brackets a definite verdict is true of the median of the true paired gains |
| CapacityEvaluation.StatusExactly | crates/benchmark/src/capacity_benchmark.rs:2014-2046 | for three valid pairs with bounds of at least 200 bytes: met if and only if every baseline bound exists and in two pairs the capacity reached 1.3 times it; not met if and only if it is not met, every bound needed exists and in two pairs the capacity failed within 1.29 times the baseline |
| CapacityEvaluation.CensoringWithholdsVerdicts | crates/benchmark/src/capacity_benchmark.rs:2014-2039 | a censored baseline rules out DefinitivelyMet, a censored capacity run rules out DefinitivelyNotMet |
| CapacityEvaluation.DemonstratedGainNeverWraps | crates/benchmark/src/capacity_benchmark.rs:2001-2006 | the expression alone: its cast cannot wrap for any capacity median if and only if the baseline median is at least 200 bytes |
| ScopeCleanup.Reconcile | crates/benchmark/src/capacity_composition.rs:1476-1613 | against an environment that may change every answer: the exact questions asked, the evidence drawn from the answers, and a stop requested if and only if the first three answers justify it |
| ScopeCleanup.AtMostOneStop | crates/benchmark/src/capacity_composition.rs:1509-1554 | one cleanup requests at most one stop, and none before ownership, members and worker were looked at |
| ScopeCleanup.OnlyTheFrozenUnitIsStopped | crates/benchmark/src/capacity_composition.rs:1463-1508 | field by field: a stop is requested if and only if the unit read back has the frozen name, object path, control group and limits and no member but the worker, nobody is counted and the worker is gone; and when ownership is exact |
| ScopeCleanup.PassedExactlyWhenClean | crates/benchmark/src/capacity_composition.rs:542-554 | on every evidence value produced, passed holds exactly when the classification is Clean |
| ScopeCleanup.CleanExactly | crates/benchmark/src/capacity_composition.rs:1556-1584 | Clean if and only if the unit was absent, or justifiably stopped or found gone with everything rechecked, and in the end there is no worker, no member and no unit |
| ScopeCleanup.ClassifiedExactly | crates/benchmark/src/capacity_composition.rs:1556-1584 | each of the other five classifications, as an if-and-only-if over what was observed |
| ScopeCleanup.UnreadableIsNeverClean | crates/benchmark/src/capacity_composition.rs:1556-1584 | an answer that could not be had is never read as absence |
| CompositionExecutor.BoundsCarryTheLoad | crates/benchmark/src/capacity_composition.rs:1618-1671 | a level that becomes a bound carried exactly the planned load with readable zero counters; lower and upper bounds differ in progress alone; three-level runs give no upper bound |
| CompositionExecutor.SustainableExactly | crates/benchmark/src/capacity_composition.rs:1616-1671 | a level is sustainable if and only if the exact load was held through both heartbeats with zero counters and the target in order, with a validator that passed every gate for the capacity variant and none at all for the baseline |
| CompositionExecutor.UnsustainableExactly | crates/benchmark/src/capacity_composition.rs:1616-1671 | a level is an upper bound if and only if the same load was held, the target was in order and read once, and hot or warm memory made no progress, in runs of four levels or more |
| CompositionExecutor.RunLevels | crates/benchmark/src/capacity_composition.rs:1859-1995 | the level loop records the plan's prefix up to the first level that is not sustainable, or aborts if and only if some reached level fails or shrinks |
| CompositionExecutor.ExecuteRun | crates/benchmark/src/capacity_composition.rs:1783-2056 | one run's evidence is its plan, the host's answers and the judgement of both; it aborts exactly when a step fails |
| CompositionExecutor.RunPassesExactly | crates/benchmark/src/capacity_composition.rs:2010-2056 | a recorded run passed if and only if it finished well and either all its levels are there and sustainable or the last one recorded failed for its health alone |
| CompositionExecutor.Execute | crates/benchmark/src/capacity_composition.rs:1744-2080 | a report exists if and only if no reached step failed; then its runs are the plan's prefix, all passed but possibly the last, completed levels are the sum of the recorded ones, and it is complete exactly for six passed runs |
| CompositionExecutor.SixPassesForceAllLevels | crates/benchmark/src/capacity_composition.rs:2058-2070 | with at most three levels per run, passed runs have all their levels: six passes force six times as many |
| CompositionExecutor.AnsweringHostGetsReport | crates/benchmark/src/capacity_composition.rs:1859-1867 | on a plan whose levels never shrink a host that answers everything gets a report: a level is only asked for after the one before was touched exactly |
| CompositionExecutor.ReportIsUnique | crates/benchmark/src/capacity_composition.rs:1744-2080 | plan and host determine the report |
| CapacityBenchmark.ShuffleGivesRunOrder | crates/benchmark/src/capacity_benchmark.rs:1535-1565 | for every seed the prepared order holds each of the six pairs once |
| CapacityBenchmark.OnlyThePreparedPlanIsSupported | crates/benchmark/src/capacity_benchmark.rs:1330-1363 | the preflight accepts the run plan preparation writes and no other |
| CapacityBenchmark.ClimbHasSoundBoundary | crates/benchmark/src/capacity_benchmark.rs:1876-1912 | for the levels of a passed run exactly one of right-censored and boundary-observed holds, and the highest sustainable level is the one just below the first unsustainable one |
| CapacityBenchmark.CompletedMeansSixSoundRuns | crates/benchmark/src/capacity_composition.rs:2010-2056 | a completed execution consists of six runs in the prepared order, each a ladder prefix with a sound boundary |
| CapacityBenchmark.SixSoundRunsEvaluate | crates/benchmark/src/capacity_benchmark.rs:1944-2013 | six completed runs evaluate as Censored if some run found all ten levels sustainable and as Complete otherwise, never as Invalid |
| CapacityBenchmark.LookupIsUnique | crates/benchmark/src/capacity_benchmark.rs:1954-1960 | the lookup of a variant and repetition finds a run, and only that one |
| CapacityBenchmark.MediansDoNotConflict | crates/benchmark/src/capacity_benchmark.rs:2014-2039 | where both medians exist the conservative one never exceeds the possible one, so the verdict branches cannot conflict |
| CapacityBenchmark.CompletedVerdictIsSound | crates/benchmark/src/capacity_benchmark.rs:1944-2058 | end to end: for every order, ladder and host, a completed execution's verdict and both its medians are true of any capacities that agree with every level recorded in the runs |
| CapacityBenchmark.VerdictExactly | crates/benchmark/src/capacity_benchmark.rs:1944-2058 | end to end on every ladder: when the verdict of a completed execution is met and when it is not met, as an if-and-only-if over the sizes the recorded levels show |
| CapacityBenchmark.LadderClimbs | crates/benchmark/src/capacity_benchmark.rs:518-532 | every ladder meets what the end-to-end statements ask of one |
| CapacityBenchmark.ExecuteBenchmark | crates/benchmark/src/capacity_benchmark.rs:2134-2194 | a Censored report is written if and only if the executor completed six runs and one of them sustained all ten levels, a Complete one if and only if it completed six others; nothing is written exactly when all six runs are there, the last one climbed, and its worker, cleanup or restore failed; an aborted execution is reported as Invalid |
| CapacityBenchmark.EvaluationLooksValidExactly | crates/benchmark/src/capacity_benchmark.rs:2168-2176 | the evaluation of a reported execution is valid if and only if six runs are there and the last climbed; the execution completed if and only if that run also finished well |
| CapacityBenchmark.NothingIsWritten | crates/benchmark/src/capacity_benchmark.rs:489-506 | on every prepared plan a host that only fails the last cleanup is answered to the end with a valid looking evaluation, and nothing is written |
| CapacityBenchmark.LadderGainNeverWraps | crates/benchmark/src/capacity_benchmark.rs:2001-2006 | for every reported execution on a capacity ladder, whatever its state, a reported gain comes from a baseline median of at least 16 MiB and is the exact truncated percentage |
| PressurePlan.DeriveConserves | crates/benchmark/src/pressure.rs:209-247 | reserved plus effective memory is what was available, the reserve is the sum of its parts, and the host part is the larger of the minimum and the rounded share |
| PressurePlan.DeriveIsMonotone | crates/benchmark/src/pressure.rs:209-247 | more available memory never lowers the effective maximum |
| PressurePlan.DeriveSucceedsExactly | crates/benchmark/src/pressure.rs:209-247 | the derivation succeeds if and only if the share is usable and representable, no reserve is zero, and the others fit beside the share and beside the minimum |
| PressurePlan.ValidateLevels | crates/benchmark/src/pressure.rs:362-381 | the level loop accepts exactly unused, consecutively numbered, strictly increasing levels within both limits |
| PressurePlan.LevelsFitExactly | crates/benchmark/src/pressure.rs:362-381 | fitting levels are numbered, unused, of one size for both targets and increasing from step to step, with only the last compared with the limits |
| PressurePlan.InTimeExactly | crates/benchmark/src/pressure.rs:339-361 | whether a plan fits its timeouts is decided without any overflow: the sum of four durations, times levels and refinements |
| PressurePlan.ValidExactly | crates/benchmark/src/pressure.rs:291-381 | validity of a plan in plain numbers and constants |
| PressurePlan.ValidPlanEndsInTime | crates/benchmark/src/pressure.rs:339-361 | all levels and refinements of a valid plan end before its total timeout, at most fifteen minutes |
| PressurePlan.FreezeLevels | crates/benchmark/src/pressure.rs:1328-1370 | freezing succeeds if and only if every fraction is representable and the aligned sizes are positive and increasing; level i is then the floored fraction |
| PressurePlan.FrozenBytesExactly | crates/benchmark/src/pressure.rs:1328-1370 | a frozen size is the largest multiple of the alignment within its fraction, absent exactly when the product overflows |
| PressurePlan.FreezesExactly | crates/benchmark/src/pressure.rs:1328-1370 | fractions freeze if and only if all are representable, each share reaches the alignment, and neighbouring sizes increase |
| PressurePlan.FrozenLevelsFit | crates/benchmark/src/pressure.rs:1328-1370 | frozen levels pass the plan's level loop for exactly the worker limits from the top level up |
| PressureRun.SimulatedIsValidExactly | crates/benchmark/src/pressure.rs:705-796 | simulated evidence satisfies the evidence contract if and only if the interval divides the hold or the level is a contract failure |
| PressureRun.ValidEvidenceExactly | crates/benchmark/src/pressure.rs:705-796 | valid evidence is of this level of this plan, acknowledged for exactly the missing bytes, stabilised, held to within one interval and sampled once per interval begun; invalid levels claim none of it |
| PressureRun.TimingExactly | crates/benchmark/src/pressure.rs:731-761 | the rounded-up sample count and the saturated minimum duration, in products and sums without rounding |
| PressureRun.SustainableEvidenceMeans | crates/benchmark/src/pressure.rs:762-782 | valid sustainable evidence touched exactly what was planned and passed exactly the fifteen gates, and the observer gate for the observed variant |
| PressureRun.UnevenPlanFails | crates/benchmark/src/pressure.rs:705-796 | a valid plan whose interval does not divide its hold: one sample is taken where two are asked for |
| PressureRun.SimulatePressureRun | crates/benchmark/src/pressure.rs:1200-1270 | the simulation succeeds if and only if the plan is valid and the interval divides the hold or the first level is a contract failure; it then yields the plan's prefix up to the first level not sustained, with every later level marked by the matching reason |
| PressureRun.MarksOfRun | crates/benchmark/src/pressure.rs:1200-1270 | the mark of every planned level and the reason the run stopped, by the outcome of the last level executed |
| PressureRun.BoundsOfRun | crates/benchmark/src/pressure.rs:956-1000 | the highest bound is the last sustained level; only a health failure gives an upper bound, an abort or invalid evidence never does |
| PressureRun.BoundsAreExtreme | crates/benchmark/src/pressure.rs:903-940 | of any levels in any order, the highest bound is attained and maximal among the exact sustainable ones, the lowest attained and minimal among the exact unsustainable ones |
| PressureRun.RefinementEligibleExactly | crates/benchmark/src/pressure.rs:1002-1012 | refinement is allowed if and only if both bounds exist without abort or invalid evidence, and then they are in order |
| PressureRun.CapacityOfRunValidates | crates/benchmark/src/pressure.rs:903-940 | the capacity result of every simulated run validates against its levels |
| PressureRun.ValidCapacityIsDetermined | crates/benchmark/src/pressure.rs:903-940 | two results valid for the same levels agree in both bounds, and a complete one has both without any abort or invalid evidence |
| Refinement.ProposalsAreInside | crates/benchmark/src/pressure.rs:812-852 | a proposal is aligned, untested and strictly inside; with budget left none is made only for a span below two steps or a known point inside |
| Refinement.RefusedExactly | crates/benchmark/src/pressure.rs:812-827 | the next size is an error if and only if the bracket is improper or untested, or refinement is off or has no step |
| Refinement.Refine | crates/benchmark/src/pressure.rs:812-852 | iterating the decision against any oracle keeps a tested sustainable/unsustainable bracket with fresh aligned probes, and k probes bring 2^k times the excess over two steps below the initial excess |
| Refinement.WhereRefinementEnds | crates/benchmark/src/pressure.rs:828-835 | with nothing known inside the first bracket, stopping before the budget is spent means a span below two steps |
| Refinement.ThresholdIsLocated | crates/benchmark/src/pressure.rs:812-852 | a single threshold behind the answers lies in the final bracket |
| Refinement.EligibleRunCanBeRefined | crates/benchmark/src/pressure.rs:1002-1012 | an eligible run hands over a usable tested bracket with nothing known inside |
| Orchestration.PlanOrchestration | crates/benchmark/src/capacity_orchestration.rs:387-521 | the planner's answer for every input: the first error in its order of checks, or the plan, which the validator accepts |
| Orchestration.ComponentPlannedExactly | crates/benchmark/src/capacity_orchestration.rs:390-470 | a component is eligible if and only if it is desired, bound to a named resource and has its capabilities and evidence, listed component by component; and when each error is reported |
| Orchestration.PageOutNeedsTelemetry | crates/benchmark/src/capacity_orchestration.rs:743-757 | the planner reports a missing dependency if and only if page-out is eligible and telemetry is not, and names just these two |
| Orchestration.SharedTargetExactly | crates/benchmark/src/capacity_orchestration.rs:759-781 | page-out and merging share a target if and only if both are eligible on resources of the same name |
| Orchestration.EvidenceIsAskedForExactly | crates/benchmark/src/capacity_orchestration.rs:472-500 | combined evidence is asked for if and only if two or more components are eligible |
| Orchestration.SelfCheckAgrees | crates/benchmark/src/capacity_orchestration.rs:519-520 | once the earlier checks passed, the self-check fails if and only if combined evidence came with at most one eligible component |
| Orchestration.StrayEvidenceIsRefused | crates/benchmark/src/capacity_orchestration.rs:519-520 | an input with nothing selected and combined evidence passes every check but the self-check |
| Orchestration.OnlyThePlannerSeesSharing | crates/benchmark/src/capacity_orchestration.rs:759-781 | a plan whose page-out and merging share a target is refused by the planner and accepted by the validator |
| Orchestration.SharingIsRefusedByThePlannerOnly | crates/benchmark/src/capacity_orchestration.rs:759-781 | such an input, with passed evidence bound to it |
| Orchestration.AcceptedPlanIsOrdered | crates/benchmark/src/capacity_orchestration.rs:523-616 | in every plan the validator accepts, dependencies come before their dependents in the apply order and after them in the rollback order, with capabilities, evidence and exact ownership at hand |
| Orchestration.PageOutFollowsTelemetry | crates/benchmark/src/capacity_orchestration.rs:38-43 | in every accepted plan with page-out, telemetry is applied before it and rolled back after it |
| Orchestration.AcceptedOrderIsFixed | crates/benchmark/src/capacity_orchestration.rs:26-33 | any two applied components come in one fixed order, and in the reverse on rollback |
| Orchestration.AcceptedPlanIsEquipped | crates/benchmark/src/capacity_orchestration.rs:45-74 | every applied component has its capabilities and evidence, listed component by component |
| Orchestration.AcceptedPlanIsBacked | crates/benchmark/src/capacity_orchestration.rs:617-693 | two or more components are accepted together exactly with intact, complete and passed evidence bound to these components, their resources, this order and its reverse, the capabilities, the single evidence and this provenance |
| Orchestration.AcceptedPlanIsFixed | crates/benchmark/src/capacity_orchestration.rs:523-575 | every accepted plan only observes, activates nothing, keeps both safety flags and lists each of the six components once |
| Orchestration.AcceptedContractsAreTheTable | crates/benchmark/src/capacity_orchestration.rs:617-693 | the contracts such evidence lists are those of the table, one per component, in the apply order |
| CanonicalJson.SortJson | crates/benchmark/src/validator_report.rs:86-100 | the walk that inserts members in key order computes the canonical form |
| CanonicalJson.LessExactly | crates/benchmark/src/validator_report.rs:86-100 | the order of keys: at the first difference the smaller character decides, and a proper prefix comes first |
| CanonicalJson.CanonicalDecides | crates/benchmark/src/validator_report.rs:76-100 | two trees have the same canonical form if and only if they are equal up to member order at every depth |
| CanonicalJson.CanonicalIsIdempotent | crates/benchmark/src/validator_report.rs:86-100 | sorting a sorted tree changes nothing |
| StatusContract.ParseStatus | crates/benchmark/src/capacity_benchmark.rs:630-676 | a STATUS text is accepted if and only if it has no stray carriage return, only blank or well-formed lines, at least one entry and no relevant key twice |
| StatusContract.LineExactly | crates/benchmark/src/capacity_benchmark.rs:642-664 | a line is accepted for an entry if and only if it spells it: white space anywhere around key and value, one equals sign, a key of lower-case letters, digits and underscores, a nonempty value |
| StatusContract.BlankExactly | crates/benchmark/src/capacity_benchmark.rs:642-645 | a line is skipped if and only if it is white space |
| StatusContract.RenderThenParse | crates/benchmark/src/capacity_benchmark.rs:630-676 | clean lines with any mix of line endings are read back as written, and refused exactly when there are none or a relevant key repeats |
| StatusContract.StatusRoundTrip | crates/benchmark/src/capacity_benchmark.rs:630-676 | any map of relevant keys to clean values, in any line order, comes back as the same map with nothing unknown |
| Decimal.ParseU64 | crates/benchmark/src/capacity_benchmark.rs:1177-1177 | a string parses if and only if what follows an optional plus sign is nonempty, all digits and in range (the caller's guard admits digits only) |
| Decimal.ValueThenRender | crates/benchmark/src/capacity_benchmark.rs:1178-1178 | numerals without a leading zero are exactly what printing their value gives |
| Decimal.PathLineage | crates/benchmark/src/capacity_benchmark.rs:1164-1180 | a name yields lineage n if and only if it is the canonical rendering of a positive 64-bit n between prefix and role |
| Decimal.PathContract | crates/benchmark/src/capacity_benchmark.rs:1148-1161 | the two roots are accepted if and only if both name the same lineage |

## Left out

- Real cgroupfs, /proc, systemd, SQLite, sockets and file metadata: replaced by the in-memory backend, the environment and the host described above; the Linux backend, which skips writes for absent limits, is not modelled.
- SHA-256 and serialisation: a digest stands for what it digests, or the hash is a parameter; sealed manifests and their field-by-field verification are not modelled.
- CgroupActuator.Run: crashes between two store updates are not modelled, the store itself is reliable.
- CgroupActuator.RollBackAll: the loop of recover over the pending list is written as recursion on that list.
- TargetWorker.RunKeepsInv: a step system on values, since Dafny has no threads; counters are unbounded, so the wrap of a 64-bit cycle counter is not modelled, nor is a staged file left by an earlier crash.
- CapacityBenchmark.ExecuteBenchmark: the two flags an aborted execution's report takes from the last file on disk are a parameter; whether writing the final report itself succeeds is not modelled.
- CompositionExecutor.Execute: identifiers, timestamps, pressure readings and other fields that are recorded but never decide anything are not in the evidence.
- PressureRun.SimulatePressureRun: formatted names and reasons are kept as the parts they are formatted from; metrics and the memory mean, which no check reads, are left out.
- PressurePlan.ValidPlanEndsInTime: time is counted as planned, not as measured.
- Floating-point statistics, PSI thresholds and frame times: only the range checks of the plan's two thresholds are modelled, on reals.
- `derive_memory_max`, `paired_run_seed`, the pressure worker, the classifier and configuration validation: not part of this model; seeds are a parameter.
- The live harness, compatibility and external validation reports, command-line entry points, the first-lineage recovery and path deletion: plumbing around what is modelled, or tied to particular host paths.
- Parsing of the values of STATUS entries and the readiness conjunctions of manifests and preflights: flat comparisons that would only add easy members.
