# A verified model of the SIL evaluation tool chain

The repository judges simulated collision-avoidance runs of an autonomous ship. A run leaves a trace of
time-stamped rows. The FAST tools find the moment at which the run can be stopped, slice the trace there,
recompute everything on the slice, and compose a verdict. An artifact auditor derives the same instants a second
time from the raw rows. Around these sit the generator of encounters, the closest-point-of-approach arithmetic,
the metric loops of the scenario runner, the route publisher, the coverage cube, and three concurrent objects: the
trace writer, the remote-operator simulator and the lifecycle bridge.

This project states in Dafny what that code does and proves what it is for. Loops of the original are methods
with loop invariants, objects it mutates are classes, and each of them is proved equal to a function on values;
the theorems are about those functions, over all traces, all inputs and all interleavings.

Layout, one module per file:

- `StableSort`, `EventScan`: the stable sort, and what every early-exit scan over sorted rows has in common.
- `TraceRow`, `FastBoundary`, `BoundarySlicing`, `OwnLifecycle`, `ClearDwell`, `TargetLifecycle`: the boundary detector,
  the slice, and the meaning of every boundary in both terminal modes.
- `ArtifactConsistency`, `AuditorAgreement`: the auditor, and its agreement with the detector.
- `FastEvaluator`, `FastVerdictProofs`, `EvaluatorSlicing`, `TargetActor`, `PassedRuns`, `VerdictMeaning`, `RouteHandoff`:
  the verdict, what it depends on, when it passes and what it blames, and the handoff of the M5 plan to guidance.
- `Cpa`, `EncounterGeometry`, `EncounterRoundTrip`: closest point of approach, encounter generation, and the round trip.
- `TraceWriter`, `RocNode`, `LifecycleBridge` with `TraceWriterRuns`, `RocNodeRuns`, `LifecycleRuns`: the critical
  sections as classes, and all their interleavings; `LifecycleMirror`, `LifecycleReset` and `LifecycleRequests` on the
  bridge's runs.
- `ReleaseTimes`, `SmallAlterations`, `RiskExposure`, `Seamanship`: the metric loops.
- `RouteDensify`, `SpeedResample`, `CoverageCube`: routes and coverage counts.
- `Options`, `RealMath`, `Products`: small helpers.

`dafny verify dfyconfig.toml` checks everything. Numbers are mathematical reals; headings enter the geometry as unit
vectors; `sqrt` is any function that squares back on the non-negative reals; the cosine of a latitude, geodesy,
rounding to three digits, rule-name normalisation and the module oracles are function parameters, so the theorems
hold for every choice of them. Clocks, file-system outcomes and the answers of remote services are parameters of the
step that meets them.

## Where the code differs from its own words

The model follows the code. Each difference below is a proved statement.

- `TERMINAL_REASONS` is documented as the reasons that stop a run. An own-recovery run stops outside the set exactly
  when its first mode that is not TRANSIT is RECOVERY, which a single RECOVERY row already does; a target-resolution run
  stops outside the set exactly when it passes (`OwnLifecycle.OwnStopsOutsideIff`, `RecoveryFirstStopsOutside`,
  `TargetLifecycle.TargetStopsOutsideIff`).
- The detector reads a label as an integer, the auditor as a float. For a ready trace their recovery instants are equal
  exactly when some row at the stop reads as 7.0 and no earlier M4 row carries the text "7.0"; with the label 7.5 at the
  stop they differ (`AuditorAgreement.OwnInstantsAgreeIff`, `FractionalLabelSplitsTheAuditors`).
- In target-resolution mode the auditor's terminal can precede the detector's stop. A report that copies the detector's
  own stop passes the time comparison exactly when a row at most one second after the auditor's row completes a clear
  dwell with the TRANSIT span in front of it; a trace with the terminal at 20 s and the stop at 100 s is rejected
  (`AuditorAgreement.HonestTargetReportPasses`, `LateSpanFailsTheAudit`).
- The CPA gate of the verdict falls back to the scenario's own DCPA. A run whose report gives no CPA can pass whatever
  its scoring rows say, zero metres included (`PassedRuns.SilentReportPasses`, `CollisionPasses`).
- Detector and verdict measure the TRANSIT span of a target-resolution run differently, so a run that the detector stops
  with success can fail the verdict's own TRANSIT check whatever the module oracles say
  (`VerdictMeaning.EarlyClearFails`, `ReadyRunIsRejected`).
- The evaluator's separate "boundary not ready" branch behind the chain is never taken
  (`FastVerdictProofs.VerdictFollowsTheChain`).
- `_cpa_tcpa_m` misses a slow closing: it is optimal exactly above its speed guard or when the ships are not closing
  (`Cpa.CpaOptimalIff`).
- `_auto_accept` does not check which request its timer belongs to: a timer that fired too late to be cancelled
  accepts the next request (`RocNodeRuns.AutoAcceptAnswersItsRequestIff`, `StaleTimerAcceptsNextRequest`).
- The trace writer can lose records with 1977 or more recording threads, on two rotations within one second, and on
  a failed write (`TraceWriterRuns.OneThreadMoreCanLose`, `FlushLosesNothingIff`).
- `_reset_to_unconfigured` reports success when the node does not answer the state query
  (`LifecycleBridge.ResetIsHonestIff`).
- `deactivate` answers from the mirror, so it can report success on a node that keeps running
  (`LifecycleBridge.DeactivateTrustsTheMirror`). A change of state is served by the node before its caller polls the
  answer, and requests are not locked against each other. Mirror INACTIVE with the node ACTIVE is therefore reachable in
  several ways: two overlapping requests that both succeed, an `activate` that is served after its caller gave up, and the
  backup timer; and a `deactivate` in the polling window of an `activate` misses it. When calls neither overlap nor
  outlive their callers, and all answers are read, only the backup timer is left (`LifecycleMirror.OverlapDivides`,
  `LateCallDivides`, `BackupThenDeactivateLeavesTheNodeActive`, `DeactivateMissesTheActivate`, `OnlyTheBackupDivides`).
- `_resample_speeds` is documented to hold each leg's start speed across that leg's sub-waypoints. It does so for every
  list of speeds exactly when every leg but the last has as many sub-legs as the bucket size; at constant speed it always
  does (`SpeedResample.HeldForAllIff`, `ConstantSpeedIsHeld`, `UnevenLegsAreMisaligned`).
- The third release-time derivation knows fewer codes as avoidance; `ReleaseTimes.OracleAgreesIff` says when that
  does not matter.

## Model

| member | source | states |
|---|---|---|
| StableSort.SortIsTheStableOrder | tools/sil/colregs_fast_boundary.py:187-190 | `sorted(..., key=event_time_s)` is the only sequence that is ordered by time and keeps rows of equal time in trace order |
| StableSort.FilterCommutesWithSort | tools/sil/colregs_fast_boundary.py:275-284 | selecting rows before sorting and after sorting give the same sequence, for every selection and every trace |
| StableSort.SortedSplits | tools/sil/colregs_fast_evaluator.py:686-691 | in sorted rows those up to a time limit are a prefix |
| EventScan.RunIgnoresTail | tools/sil/colregs_fast_boundary.py:194-257 | what follows the row at which an early-exit loop returns cannot change its result |
| EventScan.RunSeesOnlySelected | tools/sil/colregs_fast_boundary.py:187-257 | a loop that skips some rows has the same result on the rows it does not skip |
| FastBoundary.FindOwnRecoveryBoundary | tools/sil/colregs_fast_boundary.py:187-266 | the own-recovery loop is the scan `OwnBoundary`, whose meaning `OwnBoundaryIsOutcome` gives without loop state |
| FastBoundary.FindTargetResolutionBoundary | tools/sil/colregs_fast_boundary.py:269-352 | the target-resolution loop is the scan `TargetBoundary`, whose meaning `TargetBoundaryIsOutcome` gives without loop state |
| FastBoundary.FindFastBoundary | tools/sil/colregs_fast_boundary.py:163-185 | the terminal selects the scan; any other terminal is an error |
| BoundarySlicing.EventsSplitAtStop | tools/sil/colregs_fast_evaluator.py:686-691 | the sorted events of a trace are those of its slice followed by those beyond the stop |
| BoundarySlicing.BoundaryDependsOnSlice | tools/sil/colregs_fast_evaluator.py:681-691 | rows later than the stop may be added, removed or altered without moving the boundary, in both terminal modes |
| BoundarySlicing.RescanningTheSliceAgrees | tools/sil/colregs_fast_evaluator.py:681-793 | the boundary recomputed on the slice is identical, field by field |
| OwnLifecycle.OwnBoundaryIsOutcome | tools/sil/colregs_fast_boundary.py:187-266 | every field of every own-recovery boundary, each RED included, is read off the blocks of the time-sorted mode sequence |
| OwnLifecycle.LifecycleIsReady | tools/sil/colregs_fast_boundary.py:232-237 | modes 0..0 1..1 7 with a long enough 0-block give exactly the ready boundary with those instants |
| OwnLifecycle.ReadyIffLifecycle | tools/sil/colregs_fast_boundary.py:187-266 | ready if and only if the modes in 0..7 begin with 0s, then 1s, then 7, and the 0-block spans the minimum |
| OwnLifecycle.ReadyBoundaryIsOrdered | tools/sil/colregs_fast_boundary.py:129-140 | a ready boundary has transit <= avoidance <= recovery = stop and a transit duration of at least the minimum |
| OwnLifecycle.TerminalReasons | tools/sil/colregs_fast_boundary.py:83-127 | how stop, stop reason, failure code and `ready` go together in every boundary of either mode |
| OwnLifecycle.OwnStopsOutsideIff | tools/sil/colregs_fast_boundary.py:83-95 | an own-recovery run stops with a reason outside the documented set if and only if its first mode that is not TRANSIT is RECOVERY |
| OwnLifecycle.RecoveryFirstStopsOutside | tools/sil/colregs_fast_boundary.py:224-229 | a trace of one RECOVERY row stops that way |
| ClearDwell.DwellMetIff | tools/sil/colregs_fast_boundary.py:309-320 | at any row the loop sees its dwell complete if and only if that row is clear and late enough after the M6 row that directly follows the last active one |
| ClearDwell.ClearStateNext | tools/sil/colregs_fast_boundary.py:309-319 | conflict flag and clear time of the loop are functions of the rows passed |
| TargetLifecycle.TargetBoundaryIsOutcome | tools/sil/colregs_fast_boundary.py:269-352 | every field of every target-resolution boundary, the takeover RED and the three horizon codes included, is read off the time-sorted M4 and M6 rows |
| TargetLifecycle.TargetReadyIff | tools/sil/colregs_fast_boundary.py:309-335 | ready if and only if some row completes a clear dwell with the TRANSIT span in front of it, before own ship leaves TRANSIT |
| TargetLifecycle.TargetStopsOutsideIff | tools/sil/colregs_fast_boundary.py:83-95 | a target-resolution run stops with a reason outside the documented set if and only if it passes |
| ArtifactConsistency.ComputeRawMinCpa | tools/sil/colregs_artifact_consistency.py:240-260 | the raw CPA is reported by some scoring row and no readable scoring row reports less; it is absent when none is readable |
| ArtifactConsistency.ScoringCpasMeaning | tools/sil/colregs_artifact_consistency.py:252-260 | a distance is collected if and only if some scoring row reports it |
| ArtifactConsistency.FindRawClearTerminal | tools/sil/colregs_artifact_consistency.py:282-317 | the terminal is the time of the first M6 row, in time order, at which the clear dwell after a conflict is complete |
| ArtifactConsistency.FindStrictClearTerminal | tools/sil/colregs_artifact_consistency.py:479-519 | the same by canonical time, with the record id, and nothing for a row without one |
| ArtifactConsistency.ClearTerminalMeaning | tools/sil/colregs_artifact_consistency.py:294-317 | the loop, under either clock, ends at the least index at which an active row, then the M6 row directly after it, then no active row, and the dwell have been seen |
| ArtifactConsistency.CompareCpa | tools/sil/colregs_artifact_consistency.py:701-707 | the CPA finding for every raw value and report |
| ArtifactConsistency.CompareTimes | tools/sil/colregs_artifact_consistency.py:710-742 | the recovery and terminal findings for every raw value and report, with an honest non-pass told from a dishonest one |
| ArtifactConsistency.CheckTraceArtifacts | tools/sil/colregs_artifact_consistency.py:657-776 | the gate's flags, findings and raw values for every trace and report |
| ArtifactConsistency.AuditPassesIff | tools/sil/colregs_artifact_consistency.py:744-769 | the gate passes if and only if both raw instants exist and the report contradicts neither |
| ArtifactConsistency.ConsistentIff | tools/sil/colregs_artifact_consistency.py:744-769 | the report is consistent if and only if it contradicts no raw value; a missing recovery contradicts only a claimed one, or a report that is not an explicit non-pass |
| ArtifactConsistency.CompleteIff | tools/sil/colregs_artifact_consistency.py:744-769 | the evidence is complete if and only if the raw CPA exists and so does the raw instant, unless a recovery is claimed without one |
| AuditorAgreement.ReadsAlikeIff | tools/sil/colregs_artifact_consistency.py:263-275 | integer and float reading of a label agree on RECOVERY except for fractions between 7 and 8 and the text "7.0" |
| AuditorAgreement.FirstRecoveryIsTheStop | tools/sil/colregs_fast_boundary.py:232-237 | in a ready trace no RECOVERY row precedes the stop, and one is at the stop |
| AuditorAgreement.OwnAuditorsAgree | tools/sil/colregs_artifact_consistency.py:263-279 | a ready boundary's recovery instant is the auditor's minimum over raw RECOVERY rows |
| AuditorAgreement.OwnInstantsAgreeIff | tools/sil/colregs_artifact_consistency.py:263-279 | for a ready boundary the two instants are equal if and only if some row at the stop reads as the float 7 and no earlier M4 row carries the text "7.0" |
| AuditorAgreement.FractionalLabelSplitsTheAuditors | tools/sil/colregs_artifact_consistency.py:269-273 | with the label 7.5 the detector is ready and the auditor sees no recovery |
| AuditorAgreement.AuditorSeesTheSameRows | tools/sil/colregs_artifact_consistency.py:287-293 | sorting the M6 rows alone or among the M4 rows gives the auditor the same terminal |
| AuditorAgreement.DetectorTrailsAuditor | tools/sil/colregs_fast_boundary.py:309-335 | from any matching states the auditor's scan ends no later than the detector's, and together exactly when the span is met there |
| AuditorAgreement.TargetAuditorsAgree | tools/sil/colregs_artifact_consistency.py:282-317 | for a ready target-resolution boundary the raw clear terminal exists and is not after the stop; both scans end on the same row if and only if the TRANSIT rows in front of the auditor's row span the minimum |
| AuditorAgreement.TargetInstantsAgreeIff | tools/sil/colregs_fast_boundary.py:320-335 | the two instants are equal if and only if that span was met, unless a later row has the very same time |
| AuditorAgreement.TiedRowsHideTheLag | tools/sil/colregs_fast_boundary.py:320-335 | the proviso is needed: with tied time stamps the instants are equal although the scans end on different rows |
| AuditorAgreement.StrictAuditorAgrees | tools/sil/colregs_artifact_consistency.py:479-519 | with canonical times equal to event times the strict auditor names the same row, whenever that row carries a record id |
| AuditorAgreement.HonestOwnReportPasses | tools/sil/colregs_artifact_consistency.py:657-776 | a report that copies the own-recovery instant passes the audit of the slice if and only if its CPA half does |
| AuditorAgreement.HonestTargetReportPasses | tools/sil/colregs_artifact_consistency.py:657-776 | a report that copies the target-resolution stop passes if and only if its CPA half does and some row at most one second after the auditor's row completes a clear dwell with the TRANSIT span in front of it |
| AuditorAgreement.LateSpanFailsTheAudit | tools/sil/colregs_artifact_consistency.py:710-718 | a trace whose terminal is at 20 s and whose stop is at 100 s: the report that copies the stop is rejected |
| FastEvaluator.ContractOf | tools/sil/colregs_fast_evaluator.py:162-174 | the M6 contract has the earliest onset, the one direction (or is inconsistent because two occur) and the largest demand |
| FastEvaluator.ContractIsUnique | tools/sil/colregs_fast_evaluator.py:162-174 | that description leaves no choice |
| FastEvaluator.CollectDemands | tools/sil/colregs_fast_evaluator.py:152-161 | the inner loop keeps the positive demands of mapping rules with a turn direction |
| FastEvaluator.ActiveActionContract | tools/sil/colregs_fast_evaluator.py:131-174 | the loop computes the contract of all demands of M6 rows up to the limit |
| FastEvaluator.LargestTurn | tools/sil/colregs_fast_evaluator.py:209-223 | no sample turned further in the required direction, and some sample attains the value unless it is zero |
| FastEvaluator.ComputeLargestTurn | tools/sil/colregs_fast_evaluator.py:207-223 | the loop returns that largest turn; samples without heading do not count |
| FastEvaluator.ComputeRealizedTurn | tools/sil/colregs_fast_evaluator.py:177-223 | the base heading is the last at or before the base time, else the earliest sample's; the window is onset to stop |
| FastEvaluator.TargetActionRealized | tools/sil/colregs_fast_evaluator.py:304-336 | realized starboard turn, first resolving sample in file order, and pass if it meets the deadline |
| FastEvaluator.AttributeFailure | tools/sil/colregs_fast_evaluator.py:574-587 | the loop blames the first failing check of the chain, with its stage and code |
| RealMath.TurnMeaning | tools/sil/colregs_fast_evaluator.py:217 | the signed heading change is the one value in [-180, 180) that leads from the base heading to the heading, up to full turns |
| EvaluatorSlicing.RuleDemandsMeaning | tools/sil/colregs_fast_evaluator.py:152-161 | an M6 row demands exactly what its mapping rule entries with a positive minimum alteration ask for, in the row's turn direction |
| EvaluatorSlicing.DemandsFrom | tools/sil/colregs_fast_evaluator.py:147-161 | the demands of a trace are those of the rule entries of its M6 rows up to the limit |
| VerdictMeaning.BaseHeadingMeaning | tools/sil/colregs_fast_evaluator.py:185-206 | the base heading is that of the last own-ship sample up to the base time; failing that, that of the first sample of all |
| VerdictMeaning.RealizedIff | tools/sil/colregs_fast_evaluator.py:177-223 | the realized angle reaches a positive angle if and only if one own-ship sample of the window has turned that far to the demanded side |
| VerdictMeaning.StandOnIff | tools/sil/colregs_fast_evaluator.py:226-260 | the stand-on check passes if and only if, up to the first demand, every heading stays within 10 degrees of the first own-ship sample's |
| VerdictMeaning.OwnHoldsIff | tools/sil/colregs_fast_evaluator.py:385-408 | the own-ship hold passes if and only if every heading up to the stop stays within 10 degrees of the first one reported |
| VerdictMeaning.TacticalRouteIff | tools/sil/colregs_fast_evaluator.py:411-422 | a row counts as a tactical route if and only if its branch reads as 1, 2 or 3 and its waypoint count as positive; the defaults of missing cells never matter |
| TargetActor.TargetCompliesIff | tools/sil/colregs_fast_evaluator.py:304-364 | the target check passes if and only if nothing is asked, or the first resolving sample in file order meets the deadline, or there are headings and all stay within one degree of the initial one |
| TargetActor.TargetTurnMeaning | tools/sil/colregs_fast_evaluator.py:317-327 | the realized target turn is the largest starboard turn of its samples, or zero |
| FastVerdictProofs.VerdictIgnoresLaterRows | tools/sil/colregs_fast_evaluator.py:666-812 | rows later than the stop cannot change the verdict, whatever the module oracles compute |
| FastVerdictProofs.VerdictUsesTheSlicingBoundary | tools/sil/colregs_fast_evaluator.py:681-793 | the boundary recomputed inside the verdict is the one the trace was sliced at |
| FastVerdictProofs.VerdictFollowsTheChain | tools/sil/colregs_fast_evaluator.py:574-587 | the verdict passes if and only if all seventeen checks hold; otherwise stage and code are those of the earliest failing check |
| FastVerdictProofs.PassedOwnRun | tools/sil/colregs_fast_evaluator.py:666-812 | a passed own-recovery trace had the full lifecycle; its claimed recovery, if any, is within a second of the raw one; and if the report gives a CPA, every readable scoring row up to the stop was above the floor up to one metre, otherwise the scenario DCPA was |
| EvaluatorSlicing.DemandsUpToStop | tools/sil/colregs_fast_evaluator.py:147-161 | the slice carries the same demands up to the stop |
| EvaluatorSlicing.TargetContractUpToStop | tools/sil/colregs_fast_evaluator.py:339-364 | the target actor's contract is the same on the slice, for every expected action |
| EvaluatorSlicing.RealizedTurnUpToStop | tools/sil/colregs_fast_evaluator.py:177-223 | so is the realized turn, also when its base heading falls back to a sample beyond the stop |
| EvaluatorSlicing.OwnHoldsUpToStop | tools/sil/colregs_fast_evaluator.py:385-408 | so is the own-ship hold |
| EvaluatorSlicing.TakeoversUpToStop | tools/sil/colregs_fast_evaluator.py:411-431 | so are the absence of a tactical route and of a guidance takeover |
| EvaluatorSlicing.GatherUpToStop | tools/sil/colregs_fast_evaluator.py:459-536 | everything `evaluate_fast` computes before the chain is the same on the slice and on the whole trace |
| EvaluatorSlicing.EvaluateFastNeedsNoSlice | tools/sil/colregs_fast_evaluator.py:434-616 | `evaluate_fast` on the whole trace equals `evaluate_fast` on the slice |
| EvaluatorSlicing.ContractIsOrderFree | tools/sil/colregs_fast_evaluator.py:162-174 | the M6 contract does not depend on the order of the demand samples |
| EvaluatorSlicing.RowOrderIsFree | tools/sil/colregs_fast_evaluator.py:131-174 | shuffling or repeating the rows of a trace leaves its M6 contract as it is |
| EvaluatorSlicing.FirstResolutionMeaning | tools/sil/colregs_fast_evaluator.py:317-334 | a resolution time exists if and only if some sample resolves; on a time-ordered trace it is the earliest |
| PassedRuns.PassedRunMetEveryDemand | tools/sil/colregs_fast_evaluator.py:478-508 | in a passed own-recovery trace all M6 demands ask for one direction, and one own-ship sample between the first demand and the stop had turned far enough for all of them from the heading at the avoidance onset, up to rounding |
| PassedRuns.PassedTargetRun | tools/sil/colregs_fast_evaluator.py:434-587 | in a passed target-resolution trace own ship held its heading, made no tactical route and took nothing over, and the target acted as demanded; a target-resolution report claims a terminal within a second of the clear terminal of the slice under the report's dwell, which under the scenario's dwell is that of the raw trace |
| VerdictMeaning.OwnVerdict | tools/sil/colregs_fast_evaluator.py:666-812 | an own-recovery trace passes if and only if its boundary is ready and every check holds, each stated on the raw rows, the scenario, the report and the oracle it names; with a ready boundary any other verdict blames the first check of the chain that fails |
| VerdictMeaning.TargetVerdict | tools/sil/colregs_fast_evaluator.py:666-812 | the same for target-resolution traces |
| VerdictMeaning.ReportedAngles | tools/sil/colregs_fast_evaluator.py:478-508 | on a ready own-recovery boundary the verdict, passed or not, reports the largest demand and the turn realized from the heading at the avoidance onset, zeros without a consistent demand |
| VerdictMeaning.PassNeedsEveryOracle | tools/sil/colregs_fast_evaluator.py:693-803 | a passed trace was accepted by every module oracle, each on the rows it is meant to see |
| VerdictMeaning.RejectingM7IsBlamed | tools/sil/colregs_fast_evaluator.py:745-803 | when only the M7 oracle rejects, the verdict is red at stage M7 with the code of the M7 checker |
| VerdictMeaning.EarlyClearFails | tools/sil/colregs_fast_evaluator.py:543-546 | a ready target boundary whose clear spell begins less than the minimum after the first TRANSIT row fails for all oracles, for a TRANSIT prefix that is too short |
| VerdictMeaning.ReadyRunIsRejected | tools/sil/colregs_fast_evaluator.py:543-546 | a run that the detector stops with success at 100 s, after 90 s of TRANSIT and with a minimum of 60 s, fails for all oracles and reports |
| PassedRuns.SilentReportPasses | tools/sil/colregs_fast_evaluator.py:525-536 | a give-way lifecycle whose report gives no CPA passes on the scenario DCPA, whatever its scoring row reports |
| PassedRuns.CollisionPasses | tools/sil/colregs_fast_evaluator.py:783-793 | for instance with a scoring row of zero metres against a floor of 180 |
| RouteHandoff.FindCommittedPlan | tools/sil/colregs_fast_evaluator.py:853-866 | the loop returns the first valid M5 plan of the window in time order, for any validity test and window |
| RouteHandoff.ContainsMeaning | tools/sil/colregs_fast_evaluator.py:942-972 | the substring test behind the preflight proof finds the text wherever it stands |
| RouteHandoff.FindAcceptance | tools/sil/colregs_fast_evaluator.py:878-895 | true if and only if some execution status of the window accepts the plan |
| RouteHandoff.FindActiveRoute | tools/sil/colregs_fast_evaluator.py:897-915 | whether some active route of the window is the plan, and whether any active route was seen there at all |
| RouteHandoff.EvaluateHandoff | tools/sil/colregs_fast_evaluator.py:829-939 | committed plan and faults of the route handoff, with its fall-back to the execution status |
| RouteHandoff.FirstPlanIsEarliest | tools/sil/colregs_fast_evaluator.py:853-866 | a plan is committed if and only if the window holds a valid one, and no valid one is earlier |
| RouteHandoff.HandoffPassesIff | tools/sil/colregs_fast_evaluator.py:868-939 | the handoff passes if and only if nothing was committed, or the plan was accepted and it, or no active route at all, was seen |
| RouteHandoff.HandoffNeedsNoSlice | tools/sil/colregs_fast_evaluator.py:840-939 | when the recovery closes the window the handoff on the slice is the handoff on the whole trace |
| RouteHandoff.PassedRunHandedOver | tools/sil/colregs_fast_evaluator.py:750-793 | a passed own-recovery trace whose avoidance committed an M5 plan holds an execution status, between avoidance and recovery, that accepts the earliest such plan, and that plan was an active route there unless none was seen at all |
| Cpa.CpaIsLeast | scripts/run_6_scenarios.py:259-266 | above the guard the returned distance is attained at max(tcpa, 0) and no later separation is smaller |
| Cpa.TcpaSign | tools/sil/colregs_trace_evaluator.py:141-147 | tcpa is negative if and only if the ships are opening or the speed is at or below the guard |
| Cpa.CpaOptimalIff | tools/sil/colregs_trace_evaluator.py:141-147 | the returned distance is the least future one if and only if the speed passes the guard or the ships are not closing |
| EncounterGeometry.InterceptIsValid | src/sil_orchestrator/encounter_geometry.py:82-92 | the chosen target velocity has exactly the requested speed and the tracks coincide at T = 1/x > 0 |
| EncounterGeometry.InterceptIsEarliest | src/sil_orchestrator/encounter_geometry.py:82-92 | no velocity of that speed collides earlier |
| EncounterGeometry.InterceptFoundIff | src/sil_orchestrator/encounter_geometry.py:86-91 | the solver succeeds if and only if the spawn is not on own ship and some velocity of that speed collides |
| EncounterRoundTrip.OffsetIsPerpendicular | src/sil_orchestrator/encounter_geometry.py:94-99 | the offset is perpendicular to the relative velocity, and exactly the construct CPA long above the generator's speed guard and absent otherwise |
| EncounterRoundTrip.OffsetSetsTheCpa | src/sil_orchestrator/encounter_geometry.py:94-99 | a colliding spawn, once shifted, is measured with DCPA equal to the CPA's magnitude and the same time |
| EncounterRoundTrip.OffsetRecoveredIff | src/sil_orchestrator/encounter_geometry.py:57-60 | the evaluator recovers the generated offset if and only if its origin has own ship's latitude cosine or the offset has no east part |
| EncounterRoundTrip.VelocityRecovered | tools/sil/colregs_trace_evaluator.py:136-138 | course and speed written to the scenario read back as the same velocity |
| EncounterRoundTrip.InterceptRoundTripIff | src/sil_orchestrator/encounter_geometry.py:82-99 | construction followed by measurement returns the CPA's magnitude and 1/x if and only if the relative speed passes the guard |
| EncounterRoundTrip.GeneratedEncounterMeasuresBack | src/sil_orchestrator/encounter_geometry.py:63-104 | the same end to end, through latitude, longitude, course and speed of the generated target |
| EncounterRoundTrip.RuleMeasuresBack | src/sil_orchestrator/encounter_geometry.py:36-104 | for every rule name but overtaking that generates a target, the evaluator measures the caller's CPA, or else the rule's, and the intercept time back if and only if the relative speed passes its guard |
| EncounterRoundTrip.RuleSpawnPlace | src/sil_orchestrator/encounter_geometry.py:63-104 | such a target stands at the square root of range squared plus CPA squared from own ship (the range itself at and below the speed guard), the range being the caller's or the rule's, and has own ship's speed |
| EncounterRoundTrip.GeneratedConflictValidIff | tools/sil/colregs_trace_evaluator.py:150-183 | a generated encounter is a valid conflict if and only if the relative speed passes the evaluator's guard and its CPA is below the scenario floor |
| EncounterRoundTrip.OvertakeRoundTrip | src/sil_orchestrator/encounter_geometry.py:80-99 | overtaking on own course from any position, at every pair of speeds: an approached target is passed at its distance abeam shifted by the construct CPA; otherwise the present distance is measured, with time -1 when the speeds are equal up to the guard |
| EncounterRoundTrip.OvertakingMeasuresBack | src/sil_orchestrator/encounter_geometry.py:36-104 | the overtaking rule end to end for every approach angle: it always generates, and the evaluator measures that, with the caller's range and CPA, or 1 nm and 200 m, split along and across own heading |
| TraceWriter.DebugTraceWriter.constructor | docker/sil_trace_writer.py:88-98 | a new writer is one that was just reset |
| TraceWriter.DebugTraceWriter.Reset | docker/sil_trace_writer.py:102-121 | buffer emptied, file truncated, or closed when it cannot be opened |
| TraceWriter.DebugTraceWriter.Append | docker/sil_trace_writer.py:159-162 | one record behind the others, the oldest dropped beyond 2000; a flush is due from 25 on |
| TraceWriter.DebugTraceWriter.Record | docker/sil_trace_writer.py:143-163 | undisturbed, an open writer's buffer stays below 25 |
| TraceWriter.DebugTraceWriter.Flush | docker/sil_trace_writer.py:167-204 | buffer moved to the file, file moved to the archive of the current second when it exceeds the cap |
| TraceWriter.FlushBoundsTheFile | docker/sil_trace_writer.py:167-204 | after a flush the open file has at most the cap in bytes, and the file was archived if and only if the write had made it larger |
| TraceWriter.DebugTraceWriter.Close | docker/sil_trace_writer.py:124-139 | buffer written and file closed; a failed write keeps the buffer |
| TraceWriterRuns.FlushLosesNothingIff | docker/sil_trace_writer.py:167-197 | a flush loses nothing if and only if its write succeeds and its rotation does not overwrite an archive of the same second |
| TraceWriterRuns.StepKeepsInv | docker/sil_trace_writer.py:102-204 | every critical section keeps: archives, file and buffer are the log, and the buffer is at most 24 plus the waiting threads |
| TraceWriterRuns.NoRecordIsLost | docker/sil_trace_writer.py:78-204 | under every interleaving of at most 1976 threads nothing recorded since the reset is lost, in lock order; without a file the buffer is the last 2000 records |
| TraceWriterRuns.OneThreadMoreCanLose | docker/sil_trace_writer.py:158-164 | the thread bound is exact |
| TraceWriterRuns.FileStaysBounded | docker/sil_trace_writer.py:167-204 | under every interleaving, write errors included, the open file never exceeds the cap, and everything archived since the reset does |
| TraceWriterRuns.OnlyCloseCloses | docker/sil_trace_writer.py:102-139 | without a `close` the writer is open if and only if the last reset could truncate the file |
| RocNode.RocHmiSimulatorNode.OnTorRequest | tools/roc_simulator/roc_node.py:105-130 | a request clears the response and, in automatic mode, cancels the held timer and starts one of its own |
| RocNode.RocHmiSimulatorNode.RespondToTor | tools/roc_simulator/roc_node.py:147-177 | accepted if and only if the text is one of the three answers and a request is open; then the timer is cancelled and the answer recorded |
| RocNode.ParseMeaning | tools/roc_simulator/roc_node.py:147-160 | the three words are accepted in any mixture of cases, and nothing else is |
| RocNode.RocHmiSimulatorNode.AutoAccept | tools/roc_simulator/roc_node.py:188-200 | a fired timer accepts whatever request is open |
| RocNodeRuns.StepKeepsInv | tools/roc_simulator/roc_node.py:105-200 | every step keeps: one answer per request, the recorded response is the one sent, and only the held timer can fire |
| RocNodeRuns.AtMostOneResponsePerRequest | tools/roc_simulator/roc_node.py:105-200 | under every interleaving published responses map one-to-one into requests, and the current one is the recorded one |
| RocNodeRuns.ResponseIsFinal | tools/roc_simulator/roc_node.py:163-171 | a recorded response never changes until the next request, and nothing on its way out is lost or altered |
| RocNodeRuns.CurrentAnswerGetsOut | tools/roc_simulator/roc_node.py:173-177 | once nothing is in flight, the recorded response has been published |
| RocNodeRuns.PendingTimerIsCurrent | tools/roc_simulator/roc_node.py:121-126 | a timer that can still fire is the held one and was armed by the current request |
| RocNodeRuns.FinishedTimersStay | tools/roc_simulator/roc_node.py:163-171 | a timer that was cancelled, or has had its turn, never fires again |
| RocNodeRuns.OpenRequestIsAnswered | tools/roc_simulator/roc_node.py:118-126 | in automatic mode, after every run, an open request has a timer of its own, pending or fired, and that timer answers it |
| RocNodeRuns.ManualAnswerStopsTheTimers | tools/roc_simulator/roc_node.py:163-171 | a response that is taken is recorded and sent for the current request, and no timer can fire any more |
| RocNodeRuns.PublishMovesOne | tools/roc_simulator/roc_node.py:173-177 | publishing moves one response out and leaves the others in flight |
| RocNodeRuns.AutoAcceptAnswersItsRequestIff | tools/roc_simulator/roc_node.py:188-196 | an automatic answer goes to the request that armed its timer if and only if no request arrived between firing and lock |
| RocNodeRuns.StaleTimerAcceptsNextRequest | tools/roc_simulator/roc_node.py:188-196 | a reachable run in which a timer of request 1 accepts request 2 |
| LifecycleBridge.LifecycleBridge.DropTimers | src/sil_orchestrator/lifecycle_bridge.py:256-261 | both held timers get a cancellation request and both fields are emptied |
| LifecycleBridge.LifecycleBridge.BeginConfigure | src/sil_orchestrator/lifecycle_bridge.py:439-448 | the new duration is stored and no timer is held |
| LifecycleBridge.LifecycleBridge.StartTimers | src/sil_orchestrator/lifecycle_bridge.py:513-526 | older timers are dropped before the two new ones are held |
| LifecycleBridge.LifecycleBridge.FinishDeactivate | src/sil_orchestrator/lifecycle_bridge.py:541-549 | timers dropped, mirror inactive |
| LifecycleBridge.LifecycleBridge.ForceInactive | src/sil_orchestrator/lifecycle_bridge.py:571-575 | the backup timer forces the mirror and drops the auto-stop timer only |
| LifecycleBridge.LifecycleBridge.FinishCleanup | src/sil_orchestrator/lifecycle_bridge.py:583-591 | timers dropped, mirror unconfigured, no scenario |
| LifecycleBridge.LifecycleBridge.ResetToUnconfigured | src/sil_orchestrator/lifecycle_bridge.py:250-282 | mirror, node and reported success for every node state and every pattern of answers |
| LifecycleBridge.LifecycleBridge.Deactivate | src/sil_orchestrator/lifecycle_bridge.py:529-551 | mirror, node and reported success of `deactivate`, with its shortcut on an inactive mirror |
| LifecycleBridge.ResetIsHonestIff | src/sil_orchestrator/lifecycle_bridge.py:250-282 | when a reset succeeds; a success leaves the mirror unconfigured, and the node too if and only if the query was answered or there was nothing to do, and the node is not finalized; a failure leaves mirror and node as far as it got |
| LifecycleBridge.DeactivateTrustsTheMirror | src/sil_orchestrator/lifecycle_bridge.py:530-539 | when `deactivate` succeeds, and that a success leaves the node active if and only if the mirror said inactive while it was active; a failure changes nothing |
| LifecycleRuns.StepKeepsInv | src/sil_orchestrator/lifecycle_bridge.py:284-592 | every section of every request and timer task, and every answer of the node, keeps the timer invariant |
| LifecycleRuns.NoOrphanTimers | src/sil_orchestrator/lifecycle_bridge.py:505-592 | under every interleaving at awaits, with the node serving calls at any time, each uncancelled, unfinished timer is the one in its field, so there is at most one of each kind |
| LifecycleRuns.AutoStopNeverBroadcasts | src/sil_orchestrator/lifecycle_bridge.py:541-563 | the auto-stop task cancels itself before its broadcast, so no timer ever broadcasts a deactivation |
| LifecycleMirror.OnlyTheBackupDivides | src/sil_orchestrator/lifecycle_bridge.py:284-308 | when change-of-state calls neither overlap nor outlive their callers, and no accepted answer is unread, only an expired backup timer leaves the mirror inactive while the node is active |
| LifecycleMirror.OverlapDivides | src/sil_orchestrator/lifecycle_bridge.py:293-305 | an `activate` served and read inside the polling window of a `configure` leaves the mirror inactive and the node active, with both requests successful and no timer |
| LifecycleMirror.LateCallDivides | src/sil_orchestrator/lifecycle_bridge.py:293-302 | so does an `activate` that the node serves after its caller gave up, with strictly sequential requests |
| LifecycleMirror.DeactivateMissesTheActivate | src/sil_orchestrator/lifecycle_bridge.py:529-539 | a `deactivate` inside the polling window of an `activate` reports success on a node that is already active |
| LifecycleMirror.BackupThenDeactivateLeavesTheNodeActive | src/sil_orchestrator/lifecycle_bridge.py:529-575 | the backup timer does it in a run that is orderly in that sense, and `deactivate` then reports success on a node that keeps running |
| LifecycleReset.ConfigureConverges | src/sil_orchestrator/lifecycle_bridge.py:423-503 | from any reachable state a configure that no other request and no late call disturbs empties both timer fields, leaves mirror and node both unconfigured after its reset, and both inactive with the new scenario and duration after six answered polls |
| LifecycleReset.ResetConverges | src/sil_orchestrator/lifecycle_bridge.py:250-282 | from any reachable state, whatever the mirror, a reset so undisturbed returns success after four answered polls, with mirror and node both unconfigured and both timer fields empty |
| LifecycleReset.ServingMakesReady | src/sil_orchestrator/lifecycle_bridge.py:296-300 | when the node serves the message that call waits for, its next poll is answered |
| LifecycleRequests.RequestConverges | src/sil_orchestrator/lifecycle_bridge.py:505-592 | from any reachable state an undisturbed activate, deactivate or cleanup returns within two answered polls: true exactly when the node takes the transition, with mirror and node equal, and one timer of each kind after an activation with a duration and none otherwise; false with nothing changed |
| LifecycleRequests.PromptRequestSucceeds | src/sil_orchestrator/lifecycle_bridge.py:284-308 | a request that the node takes has succeeded once the node has served it and the caller has polled twice |
| LifecycleRequests.RequestsThatSendNothing | src/sil_orchestrator/lifecycle_bridge.py:284-292 | without the service a request fails with nothing changed; a `deactivate` on an inactive mirror succeeds, drops the timers and sends nothing |
| LifecycleRequests.AutoStopConverges | src/sil_orchestrator/lifecycle_bridge.py:553-563 | when the auto-stop timer of an active run expires and the node answers, node and mirror are inactive and no timer is left |
| LifecycleRequests.BackupForcesTheMirror | src/sil_orchestrator/lifecycle_bridge.py:565-575 | when the backup timer expires the mirror is inactive, no timer is left, and the node is not asked |
| ReleaseTimes.ResettingScan | scripts/run_6_scenarios.py:768-775 | the one-pass loop, which resets at every avoidance, finds the first end after the last avoidance |
| ReleaseTimes.OnePassRelease | scripts/run_6_scenarios.py:768-775 | the release of the route-return check |
| ReleaseTimes.TwoPassRelease | scripts/run_6_scenarios.py:977-987 | the two-pass search of the phase check returns the same release on every trace |
| ReleaseTimes.ReleaseMeaning | scripts/run_6_scenarios.py:970-987 | that release is the one TRANSIT record with an avoidance before it, none after it, and no TRANSIT in between |
| ReleaseTimes.OracleRelease | scripts/run_colregs_module_oracle.py:73-88 | the third derivation, and that it raises exactly on an unreadable label |
| ReleaseTimes.FewerAvoidances | scripts/run_colregs_module_oracle.py:79-87 | with fewer records counting as avoidance the release is the same if and only if no end lies between the two last avoidances (or there was none to find) |
| ReleaseTimes.OracleAgreesIff | scripts/run_colregs_module_oracle.py:73-88 | when the third derivation picks the same record as the runner, on every trace of integer codes |
| ReleaseTimes.ThreeDerivationsAgree | scripts/run_colregs_module_oracle.py:73-88 | with codes 0, 1, 2 and 7 all three derivations agree |
| SmallAlterations.SmallAlterationRunCount | scripts/run_6_scenarios.py:1097-1115 | the loop counts the maximal blocks of consecutive deviations below 10 degrees with at least two sign changes |
| SmallAlterations.RunsCountBlocks | scripts/run_6_scenarios.py:1097-1115 | counting block by block counts each maximal block once |
| SmallAlterations.ChangesCountFlips | scripts/run_6_scenarios.py:1097-1115 | the changes of a block are the places at which the sign differs from that of the sample before |
| SmallAlterations.ChatterBound | scripts/run_6_scenarios.py:1097-1121 | n samples have at most (n + 1) / 4 such blocks |
| RiskExposure.ComputeExposure | scripts/run_6_scenarios.py:443-519 | the loop charges each interval to the phase of the sample that opens it, danger less the grace period |
| RiskExposure.RunExposureBounds | scripts/run_6_scenarios.py:371-373 | 0 <= danger <= warning <= span, and danger <= max(0, span - 5 s) |
| RiskExposure.ConstantDangerIsChargedInFull | scripts/run_6_scenarios.py:450-455 | both bounds are attained |
| RiskExposure.LoneWarningIsCharged | scripts/run_6_scenarios.py:450-455 | a lone warning sample is charged the interval up to the next sample |
| RiskExposure.LoneDangerIsCharged | scripts/run_6_scenarios.py:371-373 | a lone danger sample is charged the part of that interval that lies after the grace period |
| RiskExposure.Accumulate | tools/sil/colregs_trace_evaluator.py:98-111 | the loop's four sums are the flagged times of the two phases, for any classification |
| RiskExposure.ComputeExposureMetrics | tools/sil/colregs_trace_evaluator.py:95-117 | those sums over the time-sorted samples |
| RiskExposure.EachIntervalIsChargedOnce | tools/sil/colregs_trace_evaluator.py:103-111 | the three phases together are charged every flagged interval exactly once, never beyond the span |
| RiskExposure.LoneSampleChargesItsPhase | tools/sil/colregs_trace_evaluator.py:103-111 | a lone flagged sample charges its phase the interval up to the next sample |
| RiskExposure.AbaftMeaning | tools/sil/colregs_trace_evaluator.py:64-92 | a bearing counts as abaft the beam if and only if, up to full turns, it lies strictly between 90 and 270 degrees |
| Seamanship.Accumulate | scripts/run_6_scenarios.py:585-590 | the loop's path length and trapezoidal integral |
| Seamanship.CountCrossings | scripts/run_6_scenarios.py:592-604 | the crossing count is the number of side changes of the samples outside the dead band |
| Seamanship.ComputeMetrics | scripts/run_6_scenarios.py:562-618 | all four metrics, the empty track included |
| Seamanship.PathAtLeastNet | scripts/run_6_scenarios.py:590 | the path is at least the net displacement |
| Seamanship.StraightPath | scripts/run_6_scenarios.py:590 | on a straight track run in one direction the path is the net displacement |
| Seamanship.RatioBelowOneIff | scripts/run_6_scenarios.py:606-618 | without route distance the ratio is below one if and only if the track is shorter than a metre |
| Seamanship.IntegralWithinWorst | scripts/run_6_scenarios.py:587-589 | the integral of the cross-track error is at most the largest error times the span |
| Seamanship.AffineErrorIsExact | scripts/run_6_scenarios.py:587-589 | a cross-track error that changes linearly on one side of the route is integrated exactly |
| Seamanship.CrossingParity | scripts/run_6_scenarios.py:592-604 | an odd number of crossings if and only if first and last excursion lie on different sides |
| Seamanship.AlternationsCount | scripts/run_6_scenarios.py:592-604 | the crossings are counted as the places at which neighbouring excursions lie on different sides |
| RouteDensify.DensifyLeg | docker/mock_l2_publisher.py:141-158 | the sub-points of one leg, the last one snapped to its finish |
| RouteDensify.DensifyWaypoints | docker/mock_l2_publisher.py:126-159 | the loop chains the legs; short routes and non-positive spacings are returned as they are |
| RouteDensify.NominalWaypointsKept | docker/mock_l2_publisher.py:133-159 | every nominal waypoint stands verbatim at its computed index, and the length is one plus the number of sub-legs |
| RouteDensify.OffsetsIncrease | docker/mock_l2_publisher.py:133-136 | those indices increase, so the order is kept |
| RouteDensify.DensifiedIsSpaced | docker/mock_l2_publisher.py:148-158 | no leg of the result is longer than the spacing, on exactly projected legs |
| RouteDensify.StepsIsLeast | docker/mock_l2_publisher.py:148-150 | a leg gets the least positive number of sub-legs whose steps of the spacing reach its finish |
| RouteDensify.SubLegsAreEqual | docker/mock_l2_publisher.py:148-158 | the sub-legs of an exactly projected leg are equally long |
| RouteDensify.UnchangedIff | docker/mock_l2_publisher.py:144-147 | a route is unchanged if and only if no leg is longer than the spacing |
| RouteDensify.DensifyIsIdempotent | docker/mock_l2_publisher.py:126-159 | densifying twice is densifying once, on exactly projected legs |
| SpeedResample.ResampleSpeeds | docker/mock_l2_publisher.py:162-191 | one speed per waypoint, the last one the nominal last, the others by bucket; an index error exactly when the speed list is too short |
| SpeedResample.BucketMonotone | docker/mock_l2_publisher.py:183-186 | leg indices never decrease |
| SpeedResample.PerLegMeaning | docker/mock_l2_publisher.py:183-186 | a bucket has at least one point, and otherwise as many as fit when every leg gets the same number |
| SpeedResample.BucketMeaning | docker/mock_l2_publisher.py:183-186 | bucket k holds the points from k bucket sizes up to the next multiple, and the last bucket all the rest |
| SpeedResample.EveryLegAppears | docker/mock_l2_publisher.py:183-186 | every leg gets a bucket in front of the last point |
| SpeedResample.ResampledRoute | docker/mock_l2_publisher.py:561-563 | on a densified route with one speed per nominal waypoint no index is out of range and every leg's start speed appears |
| SpeedResample.AlignedIff | docker/mock_l2_publisher.py:183-186 | every point lies in the bucket of its own leg if and only if all legs but the last have as many sub-legs as the bucket size |
| SpeedResample.HeldForAllIff | docker/mock_l2_publisher.py:167-191 | every speed list has each leg's start speed held across that leg if and only if all legs but the last have as many sub-legs as the bucket size the code computes |
| SpeedResample.ConstantSpeedIsHeld | docker/mock_l2_publisher.py:167-191 | at constant speed every leg's start speed is held, on every route |
| SpeedResample.UnevenLegsAreMisaligned | docker/mock_l2_publisher.py:167-191 | a leg of one sub-leg at 5 knots before one of three at 15: the point where the fast leg starts gets 5 knots |
| CoverageCube.CoverageCube.MarkCell | tools/sil/coverage_cube.py:103-117 | a mark lights one cell, none for an unknown rule, and in open sea for an unknown zone |
| CoverageCube.CoverageCube.ToHeatmapMatrix | tools/sil/coverage_cube.py:156-179 | the nested loops count, for each rule and zone of the filter, the lit cells over bins and seeds |
| CoverageCube.CoverageCube.FilteredCellsLit | tools/sil/coverage_cube.py:181-194 | the loop counts the lit cells that match the filter |
| CoverageCube.HeatmapCounts | tools/sil/coverage_cube.py:156-179 | the matrix sums to the number of matching lit cells with a seed in 1..5 |
| CoverageCube.HeatEntryMeaning | tools/sil/coverage_cube.py:156-179 | each entry is the number of lit cells of its rule and zone with a seed in 1..5 |
| CoverageCube.MarkAllMeaning | tools/sil/coverage_cube.py:103-120 | marks never take a cell away and only light known rules and zones |
| CoverageCube.MarkedCells | tools/sil/coverage_cube.py:103-120 | after any marks exactly those cells are lit that were lit before or that some mark lights |
| CoverageCube.CountsAgreeIff | tools/sil/coverage_cube.py:156-194 | after any marks and for every filter the filtered count equals the filtered sum if and only if no matching cell has a seed outside 1..5 |
| CoverageCube.CubeBounded | tools/sil/coverage_cube.py:32-120 | with seeds in 1..5 the unfiltered sum is `cells_lit`, which never exceeds 1100 |

## Left out

- Floating point: rounding, NaN and infinities; all arithmetic is over the reals.
- Event time selection: a row carries its event time and its canonical time; how they are chosen from the row's
  fields is not part of this model.
- Module oracles, their adapters and the risk model are arbitrary functions; their own logic is not part of this
  model.  The route handoff, which the FAST evaluator contains itself, is modelled.
- The verdict's evidence dictionary and its final display rounding of required and realized angle.
- `check_qualified_artifacts`, `check_consistency`, and the strict auditor beyond its clear-terminal scan.
- The geometry uses unit vectors instead of angles; sine, cosine, arctangent and the default approach angles of the
  rules are not modelled, nor is the parsing of scenario files with its defaults.
- RouteDensify.DensifiedIsSpaced: assumes that projection along a leg is exact, because great-circle geodesy is not
  modelled; the same holds for RouteDensify.DensifyIsIdempotent.
- TraceWriter.DebugTraceWriter.Flush: errors while rotating, compression, and partial writes are not modelled; a
  failed write loses the whole batch.
- TraceWriter.DebugTraceWriter.Close: an error between its write and the closing of the file is not modelled.
- The writer's timer fires once per reset; it is an outside flush that may come at any time, and no periodic flush is
  claimed.
- RocNode.RocHmiSimulatorNode.OnTorRequest: the fields of the request, the user-interface state and the situation
  data are stored and read back unchanged by the code and are left out.
- LifecycleReset.ConfigureConverges: the states of the secondary nodes are not tracked; a finalized node, and calls of
  earlier requests that the node serves meanwhile, are excluded, as in LifecycleReset.ResetConverges.
- LifecycleRequests.RequestConverges: no timer may expire between the request and its return; the interleavings with
  timers are those of `LifecycleRuns` and `LifecycleMirror`.
- LifecycleBridge.LifecycleBridge.StartTimers: assumes that the duration is a readable number.
- Own-ship tracking, target spawning, simulation rate and scenario injection of the lifecycle bridge: plumbing.
- RiskExposure.ComputeExposure: worst margins, maxima, primary-target switches and the risk trace are left out; they
  would only add running maxima.
- Seamanship.ComputeMetrics: starts from records already selected by area and manoeuvre end.
- The other phase gates, the thresholds of the route-return check and the domain gate: conjunctions of comparisons.
- CoverageCube.CoverageCube.MarkCell: the normalisation of rule labels is an arbitrary function, and reading marks
  from a file is left out.
- Trace row kinds beyond the topics the tools look for, ROS messages, HTTP routes and plotting.
