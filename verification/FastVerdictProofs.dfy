/** What the FAST verdict depends on, and what a pass means. */
module FastVerdictProofs {
  import opened Options
  import opened TraceRow
  import opened FastBoundary
  import opened BoundarySlicing
  import opened OwnLifecycle
  import opened ArtifactConsistency
  import opened AuditorAgreement
  import opened FastEvaluator

  /** Rows later than the stop cannot change the verdict, whatever the module oracles compute. */
  lemma VerdictIgnoresLaterRows(rows: seq<Row>, other: seq<Row>, scenario: Scenario, report: Report, o: Oracles)
    requires BoundaryFor(rows, scenario).Ok?
    requires var stop := BoundaryFor(rows, scenario).value.stop;
             stop.Some? && Slice(other, stop.value) == Slice(rows, stop.value)
    ensures EvaluateFastTrace(other, scenario, report, o) == EvaluateFastTrace(rows, scenario, report, o)
  {
    BoundaryDependsOnSlice(rows, other, scenario.minTransit,
                           if scenario.fastTerminal == "" then OWN_RECOVERY_ENTRY else scenario.fastTerminal,
                           scenario.clearDwell);
  }

  lemma SliceHasTheSameBoundary(rows: seq<Row>, scenario: Scenario)
    requires BoundaryFor(rows, scenario).Ok?
    ensures BoundaryFor(FastSlice(rows, BoundaryFor(rows, scenario).value), scenario) == BoundaryFor(rows, scenario)
  {
    var b := BoundaryFor(rows, scenario).value;
    if b.stop.Some? {
      RescanningTheSliceAgrees(rows, scenario.minTransit,
                               if scenario.fastTerminal == "" then OWN_RECOVERY_ENTRY else scenario.fastTerminal,
                               scenario.clearDwell);
    }
  }

  lemma EvaluatedEvidence(rows: seq<Row>, scenario: Scenario, m: ModuleResults, round3: real -> real)
    requires BoundaryFor(rows, scenario).Ok?
    ensures EvaluateFast(rows, scenario, m, round3).Ok?
    ensures EvaluateFast(rows, scenario, m, round3).value.evidence
         == Gather(rows, scenario, BoundaryFor(rows, scenario).value, round3)
  {
  }

  /** `evaluate_fast` recomputes the boundary on the slice it is given; the verdict rests on the same
      boundary as the slice. */
  lemma VerdictUsesTheSlicingBoundary(rows: seq<Row>, scenario: Scenario, report: Report, o: Oracles)
    requires BoundaryFor(rows, scenario).Ok?
    ensures EvaluateFastTrace(rows, scenario, report, o).Ok?
    ensures EvaluateFastTrace(rows, scenario, report, o).value.evidence.boundary
         == BoundaryFor(rows, scenario).value
  {
    var b := BoundaryFor(rows, scenario).value;
    var slice, s := FastSlice(rows, b), WithReportCpa(scenario, report);
    SliceHasTheSameBoundary(rows, scenario);
    assert BoundaryFor(slice, s) == BoundaryFor(slice, scenario);
    EvaluatedEvidence(slice, s, RunOracles(slice, b, scenario, report, o), o.round3);
  }

  lemma {:induction false} FirstFailedMeaning(chain: seq<Check>, k: nat, holds: Check -> bool)
    requires k <= |chain|
    ensures match FirstFailed(chain, k, holds)
            case None => forall i :: k <= i < |chain| ==> holds(chain[i])
            case Some(c) => exists n :: k <= n < |chain| && chain[n] == c && !holds(c)
                                     && forall i :: k <= i < n ==> holds(chain[i])
    decreases |chain| - k
  {
    if k < |chain| && holds(chain[k]) {
      FirstFailedMeaning(chain, k + 1, holds);
    }
  }

  lemma ChainHasEveryCheck(c: Check)
    ensures exists n :: 0 <= n < |CHAIN| && CHAIN[n] == c
  {
    var n := match c
      case ScenarioTruthLocked => 0
      case TransitPrefixObserved => 1
      case AvoidanceObserved => 2
      case M2GeometryValid => 3
      case M6RuleRoleDirectionValid => 4
      case StandOnHoldBeforeTAct => 5
      case TargetActorContractRealized => 6
      case DynamicActionRealized => 7
      case M4LifecycleValid => 8
      case M5ExecutableRouteValid => 9
      case GncHandoffIdentityValid => 10
      case ScenarioCpaAcceptanceMet => 11
      case M7CheckerClosed => 12
      case M1MrmAuthorityValid => 13
      case FirstRecoveryBoundaryObserved => 14
      case GArtConsistent => 15
      case GArtComplete => 16;
    assert CHAIN[n] == c;
  }

  /** Check `n` of the chain is the earliest one that does not hold. */
  ghost predicate IsFirstFailure(n: int, chain: seq<Check>, holds: Check -> bool) {
    0 <= n < |chain| && !holds(chain[n]) && forall i :: 0 <= i < n ==> holds(chain[i])
  }

  lemma ChainDecides(holds: Check -> bool)
    ensures FirstFailed(CHAIN, 0, holds).None? <==> forall c :: holds(c)
    ensures FirstFailed(CHAIN, 0, holds).Some? ==>
              exists n :: IsFirstFailure(n, CHAIN, holds) && FirstFailed(CHAIN, 0, holds) == Some(CHAIN[n])
  {
    FirstFailedMeaning(CHAIN, 0, holds);
    if FirstFailed(CHAIN, 0, holds).None? {
      forall c ensures holds(c) {
        ChainHasEveryCheck(c);
      }
    } else {
      var n :| 0 <= n < |CHAIN| && FirstFailed(CHAIN, 0, holds) == Some(CHAIN[n]) && !holds(CHAIN[n])
               && forall i :: 0 <= i < n ==> holds(CHAIN[i]);
      assert IsFirstFailure(n, CHAIN, holds);
    }
  }

  /** The verdict passes exactly when every check holds; otherwise the blamed stage and code belong to
      the earliest failing check of the chain.  The separate "boundary not ready" branch after the
      chain is never taken. */
  lemma VerdictFollowsTheChain(e: Evidence, scenario: Scenario, m: ModuleResults)
    ensures var v, holds := Compose(e, scenario, m), HoldsIn(e, scenario, m);
            && (v.passed <==> forall c :: holds(c))
            && (v.passed <==> v.firstFailure.None?)
            && (!v.passed ==>
                  exists n :: IsFirstFailure(n, CHAIN, holds)
                    && v.firstBrokenStage == StageOf(CHAIN[n])
                    && v.firstFailure == Some(FailureOf(CHAIN[n], e.boundary, e.contract, scenario)))
  {
    var holds := HoldsIn(e, scenario, m);
    ChainDecides(holds);
    if FirstFailed(CHAIN, 0, holds).None? {
      assert holds(FirstRecoveryBoundaryObserved);
    }
  }

  lemma PassHolds(e: Evidence, scenario: Scenario, m: ModuleResults)
    requires Compose(e, scenario, m).passed
    ensures e.boundary.ready && m.m8 && e.cpaOk && e.dynamicOk
  {
    var holds := HoldsIn(e, scenario, m);
    VerdictFollowsTheChain(e, scenario, m);
    assert holds(FirstRecoveryBoundaryObserved) && holds(GArtComplete);
    assert holds(ScenarioCpaAcceptanceMet) && holds(DynamicActionRealized);
  }

  lemma PassHoldsEverything(rows: seq<Row>, scenario: Scenario, report: Report, o: Oracles)
    requires EvaluateFastTrace(rows, scenario, report, o).Ok?
    requires EvaluateFastTrace(rows, scenario, report, o).value.passed
    ensures BoundaryFor(rows, scenario).Ok? && BoundaryFor(rows, scenario).value.ready
    ensures var b := BoundaryFor(rows, scenario).value;
            var slice := FastSlice(rows, b);
            && AuditOf(slice, report).Passes()
            && CpaAccepted(WithReportCpa(scenario, report))
            && Gather(slice, WithReportCpa(scenario, report), b, o.round3).dynamicOk
  {
    VerdictUsesTheSlicingBoundary(rows, scenario, report, o);
    var b := BoundaryFor(rows, scenario).value;
    var slice := FastSlice(rows, b);
    var s, m := WithReportCpa(scenario, report), RunOracles(slice, b, scenario, report, o);
    var e := Gather(slice, s, b, o.round3);
    GatherKeeps(slice, s, b, o.round3);
    EvaluatedVerdict(slice, s, m, o.round3);
    PassHolds(e, s, m);
  }

  lemma GatherKeeps(rows: seq<Row>, scenario: Scenario, b: Boundary, round3: real -> real)
    ensures Gather(rows, scenario, b, round3).boundary == b
    ensures Gather(rows, scenario, b, round3).cpaOk == CpaAccepted(scenario)
  {
  }

  lemma EvaluatedVerdict(rows: seq<Row>, scenario: Scenario, m: ModuleResults, round3: real -> real)
    requires BoundaryFor(rows, scenario).Ok?
    ensures EvaluateFast(rows, scenario, m, round3)
         == Ok(Compose(Gather(rows, scenario, BoundaryFor(rows, scenario).value, round3), scenario, m))
  {
  }

  /** A passed own-recovery run, in terms of the raw trace alone: the M4 modes began 0+ 1+ 7 with a
      full TRANSIT prefix, the recovery time the report claims, if any, is within a second of the raw
      minimum (and of the stop), and the scoring rows up to the stop really stayed above the scenario
      floor, up to the one-metre reporting tolerance, provided that the report gives a CPA.  Without one
      the scenario's own DCPA was compared instead. */
  lemma PassedOwnRun(rows: seq<Row>, scenario: Scenario, report: Report, o: Oracles)
    requires scenario.fastTerminal == "" || scenario.fastTerminal == OWN_RECOVERY_ENTRY
    requires !IsTargetResolution(report)
    requires forall r :: r in rows && IsBehaviorPlan(r) ==> ReadsAlike(r)
    requires EvaluateFastTrace(rows, scenario, report, o).Ok?
    requires EvaluateFastTrace(rows, scenario, report, o).value.passed
    ensures exists i, j :: IsLifecycle(Modes(rows), scenario.minTransit, i, j)
    ensures OwnBoundary(rows, scenario.minTransit).ready
    ensures var stop := OwnBoundary(rows, scenario.minTransit).stop.value;
            && RawRecoveryTime(rows) == Some(stop)
            && Admissible(ToFloat(report.firstRecovery), stop, TIME_TOL_S)
            && ToFloat(scenario.cpaFloor).Some?
            && (ToFloat(report.minCpa).Some? ==>
                  && ToFloat(report.minCpa).value >= ToFloat(scenario.cpaFloor).value
                  && forall r, x :: r in rows && r.t <= stop && ScoresCpa(r, x) ==>
                       x >= ToFloat(scenario.cpaFloor).value - CPA_TOL_M)
            && (ToFloat(report.minCpa).None? ==>
                  ToFloat(scenario.dcpa).Some? && ToFloat(scenario.dcpa).value >= ToFloat(scenario.cpaFloor).value)
  {
    PassHoldsEverything(rows, scenario, report, o);
    ReadyIffLifecycle(rows, scenario.minTransit);
    ReadyBoundaryIsOrdered(rows, scenario.minTransit);
    OwnAuditorsAgree(rows, scenario.minTransit);
    OwnAuditSurvivesSlicing(rows, scenario.minTransit, scenario.clearDwell, report);
    if ToFloat(report.minCpa).Some? {
      AcceptedCpaBoundsScoring(rows, OwnBoundary(rows, scenario.minTransit).stop.value, scenario, report);
    }
  }

  lemma OwnAuditSurvivesSlicing(rows: seq<Row>, minTransit: real, dwell: real, report: Report)
    requires OwnBoundary(rows, minTransit).ready && !IsTargetResolution(report)
    requires forall r :: r in rows && IsBehaviorPlan(r) ==> ReadsAlike(r)
    requires AuditOf(Slice(rows, OwnBoundary(rows, minTransit).stop.value), report).Passes()
    ensures Admissible(ToFloat(report.firstRecovery), OwnBoundary(rows, minTransit).recoveryStart.value, TIME_TOL_S)
  {
    var slice := Slice(rows, OwnBoundary(rows, minTransit).stop.value);
    RescanningTheSliceAgrees(rows, minTransit, OWN_RECOVERY_ENTRY, dwell);
    OwnAuditorsAgree(slice, minTransit);
    AuditPassesIff(slice, report);
  }

  lemma AcceptedCpaBoundsScoring(rows: seq<Row>, stop: real, scenario: Scenario, report: Report)
    requires AuditOf(Slice(rows, stop), report).Passes()
    requires CpaAccepted(WithReportCpa(scenario, report))
    requires ToFloat(report.minCpa).Some?
    ensures ToFloat(scenario.cpaFloor).Some?
    ensures ToFloat(report.minCpa).value >= ToFloat(scenario.cpaFloor).value
    ensures forall r, x :: r in rows && r.t <= stop && ScoresCpa(r, x) ==>
              x >= ToFloat(scenario.cpaFloor).value - CPA_TOL_M
  {
    var slice := Slice(rows, stop);
    AuditPassesIff(slice, report);
    RawMinCpaMeaning(slice);
    forall r, x | r in rows && r.t <= stop && ScoresCpa(r, x)
      ensures RawMinCpa(slice).value <= x
    {
      assert Time(r) == r.t && r in slice;
    }
  }
}
