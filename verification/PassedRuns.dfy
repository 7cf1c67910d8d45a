/** What a passed FAST verdict says about the raw rows, beyond the lifecycle itself. */
module PassedRuns {
  import opened Options
  import opened RealMath
  import opened TraceRow
  import opened StableSort
  import opened FastBoundary
  import opened BoundarySlicing
  import opened OwnLifecycle
  import opened ArtifactConsistency
  import opened AuditorAgreement
  import opened FastEvaluator
  import opened FastVerdictProofs
  import opened EvaluatorSlicing
  import opened TargetActor

  ghost predicate Passed(rows: seq<Row>, scenario: Scenario, report: Report, o: Oracles) {
    EvaluateFastTrace(rows, scenario, report, o).Ok? && EvaluateFastTrace(rows, scenario, report, o).value.passed
  }

  lemma {:induction false} SameResolution(rows: seq<Row>, a: Scenario, b: Scenario, initial: real, limit: Option<real>)
    requires a.targetRequired == b.targetRequired && a.targetCpa == b.targetCpa
    ensures FirstResolution(rows, a, initial, limit) == FirstResolution(rows, b, initial, limit)
  {
    if rows != [] {
      SameResolution(rows[1..], a, b, initial, limit);
    }
  }

  lemma CpaLeavesTheRest(rows: seq<Row>, scenario: Scenario, report: Report, limit: Option<real>, round3: real -> real)
    ensures var s := WithReportCpa(scenario, report);
            && BoundaryFor(rows, s) == BoundaryFor(rows, scenario)
            && IsTarget(s) == IsTarget(scenario)
            && TargetContract(rows, s, limit, round3) == TargetContract(rows, scenario, limit, round3)
  {
    var initial := ToFloat(scenario.targetInitialHeading);
    if initial.Some? {
      SameResolution(rows, WithReportCpa(scenario, report), scenario, initial.value, limit);
    }
  }

  /** A verdict, composed on the whole trace. */
  lemma ComposedOnRows(rows: seq<Row>, scenario: Scenario, report: Report, o: Oracles)
    requires BoundaryFor(rows, scenario).Ok?
    ensures var b, s := BoundaryFor(rows, scenario).value, WithReportCpa(scenario, report);
            EvaluateFastTrace(rows, scenario, report, o)
            == Ok(Compose(Gather(rows, s, b, o.round3), s, RunOracles(FastSlice(rows, b), b, scenario, report, o)))
  {
    var b, s := BoundaryFor(rows, scenario).value, WithReportCpa(scenario, report);
    var m := RunOracles(FastSlice(rows, b), b, scenario, report, o);
    CpaLeavesTheRest(rows, scenario, report, None, o.round3);
    EvaluateFastNeedsNoSlice(rows, s, m, o.round3);
    EvaluatedVerdict(rows, s, m, o.round3);
  }

  lemma PassedOnRows(rows: seq<Row>, scenario: Scenario, report: Report, o: Oracles)
    requires Passed(rows, scenario, report, o)
    ensures BoundaryFor(rows, scenario).Ok?
    ensures var b, s := BoundaryFor(rows, scenario).value, WithReportCpa(scenario, report);
            Compose(Gather(rows, s, b, o.round3), s, RunOracles(FastSlice(rows, b), b, scenario, report, o)).passed
  {
    ComposedOnRows(rows, scenario, report, o);
  }

  // ----- Own recovery: every M6 demand was met -----

  /** How far the rounding of the realized angle may be off. */
  const ROUNDING := 0.0005

  /** The rounding, and the slack of the comparison. */
  const SLACK := ROUNDING + 0.000001

  /** One own-ship sample, not before `onset` and not after `stop`, that meets every demand from the base
      heading `base`. */
  ghost predicate MeetsAll(sample: Row, demands: seq<Demand>, base: real, onset: real, stop: real) {
    && IsOwnShip(sample) && onset <= sample.t <= stop
    && forall d :: d in demands ==> SignedTurn(sample, base, SignOf(d.direction)) >= d.degrees - SLACK
  }

  lemma LargestTurnSample(own: seq<Row>, base: real, onset: real, stop: Option<real>, sign: real) returns (sample: Row)
    requires LargestTurn(Filter(InWindow(onset, stop), own), base, sign) > 0.0
    ensures sample in own && InWindow(onset, stop)(sample)
    ensures SignedTurn(sample, base, sign) == LargestTurn(Filter(InWindow(onset, stop), own), base, sign)
  {
    var window := Filter(InWindow(onset, stop), own);
    sample :| sample in window && SignedTurn(sample, base, sign) == LargestTurn(window, base, sign);
  }

  lemma RealizedSample(rows: seq<Row>, from: real, onset: real, stop: real, direction: string) returns (sample: Row)
    requires RealizedTurn(rows, from, onset, Some(stop), direction) > 0.0
    ensures BaseHeading(OwnShipRows(rows), from).Some?
    ensures sample in rows && IsOwnShip(sample) && onset <= sample.t <= stop
    ensures SignedTurn(sample, BaseHeading(OwnShipRows(rows), from).value, SignOf(direction))
         == RealizedTurn(rows, from, onset, Some(stop), direction)
  {
    var own := OwnShipRows(rows);
    sample := LargestTurnSample(own, BaseHeading(own, from).value, onset, Some(stop), SignOf(direction));
  }

  /** The demand up to `stop` was realized, measured from the heading at `base`. */
  ghost predicate DemandMet(rows: seq<Row>, base: real, stop: Option<real>, round3: real -> real) {
    match ContractOf(Demands(rows, stop))
    case NoDemand => true
    case Inconsistent(_) => false
    case Turning(onset, direction, required) =>
      round3(RealizedTurn(rows, base, onset, stop, direction)) + 0.000001 >= required
  }

  lemma DynamicCheck(rows: seq<Row>, s: Scenario, b: Boundary, round3: real -> real)
    requires !IsTarget(s) && b.avoidanceStart.Some? && RecoveryStop(b) == b.stop && b.stop.Some?
    ensures Gather(rows, s, b, round3).dynamicOk <==> DemandMet(rows, b.avoidanceStart.value, b.stop, round3)
  {
  }

  lemma ComposedDynamicCheck(rows: seq<Row>, s: Scenario, m: ModuleResults, round3: real -> real)
    requires var b := OwnBoundary(rows, s.minTransit); Compose(Gather(rows, s, b, round3), s, m).passed
    requires !IsTarget(s)
    ensures var b := OwnBoundary(rows, s.minTransit);
            b.ready && b.avoidanceStart.Some? && b.stop.Some?
            && DemandMet(rows, b.avoidanceStart.value, b.stop, round3)
  {
    var b := OwnBoundary(rows, s.minTransit);
    GatherKeeps(rows, s, b, round3);
    PassHolds(Gather(rows, s, b, round3), s, m);
    ReadyBoundaryIsOrdered(rows, s.minTransit);
    DynamicCheck(rows, s, b, round3);
  }

  /** What the dynamic check compared, on the raw rows. */
  lemma PassedDynamicCheck(rows: seq<Row>, scenario: Scenario, report: Report, o: Oracles)
    requires !IsTarget(scenario) && Passed(rows, scenario, report, o)
    ensures var b := OwnBoundary(rows, scenario.minTransit);
            b.ready && b.avoidanceStart.Some? && b.stop.Some?
            && DemandMet(rows, b.avoidanceStart.value, b.stop, o.round3)
  {
    PassedOnRows(rows, scenario, report, o);
    var b, s := BoundaryFor(rows, scenario).value, WithReportCpa(scenario, report);
    CpaLeavesTheRest(rows, scenario, report, None, o.round3);
    ComposedDynamicCheck(rows, s, RunOracles(FastSlice(rows, b), b, scenario, report, o), o.round3);
  }

  /** All demands up to `stop` ask for one direction, and unless they lie within the slack, `sample` meets them
      all, measured from the heading at `base`. */
  ghost predicate MeetsEveryDemand(rows: seq<Row>, base: real, stop: real, sample: Row) {
    var demands := Demands(rows, Some(stop));
    var c := ContractOf(demands);
    demands != [] ==>
      && c.Turning?
      && (forall d :: d in demands ==> d.direction == c.direction)
      && (c.required > SLACK ==>
            var h := BaseHeading(OwnShipRows(rows), base);
            h.Some? && sample in rows && MeetsAll(sample, demands, h.value, c.onset, stop))
  }

  ghost predicate RoundsWithin(round3: real -> real) {
    forall x :: Abs(round3(x) - x) <= ROUNDING
  }

  lemma RoundedClose(round3: real -> real, x: real, y: real)
    requires RoundsWithin(round3) && round3(x) + 0.000001 >= y
    ensures x >= y - SLACK
  {
    assert Abs(round3(x) - x) <= ROUNDING;
  }

  lemma TurnMeetsAll(sample: Row, demands: seq<Demand>, h: real, stop: real)
    requires var c := ContractOf(demands);
             c.Turning? && IsOwnShip(sample) && c.onset <= sample.t <= stop
             && SignedTurn(sample, h, SignOf(c.direction)) >= c.required - SLACK
    ensures MeetsAll(sample, demands, h, ContractOf(demands).onset, stop)
  {
  }

  lemma TurningIsMet(rows: seq<Row>, base: real, stop: real, c: Contract) returns (sample: Row)
    requires c.Turning? && c == ContractOf(Demands(rows, Some(stop))) && c.required > SLACK
    requires RealizedTurn(rows, base, c.onset, Some(stop), c.direction) >= c.required - SLACK
    ensures MeetsEveryDemand(rows, base, stop, sample)
  {
    sample := RealizedSample(rows, base, c.onset, stop, c.direction);
    TurnMeetsAll(sample, Demands(rows, Some(stop)), BaseHeading(OwnShipRows(rows), base).value, stop);
  }

  lemma DemandIsMet(rows: seq<Row>, base: real, stop: real, round3: real -> real) returns (sample: Row)
    requires DemandMet(rows, base, Some(stop), round3) && RoundsWithin(round3)
    ensures MeetsEveryDemand(rows, base, stop, sample)
  {
    var c := ContractOf(Demands(rows, Some(stop)));
    if c.Turning? && c.required > SLACK {
      RoundedClose(round3, RealizedTurn(rows, base, c.onset, Some(stop), c.direction), c.required);
      sample := TurningIsMet(rows, base, stop, c);
    } else {
      sample := PlanRow(0.0, Absent);
    }
  }

  /** In a passed own-recovery run all M6 demands up to the stop ask for one direction, and one heading
      sample, between the first demand and the stop, had turned far enough for all of them from the heading
      at the avoidance onset. */
  lemma PassedRunMetEveryDemand(rows: seq<Row>, scenario: Scenario, report: Report, o: Oracles)
    returns (b: Boundary, sample: Row)
    requires !IsTarget(scenario) && Passed(rows, scenario, report, o) && RoundsWithin(o.round3)
    ensures b == OwnBoundary(rows, scenario.minTransit)
    ensures b.ready && b.avoidanceStart.Some? && b.stop.Some?
    ensures MeetsEveryDemand(rows, b.avoidanceStart.value, b.stop.value, sample)
  {
    PassedDynamicCheck(rows, scenario, report, o);
    b := OwnBoundary(rows, scenario.minTransit);
    assert b.stop == Some(b.stop.value);
    sample := DemandIsMet(rows, b.avoidanceStart.value, b.stop.value, o.round3);
  }

  // ----- Target resolution -----

  lemma PassedBoundaryChecks(e: Evidence, scenario: Scenario, m: ModuleResults)
    requires Compose(e, scenario, m).passed
    ensures e.boundary.ready && m.m8 && e.targetOk
  {
    var holds := HoldsIn(e, scenario, m);
    VerdictFollowsTheChain(e, scenario, m);
    assert holds(FirstRecoveryBoundaryObserved) && holds(GArtComplete) && holds(TargetActorContractRealized);
  }

  lemma PassedTargetChecks(e: Evidence, scenario: Scenario, m: ModuleResults)
    requires Compose(e, scenario, m).passed && IsTarget(scenario)
    ensures e.standOnOk && e.noRoute && e.noTakeover
  {
    var holds := HoldsIn(e, scenario, m);
    VerdictFollowsTheChain(e, scenario, m);
    assert holds(StandOnHoldBeforeTAct) && holds(M5ExecutableRouteValid) && holds(GncHandoffIdentityValid);
  }

  lemma TargetGathered(rows: seq<Row>, s: Scenario, b: Boundary, round3: real -> real)
    requires IsTarget(s) && b.stop.Some?
    ensures var e := Gather(rows, s, b, round3);
            && e.standOnOk == OwnHolds(rows, b.stop)
            && e.targetOk == TargetContract(rows, s, b.stop, round3).passed
            && e.noRoute == NoTacticalRoute(rows, b.stop)
            && e.noTakeover == NoGncTakeover(rows, b.stop)
  {
  }

  lemma PassedTargetEvidence(rows: seq<Row>, scenario: Scenario, report: Report, o: Oracles)
    requires IsTarget(scenario) && Passed(rows, scenario, report, o)
    ensures var b := TargetBoundary(rows, scenario.minTransit, scenario.clearDwell);
            && b.ready
            && AuditOf(Slice(rows, b.stop.value), report).Passes()
            && OwnHolds(rows, b.stop) && NoTacticalRoute(rows, b.stop) && NoGncTakeover(rows, b.stop)
            && TargetContract(rows, scenario, b.stop, o.round3).passed
  {
    PassedOnRows(rows, scenario, report, o);
    var b, s := BoundaryFor(rows, scenario).value, WithReportCpa(scenario, report);
    CpaLeavesTheRest(rows, scenario, report, b.stop, o.round3);
    GatherKeeps(rows, s, b, o.round3);
    var e, m := Gather(rows, s, b, o.round3), RunOracles(FastSlice(rows, b), b, scenario, report, o);
    PassedBoundaryChecks(e, s, m);
    PassedTargetChecks(e, s, m);
    TargetGathered(rows, s, b, o.round3);
  }

  /** A passed target-resolution run, in terms of the raw trace: up to the stop own ship held its heading,
      made no tactical route and took nothing over, and the target acted as demanded.  If the report is a
      target-resolution report too, the terminal it claims is within a second of the clear terminal of the
      slice under the report's own dwell; under the scenario's dwell that is the raw clear terminal. */
  lemma PassedTargetRun(rows: seq<Row>, scenario: Scenario, report: Report, o: Oracles)
    requires IsTarget(scenario) && Passed(rows, scenario, report, o)
    ensures var b := TargetBoundary(rows, scenario.minTransit, scenario.clearDwell);
            && b.ready
            && OwnHolds(rows, b.stop) && NoTacticalRoute(rows, b.stop) && NoGncTakeover(rows, b.stop)
            && TargetComplies(rows, scenario, b.stop)
            && RawClearTerminal(rows, scenario.clearDwell).Some?
            && RawClearTerminal(rows, scenario.clearDwell).value <= b.stop.value
            && RawClearTerminal(Slice(rows, b.stop.value), scenario.clearDwell)
               == RawClearTerminal(rows, scenario.clearDwell)
    ensures var b := TargetBoundary(rows, scenario.minTransit, scenario.clearDwell);
            var raw := RawClearTerminal(Slice(rows, b.stop.value), AuditDwell(report));
            var claim := ToFloat(report.terminalTime);
            IsTargetResolution(report) ==>
              raw.Some? && claim.Some? && Distance(claim.value, raw.value) <= TIME_TOL_S
  {
    PassedTargetEvidence(rows, scenario, report, o);
    var b := TargetBoundary(rows, scenario.minTransit, scenario.clearDwell);
    TargetCompliesIff(rows, scenario, b.stop, o.round3);
    TargetAuditorsAgree(rows, scenario.minTransit, scenario.clearDwell);
    SliceKeepsClearTerminal(rows, scenario.minTransit, scenario.clearDwell);
    AuditPassesIff(Slice(rows, b.stop.value), report);
  }

  // ----- A report without a CPA -----

  /** A scoring row in front of time-ordered M4 rows that are exactly one lifecycle. */
  ghost predicate ScoredLifecycle(score: Row, plans: seq<Row>, minTransit: real, i: int, j: int) {
    && score.topic == Scoring && ToFloat(score.scoringCpa).Some?
    && Sorted(Time, plans)
    && (forall r :: r in plans ==> IsBehaviorPlan(r) && HasKnownLabel(r) && ReadsAlike(r))
    && IsLifecycle(plans, minTransit, i, j) && j == |plans| - 1 && score.t <= plans[j].t
  }

  /** A locked give-way scenario without target action, whose own geometry keeps the floor. */
  ghost predicate IsPlainGiveWay(s: Scenario) {
    && !IsTarget(s) && s.fastTerminal == "" && s.compiledRule != "" && s.classification != "" && s.truthLockOk
    && s.ownRole == "GIVE_WAY" && s.targetAction == "" && CpaAccepted(s)
  }

  ghost predicate IsSilent(report: Report) {
    report.minCpa == Absent && report.firstRecovery == Absent && !IsTargetResolution(report)
  }

  ghost predicate ModulesPass(m: ModuleResults) {
    m.m1 && m.m2 && m.m4 && m.m5 && m.m6 && m.l4Gnc && m.m7
  }

  lemma ScoredModes(score: Row, plans: seq<Row>, minTransit: real, i: int, j: int)
    requires ScoredLifecycle(score, plans, minTransit, i, j)
    ensures Modes([score] + plans) == plans
  {
    assert ([score] + plans)[1..] == plans;
    PlainTraceIsItsModes(plans);
    FilterKeepsAll(IsBehaviorPlan, plans);
  }

  lemma ScoredSlice(score: Row, plans: seq<Row>, minTransit: real, i: int, j: int)
    requires ScoredLifecycle(score, plans, minTransit, i, j)
    ensures Slice([score] + plans, plans[j].t) == [score] + plans
  {
    var rows, stop := [score] + plans, plans[j].t;
    forall r | r in rows ensures AtMost(Time, stop)(r) {
      UpToStop(r, stop);
      if r in plans {
        var k :| 0 <= k < |plans| && plans[k] == r;
        assert k < j ==> Time(plans[k]) <= Time(plans[j]);
      }
    }
    FilterKeepsAll(AtMost(Time, stop), rows);
  }

  lemma ScoredBoundary(score: Row, plans: seq<Row>, minTransit: real, i: int, j: int)
    requires ScoredLifecycle(score, plans, minTransit, i, j)
    ensures OwnBoundary([score] + plans, minTransit)
         == Boundary(true, Some(plans[0].t), Some(plans[i].t), Some(plans[j].t), Some(plans[j].t),
                     Some(FirstM4Recovery), None)
    ensures Slice([score] + plans, plans[j].t) == [score] + plans
  {
    ScoredModes(score, plans, minTransit, i, j);
    LifecycleIsReady([score] + plans, minTransit, i, j);
    ScoredSlice(score, plans, minTransit, i, j);
  }

  lemma {:induction false} NoScoring(rows: seq<Row>)
    requires forall r :: r in rows ==> IsBehaviorPlan(r)
    ensures ScoringCpas(rows) == []
  {
    if rows != [] {
      assert IsBehaviorPlan(rows[0]);
      NoScoring(rows[1..]);
    }
  }

  lemma {:induction false} NoDemands(rows: seq<Row>, limit: Option<real>)
    requires forall r :: r in rows ==> !IsConstraint(r)
    ensures Demands(rows, limit) == []
  {
    if rows != [] {
      NoDemands(rows[1..], limit);
    }
  }

  lemma ScoredAudit(score: Row, plans: seq<Row>, minTransit: real, i: int, j: int, report: Report)
    requires ScoredLifecycle(score, plans, minTransit, i, j) && IsSilent(report)
    ensures RawMinCpa([score] + plans) == ToFloat(score.scoringCpa)
    ensures AuditOf([score] + plans, report).Passes()
  {
    var rows := [score] + plans;
    assert rows[1..] == plans;
    NoScoring(plans);
    assert ScoringCpas(rows) == [ToFloat(score.scoringCpa).value];
    ScoredBoundary(score, plans, minTransit, i, j);
    OwnAuditorsAgree(rows, minTransit);
    AuditPassesIff(rows, report);
  }

  lemma PlainEvidence(rows: seq<Row>, s: Scenario, b: Boundary, round3: real -> real)
    requires IsPlainGiveWay(s) && b.stop.Some? && Demands(rows, b.stop) == []
    ensures var e := Gather(rows, s, b, round3);
            e.boundary == b && e.targetOk && e.dynamicOk && e.standOnOk && e.cpaOk
  {
  }

  lemma PlainChainHolds(e: Evidence, s: Scenario, m: ModuleResults)
    requires IsPlainGiveWay(s) && ModulesPass(m) && m.m8
    requires e.targetOk && e.dynamicOk && e.standOnOk && e.cpaOk
    requires e.boundary.ready && e.boundary.avoidanceStart.Some? && e.boundary.TransitDuration() >= s.minTransit
    ensures Compose(e, s, m).passed
  {
    VerdictFollowsTheChain(e, s, m);
    forall c ensures HoldsIn(e, s, m)(c) {
    }
  }

  /** The CPA condition of `PassedOwnRun` is needed: when the report gives no CPA such a trace passes on the
      scenario's own DCPA, whatever distance the scoring row reports. */
  lemma SilentReportPasses(score: Row, plans: seq<Row>, i: int, j: int, s: Scenario, report: Report, o: Oracles)
    requires ScoredLifecycle(score, plans, s.minTransit, i, j) && IsPlainGiveWay(s) && IsSilent(report)
    requires ModulesPass(RunOracles([score] + plans, OwnBoundary([score] + plans, s.minTransit), s, report, o))
    ensures RawMinCpa([score] + plans) == ToFloat(score.scoringCpa)
    ensures Passed([score] + plans, s, report, o)
  {
    var rows := [score] + plans;
    var b := OwnBoundary(rows, s.minTransit);
    var m := RunOracles(rows, b, s, report, o);
    ScoredBoundary(score, plans, s.minTransit, i, j);
    ScoredAudit(score, plans, s.minTransit, i, j, report);
    NoDemands(rows, b.stop);
    ReadyBoundaryIsOrdered(rows, s.minTransit);
    PlainEvidence(rows, s, b, o.round3);
    PlainChainHolds(Gather(rows, s, b, o.round3), s, m);
    EvaluatedVerdict(rows, s, m, o.round3);
  }

  const COLLISION_SCORE := PlanRow(5.0, Absent).(topic := Scoring, scoringCpa := Decimal(0.0))
  const COLLISION_PLANS := [PlanRow(0.0, Whole(0)), PlanRow(60.0, Whole(0)), PlanRow(61.0, Whole(1)),
                            PlanRow(70.0, Whole(7))]
  const WIDE_SCENARIO := Scenario("Rule14", "GIVE_WAY", "interior", true, 60.0, "", 10.0,
                                  "", 0.0, 0.0, 0.0, Absent, Decimal(500.0), Decimal(180.0))

  /** For instance a scoring row of zero metres against a floor of 180. */
  lemma CollisionPasses(score: Row, plans: seq<Row>, s: Scenario, report: Report, o: Oracles)
    requires score == COLLISION_SCORE && plans == COLLISION_PLANS && s == WIDE_SCENARIO && IsSilent(report)
    requires ModulesPass(RunOracles([score] + plans, OwnBoundary([score] + plans, s.minTransit), s, report, o))
    ensures RawMinCpa([score] + plans) == Some(0.0)
    ensures Passed([score] + plans, s, report, o)
  {
    CollisionScored(score, plans);
    WideIsPlain(s);
    SilentReportPasses(score, plans, 2, 3, s, report, o);
  }

  lemma WideIsPlain(s: Scenario)
    requires s == WIDE_SCENARIO
    ensures IsPlainGiveWay(s) && s.minTransit == 60.0
  {
  }

  lemma CollisionScored(score: Row, plans: seq<Row>)
    requires score == COLLISION_SCORE && plans == COLLISION_PLANS
    ensures ScoredLifecycle(score, plans, 60.0, 2, 3)
  {
    forall r | r in plans ensures ReadsAlike(r) {
      ReadsAlikeIff(r);
    }
  }
}
